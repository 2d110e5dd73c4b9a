/**
 * The audio module (modules/audio.rs): icon, template and CSS class for a
 * volume, the reading of `pactl` output, and the commands sent when the
 * button is clicked or scrolled.
 *
 * Commands are described by their argument vectors; running them is left
 * to the caller.
 */
module Audio {
  import opened Base

  datatype Backend = PipeWire | PulseAudio | Unknown

  datatype AudioInfo = AudioInfo(volume: int, muted: bool, backend: Backend)

  datatype AudioConfig = AudioConfig(
    format: string,
    formatMuted: string,
    onClick: string,
    onScrollUp: string,
    onScrollDown: string,
    scrollStep: int)

  // ---------------------------------------------------------------------
  // Display
  // ---------------------------------------------------------------------

  const ICON_MUTED: string := "\U{00EEE8}"
  const ICON_LOW: string := "\U{00F026}"
  const ICON_MEDIUM: string := "\U{00F027}"
  const ICON_HIGH: string := "\U{00F028}"

  /** `get_icon_for_volume`: muted and silent share a glyph; then bands at 33 and 66. */
  function IconForVolume(volume: int, muted: bool): (icon: string)
    ensures icon == ICON_MUTED <==> muted || volume == 0
    ensures icon == ICON_LOW <==> !muted && volume != 0 && volume <= 33
    ensures icon == ICON_MEDIUM <==> !muted && 33 < volume <= 66
    ensures icon == ICON_HIGH <==> !muted && volume > 66
  {
    if muted then ICON_MUTED
    else if volume == 0 then ICON_MUTED
    else if volume <= 33 then ICON_LOW
    else if volume <= 66 then ICON_MEDIUM
    else ICON_HIGH
  }

  /** `update_label`'s CSS class: muted, then bands at 33 and 66 (a silent sink counts as low). */
  function CssClass(volume: int, muted: bool): (c: string)
    ensures c == "muted" <==> muted
    ensures c == "low" <==> !muted && volume <= 33
    ensures c == "medium" <==> !muted && 33 < volume <= 66
    ensures c == "high" <==> !muted && volume > 66
  {
    if muted then "muted"
    else if volume <= 33 then "low"
    else if volume <= 66 then "medium"
    else "high"
  }

  /** Above zero the icon and the class fall in the same band. */
  lemma ClassMatchesIcon(volume: int, muted: bool)
    requires muted || volume != 0
    ensures var c := CssClass(volume, muted); var icon := IconForVolume(volume, muted);
      && (c == "muted" <==> icon == ICON_MUTED)
      && (c == "low" <==> icon == ICON_LOW)
      && (c == "medium" <==> icon == ICON_MEDIUM)
      && (c == "high" <==> icon == ICON_HIGH)
  {
  }

  /** The template: the muted one exactly when muted. */
  function Template(muted: bool, cfg: AudioConfig): (t: string)
    ensures muted ==> t == cfg.formatMuted
    ensures !muted ==> t == cfg.format
  {
    if muted then cfg.formatMuted else cfg.format
  }

  /** The placeholders of the label, in the order they are replaced. */
  function Fills(info: AudioInfo): (f: seq<(string, Piece)>)
    ensures LiteralFills(f) && FillsOk(f)
  {
    var icon := IconForVolume(info.volume, info.muted);
    assert '{' !in icon by { assert |icon| == 1 && icon[0] != '{'; }
    [("icon", Lit(icon)), ("volume", Lit(IntToString(info.volume)))]
  }

  /** The label text: `{icon}` and then `{volume}` filled in. */
  function LabelText(info: AudioInfo, cfg: AudioConfig): string
  {
    FillTemplate(Template(info.muted, cfg), Fills(info))
  }

  /**
   * Every `{icon}` and `{volume}` of the template is replaced by the icon
   * and the decimal volume; every other placeholder and all literal text
   * are kept.
   */
  lemma LabelTextFillsPlaceholders(ps: seq<Piece>, info: AudioInfo, cfg: AudioConfig)
    requires TemplateOk(ps) && Template(info.muted, cfg) == Render(ps)
    ensures LabelText(info, cfg) == Render(SubstituteAll(ps, Fills(info)))
  {
    FillTemplateSubstitutes(ps, Fills(info));
  }

  /** A template without placeholders is shown as it is. */
  lemma LabelTextWithoutBraces(info: AudioInfo, cfg: AudioConfig)
    requires '{' !in Template(info.muted, cfg)
    ensures LabelText(info, cfg) == Template(info.muted, cfg)
  {
    FillTemplateWithoutBraces(Template(info.muted, cfg), Fills(info));
  }

  /** A template of just `{volume}` shows the volume in decimal. */
  lemma LabelTextVolumeOnly(info: AudioInfo, cfg: AudioConfig)
    requires Template(info.muted, cfg) == "{volume}"
    ensures LabelText(info, cfg) == IntToString(info.volume)
    ensures ParseInt(LabelText(info, cfg)) == Some(info.volume)
  {
    var ps := [Hole("volume")];
    assert Render(ps) == "{volume}" by { assert Render(ps[1..]) == ""; }
    LabelTextFillsPlaceholders(ps, info, cfg);
    var f := Fills(info);
    assert Lookup(f, "volume") == Some(Lit(IntToString(info.volume))) by {
      assert f[1..][0].0 == "volume";
    }
    var out := SubstituteAll(ps, f);
    assert out[0] == Lit(IntToString(info.volume));
    assert Render(out) == IntToString(info.volume) by { assert Render(out[1..]) == ""; }
    IntToStringRoundTrip(info.volume);
  }

  // ---------------------------------------------------------------------
  // Reading the backend
  // ---------------------------------------------------------------------

  /** `detect_audio_backend`: whether `wpctl`, then `pactl`, can be started at all. */
  function DetectBackend(wpctlStarts: bool, pactlStarts: bool): (b: Backend)
    ensures b == PipeWire <==> wpctlStarts
    ensures b == PulseAudio <==> !wpctlStarts && pactlStarts
    ensures b == Unknown <==> !wpctlStarts && !pactlStarts
  {
    if wpctlStarts then PipeWire else if pactlStarts then PulseAudio else Unknown
  }

  /** A `pactl get-sink-volume` word that reads as a percentage. */
  function PercentWord(w: string): (r: Option<int>)
    ensures r.Some? ==> EndsWith(w, "%") && IsI32(r.value)
    ensures r.Some? ==> r == ParseI32(TrimEndMatches(w, '%'))
  {
    if EndsWith(w, "%") then ParseI32(TrimEndMatches(w, '%')) else None
  }

  /** Word `k` is the first that reads as a percentage. */
  predicate FirstPercentAt(words: seq<string>, k: int) {
    && 0 <= k < |words|
    && PercentWord(words[k]).Some?
    && forall j | 0 <= j < k :: PercentWord(words[j]).None?
  }

  /** The volume in `pactl` output: the first word that reads as a percentage, or 0. */
  function PactlVolume(output: string): (v: int)
    ensures IsI32(v)
    ensures var words := SplitWhitespace(output);
      && (forall k | FirstPercentAt(words, k) :: v == PercentWord(words[k]).value)
      && ((forall k | 0 <= k < |words| :: PercentWord(words[k]).None?) ==> v == 0)
  {
    var words := SplitWhitespace(output);
    FirstOf(words, PercentWord).GetOr(0)
  }

  /** Output that opens with `N%` reads as `N`, whatever follows the first blank. */
  lemma PactlVolumeLeadingPercent(n: int, rest: string)
    requires IsI32(n) && |rest| > 0 && IsWhitespace(rest[0])
    ensures PactlVolume(IntToString(n) + "%" + rest) == n
  {
    var d := IntToString(n);
    var w := d + "%";
    var output := w + rest;
    assert NoWhitespace(w) by {
      forall i | 0 <= i < |w| ensures !IsWhitespace(w[i]) {
        if i < |d| { assert w[i] == d[i]; assert IsDigit(d[i]) || d[i] == '-'; }
      }
    }
    assert TrimStart(output) == output by { assert output[0] == d[0]; assert IsDigit(d[0]) || d[0] == '-'; }
    WordLenOfWord(w, rest);
    assert output[..|w|] == w;
    var words := SplitWhitespace(output);
    assert words[0] == w;
    assert TrimEndMatches(w, '%') == d by {
      assert w[..|w| - 1] == d;
      assert d[|d| - 1] != '%' by { assert IsDigit(d[|d| - 1]) || d[|d| - 1] == '-'; }
    }
    assert w[|w| - 1..] == "%";
    IntToStringRoundTrip(n);
    assert FirstPercentAt(words, 0);
  }

  /** The output `65536 / 42%` reads as 42. */
  lemma PactlVolumeExample()
    ensures PercentWord("42%") == Some(42)
    ensures PercentWord("/").None? && PercentWord("65536").None?
  {
    assert "42%"[3 - 1..] == "%";
    assert TrimEndMatches("42%", '%') == "42" by {
      assert "42%"[..2] == "42";
      assert TrimEndMatches("42", '%') == "42";
    }
    assert DigitsValue("42") == 42 by {
      assert "42"[..1] == "4";
      assert DigitsValue("4") == 4 by { assert "4"[..0] == ""; }
    }
    assert ParseInt("42") == Some(42);
  }

  /** `get_pulseaudio_info`: volume from one command, mute from another; a command that cannot start leaves the default. */
  function PulseInfo(volumeOutput: Option<string>, muteOutput: Option<string>): (info: AudioInfo)
    ensures info.backend == PulseAudio
    ensures volumeOutput.None? ==> info.volume == 0
    ensures volumeOutput.Some? ==> info.volume == PactlVolume(volumeOutput.value)
    ensures info.muted <==> muteOutput.Some? && Contains(muteOutput.value, "yes")
  {
    var volume := match volumeOutput case Some(o) => PactlVolume(o) case None => 0;
    var muted := match muteOutput case Some(o) => Contains(o, "yes") case None => false;
    AudioInfo(volume, muted, PulseAudio)
  }

  /**
   * `get_pipewire_info`: muted when `wpctl` prints `[MUTED]`; the volume is
   * the second word read as a fraction and scaled, which is given here as
   * `scaled` (the floating-point parse is not modelled).
   */
  function PipeWireInfo(output: Option<string>, scaled: Option<int>): (info: AudioInfo)
    ensures info.backend == PipeWire
    ensures output.None? ==> info == AudioInfo(0, false, PipeWire)
    ensures output.Some? ==> info.muted == Contains(output.value, "[MUTED]") && info.volume == scaled.GetOr(0)
  {
    match output
    case None => AudioInfo(0, false, PipeWire)
    case Some(o) => AudioInfo(scaled.GetOr(0), Contains(o, "[MUTED]"), PipeWire)
  }

  // ---------------------------------------------------------------------
  // Commands
  // ---------------------------------------------------------------------

  /** What a click or a scroll does. */
  datatype Action = RunShell(command: string) | ToggleMute | ChangeVolume(delta: int)

  /** A click runs the configured command, or toggles mute when there is none. */
  function ClickAction(cfg: AudioConfig): (a: Action)
    ensures cfg.onClick != "" <==> a == RunShell(cfg.onClick)
    ensures cfg.onClick == "" <==> a == ToggleMute
  {
    if cfg.onClick != "" then RunShell(cfg.onClick) else ToggleMute
  }

  /**
   * A scroll (`up` when the vertical delta is negative) runs the configured
   * command for that direction, or changes the volume by the step, upwards
   * or downwards.
   */
  function ScrollAction(up: bool, cfg: AudioConfig): (a: Action)
    requires IsI32(cfg.scrollStep) && cfg.scrollStep != I32_MIN
    ensures up && cfg.onScrollUp != "" ==> a == RunShell(cfg.onScrollUp)
    ensures up && cfg.onScrollUp == "" ==> a == ChangeVolume(cfg.scrollStep)
    ensures !up && cfg.onScrollDown != "" ==> a == RunShell(cfg.onScrollDown)
    ensures !up && cfg.onScrollDown == "" ==> a == ChangeVolume(-cfg.scrollStep)
    ensures a.ChangeVolume? ==> IsI32(a.delta)
  {
    if up then
      if cfg.onScrollUp != "" then RunShell(cfg.onScrollUp) else ChangeVolume(cfg.scrollStep)
    else
      if cfg.onScrollDown != "" then RunShell(cfg.onScrollDown) else ChangeVolume(-cfg.scrollStep)
  }

  /** The command-line tool that drives a backend. */
  function Tool(b: Backend): string
  {
    match b
    case PipeWire => "wpctl"
    case PulseAudio => "pactl"
    case Unknown => ""
  }

  /** The name a tool gives the default output sink. */
  function DefaultSink(b: Backend): string
  {
    match b
    case PipeWire => "@DEFAULT_AUDIO_SINK@"
    case PulseAudio => "@DEFAULT_SINK@"
    case Unknown => ""
  }

  /** `toggle_mute`'s command line: the backend's own tool toggles its default sink's mute. */
  function ToggleMuteCommand(b: Backend): (argv: seq<string>)
    ensures b == Unknown <==> argv == []
    ensures b != Unknown ==> |argv| == 4 && argv[0] == Tool(b) && argv[2] == DefaultSink(b) && argv[3] == "toggle"
    ensures b == PipeWire ==> argv[1] == "set-mute"
    ensures b == PulseAudio ==> argv[1] == "set-sink-mute"
  {
    match b
    case PipeWire => ["wpctl", "set-mute", "@DEFAULT_AUDIO_SINK@", "toggle"]
    case PulseAudio => ["pactl", "set-sink-mute", "@DEFAULT_SINK@", "toggle"]
    case Unknown => []
  }

  /** `change_volume`'s `wpctl` argument: `N%+` to raise, `N%-` to lower. */
  function PipeWireArg(delta: int): (arg: string)
    requires IsI32(delta)
    ensures |arg| >= 3 && arg[|arg| - 2] == '%'
    ensures arg[|arg| - 1] == '+' <==> delta > 0
    ensures arg[|arg| - 1] == '-' <==> delta <= 0
  {
    if delta > 0 then IntToString(delta) + "%+" else IntToString(WrapI32(-delta)) + "%-"
  }

  /**
   * `change_volume`'s `pactl` argument, as written: `+N%` to raise,
   * otherwise the delta itself; so a zero delta carries no sign.
   */
  function PulseArgAsWritten(delta: int): (arg: string)
    requires IsI32(delta)
    ensures |arg| >= 2 && arg[|arg| - 1] == '%'
    ensures arg[0] == '+' <==> delta > 0
    ensures arg[0] == '-' <==> delta < 0
    ensures ParseInt(arg[..|arg| - 1]) == Some(delta)
  {
    IntToStringRoundTrip(delta);
    if delta > 0 then
      var body := "+" + IntToString(delta);
      assert body[1..] == IntToString(delta);
      DigitsOfNat(delta);
      var arg := body + "%";
      assert arg[..|arg| - 1] == body;
      arg
    else
      var arg := IntToString(delta) + "%";
      assert arg[..|arg| - 1] == IntToString(delta);
      arg
  }

  /** `change_volume`'s `pactl` argument with a sign always written, so it is always relative. */
  function PulseArg(delta: int): (arg: string)
    requires IsI32(delta)
    ensures delta != 0 ==> arg == PulseArgAsWritten(delta)
    ensures delta == 0 ==> arg == "+0%"
  {
    if delta >= 0 then "+" + IntToString(delta) + "%" else IntToString(delta) + "%"
  }

  /** `change_volume`'s command line, as written: the backend's tool sets its default sink's volume. */
  function ChangeVolumeCommandAsWritten(b: Backend, delta: int): (argv: seq<string>)
    requires IsI32(delta)
    ensures b == Unknown <==> argv == []
    ensures b != Unknown ==> |argv| == 4 && argv[0] == Tool(b) && argv[2] == DefaultSink(b)
    ensures b == PipeWire ==> argv[1] == "set-volume" && argv[3] == PipeWireArg(delta)
    ensures b == PulseAudio ==> argv[1] == "set-sink-volume" && argv[3] == PulseArgAsWritten(delta)
  {
    match b
    case PipeWire => ["wpctl", "set-volume", "@DEFAULT_AUDIO_SINK@", PipeWireArg(delta)]
    case PulseAudio => ["pactl", "set-sink-volume", "@DEFAULT_SINK@", PulseArgAsWritten(delta)]
    case Unknown => []
  }

  /** `change_volume`'s command line, with the corrected `pactl` argument. */
  function ChangeVolumeCommand(b: Backend, delta: int): (argv: seq<string>)
    requires IsI32(delta)
    ensures b == Unknown <==> argv == []
    ensures b != Unknown ==> |argv| == 4 && argv[0] == Tool(b) && argv[2] == DefaultSink(b)
    ensures b == PipeWire ==> argv[1] == "set-volume" && argv[3] == PipeWireArg(delta)
    ensures b == PulseAudio ==> argv[1] == "set-sink-volume" && argv[3] == PulseArg(delta)
  {
    match b
    case PipeWire => ["wpctl", "set-volume", "@DEFAULT_AUDIO_SINK@", PipeWireArg(delta)]
    case PulseAudio => ["pactl", "set-sink-volume", "@DEFAULT_SINK@", PulseArg(delta)]
    case Unknown => []
  }

  /** The correction changes exactly one command: `pactl` with a zero step. */
  lemma ChangeVolumeCorrectionOnlyAtZero(b: Backend, delta: int)
    requires IsI32(delta)
    ensures ChangeVolumeCommand(b, delta) == ChangeVolumeCommandAsWritten(b, delta)
      <==> !(b == PulseAudio && delta == 0)
  {
    if b == PulseAudio && delta == 0 {
      assert ChangeVolumeCommand(b, delta)[3] == "+0%";
      assert ChangeVolumeCommandAsWritten(b, delta)[3] == "0%";
    }
  }

  /** Muting and changing the volume address the same tool and the same sink. */
  lemma CommandsShareToolAndSink(b: Backend, delta: int)
    requires IsI32(delta) && b != Unknown
    ensures var m, c := ToggleMuteCommand(b), ChangeVolumeCommand(b, delta);
      m[0] == c[0] && m[2] == c[2]
  {
  }

  // ---------------------------------------------------------------------
  // What the volume arguments mean to the tools
  // ---------------------------------------------------------------------

  /** A volume request: change by a signed amount, or set outright. */
  datatype VolumeRequest = Relative(amount: int) | Absolute(percent: int)

  /** How `pactl set-sink-volume` reads `[+|-]N%`: a sign makes it relative, no sign sets it. */
  function PactlRequest(arg: string): (r: Option<VolumeRequest>)
  {
    if |arg| >= 2 && arg[|arg| - 1] == '%' then
      var body := arg[..|arg| - 1];
      match ParseInt(body)
      case None => None
      case Some(v) => if body[0] == '+' || body[0] == '-' then Some(Relative(v)) else Some(Absolute(v))
    else None
  }

  /** How `wpctl set-volume` reads `N%+` and `N%-`: a step up or down. */
  function WpctlRequest(arg: string): (r: Option<VolumeRequest>)
  {
    if |arg| >= 3 && arg[|arg| - 2] == '%' && (arg[|arg| - 1] == '+' || arg[|arg| - 1] == '-') then
      var body := arg[..|arg| - 2];
      if |body| >= 1 && AllDigits(body) then
        Some(Relative(if arg[|arg| - 1] == '+' then DigitsValue(body) else -(DigitsValue(body) as int)))
      else None
    else None
  }

  /** The resulting volume: relative changes stop at zero. */
  function Apply(current: nat, r: VolumeRequest): (v: int)
  {
    match r
    case Relative(a) => if current + a < 0 then 0 else current + a
    case Absolute(p) => p
  }

  /** The `wpctl` argument asks for exactly a change by `delta`. */
  lemma PipeWireArgMeansDelta(delta: int)
    requires IsI32(delta) && delta != I32_MIN
    ensures WpctlRequest(PipeWireArg(delta)) == Some(Relative(delta))
  {
    var n := if delta > 0 then delta else -delta;
    var arg := PipeWireArg(delta);
    var digits := IntToString(n);
    assert arg == digits + [ '%', if delta > 0 then '+' else '-'];
    assert arg[..|arg| - 2] == digits;
    DigitsOfNat(n);
  }

  /** A non-zero `pactl` argument, as written, asks for exactly a change by `delta`. */
  lemma PulseArgAsWrittenMeansDelta(delta: int)
    requires IsI32(delta) && delta != 0
    ensures PactlRequest(PulseArgAsWritten(delta)) == Some(Relative(delta))
  {
    PulseArgMeansDelta(delta);
  }

  /**
   * With a zero step the `pactl` argument, as written, is `0%`: it sets
   * the volume to zero instead of leaving it alone, while `wpctl` is
   * asked for no change.
   */
  lemma PulseZeroStepSilences(current: nat)
    requires current > 0
    ensures PulseArgAsWritten(0) == "0%"
    ensures PactlRequest(PulseArgAsWritten(0)) == Some(Absolute(0))
    ensures Apply(current, PactlRequest(PulseArgAsWritten(0)).value) == 0 != current
    ensures Apply(current, WpctlRequest(PipeWireArg(0)).value) == current
  {
    assert PulseArgAsWritten(0) == "0%";
    assert "0%"[..1] == "0";
    assert DigitsValue("0") == 0 by { assert "0"[..0] == ""; }
    PipeWireArgMeansDelta(0);
  }

  /** The corrected `pactl` argument asks for exactly a change by `delta`, zero included. */
  lemma PulseArgMeansDelta(delta: int)
    requires IsI32(delta)
    ensures PactlRequest(PulseArg(delta)) == Some(Relative(delta))
  {
    if delta >= 0 {
      var digits := IntToString(delta);
      var body := "+" + digits;
      assert body[1..] == digits;
      DigitsOfNat(delta);
      assert ParseInt(body) == Some(delta);
      PactlReadsSignedBody(body);
      assert PulseArg(delta) == body + "%";
    } else {
      IntToStringRoundTrip(delta);
      PactlReadsSignedBody(IntToString(delta));
    }
  }

  /** A signed number followed by `%` is a relative request for that number. */
  lemma PactlReadsSignedBody(body: string)
    requires ParseInt(body).Some? && (body[0] == '+' || body[0] == '-')
    ensures PactlRequest(body + "%") == Some(Relative(ParseInt(body).value))
  {
    var arg := body + "%";
    assert arg[..|arg| - 1] == body;
  }

  /** Scrolling with the corrected commands asks either tool for a change by exactly the step. */
  lemma ScrollChangesByStep(up: bool, cfg: AudioConfig)
    requires IsI32(cfg.scrollStep) && cfg.scrollStep != I32_MIN
    requires up ==> cfg.onScrollUp == ""
    requires !up ==> cfg.onScrollDown == ""
    ensures var a := ScrollAction(up, cfg);
      && a == ChangeVolume(if up then cfg.scrollStep else -cfg.scrollStep)
      && PactlRequest(PulseArg(a.delta)) == Some(Relative(a.delta))
      && WpctlRequest(PipeWireArg(a.delta)) == Some(Relative(a.delta))
  {
    var d := if up then cfg.scrollStep else -cfg.scrollStep;
    assert IsI32(d) && d != I32_MIN;
    PulseArgMeansDelta(d);
    PipeWireArgMeansDelta(d);
  }

  /** Both tools, given the corrected arguments, end at the same volume. */
  lemma BackendsAgree(d: int, current: nat)
    requires IsI32(d) && d != I32_MIN
    ensures var pactl, wpctl := PactlRequest(PulseArg(d)), WpctlRequest(PipeWireArg(d));
      && pactl.Some? && wpctl.Some?
      && Apply(current, pactl.value) == Apply(current, wpctl.value)
  {
    PulseArgMeansDelta(d);
    PipeWireArgMeansDelta(d);
  }
}
