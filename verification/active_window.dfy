/**
 * The active-window module (modules/active_window.rs): which compositor to
 * talk to, how a window change is read off Hyprland's event socket or
 * Sway's IPC socket, and what the button shows.
 *
 * Environment lookups and socket reads are inputs here: a flag per
 * environment variable, an event line, a received header and payload.
 */
module ActiveWindow {
  import opened Base
  import opened Util

  // ---------------------------------------------------------------------
  // Compositor detection
  // ---------------------------------------------------------------------

  datatype Compositor = Hyprland | Sway | Unsupported

  /**
   * `detect_compositor`: a set HYPRLAND_INSTANCE_SIGNATURE wins over a set
   * SWAYSOCK; with neither the compositor is unsupported.
   */
  function DetectCompositor(hyprlandSignatureSet: bool, swaySockSet: bool): (c: Compositor)
    ensures c == Hyprland <==> hyprlandSignatureSet
    ensures c == Sway <==> !hyprlandSignatureSet && swaySockSet
    ensures c == Unsupported <==> !hyprlandSignatureSet && !swaySockSet
  {
    if hyprlandSignatureSet then Hyprland
    else if swaySockSet then Sway
    else Unsupported
  }

  const DEFAULT_RUNTIME_DIR: string := "/run/user/1000"

  /** `connect_hyprland`'s socket path; XDG_RUNTIME_DIR falls back to a fixed directory. */
  function HyprlandSocketPath(runtimeDir: Option<string>, instance: string): (p: string)
    ensures StartsWith(p, runtimeDir.GetOr(DEFAULT_RUNTIME_DIR) + "/hypr/")
    ensures EndsWith(p, instance + "/.socket2.sock")
    ensures |p| == |runtimeDir.GetOr(DEFAULT_RUNTIME_DIR)| + |instance| + 20
  {
    var dir := runtimeDir.GetOr(DEFAULT_RUNTIME_DIR);
    var p := dir + "/hypr/" + instance + "/.socket2.sock";
    assert p == (dir + "/hypr/") + (instance + "/.socket2.sock");
    p
  }

  // ---------------------------------------------------------------------
  // The dependency-free JSON field lookup
  // ---------------------------------------------------------------------

  /** The text that introduces a string field: `"field":"`. */
  function FieldPattern(field: string): (p: string)
    ensures |p| == |field| + 4
    ensures StartsWith(p, ['"'] + field)
  {
    ['"'] + field + ['"', ':', '"']
  }

  /**
   * `extract_field`: the text between the first `"field":"` and the next
   * double quote; nothing when either is missing. Escaped quotes are not
   * understood: the value ends at the first quote whatever precedes it.
   */
  function ExtractField(json: string, field: string): (r: Option<string>)
    ensures IndexOf(json, FieldPattern(field)).None? ==> r.None?
    ensures IndexOf(json, FieldPattern(field)).Some? ==>
      var start := IndexOf(json, FieldPattern(field)).value + |FieldPattern(field)|;
      && start <= |json|
      && (r.Some? <==> '"' in json[start..])
      && (r.Some? ==> start + |r.value| < |json| && json[start..start + |r.value|] == r.value
                      && json[start + |r.value|] == '"')
    ensures r.Some? ==> '"' !in r.value
    ensures r.Some? ==> Contains(json, FieldPattern(field) + r.value + ['"'])
  {
    var pattern := FieldPattern(field);
    match IndexOf(json, pattern)
    case None => None
    case Some(i) =>
      match QuotedFrom(json, i + |pattern|)
      case None => None
      case Some(v) =>
        PatternThenValue(json, pattern, i, v);
        Some(v)
  }

  /** The text from `start` up to the next double quote; nothing when no quote follows. */
  function QuotedFrom(json: string, start: nat): (r: Option<string>)
    requires start <= |json|
    ensures r.Some? <==> '"' in json[start..]
    ensures r.Some? ==> && start + |r.value| < |json|
                        && json[start..start + |r.value|] == r.value
                        && json[start + |r.value|] == '"'
                        && '"' !in r.value
  {
    var tail := json[start..];
    match IndexOf(tail, ['"'])
    case None =>
      assert '"' !in tail by {
        forall k | 0 <= k < |tail| ensures tail[k] != '"' { OccursAtChar(tail, '"', k); }
      }
      None
    case Some(end) =>
      FirstQuote(tail, end);
      assert json[start..start + end] == tail[..end];
      Some(tail[..end])
  }

  /** `find('"')` stops at a quote, and there is none before it. */
  lemma FirstQuote(tail: string, end: nat)
    requires OccursAt(tail, ['"'], end)
    requires forall j | 0 <= j < end :: !OccursAt(tail, ['"'], j)
    ensures end < |tail| && tail[end] == '"' && '"' !in tail[..end]
  {
    OccursAtChar(tail, '"', end);
    forall k | 0 <= k < end ensures tail[..end][k] != '"' {
      OccursAtChar(tail, '"', k);
    }
  }

  /** A pattern, then a value, then a quote: the three occur together where the pattern does. */
  lemma PatternThenValue(json: string, pattern: string, i: nat, v: string)
    requires OccursAt(json, pattern, i)
    requires var start := i + |pattern|;
      && start + |v| < |json|
      && json[start..start + |v|] == v
      && json[start + |v|] == '"'
    ensures OccursAt(json, pattern + v + ['"'], i)
  {
    var start := i + |pattern|;
    assert json[i..start] == pattern;
    assert json[start..start + |v| + 1] == v + ['"'];
    assert json[i..start + |v| + 1] == json[i..start] + json[start..start + |v| + 1];
  }

  /**
   * A string field written at the front of an object is read back exactly,
   * whatever follows its closing quote.
   */
  lemma ExtractFieldReadsWrittenValue(field: string, v: string, rest: string)
    requires '"' !in v
    ensures ExtractField(FieldPattern(field) + v + ['"'] + rest, field) == Some(v)
  {
    var pattern := FieldPattern(field);
    var json := pattern + v + ['"'] + rest;
    var start := |pattern|;
    assert OccursAt(json, pattern, 0) by { assert json[..|pattern|] == pattern; }
    IndexOfIsFirst(json, pattern, 0);
    assert json[start + |v|] == '"';
    assert json[start..start + |v|] == v;
    assert '"' in json[start..] by { assert json[start..][|v|] == '"'; }
    var r := ExtractField(json, field);
    assert r.value == json[start..start + |v|];
  }

  /** A field missing from the text is read as absent. */
  lemma ExtractFieldAbsent(json: string, field: string)
    requires !Contains(json, FieldPattern(field))
    ensures ExtractField(json, field).None?
  {
    ContainsIffIndexOf(json, FieldPattern(field));
  }

  // ---------------------------------------------------------------------
  // Hyprland: event lines and the initial query
  // ---------------------------------------------------------------------

  const ACTIVE_WINDOW_EVENT: string := "activewindow>>"

  /**
   * One line of Hyprland's event socket: an `activewindow>>class,title`
   * event gives the class and title (the first two comma-separated parts,
   * so a title with a comma is cut there); every other line gives nothing.
   */
  function ParseHyprlandLine(line: string): (r: Option<(string, string)>)
    ensures r.Some? <==> StartsWith(line, ACTIVE_WINDOW_EVENT) && ',' in line[|ACTIVE_WINDOW_EVENT|..]
    ensures r.Some? ==> ',' !in r.value.0 && ',' !in r.value.1
    ensures r.Some? ==> StartsWith(line, ACTIVE_WINDOW_EVENT + (r.value.0 + [','] + r.value.1))
    ensures r.Some? ==> var n := |ACTIVE_WINDOW_EVENT| + |r.value.0| + 1 + |r.value.1|;
      n == |line| || line[n] == ','
  {
    if !StartsWith(line, ACTIVE_WINDOW_EVENT) then None
    else
      var rest := line[|ACTIVE_WINDOW_EVENT|..];
      var parts := Split(rest, ',');
      if |parts| >= 2 then
        EventPrefixExtends(line, rest, parts[0] + [','] + parts[1]);
        SplitSecondCut(rest, ',');
        assert |ACTIVE_WINDOW_EVENT| + |rest| == |line|;
        Some((parts[0], parts[1]))
      else None
  }

  lemma EventPrefixExtends(line: string, rest: string, q: string)
    requires StartsWith(line, ACTIVE_WINDOW_EVENT) && rest == line[|ACTIVE_WINDOW_EVENT|..]
    requires StartsWith(rest, q)
    ensures StartsWith(line, ACTIVE_WINDOW_EVENT + q)
  {
    assert line == ACTIVE_WINDOW_EVENT + rest;
    assert line[..|ACTIVE_WINDOW_EVENT| + |q|] == ACTIVE_WINDOW_EVENT + rest[..|q|];
  }

  /** An event line built from a comma-free class and title parses back to them. */
  lemma HyprlandLineRoundTrip(windowClass: string, title: string)
    requires ',' !in windowClass && ',' !in title
    ensures ParseHyprlandLine(ACTIVE_WINDOW_EVENT + windowClass + [','] + title) == Some((windowClass, title))
  {
    var rest := windowClass + [','] + title;
    var line := ACTIVE_WINDOW_EVENT + rest;
    assert line[..|ACTIVE_WINDOW_EVENT|] == ACTIVE_WINDOW_EVENT;
    assert line[|ACTIVE_WINDOW_EVENT|..] == rest;
    SplitTwoWords(windowClass, ',', title);
    assert ACTIVE_WINDOW_EVENT + windowClass + [','] + title == line;
  }

  /** The window `hyprctl activewindow -j` reports: both fields must be present. */
  function WindowFields(json: string): (r: Option<(string, string)>)
    ensures r.Some? <==> ExtractField(json, "class").Some? && ExtractField(json, "title").Some?
    ensures r.Some? ==> r.value == (ExtractField(json, "class").value, ExtractField(json, "title").value)
  {
    match (ExtractField(json, "class"), ExtractField(json, "title"))
    case (Some(c), Some(t)) => Some((c, t))
    case _ => None
  }

  /**
   * `get_hyprland_window`: `hyprctl` must start and exit successfully before
   * its output is read for the window.
   */
  function HyprlandWindow(hyprctl: CommandResult): (r: Option<(string, string)>)
    ensures !(hyprctl.Ran? && hyprctl.success) ==> r.None?
    ensures hyprctl.Ran? && hyprctl.success ==> r == WindowFields(hyprctl.stdout)
  {
    match hyprctl
    case NotStarted => None
    case Ran(ok, json) => if ok then WindowFields(json) else None
  }

  // ---------------------------------------------------------------------
  // Sway: the i3 IPC framing
  // ---------------------------------------------------------------------

  /** The magic string that opens every i3 IPC message: "i3-ipc". */
  const MAGIC: seq<byte> := [0x69, 0x33, 0x2d, 0x69, 0x70, 0x63]

  /** i3 IPC message type SUBSCRIBE. */
  const SUBSCRIBE: int := 2

  /** Magic, 32-bit payload length, 32-bit message type. */
  const HEADER_LEN: int := 14

  /** A little-endian 32-bit unsigned integer in four bytes. */
  function U32Le(n: int): (b: seq<byte>)
    requires 0 <= n < TWO_32
    ensures |b| == 4
  {
    var q1 := n / 256;
    var q2 := q1 / 256;
    [n % 256, q1 % 256, q2 % 256, q2 / 256]
  }

  /** `u32::from_le_bytes`. */
  function U32FromLe(b: seq<byte>): (n: int)
    requires |b| == 4
    ensures 0 <= n < TWO_32
  {
    var b0: int, b1: int, b2: int, b3: int := b[0], b[1], b[2], b[3];
    b0 + 256 * b1 + 65536 * b2 + 16777216 * b3
  }

  lemma U32LeRoundTrip(n: int)
    requires 0 <= n < TWO_32
    ensures U32FromLe(U32Le(n)) == n
  {
    var q1 := n / 256;
    var q2 := q1 / 256;
    assert n == n % 256 + 256 * q1;
    assert q1 == q1 % 256 + 256 * q2;
    assert q2 == q2 % 256 + 256 * (q2 / 256);
  }

  lemma U32FromLeRoundTrip(b: seq<byte>)
    requires |b| == 4
    ensures U32Le(U32FromLe(b)) == b
  {
    var b0: int, b1: int, b2: int, b3: int := b[0], b[1], b[2], b[3];
    var n := U32FromLe(b);
    assert n / 256 == b1 + 256 * b2 + 65536 * b3;
    assert n / 256 / 256 == b2 + 256 * b3;
    assert n / 256 / 256 / 256 == b3;
  }

  /** `listen_sway`'s payload length: header bytes 6 to 9, little-endian. */
  function PayloadLength(header: seq<byte>): (len: int)
    requires |header| == HEADER_LEN
    ensures 0 <= len < TWO_32
  {
    U32FromLe(header[6..10])
  }

  /** An i3 IPC message: magic, payload length, message type, payload. */
  function EncodeMessage(msgType: int, payload: seq<byte>): (m: seq<byte>)
    requires 0 <= msgType < TWO_32 && |payload| < TWO_32
    ensures |m| == HEADER_LEN + |payload|
    ensures m[..6] == MAGIC && m[HEADER_LEN..] == payload
  {
    MAGIC + U32Le(|payload|) + U32Le(msgType) + payload
  }

  /** A reader of a well-formed message is told exactly how many payload bytes follow. */
  lemma EncodedLengthIsPayloadLength(msgType: int, payload: seq<byte>)
    requires 0 <= msgType < TWO_32 && |payload| < TWO_32
    ensures var m := EncodeMessage(msgType, payload);
      && PayloadLength(m[..HEADER_LEN]) == |payload|
      && U32FromLe(m[10..14]) == msgType
  {
    var m := EncodeMessage(msgType, payload);
    assert m[..HEADER_LEN][6..10] == U32Le(|payload|);
    assert m[10..14] == U32Le(msgType);
    U32LeRoundTrip(|payload|);
    U32LeRoundTrip(msgType);
  }

  /** The payload `["window"]`: subscribe to window events. */
  const WINDOW_EVENTS: seq<byte> := [0x5b, 0x22, 0x77, 0x69, 0x6e, 0x64, 0x6f, 0x77, 0x22, 0x5d]

  /** The subscribe request exactly as the byte literal in `listen_sway` spells it. */
  const SUBSCRIBE_AS_WRITTEN: seq<byte> :=
    MAGIC + [0x0e, 0, 0, 0] + [0x02, 0, 0, 0] + WINDOW_EVENTS

  /**
   * The literal's header announces a 14-byte payload, but only the 10 bytes
   * of `["window"]` follow: a reader honouring the header waits for 4 bytes
   * that never come.
   */
  lemma SubscribeAsWrittenOverstatesLength()
    ensures |SUBSCRIBE_AS_WRITTEN| == HEADER_LEN + |WINDOW_EVENTS|
    ensures SUBSCRIBE_AS_WRITTEN[HEADER_LEN..] == WINDOW_EVENTS
    ensures |WINDOW_EVENTS| == 10
    ensures PayloadLength(SUBSCRIBE_AS_WRITTEN[..HEADER_LEN]) == 14
    ensures PayloadLength(SUBSCRIBE_AS_WRITTEN[..HEADER_LEN]) > |SUBSCRIBE_AS_WRITTEN| - HEADER_LEN
  {
    assert SUBSCRIBE_AS_WRITTEN[..HEADER_LEN][6..10] == [0x0e, 0, 0, 0];
  }

  /** The subscribe request with its length computed from the payload. */
  function SubscribeMessage(): (m: seq<byte>)
    ensures |m| == HEADER_LEN + |WINDOW_EVENTS|
    ensures m[HEADER_LEN..] == WINDOW_EVENTS
    ensures PayloadLength(m[..HEADER_LEN]) == |m| - HEADER_LEN
    ensures U32FromLe(m[10..14]) == SUBSCRIBE
  {
    EncodedLengthIsPayloadLength(SUBSCRIBE, WINDOW_EVENTS);
    EncodeMessage(SUBSCRIBE, WINDOW_EVENTS)
  }

  /** The corrected request differs from the literal only in the length field. */
  lemma SubscribeMessageFixesOnlyLength()
    ensures SubscribeMessage()[..6] == SUBSCRIBE_AS_WRITTEN[..6]
    ensures SubscribeMessage()[10..] == SUBSCRIBE_AS_WRITTEN[10..]
    ensures SubscribeMessage()[6..10] == [10, 0, 0, 0]
  {
    var m := SubscribeMessage();
    assert m == MAGIC + U32Le(10) + U32Le(SUBSCRIBE) + WINDOW_EVENTS;
    assert U32Le(10) == [10, 0, 0, 0];
    assert U32Le(SUBSCRIBE) == [0x02, 0, 0, 0];
  }

  const FOCUS_CHANGE: string := "\"change\":\"focus\""

  /**
   * One decoded Sway window event: a focus change gives the `app_id` and
   * `name` fields, each empty when missing; any other event gives nothing.
   */
  function SwayEvent(json: string): (r: Option<(string, string)>)
    ensures r.Some? <==> Contains(json, FOCUS_CHANGE)
    ensures r.Some? ==> r.value == (ExtractField(json, "app_id").GetOr(""), ExtractField(json, "name").GetOr(""))
    ensures r.Some? ==> '"' !in r.value.0 && '"' !in r.value.1
  {
    if Contains(json, FOCUS_CHANGE) then
      Some((ExtractField(json, "app_id").GetOr(""), ExtractField(json, "name").GetOr("")))
    else None
  }

  /** `get_sway_window`: only a tree with a focused node counts, and it needs a `name`. */
  function SwayWindow(json: string): (r: Option<(string, string)>)
    ensures r.Some? <==> Contains(json, "\"focused\":true") && ExtractField(json, "name").Some?
    ensures r.Some? ==> r.value == (ExtractField(json, "app_id").GetOr(""), ExtractField(json, "name").value)
  {
    if Contains(json, "\"focused\":true") then
      match ExtractField(json, "name")
      case Some(t) => Some((ExtractField(json, "app_id").GetOr(""), t))
      case None => None
    else None
  }

  // ---------------------------------------------------------------------
  // What the button shows
  // ---------------------------------------------------------------------

  const NO_WINDOW: string := "No Window"

  /** An empty `no_window_format` is replaced by "No Window" when the widget is built. */
  function EffectiveNoWindowFormat(format: string): (r: string)
    ensures r != ""
    ensures format != "" ==> r == format
  {
    if format == "" then NO_WINDOW else format
  }

  /**
   * The text chosen for a window: its title unless empty or the class is
   * preferred, then its class unless empty, then the no-window text.
   */
  function DisplayText(windowClass: string, title: string, useClass: bool, noWindow: string): (r: string)
    ensures title != "" && !useClass ==> r == title
    ensures (title == "" || useClass) && windowClass != "" ==> r == windowClass
    ensures (title == "" || useClass) && windowClass == "" ==> r == noWindow
    ensures r == title || r == windowClass || r == noWindow
  {
    if title != "" && !useClass then title
    else if windowClass != "" then windowClass
    else noWindow
  }

  /** The button label: the display text, cut to `lengthLim` characters plus an ellipsis if longer. */
  function ButtonLabel(windowClass: string, title: string, useClass: bool, noWindowFormat: string, lengthLim: nat)
    : (r: string)
    ensures var text := DisplayText(windowClass, title, useClass, EffectiveNoWindowFormat(noWindowFormat));
      && (lengthLim == 0 || |text| <= lengthLim ==> r == text)
      && (lengthLim != 0 && |text| > lengthLim ==> r == TakeChars(text, lengthLim) + ELLIPSIS)
  {
    Ellipsize(DisplayText(windowClass, title, useClass, EffectiveNoWindowFormat(noWindowFormat)), lengthLim)
  }

  /** The label is never blank, and never longer than the limit plus the ellipsis. */
  lemma ButtonLabelShape(windowClass: string, title: string, useClass: bool, noWindowFormat: string, lengthLim: nat)
    ensures var r := ButtonLabel(windowClass, title, useClass, noWindowFormat, lengthLim);
      && r != ""
      && (lengthLim != 0 ==> |r| <= lengthLim + 1)
  {
    var text := DisplayText(windowClass, title, useClass, EffectiveNoWindowFormat(noWindowFormat));
    assert text != "";
  }

  /** The tooltip: class and title on two lines, or a fixed text without a title. */
  function Tooltip(windowClass: string, title: string): (r: string)
    ensures title == "" ==> r == "No active window"
    ensures title != "" ==> StartsWith(r, windowClass + "\n") && EndsWith(r, title) && |r| == |windowClass| + 1 + |title|
  {
    if title != "" then
      var r := windowClass + "\n" + title;
      assert r[..|windowClass| + 1] == windowClass + "\n";
      r
    else "No active window"
  }
}
