/**
 * The network module (modules/network.rs): reading the connection from the
 * output of `nmcli`, `iw`, `/sys/class/net/<if>/operstate` and `ip`, and
 * turning it into a label, a CSS class and a tooltip.
 *
 * Every command is an input: either it could not be started, or it ran and
 * exited with some status and some standard output.
 */
module Network {
  import opened Base

  datatype NetworkInfo = NetworkInfo(
    connected: bool,
    essid: string,
    signalStrength: int,
    iface: string,
    isEthernet: bool,
    ipAddress: string)

  datatype NetworkConfig = NetworkConfig(
    format: string,
    formatDisconnected: string,
    formatEthernet: string,
    iface: Option<string>)

  const DISCONNECTED: NetworkInfo := NetworkInfo(false, "", 0, "", false, "")

  // ---------------------------------------------------------------------
  // Icons, classes, label
  // ---------------------------------------------------------------------

  const ICON_ETHERNET: string := "\U{0F0200}"
  const ICON_FULL: string := "\U{0F0928}"
  const ICON_GOOD: string := "\U{0F0925}"
  const ICON_MEDIUM: string := "\U{0F0922}"
  const ICON_WEAK: string := "\U{0F091F}"
  const ICON_NONE: string := "\U{0F092D}"

  /** `get_icon_for_strength`: ethernet has its own glyph; wifi is banded at 75, 50, 25 and 0. */
  function IconForStrength(strength: int, isEthernet: bool): (icon: string)
    ensures isEthernet ==> icon == ICON_ETHERNET
    ensures !isEthernet ==>
      && (icon == ICON_FULL <==> strength >= 75)
      && (icon == ICON_GOOD <==> 50 <= strength < 75)
      && (icon == ICON_MEDIUM <==> 25 <= strength < 50)
      && (icon == ICON_WEAK <==> 0 < strength < 25)
      && (icon == ICON_NONE <==> strength <= 0)
  {
    if isEthernet then ICON_ETHERNET
    else if strength >= 75 then ICON_FULL
    else if strength >= 50 then ICON_GOOD
    else if strength >= 25 then ICON_MEDIUM
    else if strength > 0 then ICON_WEAK
    else ICON_NONE
  }

  /** `update_label`'s CSS class: the first of disconnected, ethernet, then the wifi bands. */
  function CssClass(info: NetworkInfo): (c: string)
    ensures c == "disconnected" <==> !info.connected
    ensures c == "ethernet" <==> info.connected && info.isEthernet
    ensures c == "excellent" <==> info.connected && !info.isEthernet && info.signalStrength >= 75
    ensures c == "good" <==> info.connected && !info.isEthernet && 50 <= info.signalStrength < 75
    ensures c == "ok" <==> info.connected && !info.isEthernet && 25 <= info.signalStrength < 50
    ensures c == "weak" <==> info.connected && !info.isEthernet && info.signalStrength < 25
  {
    if !info.connected then "disconnected"
    else if info.isEthernet then "ethernet"
    else if info.signalStrength >= 75 then "excellent"
    else if info.signalStrength >= 50 then "good"
    else if info.signalStrength >= 25 then "ok"
    else "weak"
  }

  /**
   * The class and the icon of a wifi connection fall in the same band; the
   * "weak" class covers both the weak and the no-signal icon.
   */
  lemma ClassMatchesIcon(info: NetworkInfo)
    requires info.connected
    ensures var c := CssClass(info); var icon := IconForStrength(info.signalStrength, info.isEthernet);
      && (c == "ethernet" <==> icon == ICON_ETHERNET)
      && (c == "excellent" <==> icon == ICON_FULL)
      && (c == "good" <==> icon == ICON_GOOD)
      && (c == "ok" <==> icon == ICON_MEDIUM)
      && (c == "weak" <==> icon == ICON_WEAK || icon == ICON_NONE)
  {
  }

  /** The fills of `format_string`, in the order of its `replace` calls. */
  function Fills(info: NetworkInfo): (f: seq<(string, Piece)>)
    ensures LiteralFills(f)
  {
    var strength := IntToString(info.signalStrength);
    [ ("icon", Lit(IconForStrength(info.signalStrength, info.isEthernet))),
      ("essid", Lit(info.essid)),
      ("signalStrength", Lit(strength)),
      ("signalStrengthApp", Lit(strength + "%")),
      ("ifname", Lit(info.iface)),
      ("ipaddr", Lit(info.ipAddress)) ]
  }

  /** `format_string`: the placeholders filled in turn by `replace`. */
  function FormatString(format: string, info: NetworkInfo): string
  {
    FillTemplate(format, Fills(info))
  }

  /**
   * On a format made of brace-free text and placeholders, each of the six
   * known placeholders shows its value and everything else is kept, as long
   * as the values themselves hold no `{` (a value holding one would be
   * rescanned by the later `replace` calls).
   */
  lemma FormatStringFillsPlaceholders(ps: seq<Piece>, info: NetworkInfo)
    requires TemplateOk(ps)
    requires '{' !in info.essid && '{' !in info.iface && '{' !in info.ipAddress
    ensures FormatString(Render(ps), info) == Render(SubstituteAll(ps, Fills(info)))
  {
    assert FillsOk(Fills(info)) by {
      var icon := IconForStrength(info.signalStrength, info.isEthernet);
      assert |icon| == 1 && icon[0] != '{';
    }
    FillTemplateSubstitutes(ps, Fills(info));
  }

  /** A format without placeholders is shown verbatim. */
  lemma FormatStringWithoutBraces(format: string, info: NetworkInfo)
    requires '{' !in format
    ensures FormatString(format, info) == format
  {
    FillTemplateWithoutBraces(format, Fills(info));
  }

  /** A format of just `{icon}` shows the icon (no icon contains a brace). */
  lemma FormatStringIconOnly(info: NetworkInfo)
    ensures FormatString("{icon}", info) == IconForStrength(info.signalStrength, info.isEthernet)
  {
    var icon := IconForStrength(info.signalStrength, info.isEthernet);
    var f := Fills(info);
    ReplaceWhole("{icon}", icon);
    assert Placeholder("icon") == "{icon}";
    assert FormatString("{icon}", info) == FillTemplate(icon, f[1..]);
    assert |icon| == 1 && icon[0] != '{';
    FillTemplateWithoutBraces(icon, f[1..]);
  }

  /** `update_label`'s text: the disconnected text verbatim, otherwise the ethernet or wifi format filled in. */
  function LabelText(info: NetworkInfo, cfg: NetworkConfig): (r: string)
    ensures !info.connected ==> r == cfg.formatDisconnected
    ensures info.connected && info.isEthernet ==> r == FormatString(cfg.formatEthernet, info)
    ensures info.connected && !info.isEthernet ==> r == FormatString(cfg.format, info)
  {
    if !info.connected then cfg.formatDisconnected
    else if info.isEthernet then FormatString(cfg.formatEthernet, info)
    else FormatString(cfg.format, info)
  }

  /** The tooltip text: every field of the connection on its own line. */
  function Tooltip(info: NetworkInfo): (r: string)
    ensures !info.connected ==> r == "Disconnected"
    ensures info.connected && info.isEthernet ==>
      r == "Interface: " + info.iface + "\nType: Ethernet\nIP: " + info.ipAddress
    ensures info.connected && !info.isEthernet ==>
      r == "SSID: " + info.essid + "\nSignal: " + IntToString(info.signalStrength) + "%"
        + "\nInterface: " + info.iface + "\nIP: " + info.ipAddress
  {
    if !info.connected then "Disconnected"
    else if info.isEthernet then "Interface: " + info.iface + "\nType: Ethernet\nIP: " + info.ipAddress
    else "SSID: " + info.essid + "\nSignal: " + IntToString(info.signalStrength) + "%\nInterface: " + info.iface + "\nIP: " + info.ipAddress
  }

  // ---------------------------------------------------------------------
  // Signal strength from dBm
  // ---------------------------------------------------------------------

  /** `(dbm + 100) * 2` fits in an `i32`: neither step wraps. */
  predicate NoOverflow(dbm: int) {
    IsI32((dbm + 100) * 2)
  }

  function Clamp(x: int, lo: int, hi: int): int
    requires lo <= hi
  {
    if x < lo then lo else if x > hi then hi else x
  }

  /**
   * `((dbm + 100) * 2).max(0).min(100)` on `i32`, with the release-build
   * wrap-around of each arithmetic step written out.
   */
  function DbmToPercent(dbm: int): (p: int)
    requires IsI32(dbm)
    ensures 0 <= p <= 100
    ensures NoOverflow(dbm) ==> p == Clamp((dbm + 100) * 2, 0, 100)
    ensures NoOverflow(dbm) && dbm <= -100 ==> p == 0
    ensures NoOverflow(dbm) && dbm >= -50 ==> p == 100
  {
    Clamp(WrapI32(WrapI32(dbm + 100) * 2), 0, 100)
  }

  /** A stronger signal never gives a lower percentage, as long as nothing wraps. */
  lemma DbmToPercentMonotone(a: int, b: int)
    requires IsI32(a) && IsI32(b) && NoOverflow(a) && NoOverflow(b)
    requires a <= b
    ensures DbmToPercent(a) <= DbmToPercent(b)
  {
  }

  // ---------------------------------------------------------------------
  // nmcli
  // ---------------------------------------------------------------------

  /** What an accepted `nmcli -t -f ACTIVE,SSID,SIGNAL,DEVICE,TYPE dev wifi` line says. */
  datatype WifiLine = WifiLine(essid: string, signal: int, iface: string)

  /**
   * One `nmcli` line: active wifi with at least five `:`-separated fields,
   * on the requested interface if there is one; an unparsable signal is 0.
   */
  function ParseNmcliLine(line: string, filter: Option<string>): (r: Option<WifiLine>)
    ensures var parts := Split(line, ':');
      r.Some? <==>
        && |parts| >= 5 && parts[0] == "yes" && parts[4] == "wifi"
        && (filter.Some? ==> parts[3] == filter.value)
    ensures r.Some? ==> var parts := Split(line, ':');
      && |parts| >= 5
      && r.value.essid == parts[1]
      && r.value.iface == parts[3]
      && r.value.signal == ParseI32(parts[2]).GetOr(0)
      && IsI32(r.value.signal)
  {
    var parts := Split(line, ':');
    if |parts| >= 5 && parts[0] == "yes" && parts[4] == "wifi" && (filter.Some? ==> parts[3] == filter.value) then
      var signal := ParseI32(parts[2]).GetOr(0);
      assert IsI32(signal);
      Some(WifiLine(parts[1], signal, parts[3]))
    else None
  }

  /** Line `k` is the first one `nmcli` output gives an active wifi entry for. */
  predicate FirstAccepted(lines: seq<string>, filter: Option<string>, k: int) {
    && 0 <= k < |lines|
    && ParseNmcliLine(lines[k], filter).Some?
    && forall j | 0 <= j < k :: ParseNmcliLine(lines[j], filter).None?
  }

  /** The `for line in stdout.lines()` loop: the first accepted line's entry; nothing iff no line is accepted. */
  function FirstNmcliLine(lines: seq<string>, filter: Option<string>): (r: Option<WifiLine>)
    ensures r.None? <==> forall k | 0 <= k < |lines| :: ParseNmcliLine(lines[k], filter).None?
    ensures forall k | FirstAccepted(lines, filter, k) :: r == ParseNmcliLine(lines[k], filter)
  {
    FirstOf(lines, (l: string) => ParseNmcliLine(l, filter))
  }

  /** A last `nmcli` line without `\n` is parsed as it stands, a trailing `\r` included. */
  lemma LastNmcliLineKeepsCr(line: string, filter: Option<string>)
    requires |line| > 0 && '\n' !in line
    ensures FirstNmcliLine(Lines(line), filter) == ParseNmcliLine(line, filter)
  {
    LinesOfSingleLine(line);
    assert FirstAccepted([line], filter, 0) || ParseNmcliLine(line, filter).None?;
  }

  /** A type field that still carries a `\r` is not `wifi`, so the line is rejected. */
  lemma NmcliCrTypeRejected(active: string, essid: string, signal: string, iface: string, filter: Option<string>)
    requires ':' !in active && ':' !in essid && ':' !in signal && ':' !in iface
    ensures ParseNmcliLine(active + [':'] + essid + [':'] + signal + [':'] + iface + [':'] + "wifi\r", filter).None?
  {
    var t4 := "wifi\r";
    var t3 := iface + [':'] + t4;
    var t2 := signal + [':'] + t3;
    var t1 := essid + [':'] + t2;
    assert active + [':'] + t1 == active + [':'] + essid + [':'] + signal + [':'] + iface + [':'] + t4;
    SplitWithoutSeparator(t4, ':');
    SplitShiftsFields(iface, ':', t4, 0);
    SplitShiftsFields(signal, ':', t3, 1);
    SplitShiftsFields(essid, ':', t2, 2);
    SplitShiftsFields(active, ':', t1, 3);
    assert t4[4] == '\r';
  }

  /**
   * Output whose last line ends in a bare `\r` without `\n` keeps the `\r`
   * on the type field, so `nmcli` reports no wifi and the `iw` fallback decides.
   */
  lemma NmcliBareCrRejected(active: string, essid: string, signal: string, iface: string, filter: Option<string>)
    requires ':' !in active && ':' !in essid && ':' !in signal && ':' !in iface
    requires '\n' !in active && '\n' !in essid && '\n' !in signal && '\n' !in iface
    ensures var line := active + [':'] + essid + [':'] + signal + [':'] + iface + [':'] + "wifi\r";
      FirstNmcliLine(Lines(line), filter).None?
  {
    var t4 := "wifi\r";
    var line := active + [':'] + essid + [':'] + signal + [':'] + iface + [':'] + t4;
    assert '\n' !in t4 by { assert forall i | 0 <= i < |t4| :: t4[i] != '\n'; }
    assert '\n' !in line;
    NmcliCrTypeRejected(active, essid, signal, iface, filter);
    LastNmcliLineKeepsCr(line, filter);
  }

  // ---------------------------------------------------------------------
  // iw
  // ---------------------------------------------------------------------

  /** The dBm figure of an `iw` `signal:` line: its first word after the prefix, as an `i32`. */
  function SignalDbm(afterPrefix: string): (r: Option<int>)
    ensures r.Some? ==> IsI32(r.value)
  {
    var words := SplitWhitespace(Trim(afterPrefix));
    if |words| == 0 then None else ParseI32(words[0])
  }

  /** One trimmed `iw dev <if> link` line updates the SSID or the strength seen so far. */
  function IwLine(t: string, essid: string, signal: int): (r: (string, int))
    requires 0 <= signal <= 100
    ensures 0 <= r.1 <= 100
    ensures StartsWith(t, "SSID:") ==> r == (Trim(t[5..]), signal)
    ensures !StartsWith(t, "SSID:") ==> r.0 == essid
    ensures !StartsWith(t, "SSID:") && !StartsWith(t, "signal:") ==> r == (essid, signal)
    ensures !StartsWith(t, "SSID:") && StartsWith(t, "signal:") ==>
      && (SignalDbm(t[7..]).Some? ==> r.1 == DbmToPercent(SignalDbm(t[7..]).value))
      && (SignalDbm(t[7..]).None? ==> r.1 == signal)
  {
    if StartsWith(t, "SSID:") then (Trim(t[5..]), signal)
    else if StartsWith(t, "signal:") then
      match SignalDbm(t[7..])
      case Some(dbm) => (essid, DbmToPercent(dbm))
      case None => (essid, signal)
    else (essid, signal)
  }

  /** The `for line in output.lines()` loop of `get_wifi_info_iw`: later lines override earlier ones. */
  function IwScan(lines: seq<string>, essid: string, signal: int): (r: (string, int))
    requires 0 <= signal <= 100
    ensures 0 <= r.1 <= 100
    decreases |lines|
  {
    if |lines| == 0 then (essid, signal)
    else
      var before := IwScan(lines[..|lines| - 1], essid, signal);
      IwLine(Trim(lines[|lines| - 1]), before.0, before.1)
  }

  /** Scanning one more line is one more step after the rest. */
  lemma IwScanAppend(lines: seq<string>, line: string, essid: string, signal: int)
    requires 0 <= signal <= 100
    ensures var before := IwScan(lines, essid, signal);
      IwScan(lines + [line], essid, signal) == IwLine(Trim(line), before.0, before.1)
  {
    assert (lines + [line])[..|lines|] == lines;
  }

  /** Scanning two runs of lines is scanning the second from where the first left off. */
  lemma {:induction false} IwScanConcat(a: seq<string>, b: seq<string>, essid: string, signal: int)
    requires 0 <= signal <= 100
    ensures var mid := IwScan(a, essid, signal); IwScan(a + b, essid, signal) == IwScan(b, mid.0, mid.1)
    decreases |b|
  {
    if |b| == 0 {
      assert a + b == a;
    } else {
      var mid := IwScan(a, essid, signal);
      var init, last := b[..|b| - 1], b[|b| - 1];
      IwScanConcat(a, init, essid, signal);
      SplitLast(a, b);
      IwScanAppend(a + init, last, essid, signal);
      IwScanAppend(init, last, mid.0, mid.1);
    }
  }

  /** The SSID reported is the one on the last `SSID:` line, whatever other lines follow it. */
  lemma LastSsidWins(lines: seq<string>, line: string, rest: seq<string>, essid: string, signal: int)
    requires 0 <= signal <= 100
    requires StartsWith(Trim(line), "SSID:")
    requires forall i | 0 <= i < |rest| :: !StartsWith(Trim(rest[i]), "SSID:")
    ensures IwScan(lines + [line] + rest, essid, signal).0 == Trim(Trim(line)[5..])
  {
    IwScanConcat(lines + [line], rest, essid, signal);
    IwScanAppend(lines, line, essid, signal);
    var mid := IwScan(lines + [line], essid, signal);
    IwScanKeepsSsid(rest, mid.0, mid.1);
  }

  /** A `signal: <dBm> dBm` line, as `iw` prints it, sets the strength to that reading's percentage. */
  lemma IwSignalReadsWrittenValue(dbm: int, essid: string, signal: int)
    requires IsI32(dbm) && 0 <= signal <= 100
    ensures IwLine("signal: " + IntToString(dbm) + " dBm", essid, signal) == (essid, DbmToPercent(dbm))
  {
    var d := IntToString(dbm);
    var t := "signal: " + d + " dBm";
    NotStartsWithByChar(t, "SSID:", 0);
    assert t[..7] == "signal:";
    assert t[7..] == " " + d + " dBm";
    SignalDbmReadsWrittenValue(dbm);
  }

  /** The text after `signal:` as `iw` prints it reads back as the dBm figure. */
  lemma SignalDbmReadsWrittenValue(dbm: int)
    requires IsI32(dbm)
    ensures SignalDbm(" " + IntToString(dbm) + " dBm") == Some(dbm)
  {
    var d := IntToString(dbm);
    var after := " " + d + " dBm";
    assert after == " " + (d + " dBm");
    var body := d + " dBm";
    assert NoWhitespace(d) by {
      forall i | 0 <= i < |d| ensures !IsWhitespace(d[i]) { assert IsDigit(d[i]) || d[i] == '-'; }
    }
    assert TrimStart(after) == TrimStart(body) by { assert after[1..] == body; }
    assert !IsWhitespace(body[0]) by { assert body[0] == d[0]; }
    assert TrimStart(body) == body;
    assert TrimEnd(body) == body;
    assert Trim(after) == body;
    WordLenOfWord(d, " dBm");
    assert SplitWhitespace(body)[0] == body[..|d|] == d;
    IntToStringRoundTrip(dbm);
  }

  /** Lines without an `SSID:` prefix never change the SSID. */
  lemma {:induction false} IwScanKeepsSsid(lines: seq<string>, essid: string, signal: int)
    requires 0 <= signal <= 100
    requires forall i | 0 <= i < |lines| :: !StartsWith(Trim(lines[i]), "SSID:")
    ensures IwScan(lines, essid, signal).0 == essid
    decreases |lines|
  {
    if |lines| > 0 {
      IwScanKeepsSsid(lines[..|lines| - 1], essid, signal);
    }
  }

  const DEFAULT_WIFI_IFACE: string := "wlan0"

  /** `get_wifi_info_iw`: connected when an SSID was seen. */
  function WifiFromIw(iw: CommandResult, filter: Option<string>, ip: string -> string): (r: Option<NetworkInfo>)
    ensures r.Some? ==> iw.Ran? && iw.success && r.value.connected && !r.value.isEthernet
    ensures r.Some? ==> r.value.essid != "" && 0 <= r.value.signalStrength <= 100
    ensures r.Some? ==> r.value.iface == filter.GetOr(DEFAULT_WIFI_IFACE)
    ensures iw.Ran? && iw.success ==> (r.Some? <==> IwScan(Lines(iw.stdout), "", 0).0 != "")
    ensures r.Some? ==> var scan := IwScan(Lines(iw.stdout), "", 0);
      && r.value.essid == scan.0
      && r.value.signalStrength == scan.1
      && r.value.ipAddress == ip(r.value.iface)
  {
    var iface := filter.GetOr(DEFAULT_WIFI_IFACE);
    match iw
    case NotStarted => None
    case Ran(ok, out) =>
      if !ok then None
      else
        var scan := IwScan(Lines(out), "", 0);
        if scan.0 != "" then Some(NetworkInfo(true, scan.0, scan.1, iface, false, ip(iface))) else None
  }

  // ---------------------------------------------------------------------
  // Wifi: nmcli first, then iw
  // ---------------------------------------------------------------------

  /** A connected wifi entry built from an accepted `nmcli` line. */
  function WifiFromNmcliLine(w: WifiLine, ip: string -> string): (r: NetworkInfo)
    ensures r.connected && !r.isEthernet && r.essid == w.essid && r.iface == w.iface
    ensures r.signalStrength == w.signal && r.ipAddress == ip(w.iface)
  {
    NetworkInfo(true, w.essid, w.signal, w.iface, false, ip(w.iface))
  }

  /**
   * `get_wifi_info` as written: an `nmcli` that cannot be started ends the
   * lookup with nothing (the `?` on `output().ok()`), so `iw` is consulted
   * only when `nmcli` ran and either failed or listed no active wifi.
   */
  function WifiInfoAsWritten(nmcli: CommandResult, iw: CommandResult, filter: Option<string>, ip: string -> string)
    : (r: Option<NetworkInfo>)
    ensures nmcli.NotStarted? ==> r.None?
    ensures nmcli.Ran? && !nmcli.success ==> r == WifiFromIw(iw, filter, ip)
    ensures nmcli.Ran? && nmcli.success ==> var lines := Lines(nmcli.stdout);
      && (forall k | FirstAccepted(lines, filter, k) ::
            r == Some(WifiFromNmcliLine(ParseNmcliLine(lines[k], filter).value, ip)))
      && ((forall k | 0 <= k < |lines| :: ParseNmcliLine(lines[k], filter).None?) ==> r == WifiFromIw(iw, filter, ip))
  {
    match nmcli
    case NotStarted => None
    case Ran(ok, out) =>
      var lines := Lines(out);
      if ok then
        match FirstNmcliLine(lines, filter)
        case Some(w) => Some(WifiFromNmcliLine(w, ip))
        case None => WifiFromIw(iw, filter, ip)
      else WifiFromIw(iw, filter, ip)
  }

  /** `iw` output made of one `SSID:x` line scans to SSID `x`. */
  lemma SingleSsidScan()
    ensures IwScan(Lines("SSID:x"), "", 0) == ("x", 0)
  {
    var out := "SSID:x";
    LinesOfSingleLine(out);
    TrimUnchanged(out);
    assert out[..5] == "SSID:";
    assert out[5..] == "x";
    TrimUnchanged("x");
    assert IwLine(out, "", 0) == ("x", 0);
    assert [out][..0] == [];
  }

  /** Without `nmcli` installed, the `iw` fallback is never reached, even when `iw` sees a network. */
  lemma MissingNmcliSkipsIw(ip: string -> string)
    ensures var iw := Ran(true, "SSID:x");
      && WifiFromIw(iw, None, ip).Some?
      && WifiInfoAsWritten(NotStarted, iw, None, ip).None?
  {
    SingleSsidScan();
  }


  /** `get_wifi_info` with the documented intent: any `nmcli` failure, including not starting, falls back to `iw`. */
  function WifiInfo(nmcli: CommandResult, iw: CommandResult, filter: Option<string>, ip: string -> string)
    : (r: Option<NetworkInfo>)
    ensures !(nmcli.Ran? && nmcli.success) ==> r == WifiFromIw(iw, filter, ip)
    ensures nmcli.Ran? ==> r == WifiInfoAsWritten(nmcli, iw, filter, ip)
    ensures nmcli.Ran? && nmcli.success ==> var lines := Lines(nmcli.stdout);
      && (forall k | FirstAccepted(lines, filter, k) ::
            r == Some(WifiFromNmcliLine(ParseNmcliLine(lines[k], filter).value, ip)))
      && ((forall k | 0 <= k < |lines| :: ParseNmcliLine(lines[k], filter).None?) ==> r == WifiFromIw(iw, filter, ip))
  {
    match nmcli
    case NotStarted => WifiFromIw(iw, filter, ip)
    case Ran(_, _) => WifiInfoAsWritten(nmcli, iw, filter, ip)
  }

  // ---------------------------------------------------------------------
  // Ethernet
  // ---------------------------------------------------------------------

  /** The interfaces probed: the configured one, or three common names. */
  function EthernetCandidates(filter: Option<string>): (r: seq<string>)
    ensures filter.Some? ==> r == [filter.value]
    ensures filter.None? ==> r == ["eth0", "enp0s3", "eno1"]
  {
    match filter
    case Some(f) => [f]
    case None => ["eth0", "enp0s3", "eno1"]
  }

  /** An operstate probe that ran and read `up` after trimming. */
  predicate IsUp(st: CommandResult) {
    st.Ran? && st.success && Trim(st.stdout) == "up"
  }

  /** Candidate `k` reads `up`, and every earlier probe ran and read something else. */
  predicate FirstUpAt(ifaces: seq<string>, operstate: string -> CommandResult, k: int) {
    && 0 <= k < |ifaces|
    && IsUp(operstate(ifaces[k]))
    && forall j | 0 <= j < k :: operstate(ifaces[j]).Ran? && !IsUp(operstate(ifaces[j]))
  }

  /** Past a probe that ran and read something other than `up`, the search goes on in the rest. */
  lemma FirstUpAtShift(ifaces: seq<string>, operstate: string -> CommandResult)
    requires |ifaces| > 0 && operstate(ifaces[0]).Ran? && !IsUp(operstate(ifaces[0]))
    ensures forall k | FirstUpAt(ifaces, operstate, k) :: k >= 1 && FirstUpAt(ifaces[1..], operstate, k - 1)
    ensures forall k | FirstUpAt(ifaces[1..], operstate, k) :: FirstUpAt(ifaces, operstate, k + 1)
  {
    forall k | FirstUpAt(ifaces[1..], operstate, k) ensures FirstUpAt(ifaces, operstate, k + 1) {
      assert ifaces[k + 1] == ifaces[1..][k];
      forall j | 0 <= j < k + 1 ensures operstate(ifaces[j]).Ran? && !IsUp(operstate(ifaces[j])) {
        if j > 0 { assert ifaces[j] == ifaces[1..][j - 1]; }
      }
    }
    forall k | FirstUpAt(ifaces, operstate, k) ensures k >= 1 && FirstUpAt(ifaces[1..], operstate, k - 1) {
      assert ifaces[1..][k - 1] == ifaces[k];
      forall j | 0 <= j < k - 1 ensures operstate(ifaces[1..][j]).Ran? && !IsUp(operstate(ifaces[1..][j])) {
        assert ifaces[1..][j] == ifaces[j + 1];
      }
    }
  }

  /**
   * The `for interface in interfaces` loop of `get_ethernet_info`: the first
   * interface whose operstate reads `up` after trimming; a `cat` that
   * cannot be started ends the search with nothing.
   */
  function FirstUp(ifaces: seq<string>, operstate: string -> CommandResult): (r: Option<string>)
    ensures r.Some? <==> exists k :: FirstUpAt(ifaces, operstate, k)
    ensures forall k | FirstUpAt(ifaces, operstate, k) :: r == Some(ifaces[k])
    decreases |ifaces|
  {
    if |ifaces| == 0 then None
    else
      match operstate(ifaces[0])
      case NotStarted =>
        assert forall k | FirstUpAt(ifaces, operstate, k) :: k == 0;
        None
      case Ran(ok, out) =>
        if ok && Trim(out) == "up" then
          assert FirstUpAt(ifaces, operstate, 0);
          Some(ifaces[0])
        else
          var rest := FirstUp(ifaces[1..], operstate);
          FirstUpAtShift(ifaces, operstate);
          rest
  }

  /** `get_ethernet_info`: the first candidate found up, reported as a full-strength wired connection. */
  function EthernetInfo(filter: Option<string>, operstate: string -> CommandResult, ip: string -> string)
    : (r: Option<NetworkInfo>)
    ensures var cands := EthernetCandidates(filter);
      && (r.Some? <==> exists k :: FirstUpAt(cands, operstate, k))
      && (forall k | FirstUpAt(cands, operstate, k) :: r.Some? && r.value.iface == cands[k])
    ensures r.Some? ==> r.value.connected && r.value.isEthernet && r.value.signalStrength == 100
    ensures r.Some? ==> r.value.essid == "" && r.value.ipAddress == ip(r.value.iface)
  {
    match FirstUp(EthernetCandidates(filter), operstate)
    case Some(iface) => Some(NetworkInfo(true, "", 100, iface, true, ip(iface)))
    case None => None
  }

  // ---------------------------------------------------------------------
  // ip -4 addr show
  // ---------------------------------------------------------------------

  /** A trimmed line opening with `inet ` has a second word. */
  lemma InetLineHasTwoWords(t: string)
    requires StartsWith(t, "inet ")
    requires |t| > 0 ==> !IsWhitespace(t[|t| - 1])
    ensures |SplitWhitespace(t)| >= 2
  {
    assert t[..5] == "inet ";
    assert t[0] == 'i' && t[4] == ' ';
    assert TrimStart(t) == t;
    assert t == "inet" + t[4..];
    WordLenOfWord("inet", t[4..]);
    var tail := t[4..];
    assert |t| - 1 > 4;
    var ts := TrimStart(tail);
    assert |ts| > 0;
    assert SplitWhitespace(t) == [t[..4]] + SplitWhitespace(tail);
  }

  /** One `ip` output line: on an `inet` line, the second word up to the first `/`. */
  function InetAddress(line: string): (r: Option<string>)
    ensures r.Some? <==> StartsWith(Trim(line), "inet ")
    ensures r.Some? ==> '/' !in r.value && NoWhitespace(r.value)
    ensures r.Some? ==> |SplitWhitespace(Trim(line))| >= 2
    ensures r.Some? ==> var w := SplitWhitespace(Trim(line))[1];
      StartsWith(w, r.value) && (|r.value| == |w| || w[|r.value|] == '/')
  {
    var t := Trim(line);
    if StartsWith(t, "inet ") then
      InetLineHasTwoWords(t);
      var words := SplitWhitespace(t);
      SplitHead(words[1], '/');
      NoWhitespacePrefix(words[1], Split(words[1], '/')[0]);
      Some(Split(words[1], '/')[0])
    else None
  }

  /** Line `k` is the first `inet` line. */
  predicate FirstInetAt(lines: seq<string>, k: int) {
    && 0 <= k < |lines|
    && InetAddress(lines[k]).Some?
    && forall j | 0 <= j < k :: InetAddress(lines[j]).None?
  }

  /** The address of the first `inet` line; nothing iff there is none. */
  function FirstInet(lines: seq<string>): (r: Option<string>)
    ensures r.None? <==> forall k | 0 <= k < |lines| :: InetAddress(lines[k]).None?
    ensures forall k | FirstInetAt(lines, k) :: r == InetAddress(lines[k])
    ensures r.Some? ==> '/' !in r.value && NoWhitespace(r.value)
  {
    FirstOf(lines, InetAddress)
  }

  const NO_ADDRESS: string := "N/A"

  /** `get_ip_address`: the first IPv4 address, or "N/A" when the command fails or lists none. */
  function IpAddress(ipCommand: CommandResult): (r: string)
    ensures !(ipCommand.Ran? && ipCommand.success) ==> r == NO_ADDRESS
    ensures ipCommand.Ran? && ipCommand.success ==> r == FirstInet(Lines(ipCommand.stdout)).GetOr(NO_ADDRESS)
    ensures r != NO_ADDRESS ==> '/' !in r && NoWhitespace(r)
  {
    if ipCommand.Ran? && ipCommand.success then FirstInet(Lines(ipCommand.stdout)).GetOr(NO_ADDRESS)
    else NO_ADDRESS
  }

  // ---------------------------------------------------------------------
  // The whole lookup
  // ---------------------------------------------------------------------

  /** `get_network_info`: wifi first, then ethernet, else disconnected. */
  function GetNetworkInfo(wifi: Option<NetworkInfo>, ethernet: Option<NetworkInfo>): (r: NetworkInfo)
    ensures wifi.Some? ==> r == wifi.value
    ensures wifi.None? && ethernet.Some? ==> r == ethernet.value
    ensures wifi.None? && ethernet.None? ==> r == DISCONNECTED && !r.connected
  {
    if wifi.Some? then wifi.value
    else if ethernet.Some? then ethernet.value
    else DISCONNECTED
  }

  /** Whatever the commands say, the label shows the disconnected text exactly when nothing was found. */
  lemma LabelShowsDisconnectedIffNothingFound(
    wifi: Option<NetworkInfo>, ethernet: Option<NetworkInfo>, cfg: NetworkConfig)
    requires wifi.Some? ==> wifi.value.connected
    requires ethernet.Some? ==> ethernet.value.connected
    ensures var info := GetNetworkInfo(wifi, ethernet);
      && (CssClass(info) == "disconnected" <==> wifi.None? && ethernet.None?)
      && (wifi.None? && ethernet.None? ==> LabelText(info, cfg) == cfg.formatDisconnected)
  {
  }
}
