/**
 * The battery module (modules/battery.rs): the icon, template and CSS class
 * chosen for a capacity and status, and how capacity and status are read
 * from the power-supply files.
 *
 * File contents are inputs (`None` when a file cannot be read); the
 * directory listing used to find a battery is an input list of names.
 */
module Battery {
  import opened Base

  datatype BatteryConfig = BatteryConfig(
    format: string,
    formatCharging: string,
    formatFull: string,
    battery: Option<string>)

  const ICON_CHARGING: string := "\U{0F0084}"

  /** Level icons from the lowest band (below 10) to the highest (90 and above). */
  const LEVEL_ICONS: seq<string> := [
    "\U{0F007A}", "\U{0F007B}", "\U{0F007C}", "\U{0F007D}", "\U{0F007E}",
    "\U{0F007F}", "\U{0F0080}", "\U{0F0081}", "\U{0F0082}", "\U{0F0079}"]

  /** `get_icon_for_capacity`: charging has its own glyph, otherwise ten-point bands. */
  function IconForCapacity(capacity: int, status: string): (icon: string)
    ensures status == "Charging" ==> icon == ICON_CHARGING
  {
    if status == "Charging" then ICON_CHARGING
    else if capacity >= 90 then "\U{0F0079}"
    else if capacity >= 80 then "\U{0F0082}"
    else if capacity >= 70 then "\U{0F0081}"
    else if capacity >= 60 then "\U{0F0080}"
    else if capacity >= 50 then "\U{0F007F}"
    else if capacity >= 40 then "\U{0F007E}"
    else if capacity >= 30 then "\U{0F007D}"
    else if capacity >= 20 then "\U{0F007C}"
    else if capacity >= 10 then "\U{0F007B}"
    else "\U{0F007A}"
  }

  /** The ten-point band of a capacity, capped at 0 and 9. */
  function Band(capacity: int): (b: int)
    ensures 0 <= b < 10
    ensures 10 <= capacity < 100 ==> 10 * b <= capacity < 10 * b + 10
  {
    if capacity < 0 then 0 else if capacity >= 90 then 9 else capacity / 10
  }

  /** When not charging, the icon is the band's entry in the level table. */
  lemma IconIsBandEntry(capacity: int, status: string)
    requires status != "Charging"
    ensures IconForCapacity(capacity, status) == LEVEL_ICONS[Band(capacity)]
  {
  }

  /** No two bands share an icon, and none of them is the charging icon. */
  lemma LevelIconsDistinct()
    ensures forall i, j | 0 <= i < j < |LEVEL_ICONS| :: LEVEL_ICONS[i] != LEVEL_ICONS[j]
    ensures ICON_CHARGING !in LEVEL_ICONS
  {
  }

  /** `update_button`'s template: "Full" and "Charging" have their own. */
  function Template(status: string, cfg: BatteryConfig): (t: string)
    ensures status == "Full" ==> t == cfg.formatFull
    ensures status == "Charging" ==> t == cfg.formatCharging
    ensures status != "Full" && status != "Charging" ==> t == cfg.format
  {
    if status == "Full" then cfg.formatFull
    else if status == "Charging" then cfg.formatCharging
    else cfg.format
  }

  /** `update_button`'s CSS class: charging, full, then capacity bands at 10, 25 and 50. */
  function CssClass(capacity: int, status: string): (c: string)
    ensures c == "charging" <==> status == "Charging"
    ensures c == "full" <==> status == "Full"
    ensures c == "critical" <==> status != "Charging" && status != "Full" && capacity <= 10
    ensures c == "low" <==> status != "Charging" && status != "Full" && 10 < capacity <= 25
    ensures c == "medium" <==> status != "Charging" && status != "Full" && 25 < capacity <= 50
    ensures c == "high" <==> status != "Charging" && status != "Full" && capacity > 50
  {
    if status == "Charging" then "charging"
    else if status == "Full" then "full"
    else if capacity <= 10 then "critical"
    else if capacity <= 25 then "low"
    else if capacity <= 50 then "medium"
    else "high"
  }

  /** The placeholders of the button, in the order they are replaced. */
  function Fills(capacity: int, status: string, timeRemaining: string): (f: seq<(string, Piece)>)
    ensures LiteralFills(f)
    ensures '{' !in status && '{' !in timeRemaining ==> FillsOk(f)
  {
    var icon := IconForCapacity(capacity, status);
    assert '{' !in icon by { assert |icon| == 1 && icon[0] != '{'; }
    [("icon", Lit(icon)), ("capacity", Lit(IntToString(capacity))), ("status", Lit(status)), ("time", Lit(timeRemaining))]
  }

  /** The button text: the template with its placeholders filled in. */
  function ButtonText(capacity: int, status: string, timeRemaining: string, cfg: BatteryConfig): string
  {
    FillTemplate(Template(status, cfg), Fills(capacity, status, timeRemaining))
  }

  /**
   * Every `{icon}`, `{capacity}`, `{status}` and `{time}` of the template is
   * replaced by its value; every other placeholder and all literal text are
   * kept (for values without braces of their own).
   */
  lemma ButtonTextFillsPlaceholders(ps: seq<Piece>, capacity: int, status: string, timeRemaining: string, cfg: BatteryConfig)
    requires TemplateOk(ps) && Template(status, cfg) == Render(ps)
    requires '{' !in status && '{' !in timeRemaining
    ensures ButtonText(capacity, status, timeRemaining, cfg)
      == Render(SubstituteAll(ps, Fills(capacity, status, timeRemaining)))
  {
    FillTemplateSubstitutes(ps, Fills(capacity, status, timeRemaining));
  }

  /** A template without placeholders is shown as it is. */
  lemma ButtonTextWithoutBraces(capacity: int, status: string, timeRemaining: string, cfg: BatteryConfig)
    requires '{' !in Template(status, cfg)
    ensures ButtonText(capacity, status, timeRemaining, cfg) == Template(status, cfg)
  {
    FillTemplateWithoutBraces(Template(status, cfg), Fills(capacity, status, timeRemaining));
  }

  /** A template of just `{icon}` shows the icon. */
  lemma ButtonTextIconOnly(capacity: int, status: string, timeRemaining: string, cfg: BatteryConfig)
    requires Template(status, cfg) == "{icon}"
    ensures ButtonText(capacity, status, timeRemaining, cfg) == IconForCapacity(capacity, status)
  {
    var icon := IconForCapacity(capacity, status);
    var f := Fills(capacity, status, timeRemaining);
    ReplaceWhole("{icon}", icon);
    assert Placeholder("icon") == "{icon}";
    assert ButtonText(capacity, status, timeRemaining, cfg) == FillTemplate(icon, f[1..]);
    assert |icon| == 1 && icon[0] != '{';
    FillTemplateWithoutBraces(icon, f[1..]);
  }

  // ---------------------------------------------------------------------
  // Reading the power-supply files
  // ---------------------------------------------------------------------

  const DEFAULT_BATTERY: string := "BAT0"

  /** `find_battery`: the first directory entry whose name starts with "BAT". */
  function FindBattery(entries: seq<string>): (r: Option<string>)
    ensures r.Some? ==> r.value in entries && StartsWith(r.value, "BAT")
    ensures r.None? <==> forall i | 0 <= i < |entries| :: !StartsWith(entries[i], "BAT")
    ensures r.Some? ==> exists i | 0 <= i < |entries| ::
      entries[i] == r.value && forall j | 0 <= j < i :: !StartsWith(entries[j], "BAT")
    decreases |entries|
  {
    if |entries| == 0 then None
    else if StartsWith(entries[0], "BAT") then Some(entries[0])
    else
      var r := FindBattery(entries[1..]);
      assert r.Some? ==> exists i | 0 <= i < |entries| ::
        entries[i] == r.value && forall j | 0 <= j < i :: !StartsWith(entries[j], "BAT") by {
        if r.Some? {
          var i :| 0 <= i < |entries[1..]| && entries[1..][i] == r.value &&
            forall j | 0 <= j < i :: !StartsWith(entries[1..][j], "BAT");
          assert entries[i + 1] == r.value;
          forall j | 0 <= j < i + 1 ensures !StartsWith(entries[j], "BAT") {
            if j > 0 { assert entries[j] == entries[1..][j - 1]; }
          }
        }
      }
      r
  }

  /** The battery read: the configured one, else the first one found, else "BAT0". */
  function BatteryName(filter: Option<string>, entries: seq<string>): (name: string)
    ensures filter.Some? ==> name == filter.value
    ensures filter.None? && FindBattery(entries).Some? ==> name == FindBattery(entries).value
    ensures filter.None? && FindBattery(entries).None? ==> name == DEFAULT_BATTERY
  {
    match filter
    case Some(n) => n
    case None => FindBattery(entries).GetOr(DEFAULT_BATTERY)
  }

  /** The directory whose files describe a battery. */
  function BasePath(name: string): (p: string)
    ensures StartsWith(p, "/sys/class/power_supply/") && EndsWith(p, name)
  {
    var prefix := "/sys/class/power_supply/";
    var p := prefix + name;
    assert p[..|prefix|] == prefix && p[|prefix|..] == name;
    p
  }

  /** `read_sys_file`: the contents, trimmed. */
  function ReadSysFile(contents: Option<string>): (r: Option<string>)
    ensures r.Some? <==> contents.Some?
    ensures r.Some? ==> r.value == Trim(contents.value)
  {
    match contents
    case Some(c) => Some(Trim(c))
    case None => None
  }

  /** The capacity: the trimmed `capacity` file as an `i32`, or 0 if unreadable or unparsable. */
  function Capacity(contents: Option<string>): (c: int)
    ensures IsI32(c)
    ensures contents.None? ==> c == 0
    ensures contents.Some? && ParseI32(Trim(contents.value)).Some? ==> c == ParseI32(Trim(contents.value)).value
    ensures contents.Some? && ParseI32(Trim(contents.value)).None? ==> c == 0
  {
    match ReadSysFile(contents)
    case Some(t) => ParseI32(t).GetOr(0)
    case None => 0
  }

  /** The status: the trimmed `status` file, or "Unknown" if unreadable. */
  function Status(contents: Option<string>): (s: string)
    ensures contents.None? ==> s == "Unknown"
    ensures contents.Some? ==> s == Trim(contents.value)
  {
    ReadSysFile(contents).GetOr("Unknown")
  }

  /** A capacity file written as a number (with the usual trailing newline) reads back as that number. */
  lemma CapacityReadsWrittenValue(n: int)
    requires 0 <= n <= 100
    ensures Capacity(Some(IntToString(n) + "\n")) == n
  {
    var digits := IntToString(n);
    TrimDropsNewline(digits);
    IntToStringRoundTrip(n);
  }

  /** A run of digits followed by a newline trims to the digits. */
  lemma TrimDropsNewline(digits: string)
    requires |digits| > 0 && AllDigits(digits)
    ensures Trim(digits + "\n") == digits
  {
    var s := digits + "\n";
    assert !IsWhitespace(s[0]) by { assert s[0] == digits[0] && IsDigit(digits[0]); }
    assert TrimStart(s) == s;
    assert s[..|s| - 1] == digits;
    assert TrimEnd(s) == TrimEnd(digits);
    assert !IsWhitespace(digits[|digits| - 1]) by { assert IsDigit(digits[|digits| - 1]); }
    assert TrimEnd(digits) == digits;
  }

  /** An unreadable status file makes the battery look neither charging nor full. */
  lemma UnreadableStatusIsOrdinary(capacity: int)
    ensures var status := Status(None);
      && CssClass(capacity, status) != "charging" && CssClass(capacity, status) != "full"
      && IconForCapacity(capacity, status) == LEVEL_ICONS[Band(capacity)]
  {
    IconIsBandEntry(capacity, "Unknown");
  }
}
