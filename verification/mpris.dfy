/**
 * The media-player button (modules/mpris/widget.rs): how a player's playback
 * status becomes a status name, an icon, a template, a label and a pair of
 * CSS classes, how strings are read out of track metadata, and the tooltip.
 *
 * The D-Bus player, its event stream and the channels between the worker
 * thread and the GTK loop are not modelled: each query's answer is an input
 * (`None` when the query failed).
 */
module Mpris {
  import opened Base
  import opened Util

  /** The three states a player reports. */
  datatype PlaybackStatus = Playing | Paused | Stopped

  datatype MprisConfig = MprisConfig(
    formatPlaying: string,
    formatPaused: string,
    formatStopped: string,
    formatNothing: string,
    lengthLim: nat,
    tooltip: bool,
    tooltipFormat: string)

  /** The configuration used when none is given. */
  const DEFAULT_CONFIG: MprisConfig := MprisConfig(
    "{icon} {artist} - {title}",
    "{icon} {artist} - {title}",
    "{icon} Stopped",
    "No Media",
    0,
    true,
    "{artist}\n{album}\n{title}")

  /** The track information shared between the worker and the tooltip. */
  datatype MediaInfo = MediaInfo(artist: string, title: string, album: string, status: string)

  /** The shared info before the first round: no track, status "Stopped". */
  const INITIAL_MEDIA_INFO: MediaInfo := MediaInfo("", "", "", "Stopped")

  // ---------------------------------------------------------------------
  // Status, icon, template
  // ---------------------------------------------------------------------

  const NOTHING: string := "Nothing"

  /** The status name: one per reported state, and "Nothing" when the query failed. */
  function StatusName(q: Option<PlaybackStatus>): (name: string)
    ensures name == NOTHING <==> q.None?
    ensures name == "Playing" <==> q == Some(Playing)
    ensures name == "Paused" <==> q == Some(Paused)
    ensures name == "Stopped" <==> q == Some(Stopped)
  {
    match q
    case Some(Playing) => "Playing"
    case Some(Paused) => "Paused"
    case Some(Stopped) => "Stopped"
    case None => NOTHING
  }

  /** Reading a status name back: the reference inverse of `StatusName`. */
  function StatusOfName(name: string): (q: Option<PlaybackStatus>)
  {
    if name == "Playing" then Some(Playing)
    else if name == "Paused" then Some(Paused)
    else if name == "Stopped" then Some(Stopped)
    else None
  }

  /** No information is lost between the player's answer and its name. */
  lemma StatusNameRoundTrip(q: Option<PlaybackStatus>)
    ensures StatusOfName(StatusName(q)) == q
  {
  }

  const ICON_PLAYING: string := "\U{00F04B}"
  const ICON_PAUSED: string := "\U{00F04C}"
  const ICON_STOPPED: string := "\U{00F04D}"

  /** The indicator icon: one glyph per state, nothing for "Nothing" (or any other name). */
  function StatusIcon(status: string): (icon: string)
    ensures icon == ICON_PLAYING <==> status == "Playing"
    ensures icon == ICON_PAUSED <==> status == "Paused"
    ensures icon == ICON_STOPPED <==> status == "Stopped"
    ensures icon == "" <==> status != "Playing" && status != "Paused" && status != "Stopped"
    ensures '{' !in icon
  {
    if status == "Playing" then ICON_PLAYING
    else if status == "Paused" then ICON_PAUSED
    else if status == "Stopped" then ICON_STOPPED
    else ""
  }

  /** The template: the one for the state, and `format_nothing` for anything else. */
  function Template(status: string, cfg: MprisConfig): (t: string)
    ensures status == "Playing" ==> t == cfg.formatPlaying
    ensures status == "Paused" ==> t == cfg.formatPaused
    ensures status == "Stopped" ==> t == cfg.formatStopped
    ensures status != "Playing" && status != "Paused" && status != "Stopped" ==> t == cfg.formatNothing
  {
    if status == "Playing" then cfg.formatPlaying
    else if status == "Paused" then cfg.formatPaused
    else if status == "Stopped" then cfg.formatStopped
    else cfg.formatNothing
  }

  // ---------------------------------------------------------------------
  // Label
  // ---------------------------------------------------------------------

  /** The placeholders of the label, in the order they are replaced. */
  function Fills(info: MediaInfo): (f: seq<(string, Piece)>)
    ensures LiteralFills(f)
    ensures BraceFree(info) ==> FillsOk(f)
  {
    [("icon", Lit(StatusIcon(info.status)))] + TooltipFills(info)
  }

  /** The placeholders of the tooltip, in the order they are replaced. */
  function TooltipFills(info: MediaInfo): (f: seq<(string, Piece)>)
    ensures LiteralFills(f)
    ensures BraceFree(info) ==> FillsOk(f)
  {
    [("artist", Lit(info.artist)), ("title", Lit(info.title)), ("album", Lit(info.album)), ("status", Lit(info.status))]
  }

  /** No field of the media info has a brace of its own. */
  predicate BraceFree(info: MediaInfo) {
    '{' !in info.artist && '{' !in info.title && '{' !in info.album && '{' !in info.status
  }

  /** The label before truncation: the five placeholders filled in, in order. */
  function PreDisplay(info: MediaInfo, cfg: MprisConfig): string
  {
    FillTemplate(Template(info.status, cfg), Fills(info))
  }

  /**
   * Every `{icon}`, `{artist}`, `{title}`, `{album}` and `{status}` of the
   * template is replaced by its value; every other placeholder and all
   * literal text are kept.
   */
  lemma PreDisplayFillsPlaceholders(ps: seq<Piece>, info: MediaInfo, cfg: MprisConfig)
    requires TemplateOk(ps) && Template(info.status, cfg) == Render(ps) && BraceFree(info)
    ensures PreDisplay(info, cfg) == Render(SubstituteAll(ps, Fills(info)))
  {
    FillTemplateSubstitutes(ps, Fills(info));
  }

  /** A template without placeholders is shown as it is. */
  lemma PreDisplayWithoutBraces(info: MediaInfo, cfg: MprisConfig)
    requires '{' !in Template(info.status, cfg)
    ensures PreDisplay(info, cfg) == Template(info.status, cfg)
  {
    FillTemplateWithoutBraces(Template(info.status, cfg), Fills(info));
  }

  /**
   * The label sent to the button: the filled-in template, cut to the length
   * limit with an ellipsis when a non-zero limit is exceeded.
   */
  function Display(info: MediaInfo, cfg: MprisConfig): (r: string)
    ensures cfg.lengthLim == 0 || |PreDisplay(info, cfg)| <= cfg.lengthLim ==> r == PreDisplay(info, cfg)
    ensures cfg.lengthLim != 0 && |PreDisplay(info, cfg)| > cfg.lengthLim ==>
      r == PreDisplay(info, cfg)[..cfg.lengthLim] + ELLIPSIS
    ensures cfg.lengthLim != 0 ==> |r| <= cfg.lengthLim + 1
  {
    Ellipsize(PreDisplay(info, cfg), cfg.lengthLim)
  }

  /** With the default configuration a stopped player shows the stop glyph and the word. */
  lemma DefaultStoppedLabel(artist: string, title: string, album: string)
    ensures Display(MediaInfo(artist, title, album, "Stopped"), DEFAULT_CONFIG) == ICON_STOPPED + " Stopped"
  {
    var info := MediaInfo(artist, title, album, "Stopped");
    var f := Fills(info);
    var rest := " Stopped";
    assert "{icon} Stopped" == "{icon}" + rest;
    assert Placeholder("icon") == "{icon}";
    ReplaceLeadingPattern("{icon}", rest, ICON_STOPPED);
    assert PreDisplay(info, DEFAULT_CONFIG) == FillTemplate(ICON_STOPPED + rest, f[1..]);
    FillTemplateWithoutBraces(ICON_STOPPED + rest, f[1..]);
  }

  // ---------------------------------------------------------------------
  // Metadata
  // ---------------------------------------------------------------------

  /** The metadata value kinds that matter here; every other kind is `Other`. */
  datatype MetadataValue = MString(s: string) | MArray(items: seq<MetadataValue>) | Other

  type Metadata = map<string, MetadataValue>

  /**
   * `get_string_from_metadata`: a string value itself, the first element of
   * an array when that element is a string, and "" in every other case.
   */
  function GetStringFromMetadata(metadata: Metadata, key: string): (r: string)
    ensures key !in metadata ==> r == ""
    ensures key in metadata && metadata[key].MString? ==> r == metadata[key].s
    ensures key in metadata && metadata[key].MArray? ==>
      (if |metadata[key].items| > 0 && metadata[key].items[0].MString? then r == metadata[key].items[0].s else r == "")
    ensures key in metadata && metadata[key].Other? ==> r == ""
  {
    if key !in metadata then ""
    else match metadata[key]
      case MString(s) => s
      case MArray(items) => if |items| > 0 && items[0].MString? then items[0].s else ""
      case Other => ""
  }

  /** A list of artists shows its first entry, whatever follows it. */
  lemma FirstArtistShown(metadata: Metadata, artist: string, others: seq<MetadataValue>)
    requires "xesam:artist" in metadata
    requires metadata["xesam:artist"] == MArray([MString(artist)] + others)
    ensures GetStringFromMetadata(metadata, "xesam:artist") == artist
  {
  }

  /** The track information read from one metadata answer. */
  function ReadMediaInfo(q: Option<PlaybackStatus>, metadata: Metadata): (info: MediaInfo)
    ensures info.status == StatusName(q)
    ensures info.title == GetStringFromMetadata(metadata, "xesam:title")
    ensures info.artist == GetStringFromMetadata(metadata, "xesam:artist")
    ensures info.album == GetStringFromMetadata(metadata, "xesam:album")
  {
    MediaInfo(
      GetStringFromMetadata(metadata, "xesam:artist"),
      GetStringFromMetadata(metadata, "xesam:title"),
      GetStringFromMetadata(metadata, "xesam:album"),
      StatusName(q))
  }

  // ---------------------------------------------------------------------
  // One round of the worker
  // ---------------------------------------------------------------------

  /** What one round publishes: the shared info, the state name and the label. */
  datatype Tick = Tick(info: MediaInfo, state: string, text: string)

  /**
   * One round with a player: a failed metadata query publishes nothing;
   * otherwise the info is replaced and the state and label are sent.
   */
  function PlayerTick(q: Option<PlaybackStatus>, metadata: Option<Metadata>, cfg: MprisConfig): (r: Option<Tick>)
    ensures r.Some? <==> metadata.Some?
    ensures r.Some? ==> r.value.state == r.value.info.status == StatusName(q)
    ensures r.Some? ==> r.value.info == ReadMediaInfo(q, metadata.value)
    ensures r.Some? && cfg.lengthLim != 0 ==> |r.value.text| <= cfg.lengthLim + 1
  {
    match metadata
    case None => None
    case Some(m) =>
      var info := ReadMediaInfo(q, m);
      Some(Tick(info, info.status, Display(info, cfg)))
  }

  /** While no player is found the state is "Nothing" and the label is `format_nothing` as written. */
  function NoPlayerTick(cfg: MprisConfig): (r: (string, string))
    ensures r.0 == NOTHING && r.1 == cfg.formatNothing
  {
    (NOTHING, cfg.formatNothing)
  }

  /**
   * A player whose status query fails looks like no player at all, as long
   * as `format_nothing` has no placeholder and fits the length limit.
   */
  lemma FailedStatusLooksLikeNoPlayer(metadata: Metadata, cfg: MprisConfig)
    requires '{' !in cfg.formatNothing
    requires cfg.lengthLim == 0 || |cfg.formatNothing| <= cfg.lengthLim
    ensures var t := PlayerTick(None, Some(metadata), cfg).value;
      (t.state, t.text) == NoPlayerTick(cfg)
  {
    PreDisplayWithoutBraces(ReadMediaInfo(None, metadata), cfg);
  }

  // ---------------------------------------------------------------------
  // CSS classes and tooltip
  // ---------------------------------------------------------------------

  /** The class string for a state name: playing, paused, and stopped for everything else. */
  function ClassString(state: string): string
  {
    if state == "Playing" then "mpris playing"
    else if state == "Paused" then "mpris paused"
    else "mpris stopped"
  }

  /** The button's classes: the class string split at its space. */
  function CssClasses(state: string): (r: seq<string>)
    ensures |r| == 2 && r[0] == "mpris"
    ensures r[1] == "playing" <==> state == "Playing"
    ensures r[1] == "paused" <==> state == "Paused"
    ensures r[1] == "stopped" <==> state != "Playing" && state != "Paused"
  {
    var second := if state == "Playing" then "playing" else if state == "Paused" then "paused" else "stopped";
    assert ClassString(state) == "mpris" + [' '] + second;
    assert ' ' !in "mpris" && ' ' !in second;
    SplitTwoWords("mpris", ' ', second);
    Split(ClassString(state), ' ')
  }

  /** A failed status query and a stopped player share the "stopped" class. */
  lemma ClassOfStatus(q: Option<PlaybackStatus>)
    ensures CssClasses(StatusName(q))[1] ==
      match q
      case Some(Playing) => "playing"
      case Some(Paused) => "paused"
      case _ => "stopped"
  {
  }

  const NO_MEDIA_TOOLTIP: string := "No media playing"

  /** The tooltip: a fixed text without a title, else the tooltip format filled in. */
  function Tooltip(info: MediaInfo, tooltipFormat: string): (r: string)
    ensures info.title == "" ==> r == NO_MEDIA_TOOLTIP
    ensures info.title != "" && '{' !in tooltipFormat ==> r == tooltipFormat
  {
    if info.title != "" then
      var r := FillTemplate(tooltipFormat, TooltipFills(info));
      assert '{' !in tooltipFormat ==> r == tooltipFormat by {
        if '{' !in tooltipFormat { FillTemplateWithoutBraces(tooltipFormat, TooltipFills(info)); }
      }
      r
    else NO_MEDIA_TOOLTIP
  }

  /**
   * With a title, every `{artist}`, `{title}`, `{album}` and `{status}` of
   * the tooltip format is replaced by its value, and everything else kept.
   */
  lemma TooltipFillsPlaceholders(ps: seq<Piece>, info: MediaInfo)
    requires TemplateOk(ps) && info.title != "" && BraceFree(info)
    ensures Tooltip(info, Render(ps)) == Render(SubstituteAll(ps, TooltipFills(info)))
  {
    FillTemplateSubstitutes(ps, TooltipFills(info));
  }

  /** A tooltip format of just `{title}` shows the title (one without braces of its own). */
  lemma TooltipTitleOnly(info: MediaInfo)
    requires info.title != "" && '{' !in info.title
    ensures Tooltip(info, "{title}") == info.title
  {
    var f := TooltipFills(info);
    assert Placeholder("artist") == "{artist}" && Placeholder("title") == "{title}";
    assert !Contains("{title}", "{artist}");
    ReplaceAbsent("{title}", "{artist}", info.artist);
    ReplaceWhole("{title}", info.title);
    assert Tooltip(info, "{title}") == FillTemplate("{title}", f[1..]);
    assert f[1..][0].0 == "title";
    assert f[1..][1..] == f[2..];
    assert FillTemplate("{title}", f[1..]) == FillTemplate(info.title, f[2..]);
    FillTemplateWithoutBraces(info.title, f[2..]);
  }

  /** Before the first round the tooltip says that nothing is playing. */
  lemma InitialTooltip(tooltipFormat: string)
    ensures Tooltip(INITIAL_MEDIA_INFO, tooltipFormat) == NO_MEDIA_TOOLTIP
  {
  }
}
