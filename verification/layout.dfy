/**
 * The two container modules, modules/revealer.rs and modules/box_module.rs:
 * how their configuration strings become an orientation and a transition,
 * how the revealer's shown/hidden state reacts to clicks and hovering, how a
 * nested container's configuration is completed with defaults, and which
 * child each module name in a container's list stands for.
 *
 * Only the decisions are modelled. Building the GTK widgets, and building a
 * nested container's own children in turn, are left to the caller.
 */
module Layout {
  import opened Base

  datatype Orientation = Horizontal | Vertical

  /** Both containers: "vertical" is vertical and every other string horizontal. */
  function OrientationOf(s: string): (o: Orientation)
    ensures o == Vertical <==> s == "vertical"
  {
    if s == "vertical" then Vertical else Horizontal
  }

  datatype Transition = SlideLeft | SlideRight | SlideUp | SlideDown | Crossfade

  /** The revealer's transition name for each transition: the reference table. */
  function TransitionName(t: Transition): string
  {
    match t
    case SlideLeft => "slide_left"
    case SlideRight => "slide_right"
    case SlideUp => "slide_up"
    case SlideDown => "slide_down"
    case Crossfade => "crossfade"
  }

  /** The transition for a configured name; an unknown name slides left. */
  function TransitionOf(name: string): (t: Transition)
    ensures t != SlideLeft ==> TransitionName(t) == name
  {
    match name
    case "slide_left" => SlideLeft
    case "slide_right" => SlideRight
    case "slide_up" => SlideUp
    case "slide_down" => SlideDown
    case "crossfade" => Crossfade
    case _ => SlideLeft
  }

  /** Every transition is reachable by its own name, and only known names avoid the default. */
  lemma TransitionNamesRoundTrip(t: Transition, name: string)
    ensures TransitionOf(TransitionName(t)) == t
    ensures name !in {"slide_left", "slide_right", "slide_up", "slide_down", "crossfade"} ==>
      TransitionOf(name) == SlideLeft
  {
  }

  // ---------------------------------------------------------------------
  // Configuration
  // ---------------------------------------------------------------------

  datatype RevealerConfig = RevealerConfig(
    modules: seq<string>,
    spacing: int,
    orientation: string,
    trigger: string,
    transition: string,
    transitionDuration: nat,
    revealOnHover: bool)

  /** `RevealerConfig::default`. */
  const DEFAULT_REVEALER: RevealerConfig :=
    RevealerConfig([], 10, "horizontal", "", "slide_left", 200, false)

  datatype BoxConfig = BoxConfig(modules: seq<string>, spacing: int, orientation: string)

  /** A revealer entry of the bar configuration: everything but the list and spacing optional. */
  datatype RevealerEntry = RevealerEntry(
    modules: seq<string>,
    spacing: int,
    orientation: Option<string>,
    trigger: Option<string>,
    transition: Option<string>,
    transitionDuration: Option<nat>,
    revealOnHover: Option<bool>)

  /** A box entry of the bar configuration: the orientation is optional. */
  datatype BoxEntry = BoxEntry(modules: seq<string>, spacing: int, orientation: Option<string>)

  /** A custom module entry; only its presence matters to the containers. */
  datatype CustomEntry = CustomEntry(exec: string, action: string, interval: nat, format: Option<string>)

  /** The parts of the bar configuration that the containers look names up in. */
  datatype AppConfig = AppConfig(
    customModules: map<string, CustomEntry>,
    boxes: map<string, BoxEntry>,
    revealers: map<string, RevealerEntry>)

  /** A nested revealer's configuration: each missing option takes its default. */
  function NestedRevealer(e: RevealerEntry): (c: RevealerConfig)
    ensures c.modules == e.modules && c.spacing == e.spacing
    ensures c.orientation == e.orientation.GetOr("horizontal")
    ensures c.trigger == e.trigger.GetOr("")
    ensures c.transition == e.transition.GetOr("slide_left")
    ensures c.transitionDuration == e.transitionDuration.GetOr(200)
    ensures c.revealOnHover == e.revealOnHover.GetOr(false)
  {
    RevealerConfig(
      e.modules, e.spacing,
      e.orientation.GetOr("horizontal"),
      e.trigger.GetOr(""),
      e.transition.GetOr("slide_left"),
      e.transitionDuration.GetOr(200),
      e.revealOnHover.GetOr(false))
  }

  /** With every option missing, a nested revealer behaves like the default revealer. */
  lemma NestedDefaultsAreTheDefault(modules: seq<string>, spacing: int)
    ensures NestedRevealer(RevealerEntry(modules, spacing, None, None, None, None, None))
      == DEFAULT_REVEALER.(modules := modules, spacing := spacing)
  {
  }

  /** A nested box's configuration: a missing orientation is horizontal. */
  function NestedBox(e: BoxEntry): (c: BoxConfig)
    ensures c.modules == e.modules && c.spacing == e.spacing
    ensures c.orientation == e.orientation.GetOr("horizontal")
    ensures OrientationOf(c.orientation) == Vertical <==> e.orientation == Some("vertical")
  {
    BoxConfig(e.modules, e.spacing, e.orientation.GetOr("horizontal"))
  }

  // ---------------------------------------------------------------------
  // The revealer's state
  // ---------------------------------------------------------------------

  /** The revealer's outward shape: the container's classes and what it shows. */
  datatype RevealerShape = RevealerShape(
    classes: seq<string>,
    contentOrientation: Orientation,
    transition: Transition,
    duration: nat,
    triggerLabel: Option<string>,
    hover: bool)

  /** The revealer as built from its name and configuration; it starts hidden. */
  function RevealerShapeOf(name: string, cfg: RevealerConfig): (r: RevealerShape)
    ensures r.triggerLabel.Some? <==> cfg.trigger != ""
    ensures r.triggerLabel.Some? ==> r.triggerLabel.value == cfg.trigger
    ensures r.classes == ["revealer-widget", "revealer-" + name]
    ensures r.hover == cfg.revealOnHover
  {
    RevealerShape(
      ["revealer-widget", "revealer-" + name],
      OrientationOf(cfg.orientation),
      TransitionOf(cfg.transition),
      cfg.transitionDuration,
      if cfg.trigger != "" then Some(cfg.trigger) else None,
      cfg.revealOnHover)
  }

  /** The user's actions on the revealer. */
  datatype RevealEvent = Click | Enter | Leave

  /**
   * One event: a click on the trigger toggles (there is only a trigger when
   * its text is non-empty); entering shows and leaving hides, but only when
   * hover is enabled. Anything else changes nothing.
   */
  function RevealStep(revealed: bool, e: RevealEvent, cfg: RevealerConfig): (r: bool)
    ensures e == Click && cfg.trigger != "" ==> r == !revealed
    ensures e != Click && cfg.revealOnHover ==> r == (e == Enter)
    ensures e == Click && cfg.trigger == "" ==> r == revealed
    ensures e != Click && !cfg.revealOnHover ==> r == revealed
  {
    match e
    case Click => if cfg.trigger != "" then !revealed else revealed
    case Enter => if cfg.revealOnHover then true else revealed
    case Leave => if cfg.revealOnHover then false else revealed
  }

  /** The state after a run of events, starting hidden. */
  function Revealed(events: seq<RevealEvent>, cfg: RevealerConfig): bool
    decreases |events|
  {
    if |events| == 0 then false
    else RevealStep(Revealed(events[..|events| - 1], cfg), events[|events| - 1], cfg)
  }

  /** The number of clicks in a run of events. */
  function Clicks(events: seq<RevealEvent>): (n: nat)
    ensures n <= |events|
    ensures n == multiset(events)[Click]
    decreases |events|
  {
    if |events| == 0 then 0
    else
      var init := events[..|events| - 1];
      assert events == init + [events[|events| - 1]];
      Clicks(init) + (if events[|events| - 1] == Click then 1 else 0)
  }

  /** Without hover the revealer is shown exactly after an odd number of clicks on a trigger. */
  lemma {:induction false} ShownIffOddClicks(events: seq<RevealEvent>, cfg: RevealerConfig)
    requires !cfg.revealOnHover
    ensures Revealed(events, cfg) <==> cfg.trigger != "" && Clicks(events) % 2 == 1
    decreases |events|
  {
    if |events| > 0 {
      ShownIffOddClicks(events[..|events| - 1], cfg);
    }
  }

  /** With hover enabled and no trigger, the last movement decides. */
  lemma {:induction false} LastMovementDecides(events: seq<RevealEvent>, cfg: RevealerConfig)
    requires cfg.revealOnHover && cfg.trigger == ""
    requires |events| > 0 && events[|events| - 1] != Click
    ensures Revealed(events, cfg) <==> events[|events| - 1] == Enter
  {
  }

  // ---------------------------------------------------------------------
  // Children of a container
  // ---------------------------------------------------------------------

  /** The modules both containers build by their plain names. */
  const BUILTIN_MODULES: set<string> :=
    {"clock", "hyprland/workspaces", "mpris", "network", "battery", "audio"}

  /** No built-in name carries one of the container prefixes. */
  lemma BuiltinsUnprefixed(name: string)
    requires name in BUILTIN_MODULES
    ensures !StartsWith(name, "custom/") && !StartsWith(name, "box/") && !StartsWith(name, "revealer/")
  {
    if name == "clock" || name == "battery" {
      NotStartsWithByChar(name, "custom/", 1);
      NotStartsWithByChar(name, "box/", 1);
    } else {
      NotStartsWithByChar(name, "custom/", 0);
      NotStartsWithByChar(name, "box/", 0);
    }
    NotStartsWithByChar(name, "revealer/", 0);
  }

  /** A name carries at most one of the container prefixes. */
  lemma PrefixesExclusive(name: string)
    ensures StartsWith(name, "custom/") ==> !StartsWith(name, "box/") && !StartsWith(name, "revealer/")
    ensures StartsWith(name, "box/") ==> !StartsWith(name, "revealer/")
  {
    if StartsWith(name, "custom/") {
      NotStartsWithByChar(name, "box/", 0);
      NotStartsWithByChar(name, "revealer/", 0);
    }
    if StartsWith(name, "box/") {
      NotStartsWithByChar(name, "revealer/", 0);
    }
  }

  /** What a module name in a container's list stands for. */
  datatype Child =
    | Builtin(name: string)
    | Custom(name: string, entry: CustomEntry)
    | NestedBoxChild(name: string, boxConfig: BoxConfig)
    | NestedRevealerChild(name: string, revealerConfig: RevealerConfig)

  /** A `prefix/name` module: the stripped name when it is configured in `m`. */
  function Lookup<T>(name: string, prefix: string, m: map<string, T>): (r: Option<(string, T)>)
    requires StartsWith(name, prefix)
    ensures r.Some? <==> name[|prefix|..] in m
    ensures r.Some? ==> r.value.0 == name[|prefix|..] && r.value.1 == m[name[|prefix|..]]
  {
    var key := name[|prefix|..];
    if key in m then Some((key, m[key])) else None
  }

  /**
   * The box's dispatch: a built-in name, then `custom/` and `box/`;
   * an unknown name or a missing entry gives no child.
   */
  function BoxChild(name: string, app: AppConfig): (r: Option<Child>)
    ensures name in BUILTIN_MODULES ==> r == Some(Builtin(name))
    ensures StartsWith(name, "custom/") ==> (r.Some? <==> name[7..] in app.customModules)
    ensures StartsWith(name, "box/") ==> (r.Some? <==> name[4..] in app.boxes)
    ensures StartsWith(name, "box/") && name[4..] in app.boxes ==>
      r == Some(NestedBoxChild(name[4..], NestedBox(app.boxes[name[4..]])))
    ensures name !in BUILTIN_MODULES && !StartsWith(name, "custom/") && !StartsWith(name, "box/") ==> r.None?
  {
    if name in BUILTIN_MODULES then
      BuiltinsUnprefixed(name);
      Some(Builtin(name))
    else if StartsWith(name, "custom/") then
      PrefixesExclusive(name);
      match Lookup(name, "custom/", app.customModules)
      case Some((n, e)) => Some(Custom(n, e))
      case None => None
    else if StartsWith(name, "box/") then
      PrefixesExclusive(name);
      match Lookup(name, "box/", app.boxes)
      case Some((n, e)) => Some(NestedBoxChild(n, NestedBox(e)))
      case None => None
    else None
  }

  /** The revealer's dispatch: the box's, plus nested revealers under `revealer/`. */
  function RevealerChild(name: string, app: AppConfig): (r: Option<Child>)
    ensures StartsWith(name, "revealer/") ==> (r.Some? <==> name[9..] in app.revealers)
    ensures StartsWith(name, "revealer/") && name[9..] in app.revealers ==>
      r == Some(NestedRevealerChild(name[9..], NestedRevealer(app.revealers[name[9..]])))
  {
    if name in BUILTIN_MODULES then
      BuiltinsUnprefixed(name);
      Some(Builtin(name))
    else if StartsWith(name, "custom/") then
      PrefixesExclusive(name);
      match Lookup(name, "custom/", app.customModules)
      case Some((n, e)) => Some(Custom(n, e))
      case None => None
    else if StartsWith(name, "box/") then
      PrefixesExclusive(name);
      match Lookup(name, "box/", app.boxes)
      case Some((n, e)) => Some(NestedBoxChild(n, NestedBox(e)))
      case None => None
    else if StartsWith(name, "revealer/") then
      match Lookup(name, "revealer/", app.revealers)
      case Some((n, e)) => Some(NestedRevealerChild(n, NestedRevealer(e)))
      case None => None
    else None
  }

  /** The two dispatchers differ only on `revealer/` names, which a box ignores. */
  lemma DispatchersDifferOnlyOnRevealers(name: string, app: AppConfig)
    ensures !StartsWith(name, "revealer/") ==> BoxChild(name, app) == RevealerChild(name, app)
    ensures StartsWith(name, "revealer/") ==> BoxChild(name, app).None?
  {
    if StartsWith(name, "revealer/") {
      if name in BUILTIN_MODULES { BuiltinsUnprefixed(name); }
      PrefixesExclusive(name);
    }
  }

  /** A container's children: one per name that stands for something, in list order. */
  function Children(names: seq<string>, app: AppConfig, inRevealer: bool): (r: seq<Child>)
    ensures |r| <= |names|
    decreases |names|
  {
    if |names| == 0 then []
    else
      var rest := Children(names[..|names| - 1], app, inRevealer);
      var last := names[|names| - 1];
      match (if inRevealer then RevealerChild(last, app) else BoxChild(last, app))
      case Some(c) => rest + [c]
      case None => rest
  }

  /** Children of a concatenated list are the children of each part, in order. */
  lemma {:induction false} ChildrenAppend(a: seq<string>, b: seq<string>, app: AppConfig, inRevealer: bool)
    ensures Children(a + b, app, inRevealer) == Children(a, app, inRevealer) + Children(b, app, inRevealer)
    decreases |b|
  {
    if |b| > 0 {
      var b' := b[..|b| - 1];
      assert (a + b)[..|a + b| - 1] == a + b';
      assert (a + b)[|a + b| - 1] == b[|b| - 1];
      ChildrenAppend(a, b', app, inRevealer);
    } else {
      assert a + b == a;
    }
  }

  /** A list of built-in names yields one built-in child per name. */
  lemma {:induction false} BuiltinsAllBuilt(names: seq<string>, app: AppConfig, inRevealer: bool)
    requires forall i | 0 <= i < |names| :: names[i] in BUILTIN_MODULES
    ensures Children(names, app, inRevealer) == seq(|names|, i requires 0 <= i < |names| => Builtin(names[i]))
    decreases |names|
  {
    if |names| > 0 {
      BuiltinsAllBuilt(names[..|names| - 1], app, inRevealer);
      var last := names[|names| - 1];
      assert RevealerChild(last, app) == Some(Builtin(last));
    }
  }
}
