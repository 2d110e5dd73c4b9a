/**
 * The Hyprland workspace switcher (modules/hyprland_workspaces.rs): the
 * fetched workspace list, its completion up to a minimum count, the label
 * of each button, the `active` style class, and the poll step that decides
 * between rebuilding the buttons and only moving the active class.
 */
module Workspaces {
  import opened Base

  /** Workspace ids are `i32`; special workspaces have negative ids. */
  type WsId = x: int | -0x8000_0000 <= x <= 0x7fff_ffff

  /** `WorkspaceObject`: compared and ordered by id alone. */
  datatype WorkspaceObject = WorkspaceObject(id: WsId, name: string)

  /** `is_special_workspace`. */
  predicate IsSpecial(w: WorkspaceObject)
  {
    w.id < 0
  }

  /** `Vec<WorkspaceObject>` equality: same length, same ids position by position; names are ignored. */
  predicate SameList(a: seq<WorkspaceObject>, b: seq<WorkspaceObject>)
  {
    |a| == |b| && forall i | 0 <= i < |a| :: a[i].id == b[i].id
  }

  predicate SortedById(s: seq<WorkspaceObject>)
  {
    forall i, j | 0 <= i < j < |s| :: s[i].id <= s[j].id
  }

  predicate HasId(s: seq<WorkspaceObject>, k: int)
  {
    exists j | 0 <= j < |s| :: s[j].id == k
  }

  // ---------------------------------------------------------------------
  // Sorting by id
  // ---------------------------------------------------------------------

  /** In a sorted list the head's id is a lower bound for the rest. */
  lemma SortedHeadIsLeast(s: seq<WorkspaceObject>)
    requires SortedById(s) && |s| > 0
    ensures forall y | y in s[1..] :: s[0].id <= y.id
  {
    forall y | y in s[1..] ensures s[0].id <= y.id {
      var k :| 0 <= k < |s[1..]| && s[1..][k] == y;
      assert s[k + 1] == y;
    }
  }

  /** A bag bounded below by `h` stays so whatever its order. */
  lemma BoundCarriesOver(h: int, t: seq<WorkspaceObject>, x: WorkspaceObject, rest: seq<WorkspaceObject>)
    requires forall y | y in t :: h <= y.id
    requires h <= x.id
    requires multiset(rest) == multiset(t) + multiset{x}
    ensures forall k | 0 <= k < |rest| :: h <= rest[k].id
  {
    forall k | 0 <= k < |rest| ensures h <= rest[k].id {
      assert rest[k] in multiset(rest);
    }
  }

  /** Insert `x` before the first element with a larger-or-equal id. */
  function Insert(x: WorkspaceObject, s: seq<WorkspaceObject>): (r: seq<WorkspaceObject>)
    requires SortedById(s)
    ensures |r| == |s| + 1
    ensures multiset(r) == multiset(s) + multiset{x}
    ensures SortedById(r)
  {
    if |s| == 0 then [x]
    else if x.id <= s[0].id then
      SortedCons(x, s);
      [x] + s
    else
      var rest := Insert(x, s[1..]);
      MultisetOfCons(s);
      SortedHeadIsLeast(s);
      BoundCarriesOver(s[0].id, s[1..], x, rest);
      SortedCons(s[0], rest);
      [s[0]] + rest
  }

  /** A head no larger than every entry of a sorted list keeps it sorted. */
  lemma SortedCons(h: WorkspaceObject, rest: seq<WorkspaceObject>)
    requires SortedById(rest)
    requires forall k | 0 <= k < |rest| :: h.id <= rest[k].id
    ensures SortedById([h] + rest)
  {
    var r := [h] + rest;
    forall i, j | 0 <= i < j < |r| ensures r[i].id <= r[j].id {
      assert r[j] == rest[j - 1];
      if i > 0 { assert r[i] == rest[i - 1]; }
    }
  }

  /** A stable sort by id (`sort_by_key(|w| w.id)`). */
  function SortById(s: seq<WorkspaceObject>): (r: seq<WorkspaceObject>)
    ensures |r| == |s|
    ensures multiset(r) == multiset(s)
    ensures SortedById(r)
  {
    if |s| == 0 then []
    else
      MultisetOfCons(s);
      Insert(s[0], SortById(s[1..]))
  }

  /** Sorting an already sorted list changes nothing. */
  lemma {:induction false} SortByIdSortedIsIdentity(s: seq<WorkspaceObject>)
    requires SortedById(s)
    ensures SortById(s) == s
  {
    if |s| > 0 {
      SortByIdSortedIsIdentity(s[1..]);
      if |s| > 1 {
        assert s[0].id <= s[1].id;
        assert [s[0]] + s[1..] == s;
      }
    }
  }

  /** Same-id workspaces are kept in their original order (stability). */
  lemma SortByIdStableOnEqualIds(a: WorkspaceObject, b: WorkspaceObject)
    requires a.id == b.id
    ensures SortById([a, b]) == [a, b]
  {
    SortByIdSortedIsIdentity([a, b]);
  }

  // ---------------------------------------------------------------------
  // Fetching
  // ---------------------------------------------------------------------

  /** Keep the regular (non-special) workspaces, in order. */
  function DropSpecial(s: seq<WorkspaceObject>): (r: seq<WorkspaceObject>)
    ensures multiset(r) <= multiset(s)
    ensures forall y | y in r :: !IsSpecial(y)
    ensures forall y | y in s && !IsSpecial(y) :: y in r
  {
    if |s| == 0 then []
    else
      assert s == [s[0]] + s[1..];
      (if IsSpecial(s[0]) then [] else [s[0]]) + DropSpecial(s[1..])
  }

  /** A list whose ids are all at least `lo` keeps that bound when specials are dropped. */
  lemma DropSpecialBounded(s: seq<WorkspaceObject>, lo: int)
    requires forall y | y in s :: lo <= y.id
    ensures forall k | 0 <= k < |DropSpecial(s)| :: lo <= DropSpecial(s)[k].id
  {
    forall k | 0 <= k < |DropSpecial(s)| ensures lo <= DropSpecial(s)[k].id {
      assert DropSpecial(s)[k] in multiset(s);
    }
  }

  /** Dropping the special workspaces keeps a sorted list sorted. */
  lemma {:induction false} DropSpecialKeepsOrder(s: seq<WorkspaceObject>)
    requires SortedById(s)
    ensures SortedById(DropSpecial(s))
  {
    if |s| > 0 {
      var rest := DropSpecial(s[1..]);
      DropSpecialKeepsOrder(s[1..]);
      if !IsSpecial(s[0]) {
        SortedHeadIsLeast(s);
        DropSpecialBounded(s[1..], s[0].id);
        var r := [s[0]] + rest;
        assert DropSpecial(s) == r;
        forall i, j | 0 <= i < j < |r| ensures r[i].id <= r[j].id {
          assert r[j] == rest[j - 1];
          if i > 0 { assert r[i] == rest[i - 1]; }
        }
      } else {
        assert DropSpecial(s) == [] + rest;
      }
    }
  }

  /**
   * One poll of the compositor: the workspaces sorted by id, without the
   * special ones unless they are to be shown, and the active id. A failed
   * list query gives no workspaces and active id -1; a failed active query
   * gives active id -1.
   */
  function Fetch(listed: Option<seq<WorkspaceObject>>, active: Option<WsId>, showSpecial: bool)
    : (r: (seq<WorkspaceObject>, WsId))
    ensures SortedById(r.0)
    ensures listed.None? ==> r == ([], -1)
    ensures listed.Some? ==> r.1 == active.GetOr(-1)
    ensures listed.Some? && showSpecial ==> multiset(r.0) == multiset(listed.value)
    ensures listed.Some? && !showSpecial ==>
      && multiset(r.0) <= multiset(listed.value)
      && forall w | w in listed.value :: w in r.0 <==> !IsSpecial(w)
    ensures !showSpecial ==> forall w | w in r.0 :: !IsSpecial(w)
  {
    match listed
    case None => ([], -1)
    case Some(ws) =>
      var sorted := SortById(ws);
      DropSpecialKeepsOrder(sorted);
      assert forall w | w in ws :: w in sorted by {
        forall w | w in ws ensures w in sorted { assert w in multiset(ws); }
      }
      assert forall w | w in DropSpecial(sorted) :: w in ws by {
        forall w | w in DropSpecial(sorted) ensures w in ws { assert w in multiset(DropSpecial(sorted)); }
      }
      (if showSpecial then sorted else DropSpecial(sorted), active.GetOr(-1))
  }

  // ---------------------------------------------------------------------
  // Completion
  // ---------------------------------------------------------------------

  /** The `for i in 1..=min` loop, from `i`: append an unnamed workspace for each missing id. */
  function Fill(acc: seq<WorkspaceObject>, i: int, min: WsId): (r: seq<WorkspaceObject>)
    requires i >= 1
    ensures |r| >= |acc| && r[..|acc|] == acc
    ensures forall k | i <= k <= min :: HasId(r, k)
    ensures forall j | |acc| <= j < |r| :: r[j].name == "" && i <= r[j].id <= min && !HasId(acc, r[j].id)
    ensures forall j, k | |acc| <= j < k < |r| :: r[j].id < r[k].id
    ensures min < i ==> r == acc
    decreases min - i + 1
  {
    if i > min then acc
    else
      assert IsI32(i);
      var next := if HasId(acc, i) then acc else acc + [WorkspaceObject(i, "")];
      assert next[..|acc|] == acc;
      var r := Fill(next, i + 1, min);
      assert r[..|acc|] == acc by { assert r[..|next|][..|acc|] == acc; }
      assert HasId(r, i) by {
        if HasId(acc, i) {
          var j :| 0 <= j < |acc| && acc[j].id == i;
          assert r[j] == acc[j];
        } else {
          assert r[|acc|] == next[|acc|];
        }
      }
      forall j | |acc| <= j < |r| ensures r[j].name == "" && i <= r[j].id <= min && !HasId(acc, r[j].id) {
        if j < |next| {
          assert r[j] == next[j] == WorkspaceObject(i, "");
        } else {
          assert forall m | 0 <= m < |acc| :: next[m] == acc[m];
          assert !HasId(next, r[j].id);
        }
      }
      r
  }

  /**
   * `rebuild_buttons`' workspace array: the fetched list plus an unnamed
   * workspace for every id in `1..=min` that is missing, sorted by id.
   */
  function Complete(ws: seq<WorkspaceObject>, min: WsId): (r: seq<WorkspaceObject>)
    ensures SortedById(r)
    ensures multiset(ws) <= multiset(r)
    ensures forall k | 1 <= k <= min :: HasId(r, k)
    ensures forall w | w in r :: w in ws || (w.name == "" && 1 <= w.id <= min && !HasId(ws, w.id))
    ensures min <= 0 ==> r == SortById(ws)
  {
    var filled := Fill(ws, 1, min);
    var r := SortById(filled);
    assert filled == ws + filled[|ws|..];
    CompleteMembers(ws, min, filled, r);
    r
  }

  /** Element-wise facts about `Complete`, moved out of its body. */
  lemma CompleteMembers(ws: seq<WorkspaceObject>, min: WsId, filled: seq<WorkspaceObject>, r: seq<WorkspaceObject>)
    requires filled == Fill(ws, 1, min) && multiset(r) == multiset(filled)
    ensures forall k | 1 <= k <= min :: HasId(r, k)
    ensures forall w | w in r :: w in ws || (w.name == "" && 1 <= w.id <= min && !HasId(ws, w.id))
  {
    forall k | 1 <= k <= min ensures HasId(r, k) {
      assert HasId(filled, k);
      var j :| 0 <= j < |filled| && filled[j].id == k;
      assert filled[j] in multiset(r);
      var m :| 0 <= m < |r| && r[m] == filled[j];
    }
    forall w | w in r ensures w in ws || (w.name == "" && 1 <= w.id <= min && !HasId(ws, w.id)) {
      assert w in multiset(filled);
      var j :| 0 <= j < |filled| && filled[j] == w;
      if j < |ws| { assert filled[..|ws|][j] == w; }
    }
  }

  // ---------------------------------------------------------------------
  // Labels
  // ---------------------------------------------------------------------

  /** Display name of a special workspace: the text after the last `:` of a name starting with "special". */
  function SpecialName(name: string): (r: string)
    ensures !StartsWith(name, "special") ==> r == ""
    ensures StartsWith(name, "special") ==>
      && ':' !in r && EndsWith(name, r)
      && (|r| < |name| ==> name[|name| - |r| - 1] == ':')
  {
    if StartsWith(name, "special") then LastSegment(name, ':') else ""
  }

  /** `special:scratch` is shown as `scratch`. */
  lemma SpecialNameAfterColon()
    ensures SpecialName("special:scratch") == "scratch"
  {
    var name := "special:scratch";
    assert name == "special" + [':'] + "scratch";
    assert StartsWith(name, "special") by { assert name[..7] == "special"; }
    LastSegmentAfterSeparator("special", ':', "scratch");
  }

  /** A bare `special` keeps its name; a name not starting with "special" has none. */
  lemma SpecialNameWithoutColon()
    ensures SpecialName("special") == "special"
    ensures SpecialName("chat") == ""
  {
    assert StartsWith("special", "special") by { assert "special"[..7] == "special"; }
    LastSegmentWithoutSeparator("special", ':');
    assert !StartsWith("chat", "special");
  }

  /** `ws_id as u32`: the key under which the formatting map is consulted. */
  function FormattingKey(id: WsId): (k: int)
    ensures 0 <= k < TWO_32
    ensures id >= 0 ==> k == id
    ensures id < 0 ==> k == id + TWO_32
  {
    I32AsU32(id)
  }

  /** Distinct workspaces never share a formatting entry. */
  lemma FormattingKeyInjective(a: WsId, b: WsId)
    ensures FormattingKey(a) == FormattingKey(b) ==> a == b
  {
    assert I32_MIN + TWO_32 > I32_MAX;
  }

  /**
   * `pre_format`: the formatting-map entry if there is one; otherwise the
   * special name of a special workspace that has one; otherwise the decimal id.
   */
  function PreFormat(w: WorkspaceObject, formatting: Option<map<int, string>>): (r: string)
    ensures formatting.Some? && FormattingKey(w.id) in formatting.value ==>
      r == formatting.value[FormattingKey(w.id)]
    ensures (formatting.None? || FormattingKey(w.id) !in formatting.value) ==>
      if SpecialName(w.name) != "" && IsSpecial(w) then r == SpecialName(w.name)
      else ParseI32(r) == Some(w.id as int)
  {
    IntToStringRoundTrip(w.id);
    var fallback := if SpecialName(w.name) != "" && IsSpecial(w) then SpecialName(w.name) else IntToString(w.id);
    match formatting
    case Some(m) => if FormattingKey(w.id) in m then m[FormattingKey(w.id)] else fallback
    case None => fallback
  }

  /** The icon for a button: `icons["active"]` for the active id, `icons["normal"]` otherwise, else empty. */
  function IconFor(icons: map<string, string>, isActive: bool): (r: string)
    ensures isActive && "active" in icons ==> r == icons["active"]
    ensures !isActive && "normal" in icons ==> r == icons["normal"]
    ensures (if isActive then "active" else "normal") !in icons ==> r == ""
  {
    var key := if isActive then "active" else "normal";
    if key in icons then icons[key] else ""
  }

  /**
   * The label: `{}` is first read as `{id}`, then `{id}` becomes the
   * pre-format text; with an icon map, `{icon}` becomes the chosen icon.
   */
  function Label(format: string, pre: string, icons: Option<map<string, string>>, isActive: bool): string
  {
    var l := Replace(Replace(format, "{}", "{id}"), "{id}", pre);
    match icons
    case None => l
    case Some(m) => Replace(l, "{icon}", IconFor(m, isActive))
  }

  const DEFAULT_FORMAT: string := "{id}"

  /** The icon a label fills in, when there is an icon map. */
  function ChosenIcon(icons: Option<map<string, string>>, isActive: bool): Option<string>
  {
    match icons
    case None => None
    case Some(m) => Some(IconFor(m, isActive))
  }

  /** The label's replacements in order: `{}` renamed to `{id}`, `{id}` filled, then `{icon}` when there are icons. */
  function LabelFills(pre: string, icons: Option<map<string, string>>, isActive: bool): seq<(string, Piece)>
  {
    [("", Hole("id")), ("id", Lit(pre))]
      + match ChosenIcon(icons, isActive) case None => [] case Some(icon) => [("icon", Lit(icon))]
  }

  /** What the label makes of one piece of its format. */
  function LabelPiece(p: Piece, pre: string, icon: Option<string>): Piece
  {
    match p
    case Lit(_) => p
    case Hole(n) =>
      if n == "" || n == "id" then Lit(pre)
      else if n == "icon" && icon.Some? then Lit(icon.value)
      else p
  }

  /** The label is the format with its fills applied in order. */
  lemma LabelIsFillTemplate(format: string, pre: string, icons: Option<map<string, string>>, isActive: bool)
    ensures Label(format, pre, icons, isActive) == FillTemplate(format, LabelFills(pre, icons, isActive))
  {
    var f := LabelFills(pre, icons, isActive);
    assert Placeholder("") == "{}" && Placeholder("id") == "{id}";
    assert PieceText(Hole("id")) == "{id}";
    var l := Replace(Replace(format, "{}", "{id}"), "{id}", pre);
    assert FillTemplate(format, f) == FillTemplate(Replace(format, "{}", "{id}"), f[1..]);
    assert f[1..][0] == ("id", Lit(pre));
    assert FillTemplate(format, f) == FillTemplate(l, f[2..]) by { assert f[1..][1..] == f[2..]; }
    match icons {
      case None =>
        assert f[2..] == [];
      case Some(m) =>
        var icon := IconFor(m, isActive);
        assert Placeholder("icon") == "{icon}" && PieceText(Lit(icon)) == icon;
        assert f[2..] == [("icon", Lit(icon))];
        assert f[2..][1..] == [];
        assert FillTemplate(l, f[2..]) == FillTemplate(Replace(l, "{icon}", icon), []);
    }
  }

  /** Each piece of a format goes through the label's fills as `LabelPiece` says. */
  lemma LabelFillsPiece(p: Piece, pre: string, icons: Option<map<string, string>>, isActive: bool)
    ensures FillPiece(p, LabelFills(pre, icons, isActive)) == LabelPiece(p, pre, ChosenIcon(icons, isActive))
  {
    var f := LabelFills(pre, icons, isActive);
    var p1 := if p == Hole("") then Hole("id") else p;
    var p2 := if p1 == Hole("id") then Lit(pre) else p1;
    assert FillPiece(p, f) == FillPiece(p1, f[1..]);
    assert f[1..][0] == ("id", Lit(pre));
    assert FillPiece(p1, f[1..]) == FillPiece(p2, f[2..]) by { assert f[1..][1..] == f[2..]; }
    match ChosenIcon(icons, isActive) {
      case None =>
        assert f[2..] == [];
      case Some(icon) =>
        assert f[2..] == [("icon", Lit(icon))];
        assert f[2..][1..] == [];
        assert FillPiece(p2, f[2..]) == FillPiece(if p2 == Hole("icon") then Lit(icon) else p2, []);
    }
  }

  /**
   * For a brace-free pre-format text and icon, every `{}` and `{id}` of the
   * format becomes the pre-format text, every `{icon}` (with an icon map)
   * the chosen icon, and all other text is kept.
   */
  lemma LabelFillsPlaceholders(ps: seq<Piece>, pre: string, icons: Option<map<string, string>>, isActive: bool)
    requires TemplateOk(ps) && '{' !in pre
    requires icons.Some? ==> '{' !in IconFor(icons.value, isActive)
    ensures Label(Base.Render(ps), pre, icons, isActive)
      == Base.Render(seq(|ps|, i requires 0 <= i < |ps| => LabelPiece(ps[i], pre, ChosenIcon(icons, isActive))))
  {
    var f := LabelFills(pre, icons, isActive);
    assert FillsOk(f) by {
      assert NameOk("") && NameOk("id") && NameOk("icon");
      forall i | 0 <= i < |f| ensures NameOk(f[i].0) && PieceOk(f[i].1) {
        assert i < 2 || f[i] == ("icon", Lit(ChosenIcon(icons, isActive).value));
      }
    }
    LabelIsFillTemplate(Base.Render(ps), pre, icons, isActive);
    FillTemplateRender(ps, f);
    var inst := Instantiate(ps, f);
    var want := seq(|ps|, i requires 0 <= i < |ps| => LabelPiece(ps[i], pre, ChosenIcon(icons, isActive)));
    forall i | 0 <= i < |ps| ensures inst[i] == want[i] {
      LabelFillsPiece(ps[i], pre, icons, isActive);
    }
    assert inst == want;
  }


  lemma NoBracesInIdPattern()
    ensures !Contains("{id}", "{}")
  {
    NotOccursAtByChar("{id}", "{}", 0, 1);
    NotOccursAtByChar("{id}", "{}", 1, 0);
    NotOccursAtByChar("{id}", "{}", 2, 0);
    forall i | 0 <= i <= 4 ensures !OccursAt("{id}", "{}", i) {
      assert i <= 2 || i + 2 > 4;
    }
  }

  /** With the default format and no icons, the label is the pre-format text itself. */
  lemma DefaultFormatLabel(pre: string, isActive: bool)
    ensures Label(DEFAULT_FORMAT, pre, None, isActive) == pre
  {
    NoBracesInIdPattern();
    ReplaceAbsent("{id}", "{}", "{id}");
    ReplaceWhole("{id}", pre);
  }

  /** `{}` and `{id}` are the same placeholder. */
  lemma EmptyBracesMeanId(pre: string, icons: Option<map<string, string>>, isActive: bool)
    ensures Label("{}", pre, icons, isActive) == Label("{id}", pre, icons, isActive)
  {
    ReplaceWhole("{}", "{id}");
    NoBracesInIdPattern();
    ReplaceAbsent("{id}", "{}", "{id}");
  }

  /** A format of just `{icon}` shows exactly the chosen icon. */
  lemma IconOnlyLabel(pre: string, icons: map<string, string>, isActive: bool)
    ensures Label("{icon}", pre, Some(icons), isActive) == IconFor(icons, isActive)
  {
    var f := "{icon}";
    assert !Contains(f, "{}") by {
      NotOccursAtByChar(f, "{}", 0, 1);
      NotOccursAtByChar(f, "{}", 1, 0);
      NotOccursAtByChar(f, "{}", 2, 0);
      NotOccursAtByChar(f, "{}", 3, 0);
      NotOccursAtByChar(f, "{}", 4, 0);
      forall i | 0 <= i <= |f| ensures !OccursAt(f, "{}", i) {
        assert i <= 4 || i + 2 > |f|;
      }
    }
    assert !Contains(f, "{id}") by {
      NotOccursAtByChar(f, "{id}", 0, 2);
      NotOccursAtByChar(f, "{id}", 1, 0);
      NotOccursAtByChar(f, "{id}", 2, 0);
      forall i | 0 <= i <= |f| ensures !OccursAt(f, "{id}", i) {
        assert i <= 2 || i + 4 > |f|;
      }
    }
    ReplaceAbsent(f, "{}", "{id}");
    ReplaceAbsent(f, "{id}", pre);
    ReplaceWhole(f, IconFor(icons, isActive));
  }

  // ---------------------------------------------------------------------
  // Buttons and the active class
  // ---------------------------------------------------------------------

  datatype WorkspacesConfig = WorkspacesConfig(
    format: Option<string>,
    icons: Option<map<string, string>>,
    minWorkspaceCount: WsId,
    formatting: Option<map<int, string>>,
    showSpecial: bool)

  /** A workspace button: its widget name (the decimal id), its label and its style classes. */
  datatype Button = Button(widgetName: string, text: string, classes: seq<string>)

  function ButtonClasses(id: int, activeId: int): (r: seq<string>)
    ensures |r| >= 1 && r[0] == "workspace-button"
    ensures "active" in r <==> id == activeId
  {
    if id == activeId then ["workspace-button", "active"] else ["workspace-button"]
  }

  /**
   * `rebuild_buttons`: one button per completed workspace, labelled with
   * `iconActive` deciding which icon is used and styled against `classActive`.
   */
  function RebuildButtons(ws: seq<WorkspaceObject>, iconActive: WsId, classActive: WsId, cfg: WorkspacesConfig)
    : (r: seq<Button>)
    ensures var c := Complete(ws, cfg.minWorkspaceCount);
      && |r| == |c|
      && forall i | 0 <= i < |r| ::
        && r[i].widgetName == IntToString(c[i].id)
        && r[i].text == Label(cfg.format.GetOr(DEFAULT_FORMAT), PreFormat(c[i], cfg.formatting),
                              cfg.icons, c[i].id == iconActive)
        && r[i].classes == ButtonClasses(c[i].id, classActive)
  {
    var c := Complete(ws, cfg.minWorkspaceCount);
    seq(|c|, i requires 0 <= i < |c| =>
      Button(IntToString(c[i].id),
             Label(cfg.format.GetOr(DEFAULT_FORMAT), PreFormat(c[i], cfg.formatting), cfg.icons, c[i].id == iconActive),
             ButtonClasses(c[i].id, classActive)))
  }

  /** `update_active_class`: re-read each button's id from its widget name (-1 if unreadable). */
  function UpdateActiveClass(buttons: seq<Button>, activeId: WsId): (r: seq<Button>)
    ensures |r| == |buttons|
    ensures forall i | 0 <= i < |r| ::
      && r[i].widgetName == buttons[i].widgetName && r[i].text == buttons[i].text
      && ("active" in r[i].classes <==> ParseI32(buttons[i].widgetName).GetOr(-1) == activeId)
  {
    seq(|buttons|, i requires 0 <= i < |buttons| =>
      buttons[i].(classes := ButtonClasses(ParseI32(buttons[i].widgetName).GetOr(-1), activeId)))
  }

  /** Buttons show workspace `c[i]` in order, named by their decimal ids. */
  predicate ShowsWorkspaces(buttons: seq<Button>, c: seq<WorkspaceObject>)
  {
    |buttons| == |c| && forall i | 0 <= i < |c| :: buttons[i].widgetName == IntToString(c[i].id)
  }

  /** After a class update, a button is styled active exactly when its workspace is the active one. */
  lemma ActiveClassMarksActiveWorkspace(buttons: seq<Button>, c: seq<WorkspaceObject>, activeId: WsId)
    requires ShowsWorkspaces(buttons, c)
    ensures var r := UpdateActiveClass(buttons, activeId);
      forall i | 0 <= i < |r| :: "active" in r[i].classes <==> c[i].id == activeId
  {
    forall i | 0 <= i < |c| ensures ParseI32(buttons[i].widgetName).GetOr(-1) == c[i].id {
      IntToStringRoundTrip(c[i].id);
    }
  }

  // ---------------------------------------------------------------------
  // The poll step
  // ---------------------------------------------------------------------

  /** What the poll closure remembers between ticks. */
  datatype PollState = PollState(prevWorkspaces: seq<WorkspaceObject>, prevActive: WsId)

  const INITIAL_POLL: PollState := PollState([], -1)

  /** What a tick does to the buttons. */
  datatype PollAction =
    | Rebuild(buttons: seq<Button>, thenActive: WsId)
    | MoveActive(activeId: WsId)
    | NoChange

  /**
   * One tick with a fresh `(ws, active)` reading, labelling rebuilt buttons
   * against `iconActive`: rebuild when the list differs (then remember both
   * values); otherwise move the active class when only the active id changed
   * (then remember only it); otherwise do nothing.
   */
  function PollStepLabelled(st: PollState, ws: seq<WorkspaceObject>, active: WsId, cfg: WorkspacesConfig,
                            iconActive: WsId): (r: (PollState, PollAction))
    ensures !SameList(ws, st.prevWorkspaces) ==>
      && r.0 == PollState(ws, active)
      && r.1 == Rebuild(RebuildButtons(ws, iconActive, st.prevActive, cfg), active)
    ensures SameList(ws, st.prevWorkspaces) && active != st.prevActive ==>
      r == (st.(prevActive := active), MoveActive(active))
    ensures SameList(ws, st.prevWorkspaces) && active == st.prevActive ==> r == (st, NoChange)
    ensures r.0.prevActive == active
  {
    if !SameList(ws, st.prevWorkspaces) then
      (PollState(ws, active), Rebuild(RebuildButtons(ws, iconActive, st.prevActive, cfg), active))
    else if active != st.prevActive then
      (st.(prevActive := active), MoveActive(active))
    else (st, NoChange)
  }

  /** The tick as written: rebuilt labels pick their icon against the previous active id. */
  function PollStepAsWritten(st: PollState, ws: seq<WorkspaceObject>, active: WsId, cfg: WorkspacesConfig)
    : (r: (PollState, PollAction))
    ensures r == PollStepLabelled(st, ws, active, cfg, st.prevActive)
    ensures r.0.prevActive == active
  {
    PollStepLabelled(st, ws, active, cfg, st.prevActive)
  }

  /** The tick with the active icon taken from the reading being applied. */
  function PollStep(st: PollState, ws: seq<WorkspaceObject>, active: WsId, cfg: WorkspacesConfig)
    : (r: (PollState, PollAction))
    ensures r == PollStepLabelled(st, ws, active, cfg, active)
    ensures r.0.prevActive == active
  {
    PollStepLabelled(st, ws, active, cfg, active)
  }

  /** The buttons after the tick's action (the class update of a rebuild runs right after it). */
  function Render(buttons: seq<Button>, action: PollAction): seq<Button>
  {
    match action
    case Rebuild(bs, a) => UpdateActiveClass(bs, a)
    case MoveActive(a) => UpdateActiveClass(buttons, a)
    case NoChange => buttons
  }

  /** The rendered buttons show the completed remembered list. */
  predicate InSync(buttons: seq<Button>, st: PollState, cfg: WorkspacesConfig)
  {
    ShowsWorkspaces(buttons, Complete(st.prevWorkspaces, cfg.minWorkspaceCount))
  }

  /** In sync, with the `active` class exactly on the button of the remembered active id. */
  predicate Styled(buttons: seq<Button>, st: PollState, cfg: WorkspacesConfig)
  {
    && InSync(buttons, st, cfg)
    && forall i | 0 <= i < |buttons| ::
      "active" in buttons[i].classes <==> Complete(st.prevWorkspaces, cfg.minWorkspaceCount)[i].id == st.prevActive
  }

  /** A class update on buttons showing `c` keeps showing `c` and marks exactly the active one. */
  lemma UpdateKeepsSync(buttons: seq<Button>, c: seq<WorkspaceObject>, activeId: WsId)
    requires ShowsWorkspaces(buttons, c)
    ensures var r := UpdateActiveClass(buttons, activeId);
      && ShowsWorkspaces(r, c)
      && forall i | 0 <= i < |r| :: "active" in r[i].classes <==> c[i].id == activeId
  {
    ActiveClassMarksActiveWorkspace(buttons, c, activeId);
  }

  /** Rebuilt buttons, once their classes are updated, are styled for the new reading. */
  lemma RebuildStyled(ws: seq<WorkspaceObject>, iconActive: WsId, classActive: WsId, active: WsId,
                      cfg: WorkspacesConfig)
    ensures Styled(UpdateActiveClass(RebuildButtons(ws, iconActive, classActive, cfg), active),
                   PollState(ws, active), cfg)
  {
    var c := Complete(ws, cfg.minWorkspaceCount);
    var bs := RebuildButtons(ws, iconActive, classActive, cfg);
    assert ShowsWorkspaces(bs, c);
    UpdateKeepsSync(bs, c, active);
  }

  /** Buttons in sync, once their classes are updated, are styled for the new active id. */
  lemma MoveStyled(buttons: seq<Button>, st: PollState, active: WsId, cfg: WorkspacesConfig)
    requires InSync(buttons, st, cfg)
    ensures Styled(UpdateActiveClass(buttons, active), st.(prevActive := active), cfg)
  {
    UpdateKeepsSync(buttons, Complete(st.prevWorkspaces, cfg.minWorkspaceCount), active);
  }

  /**
   * Across ticks, the buttons keep showing the remembered list, and the
   * `active` class sits exactly on the button of the remembered active id,
   * provided the buttons were in sync and correctly styled to begin with.
   */
  lemma PollKeepsActiveClass(buttons: seq<Button>, st: PollState,
                             ws: seq<WorkspaceObject>, active: WsId, cfg: WorkspacesConfig)
    requires Styled(buttons, st, cfg)
    ensures var r := PollStep(st, ws, active, cfg);
      Styled(Render(buttons, r.1), r.0, cfg)
  {
    if !SameList(ws, st.prevWorkspaces) {
      RebuildStyled(ws, active, st.prevActive, active, cfg);
    } else if active != st.prevActive {
      MoveStyled(buttons, st, active, cfg);
    }
  }

  /** After a rebuild, the active workspace's label carries the active icon. */
  lemma RebuildLabelsActiveIcon(st: PollState, ws: seq<WorkspaceObject>, active: WsId, cfg: WorkspacesConfig)
    requires !SameList(ws, st.prevWorkspaces)
    ensures var c := Complete(ws, cfg.minWorkspaceCount);
      var bs := PollStep(st, ws, active, cfg).1.buttons;
      forall i | 0 <= i < |c| ::
        bs[i].text == Label(cfg.format.GetOr(DEFAULT_FORMAT), PreFormat(c[i], cfg.formatting), cfg.icons, c[i].id == active)
  {
  }

  /**
   * As written, the labels of a rebuild follow the previous active id: going
   * from workspace 1 alone to workspaces 1 and 2 with 2 active, the `{icon}`
   * label of workspace 2 shows the normal icon and that of 1 the active one.
   */
  lemma StaleActiveIconExample()
    ensures var cfg := WorkspacesConfig(Some("{icon}"), Some(map["active" := "*", "normal" := "o"]), 0, None, false);
      var st := PollState([WorkspaceObject(1, "1")], 1);
      var ws := [WorkspaceObject(1, "1"), WorkspaceObject(2, "2")];
      var bs := PollStepAsWritten(st, ws, 2, cfg).1.buttons;
      && |bs| == 2 && bs[0].text == "*" && bs[1].text == "o"
      && PollStep(st, ws, 2, cfg).1.buttons[1].text == "*"
  {
    var icons := map["active" := "*", "normal" := "o"];
    var cfg := WorkspacesConfig(Some("{icon}"), Some(icons), 0, None, false);
    var st := PollState([WorkspaceObject(1, "1")], 1);
    var ws := [WorkspaceObject(1, "1"), WorkspaceObject(2, "2")];
    assert !SameList(ws, st.prevWorkspaces);
    SortByIdSortedIsIdentity(ws);
    assert Complete(ws, 0) == ws;
    IconOnlyLabel(PreFormat(ws[0], None), icons, true);
    IconOnlyLabel(PreFormat(ws[1], None), icons, false);
    IconOnlyLabel(PreFormat(ws[1], None), icons, true);
  }
}
