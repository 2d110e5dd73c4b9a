/**
 * The com.canonical.dbusmenu client of the tray host (modules/tray/widget.rs):
 * decoding a `GetLayout` reply into the flat, pre-order list of menu entries
 * the popup shows, the label clean-up, the visible filter, and the `Event`
 * call a click sends back.
 *
 * Wire values are a small sum type standing in for the D-Bus library's
 * dynamically typed argument: the accessors `AsIter`, `AsStr` and `AsI64`
 * behave as that library's do, looking through a variant to its content.
 */
module DbusMenu {
  import opened Base

  datatype Value =
    | Str(s: string)
    | Int(n: int64)
    | Bool(b: bool)
    | Struct(fields: seq<Value>)
    | Array(elems: seq<Value>)
    | Dict(entries: seq<(Value, Value)>)
    | Variant(inner: Value)

  /** Dictionary entries as one flat `key, value, key, value, ...` run. */
  function Flatten(entries: seq<(Value, Value)>): (r: seq<Value>)
    ensures |r| == 2 * |entries|
    ensures forall i | 0 <= i < |entries| :: r[2 * i] == entries[i].0 && r[2 * i + 1] == entries[i].1
  {
    if |entries| == 0 then [] else [entries[0].0, entries[0].1] + Flatten(entries[1..])
  }

  /**
   * Iterating a value: the fields of a struct, the elements of an array, the
   * flattened entries of a dictionary, the single content of a variant;
   * scalars cannot be iterated.
   */
  function AsIter(v: Value): (r: Option<seq<Value>>)
    ensures r.Some? <==> v.Struct? || v.Array? || v.Dict? || v.Variant?
    ensures v.Variant? ==> r == Some([v.inner])
    ensures r.Some? ==> forall x | x in r.value :: x < v
  {
    match v
    case Struct(fs) => Some(fs)
    case Array(es) => Some(es)
    case Dict(entries) =>
      var flat := Flatten(entries);
      assert forall x | x in flat :: x < v by {
        forall x | x in flat ensures x < v {
          var j :| 0 <= j < |flat| && flat[j] == x;
          var i := j / 2;
          assert entries[i] in entries;
          if j % 2 == 0 { assert x == entries[i].0; } else { assert x == entries[i].1; }
        }
      }
      Some(flat)
    case Variant(inner) => Some([inner])
    case _ => None
  }

  /** The value with every variant wrapper removed. */
  function Unwrap(v: Value): (r: Value)
    ensures !r.Variant?
  {
    if v.Variant? then Unwrap(v.inner) else v
  }

  /** A string, seen through any number of variants. */
  function AsStr(v: Value): (r: Option<string>)
    ensures r.Some? <==> Unwrap(v).Str?
    ensures r.Some? ==> r.value == Unwrap(v).s
  {
    match v
    case Str(s) => Some(s)
    case Variant(inner) => AsStr(inner)
    case _ => None
  }

  /** An integer (a boolean reads as 0 or 1), seen through any number of variants. */
  function AsI64(v: Value): (r: Option<int>)
    ensures r.Some? <==> Unwrap(v).Int? || Unwrap(v).Bool?
    ensures Unwrap(v).Int? ==> r == Some(Unwrap(v).n as int)
    ensures Unwrap(v).Bool? ==> r == Some(if Unwrap(v).b then 1 else 0)
  {
    match v
    case Int(n) => Some(n as int)
    case Bool(b) => Some(if b then 1 else 0)
    case Variant(inner) => AsI64(inner)
    case _ => None
  }

  /** `val.as_iter().and_then(|mut it| it.next())`: the first thing inside a value. */
  function FirstInside(v: Value): (r: Option<Value>)
    ensures v.Variant? ==> r == Some(v.inner)
    ensures r.Some? ==> r.value < v
  {
    match AsIter(v)
    case Some(xs) => if |xs| > 0 then Some(xs[0]) else None
    case None => None
  }

  function FirstStr(v: Value): Option<string>
  {
    match FirstInside(v)
    case Some(x) => AsStr(x)
    case None => None
  }

  function FirstI64(v: Value): Option<int>
  {
    match FirstInside(v)
    case Some(x) => AsI64(x)
    case None => None
  }

  // ---------------------------------------------------------------------
  // Labels
  // ---------------------------------------------------------------------

  /** `clean_menu_label`: drop every mnemonic underscore. */
  function CleanMenuLabel(raw: string): (r: string)
    ensures '_' !in r
    ensures r == Filter(raw, '_')
    ensures '_' !in raw ==> r == raw
  {
    DeleteCharRemovesAll(raw, '_');
    DeleteCharKeepsOthers(raw, '_');
    FilterAbsent(raw, '_');
    Replace(raw, "_", "")
  }

  lemma {:induction false} FilterAbsent(s: string, c: char)
    ensures c !in s ==> Filter(s, c) == s
    decreases |s|
  {
    if |s| > 0 && c !in s {
      FilterAbsent(s[1..], c);
      assert c != s[0];
      assert s == [s[0]] + s[1..];
    }
  }

  /** Cleaning twice is cleaning once. */
  lemma CleanMenuLabelIdempotent(raw: string)
    ensures CleanMenuLabel(CleanMenuLabel(raw)) == CleanMenuLabel(raw)
  {
  }

  /** Cleaning keeps the other characters, in order. */
  lemma {:induction false} CleanMenuLabelKeepsOthers(x: string, y: string)
    ensures CleanMenuLabel(x + "_" + y) == CleanMenuLabel(x) + CleanMenuLabel(y)
  {
    FilterAppend(x + "_", y, '_');
    FilterAppend(x, "_", '_');
    assert Filter("_", '_') == [];
  }

  lemma {:induction false} FilterAppend(a: string, b: string, c: char)
    ensures Filter(a + b, c) == Filter(a, c) + Filter(b, c)
    decreases |a|
  {
    if |a| == 0 {
      assert a + b == b;
    } else {
      FilterAppend(a[1..], b, c);
      assert (a + b)[1..] == a[1..] + b;
    }
  }

  // ---------------------------------------------------------------------
  // Property scan
  // ---------------------------------------------------------------------

  /** What the property list of one node says, starting from the defaults. */
  datatype NodeProps = NodeProps(text: string, separator: bool, enabled: bool, visible: bool)

  const DEFAULT_PROPS: NodeProps := NodeProps("", false, true, true)

  /**
   * One `key, value` pair of the scan. Only string keys are looked at; the
   * value is read through its first inner element, and a value of the wrong
   * shape leaves the field as it was.
   */
  function ApplyPair(p: NodeProps, key: Value, val: Value): (r: NodeProps)
    ensures AsStr(key) != Some("label") ==> r.text == p.text
    ensures AsStr(key) != Some("type") ==> r.separator == p.separator
    ensures AsStr(key) != Some("enabled") ==> r.enabled == p.enabled
    ensures AsStr(key) != Some("visible") ==> r.visible == p.visible
    ensures AsStr(key) == Some("label") && FirstStr(val).Some? ==> r.text == CleanMenuLabel(FirstStr(val).value)
    ensures AsStr(key) == Some("type") && FirstStr(val).Some? ==> (r.separator <==> FirstStr(val).value == "separator")
    ensures AsStr(key) == Some("enabled") && FirstI64(val).Some? ==> (r.enabled <==> FirstI64(val).value != 0)
    ensures AsStr(key) == Some("visible") && FirstI64(val).Some? ==> (r.visible <==> FirstI64(val).value != 0)
    ensures FirstStr(val).None? && FirstI64(val).None? ==> r == p
    ensures '_' !in p.text ==> '_' !in r.text
  {
    match AsStr(key)
    case None => p
    case Some(k) =>
      if k == "label" then
        match FirstStr(val)
        case Some(t) => p.(text := CleanMenuLabel(t))
        case None => p
      else if k == "type" then
        match FirstStr(val)
        case Some(t) => p.(separator := t == "separator")
        case None => p
      else if k == "enabled" then
        match FirstI64(val)
        case Some(e) => p.(enabled := e != 0)
        case None => p
      else if k == "visible" then
        match FirstI64(val)
        case Some(e) => p.(visible := e != 0)
        case None => p
      else p
  }

  /** The `while i + 1 < len` loop over the flat property list, from index `i`. */
  function ScanFrom(ps: seq<Value>, i: nat, acc: NodeProps): (r: NodeProps)
    ensures '_' !in acc.text ==> '_' !in r.text
    decreases |ps| - i
  {
    if i + 1 < |ps| then ScanFrom(ps, i + 2, ApplyPair(acc, ps[i], ps[i + 1])) else acc
  }

  /** The properties of a node: its second element, scanned pairwise from the defaults. */
  function ScanProps(propsArg: Value): (r: NodeProps)
    ensures '_' !in r.text
    ensures AsIter(propsArg).None? ==> r == DEFAULT_PROPS
  {
    match AsIter(propsArg)
    case Some(ps) => ScanFrom(ps, 0, DEFAULT_PROPS)
    case None => DEFAULT_PROPS
  }

  /** Appending one more pair to an even-length run applies that pair last. */
  lemma {:induction false} ScanAppendPair(ps: seq<Value>, i: nat, acc: NodeProps, key: Value, val: Value)
    requires i <= |ps| && (|ps| - i) % 2 == 0
    ensures ScanFrom(ps + [key, val], i, acc) == ApplyPair(ScanFrom(ps, i, acc), key, val)
    decreases |ps| - i
  {
    var qs := ps + [key, val];
    if i + 1 < |ps| {
      assert qs[i] == ps[i] && qs[i + 1] == ps[i + 1];
      ScanAppendPair(ps, i + 2, ApplyPair(acc, ps[i], ps[i + 1]), key, val);
    } else {
      assert i == |ps|;
      assert qs[i] == key && qs[i + 1] == val;
      assert ScanFrom(qs, i + 2, ApplyPair(acc, key, val)) == ApplyPair(acc, key, val);
    }
  }

  /** A dangling key without a value is ignored. */
  lemma {:induction false} ScanIgnoresOddTail(ps: seq<Value>, i: nat, acc: NodeProps, key: Value)
    requires i <= |ps| && (|ps| - i) % 2 == 0
    ensures ScanFrom(ps + [key], i, acc) == ScanFrom(ps, i, acc)
    decreases |ps| - i
  {
    var qs := ps + [key];
    if i + 1 < |ps| {
      assert qs[i] == ps[i] && qs[i + 1] == ps[i + 1];
      ScanIgnoresOddTail(ps, i + 2, ApplyPair(acc, ps[i], ps[i + 1]), key);
    }
  }

  // ---------------------------------------------------------------------
  // Layout decoding
  // ---------------------------------------------------------------------

  datatype MenuItem = MenuItem(id: int, text: string, enabled: bool, visible: bool)

  /** What every decoded entry satisfies. */
  predicate Shown(m: MenuItem)
  {
    IsI32(m.id) && m.text != "" && '_' !in m.text
  }

  /** A node's own entry, if it has one: not a separator and a non-empty label. */
  function OwnEntry(id: Value, propsArg: Value): (r: seq<MenuItem>)
    ensures |r| <= 1
    ensures forall i | 0 <= i < |r| :: Shown(r[i])
    ensures |r| == 1 <==> !ScanProps(propsArg).separator && ScanProps(propsArg).text != ""
  {
    var p := ScanProps(propsArg);
    if !p.separator && p.text != "" then
      [MenuItem(WrapI32(AsI64(id).GetOr(0)), p.text, p.enabled, p.visible)]
    else []
  }

  /**
   * `parse_menu_item`: a node is an iterable of at least three elements
   * `(id, properties, children)`; anything else yields nothing. The node's
   * own entry (if any) comes first, then its children's entries in order.
   */
  function ParseMenuItem(arg: Value): (r: seq<MenuItem>)
    ensures forall i | 0 <= i < |r| :: Shown(r[i])
    ensures AsIter(arg).None? || |AsIter(arg).value| < 3 ==> r == []
    decreases arg, 1
  {
    match AsIter(arg)
    case None => []
    case Some(elements) =>
      if |elements| < 3 then []
      else
        var children := match AsIter(elements[2])
          case Some(cs) => ParseChildren(cs, arg)
          case None => [];
        OwnEntry(elements[0], elements[1]) + children
  }

  /** One child of the children loop: a variant is opened once, anything else is decoded directly. */
  function ChildEntries(c: Value): (r: seq<MenuItem>)
    ensures forall i | 0 <= i < |r| :: Shown(r[i])
    ensures c.Variant? ==> r == ParseMenuItem(c.inner)
    ensures !c.Variant? ==> r == ParseMenuItem(c)
    decreases c, 2
  {
    if c.Variant? then
      match FirstInside(c)
      case Some(inner) => ParseMenuItem(inner)
      case None => []
    else ParseMenuItem(c)
  }

  /** The children loop: each child's entries, in order. */
  function ParseChildren(cs: seq<Value>, ghost bound: Value): (r: seq<MenuItem>)
    requires forall c | c in cs :: c < bound
    ensures forall i | 0 <= i < |r| :: Shown(r[i])
    decreases bound, 0, |cs|
  {
    if |cs| == 0 then []
    else
      assert cs[0] in cs;
      assert forall c | c in cs[1..] :: c in cs;
      ChildEntries(cs[0]) + ParseChildren(cs[1..], bound)
  }

  /** `parse_menu_reply`: the layout is the reply's second argument (after the revision). */
  function ParseMenuReply(args: seq<Value>): (r: seq<MenuItem>)
    ensures |args| < 2 ==> r == []
    ensures forall i | 0 <= i < |r| :: Shown(r[i])
  {
    if |args| >= 2 then ParseMenuItem(args[1]) else []
  }

  /** Children lists decode piecewise: the output of a concatenation is the concatenation. */
  lemma {:induction false} ParseChildrenAppend(a: seq<Value>, b: seq<Value>, bound: Value)
    requires forall c | c in a :: c < bound
    requires forall c | c in b :: c < bound
    ensures ParseChildren(a + b, bound) == ParseChildren(a, bound) + ParseChildren(b, bound)
    decreases |a|
  {
    if |a| == 0 {
      assert a + b == b;
    } else {
      assert (a + b)[1..] == a[1..] + b;
      assert (a + b)[0] == a[0];
      assert forall c | c in a[1..] :: c in a;
      ParseChildrenAppend(a[1..], b, bound);
    }
  }

  /** Wrapping a (non-variant) child in a variant does not change what it contributes. */
  lemma VariantChildTransparent(before: seq<Value>, c: Value, after: seq<Value>, bound: Value)
    requires !c.Variant?
    requires Variant(c) < bound
    requires forall x | x in before :: x < bound
    requires forall x | x in after :: x < bound
    ensures ParseChildren(before + [Variant(c)] + after, bound)
         == ParseChildren(before + [c] + after, bound)
  {
    assert c < Variant(c);
    var wrapped, plain := [Variant(c)] + after, [c] + after;
    assert wrapped[1..] == after && plain[1..] == after;
    assert ParseChildren(wrapped, bound) == ChildEntries(Variant(c)) + ParseChildren(after, bound);
    assert ParseChildren(plain, bound) == ChildEntries(c) + ParseChildren(after, bound);
    ParseChildrenAppend(before, wrapped, bound);
    ParseChildrenAppend(before, plain, bound);
    assert before + [Variant(c)] + after == before + wrapped;
    assert before + [c] + after == before + plain;
  }

  /**
   * A separator node shows nothing itself but still contributes its
   * children, and so does a node without a label.
   */
  lemma HiddenNodeKeepsChildren(id: Value, props: Value, kids: seq<Value>)
    requires ScanProps(props).separator || ScanProps(props).text == ""
    ensures var node := Struct([id, props, Array(kids)]);
      (forall c | c in kids :: c < node) && ParseMenuItem(node) == ParseChildren(kids, node)
  {
    var node := Struct([id, props, Array(kids)]);
    assert AsIter(node) == Some([id, props, Array(kids)]);
    assert AsIter(Array(kids)) == Some(kids);
    assert Array(kids) in node.fields;
    forall c | c in kids ensures c < node { assert c < Array(kids); }
    assert OwnEntry(id, props) == [];
  }

  /** A shown node's entry comes first (pre-order), with its id cut to 32 bits. */
  lemma ShownNodeComesFirst(id: Value, props: Value, kids: seq<Value>)
    requires !ScanProps(props).separator && ScanProps(props).text != ""
    ensures var node := Struct([id, props, Array(kids)]);
      var p := ScanProps(props);
      var r := ParseMenuItem(node);
      && |r| >= 1
      && r[0] == MenuItem(WrapI32(AsI64(id).GetOr(0)), p.text, p.enabled, p.visible)
      && (forall c | c in kids :: c < node)
      && r[1..] == ParseChildren(kids, node)
  {
    var node := Struct([id, props, Array(kids)]);
    assert AsIter(node) == Some([id, props, Array(kids)]);
  }

  /** Properties of a plain `Quit` entry, as an application sends them. */
  const QUIT_PROPS: Value := Dict([
    (Str("label"), Variant(Str("Quit"))),
    (Str("type"), Variant(Str("standard"))),
    (Str("enabled"), Variant(Bool(true))),
    (Str("visible"), Variant(Bool(true)))])

  lemma QuitPropsScan()
    ensures ScanProps(QUIT_PROPS) == NodeProps("Quit", false, true, true)
  {
    var quit, standard, yes := Variant(Str("Quit")), Variant(Str("standard")), Variant(Bool(true));
    var ps := [Str("label"), quit, Str("type"), standard, Str("enabled"), yes, Str("visible"), yes];
    QuitPropsFlatten();
    var want := NodeProps("Quit", false, true, true);
    assert ApplyPair(DEFAULT_PROPS, ps[0], ps[1]) == want by {
      assert FirstStr(quit) == Some("Quit");
      assert '_' !in "Quit";
    }
    assert ApplyPair(want, ps[2], ps[3]) == want by {
      assert FirstStr(standard) == Some("standard");
    }
    assert ApplyPair(want, ps[4], ps[5]) == want by {
      assert FirstI64(yes) == Some(1);
    }
    assert ApplyPair(want, ps[6], ps[7]) == want;
    assert ScanFrom(ps, 8, want) == want;
    assert ScanFrom(ps, 6, want) == want;
    assert ScanFrom(ps, 4, want) == want;
    assert ScanFrom(ps, 2, want) == want;
  }

  /** The `Quit` properties iterate as four key, value pairs. */
  lemma QuitPropsFlatten()
    ensures AsIter(QUIT_PROPS) == Some([Str("label"), Variant(Str("Quit")), Str("type"), Variant(Str("standard")),
      Str("enabled"), Variant(Bool(true)), Str("visible"), Variant(Bool(true))])
  {
    var ps := Flatten(QUIT_PROPS.entries);
    assert |ps| == 8;
    assert ps[0] == Str("label") && ps[1] == Variant(Str("Quit"));
    assert ps[2] == Str("type") && ps[3] == Variant(Str("standard"));
    assert ps[4] == Str("enabled") && ps[5] == Variant(Bool(true));
    assert ps[6] == Str("visible") && ps[7] == Variant(Bool(true));
    assert ps == [Str("label"), Variant(Str("Quit")), Str("type"), Variant(Str("standard")),
      Str("enabled"), Variant(Bool(true)), Str("visible"), Variant(Bool(true))];
  }

  const QUIT_NODE: Value := Struct([Int(1), QUIT_PROPS, Array([])])

  lemma QuitNodeParse()
    ensures ParseMenuItem(QUIT_NODE) == [MenuItem(1, "Quit", true, true)]
  {
    QuitPropsScan();
    ShownNodeComesFirst(Int(1), QUIT_PROPS, []);
    assert ParseChildren([], QUIT_NODE) == [];
  }

  /** The variant-wrapped `Quit` node as the only child decodes to the `Quit` entry. */
  lemma QuitChildParse(bound: Value)
    requires Variant(QUIT_NODE) < bound
    ensures ParseChildren([Variant(QUIT_NODE)], bound) == [MenuItem(1, "Quit", true, true)]
  {
    var kids := [Variant(QUIT_NODE)];
    QuitNodeParse();
    assert FirstInside(kids[0]) == Some(QUIT_NODE);
    assert kids[1..] == [];
  }

  /** The single-entry layout `(0, {}, [<(1, {label: Quit, ...}, [])>])`. */
  lemma QuitExample()
    ensures var root := Struct([Int(0), Dict([]), Array([Variant(QUIT_NODE)])]);
      ParseMenuReply([Int(7), root]) == [MenuItem(1, "Quit", true, true)]
  {
    var kids := [Variant(QUIT_NODE)];
    var root := Struct([Int(0), Dict([]), Array(kids)]);
    assert Array(kids) in root.fields;
    assert kids[0] in kids && kids[0] < Array(kids);
    QuitChildParse(root);
    assert OwnEntry(Int(0), Dict([])) == [] by {
      assert AsIter(Dict([])) == Some([]);
    }
    assert AsIter(root) == Some([Int(0), Dict([]), Array(kids)]);
    assert AsIter(Array(kids)) == Some(kids);
  }

  // ---------------------------------------------------------------------
  // What the popup does with the entries
  // ---------------------------------------------------------------------

  /** `show_dynamic_menu` lists only the visible entries, in order. */
  function VisibleItems(items: seq<MenuItem>): (r: seq<MenuItem>)
    ensures |r| <= |items|
    ensures forall i | 0 <= i < |r| :: r[i].visible && r[i] in items
    ensures forall m | m in items && m.visible :: m in r
  {
    if |items| == 0 then []
    else (if items[0].visible then [items[0]] else []) + VisibleItems(items[1..])
  }

  /** Filtering twice is filtering once. */
  lemma {:induction false} VisibleItemsIdempotent(items: seq<MenuItem>)
    ensures VisibleItems(VisibleItems(items)) == VisibleItems(items)
    decreases |items|
  {
    if |items| > 0 {
      VisibleItemsIdempotent(items[1..]);
      var rest := VisibleItems(items[1..]);
      if items[0].visible {
        assert ([items[0]] + rest)[1..] == rest;
      } else {
        assert [] + rest == rest;
      }
    }
  }

  /**
   * Filtering a list made of two parts filters each part and keeps them in
   * that order; with the single-entry case, this fixes the order of the result.
   */
  lemma {:induction false} VisibleItemsAppend(a: seq<MenuItem>, b: seq<MenuItem>)
    ensures VisibleItems(a + b) == VisibleItems(a) + VisibleItems(b)
    decreases |a|
  {
    if |a| == 0 {
      ConcatEmpty(a, b);
    } else {
      SplitFirst(a, b);
      VisibleItemsAppend(a[1..], b);
      var head := if a[0].visible then [a[0]] else [];
      ConcatAssoc(head, VisibleItems(a[1..]), VisibleItems(b));
    }
  }

  /** Which popup a right-click ends in. */
  datatype Popup = FallbackMenu | DynamicMenu(entries: seq<MenuItem>)

  /**
   * With no decoded entries at all the generic Open/Secondary menu is shown;
   * otherwise the dynamic menu of the visible entries (which may be empty).
   */
  function ChoosePopup(items: seq<MenuItem>): (r: Popup)
    ensures r.FallbackMenu? <==> |items| == 0
    ensures r.DynamicMenu? ==> r.entries == VisibleItems(items)
  {
    if |items| == 0 then FallbackMenu else DynamicMenu(VisibleItems(items))
  }

  /** Action name `item-<id>` a dynamic entry is bound to. */
  function ActionName(id: int): (r: string)
    ensures StartsWith(r, "item-")
    ensures ParseInt(r[5..]) == Some(id)
  {
    IntToStringRoundTrip(id);
    var r := "item-" + IntToString(id);
    assert r[5..] == IntToString(id);
    r
  }

  /** The arguments of `Event(i, s, v, u)` a click on entry `id` sends. */
  datatype EventCall = EventCall(id: int, eventId: string, data: Value, timestamp: int)

  function ClickEvent(id: int): (r: EventCall)
    requires IsI32(id)
    ensures r.id == id && r.eventId == "clicked"
    ensures r.data == Variant(Int(0)) && r.timestamp == 0
  {
    EventCall(id, "clicked", Variant(Int(0)), 0)
  }

  /** The arguments of the `GetLayout(i, i, as)` request: whole tree from the root, all properties. */
  datatype LayoutRequest = LayoutRequest(parentId: int, recursionDepth: int, propertyNames: seq<string>)

  const GET_LAYOUT: LayoutRequest := LayoutRequest(0, -1, [])
}
