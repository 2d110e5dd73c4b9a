/**
 * Host side of the tray (modules/tray/widget.rs): decoding the watcher's
 * service strings, building a display-ready `TrayItem` from whatever
 * properties the remote item answers, and the host's cache of known items
 * that turns watcher signals into updates for the render loop.
 *
 * D-Bus property reads are not performed here: each read is an input that
 * says what the item answered on each of the two interface names.
 */
module TrayHost {
  import opened Base
  import opened Sni

  datatype TrayItem = TrayItem(
    busName: string,
    objectPath: string,
    title: string,
    iconName: string,
    menuPath: string)

  /** Messages from the bus thread to the render loop. */
  datatype TrayUpdate =
    | Add(item: TrayItem)
    | Remove(busName: string)
    | UpdateIcon(busName: string)
    | UpdateStatus(busName: string)

  /**
   * `parse_service_string`: split at the first `/`, which stays with the
   * path; without any `/` the whole string is the bus name and the path is
   * the default item path.
   */
  function ParseServiceString(s: string): (r: (string, string))
    ensures '/' !in s ==> r == (s, DEFAULT_ITEM_PATH)
    ensures '/' in s ==> r.0 + r.1 == s && '/' !in r.0 && |r.1| > 0 && r.1[0] == '/'
  {
    match IndexOf(s, "/")
    case Some(pos) =>
      OccursAtChar(s, '/', pos);
      assert '/' !in s[..pos] by {
        forall i | 0 <= i < pos ensures s[i] != '/' { OccursAtChar(s, '/', i); }
      }
      (s[..pos], s[pos..])
    case None =>
      assert '/' !in s by {
        forall i | 0 <= i < |s| ensures s[i] != '/' { OccursAtChar(s, '/', i); }
      }
      (s, DEFAULT_ITEM_PATH)
  }

  /**
   * The watcher's payload `bus ++ path` decodes back to `(bus, path)` as long
   * as the bus name has no `/` and the path is absolute.
   */
  lemma ParseServiceStringInvertsPayload(bus: string, path: string)
    requires '/' !in bus
    requires |path| > 0 && path[0] == '/'
    ensures ParseServiceString(bus + path) == (bus, path)
  {
    var s := bus + path;
    OccursAtChar(s, '/', |bus|);
    forall j | 0 <= j < |bus| ensures !OccursAt(s, "/", j) {
      OccursAtChar(s, '/', j);
      assert s[j] == bus[j];
    }
    var idx := IndexOf(s, "/");
    assert idx.Some?;
    assert idx.value == |bus|;
    assert s[..|bus|] == bus && s[|bus|..] == path;
  }

  /** What one interface answered to a property read. */
  datatype PropReply = StringValue(s: string) | ObjectPathValue(p: string) | NoReply

  /** A reply usable for property `prop`: a string, or an object path for `Menu`. */
  predicate Usable(reply: PropReply, prop: string)
  {
    reply.StringValue? || (prop == "Menu" && reply.ObjectPathValue?)
  }

  function ReplyText(reply: PropReply): string
    requires !reply.NoReply?
  {
    if reply.StringValue? then reply.s else reply.p
  }

  /**
   * `get_sni_property`: ask the KDE interface, then the Ayatana one; the
   * first usable answer wins, and with none the property is absent.
   */
  function GetSniProperty(kde: PropReply, ayatana: PropReply, prop: string): (r: Option<string>)
    ensures r.Some? <==> Usable(kde, prop) || Usable(ayatana, prop)
    ensures Usable(kde, prop) ==> r == Some(ReplyText(kde))
    ensures !Usable(kde, prop) && Usable(ayatana, prop) ==> r == Some(ReplyText(ayatana))
  {
    if kde.StringValue? then Some(kde.s)
    else if prop == "Menu" && kde.ObjectPathValue? then Some(kde.p)
    else if ayatana.StringValue? then Some(ayatana.s)
    else if prop == "Menu" && ayatana.ObjectPathValue? then Some(ayatana.p)
    else None
  }

  /** The remote side, as an oracle: (bus, path, property) to the two interfaces' answers. */
  type PropertySource = (string, string, string) -> (PropReply, PropReply)

  function FetchProperty(fetch: PropertySource, bus: string, path: string, prop: string): Option<string>
  {
    var replies := fetch(bus, path, prop);
    GetSniProperty(replies.0, replies.1, prop)
  }

  /** Icon keywords checked in order; the first rule whose keyword occurs wins. */
  const ICON_RULES: seq<(seq<string>, string)> := [
    (["discord"], "discord"),
    (["spotify"], "spotify"),
    (["telegram"], "telegram"),
    (["steam"], "steam"),
    (["network"], "network-wireless"),
    (["bluetooth"], "bluetooth"),
    (["audio", "volume"], "audio-volume-high"),
    (["tuxedo"], "computer")
  ]

  /** Some keyword of `keys` occurs in `s`. */
  predicate AnyOccurs(s: string, keys: seq<string>)
  {
    |keys| > 0 && (Contains(s, keys[0]) || AnyOccurs(s, keys[1..]))
  }

  /** Reference reading of the rule table: the first matching rule's icon, else `fallback`. */
  function FirstRule(rules: seq<(seq<string>, string)>, s: string, fallback: string): (r: string)
    ensures r == fallback || exists i | 0 <= i < |rules| :: r == rules[i].1
  {
    if |rules| == 0 then fallback
    else if AnyOccurs(s, rules[0].0) then rules[0].1
    else FirstRule(rules[1..], s, fallback)
  }

  lemma AnyOccursSingle(s: string, k: string)
    ensures AnyOccurs(s, [k]) <==> Contains(s, k)
  {
    assert [k][1..] == [];
  }

  const ICON_NAMES: set<string> :=
    {"discord", "spotify", "telegram", "steam", "network-wireless", "bluetooth", "audio-volume-high", "computer"}

  /**
   * `guess_icon_from_name`: look for well-known application keywords in the
   * lower-cased name; with no match, the lower-cased name itself.
   */
  function GuessIconFromName(name: string): (r: string)
    ensures r in ICON_NAMES || r == LowerAscii(name)
    ensures Contains(LowerAscii(name), "discord") ==> r == "discord"
  {
    var lower := LowerAscii(name);
    if Contains(lower, "discord") then "discord"
    else if Contains(lower, "spotify") then "spotify"
    else if Contains(lower, "telegram") then "telegram"
    else if Contains(lower, "steam") then "steam"
    else if Contains(lower, "network") then "network-wireless"
    else if Contains(lower, "bluetooth") then "bluetooth"
    else if Contains(lower, "audio") || Contains(lower, "volume") then "audio-volume-high"
    else if Contains(lower, "tuxedo") then "computer"
    else lower
  }

  /** The if-chain agrees with the ordered rule table. */
  lemma GuessIconFollowsRuleTable(name: string)
    ensures GuessIconFromName(name) == FirstRule(ICON_RULES, LowerAscii(name), LowerAscii(name))
  {
    var l := LowerAscii(name);
    var rs := ICON_RULES;
    var tail := rs[4..];
    FirstFourRules(l, rs);
    LastFourRules(l, tail);
  }

  /** The first four rules of the table: one keyword each. */
  lemma FirstFourRules(l: string, rules: seq<(seq<string>, string)>)
    requires rules == ICON_RULES
    ensures FirstRule(rules, l, l) ==
      if Contains(l, "discord") then "discord"
      else if Contains(l, "spotify") then "spotify"
      else if Contains(l, "telegram") then "telegram"
      else if Contains(l, "steam") then "steam"
      else FirstRule(rules[4..], l, l)
  {
    var rs := rules;
    AnyOccursSingle(l, "discord");
    assert rs[0].0 == ["discord"];
    assert FirstRule(rs, l, l) == if Contains(l, "discord") then "discord" else FirstRule(rs[1..], l, l);
    rs := rs[1..];
    AnyOccursSingle(l, "spotify");
    assert rs[0].0 == ["spotify"];
    assert FirstRule(rs, l, l) == if Contains(l, "spotify") then "spotify" else FirstRule(rs[1..], l, l);
    rs := rs[1..];
    AnyOccursSingle(l, "telegram");
    assert rs[0].0 == ["telegram"];
    assert FirstRule(rs, l, l) == if Contains(l, "telegram") then "telegram" else FirstRule(rs[1..], l, l);
    rs := rs[1..];
    AnyOccursSingle(l, "steam");
    assert rs[0].0 == ["steam"];
    assert FirstRule(rs, l, l) == if Contains(l, "steam") then "steam" else FirstRule(rs[1..], l, l);
    assert rs[1..] == rules[4..];
  }

  /** The last four rules of the table; `audio` and `volume` share one. */
  lemma LastFourRules(l: string, rules: seq<(seq<string>, string)>)
    requires rules == ICON_RULES[4..]
    ensures FirstRule(rules, l, l) ==
      if Contains(l, "network") then "network-wireless"
      else if Contains(l, "bluetooth") then "bluetooth"
      else if Contains(l, "audio") || Contains(l, "volume") then "audio-volume-high"
      else if Contains(l, "tuxedo") then "computer"
      else l
  {
    var rs := rules;
    AnyOccursSingle(l, "network");
    assert rs[0].0 == ["network"];
    assert FirstRule(rs, l, l) == if Contains(l, "network") then "network-wireless" else FirstRule(rs[1..], l, l);
    rs := rs[1..];
    AnyOccursSingle(l, "bluetooth");
    assert rs[0].0 == ["bluetooth"];
    assert FirstRule(rs, l, l) == if Contains(l, "bluetooth") then "bluetooth" else FirstRule(rs[1..], l, l);
    rs := rs[1..];
    assert AnyOccurs(l, rs[0].0) <==> Contains(l, "audio") || Contains(l, "volume") by {
      assert rs[0].0 == ["audio", "volume"];
      assert rs[0].0[1..] == ["volume"];
      AnyOccursSingle(l, "volume");
    }
    assert FirstRule(rs, l, l) == if Contains(l, "audio") || Contains(l, "volume") then "audio-volume-high" else FirstRule(rs[1..], l, l);
    rs := rs[1..];
    AnyOccursSingle(l, "tuxedo");
    assert rs[0].0 == ["tuxedo"];
    assert FirstRule(rs, l, l) == if Contains(l, "tuxedo") then "computer" else FirstRule(rs[1..], l, l);
    assert rs[1..] == [];
  }

  const DEFAULT_MENU_PATH: string := "/MenuBar"

  /**
   * `create_tray_item`: decode the service string, then read `Title`,
   * `IconName` and `Menu`; an absent title falls back to the bus name, an
   * absent icon to a guess from the bus name, an absent menu to `/MenuBar`.
   * An empty string that was actually answered is kept as is.
   */
  function CreateTrayItem(service: string, fetch: PropertySource): (item: TrayItem)
    ensures (item.busName, item.objectPath) == ParseServiceString(service)
    ensures var title := FetchProperty(fetch, item.busName, item.objectPath, "Title");
      (title.None? ==> item.title == item.busName) && (title.Some? ==> item.title == title.value)
    ensures var icon := FetchProperty(fetch, item.busName, item.objectPath, "IconName");
      (icon.None? ==> item.iconName == GuessIconFromName(item.busName))
      && (icon.Some? ==> item.iconName == icon.value)
    ensures var menu := FetchProperty(fetch, item.busName, item.objectPath, "Menu");
      (menu.None? ==> item.menuPath == DEFAULT_MENU_PATH) && (menu.Some? ==> item.menuPath == menu.value)
  {
    var (bus, path) := ParseServiceString(service);
    var title := FetchProperty(fetch, bus, path, "Title").GetOr(bus);
    var icon := match FetchProperty(fetch, bus, path, "IconName")
      case Some(i) => i
      case None => GuessIconFromName(bus);
    var menu := FetchProperty(fetch, bus, path, "Menu").GetOr(DEFAULT_MENU_PATH);
    TrayItem(bus, path, title, icon, menu)
  }

  /**
   * Icon shown after a `NewIcon`-style signal (`refresh_icon`): unlike item
   * creation, an empty answer is also replaced by the guess.
   */
  function RefreshedIconName(bus: string, fetched: Option<string>): (r: string)
    ensures fetched.Some? && fetched.value != "" ==> r == fetched.value
    ensures fetched.None? || fetched.value == "" ==> r == GuessIconFromName(bus)
    ensures r != "" || LowerAscii(bus) == ""
  {
    if fetched.Some? && fetched.value != "" then fetched.value else GuessIconFromName(bus)
  }

  // ---------------------------------------------------------------------
  // The host's item cache
  // ---------------------------------------------------------------------

  /** Items known to the host, filed under their bus names. */
  type Cache = map<string, TrayItem>

  predicate CacheValid(cache: Cache)
  {
    forall b | b in cache :: cache[b].busName == b
  }

  datatype HostStep = HostStep(cache: Cache, updates: seq<TrayUpdate>)

  /**
   * `StatusNotifierItemRegistered(service)` (and each entry of the initial
   * enumeration): build the item, file it (replacing an older entry) and
   * announce it.
   */
  function OnItemRegistered(cache: Cache, service: string, fetch: PropertySource): (r: HostStep)
    ensures CacheValid(cache) ==> CacheValid(r.cache)
    ensures var item := CreateTrayItem(service, fetch);
      r.cache == cache[item.busName := item] && r.updates == [Add(item)]
  {
    var item := CreateTrayItem(service, fetch);
    HostStep(cache[item.busName := item], [Add(item)])
  }

  /**
   * `StatusNotifierItemUnregistered(service)`: recover the bus name from the
   * payload; only an item the host knows is removed and announced.
   */
  function OnItemUnregistered(cache: Cache, service: string): (r: HostStep)
    ensures CacheValid(cache) ==> CacheValid(r.cache)
    ensures var bus := ParseServiceString(service).0;
      && r.cache == cache - {bus}
      && (bus in cache ==> r.updates == [Remove(bus)])
      && (bus !in cache ==> r.updates == [])
  {
    var bus := ParseServiceString(service).0;
    if bus in cache then HostStep(cache - {bus}, [Remove(bus)]) else HostStep(cache, [])
  }

  /** The bus names the host derives from some services. */
  function ServiceKeys(services: seq<string>): (keys: set<string>)
  {
    set i | 0 <= i < |services| :: ParseServiceString(services[i]).0
  }

  /** Service `i` is the last in the list with its bus name. */
  predicate LastForKey(services: seq<string>, i: int) {
    && 0 <= i < |services|
    && forall j | i < j < |services| :: ParseServiceString(services[j]).0 != ParseServiceString(services[i]).0
  }

  /**
   * Initial enumeration of `RegisteredStatusNotifierItems`, in list order:
   * one `Add` per service, every service's bus name cached (the last service
   * with a name wins), and every other cached item left as it was.
   */
  function OnInitialItems(cache: Cache, services: seq<string>, fetch: PropertySource): (r: HostStep)
    ensures CacheValid(cache) ==> CacheValid(r.cache)
    ensures |r.updates| == |services|
    ensures forall i | 0 <= i < |services| ::
      r.updates[i] == Add(CreateTrayItem(services[i], fetch))
    decreases |services|
  {
    if |services| == 0 then HostStep(cache, [])
    else
      var first := OnItemRegistered(cache, services[0], fetch);
      var rest := OnInitialItems(first.cache, services[1..], fetch);
      HostStep(rest.cache, first.updates + rest.updates)
  }

  /** After the enumeration the host knows every service's bus name besides what it knew before, and nothing else. */
  lemma {:induction false} InitialItemsKeys(cache: Cache, services: seq<string>, fetch: PropertySource)
    ensures OnInitialItems(cache, services, fetch).cache.Keys == cache.Keys + ServiceKeys(services)
    decreases |services|
  {
    if |services| > 0 {
      var first := OnItemRegistered(cache, services[0], fetch);
      InitialItemsKeys(first.cache, services[1..], fetch);
      ServiceKeysCons(services);
    }
  }

  /** A bus name no enumerated service carries keeps its cached item. */
  lemma {:induction false} InitialItemsKeepOthers(cache: Cache, services: seq<string>, fetch: PropertySource, b: string)
    requires b in cache && b !in ServiceKeys(services)
    ensures var r := OnInitialItems(cache, services, fetch); b in r.cache && r.cache[b] == cache[b]
    decreases |services|
  {
    if |services| > 0 {
      var first := OnItemRegistered(cache, services[0], fetch);
      ServiceKeysCons(services);
      assert b != ParseServiceString(services[0]).0;
      InitialItemsKeepOthers(first.cache, services[1..], fetch, b);
    }
  }

  /** The item cached under a bus name is the one made from the last service carrying that name. */
  lemma {:induction false} InitialItemsLastWins(cache: Cache, services: seq<string>, fetch: PropertySource, i: int)
    requires LastForKey(services, i)
    ensures var r := OnInitialItems(cache, services, fetch);
      var key := ParseServiceString(services[i]).0;
      key in r.cache && r.cache[key] == CreateTrayItem(services[i], fetch)
    decreases |services|
  {
    var first := OnItemRegistered(cache, services[0], fetch);
    var tail := services[1..];
    if i > 0 {
      assert tail[i - 1] == services[i];
      assert LastForKey(tail, i - 1) by {
        forall j | i - 1 < j < |tail| ensures ParseServiceString(tail[j]).0 != ParseServiceString(tail[i - 1]).0 {
          assert tail[j] == services[j + 1];
        }
      }
      InitialItemsLastWins(first.cache, tail, fetch, i - 1);
    } else {
      var key := ParseServiceString(services[0]).0;
      assert key !in ServiceKeys(tail) by {
        forall j | 0 <= j < |tail| ensures ParseServiceString(tail[j]).0 != key {
          assert tail[j] == services[j + 1];
        }
      }
      InitialItemsKeepOthers(first.cache, tail, fetch, key);
    }
  }

  /** The bus names of a non-empty list: the first one's and the rest's. */
  lemma ServiceKeysCons(services: seq<string>)
    requires |services| > 0
    ensures ServiceKeys(services) == {ParseServiceString(services[0]).0} + ServiceKeys(services[1..])
  {
    var tail := services[1..];
    forall k | k in ServiceKeys(services) ensures k in {ParseServiceString(services[0]).0} + ServiceKeys(tail) {
      var i :| 0 <= i < |services| && ParseServiceString(services[i]).0 == k;
      if i > 0 { assert tail[i - 1] == services[i]; }
    }
    forall k | k in ServiceKeys(tail) ensures k in ServiceKeys(services) {
      var i :| 0 <= i < |tail| && ParseServiceString(tail[i]).0 == k;
      assert services[i + 1] == tail[i];
    }
  }

  const ITEM_IFACES: seq<string> := ["org.kde.StatusNotifierItem", "org.ayatana.StatusNotifierItem"]
  const ICON_SIGNALS: seq<string> := ["NewIcon", "NewOverlayIcon", "NewAttentionIcon", "NewTitle"]

  /**
   * A per-item change signal: the four icon/title signals flag the icon,
   * `NewStatus` flags the status, on either interface, keyed by the signal's
   * sender; a message without a sender is dropped.
   */
  function OnItemSignal(iface: string, member: string, sender: Option<string>): (r: Option<TrayUpdate>)
    ensures r.Some? <==> sender.Some? && iface in ITEM_IFACES && (member in ICON_SIGNALS || member == "NewStatus")
    ensures r.Some? && member in ICON_SIGNALS ==> r.value == UpdateIcon(sender.value)
    ensures r.Some? && member == "NewStatus" ==> r.value == UpdateStatus(sender.value)
  {
    if sender.None? || iface !in ITEM_IFACES then None
    else if member in ICON_SIGNALS then Some(UpdateIcon(sender.value))
    else if member == "NewStatus" then Some(UpdateStatus(sender.value))
    else None
  }

  /** `lookup_path`: the object path used to refresh an item, if the host knows it. */
  function LookupPath(cache: Cache, bus: string): (r: Option<string>)
    ensures r.Some? <==> bus in cache
    ensures r.Some? ==> r.value == cache[bus].objectPath
  {
    if bus in cache then Some(cache[bus].objectPath) else None
  }
}
