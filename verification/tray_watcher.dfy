/**
 * The map-based StatusNotifierWatcher broker (modules/tray_watcher.rs).
 *
 * The watcher keeps two registries keyed by bus name, one for items and
 * one for hosts. Every mutating D-Bus entry point is a pure transition that
 * returns the new registries together with the signals it emits, in
 * emission order. The mutex around each registry is held only for one
 * insert, remove or read, so each transition is atomic here.
 */
module TrayWatcher {
  import opened Base
  import opened Sni

  /** Who registered: the owning bus name and the object path it published. */
  datatype WatchInfo = WatchInfo(busName: string, objectPath: string)

  datatype Watcher = Watcher(items: map<string, WatchInfo>, hosts: map<string, WatchInfo>)

  /** A transition's result: the registries afterwards and the signals sent. */
  datatype Outcome = Outcome(watcher: Watcher, signals: seq<Signal>)

  /** Wire form of an entry: bus name and object path run together, no separator. */
  function Payload(info: WatchInfo): string
  {
    info.busName + info.objectPath
  }

  /** Each entry is filed under its own bus name and has an absolute object path. */
  predicate WellFormed(m: map<string, WatchInfo>)
  {
    forall k | k in m :: m[k].busName == k && StartsWith(m[k].objectPath, "/")
  }

  predicate Valid(w: Watcher)
  {
    WellFormed(w.items) && WellFormed(w.hosts)
  }

  /** State right after start-up: both registries empty. */
  function Start(): (w: Watcher)
    ensures Valid(w)
    ensures |w.items| == 0 && |w.hosts| == 0
  {
    Watcher(map[], map[])
  }

  /**
   * The registration rule: a `service` that starts with `/` is an object path
   * published by the caller, so the caller's own bus name owns it; anything
   * else is taken as a bus name published at `defaultPath`.
   */
  function Resolve(sender: string, service: string, defaultPath: string): (info: WatchInfo)
    ensures StartsWith(service, "/") ==> info.busName == sender && info.objectPath == service
    ensures !StartsWith(service, "/") ==> info.busName == service && info.objectPath == defaultPath
    ensures StartsWith(defaultPath, "/") ==> StartsWith(info.objectPath, "/")
  {
    if StartsWith(service, "/") then WatchInfo(sender, service) else WatchInfo(service, defaultPath)
  }

  /** `RegisterStatusNotifierItem(service)` called by `sender`. */
  function RegisterItem(w: Watcher, sender: string, service: string): (r: Outcome)
    ensures Valid(w) ==> Valid(r.watcher)
    ensures r.watcher.hosts == w.hosts
    ensures var info := Resolve(sender, service, DEFAULT_ITEM_PATH);
      && (info.busName in w.items ==> r.watcher == w && r.signals == [])
      && (info.busName !in w.items ==>
            && r.watcher.items == w.items[info.busName := info]
            && |r.watcher.items| == |w.items| + 1
            && r.signals == [ItemRegistered(info.busName + info.objectPath)])
  {
    var info := Resolve(sender, service, DEFAULT_ITEM_PATH);
    if info.busName in w.items then Outcome(w, [])
    else Outcome(w.(items := w.items[info.busName := info]), [ItemRegistered(Payload(info))])
  }

  /** `RegisterStatusNotifierHost(service)` called by `sender`. */
  function RegisterHost(w: Watcher, sender: string, service: string): (r: Outcome)
    ensures Valid(w) ==> Valid(r.watcher)
    ensures r.watcher.items == w.items
    ensures var info := Resolve(sender, service, DEFAULT_HOST_PATH);
      && (info.busName in w.hosts ==> r.watcher == w && r.signals == [])
      && (info.busName !in w.hosts ==> r.watcher.hosts == w.hosts[info.busName := info])
    ensures r.signals == [] || r.signals == [HostRegistered]
    ensures HostRegistered in r.signals <==> |w.hosts| == 0
    ensures |r.watcher.hosts| > 0
  {
    var info := Resolve(sender, service, DEFAULT_HOST_PATH);
    if info.busName in w.hosts then Outcome(w, [])
    else
      var wasEmpty := |w.hosts| == 0;
      Outcome(w.(hosts := w.hosts[info.busName := info]), if wasEmpty then [HostRegistered] else [])
  }

  /**
   * The name owner of `name` went away: drop it from both registries. Only
   * a removed item is announced, with the payload it was registered under;
   * hosts disappear silently.
   */
  function NameVanished(w: Watcher, name: string): (r: Outcome)
    ensures Valid(w) ==> Valid(r.watcher)
    ensures r.watcher.items == w.items - {name}
    ensures r.watcher.hosts == w.hosts - {name}
    ensures name in w.items ==> r.signals == [ItemUnregistered(Payload(w.items[name]))]
    ensures name !in w.items ==> r.signals == []
    ensures HostRegistered !in r.signals
  {
    var sigs := if name in w.items then [ItemUnregistered(Payload(w.items[name]))] else [];
    Outcome(Watcher(w.items - {name}, w.hosts - {name}), sigs)
  }

  /**
   * A `NameOwnerChanged(name, old_owner, new_owner)` broadcast from the bus
   * daemon: only a release (empty new owner) counts as a vanished name.
   */
  function NameOwnerChanged(w: Watcher, name: string, oldOwner: string, newOwner: string): (r: Outcome)
    ensures newOwner != "" ==> r == Outcome(w, [])
    ensures newOwner == "" ==> r.watcher.items == w.items - {name} && r.watcher.hosts == w.hosts - {name}
    ensures Valid(w) ==> Valid(r.watcher)
  {
    if newOwner == "" then NameVanished(w, name) else Outcome(w, [])
  }

  /** Property `IsStatusNotifierHostRegistered`. */
  function IsHostRegistered(w: Watcher): (b: bool)
  {
    |w.hosts| > 0
  }

  /** The host property turns on with any host registration and off once the last host is gone. */
  lemma HostRegisteredFollowsHosts(w: Watcher, sender: string, service: string, name: string)
    ensures IsHostRegistered(RegisterHost(w, sender, service).watcher)
    ensures IsHostRegistered(RegisterItem(w, sender, service).watcher) == IsHostRegistered(w)
    ensures IsHostRegistered(NameVanished(w, name).watcher) <==> w.hosts.Keys - {name} != {}
  {
    var h := NameVanished(w, name).watcher.hosts;
    assert h.Keys == w.hosts.Keys - {name};
    assert |h| == |h.Keys|;
  }

  /** Property `ProtocolVersion`. */
  function ProtocolVersion(w: Watcher): (v: int)
    ensures v == PROTOCOL_VERSION
  {
    0
  }

  /**
   * Property `RegisteredStatusNotifierItems`: one payload per registered
   * item, in the registry's (unspecified) iteration order; `keys` records
   * which entry produced each element.
   */
  method RegisteredItems(w: Watcher) returns (list: seq<string>, keys: seq<string>)
    ensures |list| == |keys| == |w.items|
    ensures forall i | 0 <= i < |keys| :: keys[i] in w.items && list[i] == Payload(w.items[keys[i]])
    ensures forall i, j | 0 <= i < j < |keys| :: keys[i] != keys[j]
    ensures forall k | k in w.items :: k in keys
  {
    list := [];
    keys := [];
    var rest := w.items.Keys;
    while rest != {}
      invariant rest <= w.items.Keys
      invariant |list| == |keys|
      invariant forall i | 0 <= i < |keys| :: keys[i] in w.items && keys[i] !in rest
      invariant forall i | 0 <= i < |keys| :: list[i] == Payload(w.items[keys[i]])
      invariant forall i, j | 0 <= i < j < |keys| :: keys[i] != keys[j]
      invariant forall k | k in w.items :: k in rest || k in keys
      invariant |keys| + |rest| == |w.items.Keys|
      decreases |rest|
    {
      var k :| k in rest;
      list := list + [Payload(w.items[k])];
      keys := keys + [k];
      rest := rest - {k};
    }
    assert |w.items.Keys| == |w.items|;
  }

  // ---------------------------------------------------------------------
  // Properties relating several transitions
  // ---------------------------------------------------------------------

  /** Registering the same item twice: the second call changes nothing and is silent. */
  lemma RegisterItemIdempotent(w: Watcher, sender: string, service: string)
    ensures var r1 := RegisterItem(w, sender, service);
      RegisterItem(r1.watcher, sender, service) == Outcome(r1.watcher, [])
  {
  }

  /** Same for hosts. */
  lemma RegisterHostIdempotent(w: Watcher, sender: string, service: string)
    ensures var r1 := RegisterHost(w, sender, service);
      RegisterHost(r1.watcher, sender, service) == Outcome(r1.watcher, [])
  {
  }

  /** A vanished item can register again, and is announced again. */
  lemma ReRegisterAfterVanish(w: Watcher, sender: string, service: string)
    requires Valid(w)
    ensures var info := Resolve(sender, service, DEFAULT_ITEM_PATH);
      var r := RegisterItem(NameVanished(w, info.busName).watcher, sender, service);
      r.signals == [ItemRegistered(Payload(info))]
  {
  }

  /** Registering an item then losing its owner announces the same payload twice over. */
  lemma RegisterThenVanishPayloads(w: Watcher, sender: string, service: string)
    requires Valid(w)
    ensures var info := Resolve(sender, service, DEFAULT_ITEM_PATH);
      info.busName !in w.items ==>
        var r1 := RegisterItem(w, sender, service);
        var r2 := NameVanished(r1.watcher, info.busName);
        && r1.signals == [ItemRegistered(Payload(info))]
        && r2.signals == [ItemUnregistered(Payload(info))]
        && r2.watcher.items == w.items
  {
    var info := Resolve(sender, service, DEFAULT_ITEM_PATH);
    if info.busName !in w.items {
      var r1 := RegisterItem(w, sender, service);
      assert r1.watcher.items - {info.busName} == w.items;
    }
  }

  /** A batch of host registrations `(sender, service)`, applied in order. */
  function RegisterHosts(w: Watcher, calls: seq<(string, string)>): (r: Outcome)
    ensures r.watcher.items == w.items
    ensures |calls| == 0 ==> r == Outcome(w, [])
    decreases |calls|
  {
    if |calls| == 0 then Outcome(w, [])
    else
      var r1 := RegisterHost(w, calls[0].0, calls[0].1);
      var rest := RegisterHosts(r1.watcher, calls[1..]);
      Outcome(rest.watcher, r1.signals + rest.signals)
  }

  /**
   * However many hosts register, `HostRegistered` is sent at most once, and
   * exactly once when the host registry started empty and someone registered.
   */
  lemma {:induction false} HostSignalOnlyOnFirst(w: Watcher, calls: seq<(string, string)>)
    ensures var r := RegisterHosts(w, calls);
      && CountHostSignals(r.signals) <= 1
      && (CountHostSignals(r.signals) == 1 <==> |w.hosts| == 0 && |calls| > 0)
    decreases |calls|
  {
    if |calls| > 0 {
      var r1 := RegisterHost(w, calls[0].0, calls[0].1);
      var rest := RegisterHosts(r1.watcher, calls[1..]);
      HostSignalOnlyOnFirst(r1.watcher, calls[1..]);
      CountHostSignalsAppend(r1.signals, rest.signals);
      assert CountHostSignals(rest.signals) == 0;
      if |w.hosts| == 0 {
        assert r1.signals == [HostRegistered];
      } else {
        assert r1.signals == [];
      }
    }
  }

  /** A batch of item registrations `(sender, service)`, applied in order. */
  function RegisterItems(w: Watcher, calls: seq<(string, string)>): (r: Outcome)
    ensures r.watcher.hosts == w.hosts
    decreases |calls|
  {
    if |calls| == 0 then Outcome(w, [])
    else
      var r1 := RegisterItem(w, calls[0].0, calls[0].1);
      var rest := RegisterItems(r1.watcher, calls[1..]);
      Outcome(rest.watcher, r1.signals + rest.signals)
  }

  /**
   * Registrations only ever add items, and every signal they send announces
   * one newly added entry: the number of signals is the registry's growth.
   */
  lemma {:induction false} ItemSignalsCountNewEntries(w: Watcher, calls: seq<(string, string)>)
    ensures var r := RegisterItems(w, calls);
      && w.items.Keys <= r.watcher.items.Keys
      && |r.signals| == |r.watcher.items| - |w.items|
      && forall s | s in r.signals :: s.ItemRegistered?
    decreases |calls|
  {
    if |calls| > 0 {
      var r1 := RegisterItem(w, calls[0].0, calls[0].1);
      ItemSignalsCountNewEntries(r1.watcher, calls[1..]);
    }
  }
}
