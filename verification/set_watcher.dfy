/**
 * The set-based StatusNotifierWatcher (modules/tray/watcher.rs).
 *
 * Unlike the map-based broker, this one stores each registration string
 * verbatim in a set (no bus-name/path resolution), announces every newly
 * inserted host rather than only the first, and never forgets anything:
 * it has no name-owner tracking.
 */
module SetWatcher {
  import opened Sni

  datatype Watcher = Watcher(items: set<string>, hosts: set<string>)

  datatype Outcome = Outcome(watcher: Watcher, signals: seq<Signal>)

  /** `StatusNotifierWatcher::new`: nothing registered yet. */
  function New(): (w: Watcher)
    ensures w.items == {} && w.hosts == {}
  {
    Watcher({}, {})
  }

  /** `register_status_notifier_item(service)`: `HashSet::insert` decides the signal. */
  function RegisterItem(w: Watcher, service: string): (r: Outcome)
    ensures r.watcher.items == w.items + {service}
    ensures r.watcher.hosts == w.hosts
    ensures service in w.items ==> r.signals == []
    ensures service !in w.items ==> r.signals == [ItemRegistered(service)]
  {
    if service in w.items then Outcome(w, [])
    else Outcome(w.(items := w.items + {service}), [ItemRegistered(service)])
  }

  /** `register_status_notifier_host(service)`: every new host is announced. */
  function RegisterHost(w: Watcher, service: string): (r: Outcome)
    ensures r.watcher.hosts == w.hosts + {service}
    ensures r.watcher.items == w.items
    ensures HostRegistered in r.signals <==> service !in w.hosts
    ensures r.signals == [] || r.signals == [HostRegistered]
  {
    if service in w.hosts then Outcome(w, [])
    else Outcome(w.(hosts := w.hosts + {service}), [HostRegistered])
  }

  /** Property `IsStatusNotifierHostRegistered`. */
  function IsHostRegistered(w: Watcher): bool
  {
    w.hosts != {}
  }

  /** The host property turns on with any host registration; items do not affect it. */
  lemma HostRegisteredAfterRegister(w: Watcher, service: string)
    ensures IsHostRegistered(RegisterHost(w, service).watcher)
    ensures IsHostRegistered(RegisterItem(w, service).watcher) == IsHostRegistered(w)
  {
  }

  /** Property `ProtocolVersion`. */
  function ProtocolVersion(w: Watcher): (v: int)
    ensures v == PROTOCOL_VERSION
  {
    0
  }

  /** Property `RegisteredStatusNotifierItems`: each stored string once, in set order. */
  method RegisteredItems(w: Watcher) returns (list: seq<string>)
    ensures |list| == |w.items|
    ensures forall s | s in list :: s in w.items
    ensures forall s | s in w.items :: s in list
    ensures forall i, j | 0 <= i < j < |list| :: list[i] != list[j]
  {
    list := [];
    var rest := w.items;
    while rest != {}
      invariant rest <= w.items
      invariant forall s | s in list :: s in w.items && s !in rest
      invariant forall s | s in w.items :: s in rest || s in list
      invariant forall i, j | 0 <= i < j < |list| :: list[i] != list[j]
      invariant |list| + |rest| == |w.items|
      decreases |rest|
    {
      var s :| s in rest;
      list := list + [s];
      rest := rest - {s};
    }
  }

  /** A batch of host registrations, applied in order. */
  function RegisterHosts(w: Watcher, services: seq<string>): (r: Outcome)
    ensures r.watcher.items == w.items
    decreases |services|
  {
    if |services| == 0 then Outcome(w, [])
    else
      var r1 := RegisterHost(w, services[0]);
      var rest := RegisterHosts(r1.watcher, services[1..]);
      Outcome(rest.watcher, r1.signals + rest.signals)
  }

  /** The strings of a list, as a set. */
  function Elems(xs: seq<string>): set<string>
  {
    if |xs| == 0 then {} else {xs[0]} + Elems(xs[1..])
  }

  /** One `HostRegistered` per host string that was not registered before. */
  lemma {:induction false} HostSignalPerNewHost(w: Watcher, services: seq<string>)
    ensures var r := RegisterHosts(w, services);
      && r.watcher.hosts == w.hosts + Elems(services)
      && CountHostSignals(r.signals) == |r.watcher.hosts| - |w.hosts|
    decreases |services|
  {
    if |services| > 0 {
      var r1 := RegisterHost(w, services[0]);
      var rest := RegisterHosts(r1.watcher, services[1..]);
      HostSignalPerNewHost(r1.watcher, services[1..]);
      CountHostSignalsAppend(r1.signals, rest.signals);
      assert rest.watcher.hosts == w.hosts + {services[0]} + Elems(services[1..]);
    }
  }
}
