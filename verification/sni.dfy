/**
 * Names and signals of the StatusNotifierWatcher D-Bus interface
 * (freedesktop StatusNotifierItem specification), shared by both watcher
 * implementations and by the host.
 */
module Sni {

  const WATCHER_BUS: string := "org.kde.StatusNotifierWatcher"
  const WATCHER_PATH: string := "/StatusNotifierWatcher"
  const WATCHER_IFACE: string := "org.kde.StatusNotifierWatcher"

  /** Object path assumed for an item that registered with a bare bus name. */
  const DEFAULT_ITEM_PATH: string := "/StatusNotifierItem"
  /** Object path assumed for a host that registered with a bare bus name. */
  const DEFAULT_HOST_PATH: string := "/StatusNotifierHost"

  /** Value of the `ProtocolVersion` property. */
  const PROTOCOL_VERSION: int := 0

  /** Signals the watcher emits on `WATCHER_IFACE`. */
  datatype Signal =
    | ItemRegistered(service: string)
    | ItemUnregistered(service: string)
    | HostRegistered

  /** Number of `HostRegistered` signals in a signal list. */
  function CountHostSignals(sigs: seq<Signal>): (n: nat)
    ensures n <= |sigs|
    ensures n == 0 <==> HostRegistered !in sigs
  {
    if |sigs| == 0 then 0
    else (if sigs[0] == HostRegistered then 1 else 0) + CountHostSignals(sigs[1..])
  }

  lemma {:induction false} CountHostSignalsAppend(a: seq<Signal>, b: seq<Signal>)
    ensures CountHostSignals(a + b) == CountHostSignals(a) + CountHostSignals(b)
  {
    if |a| > 0 {
      CountHostSignalsAppend(a[1..], b);
      assert (a + b)[1..] == a[1..] + b;
    } else {
      assert a + b == b;
    }
  }
}
