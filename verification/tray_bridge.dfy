/**
 * Watcher and host together: the map-based watcher's signals
 * (modules/tray_watcher.rs) delivered to the host's handlers
 * (modules/tray/widget.rs). Delivery itself is the bus's business; here a
 * signal simply reaches the matching handler.
 */
module TrayBridge {
  import opened Base
  import opened Sni
  import opened TrayWatcher
  import opened TrayHost

  /** The host's reaction to one watcher signal; `HostRegistered` is not watched. */
  function Deliver(cache: Cache, s: Signal, fetch: PropertySource): (r: HostStep)
    ensures s.HostRegistered? ==> r == HostStep(cache, [])
    ensures s.ItemRegistered? ==> r == OnItemRegistered(cache, s.service, fetch)
    ensures s.ItemUnregistered? ==> r == OnItemUnregistered(cache, s.service)
  {
    match s
    case ItemRegistered(service) => OnItemRegistered(cache, service, fetch)
    case ItemUnregistered(service) => OnItemUnregistered(cache, service)
    case HostRegistered => HostStep(cache, [])
  }

  /**
   * A fresh item registration reaches the host as an item with the bus name
   * and object path the watcher resolved, provided the name the host will
   * cut at its first `/` has none: the sender for a path registration, the
   * service itself otherwise.
   */
  lemma RegisteredItemReachesHost(w: Watcher, sender: string, service: string, cache: Cache, fetch: PropertySource)
    requires '/' !in sender && (StartsWith(service, "/") || '/' !in service)
    ensures var info := Resolve(sender, service, DEFAULT_ITEM_PATH);
      var r := RegisterItem(w, sender, service);
      info.busName !in w.items ==>
        var h := Deliver(cache, r.signals[0], fetch);
        && info.busName in h.cache
        && h.cache[info.busName].busName == info.busName
        && h.cache[info.busName].objectPath == info.objectPath
        && h.updates == [Add(h.cache[info.busName])]
  {
    var info := Resolve(sender, service, DEFAULT_ITEM_PATH);
    if info.busName !in w.items {
      if StartsWith(service, "/") {
        assert service[..1] == "/";
        assert |service| > 0 && service[0] == '/';
      } else {
        assert DEFAULT_ITEM_PATH[0] == '/';
      }
      ParseServiceStringInvertsPayload(info.busName, info.objectPath);
    }
  }

  /**
   * A registration by a name holding a `/` (not at its start) is keyed by
   * the watcher under the whole name, but the host, cutting the payload at
   * its first `/`, caches the item under a different, shorter name.
   */
  lemma SlashedServiceKeyedApart(w: Watcher, sender: string, service: string, cache: Cache, fetch: PropertySource)
    requires !StartsWith(service, "/") && '/' in service
    ensures var r := RegisterItem(w, sender, service);
      service !in w.items ==>
        && service in r.watcher.items
        && var h := Deliver(cache, r.signals[0], fetch);
           var key := ParseServiceString(service + DEFAULT_ITEM_PATH).0;
           && key != service
           && key in h.cache
           && h.cache == cache[key := h.cache[key]]
  {
    var key := ParseServiceString(service + DEFAULT_ITEM_PATH).0;
    assert '/' in service + DEFAULT_ITEM_PATH;
    assert '/' !in key;
  }

  /**
   * Losing the owner of a registered item removes exactly that item from a
   * host that knew it, and announces the removal once.
   */
  lemma VanishedItemLeavesHost(w: Watcher, name: string, cache: Cache, fetch: PropertySource)
    requires Valid(w)
    requires name in w.items && '/' !in name
    ensures var r := NameVanished(w, name);
      var h := Deliver(cache, r.signals[0], fetch);
      && h.cache == cache - {name}
      && (name in cache ==> h.updates == [Remove(name)])
      && (name !in cache ==> h.updates == [])
  {
    var info := w.items[name];
    assert StartsWith(info.objectPath, "/");
    assert |info.objectPath| > 0 && info.objectPath[0] == '/' by {
      assert info.objectPath[..1] == "/";
    }
    ParseServiceStringInvertsPayload(name, info.objectPath);
  }
}
