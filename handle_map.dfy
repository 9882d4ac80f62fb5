/** The map from CEF browser identifiers to browser window handles of the
    C layer (c/src/cef/bw_handle_map.hpp). Each entry holds the handle and
    the creation callback that is still to be called, if any.

    The mutex is modelled by the ghost flag `locked` only to show how the
    operations pair their `lock` and `unlock` calls: `faults` counts the
    unlocks of a free mutex and the locks of a held one (with one thread,
    the second is a deadlock). */
module HandleMaps {
  import opened Wrappers
  import opened Handles

  /** `OnCreateCallback`: the creation callback and its data. */
  datatype OnCreateCallback = OnCreateCallback(callback: FuncPtr, data: Ptr)

  /** `BrowserInfo`: our handle and the pending creation callback. */
  datatype BrowserInfo = BrowserInfo(handle: Ptr, callback: Option<OnCreateCallback>)

  /** The entry for an identifier, when there is one. */
  function Lookup(entries: map<int, BrowserInfo>, id: int): (r: Option<BrowserInfo>)
    ensures r.Some? <==> id in entries
    ensures r.Some? ==> r.value == entries[id]
  {
    if id in entries then Some(entries[id]) else None
  }

  class HandleMap {
    var entries: map<int, BrowserInfo>
    ghost var locked: bool
    ghost var faults: nat

    /** `HandleMap()`: no links, the mutex free. */
    constructor ()
      ensures entries == map[] && !locked && faults == 0
    {
      entries := map[];
      locked := false;
      faults := 0;
    }

    /** `mutex.lock()`. */
    method Lock()
      modifies this
      ensures locked && entries == old(entries)
      ensures faults == old(faults) + (if old(locked) then 1 else 0)
    {
      if locked {
        faults := faults + 1;
      }
      locked := true;
    }

    /** `mutex.unlock()`. */
    method Unlock()
      modifies this
      ensures !locked && entries == old(entries)
      ensures faults == old(faults) + (if old(locked) then 0 else 1)
    {
      if !locked {
        faults := faults + 1;
      }
      locked := false;
    }

    /** `drop`: the link for the identifier goes, every other stays. */
    method Drop(id: int)
      modifies this
      ensures entries == old(entries) - {id}
      ensures forall k :: k in old(entries) && k != id ==> k in entries && entries[k] == old(entries)[k]
      ensures id !in entries
      ensures !old(locked) ==> !locked && faults == old(faults)
    {
      Lock();
      entries := entries - {id};
      Unlock();
    }

    /** `store` with the lock taken before the update: the entry for the
        identifier becomes the handle with a pending creation callback,
        whatever was there before. */
    method Store(id: int, handle: Ptr, callback: FuncPtr, data: Ptr)
      modifies this
      ensures entries == old(entries)[id := BrowserInfo(handle, Some(OnCreateCallback(callback, data)))]
      ensures !old(locked) ==> !locked && faults == old(faults)
    {
      Lock();
      entries := entries[id := BrowserInfo(handle, Some(OnCreateCallback(callback, data)))];
      Unlock();
    }

    /** `store` as the source writes it: the mutex is unlocked without
        having been locked. */
    method StoreAsWritten(id: int, handle: Ptr, callback: FuncPtr, data: Ptr)
      modifies this
      ensures entries == old(entries)[id := BrowserInfo(handle, Some(OnCreateCallback(callback, data)))]
      ensures !old(locked) ==> faults == old(faults) + 1
    {
      entries := entries[id := BrowserInfo(handle, Some(OnCreateCallback(callback, data)))];
      Unlock();
    }

    /** `fetch` with the lock released on both paths: nothing when the
        identifier is absent, a copy of the entry when it is present. */
    method Fetch(id: int) returns (info: Option<BrowserInfo>)
      modifies this
      ensures info == Lookup(entries, id) && entries == old(entries)
      ensures !old(locked) ==> !locked && faults == old(faults)
    {
      Lock();
      if id !in entries {
        Unlock();
        return None;
      }
      info := Some(entries[id]);
      Unlock();
    }

    /** `fetch` as the source writes it: a miss returns with the mutex
        still locked. */
    method FetchAsWritten(id: int) returns (info: Option<BrowserInfo>)
      modifies this
      ensures info == Lookup(entries, id) && entries == old(entries)
      ensures !old(locked) ==> (locked <==> id !in entries) && faults == old(faults)
      ensures old(locked) ==> faults > old(faults)
    {
      Lock();
      if id !in entries {
        return None;
      }
      info := Some(entries[id]);
      Unlock();
    }

    /** The pending creation callback of an entry is cleared in the map
        itself, as `invokeCreationCallback` means to do through the address
        it expects `fetch` to give it. */
    method ClearCallback(id: int)
      modifies this
      ensures id in old(entries) ==> entries == old(entries)[id := old(entries)[id].(callback := None)]
      ensures id !in old(entries) ==> entries == old(entries)
      ensures !old(locked) ==> !locked && faults == old(faults)
    {
      Lock();
      if id in entries {
        entries := entries[id := entries[id].(callback := None)];
      }
      Unlock();
    }
  }

  /** A miss in the `fetch` as written leaves the mutex held, so the next
      operation's `lock` is a fault: the second of two fetches of an
      absent identifier deadlocks. */
  method FetchMissTwiceAsWritten(m: HandleMap, id: int) returns (first: Option<BrowserInfo>, second: Option<BrowserInfo>)
    requires !m.locked && id !in m.entries
    modifies m
    ensures first == None && second == None
    ensures m.faults > old(m.faults)
  {
    first := m.FetchAsWritten(id);
    second := m.FetchAsWritten(id);
  }
}
