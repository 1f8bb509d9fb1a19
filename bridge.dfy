/**
 * `HH_Bridge` of assets/js/bridge.js, the second copy of the catalog bridge.
 * It has the same three operations over the same storage key; `BridgesAgree`
 * checks that the two copies leave the catalog in the same state.
 */
module Bridge {
  import opened Wrappers
  import opened Catalog
  import HapsayBridge

  class Hub {
    /** The storage key of the catalog. */
    const DbKey: string
    /** The value stored under `DbKey`; `None` while nothing was ever written. */
    var stored: Option<seq<Event>>
    /** How many `storage` notifications `notifySync` has dispatched. */
    var syncCount: nat

    constructor (slot: Option<seq<Event>>)
      ensures DbKey == "hh_global_events"
      ensures stored == slot && syncCount == 0
    {
      DbKey := "hh_global_events";
      stored := slot;
      syncCount := 0;
    }

    /** `getAllEvents`: the stored array, or `[]` when the key is absent. */
    method GetAllEvents() returns (events: seq<Event>)
      ensures stored.None? ==> events == []
      ensures stored.Some? ==> events == stored.value
    {
      events := if stored.Some? then stored.value else [];
    }

    /**
     * `saveToHub`: replace the first record with the same id in place, or
     * append; then write the whole array back and notify once.
     */
    method SaveToHub(eventData: Event)
      modifies this
      ensures stored == Some(Upsert(StoredEvents(old(stored)), eventData))
      ensures syncCount == old(syncCount) + 1
    {
      var events := GetAllEvents();
      var index := FindIndexById(events, eventData.id);
      if index != -1 {
        UpsertReplacesFirst(events, eventData, index);
        events := events[index := eventData];
      } else {
        events := events + [eventData];
      }
      stored := Some(events);
      NotifySync();
    }

    /** `deleteFromHub`: drop every record with `id`, write back, notify once. */
    method DeleteFromHub(id: int)
      modifies this
      ensures stored == Some(WithoutId(StoredEvents(old(stored)), id))
      ensures syncCount == old(syncCount) + 1
    {
      var events := GetAllEvents();
      events := WithoutId(events, id);
      stored := Some(events);
      NotifySync();
    }

    /** `notifySync`: dispatch one `storage` event. */
    method NotifySync()
      modifies this`syncCount
      ensures syncCount == old(syncCount) + 1
    {
      syncCount := syncCount + 1;
    }
  }

  /**
   * Runs the same saves and deletes through both bridge copies, starting
   * from the same stored value: both end with the same catalog, the one
   * `Replay` describes, and both notified once per mutation.
   */
  method BridgesAgree(slot: Option<seq<Event>>, ops: seq<HubOp>)
    returns (first: seq<Event>, second: seq<Event>, firstSyncs: nat, secondSyncs: nat)
    ensures first == second == Replay(StoredEvents(slot), ops)
    ensures firstSyncs == secondSyncs == |ops|
  {
    var a := new HapsayBridge.Hub(slot);
    var b := new Hub(slot);
    var i := 0;
    while i < |ops|
      invariant 0 <= i <= |ops|
      invariant StoredEvents(a.stored) == StoredEvents(b.stored) == Replay(StoredEvents(slot), ops[..i])
      invariant a.syncCount == b.syncCount == i
    {
      ReplayStep(StoredEvents(slot), ops, i);
      match ops[i] {
        case Save(e) =>
          a.SaveToHub(e);
          b.SaveToHub(e);
        case Delete(id) =>
          a.DeleteFromHub(id);
          b.DeleteFromHub(id);
      }
      i := i + 1;
    }
    assert ops[..|ops|] == ops;
    first := a.GetAllEvents();
    second := b.GetAllEvents();
    firstSyncs, secondSyncs := a.syncCount, b.syncCount;
  }
}
