/**
 * `HH_Bridge` of assets/js/hapsay-bridge.js: the event catalog kept as one
 * array under the storage key `hh_global_events`, rewritten whole on every
 * save or delete, each write followed by one cross-tab notification.
 */
module HapsayBridge {
  import opened Wrappers
  import opened Catalog

  class Hub {
    /** The storage key of the catalog. */
    const DbKey: string
    /** The value stored under `DbKey`; `None` while nothing was ever written. */
    var stored: Option<seq<Event>>
    /** How many `storage` notifications `notifySync` has dispatched. */
    var syncCount: nat

    constructor (slot: Option<seq<Event>>)
      ensures DbKey == "hh_global_events"
      ensures stored == slot && syncCount == 0
    {
      DbKey := "hh_global_events";
      stored := slot;
      syncCount := 0;
    }

    /** `getAllEvents`: the stored array, or `[]` when the key is absent. */
    method GetAllEvents() returns (events: seq<Event>)
      ensures stored.None? ==> events == []
      ensures stored.Some? ==> events == stored.value
    {
      match stored
      case None => events := [];
      case Some(data) => events := data;
    }

    /**
     * `saveToHub`: replace the first record with the same id in place, or
     * append; then write the whole array back and notify once.
     */
    method SaveToHub(eventData: Event)
      modifies this
      ensures stored == Some(Upsert(StoredEvents(old(stored)), eventData))
      ensures syncCount == old(syncCount) + 1
    {
      var events := GetAllEvents();
      var index := FindIndexById(events, eventData.id);
      if index != -1 {
        UpsertReplacesFirst(events, eventData, index);
        events := events[index := eventData];
      } else {
        events := events + [eventData];
      }
      stored := Some(events);
      NotifySync();
    }

    /** `deleteFromHub`: drop every record with `id`, write back, notify once. */
    method DeleteFromHub(id: int)
      modifies this
      ensures stored == Some(WithoutId(StoredEvents(old(stored)), id))
      ensures syncCount == old(syncCount) + 1
    {
      var events := GetAllEvents();
      events := WithoutId(events, id);
      stored := Some(events);
      NotifySync();
    }

    /** `notifySync`: dispatch one `storage` event. */
    method NotifySync()
      modifies this`syncCount
      ensures syncCount == old(syncCount) + 1
    {
      syncCount := syncCount + 1;
    }
  }
}
