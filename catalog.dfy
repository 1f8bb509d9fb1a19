/**
 * The shared event catalog: the event record, its lifecycle status, and the
 * pure rules behind the bridge's upsert and delete, which every surface of
 * the platform applies to the array stored under `hh_global_events`.
 */
module Catalog {
  import opened Wrappers
  import Seqs
  import opened Text

  /** The lifecycle status an event record carries. */
  datatype Status = Pending | Upcoming | Active | Archived

  /**
   * One event record. A field the record lacks is the empty string, which
   * the pages treat as JavaScript treats a missing field (falsy).
   */
  datatype Event = Event(
    id: int,
    name: string,
    description: string,
    date: string,          // "Feb 21, 2026" or "Feb 21, 2026 to Feb 23, 2026"
    location: string,
    category: string,
    startTime: string,     // 24-hour "HH:MM"
    endTime: string,
    capacity: string,
    image: string,
    registration: string,  // "used / capacity"
    status: Status)

  /**
   * `new Date(text).getTime()`: the instant a date-and-time text denotes,
   * or `None` where JavaScript gives `NaN`.
   */
  type DateParser = string -> Option<int>

  /** What `getAllEvents` reads from the storage slot: nothing stored reads as `[]`. */
  function StoredEvents(slot: Option<seq<Event>>): (events: seq<Event>)
    ensures slot.None? ==> events == []
    ensures slot.Some? ==> events == slot.value
  {
    slot.GetOr([])
  }

  // ---------------------------------------------------------------- lookup

  predicate HasId(s: seq<Event>, id: int) {
    exists i :: 0 <= i < |s| && s[i].id == id
  }

  /** Index of the first record with identifier `id`. */
  function FirstIndexOf(s: seq<Event>, id: int): (r: Option<nat>)
    ensures r.Some? <==> HasId(s, id)
    ensures r.Some? ==> r.value < |s| && s[r.value].id == id
    ensures r.Some? ==> forall j :: 0 <= j < r.value ==> s[j].id != id
  {
    if s == [] then None
    else if s[0].id == id then Some(0)
    else match FirstIndexOf(s[1..], id)
      case None =>
        assert !HasId(s, id) by {
          forall i | 0 <= i < |s| ensures s[i].id != id {
            if i > 0 { assert s[i] == s[1..][i - 1]; }
          }
        }
        None
      case Some(k) =>
        assert s[k + 1] == s[1..][k];
        Some(k + 1)
  }

  /** `findIndex(e => e.id === id)`: the first matching index, or -1. */
  method FindIndexById(s: seq<Event>, id: int) returns (index: int)
    ensures -1 <= index < |s|
    ensures index == -1 <==> !HasId(s, id)
    ensures index >= 0 ==> s[index].id == id && forall j :: 0 <= j < index ==> s[j].id != id
  {
    index := 0;
    while index < |s|
      invariant 0 <= index <= |s|
      invariant forall j :: 0 <= j < index ==> s[j].id != id
    {
      if s[index].id == id {
        return;
      }
      index := index + 1;
    }
    index := -1;
  }

  /** No two records share an identifier. */
  predicate UniqueIds(s: seq<Event>) {
    forall i, j :: 0 <= i < j < |s| ==> s[i].id != s[j].id
  }

  // ---------------------------------------------------------------- upsert

  /** `saveToHub`'s rule: replace the first record with the same id, else append. */
  function Upsert(s: seq<Event>, e: Event): (r: seq<Event>)
    ensures e in r
    ensures |r| == |s| <==> HasId(s, e.id)
    ensures !HasId(s, e.id) ==> r == s + [e]
    ensures forall i :: 0 <= i < |s| && r[i] != s[i] ==> r[i] == e
  {
    match FirstIndexOf(s, e.id)
    case Some(i) =>
      assert s[i := e][i] == e;
      s[i := e]
    case None =>
      assert (s + [e])[|s|] == e;
      s + [e]
  }

  /** An existing id: the first record with it is replaced where it stands. */
  lemma UpsertReplacesFirst(s: seq<Event>, e: Event, i: nat)
    requires i < |s| && s[i].id == e.id
    requires forall j :: 0 <= j < i ==> s[j].id != e.id
    ensures Upsert(s, e) == s[i := e]
    ensures |Upsert(s, e)| == |s|
  {
    assert FirstIndexOf(s, e.id) == Some(i);
  }

  /** A new id: the record is appended and the length grows by one. */
  lemma UpsertAppends(s: seq<Event>, e: Event)
    requires forall j :: 0 <= j < |s| ==> s[j].id != e.id
    ensures Upsert(s, e) == s + [e]
    ensures |Upsert(s, e)| == |s| + 1
  {
  }

  /**
   * On a catalog with unique ids, an upsert keeps the ids unique and leaves
   * exactly one record with the saved id: the saved record itself.
   */
  lemma UpsertKeepsUnique(s: seq<Event>, e: Event)
    requires UniqueIds(s)
    ensures UniqueIds(Upsert(s, e))
    ensures e in Upsert(s, e)
    ensures forall x :: x in Upsert(s, e) && x.id == e.id ==> x == e
  {
    var r := Upsert(s, e);
    match FirstIndexOf(s, e.id)
    case Some(i) =>
      assert r[i] == e;
      forall a, b | 0 <= a < b < |r| ensures r[a].id != r[b].id {
        assert r[a].id == s[a].id && r[b].id == s[b].id;
      }
      forall x | x in r && x.id == e.id ensures x == e {
        var k :| 0 <= k < |r| && r[k] == x;
      }
    case None =>
      assert r[|s|] == e;
      forall x | x in r && x.id == e.id ensures x == e {
        var k :| 0 <= k < |r| && r[k] == x;
        if k < |s| { assert HasId(s, e.id); }
      }
  }

  /** Two saves with the same id: the second wins and nothing is duplicated. */
  lemma UpsertLastWriteWins(s: seq<Event>, e1: Event, e2: Event)
    requires e1.id == e2.id
    ensures Upsert(Upsert(s, e1), e2) == Upsert(s, e2)
  {
    match FirstIndexOf(s, e1.id)
    case Some(i) =>
      UpsertReplacesFirst(s[i := e1], e2, i);
    case None =>
      UpsertReplacesFirst(s + [e1], e2, |s|);
  }

  /**
   * Two saves with the same id on a catalog with unique ids: the ids stay
   * unique and exactly one record carries the id, holding the second values.
   */
  lemma TwoSavesLeaveOne(s: seq<Event>, e1: Event, e2: Event)
    requires UniqueIds(s) && e1.id == e2.id
    ensures var r := Upsert(Upsert(s, e1), e2);
      UniqueIds(r) && e2 in r && forall x :: x in r && x.id == e2.id ==> x == e2
  {
    UpsertLastWriteWins(s, e1, e2);
    UpsertKeepsUnique(s, e2);
  }

  // ---------------------------------------------------------------- delete

  /** The filter test of `deleteFromHub`: `e => e.id !== id`. */
  function OtherThan(id: int): Event -> bool {
    (x: Event) => x.id != id
  }

  /** `deleteFromHub`'s rule: every record with the id goes, the rest stay in order. */
  function WithoutId(s: seq<Event>, id: int): (r: seq<Event>)
    ensures forall x :: x in r <==> x in s && x.id != id
  {
    Seqs.Filter(OtherThan(id), s)
  }

  /** Deleting keeps each other record as many times as before, and no record with the id. */
  lemma WithoutIdCounts(s: seq<Event>, id: int)
    ensures forall x :: multiset(WithoutId(s, id))[x] == if x.id == id then 0 else multiset(s)[x]
  {
    Seqs.FilterMultiset(OtherThan(id), s);
  }

  /** Deleting from a concatenation deletes from each part: the order is kept. */
  lemma WithoutIdConcat(a: seq<Event>, b: seq<Event>, id: int)
    ensures WithoutId(a + b, id) == WithoutId(a, id) + WithoutId(b, id)
  {
    Seqs.FilterConcat(OtherThan(id), a, b);
  }

  /** Deleting an absent id changes nothing. */
  lemma WithoutAbsentId(s: seq<Event>, id: int)
    requires !HasId(s, id)
    ensures WithoutId(s, id) == s
  {
    Seqs.FilterKeepsAll(OtherThan(id), s);
  }

  /** Deleting keeps the ids unique. */
  lemma {:induction false} WithoutIdKeepsUnique(s: seq<Event>, id: int)
    requires UniqueIds(s)
    ensures UniqueIds(WithoutId(s, id))
  {
    if s != [] {
      WithoutIdKeepsUnique(s[1..], id);
      var head := if s[0].id != id then [s[0]] else [];
      var rest := WithoutId(s[1..], id);
      assert WithoutId(s, id) == head + rest;
      forall x | x in rest ensures x.id != s[0].id {
        var k :| 0 <= k < |s[1..]| && s[1..][k] == x;
        assert s[k + 1] == x;
      }
    }
  }

  // ---------------------------------------------------------------- replay

  /** A mutation of the catalog through the bridge. */
  datatype HubOp = Save(event: Event) | Delete(id: int)

  function Apply(s: seq<Event>, op: HubOp): seq<Event> {
    match op
    case Save(e) => Upsert(s, e)
    case Delete(id) => WithoutId(s, id)
  }

  /** The catalog after a sequence of bridge mutations. */
  function Replay(s: seq<Event>, ops: seq<HubOp>): seq<Event> {
    if ops == [] then s else Apply(Replay(s, ops[..|ops| - 1]), ops[|ops| - 1])
  }

  /** Replaying one more operation applies it to the catalog replayed so far. */
  lemma ReplayStep(s: seq<Event>, ops: seq<HubOp>, i: nat)
    requires i < |ops|
    ensures Replay(s, ops[..i + 1]) == Apply(Replay(s, ops[..i]), ops[i])
  {
    assert ops[..i + 1][..i] == ops[..i];
  }

  /** Any sequence of saves and deletes keeps the ids unique. */
  lemma {:induction false} ReplayKeepsUnique(s: seq<Event>, ops: seq<HubOp>)
    requires UniqueIds(s)
    ensures UniqueIds(Replay(s, ops))
  {
    if ops != [] {
      var before := Replay(s, ops[..|ops| - 1]);
      ReplayKeepsUnique(s, ops[..|ops| - 1]);
      match ops[|ops| - 1]
      case Save(e) => UpsertKeepsUnique(before, e);
      case Delete(id) => WithoutIdKeepsUnique(before, id);
    }
  }

  // ---------------------------------------------------------------- labels

  /**
   * The count badge: `${n} event${n !== 1 ? 's' : ''}`. It is singular
   * exactly for a count of one, and ends in "s" otherwise.
   */
  function CountBadge(n: nat): (r: string)
    ensures |r| >= 7
    ensures r == "1 event" <==> n == 1
    ensures n != 1 ==> r[|r| - 1] == 's'
    ensures n != 1 ==> r == NatToString(n) + " events"
  {
    var b := NatToString(n) + " event" + (if n == 1 then "" else "s");
    assert n != 1 ==> b[|b| - 1] == 's' && b != "1 event" by {
      if n != 1 {
        assert b[|b| - 1] == 's';
        assert "1 event"[6] == 't';
      }
    }
    b
  }
}
