/**
 * `HH_Events` of assets/js/ViewAllEvents.js: the administrator's event
 * table. It recomputes every event's status from the clock, filters by a
 * search term and a status, shows five rows per page with a clamped page
 * number, and creates, edits and deletes events in its in-memory list.
 */
module AdminEvents {
  import opened Wrappers
  import opened Text
  import Seqs
  import opened Catalog

  /** `rowsPerPage`. */
  const RowsPerPage: nat := 5

  /** The separator between the two dates of a date range. */
  const RangeSeparator: string := " to "

  function Min(a: int, b: int): int {
    if a <= b then a else b
  }

  // ---------------------------------------------------------------- status

  /** `parts[0]` and `parts[1] || parts[0]` of `date.split(" to ")`. */
  function RangeDates(date: string): (string, string) {
    var parts := Split(date, RangeSeparator);
    (parts[0], if |parts| > 1 && parts[1] != "" then parts[1] else parts[0])
  }

  /**
   * `determineStatus`: Upcoming when a field is missing; otherwise the date
   * range's start date with the start time and its end date with the end
   * time are parsed and `now` is placed before, inside or after them. An
   * unparseable instant (NaN) fails every comparison. The rule never
   * produces Pending, and a missing field always reads as Upcoming.
   */
  function DetermineStatus(date: string, startTime: string, endTime: string, now: int, parse: DateParser): (r: Status)
    ensures r != Pending
    ensures date == "" || startTime == "" || endTime == "" ==> r == Upcoming
  {
    if date == "" || startTime == "" || endTime == "" then Upcoming
    else
      var (startDatePart, endDatePart) := RangeDates(date);
      var eventStart := parse(startDatePart + " " + startTime);
      var eventEnd := parse(endDatePart + " " + endTime);
      if eventStart.Some? && now < eventStart.value then Upcoming
      else if eventStart.Some? && eventEnd.Some? && eventStart.value <= now <= eventEnd.value then Active
      else Archived
  }

  /** A date without " to " is both the start and the end date. */
  lemma RangeDatesSingle(date: string)
    requires !Includes(date, RangeSeparator)
    ensures RangeDates(date) == (date, date)
  {
    SplitNone(date, RangeSeparator);
  }

  /**
   * A range "a to b" whose dates contain no separator (and where `a` does
   * not end in a character the separator starts with) yields `a` and `b`.
   */
  lemma RangeDatesPair(a: string, b: string)
    requires !Includes(a, RangeSeparator) && !Includes(b, RangeSeparator) && b != ""
    requires a == "" || (a[|a| - 1] != ' ' && a[|a| - 1] != 't' && a[|a| - 1] != 'o')
    ensures RangeDates(a + RangeSeparator + b) == (a, b)
  {
    var s := a + RangeSeparator + b;
    forall j | 0 <= j < |a| ensures !OccursAt(s, RangeSeparator, j) {
      if j + 4 <= |a| {
        assert s[j..j + 4] == a[j..j + 4];
        assert !OccursAt(a, RangeSeparator, j);
      } else {
        var k := |a| - 1 - j;
        assert s[j..j + 4][k] == a[|a| - 1];
        assert RangeSeparator[k] != a[|a| - 1] by {
          assert RangeSeparator == [' ', 't', 'o', ' '];
        }
      }
    }
    SplitTwo(a, RangeSeparator, b);
  }

  /** With both instants parsed, the three statuses are the three intervals. */
  lemma DetermineStatusIntervals(date: string, startTime: string, endTime: string, now: int, parse: DateParser, start: int, end: int)
    requires date != "" && startTime != "" && endTime != ""
    requires parse(RangeDates(date).0 + " " + startTime) == Some(start)
    requires parse(RangeDates(date).1 + " " + endTime) == Some(end)
    ensures DetermineStatus(date, startTime, endTime, now, parse) == Upcoming <==> now < start
    ensures DetermineStatus(date, startTime, endTime, now, parse) == Active <==> start <= now <= end
    ensures DetermineStatus(date, startTime, endTime, now, parse) == Archived <==> start <= now && end < now
  {
  }

  /** An unparseable start gives Archived; an unparseable end only Upcoming or Archived. */
  lemma DetermineStatusUnparseable(date: string, startTime: string, endTime: string, now: int, parse: DateParser)
    requires date != "" && startTime != "" && endTime != ""
    ensures parse(RangeDates(date).0 + " " + startTime).None? ==>
      DetermineStatus(date, startTime, endTime, now, parse) == Archived
    ensures parse(RangeDates(date).1 + " " + endTime).None? ==>
      DetermineStatus(date, startTime, endTime, now, parse) != Active
  {
  }

  /** Position of a status along the lifecycle. */
  function Stage(s: Status): nat {
    match s
    case Pending => 0
    case Upcoming => 0
    case Active => 1
    case Archived => 2
  }

  /** As the clock advances the computed status only moves forward. */
  lemma DetermineStatusMonotone(date: string, startTime: string, endTime: string, t1: int, t2: int, parse: DateParser)
    requires t1 <= t2
    ensures Stage(DetermineStatus(date, startTime, endTime, t1, parse)) <= Stage(DetermineStatus(date, startTime, endTime, t2, parse))
  {
  }

  /**
   * A one-day event from 09:00 to 17:00 is Upcoming the evening before,
   * Active at noon and Archived after midnight.
   */
  lemma OneDayEvent(parse: DateParser, eveBefore: int, noon: int, nextMidnight: int)
    requires parse("Jan 10, 2026" + " " + "09:00").Some? && parse("Jan 10, 2026" + " " + "17:00").Some?
    requires eveBefore < parse("Jan 10, 2026" + " " + "09:00").value <= noon
    requires noon <= parse("Jan 10, 2026" + " " + "17:00").value < nextMidnight
    ensures DetermineStatus("Jan 10, 2026", "09:00", "17:00", eveBefore, parse) == Upcoming
    ensures DetermineStatus("Jan 10, 2026", "09:00", "17:00", noon, parse) == Active
    ensures DetermineStatus("Jan 10, 2026", "09:00", "17:00", nextMidnight, parse) == Archived
  {
    var date := "Jan 10, 2026";
    assert !Includes(date, RangeSeparator) by {
      forall j | 0 <= j < |date| ensures !OccursAt(date, RangeSeparator, j) {
        if j + 4 <= |date| {
          assert date[j..j + 4][1] == date[j + 1];
          assert date[j..j + 4][2] == date[j + 2];
        }
      }
    }
    RangeDatesSingle(date);
  }

  /** `render`'s re-sync: every event's status overwritten by `determineStatus`. */
  function Restamped(list: seq<Event>, now: int, parse: DateParser): (r: seq<Event>)
    ensures |r| == |list|
    ensures forall i :: 0 <= i < |r| ==> r[i].status != Pending && r[i] == list[i].(status := r[i].status)
  {
    seq(|list|, i requires 0 <= i < |list| =>
      list[i].(status := DetermineStatus(list[i].date, list[i].startTime, list[i].endTime, now, parse)))
  }

  /** Re-syncing twice at the same instant is re-syncing once; no Pending survives it. */
  lemma RestampedIdempotent(list: seq<Event>, now: int, parse: DateParser)
    ensures Restamped(Restamped(list, now, parse), now, parse) == Restamped(list, now, parse)
    ensures forall ev :: ev in Restamped(list, now, parse) ==> ev.status != Pending
  {
  }

  /** Re-syncing keeps every record's identity and position. */
  lemma RestampedKeepsIds(list: seq<Event>, now: int, parse: DateParser)
    ensures forall i :: 0 <= i < |list| ==> Restamped(list, now, parse)[i].id == list[i].id
    ensures forall id :: HasId(Restamped(list, now, parse), id) <==> HasId(list, id)
  {
    var r := Restamped(list, now, parse);
    forall id ensures HasId(r, id) <==> HasId(list, id) {
      if HasId(list, id) {
        var i :| 0 <= i < |list| && list[i].id == id;
        assert r[i].id == id;
      }
    }
  }

  // ---------------------------------------------------------------- filter

  /** The status filter: `'All'` or one status. */
  datatype StatusFilter = All | Only(status: Status)

  /** The test of `getFilteredList` for a lower-cased term and a status filter. */
  function MatchesQuery(term: string, filter: StatusFilter): Event -> bool {
    (ev: Event) =>
      (Includes(ToLower(ev.name), term) || Includes(ToLower(ev.category), term))
      && (filter.All? || ev.status == filter.status)
  }

  /** `getFilteredList`: the events matching the search term and the status filter. */
  function FilterEvents(list: seq<Event>, term: string, filter: StatusFilter): (r: seq<Event>)
    ensures forall ev :: ev in r <==>
      (ev in list
       && (Includes(ToLower(ev.name), term) || Includes(ToLower(ev.category), term))
       && (filter.All? || ev.status == filter.status))
  {
    Seqs.Filter(MatchesQuery(term, filter), list)
  }

  /** The filter keeps the list's order. */
  lemma FilterEventsConcat(a: seq<Event>, b: seq<Event>, term: string, filter: StatusFilter)
    ensures FilterEvents(a + b, term, filter) == FilterEvents(a, term, filter) + FilterEvents(b, term, filter)
  {
    Seqs.FilterConcat(MatchesQuery(term, filter), a, b);
  }

  /** An empty search box with status 'All' shows the whole list. */
  lemma FilterEventsNoQuery(list: seq<Event>)
    ensures FilterEvents(list, "", All) == list
  {
    forall ev | ev in list ensures MatchesQuery("", All)(ev) {
      IncludesEmpty(ToLower(ev.name));
    }
    Seqs.FilterKeepsAll(MatchesQuery("", All), list);
  }

  // ---------------------------------------------------------------- pages

  /** `Math.ceil(n / rowsPerPage) || 1`. */
  function TotalPages(n: nat): (t: nat)
    ensures t >= 1
    ensures n == 0 ==> t == 1
    ensures n > 0 ==> (t - 1) * RowsPerPage < n <= t * RowsPerPage
  {
    if n == 0 then 1 else (n + RowsPerPage - 1) / RowsPerPage
  }

  /** `Array.prototype.slice(from, to)` for non-negative bounds. */
  function Slice<T>(s: seq<T>, from: nat, to: nat): (r: seq<T>)
    ensures from <= to <= |s| ==> r == s[from..to]
    ensures from <= |s| <= to ==> r == s[from..]
    ensures |s| <= from ==> r == []
  {
    var a := Min(from, |s|);
    var b := Min(to, |s|);
    if b <= a then [] else s[a..b]
  }

  /** The rows of page `page` (1-based): `filtered.slice(startIdx, startIdx + rowsPerPage)`. */
  function PageRows(filtered: seq<Event>, page: nat): (rows: seq<Event>)
    requires page >= 1
    ensures |rows| <= RowsPerPage
    ensures (page - 1) * RowsPerPage <= |filtered| ==>
      rows == filtered[(page - 1) * RowsPerPage..Min(page * RowsPerPage, |filtered|)]
  {
    Slice(filtered, (page - 1) * RowsPerPage, (page - 1) * RowsPerPage + RowsPerPage)
  }

  /** Pages 1 to `k` laid end to end. */
  function PagesUpTo(filtered: seq<Event>, k: nat): seq<Event> {
    if k == 0 then [] else PagesUpTo(filtered, k - 1) + PageRows(filtered, k)
  }

  lemma {:induction false} PagesUpToPrefix(filtered: seq<Event>, k: nat)
    ensures PagesUpTo(filtered, k) == filtered[..Min(k * RowsPerPage, |filtered|)]
  {
    if k > 0 {
      PagesUpToPrefix(filtered, k - 1);
      var n := |filtered|;
      if (k - 1) * RowsPerPage <= n {
        var lo := (k - 1) * RowsPerPage;
        var hi := Min(k * RowsPerPage, n);
        assert filtered[..hi] == filtered[..lo] + filtered[lo..hi];
      }
    }
  }

  /** Paging neither loses nor repeats an event: the pages together are the filtered list. */
  lemma PagesCoverFiltered(filtered: seq<Event>)
    ensures PagesUpTo(filtered, TotalPages(|filtered|)) == filtered
  {
    PagesUpToPrefix(filtered, TotalPages(|filtered|));
    assert filtered[..|filtered|] == filtered;
  }

  /** The footer: "Showing 0 of 0 Events" or "Showing from to to of total Events". */
  datatype Footer = NoEvents | Showing(from: nat, to: nat, total: nat)

  datatype PageButton = PageButton(number: nat, active: bool)

  /** The pagination bar: the two arrow buttons' disabled state and the numbered buttons. */
  datatype Pager = Pager(prevDisabled: bool, nextDisabled: bool, buttons: seq<PageButton>)

  /** `updatePaginationUI(totalPages)` when the current page is `current`. */
  function PagerFor(current: int, totalPages: nat): (r: Pager)
    ensures |r.buttons| == totalPages
    ensures forall k :: 0 <= k < totalPages ==> r.buttons[k].number == k + 1
    ensures forall k, j :: 0 <= k < j < totalPages ==> !(r.buttons[k].active && r.buttons[j].active)
    ensures 1 <= current <= totalPages ==> r.buttons[current - 1].active
    ensures r.prevDisabled <==> current == 1
    ensures r.nextDisabled <==> current == totalPages || totalPages == 0
  {
    Pager(current == 1, current == totalPages || totalPages == 0,
          seq(totalPages, k requires 0 <= k < totalPages => PageButton(k + 1, k + 1 == current)))
  }

  /** What `render` draws: total count, empty-state box, rows, footer and pager. */
  datatype TableView = TableView(totalCount: nat, emptyState: bool, rows: seq<Event>, footer: Footer, pager: Pager)

  /** The table `render` draws for a list, page, lower-cased term and filter. */
  function TableFor(list: seq<Event>, page: nat, term: string, filter: StatusFilter): (r: TableView)
    requires page >= 1
    ensures r.totalCount == |list|
    ensures r.emptyState <==> |FilterEvents(list, term, filter)| == 0
    ensures |r.rows| <= RowsPerPage
    ensures forall x :: x in r.rows ==> x in FilterEvents(list, term, filter)
  {
    var filtered := FilterEvents(list, term, filter);
    var n := |filtered|;
    if n == 0 then TableView(|list|, true, [], NoEvents, PagerFor(page, 0))
    else
      var startIdx := (page - 1) * RowsPerPage;
      TableView(|list|, false, PageRows(filtered, page),
                Showing(startIdx + 1, Min(startIdx + RowsPerPage, n), n), PagerFor(page, TotalPages(n)))
  }

  /**
   * On a page in range the table shows at most five rows, exactly the slice
   * of the filtered list the footer announces, and highlights one button:
   * the current page's.
   */
  lemma TableShowsItsPage(list: seq<Event>, page: nat, term: string, filter: StatusFilter)
    requires 1 <= page <= TotalPages(|FilterEvents(list, term, filter)|)
    requires |FilterEvents(list, term, filter)| > 0
    ensures var v := TableFor(list, page, term, filter);
      var filtered := FilterEvents(list, term, filter);
      && |v.rows| <= RowsPerPage
      && v.footer.Showing?
      && v.footer.total == |filtered|
      && 1 <= v.footer.from <= v.footer.to <= |filtered|
      && v.rows == filtered[v.footer.from - 1..v.footer.to]
      && |v.pager.buttons| == TotalPages(|filtered|)
      && v.pager.buttons[page - 1].active
      && forall k :: 0 <= k < |v.pager.buttons| && v.pager.buttons[k].active ==> k == page - 1
  {
  }

  /** An empty result shows the empty state, no rows, no page numbers and both arrows disabled. */
  lemma TableEmpty(list: seq<Event>, term: string, filter: StatusFilter)
    requires |FilterEvents(list, term, filter)| == 0
    ensures var v := TableFor(list, 1, term, filter);
      v.emptyState && v.rows == [] && v.footer == NoEvents
      && v.pager.buttons == [] && v.pager.prevDisabled && v.pager.nextDisabled
  {
  }

  // ---------------------------------------------------------------- save

  /** The raw values of the event form's inputs. */
  datatype EventForm = EventForm(
    name: string, description: string, dates: string, location: string, category: string,
    startTime: string, endTime: string, capacity: string, image: string)

  /**
   * Name, dates, location, capacity, start and end time are all filled in;
   * a name or a location made only of white space counts as missing.
   */
  predicate FormComplete(f: EventForm)
    ensures FormComplete(f) ==> f.name != [] && f.location != [] && f.dates != "" && f.capacity != ""
    ensures (forall k :: 0 <= k < |f.name| ==> IsSpace(f.name[k])) ==> !FormComplete(f)
    ensures (forall k :: 0 <= k < |f.location| ==> IsSpace(f.location[k])) ==> !FormComplete(f)
  {
    Trim(f.name) != "" && f.dates != "" && Trim(f.location) != ""
    && f.capacity != "" && f.startTime != "" && f.endTime != ""
  }

  /** The record `save` builds from the form. */
  function FormRecord(f: EventForm, id: int, now: int, parse: DateParser): (r: Event)
    ensures r.id == id && r.registration == "0 / " + f.capacity
    ensures r.status != Pending
    ensures r.date == f.dates && r.startTime == f.startTime && r.endTime == f.endTime
  {
    Event(id, Trim(f.name), Trim(f.description), f.dates, Trim(f.location), f.category,
          f.startTime, f.endTime, f.capacity, f.image, "0 / " + f.capacity,
          DetermineStatus(f.dates, f.startTime, f.endTime, now, parse))
  }

  /** JavaScript truthiness of `editingId` (null and 0 are falsy). */
  predicate Truthy(editingId: Option<int>) {
    editingId.Some? && editingId.value != 0
  }

  /** The edit branch: the first record with the id is replaced; an absent id changes nothing. */
  function ReplaceExisting(list: seq<Event>, data: Event): (r: seq<Event>)
    ensures |r| == |list|
    ensures HasId(list, data.id) ==> data in r
    ensures !HasId(list, data.id) ==> r == list
    ensures forall i :: 0 <= i < |r| && r[i] != list[i] ==> r[i] == data
  {
    match FirstIndexOf(list, data.id)
    case Some(i) =>
      assert list[i := data][i] == data;
      list[i := data]
    case None => list
  }

  /**
   * The list after a `save` with a complete form, before `render` re-syncs
   * it: nothing but the form's record is new, and that record is present
   * unless the edited id has meanwhile disappeared.
   */
  function SavedList(list: seq<Event>, editingId: Option<int>, f: EventForm, freshId: int, now: int, parse: DateParser): (r: seq<Event>)
    ensures |r| == |list| + (if Truthy(editingId) then 0 else 1)
    ensures forall x :: x in r ==> x in list || x == FormRecord(f, if Truthy(editingId) then editingId.value else freshId, now, parse)
    ensures !Truthy(editingId) || HasId(list, editingId.value) ==>
      FormRecord(f, if Truthy(editingId) then editingId.value else freshId, now, parse) in r
  {
    var data := FormRecord(f, if Truthy(editingId) then editingId.value else freshId, now, parse);
    if Truthy(editingId) then ReplaceExisting(list, data) else list + [data]
  }

  /** Editing keeps the length; it replaces the record with the edited id, if any. */
  lemma SaveEdit(list: seq<Event>, editingId: Option<int>, f: EventForm, freshId: int, now: int, parse: DateParser)
    requires Truthy(editingId)
    ensures |SavedList(list, editingId, f, freshId, now, parse)| == |list|
    ensures !HasId(list, editingId.value) ==> SavedList(list, editingId, f, freshId, now, parse) == list
    ensures forall i :: 0 <= i < |list| && list[i].id == editingId.value && (forall j :: 0 <= j < i ==> list[j].id != editingId.value) ==>
      SavedList(list, editingId, f, freshId, now, parse) == list[i := FormRecord(f, editingId.value, now, parse)]
  {
  }

  /** Creating appends one record, registered "0 / capacity", under the fresh id. */
  lemma SaveCreate(list: seq<Event>, editingId: Option<int>, f: EventForm, freshId: int, now: int, parse: DateParser)
    requires !Truthy(editingId)
    ensures var r := SavedList(list, editingId, f, freshId, now, parse);
      |r| == |list| + 1 && r[..|list|] == list
      && r[|list|].id == freshId && r[|list|].registration == "0 / " + f.capacity
  {
  }

  // ---------------------------------------------------------------- the page object

  class EventsPage {
    var list: seq<Event>
    var currentPage: int
    var currentStatusFilter: StatusFilter
    var editingId: Option<int>
    /** The value of the search box `event-search-input`. */
    var searchInput: string
    /** What the last `render` drew. */
    var view: TableView

    /** The page number is in range and the drawn table is the one the state describes. */
    ghost predicate Valid()
      reads this
    {
      1 <= currentPage <= TotalPages(|Filtered()|) && view == TableFor(list, currentPage, ToLower(searchInput), currentStatusFilter)
    }

    /** The current state's filtered list, as `FilterEvents` defines it for the search box and the status filter. */
    function Filtered(): seq<Event>
      reads this
    {
      FilterEvents(list, ToLower(searchInput), currentStatusFilter)
    }

    constructor ()
      ensures list == [] && currentPage == 1 && currentStatusFilter == All
      ensures editingId == None && searchInput == ""
      ensures Valid()
    {
      list := [];
      currentPage := 1;
      currentStatusFilter := All;
      editingId := None;
      searchInput := "";
      view := TableFor([], 1, "", All);
    }

    /** `updatePaginationUI(totalPages)`: arrow states and one button per page. */
    method UpdatePaginationUI(totalPages: nat) returns (pager: Pager)
      ensures pager == PagerFor(currentPage, totalPages)
    {
      var buttons: seq<PageButton> := [];
      var i := 1;
      while i <= totalPages
        invariant 1 <= i <= totalPages + 1
        invariant |buttons| == i - 1
        invariant forall k :: 0 <= k < i - 1 ==> buttons[k] == PageButton(k + 1, k + 1 == currentPage)
      {
        buttons := buttons + [PageButton(i, i == currentPage)];
        i := i + 1;
      }
      pager := Pager(currentPage == 1, currentPage == totalPages || totalPages == 0, buttons);
    }

    /** `render`'s first loop: overwrite every status with `determineStatus`. */
    method Resync(now: int, parse: DateParser)
      modifies this`list
      ensures list == Restamped(old(list), now, parse)
    {
      var i := 0;
      while i < |list|
        invariant 0 <= i <= |list| == |old(list)|
        invariant forall k :: 0 <= k < i ==> list[k] == Restamped(old(list), now, parse)[k]
        invariant forall k :: i <= k < |list| ==> list[k] == old(list)[k]
      {
        var ev := list[i];
        list := list[i := ev.(status := DetermineStatus(ev.date, ev.startTime, ev.endTime, now, parse))];
        i := i + 1;
      }
    }

    /**
     * `render`: overwrite every status with `determineStatus`, lower the page
     * to the last one when it is past it, and draw that page.
     */
    method Render(now: int, parse: DateParser)
      requires currentPage >= 1
      modifies this
      ensures list == Restamped(old(list), now, parse)
      ensures currentPage == Min(old(currentPage), TotalPages(|Filtered()|))
      ensures currentStatusFilter == old(currentStatusFilter) && searchInput == old(searchInput)
      ensures editingId == old(editingId)
      ensures Valid()
    {
      Resync(now, parse);
      var totalPages := TotalPages(|Filtered()|);
      if currentPage > totalPages {
        currentPage := totalPages;
      }
      DrawTable();
    }

    /** The drawing half of `render`, for a page already in range. */
    method DrawTable()
      requires 1 <= currentPage <= TotalPages(|Filtered()|)
      modifies this`view
      ensures view == TableFor(list, currentPage, ToLower(searchInput), currentStatusFilter)
    {
      var filtered := Filtered();
      var totalItems := |filtered|;
      var totalPages := TotalPages(totalItems);
      var startIdx := (currentPage - 1) * RowsPerPage;
      var paginatedItems := Slice(filtered, startIdx, startIdx + RowsPerPage);
      if totalItems == 0 {
        var pager := UpdatePaginationUI(0);
        view := TableView(|list|, true, [], NoEvents, pager);
        return;
      }
      var pager := UpdatePaginationUI(totalPages);
      view := TableView(|list|, false, paginatedItems,
                        Showing(startIdx + 1, Min(startIdx + RowsPerPage, totalItems), totalItems), pager);
    }

    /** `changePage(direction)`: move only when the target page exists, then render. */
    method ChangePage(direction: int, now: int, parse: DateParser)
      requires Valid()
      modifies this
      ensures Valid()
      ensures var target := old(currentPage) + direction;
        if 1 <= target <= TotalPages(|old(Filtered())|) then
          list == Restamped(old(list), now, parse) && currentPage == Min(target, TotalPages(|Filtered()|))
        else
          list == old(list) && currentPage == old(currentPage)
      ensures currentStatusFilter == old(currentStatusFilter) && searchInput == old(searchInput)
      ensures editingId == old(editingId)
    {
      var totalItems := |Filtered()|;
      var totalPages := TotalPages(totalItems);
      var newPage := currentPage + direction;
      if newPage >= 1 && newPage <= totalPages {
        currentPage := newPage;
        Render(now, parse);
      }
    }

    /** `goToPage(page)`, called from a numbered button. */
    method GoToPage(page: int, now: int, parse: DateParser)
      requires page >= 1
      modifies this
      ensures Valid()
      ensures list == Restamped(old(list), now, parse)
      ensures currentPage == Min(page, TotalPages(|Filtered()|))
      ensures currentStatusFilter == old(currentStatusFilter) && searchInput == old(searchInput)
      ensures editingId == old(editingId)
    {
      currentPage := page;
      Render(now, parse);
    }

    /** `setStatusFilter(status)`: a new filter starts again at page 1. */
    method SetStatusFilter(status: StatusFilter, now: int, parse: DateParser)
      modifies this
      ensures Valid()
      ensures currentStatusFilter == status && currentPage == 1
      ensures list == Restamped(old(list), now, parse) && searchInput == old(searchInput)
      ensures editingId == old(editingId)
    {
      currentStatusFilter := status;
      currentPage := 1;
      Render(now, parse);
    }

    /** The search box's `input` listener: a new term starts again at page 1. */
    method SearchInput(text: string, now: int, parse: DateParser)
      modifies this
      ensures Valid()
      ensures searchInput == text && currentPage == 1
      ensures list == Restamped(old(list), now, parse) && currentStatusFilter == old(currentStatusFilter)
      ensures editingId == old(editingId)
    {
      searchInput := text;
      currentPage := 1;
      Render(now, parse);
    }

    /** `openModal(id)`: remember which event the form edits (null: a new one). */
    method OpenModal(id: Option<int>)
      modifies this`editingId
      ensures editingId == id
    {
      editingId := id;
    }

    /**
     * `save`: an incomplete form changes nothing; otherwise the record is
     * built (under `editingId`, or under the fresh id `freshId` standing for
     * `Date.now()`), replaces or is appended, and the table is rendered.
     */
    method Save(form: EventForm, freshId: int, now: int, parse: DateParser)
      requires Valid()
      modifies this
      ensures Valid()
      ensures !FormComplete(form) ==> list == old(list) && currentPage == old(currentPage)
      ensures FormComplete(form) ==>
        list == Restamped(SavedList(old(list), old(editingId), form, freshId, now, parse), now, parse)
        && currentPage == Min(old(currentPage), TotalPages(|Filtered()|))
      ensures currentStatusFilter == old(currentStatusFilter) && searchInput == old(searchInput)
      ensures editingId == old(editingId)
    {
      var nameVal := Trim(form.name);
      var locVal := Trim(form.location);
      if nameVal == "" || form.dates == "" || locVal == "" || form.capacity == "" || form.startTime == "" || form.endTime == "" {
        return;
      }
      var id := if Truthy(editingId) then editingId.value else freshId;
      var data := FormRecord(form, id, now, parse);
      if Truthy(editingId) {
        var index := FindIndexById(list, editingId.value);
        if index != -1 {
          assert FirstIndexOf(list, data.id) == Some(index);
          list := list[index := data];
        }
      } else {
        list := list + [data];
      }
      Render(now, parse);
    }

    /** `delete(id)` once confirmed: drop every event with the id and render. */
    method Delete(id: int, now: int, parse: DateParser)
      requires Valid()
      modifies this
      ensures Valid()
      ensures list == Restamped(WithoutId(old(list), id), now, parse)
      ensures currentPage == Min(old(currentPage), TotalPages(|Filtered()|))
      ensures currentStatusFilter == old(currentStatusFilter) && searchInput == old(searchInput)
      ensures editingId == old(editingId)
    {
      list := WithoutId(list, id);
      Render(now, parse);
    }
  }
}
