/**
 * `HH_Display` of assets/js/Visitor/EventDisplaying.js: the public event
 * grid. It keeps Pending records out of sight and never recomputes them,
 * recomputes every other status from the clock, filters by a search term
 * and a category, builds the category list, formats times, chooses each
 * card's action and records attendee registrations.
 */
module EventDisplay {
  import opened Wrappers
  import opened Text
  import Seqs
  import opened Catalog
  import AdminEvents

  // ---------------------------------------------------------------- time

  /** JavaScript's `a % b` for `b > 0`: the remainder takes the sign of `a`. */
  function JsRem(a: int, b: int): (r: int)
    requires b > 0
    ensures a >= 0 ==> r == a % b
    ensures a < 0 ==> -b < r <= 0
    ensures a < 0 ==> r == a - b * -((-a) / b)
  {
    if a >= 0 then a % b else -((-a) % b)
  }

  /**
   * `hours % 12 || 12`, where NaN (None) and zero are falsy. For a
   * non-negative hour this is the 12-hour clock's hour; a negative hour
   * keeps its sign, as JavaScript's remainder does.
   */
  function ClockHour(hours: Option<int>): (r: int)
    ensures r != 0 && -12 < r <= 12
    ensures hours.Some? && hours.value >= 0 ==> r == Clock12(hours.value)
    ensures hours.None? ==> r == 12
  {
    match hours
    case None => 12
    case Some(h) => if JsRem(h, 12) == 0 then 12 else JsRem(h, 12)
  }

  /** `formatTimeAMPM(time24)`: the text always ends in " AM" or " PM". */
  function FormatTimeAMPM(time24: string): (r: string)
    ensures time24 == "" ==> r == "00:00 AM"
    ensures |r| >= 3 && (r[|r| - 3..] == " AM" || r[|r| - 3..] == " PM")
  {
    if time24 == "" then "00:00 AM"
    else
      var parts := Split(time24, ":");
      var hours := ParseInt(parts[0]);
      var minutes := if |parts| > 1 then parts[1] else "undefined";
      var ampm := if hours.Some? && hours.value >= 12 then "PM" else "AM";
      var head := IntToString(ClockHour(hours)) + ":" + minutes;
      assert (head + " " + ampm)[|head|..] == " " + ampm;
      head + " " + ampm
  }

  /** The hour of a 12-hour clock for a non-negative 24-hour hour. */
  function Clock12(h: nat): (r: nat)
    ensures 1 <= r <= 12
    ensures r % 12 == h % 12
  {
    if h % 12 == 0 then 12 else h % 12
  }

  /**
   * "hh:mm" is rendered as the 12-hour hour, the minutes text copied
   * verbatim, and PM exactly when the hour is at least 12.
   */
  lemma FormatTimeOfClockText(hh: string, mm: string)
    requires |hh| >= 1 && AllDigits(hh)
    requires forall k :: 0 <= k < |mm| ==> mm[k] != ':'
    ensures FormatTimeAMPM(hh + ":" + mm) ==
      NatToString(Clock12(DigitsValue(hh))) + ":" + mm + " " + (if DigitsValue(hh) >= 12 then "PM" else "AM")
  {
    assert hh + ":" + mm == hh + [':'] + mm;
    SplitTwoChar(hh, ':', mm);
    ParseIntDigits(hh);
  }

  /** A time without a colon keeps JavaScript's "undefined" minutes. */
  lemma FormatTimeWithoutColon(hh: string)
    requires |hh| >= 1 && AllDigits(hh)
    ensures FormatTimeAMPM(hh) ==
      NatToString(Clock12(DigitsValue(hh))) + ":" + "undefined" + " " + (if DigitsValue(hh) >= 12 then "PM" else "AM")
  {
    WithoutChar(hh, ':');
    assert [':'] == ":";
    SplitNone(hh, ":");
    ParseIntDigits(hh);
    assert IntToString(ClockHour(ParseInt(hh))) == NatToString(Clock12(DigitsValue(hh)));
  }

  // ---------------------------------------------------------------- status

  /** `a < b` on JavaScript numbers, where None is NaN. */
  predicate NumLess(a: Option<int>, b: Option<int>) {
    a.Some? && b.Some? && a.value < b.value
  }

  /** `a <= b` on JavaScript numbers, where None is NaN. */
  predicate NumAtMost(a: Option<int>, b: Option<int>) {
    a.Some? && b.Some? && a.value <= b.value
  }

  /**
   * `calculateCurrentStatus`, with its comparisons against NaN written out.
   * The visitor page and the administrator page classify every event alike.
   */
  function CalculateCurrentStatus(dateRangeStr: string, startTime: string, endTime: string, now: int, parse: DateParser): (r: Status)
    ensures r == AdminEvents.DetermineStatus(dateRangeStr, startTime, endTime, now, parse)
  {
    if dateRangeStr == "" || startTime == "" || endTime == "" then Upcoming
    else
      var (startDatePart, endDatePart) := AdminEvents.RangeDates(dateRangeStr);
      var eventStartFull := parse(startDatePart + " " + startTime);
      var eventEndFull := parse(endDatePart + " " + endTime);
      if NumLess(Some(now), eventStartFull) then Upcoming
      else if NumAtMost(eventStartFull, Some(now)) && NumAtMost(Some(now), eventEndFull) then Active
      else Archived
  }

  // ---------------------------------------------------------------- the grid

  /** One record after `renderEvents`' re-sync: Pending stays as it is. */
  function Refreshed(ev: Event, now: int, parse: DateParser): (r: Event)
    ensures ev.status == Pending ==> r == ev
    ensures ev.status != Pending ==> r.status != Pending
    ensures r == ev.(status := r.status)
  {
    if ev.status != Pending then ev.(status := CalculateCurrentStatus(ev.date, ev.startTime, ev.endTime, now, parse))
    else ev
  }

  /**
   * `renderEvents`' re-sync of the stored records. Pending is sticky: a
   * Pending record is left untouched, and no other record becomes Pending;
   * only the status of a record ever changes.
   */
  function RefreshAll(events: seq<Event>, now: int, parse: DateParser): (r: seq<Event>)
    ensures |r| == |events|
    ensures forall i :: 0 <= i < |r| ==> (r[i].status == Pending <==> events[i].status == Pending)
    ensures forall i :: 0 <= i < |r| && events[i].status == Pending ==> r[i] == events[i]
    ensures forall i :: 0 <= i < |r| ==> r[i] == events[i].(status := r[i].status)
  {
    seq(|events|, i requires 0 <= i < |events| => Refreshed(events[i], now, parse))
  }

  predicate NotPending(ev: Event) {
    ev.status != Pending
  }

  /** The search test for a lower-cased term: name, description or location. */
  function SearchHit(term: string): Event -> bool {
    (ev: Event) =>
      Includes(ToLower(ev.name), term) || Includes(ToLower(ev.description), term) || Includes(ToLower(ev.location), term)
  }

  /** The category test: equal to the selection, ignoring case. */
  function InCategory(selected: string): Event -> bool {
    (ev: Event) => ToLower(ev.category) == ToLower(selected)
  }

  /** The selected category, `'all'` when the dropdown has no value. */
  function Selected(categoryValue: string): string {
    if categoryValue == "" then "all" else categoryValue
  }

  /**
   * The events `renderEvents` shows for the stored records, the search
   * box's text and the dropdown's value.
   */
  function ShownEvents(stored: seq<Event>, searchValue: string, categoryValue: string, now: int, parse: DateParser): (r: seq<Event>)
    ensures |r| <= |stored|
    ensures forall x :: x in r ==> x.status != Pending
  {
    var visible := Seqs.Filter(NotPending, RefreshAll(stored, now, parse));
    var searched := if ToLower(searchValue) != "" then Seqs.Filter(SearchHit(ToLower(searchValue)), visible) else visible;
    if Selected(categoryValue) != "all" then Seqs.Filter(InCategory(Selected(categoryValue)), searched) else searched
  }

  /** The combined test an event passes to be shown. */
  function ShownTest(searchValue: string, categoryValue: string): Event -> bool {
    (ev: Event) =>
      NotPending(ev)
      && (ToLower(searchValue) == "" || SearchHit(ToLower(searchValue))(ev))
      && (Selected(categoryValue) == "all" || InCategory(Selected(categoryValue))(ev))
  }

  /**
   * The grid shows, in stored order, exactly the re-synced records that are
   * not Pending, match a non-empty search term in name, description or
   * location, and match a category other than 'all' ignoring case.
   */
  lemma ShownEventsMeaning(stored: seq<Event>, searchValue: string, categoryValue: string, now: int, parse: DateParser)
    ensures ShownEvents(stored, searchValue, categoryValue, now, parse)
         == Seqs.Filter(ShownTest(searchValue, categoryValue), RefreshAll(stored, now, parse))
    ensures forall ev :: ev in ShownEvents(stored, searchValue, categoryValue, now, parse) ==> ev.status != Pending
  {
    var all := RefreshAll(stored, now, parse);
    var term := ToLower(searchValue);
    var cat := Selected(categoryValue);
    var both: Event -> bool := (ev: Event) => NotPending(ev) && (term == "" || SearchHit(term)(ev));
    if term != "" {
      Seqs.FilterTwice(NotPending, SearchHit(term), both, all);
    } else {
      Seqs.FilterTwice(NotPending, (ev: Event) => true, both, all);
      Seqs.FilterKeepsAll((ev: Event) => true, Seqs.Filter(NotPending, all));
    }
    if cat != "all" {
      Seqs.FilterTwice(both, InCategory(cat), ShownTest(searchValue, categoryValue), all);
    } else {
      Seqs.FilterTwice(both, (ev: Event) => true, ShownTest(searchValue, categoryValue), all);
      Seqs.FilterKeepsAll((ev: Event) => true, Seqs.Filter(both, all));
    }
  }

  /**
   * `renderEvents`: re-sync every non-Pending status, then filter step by
   * step; returns the cards' events and the count badge.
   */
  method RenderEvents(stored: seq<Event>, searchValue: string, categoryValue: string, now: int, parse: DateParser)
    returns (shown: seq<Event>, badge: string)
    ensures shown == ShownEvents(stored, searchValue, categoryValue, now, parse)
    ensures badge == CountBadge(|shown|)
  {
    var allEvents := stored;
    var i := 0;
    while i < |allEvents|
      invariant 0 <= i <= |allEvents| == |stored|
      invariant forall k :: 0 <= k < i ==> allEvents[k] == Refreshed(stored[k], now, parse)
      invariant forall k :: i <= k < |allEvents| ==> allEvents[k] == stored[k]
    {
      var ev := allEvents[i];
      if ev.status != Pending {
        allEvents := allEvents[i := ev.(status := CalculateCurrentStatus(ev.date, ev.startTime, ev.endTime, now, parse))];
      }
      i := i + 1;
    }
    assert allEvents == RefreshAll(stored, now, parse);
    var filtered := Seqs.Filter(NotPending, allEvents);
    var searchTerm := ToLower(searchValue);
    if searchTerm != "" {
      filtered := Seqs.Filter(SearchHit(searchTerm), filtered);
    }
    var selectedCat := Selected(categoryValue);
    if selectedCat != "all" {
      filtered := Seqs.Filter(InCategory(selectedCat), filtered);
    }
    shown := filtered;
    badge := CountBadge(|shown|);
  }

  // ---------------------------------------------------------------- categories

  datatype CategoryOption = CategoryOption(value: string, caption: string)

  /** The categories of the non-Pending records, empty ones dropped, with repeats. */
  function ListedCategories(events: seq<Event>): (cats: seq<string>)
    ensures forall c :: c in cats <==> c != "" && exists ev :: ev in events && ev.status != Pending && ev.category == c
  {
    var visible := Seqs.Filter(NotPending, events);
    var named := seq(|visible|, i requires 0 <= i < |visible| => visible[i].category);
    assert forall c :: c in named <==> exists ev :: ev in visible && ev.category == c by {
      forall c | c in named ensures exists ev :: ev in visible && ev.category == c {
        var i :| 0 <= i < |named| && named[i] == c;
        assert visible[i] in visible;
      }
      forall c | exists ev :: ev in visible && ev.category == c ensures c in named {
        var ev :| ev in visible && ev.category == c;
        var i :| 0 <= i < |visible| && visible[i] == ev;
        assert named[i] == c;
      }
    }
    Seqs.Filter((c: string) => c != "", named)
  }

  /**
   * `updateCategoryDropdown`'s options: "all" first, then one per distinct
   * category, whose value is its caption lower-cased.
   */
  function CategoryOptions(events: seq<Event>): (r: seq<CategoryOption>)
    ensures |r| >= 1 && r[0] == CategoryOption("all", "All Category")
    ensures forall i :: 1 <= i < |r| ==> r[i].value == ToLower(r[i].caption)
  {
    var cats := Seqs.Distinct(ListedCategories(events));
    [CategoryOption("all", "All Category")]
      + seq(|cats|, i requires 0 <= i < |cats| => CategoryOption(ToLower(cats[i]), cats[i]))
  }

  /**
   * The captions after "all" are the non-empty categories of non-Pending
   * records, each exactly once, in order of first appearance.
   */
  lemma CategoryOptionsCaptions(events: seq<Event>)
    ensures var opts := CategoryOptions(events);
      var cats := ListedCategories(events);
      && (forall i, j :: 1 <= i < j < |opts| ==> opts[i].caption != opts[j].caption)
      && (forall c :: c in cats <==> exists i :: 1 <= i < |opts| && opts[i].caption == c)
      && (forall i, j :: 1 <= i < j < |opts| ==> Seqs.FirstPos(cats, opts[i].caption) < Seqs.FirstPos(cats, opts[j].caption))
  {
    var cats := ListedCategories(events);
    var d := Seqs.Distinct(cats);
    var opts := CategoryOptions(events);
    Seqs.DistinctOrder(cats);
    assert forall i :: 1 <= i < |opts| ==> opts[i].caption == d[i - 1];
    forall c | c in cats ensures exists i :: 1 <= i < |opts| && opts[i].caption == c {
      var k :| 0 <= k < |d| && d[k] == c;
      assert opts[k + 1].caption == c;
    }
    forall i, j | 1 <= i < j < |opts| ensures opts[i].caption != opts[j].caption {
      assert d[i - 1] != d[j - 1];
    }
    forall i, j | 1 <= i < j < |opts|
      ensures Seqs.FirstPos(cats, opts[i].caption) < Seqs.FirstPos(cats, opts[j].caption)
    {
      assert d[i - 1] in d && d[j - 1] in d;
    }
  }

  // ---------------------------------------------------------------- cards

  /** What a card's footer offers. */
  datatype CardAction = RegisterNow(eventId: int) | HappeningNow | RegistrationClosed

  /** The parts of `createCardHTML` that depend on the record. */
  datatype Card = Card(action: CardAction, dimmed: bool, categoryTag: string, startLabel: string)

  /** A card offers registration only while Upcoming and is dimmed only when Archived. */
  function CardFor(ev: Event): (r: Card)
    ensures r.action.RegisterNow? <==> ev.status == Upcoming
    ensures r.action.RegisterNow? ==> r.action.eventId == ev.id
    ensures r.action == HappeningNow <==> ev.status == Active
    ensures r.dimmed <==> ev.status == Archived
  {
    var action :=
      if ev.status == Upcoming then RegisterNow(ev.id)
      else if ev.status == Active then HappeningNow
      else RegistrationClosed;
    Card(action, ev.status == Archived, if ev.category != "" then ev.category else "Event", FormatTimeAMPM(ev.startTime))
  }

  /** Among the shown events a closed card is always an Archived one, and only those are dimmed. */
  lemma CardActions(stored: seq<Event>, searchValue: string, categoryValue: string, now: int, parse: DateParser)
    ensures forall ev :: ev in ShownEvents(stored, searchValue, categoryValue, now, parse) ==>
      (CardFor(ev).action == RegistrationClosed <==> ev.status == Archived) && (CardFor(ev).dimmed <==> ev.status == Archived)
  {
    ShownEventsMeaning(stored, searchValue, categoryValue, now, parse);
  }

  // ---------------------------------------------------------------- registration

  /** The raw inputs of the registration form and the chosen ticket type; they are trimmed where they are used. */
  datatype RegistrationForm = RegistrationForm(fname: string, lname: string, email: string, phone: string, org: string, ticketType: string)

  datatype Attendee = Attendee(
    ticketID: string, eventId: int, eventName: string, fname: string, lname: string, email: string,
    phone: string, org: string, ticketType: string, status: string, dateRegistered: string)

  /** The fields posted to the confirmation e-mail endpoint. */
  datatype EmailRequest = EmailRequest(
    fname: string, email: string, ticketType: string, eventName: string, phone: string, org: string, ticketID: string)

  /** "HH-" followed by the upper-cased random code. */
  function TicketId(code: string): (r: string)
    ensures |r| == |code| + 3 && r[..3] == "HH-"
    ensures forall i :: 3 <= i < |r| ==> !('a' <= r[i] <= 'z')
  {
    "HH-" + ToUpper(code)
  }

  /** The attendee record `submitAttendeeRegistration` stores: registered under the ticket, for the event. */
  function NewAttendee(ev: Event, eventId: int, form: RegistrationForm, ticketID: string, timestamp: string): (r: Attendee)
    ensures r.ticketID == ticketID && r.eventId == eventId && r.eventName == ev.name
    ensures r.status == "Registered" && r.dateRegistered == timestamp
  {
    Attendee(ticketID, eventId, ev.name, Trim(form.fname), Trim(form.lname), Trim(form.email),
             Trim(form.phone), Trim(form.org), form.ticketType, "Registered", timestamp)
  }

  /** The confirmation e-mail request: same ticket and event name as the attendee record. */
  function EmailFor(ev: Event, form: RegistrationForm, ticketID: string): (r: EmailRequest)
    ensures r.ticketID == ticketID && r.eventName == ev.name
  {
    EmailRequest(Trim(form.fname), Trim(form.email), form.ticketType, ev.name, Trim(form.phone), Trim(form.org), ticketID)
  }

  /**
   * The attendee record and the e-mail carry the same ticket, which starts
   * with "HH-", for the same event and person.
   */
  lemma RegistrationAgrees(ev: Event, eventId: int, form: RegistrationForm, code: string, timestamp: string)
    ensures var a := NewAttendee(ev, eventId, form, TicketId(code), timestamp);
      var m := EmailFor(ev, form, TicketId(code));
      && a.status == "Registered"
      && a.ticketID == m.ticketID && a.ticketID[..3] == "HH-" && |a.ticketID| == 3 + |code|
      && a.eventName == m.eventName == ev.name && a.email == m.email && a.fname == m.fname
  {
  }

  /** The visitor's browser state: `hh_attendees` and the e-mail requests sent. */
  class Registrations {
    var attendees: seq<Attendee>
    var outbox: seq<EmailRequest>

    constructor (stored: seq<Attendee>)
      ensures attendees == stored && outbox == []
    {
      attendees := stored;
      outbox := [];
    }

    /**
     * `submitAttendeeRegistration(eventId)`: when the event exists, append
     * one attendee to `hh_attendees`, then post one e-mail request with the
     * same ticket; when it does not, reading `ev.name` fails before anything
     * is recorded. `code` stands for the random code and `timestamp` for
     * the registration time.
     */
    method SubmitAttendeeRegistration(events: seq<Event>, eventId: int, form: RegistrationForm, code: string, timestamp: string)
      returns (recorded: bool)
      modifies this
      ensures recorded <==> HasId(events, eventId)
      ensures !recorded ==> attendees == old(attendees) && outbox == old(outbox)
      ensures recorded ==>
        var ev := events[FirstIndexOf(events, eventId).value];
        && attendees == old(attendees) + [NewAttendee(ev, eventId, form, TicketId(code), timestamp)]
        && outbox == old(outbox) + [EmailFor(ev, form, TicketId(code))]
    {
      var index := FindIndexById(events, eventId);
      if index == -1 {
        return false;
      }
      var ev := events[index];
      var ticketID := TicketId(code);
      var newAttendee := NewAttendee(ev, eventId, form, ticketID, timestamp);
      attendees := attendees + [newAttendee];
      outbox := outbox + [EmailFor(ev, form, ticketID)];
      recorded := true;
    }
  }
}
