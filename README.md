# HapsayHub event catalog — a Dafny model

HapsayHub is a browser-side event platform. Its pages share one catalog of
event records kept in the browser's storage under the key
`hh_global_events`, and each page runs its own rules over that catalog.
This project models those rules and proves what they promise:

- **The catalog bridge** (`HH_Bridge`). It exists as two near-identical
  copies: `hapsay-bridge.js` is module `HapsayBridge` and `bridge.js` is
  module `Bridge`.
  - It reads the stored array, or `[]` when nothing is stored.
  - It upserts a record by `id`: the first record with that id is replaced
    in place, otherwise the record is appended.
  - It deletes every record with an id.
  - Every write rewrites the whole array and then fires exactly one
    cross-tab notification, counted in `syncCount`.

  `Bridge.BridgesAgree` runs any sequence of saves and deletes through
  both copies and proves they end in the same catalog.
- **The shared catalog rules** (module `Catalog`): lookup by id, upsert,
  delete-by-id and the event-count badge. Each comes with lemmas on
  in-place replacement, appending, id uniqueness, last write wins and
  order preservation.
- **The administrator's event table** (`HH_Events` in `ViewAllEvents.js`,
  module `AdminEvents`).
  - `determineStatus` places the clock before, inside or after the
    event's date range.
  - A search and status filter, five rows per page, a page number clamped
    into range, and the pagination bar.
  - Create and edit through a validated form, and confirmed delete.

  Class `EventsPage` holds the fields `list`, `currentPage`,
  `currentStatusFilter`, `editingId` and the search text. Its methods
  update them as the page does.
- **The public event grid** (`HH_Display` in `Visitor/EventDisplaying.js`,
  module `EventDisplay`).
  - Pending records are neither recomputed nor shown. Every other status
    is recomputed, by the same rule as the administrator page.
  - Search over name, description and location, and a case-insensitive
    category filter.
  - The distinct category list.
  - The 24-hour to 12-hour time formatter.
  - Each card's action.
  - The attendee registration, which records the attendee before the
    confirmation e-mail is requested.
- **The static card filter** (`Visitor/visitor.js`, module `Visitor`).
  Each card is shown exactly when it matches the search and the category.
  The visible cards are counted into the badge. At most one "no events
  found" message exists.

Modules `Wrappers`, `Text` and `Seqs` supply what the pages use from
JavaScript: `Option`, lower- and upper-casing, `includes`, `split`,
`trim`, `parseInt`, number printing, `filter` and `[...new Set(xs)]`.

The clock and JavaScript's date parser are parameters:
- `now` is an instant.
- `parse: DateParser` maps a date-and-time text to `Some(instant)`, or to
  `None` where JavaScript yields `NaN`.

Every comparison with `None` is false, as every comparison with `NaN` is.
So an unparseable start date falls through to Archived. Generated ids and
ticket codes are parameters too.

Two behaviours of the code are worth spelling out:
- The administrator table's `render` overwrites every status with
  `determineStatus`, including Pending (`ViewAllEvents.js:329-331`).
  Only the public grid keeps Pending untouched.
  `AdminEvents.RestampedIdempotent` states that no Pending record
  survives an administrator render.
- The page number is only ever lowered to the last page. Pages below 1 are
  never requested, because `changePage` checks its bounds and the page
  buttons are numbered from 1.

## Model

| member | source | states |
|---|---|---|
| HapsayBridge.Hub.constructor | assets/js/hapsay-bridge.js:6-7 | the catalog lives under the key `hh_global_events`; no notification has been sent yet |
| HapsayBridge.Hub.GetAllEvents | assets/js/hapsay-bridge.js:25-28 | an absent key reads as the empty catalog, otherwise the stored array |
| HapsayBridge.Hub.SaveToHub | assets/js/hapsay-bridge.js:10-22 | the stored catalog becomes the upsert of the old one (replace the first record with the id in place, else append) and exactly one notification is sent |
| HapsayBridge.Hub.DeleteFromHub | assets/js/hapsay-bridge.js:31-36 | the stored catalog becomes the old one without the id, and exactly one notification is sent |
| HapsayBridge.Hub.NotifySync | assets/js/hapsay-bridge.js:40-42 | one more notification, nothing else changes |
| Bridge.Hub.constructor | assets/js/bridge.js:5-7 | the second copy uses the same storage key |
| Bridge.Hub.GetAllEvents | assets/js/bridge.js:9-12 | an absent key reads as the empty catalog, otherwise the stored array |
| Bridge.Hub.SaveToHub | assets/js/bridge.js:14-26 | upsert by id, whole-catalog rewrite, one notification |
| Bridge.Hub.DeleteFromHub | assets/js/bridge.js:28-33 | delete every record with the id, whole-catalog rewrite, one notification |
| Bridge.Hub.NotifySync | assets/js/bridge.js:35-38 | one more notification, nothing else changes |
| Bridge.BridgesAgree | assets/js/bridge.js:5-39 | after the same saves and deletes from the same stored value, both bridge copies hold the same catalog, namely `Replay` of the operations, and each sent one notification per operation |
| Catalog.StoredEvents | assets/js/hapsay-bridge.js:26-27 | nothing stored reads as `[]`, anything stored reads as itself |
| Catalog.FirstIndexOf | assets/js/hapsay-bridge.js:12 | a result exists iff some record has the id; it points at a record with the id and no earlier record has it |
| Catalog.FindIndexById | assets/js/hapsay-bridge.js:12 | `findIndex`: -1 iff no record has the id, otherwise the first index holding it |
| Catalog.Upsert | assets/js/hapsay-bridge.js:11-18 | the saved record is always present; the length is kept iff the id was present, otherwise the record is appended; every position that changed now holds the saved record |
| Catalog.UpsertReplacesFirst | assets/js/hapsay-bridge.js:12-15 | with the id present, the first record holding it is replaced at the same index and the length is unchanged |
| Catalog.UpsertAppends | assets/js/hapsay-bridge.js:16-18 | with the id absent, the record is appended at the end and the length grows by one |
| Catalog.UpsertKeepsUnique | assets/js/hapsay-bridge.js:11-18 | on a catalog with unique ids the ids stay unique, the saved record is present and it is the only record with its id |
| Catalog.UpsertLastWriteWins | assets/js/hapsay-bridge.js:10-22 | two saves with the same id equal the second save alone |
| Catalog.TwoSavesLeaveOne | assets/js/hapsay-bridge.js:10-22 | on a catalog with unique ids, after two saves with the same id the ids are still unique and exactly one record carries the id, holding the second values |
| Catalog.WithoutId | assets/js/hapsay-bridge.js:33 | a record survives the delete iff it was present and has another id |
| Catalog.WithoutIdCounts | assets/js/hapsay-bridge.js:33 | every record with another id is kept as many times as before; none with the id remains |
| Catalog.WithoutIdConcat | assets/js/hapsay-bridge.js:33 | deleting distributes over concatenation, so the survivors keep their original order |
| Catalog.WithoutAbsentId | assets/js/hapsay-bridge.js:33 | deleting an id no record has leaves the catalog unchanged |
| Catalog.WithoutIdKeepsUnique | assets/js/hapsay-bridge.js:32-34 | deleting keeps ids unique |
| Catalog.ReplayKeepsUnique | assets/js/bridge.js:14-33 | any sequence of saves and deletes keeps ids unique |
| Catalog.CountBadge | assets/js/Visitor/visitor.js:46-48 | the badge reads "1 event" exactly when the count is one, and "N events" with the count's decimal text otherwise |
| AdminEvents.RangeDatesSingle | assets/js/ViewAllEvents.js:66-69 | a date without " to " is both the start and the end date |
| AdminEvents.RangeDatesPair | assets/js/ViewAllEvents.js:66-69 | "a to b" gives start date `a` and end date `b` |
| AdminEvents.DetermineStatus | assets/js/ViewAllEvents.js:61-88 | the status rule never yields Pending, and a missing date, start time or end time gives Upcoming |
| AdminEvents.DetermineStatusIntervals | assets/js/ViewAllEvents.js:79-87 | with both instants parsed: Upcoming iff now < start, Active iff start <= now <= end, Archived iff start <= now and end < now |
| AdminEvents.DetermineStatusUnparseable | assets/js/ViewAllEvents.js:79-87 | an unparseable start gives Archived; an unparseable end never gives Active |
| AdminEvents.DetermineStatusMonotone | assets/js/ViewAllEvents.js:79-87 | as the clock advances the status only moves forward: Upcoming, then Active, then Archived |
| AdminEvents.OneDayEvent | assets/js/ViewAllEvents.js:61-88 | "Jan 10, 2026" from 09:00 to 17:00 is Upcoming before the start, Active at noon and Archived after the end |
| AdminEvents.Restamped | assets/js/ViewAllEvents.js:329-331 | same length; every record keeps all its fields but the status, and no status is Pending |
| AdminEvents.RestampedIdempotent | assets/js/ViewAllEvents.js:329-331 | re-syncing twice at one instant is re-syncing once, and no record is left Pending |
| AdminEvents.RestampedKeepsIds | assets/js/ViewAllEvents.js:329-331 | re-syncing keeps every record's id and position |
| AdminEvents.FilterEvents | assets/js/ViewAllEvents.js:282-291 | an event is listed iff its lower-cased name or category contains the term and the filter is All or equals its status |
| AdminEvents.FilterEventsConcat | assets/js/ViewAllEvents.js:286-290 | the filter keeps the list's order |
| AdminEvents.FilterEventsNoQuery | assets/js/ViewAllEvents.js:282-291 | an empty term with filter All lists the whole list |
| AdminEvents.TotalPages | assets/js/ViewAllEvents.js:335 | at least one page; for n > 0 the least page count whose pages hold n rows of five |
| AdminEvents.Slice | assets/js/ViewAllEvents.js:339 | `slice` with bounds past the end cut to the length |
| AdminEvents.PageRows | assets/js/ViewAllEvents.js:338-339 | at most five rows, exactly `filtered[(p-1)*5 .. min(p*5, n))` |
| AdminEvents.PagesUpToPrefix | assets/js/ViewAllEvents.js:333-339 | pages 1 to k laid end to end are the first min(5k, n) filtered events |
| AdminEvents.PagesCoverFiltered | assets/js/ViewAllEvents.js:333-339 | all pages together are the filtered list: paging neither loses nor repeats an event |
| AdminEvents.PagerFor | assets/js/ViewAllEvents.js:114-120 | one button per page numbered from 1, at most one highlighted and the current one when in range; previous disabled iff on page 1; next disabled iff on the last page or there are no pages |
| AdminEvents.TableFor | assets/js/ViewAllEvents.js:326-376 | the total is the whole list's length, the empty state shows iff nothing passes the filter, and at most five rows, all of them filtered events |
| AdminEvents.TableShowsItsPage | assets/js/ViewAllEvents.js:333-376 | on a page in range: at most five rows, the footer reports from `start+1` to `min(start+5, n)` of n, the rows are exactly that slice, and only the current page's button is highlighted |
| AdminEvents.TableEmpty | assets/js/ViewAllEvents.js:344-349 | an empty result shows the empty state, "0 of 0", no rows, no page buttons and both arrows disabled |
| AdminEvents.FormComplete | assets/js/ViewAllEvents.js:239-249 | a complete form has its fields filled in; a name or a location made only of white space makes it incomplete |
| AdminEvents.FormRecord | assets/js/ViewAllEvents.js:253-266 | the record carries the chosen id, the form's dates and times, registration "0 / capacity" and a computed status that is never Pending |
| AdminEvents.ReplaceExisting | assets/js/ViewAllEvents.js:268-270 | same length; an absent id changes nothing; a present id puts the record in the list; every changed position holds the record |
| AdminEvents.SavedList | assets/js/ViewAllEvents.js:253-275 | an edit keeps the length and a create adds one; no record but the form's is new, and it is present unless the edited id has disappeared |
| AdminEvents.SaveEdit | assets/js/ViewAllEvents.js:268-271 | editing keeps the length, replaces the first record with the edited id by the form's record, and changes nothing when the id is absent |
| AdminEvents.SaveCreate | assets/js/ViewAllEvents.js:253-275 | creating appends one record under the fresh id with registration "0 / capacity", after the unchanged list |
| AdminEvents.EventsPage.constructor | assets/js/ViewAllEvents.js:9-13 | the empty list on page 1 with filter All and nothing being edited |
| AdminEvents.EventsPage.UpdatePaginationUI | assets/js/ViewAllEvents.js:107-122 | previous is disabled on page 1, next on the last page or with no pages, one button per page, only the current page active |
| AdminEvents.EventsPage.Resync | assets/js/ViewAllEvents.js:329-331 | every status is overwritten by the status rule |
| AdminEvents.EventsPage.Render | assets/js/ViewAllEvents.js:317-377 | statuses re-synced, the page lowered to the last page when past it, the drawn table the one the new state describes |
| AdminEvents.EventsPage.DrawTable | assets/js/ViewAllEvents.js:333-376 | the drawn table is the one for the current list, page, term and filter |
| AdminEvents.EventsPage.ChangePage | assets/js/ViewAllEvents.js:91-100 | the page moves by the step and the table is re-rendered only when the target lies in 1..totalPages; otherwise nothing changes |
| AdminEvents.EventsPage.GoToPage | assets/js/ViewAllEvents.js:102-105 | the chosen page, lowered to the last one, is rendered |
| AdminEvents.EventsPage.SetStatusFilter | assets/js/ViewAllEvents.js:309-315 | the new filter starts again at page 1 |
| AdminEvents.EventsPage.SearchInput | assets/js/ViewAllEvents.js:379-382 | new search text starts again at page 1 |
| AdminEvents.EventsPage.OpenModal | assets/js/ViewAllEvents.js:201-206 | remembers the id being edited (none for a new event) |
| AdminEvents.EventsPage.Save | assets/js/ViewAllEvents.js:236-279 | an incomplete form changes nothing; otherwise the list is the saved list (edit or create) re-synced, with the page clamped |
| AdminEvents.EventsPage.Delete | assets/js/ViewAllEvents.js:384-420 | after confirmation every event with the id is removed, the others keep their order, and the table is re-rendered |
| EventDisplay.FormatTimeAMPM | assets/js/Visitor/EventDisplaying.js:33-40 | an empty time gives "00:00 AM"; the text always ends in " AM" or " PM" |
| EventDisplay.JsRem | assets/js/Visitor/EventDisplaying.js:38 | JavaScript's `%`: the ordinary remainder for a non-negative dividend, and for a negative one the remainder of truncated division, `a - b * trunc(a / b)`, in (-b, 0] |
| EventDisplay.ClockHour | assets/js/Visitor/EventDisplaying.js:36-38 | never 0 and at most 12; a non-negative hour gives the 12-hour clock's hour, NaN gives 12 |
| EventDisplay.Clock12 | assets/js/Visitor/EventDisplaying.js:38 | the 12-hour hour lies in 1..12 and agrees with the hour modulo 12 |
| EventDisplay.FormatTimeOfClockText | assets/js/Visitor/EventDisplaying.js:33-40 | "hh:mm" renders as the 12-hour hour, the minutes copied verbatim, and PM iff the hour is at least 12 |
| EventDisplay.FormatTimeWithoutColon | assets/js/Visitor/EventDisplaying.js:35-39 | a time without a colon renders its minutes as "undefined" |
| EventDisplay.CalculateCurrentStatus | assets/js/Visitor/EventDisplaying.js:43-61 | the visitor page's status rule equals the administrator page's for every input |
| EventDisplay.Refreshed | assets/js/Visitor/EventDisplaying.js:119-123 | a Pending record is returned untouched, any other record never becomes Pending, and only the status may change |
| EventDisplay.RefreshAll | assets/js/Visitor/EventDisplaying.js:119-123 | same length; a record is Pending afterwards iff it was before, Pending records are untouched, and only statuses change |
| EventDisplay.ShownEvents | assets/js/Visitor/EventDisplaying.js:125-141 | never more events than stored, and none of them Pending |
| EventDisplay.ShownEventsMeaning | assets/js/Visitor/EventDisplaying.js:125-141 | the grid shows, in stored order, exactly the re-synced non-Pending records that match a non-empty search in name, description or location and a category other than 'all' ignoring case |
| EventDisplay.RenderEvents | assets/js/Visitor/EventDisplaying.js:111-145 | the step-by-step re-sync and filters yield the shown events and the badge for their count |
| EventDisplay.ListedCategories | assets/js/Visitor/EventDisplaying.js:70-74 | a category is listed iff it is non-empty and belongs to a non-Pending record |
| EventDisplay.CategoryOptions | assets/js/Visitor/EventDisplaying.js:77-80 | the first option is "all"/"All Category"; every other option's value is its caption lower-cased |
| EventDisplay.CategoryOptionsCaptions | assets/js/Visitor/EventDisplaying.js:70-80 | the options after "all" are the listed categories, each once, in order of first appearance |
| EventDisplay.CardFor | assets/js/Visitor/EventDisplaying.js:513-537 | registration is offered iff the event is Upcoming, and then for its id; "Happening Now" iff Active; the card is dimmed iff Archived |
| EventDisplay.CardActions | assets/js/Visitor/EventDisplaying.js:513-537 | on a shown card, "Registration Closed" and dimming both mean the event is Archived |
| EventDisplay.TicketId | assets/js/Visitor/EventDisplaying.js:403 | "HH-" followed by the code, three characters longer, with no lower-case letter after the prefix |
| EventDisplay.NewAttendee | assets/js/Visitor/EventDisplaying.js:413-425 | the attendee carries the ticket, the event's id and name, status "Registered" and the registration time |
| EventDisplay.EmailFor | assets/js/Visitor/EventDisplaying.js:434-441 | the e-mail request carries the same ticket and event name |
| EventDisplay.RegistrationAgrees | assets/js/Visitor/EventDisplaying.js:403-441 | the attendee is Registered; the attendee record and the e-mail carry the same "HH-" ticket, event name, name and address |
| EventDisplay.Registrations.constructor | assets/js/Visitor/EventDisplaying.js:429 | the attendee list starts as what `hh_attendees` holds |
| EventDisplay.Registrations.SubmitAttendeeRegistration | assets/js/Visitor/EventDisplaying.js:393-446 | for an existing event exactly one attendee is appended after the untouched earlier ones, then one e-mail request; for a missing event nothing is recorded |
| Visitor.Visibility | assets/js/Visitor/visitor.js:36-42 | one display flag per card |
| Visitor.ShownCountIsMatches | assets/js/Visitor/visitor.js:20-40 | the number of displayed cards is the number of cards matching both the search and the category |
| Visitor.NoFilterShowsAll | assets/js/Visitor/visitor.js:17-34 | an empty search with 'all' or 'All Category' shows every card |
| Visitor.CategoryHidesOthers | assets/js/Visitor/visitor.js:32-34 | any other category shows only cards whose lower-cased tag equals it |
| Visitor.CardGrid.constructor | assets/js/Visitor/visitor.js:8-14 | the page as loaded: every card displayed, no message |
| Visitor.CardGrid.HandleNoResults | assets/js/Visitor/visitor.js:82-97 | with no result one message exists (if the grid does), with results none, and never more than one |
| Visitor.CardGrid.FilterEvents | assets/js/Visitor/visitor.js:17-51 | each card is displayed iff it matches both tests, the visible count is the number displayed, the badge shows that count, and the message follows it |

## Left out

- Markup, styles, modals, toasts and dialogs are left out. This covers `createCardHTML`'s HTML, `openRegistrationModal`, the success modal, `showToast` and the SweetAlert confirmation. Only the choices they display are modelled.
- JavaScript's date parsing and the wall clock are parameters (`parse`, `now`). One `now` serves a whole call, although `save` and `render` each read the clock separately.
- Generated values are parameters: `Date.now()` as a new event's id (`freshId`), the random ticket code (`code`) and the registration timestamp.
- Timers and cross-tab notification are left out: the ten-second refresh, the `storage` listeners and the `setTimeout` choreography. `notifySync` is a counter.
- localStorage is a stored value. JSON serialisation and `JSON.parse` on corrupt data are not modelled.
- The `fetch` to the e-mail endpoint, its reply and the button reset are left out, and so are the map, date-picker and image-upload widgets. `EventDisplay.Registrations` only records the request it posts.
- The early returns when a DOM element is missing are not modelled. A missing search box reads as empty and a missing dropdown as 'all', as the code does; in `visitor.js` these are `None`.
- `updateCategoryDropdown` restores the previous selection, which is a DOM side effect and is not modelled. The image URL extraction in `save` is not modelled either: the form carries the URL.
- AdminEvents.FilterEvents: lower-casing is ASCII-only, whereas `toLowerCase` also folds non-ASCII letters. The same holds for every search and category comparison.
- AdminEvents.FormComplete: `trim` removes ASCII white space only, not every Unicode space.
- EventDisplay.FormatTimeOfClockText: `parseInt` reads decimal digits only, and integers are unbounded rather than double-precision.
- EventDisplay.Registrations.SubmitAttendeeRegistration: event ids are compared with `==` on integers. JavaScript's loose comparison of a string id with a number is not modelled.
- AdminEvents.EventsPage.OpenModal: only `editingId` is modelled; filling the form from the record is left out.
