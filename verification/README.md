# Bus-ticket storefront: seat picker, bus selection and search form

This project models the logic of a client-side bus-ticket booking page:

- **Seat picker** (`SeatSelection` module). It builds a fixed seat map of rows A to E. Each row holds positions 1, 2, 4, 5 and 6; position 3 is the gangway. A seat is a window seat (1, 6), a middle seat (2, 5) or an aisle seat (4). Window seats cost the bus's base price plus 50; the others cost the base price. Clicking an available seat flips its selection. The fare basket lists the selected seats in seat-map order and sums their prices. The "Book" button is disabled while nothing is selected. Otherwise it reports the seat count and the fare plus a service fee of 25.
- **Bus listing** (`BusListing` module). It holds a mock catalogue of four buses. At most one bus has its seat picker open (`selectedBus`). Clicking a bus's button opens its picker, or closes it if it was already open. A booking request with a positive seat count is confirmed and closes the picker. Any other request is an error and leaves the picker as it was.
- **Search page** (`SearchPage` module). It offers the list of cities of the popular routes, de-duplicated and sorted. The search button shows the bus listing only when a source, a destination and a date are all present, and once the `searchClicked` flag is set nothing clears it (the flag only: the date can still be cleared afterwards). A popular route's "View Buses" button fills in the source and destination.

Pure parts (the seat map, toggling, the basket, the bus lookup, the city list) are functions with lemmas. Parts that change component state are classes whose methods tie the new state to those functions: `SeatPicker` for the seat list, `Listing` for `selectedBus`, `Page` for the search form. Seat generation is a method with the source's nested loop (including the skip of position 3), proved equal to the `Layout` function.

The code throws no exceptions and validates nothing. Clicking an unknown seat id changes nothing, seats are generated and never checked, and the service fee is the constant 25. Its one error branch is the toast for a booking with no seats (`Rejected`). The seat picker never reaches it, because its button is disabled while nothing is selected (`PickerBookingConfirms`).

## Model

| member | source | states |
|---|---|---|
| `SeatSelection.Layout` | src/components/SeatSelection.tsx:25-64 | 25 seats in row-major order, rows A–E at positions 1,2,4,5,6; position 3 never appears; type by position (1/6 window, 2/5 middle, 4 aisle); price base+50 for window, base otherwise; id is busId-"-"-number; every seat unselected; availability as drawn |
| `SeatSelection.GenerateSeats` | src/components/SeatSelection.tsx:25-64 | the nested row/position loop with the `continue` on position 3 pushes exactly the `Layout` seat list |
| `SeatSelection.LayoutIdsDistinct` | src/components/SeatSelection.tsx:52-59 | generated seat ids are pairwise distinct |
| `SeatSelection.LayoutInvariant` | src/components/SeatSelection.tsx:52-59 | the generated map satisfies "selected implies available" and has an empty basket |
| `SeatSelection.ToggleSeat` | src/components/SeatSelection.tsx:68-74 | length, order, ids, numbers, prices, types and availability are kept; `isSelected` flips exactly on seats whose id matches and that are available |
| `SeatSelection.ToggleNoMatch` | src/components/SeatSelection.tsx:69-73 | an unknown id, or the id of an unavailable seat, leaves the list unchanged |
| `SeatSelection.ToggleInvolution` | src/components/SeatSelection.tsx:68-74 | toggling the same id twice restores the original list |
| `SeatSelection.TogglePreservesInvariant` | src/components/SeatSelection.tsx:69-72 | one toggle preserves "selected implies available" and distinct ids |
| `SeatSelection.ToggleAllKeepsInvariant` | src/components/SeatSelection.tsx:66-74 | after any sequence of clicks the invariant holds, every seat is the same seat apart from selection, and unavailable seats are untouched |
| `SeatSelection.SelectedSeats` | src/components/SeatSelection.tsx:76 | the result holds exactly the selected seats of the list (both directions), and is no longer than the list |
| `SeatSelection.SelectedSeatsConcat` | src/components/SeatSelection.tsx:76 | selection distributes over concatenation, so the basket keeps seat-map order |
| `SeatSelection.TotalIsChargedSum` | src/components/SeatSelection.tsx:77 | the total equals the per-seat sum of the price of each selected seat |
| `SeatSelection.NoneSelectedMeansEmptyBasket` | src/components/SeatSelection.tsx:76-77 | with no seat selected the basket is empty and the total is 0 |
| `SeatSelection.ChargedSumAt` | src/components/SeatSelection.tsx:77 | two seat lists differing at one seat differ in fare only by that seat's charge |
| `SeatSelection.ToggleChangesTotalBySeatPrice` | src/components/SeatSelection.tsx:68-77 | clicking an available seat adds its price to the total if it was free and subtracts it if it was selected |
| `SeatSelection.TotalByCategory` | src/components/SeatSelection.tsx:50 | for seats priced by the layout rule, total = base price × selected seats + 50 × selected window seats |
| `SeatSelection.SumByCategory` | src/components/SeatSelection.tsx:50 | the same identity for any list of seats priced by the rule |
| `SeatSelection.BookNow` | src/components/SeatSelection.tsx:196-199 | booking is disabled exactly when no seat is selected; otherwise it reports the (positive) number of selected seats and total + 25 |
| `SeatSelection.SeatPicker.constructor` | src/components/SeatSelection.tsx:66 | the picker starts with the generated layout and its invariants |
| `SeatSelection.SeatPicker.ToggleSeatSelection` | src/components/SeatSelection.tsx:68-74 | the seat list is replaced by the toggled list; the invariant (25 seats, distinct ids, selected implies available, layout pricing) is kept |
| `BusListing.CatalogIdsDistinct` | src/components/BusListing.tsx:35-84 | the four mock buses have distinct ids |
| `BusListing.FindBus` | src/components/BusListing.tsx:95 | finds a bus iff something is selected and some bus has that id; the bus found is the first with that id |
| `BusListing.FindBusById` | src/components/BusListing.tsx:95 | with distinct ids, looking up a bus's id yields that bus |
| `BusListing.ToggledSelection` | src/components/BusListing.tsx:86-92 | the selection becomes none exactly when the clicked id was selected, and otherwise the clicked id |
| `BusListing.ToggleTwiceCloses` | src/components/BusListing.tsx:86-92 | two clicks on a bus that was not open leave no bus open |
| `BusListing.BookOutcomeOf` | src/components/BusListing.tsx:94-110 | confirmed iff seatCount > 0, then the selection is cleared and the count and amount are passed on, naming the bus the lookup finds (and no bus when it finds none); otherwise an error with the selection unchanged |
| `BusListing.PickerBookingConfirms` | src/components/BusListing.tsx:178-185 | a booking the open bus's seat picker lets through is always confirmed, names that bus and closes the picker |
| `BusListing.Listing.constructor` | src/components/BusListing.tsx:31 | no bus is selected initially |
| `BusListing.Listing.ToggleBusSelection` | src/components/BusListing.tsx:86-92 | the new selection is `ToggledSelection` of the old one |
| `BusListing.Listing.HandleBookNow` | src/components/BusListing.tsx:94-110 | outcome and new selection are those of `BookOutcomeOf` |
| `SearchPage.LessIrreflexive` | src/pages/Index.tsx:31 | the string order used by the sort is irreflexive |
| `SearchPage.LessTransitive` | src/pages/Index.tsx:31 | the string order is transitive |
| `SearchPage.LessTotal` | src/pages/Index.tsx:31 | any two different strings are ordered one way or the other |
| `SearchPage.Endpoints` | src/pages/Index.tsx:31 | the flattened list holds exactly the routes' sources and destinations |
| `SearchPage.Dedup` | src/pages/Index.tsx:31 | the de-duplicated list has no duplicates and the same elements as its input |
| `SearchPage.Insert` | src/pages/Index.tsx:31 | insertion adds exactly one occurrence of the value (multiset) |
| `SearchPage.Sort` | src/pages/Index.tsx:31 | sorting is a permutation (same multiset) |
| `SearchPage.InsertStrictlySorted` | src/pages/Index.tsx:31 | inserting a new value into a strictly ascending list keeps it strictly ascending |
| `SearchPage.SortStrictlySorted` | src/pages/Index.tsx:31 | sorting a duplicate-free list gives a strictly ascending list |
| `SearchPage.LocationsCharacterised` | src/pages/Index.tsx:31 | every route source and destination is a location, every location is one of them, and the locations are strictly ascending with no duplicates |
| `SearchPage.StrictlySortedUnique` | src/pages/Index.tsx:31 | two strictly ascending lists with the same elements are equal, so the sort algorithm chosen does not matter |
| `SearchPage.CatalogueCitiesSorted` | src/pages/Index.tsx:23-31 | the six catalogue cities are listed in ascending order |
| `SearchPage.CatalogueEndpoints` | src/pages/Index.tsx:23-31 | the five routes' endpoints are exactly the six catalogue cities |
| `SearchPage.CatalogueLocations` | src/pages/Index.tsx:23-31 | the pickers offer Bangalore, Bhatkal, Chikkamagaluru, Goa, Hassan, Mantralaya in that order |
| `SearchPage.Step` | src/pages/Index.tsx:33-37 | `searchClicked` never goes back to false, and changes exactly on a search with source, destination and date present; a search touches nothing else; View Buses sets only source and destination |
| `SearchPage.SearchClickedStays` | src/pages/Index.tsx:33-37 | once `searchClicked` is set it stays set after any sequence of actions (a statement about the flag, not about the date) |
| `SearchPage.SearchClickedNeedsReadySearch` | src/pages/Index.tsx:33-37 | if the listing becomes shown, some search in the sequence was issued while source, destination and date were all present |
| `SearchPage.Page.constructor` | src/pages/Index.tsx:18-21 | empty source and destination, no date, listing hidden |
| `SearchPage.Page.SetSource` | src/pages/Index.tsx:61 | the From picker sets only the source |
| `SearchPage.Page.SetDestination` | src/pages/Index.tsx:77 | the To picker sets only the destination |
| `SearchPage.Page.SetDate` | src/pages/Index.tsx:110 | the calendar sets only the date |
| `SearchPage.Page.HandleSearch` | src/pages/Index.tsx:33-37 | the search button's effect is `Step` with a search |
| `SearchPage.Page.ViewBusesClicked` | src/pages/Index.tsx:156-159 | a popular route's button sets source and destination to that route and leaves date and `searchClicked` unchanged |

## Left out

- Seat availability is drawn with `Math.random()` in the source; here it is an input sequence of 25 booleans, one per seat in generation order.
- The display-only seat filtering (`slice(0, 20)`, `slice(20)` and the hiding of numbers ending in 3) is not modelled; the layout lemma shows no seat number ends in 3, so the hide never applies.
- Rendering, styling and toast texts are not modelled; a toast is represented by the `BookOutcome` value (its bus name is `None` where the text would show `undefined`).
- Date formatting with date-fns, the arrival-date display, the calendar's disabling of past dates (it reads the wall clock) and `window.scrollTo` are not modelled. A date is an opaque value whose presence is all the page tests.
- Bus ratings (floating point) and the displayed `availableSeats` counts are left out of the `Bus` record: neither feeds any logic.
- Prices and amounts are unbounded integers; the source's JavaScript numbers hold these small integer values exactly.
- The sort compares strings by character code; JavaScript compares UTF-16 code units, which agree on the city names. The source's engine sort algorithm is replaced by an insertion sort; `StrictlySortedUnique` shows the result does not depend on the algorithm.
- SearchClickedStays: speaks of the `searchClicked` flag only. The calendar can deselect the date after a search (`SetDate(None)`), and the source then still renders the listing, formatting a missing date through an `as Date` cast (src/pages/Index.tsx:174, src/components/BusListing.tsx:136 and 151). The model does not keep "listing shown implies date present", and that rendering is not modelled.
- Re-generation of the seat map each time a bus's picker is reopened is a new `SeatPicker` object, not modelled as a transition.
- src/components/Navbar.tsx, src/components/Footer.tsx, src/components/BusImages.tsx and src/pages/NotFound.tsx are not part of this model: they are static markup, image links and a console message.
