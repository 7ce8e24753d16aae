# Event and parking booking: the seat map, the event page and the parking page

This project models the booking logic of a browser application for event tickets
and parking slots. The application is a thin client over a hosted database, and
the model covers its three places with logic of their own:

- **The seat map** (`src/components/SeatMap.tsx`).
  - It builds one seat per (section, row, column) of a sectioned layout. Each seat
    has the id `section-rowcol` and is marked booked when that id is among the
    booked ids.
  - Clicks toggle a selection of at most ten seats. Booked seats cannot be toggled.
  - Every toggle that takes effect reports the new selection and its total price.
  - A seat is drawn booked, selected or available, in that order of precedence.
- **The event page** (`src/pages/EventDetail.tsx`).
  - On load it converts a legacy `{rows, columns}` layout into three priced
    sections: Premium, Standard and Economy.
  - It gathers the booked seat ids from the event's active bookings.
  - Booking checks for a user and a non-empty selection, inserts one booking row
    and then writes back the event's `available_seats` counter.
- **The parking page** (`src/pages/Parking.tsx`).
  - It splits the slots into car and bike slots and counts the free ones of each.
  - Booking a slot needs a user, a selected slot and a vehicle number that is not
    blank. It stores the upper-cased vehicle number, marks the slot occupied and
    clears the form.

Modules:

- `Wrappers`: the `Option` type.
- `JsText`: the JavaScript string operations the pages rely on:
  - decimal rendering in template literals;
  - template literals themselves, as `Concat` of their pieces;
  - `trim`;
  - `toUpperCase`.
- `SeatMap`, `EventDetail`, `Parking`: one module per source file.

State the components hold becomes a class per page. The component methods that
change it become methods. Prices are exact `real` numbers.

Database reads come in as method parameters, for example the rows a query
returned, or the error an insert reported. Database writes go to ghost fields:

- `bookings` and `availableSeatsColumn` on the event page;
- `parkingBookings` and `slotTable` on the parking page.

`Date.now()` is a `now: nat` parameter. The signed-in user is a field holding the
user id, or nothing.

The `await` on the booking insert splits each booking into the step before it
and the step after it. The awaited follow-up `update` is not split: its outcome
is an `updateFailed` parameter of the second step.

- `EventPage.SubmitBooking` runs the guards, sets `isBooking` and issues the insert.
- `EventPage.SettleBooking` handles the insert's answer and clears `isBooking`.
- `ParkingPage.BookSlot` likewise hands the answered insert to
  `ParkingPage.FinishBooking`.

The seat enumeration has three nested `forEach` loops. `BuildSeats` is the
effect body with the loop over the sections; `PushSection` holds the loop over
one section's rows, and `PushRow` the loop over one row's columns, whose body
pushes one seat. Each is proved against the specification function `Enumerate`.

## Model

| member | source | states |
|---|---|---|
| SeatMap.SeatId | src/components/SeatMap.tsx:39 | The id `${section.name}-${row}${col}` starts with the section name and a dash and is as long as its four pieces together. Ids can collide (`SeatIdsCanCollide`), and the booked mark follows the id (`EnumerateMarksBooked`) |
| SeatMap.IdOf | src/components/SeatMap.tsx:72 | The id the price lookup rebuilds from a seat, `${s.section}-${s.row}${s.number}`, starts with the seat's section name and a dash. For an enumerated seat it is the id its booked mark was computed from (`EnumerateMarksBooked`) |
| SeatMap.SeatIdsCanCollide | src/components/SeatMap.tsx:39 | Ids are plain concatenation: row "A" column 11 and row "A1" column 1 of one section both get the id "Hall-A11", so ids are not injective |
| SeatMap.NewSeat | src/components/SeatMap.tsx:39-47 | The pushed seat carries its row, column, section name and section price. It is booked exactly when its id is in the booked list, and it starts unselected |
| SeatMap.BuildSeats | src/components/SeatMap.tsx:33-52 | The loops build exactly `Enumerate(sections, booked)`, section by section, row by row, column by column. There are sum over sections of (number of rows × number of columns) seats |
| SeatMap.PushSection | src/components/SeatMap.tsx:36-50 | One section's loop appends that section's rows in order to the seats built so far |
| SeatMap.PushRow | src/components/SeatMap.tsx:37-49 | One row's loop appends one seat per column, left to right |
| SeatMap.EnumerateLength | src/components/SeatMap.tsx:35-50 | The number of enumerated seats is the sum over sections of (number of rows × number of columns) |
| SeatMap.EnumerateAt | src/components/SeatMap.tsx:35-50 | Row-major placement: the seat for section i, row r, column c sits at index SeatCount(first i sections) + r × (number of columns) + c and describes exactly that triple |
| SeatMap.EnumerateOrigin | src/components/SeatMap.tsx:35-50 | Conversely, every enumerated seat describes some (section, row, column) of the layout |
| SeatMap.EnumerateMarksBooked | src/components/SeatMap.tsx:39-46 | Every enumerated seat is booked exactly when its own id is in the booked list |
| SeatMap.Without | src/components/SeatMap.tsx:58-59 | Deleting an id from the selection removes exactly that id and keeps the others. It shortens a duplicate-free selection by one and keeps it duplicate-free |
| SeatMap.WithoutAt | src/components/SeatMap.tsx:58-59 | In a duplicate-free selection, deleting the id at position k leaves the ids before and after it in their order |
| SeatMap.ToggledSelection | src/components/SeatMap.tsx:54-65 | A click changes nothing exactly when the seat is booked, or is unselected while ten are selected. Otherwise it flips the clicked id's membership and leaves every other id as it was |
| SeatMap.ToggleKeepsValid | src/components/SeatMap.tsx:57-65 | A toggle keeps the selection duplicate-free and at most ten long |
| SeatMap.AddThenRemove | src/components/SeatMap.tsx:57-65 | Adding a seat and clicking it again gives back the very same selection |
| SeatMap.RemoveThenAdd | src/components/SeatMap.tsx:57-65 | Removing a selected seat always leaves room to add it back. Doing so restores the same set of ids and the same size, even at the cap |
| SeatMap.FindSeat | src/components/SeatMap.tsx:72 | `seats.find` returns the first seat whose id matches, or nothing when no seat matches |
| SeatMap.PriceOf | src/components/SeatMap.tsx:72-73 | The fallback `seat?.price` or 0: the price of the first seat whose id matches, and 0 when no seat matches |
| SeatMap.TotalPrice | src/components/SeatMap.tsx:71-74 | The `reduce` adds the prices of the selected ids left to right. It is never negative when no seat has a negative price, and it is 0 when no selected id matches a seat. Its other properties are `TotalPriceAppend`, `TotalPriceWithout` and `ToggleMovesTotal` |
| SeatMap.TotalPriceAppend | src/components/SeatMap.tsx:71-74 | The price fold over a concatenation of ids is the sum of the folds over the parts |
| SeatMap.TotalPriceWithout | src/components/SeatMap.tsx:71-74 | Removing a selected id lowers the total by exactly that id's price |
| SeatMap.ToggleMovesTotal | src/components/SeatMap.tsx:67-75 | A toggle that takes effect moves the reported total by exactly the clicked seat's price, down on removal and up on addition. An id with no seat counts 0 |
| SeatMap.StatusOf | src/components/SeatMap.tsx:78-82 | A seat is drawn booked iff it is booked, selected iff unbooked and selected, and available iff unbooked and unselected |
| SeatMap.ToggleFlipsStatus | src/components/SeatMap.tsx:54-82 | A toggle that takes effect is on a seat not drawn booked, and it flips that seat between available and selected |
| SeatMap.SeatMapState.constructor | src/components/SeatMap.tsx:30-31 | The component starts with no seats and an empty selection |
| SeatMap.SeatMapState.Refresh | src/components/SeatMap.tsx:33-52 | The layout effect rebuilds the seats as `Enumerate(sections, booked)` and leaves the selection untouched |
| SeatMap.SeatMapState.Toggle | src/components/SeatMap.tsx:54-76 | When the click changes nothing, there is no report and the state stays. Otherwise the selection becomes the toggled one, the report carries it with its total price, and the selection stays valid |
| EventDetail.IsLegacyLayout | src/pages/EventDetail.tsx:64-65 | The guard of the conversion: an object with `rows` and `columns` and without `sections`. Its effect is stated by `ConvertLayout` and `ConvertLayoutIdempotent` |
| EventDetail.ConvertLayout | src/pages/EventDetail.tsx:62-97 | Only an object with `rows` and `columns` and no `sections` is converted; anything else passes through. The result is three sections sharing the columns. Premium ++ Standard ++ Economy equals the old rows; Premium and Standard have floor(n/3) rows, and Economy has between that and that plus 2. Prices are 1.5×, 1× and 0.7× the event price |
| EventDetail.ConvertLayoutIdempotent | src/pages/EventDetail.tsx:63-65 | A converted layout has sections, so converting again leaves it as it is |
| EventDetail.ConvertedSeatCount | src/pages/EventDetail.tsx:69-92 | The three sections seat exactly (number of rows × number of columns). At a non-negative event price, Premium ≥ Standard ≥ Economy |
| EventDetail.Stringify | src/pages/EventDetail.tsx:113 | `String(s)` gives back a string element unchanged and renders a number in decimal |
| EventDetail.StringifyAll | src/pages/EventDetail.tsx:113 | `seats.map(String)` keeps the length and stringifies element by element |
| EventDetail.RowIds | src/pages/EventDetail.tsx:111-115 | A booking whose `seats` is not an array contributes no ids. An array contributes one id per element, the k-th id being `String` of the k-th element |
| EventDetail.FlattenBooked | src/pages/EventDetail.tsx:110-116 | The `flatMap` over the fetched rows: every id a row contributes is booked. Order and the converse are `FlattenBookedAppend` and `FlattenBookedMembership` |
| EventDetail.FlattenBookedAppend | src/pages/EventDetail.tsx:110-116 | Flattening keeps row order: it distributes over concatenation of the fetched rows |
| EventDetail.FlattenBookedMembership | src/pages/EventDetail.tsx:110-116 | An id is booked exactly when some fetched row contributes it |
| EventDetail.StoredSeats | src/pages/EventDetail.tsx:146 | Seat ids are stored as an array of JSON strings, one per id, in order |
| EventDetail.StoredSeatsAreBooked | src/pages/EventDetail.tsx:109-117 | Seat ids written by a booking come back verbatim. Once that row is fetched, each of them is booked |
| EventDetail.BookedSeatRefused | src/pages/EventDetail.tsx:109-117 | In the seat map built from the fetched ids, a seat of a stored booking is drawn booked and cannot be toggled |
| EventDetail.EventQrCode | src/pages/EventDetail.tsx:148 | The ticket code starts with `EVENT-` and is as long as its pieces together. That it names its event and time is `EventQrCodeInjective` |
| EventDetail.EventQrCodeInjective | src/pages/EventDetail.tsx:148 | The code `EVENT-${id}-${now}` determines both the event id and the timestamp |
| EventDetail.SubmitDecision | src/pages/EventDetail.tsx:121-150 | Without a user, login is required. Without selected seats, nothing is booked. Otherwise the insert carries the user, the event, the selected seats in order, the displayed total, the ticket code and status "pending" |
| EventDetail.RemainingSeats | src/pages/EventDetail.tsx:162 | The written counter is the loaded event's `available_seats` (0 without an event) minus the number of booked seats. It never exceeds the old value and has no lower bound |
| EventDetail.RemainingSeatsCanGoNegative | src/pages/EventDetail.tsx:162 | Booking more seats than the counter shows drives it below zero |
| EventDetail.StaleCounterLosesDecrement | src/pages/EventDetail.tsx:159-163 | Two bookings settled from the same loaded event each write, through `CounterAfter`, that copy's count minus their own seats. The first booking's decrement is lost |
| EventDetail.CounterAfter | src/pages/EventDetail.tsx:160-163 | The update changes only the event's own row, and only when that row exists and the update succeeds |
| EventDetail.EventPage.constructor | src/pages/EventDetail.tsx:28-38 | The page starts loading, with no event, no booked or selected seats, a zero total and no booking in flight |
| EventDetail.EventPage.ReceiveEvent | src/pages/EventDetail.tsx:47-100 | A fetched row is kept with its layout converted. On an error the event stays. Loading ends either way |
| EventDetail.EventPage.ReceiveBookedSeats | src/pages/EventDetail.tsx:102-119 | When rows come back, the booked ids become their flattening; otherwise they stay |
| EventDetail.EventPage.ReceiveSelection | src/pages/EventDetail.tsx:285-286 | The seat map's callbacks set the selected seats and the total price |
| EventDetail.EventPage.SubmitBooking | src/pages/EventDetail.tsx:121-150 | The outcome is `SubmitDecision`. A submitted insert holds 1 to 10 distinct seats and sets `isBooking`; a refused one changes nothing |
| EventDetail.EventPage.SettleBooking | src/pages/EventDetail.tsx:152-172 | A failed insert reports its message and writes nothing. A successful one appends exactly the submitted row and writes the counter from the captured event. `isBooking` ends either way |
| Parking.SlotsOfType | src/pages/Parking.tsx:95-96 | `carSlots`/`bikeSlots` hold exactly the slots of that type and are no longer than `slots` |
| Parking.FreeSlots | src/pages/Parking.tsx:97-98 | The availability filter holds exactly the free slots |
| Parking.AvailableCount | src/pages/Parking.tsx:97-98 | `availableCars`/`availableBikes` never exceed the number of slots of that type |
| Parking.SlotsOfTypeAppend | src/pages/Parking.tsx:95-96 | The type filter keeps the order of the slots: it distributes over concatenation |
| Parking.FreeSlotsAppend | src/pages/Parking.tsx:97-98 | The availability filter keeps order likewise |
| Parking.CarsAndBikesPartition | src/pages/Parking.tsx:95-96 | Car slots and bike slots partition the slots: their lengths add up to the number of slots and their multisets to the slots' multiset |
| Parking.AvailableCountsAddUp | src/pages/Parking.tsx:95-98 | The free car count plus the free bike count is the number of free slots |
| Parking.AvailableCountCons | src/pages/Parking.tsx:97-98 | The free count of a type, peeled one slot at a time |
| Parking.AvailableCountIsFreeOfType | src/pages/Parking.tsx:97-98 | Filtering by type, then by availability, and taking the length equals a direct count of the free slots of that type |
| Parking.MarkUnavailable | src/pages/Parking.tsx:80-83 | The update marks every row with the slot's id occupied and changes nothing else |
| Parking.MarkUnavailableCount | src/pages/Parking.tsx:80-83 | With unique ids, occupying a free slot lowers its type's free count by exactly one and leaves the other type's count unchanged |
| Parking.ParkingQrCode | src/pages/Parking.tsx:70 | The ticket code starts with `PARK-` and is as long as its pieces together. That it names its slot and time is `ParkingQrCodeInjective` |
| Parking.CanAttempt | src/pages/Parking.tsx:62 | A booking is attempted exactly when there is a user, a selected slot and a vehicle number that is not all whitespace |
| Parking.ParkingQrCodeInjective | src/pages/Parking.tsx:70 | The code `PARK-${slot_number}-${now}` determines both the slot number and the timestamp |
| Parking.ParkingRequest | src/pages/Parking.tsx:64-71 | The insert carries the user, the slot id and the ticket code. The vehicle number is `ToUpper` of the typed one and is not trimmed: same length, each a-z replaced by its capital, no a-z left, every other character as typed, and blank exactly when the input was |
| Parking.ParkingPage.constructor | src/pages/Parking.tsx:22-28 | The page starts loading, with no slots, an empty vehicle number and no selected slot |
| Parking.ParkingPage.ReceiveSlots | src/pages/Parking.tsx:49-59 | Rows fetched without error replace the slots; otherwise they stay. Loading ends either way |
| Parking.ParkingPage.SelectSlot | src/pages/Parking.tsx:168-169 | A click on a free slot selects it |
| Parking.ParkingPage.EnterVehicleNumber | src/pages/Parking.tsx:193 | Typing sets the vehicle number |
| Parking.ParkingPage.BookSlot | src/pages/Parking.tsx:61-72 | No booking is attempted exactly when the user, the selected slot or a non-blank vehicle number is missing, and then nothing changes. A failed insert changes nothing. A successful one stores exactly the request for the selected slot, which was free when selected |
| Parking.ParkingPage.FinishBooking | src/pages/Parking.tsx:73-92 | On an insert error nothing changes. On success the booking is appended, the slot is marked occupied unless that update fails, and the vehicle number and selected slot are cleared |
| JsText.NatToString | src/pages/EventDetail.tsx:148 | `${Date.now()}` renders a non-negative integer as a non-empty string of decimal digits, starting with 0 only for 0. It reads back by `NatToStringRoundTrip` |
| JsText.IntToString | src/components/SeatMap.tsx:39 | `${col}` is non-empty, with a leading `-` exactly when the integer is negative. The decimal digits that follow are `IntToStringRoundTrip` |
| JsText.IntToStringRoundTrip | src/components/SeatMap.tsx:39 | After the sign, the rendering of an integer is all decimal digits, and they read back as its absolute value |
| JsText.NatToStringRoundTrip | src/pages/EventDetail.tsx:148 | The decimal rendering of a timestamp reads back as the same number |
| JsText.DashNumberInjective | src/pages/Parking.tsx:70 | A string `${x}-${t}` determines x and t, because t's digits follow the last dash |
| JsText.Trim | src/pages/Parking.tsx:62 | `trim()` is an infix of the string with only whitespace cut off before and after it. It is empty exactly when the string is all JavaScript whitespace, and otherwise neither starts nor ends with whitespace |
| JsText.ToUpper | src/pages/Parking.tsx:69 | Upper-casing keeps the length, leaves no a-z, shifts a-z by 32 and keeps every other character |
| JsText.ToUpperIdempotent | src/pages/Parking.tsx:69 | Upper-casing twice is upper-casing once |
| JsText.ToUpperKeepsBlankness | src/pages/Parking.tsx:62-69 | The stored upper-cased vehicle number is blank exactly when the typed one is |

## Left out

- Database I/O is not modelled:
  - the select, insert and update calls;
  - the realtime channel of the parking page and its re-fetch;
  - server-side ordering and the `booking_status = 'active'` filter.
  Results are parameters and writes are ghost fields.
- The result of the follow-up update is ignored by the event page (the seat
  counter) and by the parking page (the slot's `is_available`). It appears only
  as an `updateFailed` parameter.
- Concurrency is not modelled. No interleaving of two pages is modelled beyond
  `StaleCounterLosesDecrement`. The code has no exclusive reservation, hold,
  expiry, cancellation or conflict check, and the model has none either.
- Floating point is not modelled: prices are exact rationals, so the 1.5 and 0.7
  multipliers and the price sums have no IEEE rounding, and `toFixed(2)` display
  is omitted.
- Toasts, navigation, JSX rendering, section colours, `date-fns` formatting and
  the QR image are not modelled.
- The render's `seats.find` for each button is not modelled. The toggled seat is a
  parameter of `SeatMapState.Toggle`, which also receives its id.
- A layout reaching the seat map without `sections` makes the component throw.
  That case is not modelled: `SeatMapState.Refresh` takes the sections.
- `rows`/`columns` are cast without a check in the legacy conversion. The model
  takes them to be a string array and a number array.
- JsText.ToUpper: maps only ASCII a-z. JavaScript's `toUpperCase` also maps
  non-ASCII letters, and some letters expand to two characters.
- JsText.IntToString: renders integers in plain decimal. JavaScript uses
  exponent notation from 1e21 and also renders fractions; seat columns and
  timestamps are taken to be integers below that.
- EventDetail.Stringify: JSON numbers are integers. Non-integer numbers in a
  booking's `seats` are not rendered.
- EventDetail.EventPage.SubmitBooking: requires that no booking is in flight.
  The button is disabled while `isBooking`; the handler itself has no such check.
- EventDetail.EventPage.ReceiveSelection: requires a valid selection, which is
  what `SeatMapState.Toggle` guarantees the seat map reports.
- Parking.ParkingPage.SelectSlot: requires a free slot, since the buttons of
  occupied slots are disabled.
- `src/pages/Profile.tsx`, `src/pages/Events.tsx`, `src/pages/Auth.tsx`,
  `src/pages/Index.tsx` and `src/components/Navbar.tsx` are not part of this
  model. They fetch and display data or hold static markup.
