/**
 * The event page (src/pages/EventDetail.tsx): the loaded event with its legacy
 * seat layout converted into three priced sections, the booked seat ids gathered
 * from the event's active bookings, and the booking of the selected seats with
 * the write-back of the event's available-seat counter.
 */
module EventDetail {
  import opened Wrappers
  import opened JsText
  import opened SeatMap

  // ---------------------------------------------------------------------------
  // Seat layouts

  /**
   * The `seat_layout` column as the page sees it: either no object at all (null or
   * a primitive) or an object, recording which of the keys `rows`, `columns` and
   * `sections` it has and what they hold.
   */
  datatype RawLayout =
    | NotAnObject
    | LayoutObject(rows: Option<seq<string>>, columns: Option<seq<int>>, sections: Option<seq<Section>>)

  /** A layout in the old format: an object with `rows` and `columns` but no `sections`. */
  predicate IsLegacyLayout(layout: RawLayout) {
    layout.LayoutObject? && layout.rows.Some? && layout.columns.Some? && layout.sections.None?
  }

  /**
   * The conversion applied on load. A legacy layout of n rows becomes three sections
   * sharing its columns: the first floor(n/3) rows are Premium at 1.5 times the event
   * price, the next floor(n/3) Standard at the event price, the rest Economy at 0.7
   * times it. Any other layout passes through unchanged.
   */
  function ConvertLayout(layout: RawLayout, price: real): (r: RawLayout)
    ensures !IsLegacyLayout(layout) ==> r == layout
    ensures IsLegacyLayout(layout) ==>
              var rows := layout.rows.value;
              var columns := layout.columns.value;
              && r.LayoutObject? && r.rows.None? && r.columns.None?
              && r.sections.Some? && |r.sections.value| == 3
              && var premium := r.sections.value[0];
              && var standard := r.sections.value[1];
              && var economy := r.sections.value[2];
              && premium.name == "Premium" && premium.price == price * 1.5
              && standard.name == "Standard" && standard.price == price
              && economy.name == "Economy" && economy.price == price * 0.7
              && premium.columns == columns && standard.columns == columns && economy.columns == columns
              && premium.rows + standard.rows + economy.rows == rows
              && |premium.rows| == |standard.rows| == |rows| / 3
              && |premium.rows| <= |economy.rows| <= |premium.rows| + 2
  {
    if IsLegacyLayout(layout) then
      var rows := layout.rows.value;
      var columns := layout.columns.value;
      var midRow := |rows| / 3;
      assert rows[..midRow] + rows[midRow..midRow * 2] + rows[midRow * 2..] == rows;
      LayoutObject(None, None, Some([
        Section("Premium", rows[..midRow], columns, price * 1.5),
        Section("Standard", rows[midRow..midRow * 2], columns, price),
        Section("Economy", rows[midRow * 2..], columns, price * 0.7)
      ]))
    else
      layout
  }

  /** Converting twice changes nothing more: a converted layout has sections and is not legacy. */
  lemma ConvertLayoutIdempotent(layout: RawLayout, price: real, laterPrice: real)
    ensures ConvertLayout(ConvertLayout(layout, price), laterPrice) == ConvertLayout(layout, price)
  {
  }

  /**
   * A converted legacy layout seats exactly as many as the old one, |rows| * |columns|,
   * and at a non-negative event price Premium costs at least Standard, which costs at
   * least Economy.
   */
  lemma ConvertedSeatCount(layout: RawLayout, price: real)
    requires IsLegacyLayout(layout)
    ensures var sections := ConvertLayout(layout, price).sections.value;
            && SeatCount(sections) == |layout.rows.value| * |layout.columns.value|
            && (price >= 0.0 ==> sections[0].price >= sections[1].price >= sections[2].price)
  {
    var sections := ConvertLayout(layout, price).sections.value;
    var width := |layout.columns.value|;
    var p, s, e := |sections[0].rows|, |sections[1].rows|, |sections[2].rows|;
    assert SeatCount(sections[..1]) == p * width by {
      assert sections[..1][..0] == [];
    }
    assert SeatCount(sections[..2]) == p * width + s * width by {
      assert sections[..2][..1] == sections[..1];
    }
    assert SeatCount(sections) == p * width + s * width + e * width by {
      assert sections[..3][..2] == sections[..2] && sections[..3] == sections;
    }
    assert |layout.rows.value| == p + s + e by {
      assert |sections[0].rows + sections[1].rows + sections[2].rows| == p + s + e;
    }
    assert p * width + s * width + e * width == (p + s + e) * width;
  }

  // ---------------------------------------------------------------------------
  // Booked seats

  /** A value stored in the `seats` JSON column of a booking. */
  datatype JsonValue =
    | JNull
    | JBool(b: bool)
    | JNumber(n: int)
    | JString(s: string)
    | JArray(items: seq<JsonValue>)
    | JObject

  /** JavaScript's `String(v)` on a parsed JSON value (numbers are integers here). */
  function Stringify(v: JsonValue): (s: string)
    ensures v.JString? ==> s == v.s
    ensures v.JNumber? ==> s == IntToString(v.n)
    decreases v, 1
  {
    match v
    case JNull => "null"
    case JBool(b) => if b then "true" else "false"
    case JNumber(n) => IntToString(n)
    case JString(s) => s
    case JArray(items) => JoinElements(items)
    case JObject => "[object Object]"
  }

  /** `items.join(",")`: null elements contribute the empty string. */
  function JoinElements(items: seq<JsonValue>): string
    decreases items, 0
  {
    if items == [] then ""
    else
      var first := if items[0].JNull? then "" else Stringify(items[0]);
      if |items| == 1 then first else first + "," + JoinElements(items[1..])
  }

  /** The `seats` column of one booking row: an array, or anything else. */
  datatype SeatsColumn = SeatsArray(items: seq<JsonValue>) | NotAnArray

  datatype BookingSeatsRow = BookingSeatsRow(seats: SeatsColumn)

  /** `seats.map(s => String(s))`. */
  function StringifyAll(items: seq<JsonValue>): (r: seq<string>)
    ensures |r| == |items|
    ensures forall k :: 0 <= k < |items| ==> r[k] == Stringify(items[k])
  {
    if items == [] then [] else [Stringify(items[0])] + StringifyAll(items[1..])
  }

  /** The ids one booking row contributes: its stringified seats, or none when they are not an array. */
  function RowIds(row: BookingSeatsRow): (r: seq<string>)
    ensures row.seats.NotAnArray? ==> r == []
    ensures row.seats.SeatsArray? ==> |r| == |row.seats.items|
    ensures row.seats.SeatsArray? ==> forall k :: 0 <= k < |r| ==> r[k] == Stringify(row.seats.items[k])
  {
    match row.seats
    case SeatsArray(items) => StringifyAll(items)
    case NotAnArray => []
  }

  /** The `flatMap` over the fetched rows: each row's ids, in row order. */
  function FlattenBooked(rows: seq<BookingSeatsRow>): (r: seq<string>)
    ensures forall i, id :: 0 <= i < |rows| && id in RowIds(rows[i]) ==> id in r
    decreases |rows|
  {
    if rows == [] then [] else RowIds(rows[0]) + FlattenBooked(rows[1..])
  }

  /** Flattening distributes over the concatenation of fetched rows, keeping their order. */
  lemma {:induction false} FlattenBookedAppend(a: seq<BookingSeatsRow>, b: seq<BookingSeatsRow>)
    ensures FlattenBooked(a + b) == FlattenBooked(a) + FlattenBooked(b)
    decreases |a|
  {
    if a == [] {
      assert a + b == b;
    } else {
      assert (a + b)[1..] == a[1..] + b;
      FlattenBookedAppend(a[1..], b);
    }
  }

  /** An id is booked exactly when some fetched row contributes it. */
  lemma {:induction false} FlattenBookedMembership(rows: seq<BookingSeatsRow>, id: string)
    ensures id in FlattenBooked(rows) <==> exists i :: 0 <= i < |rows| && id in RowIds(rows[i])
    decreases |rows|
  {
    if rows != [] {
      FlattenBookedMembership(rows[1..], id);
      if id in FlattenBooked(rows[1..]) {
        var i :| 0 <= i < |rows[1..]| && id in RowIds(rows[1..][i]);
        assert id in RowIds(rows[i + 1]);
      }
      if exists i :: 0 <= i < |rows| && id in RowIds(rows[i]) {
        var i :| 0 <= i < |rows| && id in RowIds(rows[i]);
        if i > 0 {
          assert rows[1..][i - 1] == rows[i];
        }
      }
    }
  }

  /** How a list of seat ids is stored in the `seats` column: an array of strings. */
  function StoredSeats(ids: seq<string>): (r: SeatsColumn)
    ensures r.SeatsArray? && |r.items| == |ids|
    ensures forall k :: 0 <= k < |ids| ==> r.items[k] == JString(ids[k])
  {
    SeatsArray(seq(|ids|, k requires 0 <= k < |ids| => JString(ids[k])))
  }

  /**
   * Seat ids written by a booking come back verbatim: once the row holding them is
   * among the fetched rows, each of them is booked.
   */
  lemma StoredSeatsAreBooked(rows: seq<BookingSeatsRow>, i: nat, ids: seq<string>)
    requires i < |rows| && rows[i].seats == StoredSeats(ids)
    ensures RowIds(rows[i]) == ids
    ensures forall id :: id in ids ==> id in FlattenBooked(rows)
  {
    assert RowIds(rows[i]) == ids;
    forall id | id in ids
      ensures id in FlattenBooked(rows)
    {
      FlattenBookedMembership(rows, id);
    }
  }

  /**
   * A seat of a stored booking cannot be selected again: in the seat map built from
   * the fetched booked ids it is drawn booked and a click on it changes nothing.
   */
  lemma BookedSeatRefused(sections: seq<Section>, rows: seq<BookingSeatsRow>, i: nat, ids: seq<string>,
                          t: nat, selected: seq<string>)
    requires i < |rows| && rows[i].seats == StoredSeats(ids)
    requires t < |Enumerate(sections, FlattenBooked(rows))|
    requires IdOf(Enumerate(sections, FlattenBooked(rows))[t]) in ids
    ensures var seat := Enumerate(sections, FlattenBooked(rows))[t];
            && seat.isBooked
            && StatusOf(seat, IdOf(seat), selected) == Booked
            && ToggledSelection(selected, IdOf(seat), seat.isBooked).None?
  {
    StoredSeatsAreBooked(rows, i, ids);
    EnumerateMarksBooked(sections, FlattenBooked(rows), t);
  }

  // ---------------------------------------------------------------------------
  // Booking

  /** The columns of an `events` row the page uses. */
  datatype EventRow = EventRow(id: string, price: real, availableSeats: int, seatLayout: RawLayout)

  /** The outcome of the event query: an error, or the single row. */
  datatype EventFetch = EventFetchFailed | EventFetched(row: EventRow)

  /** A row inserted into `bookings`. */
  datatype BookingInsert = BookingInsert(userId: string, eventId: string, seats: seq<string>,
                                         totalAmount: real, qrCode: string, paymentStatus: string)

  /** A booking whose insert is in flight, with the event as the page saw it when the button was pressed. */
  datatype PendingBooking = PendingBooking(request: BookingInsert, capturedEvent: Option<EventRow>)

  datatype SubmitOutcome = LoginRequired | NoSeatsSelected | Submitted(request: BookingInsert)

  datatype SettleOutcome = BookingFailed(message: string) | BookingSucceeded(seatCount: nat)

  /** The ticket code `EVENT-${id}-${Date.now()}`. */
  function EventQrCode(eventId: string, now: nat): (r: string)
    ensures |r| == 7 + |eventId| + |NatToString(now)|
    ensures r[..6] == "EVENT-"
  {
    ConcatFour("EVENT-", eventId, "-", NatToString(now));
    Concat(["EVENT-", eventId, "-", NatToString(now)])
  }

  /** A ticket code names its event and its issue time: no two bookings made at different times or for different events share one. */
  lemma EventQrCodeInjective(eventId1: string, now1: nat, eventId2: string, now2: nat)
    requires EventQrCode(eventId1, now1) == EventQrCode(eventId2, now2)
    ensures eventId1 == eventId2 && now1 == now2
  {
    ConcatFour("EVENT-", eventId1, "-", NatToString(now1));
    ConcatFour("EVENT-", eventId2, "-", NatToString(now2));
    assert ("EVENT-" + eventId1) + "-" + NatToString(now1) == ("EVENT-" + eventId2) + "-" + NatToString(now2);
    DashNumberInjective("EVENT-" + eventId1, now1, "EVENT-" + eventId2, now2);
    assert eventId1 == ("EVENT-" + eventId1)[6..] && eventId2 == ("EVENT-" + eventId2)[6..];
  }

  /**
   * What pressing "Confirm Booking" decides: a login is required without a user,
   * nothing happens without a selected seat, and otherwise the insert carries the
   * user, the event, the selected seats in selection order, the displayed total, a
   * fresh ticket code and the status "pending".
   */
  function SubmitDecision(user: Option<string>, eventId: string, selectedSeats: seq<string>,
                          totalPrice: real, now: nat): (r: SubmitOutcome)
    ensures r == LoginRequired <==> user.None?
    ensures r == NoSeatsSelected <==> user.Some? && selectedSeats == []
    ensures r.Submitted? <==> user.Some? && selectedSeats != []
    ensures r.Submitted? ==>
              && r.request.userId == user.value && r.request.eventId == eventId
              && r.request.seats == selectedSeats && r.request.totalAmount == totalPrice
              && r.request.qrCode == EventQrCode(eventId, now) && r.request.paymentStatus == "pending"
  {
    if user.None? then LoginRequired
    else if |selectedSeats| == 0 then NoSeatsSelected
    else Submitted(BookingInsert(user.value, eventId, selectedSeats, totalPrice, EventQrCode(eventId, now), "pending"))
  }

  /**
   * `(event?.available_seats || 0) - selectedSeats.length`: the counter written back,
   * computed from the page's copy of the event, with no lower bound.
   */
  function RemainingSeats(event: Option<EventRow>, booked: nat): (r: int)
    ensures event.Some? ==> r == event.value.availableSeats - booked
    ensures event.None? ==> r == -(booked as int)
    ensures r <= (if event.Some? then event.value.availableSeats else 0)
  {
    (if event.Some? then event.value.availableSeats else 0) - booked
  }

  /** Nothing stops the counter from going below zero when more seats are booked than it shows. */
  lemma RemainingSeatsCanGoNegative(event: EventRow, booked: nat)
    requires booked > event.availableSeats
    ensures RemainingSeats(Some(event), booked) < 0
  {
  }

  /**
   * Two bookings settled from the same copy of the event each write that copy's count
   * minus their own seats: the second write overwrites the first, and the first
   * booking's seats are no longer subtracted.
   */
  lemma StaleCounterLosesDecrement(column: map<string, int>, event: EventRow, first: nat, second: nat)
    requires event.id in column && first > 0
    ensures var afterFirst := CounterAfter(column, event.id, RemainingSeats(Some(event), first), false);
            var afterSecond := CounterAfter(afterFirst, event.id, RemainingSeats(Some(event), second), false);
            && afterSecond[event.id] == event.availableSeats - second
            && afterSecond[event.id] != event.availableSeats - first - second
  {
  }

  /** The counter column after the write-back: updated only when the event's row exists and the update succeeds. */
  function CounterAfter(column: map<string, int>, eventId: string, value: int, updateFailed: bool): (r: map<string, int>)
    ensures r.Keys == column.Keys
    ensures eventId in column && !updateFailed ==> r[eventId] == value
    ensures forall id :: id in column && (id != eventId || updateFailed) ==> r[id] == column[id]
  {
    if eventId in column && !updateFailed then column[eventId := value] else column
  }

  // ---------------------------------------------------------------------------
  // The page's state

  class EventPage {
    /** The `:id` route parameter. */
    const eventId: string
    /** The signed-in user's id, if any. */
    var user: Option<string>
    var event: Option<EventRow>
    var loading: bool
    var bookedSeats: seq<string>
    /** As last reported by the seat map. */
    var selectedSeats: seq<string>
    var totalPrice: real
    var isBooking: bool
    var pending: Option<PendingBooking>
    /** The `bookings` table, as far as this page writes it. */
    ghost var bookings: seq<BookingInsert>
    /** The `available_seats` column of the `events` table, by event id. */
    ghost var availableSeatsColumn: map<string, int>

    ghost predicate Valid()
      reads this
    {
      && (isBooking <==> pending.Some?)
      && ValidSelection(selectedSeats)
      && (pending.Some? ==> pending.value.request.seats != [] && ValidSelection(pending.value.request.seats))
    }

    constructor (eventId: string, user: Option<string>, bookings: seq<BookingInsert>, availableSeatsColumn: map<string, int>)
      ensures Valid()
      ensures this.eventId == eventId && this.user == user
      ensures event.None? && loading && bookedSeats == [] && selectedSeats == [] && totalPrice == 0.0
      ensures !isBooking && pending.None?
      ensures this.bookings == bookings && this.availableSeatsColumn == availableSeatsColumn
    {
      this.eventId := eventId;
      this.user := user;
      event := None;
      loading := true;
      bookedSeats := [];
      selectedSeats := [];
      totalPrice := 0.0;
      isBooking := false;
      pending := None;
      this.bookings := bookings;
      this.availableSeatsColumn := availableSeatsColumn;
    }

    /** fetchEvent's continuation: keeps the row with its layout converted; loading ends either way. */
    method ReceiveEvent(result: EventFetch)
      requires Valid()
      modifies this
      ensures Valid() && !loading
      ensures result.EventFetchFailed? ==> event == old(event)
      ensures result.EventFetched? ==>
                event == Some(result.row.(seatLayout := ConvertLayout(result.row.seatLayout, result.row.price)))
      ensures user == old(user) && bookedSeats == old(bookedSeats) && selectedSeats == old(selectedSeats)
      ensures totalPrice == old(totalPrice) && isBooking == old(isBooking) && pending == old(pending)
      ensures bookings == old(bookings) && availableSeatsColumn == old(availableSeatsColumn)
    {
      if result.EventFetched? {
        var data := result.row;
        var seatLayout := ConvertLayout(data.seatLayout, data.price);
        event := Some(data.(seatLayout := seatLayout));
      }
      loading := false;
    }

    /** fetchBookedSeats' continuation: when rows came back, the booked ids become their flattening. */
    method ReceiveBookedSeats(data: Option<seq<BookingSeatsRow>>)
      requires Valid()
      modifies this
      ensures Valid()
      ensures data.None? ==> bookedSeats == old(bookedSeats)
      ensures data.Some? ==> bookedSeats == FlattenBooked(data.value)
      ensures user == old(user) && event == old(event) && loading == old(loading) && selectedSeats == old(selectedSeats)
      ensures totalPrice == old(totalPrice) && isBooking == old(isBooking) && pending == old(pending)
      ensures bookings == old(bookings) && availableSeatsColumn == old(availableSeatsColumn)
    {
      if data.Some? {
        bookedSeats := FlattenBooked(data.value);
      }
    }

    /** The seat map's `onSeatSelect` and `onPriceChange` after a toggle that took effect. */
    method ReceiveSelection(report: SelectionReport)
      requires Valid() && ValidSelection(report.seats)
      modifies this
      ensures Valid()
      ensures selectedSeats == report.seats && totalPrice == report.total
      ensures user == old(user) && event == old(event) && loading == old(loading) && bookedSeats == old(bookedSeats)
      ensures isBooking == old(isBooking) && pending == old(pending)
      ensures bookings == old(bookings) && availableSeatsColumn == old(availableSeatsColumn)
    {
      selectedSeats := report.seats;
      totalPrice := report.total;
    }

    /**
     * The first half of handleBooking, up to the insert: the guards, then `isBooking`
     * set and the insert issued. The button is disabled while a booking is in flight.
     */
    method SubmitBooking(now: nat) returns (outcome: SubmitOutcome)
      requires Valid() && !isBooking
      modifies this
      ensures Valid()
      ensures outcome == SubmitDecision(user, eventId, selectedSeats, totalPrice, now)
      ensures outcome.Submitted? ==>
                && 1 <= |outcome.request.seats| <= MaxSelectedSeats && NoDuplicates(outcome.request.seats)
                && isBooking && pending == Some(PendingBooking(outcome.request, event))
      ensures !outcome.Submitted? ==> !isBooking && pending == old(pending)
      ensures user == old(user) && event == old(event) && loading == old(loading) && bookedSeats == old(bookedSeats)
      ensures selectedSeats == old(selectedSeats) && totalPrice == old(totalPrice)
      ensures bookings == old(bookings) && availableSeatsColumn == old(availableSeatsColumn)
    {
      if user.None? {
        return LoginRequired;
      }
      if |selectedSeats| == 0 {
        return NoSeatsSelected;
      }
      isBooking := true;
      var request := BookingInsert(user.value, eventId, selectedSeats, totalPrice, EventQrCode(eventId, now), "pending");
      pending := Some(PendingBooking(request, event));
      outcome := Submitted(request);
    }

    /**
     * The second half of handleBooking, once the insert has answered: on an error the
     * booking fails with its message; otherwise the row is stored and the counter is
     * written back from the captured event. `isBooking` ends either way.
     */
    method SettleBooking(insertError: Option<string>, updateFailed: bool) returns (outcome: SettleOutcome)
      requires Valid() && isBooking
      modifies this
      ensures Valid() && !isBooking && pending.None?
      ensures insertError.Some? ==>
                && outcome == BookingFailed(insertError.value)
                && bookings == old(bookings) && availableSeatsColumn == old(availableSeatsColumn)
      ensures insertError.None? ==>
                var request := old(pending).value.request;
                && outcome == BookingSucceeded(|request.seats|)
                && bookings == old(bookings) + [request]
                && availableSeatsColumn == CounterAfter(old(availableSeatsColumn), eventId,
                     RemainingSeats(old(pending).value.capturedEvent, |request.seats|), updateFailed)
      ensures user == old(user) && event == old(event) && loading == old(loading) && bookedSeats == old(bookedSeats)
      ensures selectedSeats == old(selectedSeats) && totalPrice == old(totalPrice)
    {
      var booking := pending.value;
      if insertError.Some? {
        outcome := BookingFailed(insertError.value);
      } else {
        bookings := bookings + [booking.request];
        var remaining := RemainingSeats(booking.capturedEvent, |booking.request.seats|);
        availableSeatsColumn := CounterAfter(availableSeatsColumn, eventId, remaining, updateFailed);
        outcome := BookingSucceeded(|booking.request.seats|);
      }
      isBooking := false;
      pending := None;
    }
  }
}
