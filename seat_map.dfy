/**
 * The seat map of an event (src/components/SeatMap.tsx): the seats built from a
 * sectioned layout, the selection that clicks toggle under a ten-seat cap, the
 * total price reported with each change, and the status a seat is drawn with.
 */
module SeatMap {
  import opened Wrappers
  import opened JsText

  /** A selection never holds more seats than this. */
  const MaxSelectedSeats: nat := 10

  /** One section of a layout; its display colour is not modelled. */
  datatype Section = Section(name: string, rows: seq<string>, columns: seq<int>, price: real)

  datatype Seat = Seat(row: string, number: int, section: string, price: real, isBooked: bool, isSelected: bool)

  datatype SeatStatus = Available | Selected | Booked

  /** What one successful toggle hands to `onSeatSelect` and `onPriceChange`. */
  datatype SelectionReport = SelectionReport(seats: seq<string>, total: real)

  /** The id `${section}-${row}${col}` under which seats are booked and selected. */
  function SeatId(section: string, row: string, col: int): (r: string)
    ensures |r| == |section| + 1 + |row| + |IntToString(col)|
    ensures r[..|section|] == section && r[|section|] == '-'
  {
    ConcatFour(section, "-", row, IntToString(col));
    Concat([section, "-", row, IntToString(col)])
  }

  /** The id `${seat.section}-${seat.row}${seat.number}` under which the price lookup finds a seat. */
  function IdOf(seat: Seat): (r: string)
    ensures |r| > |seat.section| && r[..|seat.section|] == seat.section && r[|seat.section|] == '-'
  {
    SeatId(seat.section, seat.row, seat.number)
  }

  /** Ids are a plain concatenation: row "A" column 11 and row "A1" column 1 share one. */
  lemma SeatIdsCanCollide()
    ensures SeatId("Hall", "A", 11) == SeatId("Hall", "A1", 1) == "Hall-A11"
  {
  }

  // ---------------------------------------------------------------------------
  // Building the seats of a layout

  /** What the seat built for (section, row, col) holds. */
  predicate Describes(seat: Seat, section: Section, row: string, col: int, bookedSeats: seq<string>) {
    && seat.section == section.name
    && seat.row == row
    && seat.number == col
    && seat.price == section.price
    && (seat.isBooked <==> SeatId(section.name, row, col) in bookedSeats)
    && !seat.isSelected
  }

  function NewSeat(section: Section, row: string, col: int, bookedSeats: seq<string>): (seat: Seat)
    ensures Describes(seat, section, row, col, bookedSeats)
  {
    Seat(row, col, section.name, section.price, SeatId(section.name, row, col) in bookedSeats, false)
  }

  /** The seats of one row, for the given columns, left to right. */
  function RowSeats(section: Section, row: string, cols: seq<int>, bookedSeats: seq<string>): seq<Seat>
    decreases |cols|
  {
    if cols == [] then []
    else RowSeats(section, row, cols[..|cols| - 1], bookedSeats) + [NewSeat(section, row, cols[|cols| - 1], bookedSeats)]
  }

  /** The seats of the given rows of a section, row after row. */
  function RowsSeats(section: Section, rows: seq<string>, bookedSeats: seq<string>): seq<Seat>
    decreases |rows|
  {
    if rows == [] then []
    else RowsSeats(section, rows[..|rows| - 1], bookedSeats) + RowSeats(section, rows[|rows| - 1], section.columns, bookedSeats)
  }

  /** Every seat of a layout, section after section: the specification of BuildSeats. */
  function Enumerate(sections: seq<Section>, bookedSeats: seq<string>): seq<Seat>
    decreases |sections|
  {
    if sections == [] then []
    else
      var last := sections[|sections| - 1];
      Enumerate(sections[..|sections| - 1], bookedSeats) + RowsSeats(last, last.rows, bookedSeats)
  }

  /** The sum over sections of |rows| * |columns|. */
  function SeatCount(sections: seq<Section>): nat
    decreases |sections|
  {
    if sections == [] then 0
    else
      var last := sections[|sections| - 1];
      SeatCount(sections[..|sections| - 1]) + |last.rows| * |last.columns|
  }

  /**
   * The layout effect: three nested `forEach` loops (sections, their rows, the
   * columns) push one seat per (section, row, column). This method is the effect
   * body with the loop over sections; PushSection is the loop over one section's
   * rows, and PushRow the loop over one row's columns, whose body pushes one seat.
   */
  method BuildSeats(sections: seq<Section>, bookedSeats: seq<string>) returns (allSeats: seq<Seat>)
    ensures allSeats == Enumerate(sections, bookedSeats)
    ensures |allSeats| == SeatCount(sections)
  {
    allSeats := [];
    var i := 0;
    while i < |sections|
      invariant 0 <= i <= |sections|
      invariant allSeats == Enumerate(sections[..i], bookedSeats)
    {
      allSeats := PushSection(allSeats, sections[i], bookedSeats);
      assert allSeats == Enumerate(sections[..i + 1], bookedSeats) by {
        EnumerateStep(sections, bookedSeats, i);
      }
      i := i + 1;
    }
    assert sections[..i] == sections;
    assert |allSeats| == SeatCount(sections) by {
      EnumerateLength(sections, bookedSeats);
    }
  }

  /** The callback over one section: pushes its seats, row by row. */
  method PushSection(seats: seq<Seat>, section: Section, bookedSeats: seq<string>) returns (allSeats: seq<Seat>)
    ensures allSeats == seats + RowsSeats(section, section.rows, bookedSeats)
  {
    allSeats := seats;
    var j := 0;
    while j < |section.rows|
      invariant 0 <= j <= |section.rows|
      invariant allSeats == seats + RowsSeats(section, section.rows[..j], bookedSeats)
    {
      allSeats := PushRow(allSeats, section, section.rows[j], bookedSeats);
      assert allSeats == seats + RowsSeats(section, section.rows[..j + 1], bookedSeats) by {
        RowsSeatsStep(section, section.rows, bookedSeats, j);
      }
      j := j + 1;
    }
    assert section.rows[..j] == section.rows;
  }

  /** The callback over one row: pushes its seats, column by column. */
  method PushRow(seats: seq<Seat>, section: Section, row: string, bookedSeats: seq<string>) returns (allSeats: seq<Seat>)
    ensures allSeats == seats + RowSeats(section, row, section.columns, bookedSeats)
  {
    allSeats := seats;
    var k := 0;
    while k < |section.columns|
      invariant 0 <= k <= |section.columns|
      invariant allSeats == seats + RowSeats(section, row, section.columns[..k], bookedSeats)
    {
      var col := section.columns[k];
      var seatId := SeatId(section.name, row, col);
      allSeats := allSeats + [Seat(row, col, section.name, section.price, seatId in bookedSeats, false)];
      assert allSeats == seats + RowSeats(section, row, section.columns[..k + 1], bookedSeats) by {
        RowSeatsStep(section, row, section.columns, bookedSeats, k);
      }
      k := k + 1;
    }
    assert section.columns[..k] == section.columns;
  }

  lemma RowSeatsStep(section: Section, row: string, cols: seq<int>, bookedSeats: seq<string>, k: nat)
    requires k < |cols|
    ensures RowSeats(section, row, cols[..k + 1], bookedSeats)
            == RowSeats(section, row, cols[..k], bookedSeats) + [NewSeat(section, row, cols[k], bookedSeats)]
  {
    assert cols[..k + 1][..k] == cols[..k];
  }

  lemma RowsSeatsStep(section: Section, rows: seq<string>, bookedSeats: seq<string>, j: nat)
    requires j < |rows|
    ensures RowsSeats(section, rows[..j + 1], bookedSeats)
            == RowsSeats(section, rows[..j], bookedSeats) + RowSeats(section, rows[j], section.columns, bookedSeats)
  {
    assert rows[..j + 1][..j] == rows[..j];
  }

  lemma EnumerateStep(sections: seq<Section>, bookedSeats: seq<string>, i: nat)
    requires i < |sections|
    ensures Enumerate(sections[..i + 1], bookedSeats)
            == Enumerate(sections[..i], bookedSeats) + RowsSeats(sections[i], sections[i].rows, bookedSeats)
  {
    assert sections[..i + 1][..i] == sections[..i];
  }

  lemma {:induction false} RowSeatsAt(section: Section, row: string, cols: seq<int>, bookedSeats: seq<string>, c: nat)
    requires c < |cols|
    ensures |RowSeats(section, row, cols, bookedSeats)| == |cols|
    ensures RowSeats(section, row, cols, bookedSeats)[c] == NewSeat(section, row, cols[c], bookedSeats)
    decreases |cols|
  {
    var init := cols[..|cols| - 1];
    if c < |cols| - 1 {
      RowSeatsAt(section, row, init, bookedSeats, c);
    } else if init != [] {
      RowSeatsAt(section, row, init, bookedSeats, 0);
    }
  }

  lemma RowSeatsLength(section: Section, row: string, cols: seq<int>, bookedSeats: seq<string>)
    ensures |RowSeats(section, row, cols, bookedSeats)| == |cols|
  {
    if cols != [] {
      RowSeatsAt(section, row, cols, bookedSeats, 0);
    }
  }

  lemma {:induction false} RowsSeatsLength(section: Section, rows: seq<string>, bookedSeats: seq<string>)
    ensures |RowsSeats(section, rows, bookedSeats)| == |rows| * |section.columns|
    decreases |rows|
  {
    if rows != [] {
      RowsSeatsLength(section, rows[..|rows| - 1], bookedSeats);
      RowSeatsLength(section, rows[|rows| - 1], section.columns, bookedSeats);
      assert (|rows| - 1) * |section.columns| + |section.columns| == |rows| * |section.columns|;
    }
  }

  /** |Enumerate| is the sum over sections of |rows| * |columns|. */
  lemma {:induction false} EnumerateLength(sections: seq<Section>, bookedSeats: seq<string>)
    ensures |Enumerate(sections, bookedSeats)| == SeatCount(sections)
    decreases |sections|
  {
    if sections != [] {
      var last := sections[|sections| - 1];
      EnumerateLength(sections[..|sections| - 1], bookedSeats);
      RowsSeatsLength(last, last.rows, bookedSeats);
    }
  }

  lemma RowMajorBound(r: nat, c: nat, rows: nat, width: nat)
    requires r < rows && c < width
    ensures r * width + c < rows * width
    ensures (rows - 1) * width <= r * width + c ==> r == rows - 1
  {
    assert r * width + c < (r + 1) * width;
    if r < rows - 1 {
      assert (r + 1) * width <= (rows - 1) * width;
    }
  }

  lemma {:induction false} RowsSeatsAt(section: Section, rows: seq<string>, bookedSeats: seq<string>, r: nat, c: nat)
    requires r < |rows| && c < |section.columns|
    ensures r * |section.columns| + c < |RowsSeats(section, rows, bookedSeats)|
    ensures RowsSeats(section, rows, bookedSeats)[r * |section.columns| + c] == NewSeat(section, rows[r], section.columns[c], bookedSeats)
    decreases |rows|
  {
    var w := |section.columns|;
    var init := rows[..|rows| - 1];
    RowsSeatsLength(section, init, bookedSeats);
    RowsSeatsLength(section, rows, bookedSeats);
    RowMajorBound(r, c, |rows|, w);
    if r < |rows| - 1 {
      RowMajorBound(r, c, |rows| - 1, w);
      RowsSeatsAt(section, init, bookedSeats, r, c);
    } else {
      assert r * w + c - |init| * w == c;
      RowSeatsAt(section, rows[r], section.columns, bookedSeats, c);
    }
  }

  /** The seats of the first k sections come first, in the same order. */
  lemma {:induction false} EnumeratePrefix(sections: seq<Section>, bookedSeats: seq<string>, k: nat)
    requires k <= |sections|
    ensures Enumerate(sections[..k], bookedSeats) <= Enumerate(sections, bookedSeats)
    decreases |sections|
  {
    if k < |sections| {
      var init := sections[..|sections| - 1];
      assert init[..k] == sections[..k];
      EnumeratePrefix(init, bookedSeats, k);
    } else {
      assert sections[..k] == sections;
    }
  }

  /**
   * Section → row → column order: the seat of section i, row r, column c stands at
   * position SeatCount(sections[..i]) + r * |columns| + c and holds that section's
   * name and price, that row and column, isBooked exactly when its id is booked,
   * and isSelected false.
   */
  lemma {:induction false} EnumerateAt(sections: seq<Section>, bookedSeats: seq<string>, i: nat, r: nat, c: nat)
    requires i < |sections| && r < |sections[i].rows| && c < |sections[i].columns|
    ensures SeatCount(sections[..i]) + r * |sections[i].columns| + c < |Enumerate(sections, bookedSeats)|
    ensures Describes(Enumerate(sections, bookedSeats)[SeatCount(sections[..i]) + r * |sections[i].columns| + c],
                      sections[i], sections[i].rows[r], sections[i].columns[c], bookedSeats)
  {
    var section := sections[i];
    var offset := r * |section.columns| + c;
    var seat := NewSeat(section, section.rows[r], section.columns[c], bookedSeats);
    var before := Enumerate(sections[..i], bookedSeats);
    var block := RowsSeats(section, section.rows, bookedSeats);
    var upTo := Enumerate(sections[..i + 1], bookedSeats);
    var all := Enumerate(sections, bookedSeats);
    var t := |before| + offset;
    assert |before| == SeatCount(sections[..i]) by {
      EnumerateLength(sections[..i], bookedSeats);
    }
    assert offset < |block| && block[offset] == seat by {
      RowsSeatsAt(section, section.rows, bookedSeats, r, c);
    }
    assert t < |upTo| && upTo[t] == seat by {
      EnumerateStep(sections, bookedSeats, i);
    }
    assert t < |all| && all[t] == seat by {
      EnumeratePrefix(sections, bookedSeats, i + 1);
    }
    assert t == SeatCount(sections[..i]) + r * |sections[i].columns| + c;
    assert Describes(seat, section, section.rows[r], section.columns[c], bookedSeats);
  }

  /** Conversely, every enumerated seat is the seat of some (section, row, column). */
  lemma {:induction false} EnumerateOrigin(sections: seq<Section>, bookedSeats: seq<string>, t: nat)
    requires t < |Enumerate(sections, bookedSeats)|
    ensures exists i, r, c :: 0 <= i < |sections| && 0 <= r < |sections[i].rows| && 0 <= c < |sections[i].columns|
                              && Describes(Enumerate(sections, bookedSeats)[t], sections[i], sections[i].rows[r], sections[i].columns[c], bookedSeats)
    decreases |sections|
  {
    var n := |sections|;
    var init := sections[..n - 1];
    var last := sections[n - 1];
    var prefix := Enumerate(init, bookedSeats);
    if t < |prefix| {
      EnumerateOrigin(init, bookedSeats, t);
      var i, r, c :| 0 <= i < |init| && 0 <= r < |init[i].rows| && 0 <= c < |init[i].columns|
                     && Describes(prefix[t], init[i], init[i].rows[r], init[i].columns[c], bookedSeats);
      assert init[i] == sections[i];
    } else {
      RowsSeatsOrigin(last, last.rows, bookedSeats, t - |prefix|);
    }
  }

  /** Every enumerated seat is drawn booked exactly when its own id is among the booked ids. */
  lemma EnumerateMarksBooked(sections: seq<Section>, bookedSeats: seq<string>, t: nat)
    requires t < |Enumerate(sections, bookedSeats)|
    ensures Enumerate(sections, bookedSeats)[t].isBooked <==> IdOf(Enumerate(sections, bookedSeats)[t]) in bookedSeats
  {
    EnumerateOrigin(sections, bookedSeats, t);
  }

  lemma {:induction false} RowsSeatsOrigin(section: Section, rows: seq<string>, bookedSeats: seq<string>, t: nat)
    requires t < |RowsSeats(section, rows, bookedSeats)|
    ensures exists r, c :: 0 <= r < |rows| && 0 <= c < |section.columns|
                           && RowsSeats(section, rows, bookedSeats)[t] == NewSeat(section, rows[r], section.columns[c], bookedSeats)
    decreases |rows|
  {
    var init := rows[..|rows| - 1];
    var prefix := RowsSeats(section, init, bookedSeats);
    if t < |prefix| {
      RowsSeatsOrigin(section, init, bookedSeats, t);
      var r, c :| 0 <= r < |init| && 0 <= c < |section.columns|
                  && prefix[t] == NewSeat(section, init[r], section.columns[c], bookedSeats);
      assert init[r] == rows[r];
    } else {
      var c := t - |prefix|;
      RowSeatsLength(section, rows[|rows| - 1], section.columns, bookedSeats);
      RowSeatsAt(section, rows[|rows| - 1], section.columns, bookedSeats, c);
    }
  }

  // ---------------------------------------------------------------------------
  // The selection and its price

  predicate NoDuplicates(ids: seq<string>) {
    forall i, j :: 0 <= i < j < |ids| ==> ids[i] != ids[j]
  }

  /** What the selection always satisfies: it is a set (ids distinct) of at most ten seats. */
  predicate ValidSelection(selected: seq<string>) {
    NoDuplicates(selected) && |selected| <= MaxSelectedSeats
  }

  /** `Set.delete`: removes x and keeps the order of the other ids. */
  function Without(ids: seq<string>, x: string): (r: seq<string>)
    ensures forall y :: y in r <==> y in ids && y != x
    ensures |r| <= |ids|
    ensures x !in ids ==> r == ids
    ensures NoDuplicates(ids) ==> NoDuplicates(r)
    ensures NoDuplicates(ids) && x in ids ==> |r| == |ids| - 1
    decreases |ids|
  {
    if ids == [] then []
    else
      var rest := Without(ids[1..], x);
      assert NoDuplicates(ids) ==> NoDuplicates(ids[1..]) && ids[0] !in ids[1..];
      assert NoDuplicates(ids) ==> NoDuplicates([ids[0]] + rest) by {
        if NoDuplicates(ids) {
          NoDuplicatesCons(ids[0], rest);
        }
      }
      if ids[0] == x then rest else [ids[0]] + rest
  }

  /** In a duplicate-free selection, deleting the id at position k closes the gap and keeps the order of the rest. */
  lemma {:induction false} WithoutAt(ids: seq<string>, k: nat)
    requires NoDuplicates(ids) && k < |ids|
    ensures Without(ids, ids[k]) == ids[..k] + ids[k + 1..]
    decreases k
  {
    var x := ids[k];
    var rest := ids[1..];
    if k == 0 {
      assert x !in rest;
      assert Without(ids, x) == Without(rest, x);
    } else {
      assert ids[0] != x;
      assert rest[k - 1] == x;
      WithoutAt(rest, k - 1);
      assert Without(ids, x) == [ids[0]] + Without(rest, x);
      assert ids[..k] == [ids[0]] + rest[..k - 1];
      assert ids[k + 1..] == rest[k..];
    }
  }

  lemma NoDuplicatesCons(x: string, ids: seq<string>)
    requires x !in ids && NoDuplicates(ids)
    ensures NoDuplicates([x] + ids)
  {
  }

  /**
   * The selection after clicking seat `seatId`, or None when the click changes
   * nothing: the seat is booked, or it is not selected and ten already are.
   */
  function ToggledSelection(selected: seq<string>, seatId: string, isBooked: bool): (r: Option<seq<string>>)
    ensures r.None? <==> isBooked || (seatId !in selected && |selected| >= MaxSelectedSeats)
    ensures r.Some? ==> (seatId in r.value <==> seatId !in selected)
    ensures r.Some? ==> forall id :: id != seatId ==> (id in r.value <==> id in selected)
  {
    if isBooked then None
    else if seatId in selected then Some(Without(selected, seatId))
    else if |selected| >= MaxSelectedSeats then None
    else Some(selected + [seatId])
  }

  /** A toggle keeps the selection distinct and within the cap. */
  lemma ToggleKeepsValid(selected: seq<string>, seatId: string, isBooked: bool)
    requires ValidSelection(selected)
    ensures var r := ToggledSelection(selected, seatId, isBooked);
            r.Some? ==> ValidSelection(r.value)
  {
  }

  /** Adding a seat and clicking it again gives back the very same selection. */
  lemma AddThenRemove(selected: seq<string>, seatId: string)
    requires seatId !in selected && |selected| < MaxSelectedSeats
    ensures ToggledSelection(selected, seatId, false) == Some(selected + [seatId])
    ensures ToggledSelection(selected + [seatId], seatId, false) == Some(selected)
  {
    WithoutAppendLast(selected, seatId);
  }

  lemma {:induction false} WithoutAppendLast(ids: seq<string>, x: string)
    requires x !in ids
    ensures Without(ids + [x], x) == ids
    decreases |ids|
  {
    if ids == [] {
      assert Without([x], x) == Without([], x);
    } else {
      assert (ids + [x])[1..] == ids[1..] + [x];
      WithoutAppendLast(ids[1..], x);
    }
  }

  /**
   * Removing a seat and clicking it again is always allowed (the removal made room
   * under the cap) and restores the same set of seats, the seat now last.
   */
  lemma RemoveThenAdd(selected: seq<string>, seatId: string)
    requires ValidSelection(selected) && seatId in selected
    ensures var removed := ToggledSelection(selected, seatId, false);
            && removed.Some?
            && ToggledSelection(removed.value, seatId, false) == Some(removed.value + [seatId])
            && (forall id :: id in removed.value + [seatId] <==> id in selected)
            && |removed.value + [seatId]| == |selected|
  {
  }

  /** The index of the first seat whose id is `id`, as `seats.find` picks it. */
  function FindSeat(id: string, seats: seq<Seat>): (r: Option<nat>)
    ensures r.Some? ==> r.value < |seats| && IdOf(seats[r.value]) == id
                        && forall j :: 0 <= j < r.value ==> IdOf(seats[j]) != id
    ensures r.None? ==> forall j :: 0 <= j < |seats| ==> IdOf(seats[j]) != id
    decreases |seats|
  {
    if seats == [] then None
    else if IdOf(seats[0]) == id then Some(0)
    else match FindSeat(id, seats[1..])
      case None => None
      case Some(k) => Some(k + 1)
  }

  /** `seat?.price || 0`: the price of the first matching seat, 0 when none matches. */
  function PriceOf(id: string, seats: seq<Seat>): (p: real)
    ensures (forall k :: 0 <= k < |seats| ==> IdOf(seats[k]) != id) ==> p == 0.0
    ensures forall k :: 0 <= k < |seats| && IdOf(seats[k]) == id && (forall j :: 0 <= j < k ==> IdOf(seats[j]) != id)
                       ==> p == seats[k].price
  {
    match FindSeat(id, seats)
    case None => 0.0
    case Some(k) => seats[k].price
  }

  /** The `reduce` of toggleSeat: the price of every selected id, added left to right. */
  function TotalPrice(ids: seq<string>, seats: seq<Seat>): (total: real)
    ensures (forall k :: 0 <= k < |seats| ==> seats[k].price >= 0.0) ==> total >= 0.0
    ensures (forall i :: 0 <= i < |ids| ==> forall k :: 0 <= k < |seats| ==> IdOf(seats[k]) != ids[i]) ==> total == 0.0
    decreases |ids|
  {
    if ids == [] then 0.0 else TotalPrice(ids[..|ids| - 1], seats) + PriceOf(ids[|ids| - 1], seats)
  }

  lemma {:induction false} TotalPriceAppend(a: seq<string>, b: seq<string>, seats: seq<Seat>)
    ensures TotalPrice(a + b, seats) == TotalPrice(a, seats) + TotalPrice(b, seats)
    decreases |b|
  {
    if b != [] {
      assert (a + b)[..|a + b| - 1] == a + b[..|b| - 1];
      TotalPriceAppend(a, b[..|b| - 1], seats);
    } else {
      assert a + b == a;
    }
  }

  /** Removing a selected id takes exactly that id's price off the total. */
  lemma {:induction false} TotalPriceWithout(ids: seq<string>, x: string, seats: seq<Seat>)
    requires NoDuplicates(ids) && x in ids
    ensures TotalPrice(Without(ids, x), seats) == TotalPrice(ids, seats) - PriceOf(x, seats)
    decreases |ids|
  {
    var rest := ids[1..];
    assert ids == [ids[0]] + rest;
    TotalPriceAppend([ids[0]], rest, seats);
    assert TotalPrice([ids[0]], seats) == PriceOf(ids[0], seats) by {
      assert [ids[0]][..0] == [];
    }
    if ids[0] == x {
      assert x !in rest;
    } else {
      TotalPriceWithout(rest, x, seats);
      TotalPriceAppend([ids[0]], Without(rest, x), seats);
    }
  }

  /** Each successful toggle moves the reported total by exactly the clicked seat's price. */
  lemma ToggleMovesTotal(selected: seq<string>, seatId: string, seats: seq<Seat>)
    requires ValidSelection(selected)
    requires ToggledSelection(selected, seatId, false).Some?
    ensures var after := ToggledSelection(selected, seatId, false).value;
            TotalPrice(after, seats) == TotalPrice(selected, seats) + (if seatId in selected then -PriceOf(seatId, seats) else PriceOf(seatId, seats))
  {
    if seatId in selected {
      TotalPriceWithout(selected, seatId, seats);
    } else {
      TotalPriceAppend(selected, [seatId], seats);
      assert [seatId][..0] == [];
    }
  }

  // ---------------------------------------------------------------------------
  // Status

  /** getSeatStatus: booked wins over selected, which wins over available. */
  function StatusOf(seat: Seat, seatId: string, selected: seq<string>): (status: SeatStatus)
    ensures status == Booked <==> seat.isBooked
    ensures status == Selected <==> !seat.isBooked && seatId in selected
    ensures status == Available <==> !seat.isBooked && seatId !in selected
  {
    if seat.isBooked then Booked
    else if seatId in selected then Selected
    else Available
  }

  /** A toggle that takes effect flips the clicked seat between selected and available. */
  lemma ToggleFlipsStatus(seat: Seat, seatId: string, selected: seq<string>)
    requires ToggledSelection(selected, seatId, seat.isBooked).Some?
    ensures var after := ToggledSelection(selected, seatId, seat.isBooked).value;
            && StatusOf(seat, seatId, selected) != Booked
            && (StatusOf(seat, seatId, after) == Selected <==> StatusOf(seat, seatId, selected) == Available)
  {
  }

  // ---------------------------------------------------------------------------
  // The component's state

  class SeatMapState {
    /** The seats built from the current layout and booked ids. */
    var seats: seq<Seat>
    /** The selected ids in insertion order, as `Array.from` of the Set yields them. */
    var selected: seq<string>

    ghost predicate Valid()
      reads this
    {
      ValidSelection(selected)
    }

    constructor ()
      ensures Valid() && seats == [] && selected == []
    {
      seats := [];
      selected := [];
    }

    /** The layout effect: rebuilds the seats; the selection is left as it was. */
    method Refresh(sections: seq<Section>, bookedSeats: seq<string>)
      requires Valid()
      modifies this
      ensures Valid()
      ensures seats == Enumerate(sections, bookedSeats) && selected == old(selected)
    {
      seats := BuildSeats(sections, bookedSeats);
    }

    /** toggleSeat: None when nothing changes and no callback fires. */
    method Toggle(seatId: string, seat: Seat) returns (report: Option<SelectionReport>)
      requires Valid()
      modifies this
      ensures Valid() && seats == old(seats)
      ensures ToggledSelection(old(selected), seatId, seat.isBooked).None? ==> report.None? && selected == old(selected)
      ensures ToggledSelection(old(selected), seatId, seat.isBooked).Some? ==>
                && selected == ToggledSelection(old(selected), seatId, seat.isBooked).value
                && report == Some(SelectionReport(selected, TotalPrice(selected, seats)))
    {
      if seat.isBooked {
        return None;
      }
      var newSelected := selected;
      if seatId in newSelected {
        newSelected := Without(newSelected, seatId);
      } else {
        if |newSelected| >= MaxSelectedSeats {
          return None;
        }
        newSelected := newSelected + [seatId];
      }
      ToggleKeepsValid(selected, seatId, seat.isBooked);
      selected := newSelected;
      report := Some(SelectionReport(newSelected, TotalPrice(newSelected, seats)));
    }
  }
}
