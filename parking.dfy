/**
 * The parking page (src/pages/Parking.tsx): the slots split into car and bike
 * slots with their free counts, and the booking of a selected slot for a vehicle
 * number, which stores the booking, marks the slot occupied and resets the form.
 */
module Parking {
  import opened Wrappers
  import opened JsText

  datatype SlotType = Car | Bike

  /** A row of the `parking_slots` table. */
  datatype ParkingSlot = ParkingSlot(id: string, slotNumber: string, slotType: SlotType, isAvailable: bool)

  /** A row inserted into `parking_bookings`. */
  datatype ParkingBookingInsert = ParkingBookingInsert(userId: string, slotId: string, vehicleNumber: string, qrCode: string)

  datatype BookSlotOutcome = NotAttempted | BookingFailed(message: string) | SlotBooked(request: ParkingBookingInsert)

  // ---------------------------------------------------------------------------
  // Partition and counts

  /** `slots.filter(s => s.slot_type === t)`: `carSlots` and `bikeSlots`. */
  function SlotsOfType(slots: seq<ParkingSlot>, t: SlotType): (r: seq<ParkingSlot>)
    ensures |r| <= |slots|
    ensures forall s :: s in r <==> s in slots && s.slotType == t
    decreases |slots|
  {
    if slots == [] then []
    else (if slots[0].slotType == t then [slots[0]] else []) + SlotsOfType(slots[1..], t)
  }

  /** `slots.filter(s => s.is_available)`. */
  function FreeSlots(slots: seq<ParkingSlot>): (r: seq<ParkingSlot>)
    ensures |r| <= |slots|
    ensures forall s :: s in r <==> s in slots && s.isAvailable
    decreases |slots|
  {
    if slots == [] then []
    else (if slots[0].isAvailable then [slots[0]] else []) + FreeSlots(slots[1..])
  }

  /** `availableCars` and `availableBikes`: the free slots of one type, never more than the slots of that type. */
  function AvailableCount(slots: seq<ParkingSlot>, t: SlotType): (n: nat)
    ensures n <= |SlotsOfType(slots, t)|
  {
    |FreeSlots(SlotsOfType(slots, t))|
  }

  /** Filtering by type keeps the order of the slots: it distributes over concatenation. */
  lemma {:induction false} SlotsOfTypeAppend(a: seq<ParkingSlot>, b: seq<ParkingSlot>, t: SlotType)
    ensures SlotsOfType(a + b, t) == SlotsOfType(a, t) + SlotsOfType(b, t)
    decreases |a|
  {
    if a == [] {
      assert a + b == b;
    } else {
      assert (a + b)[1..] == a[1..] + b;
      SlotsOfTypeAppend(a[1..], b, t);
    }
  }

  lemma {:induction false} FreeSlotsAppend(a: seq<ParkingSlot>, b: seq<ParkingSlot>)
    ensures FreeSlots(a + b) == FreeSlots(a) + FreeSlots(b)
    decreases |a|
  {
    if a == [] {
      assert a + b == b;
    } else {
      assert (a + b)[1..] == a[1..] + b;
      FreeSlotsAppend(a[1..], b);
    }
  }

  /** Every slot is a car slot or a bike slot and not both: the two lists partition the slots. */
  lemma CarsAndBikesPartition(slots: seq<ParkingSlot>)
    ensures |SlotsOfType(slots, Car)| + |SlotsOfType(slots, Bike)| == |slots|
    ensures multiset(SlotsOfType(slots, Car)) + multiset(SlotsOfType(slots, Bike)) == multiset(slots)
  {
    CarsAndBikesMultiset(slots);
    assert |multiset(SlotsOfType(slots, Car)) + multiset(SlotsOfType(slots, Bike))| == |multiset(slots)|;
  }

  lemma {:induction false} CarsAndBikesMultiset(slots: seq<ParkingSlot>)
    ensures multiset(SlotsOfType(slots, Car)) + multiset(SlotsOfType(slots, Bike)) == multiset(slots)
    decreases |slots|
  {
    if slots != [] {
      CarsAndBikesStep(slots);
      CarsAndBikesMultiset(slots[1..]);
      MultisetCons(slots);
    }
  }

  lemma MultisetCons(slots: seq<ParkingSlot>)
    requires slots != []
    ensures multiset(slots) == multiset{slots[0]} + multiset(slots[1..])
  {
    assert slots == [slots[0]] + slots[1..];
  }

  /** The first slot goes to exactly one of the two lists. */
  lemma CarsAndBikesStep(slots: seq<ParkingSlot>)
    requires slots != []
    ensures multiset(SlotsOfType(slots, Car)) + multiset(SlotsOfType(slots, Bike))
            == multiset{slots[0]} + (multiset(SlotsOfType(slots[1..], Car)) + multiset(SlotsOfType(slots[1..], Bike)))
  {
    var head, cars, bikes := slots[0], SlotsOfType(slots[1..], Car), SlotsOfType(slots[1..], Bike);
    if head.slotType == Car {
      assert SlotsOfType(slots, Car) == [head] + cars;
    } else {
      assert SlotsOfType(slots, Bike) == [head] + bikes;
    }
  }

  /** The free car slots and the free bike slots together are all the free slots. */
  lemma {:induction false} AvailableCountsAddUp(slots: seq<ParkingSlot>)
    ensures AvailableCount(slots, Car) + AvailableCount(slots, Bike) == |FreeSlots(slots)|
    decreases |slots|
  {
    if slots != [] {
      AvailableCountsAddUp(slots[1..]);
      var head := slots[0];
      FreeSlotsAppend(if head.slotType == Car then [head] else [], SlotsOfType(slots[1..], Car));
      FreeSlotsAppend(if head.slotType == Bike then [head] else [], SlotsOfType(slots[1..], Bike));
      assert FreeSlots([head]) == (if head.isAvailable then [head] else []) by {
        assert [head][1..] == [];
      }
    }
  }

  /** The one-slot-at-a-time view of AvailableCount. */
  lemma AvailableCountCons(slots: seq<ParkingSlot>, t: SlotType)
    requires slots != []
    ensures AvailableCount(slots, t)
            == (if slots[0].slotType == t && slots[0].isAvailable then 1 else 0) + AvailableCount(slots[1..], t)
  {
    var head := slots[0];
    FreeSlotsAppend(if head.slotType == t then [head] else [], SlotsOfType(slots[1..], t));
    assert FreeSlots([head]) == (if head.isAvailable then [head] else []) by {
      assert [head][1..] == [];
    }
  }

  // ---------------------------------------------------------------------------
  // The slot table

  predicate UniqueIds(slots: seq<ParkingSlot>) {
    forall i, j :: 0 <= i < j < |slots| ==> slots[i].id != slots[j].id
  }

  /** `update({ is_available: false }).eq('id', id)`: every row with that id becomes occupied, nothing else changes. */
  function MarkUnavailable(table: seq<ParkingSlot>, id: string): (r: seq<ParkingSlot>)
    ensures |r| == |table|
    ensures forall k :: 0 <= k < |table| ==>
              r[k] == if table[k].id == id then table[k].(isAvailable := false) else table[k]
    decreases |table|
  {
    if table == [] then []
    else [if table[0].id == id then table[0].(isAvailable := false) else table[0]] + MarkUnavailable(table[1..], id)
  }

  /** A count of the free slots of one type, one slot at a time: the reference for AvailableCount. */
  function FreeOfType(slots: seq<ParkingSlot>, t: SlotType): nat
    decreases |slots|
  {
    if slots == [] then 0
    else (if slots[0].slotType == t && slots[0].isAvailable then 1 else 0) + FreeOfType(slots[1..], t)
  }

  /** Filtering by type, then by availability, and taking the length counts the free slots of that type. */
  lemma {:induction false} AvailableCountIsFreeOfType(slots: seq<ParkingSlot>, t: SlotType)
    ensures AvailableCount(slots, t) == FreeOfType(slots, t)
    decreases |slots|
  {
    if slots != [] {
      AvailableCountCons(slots, t);
      AvailableCountIsFreeOfType(slots[1..], t);
    }
  }

  /**
   * Marking a free slot occupied lowers the free count of its type by exactly one
   * and leaves the other type's count alone, once the table is read back.
   */
  lemma MarkUnavailableCount(table: seq<ParkingSlot>, k: nat, t: SlotType)
    requires UniqueIds(table) && k < |table| && table[k].isAvailable
    ensures AvailableCount(MarkUnavailable(table, table[k].id), t)
            == AvailableCount(table, t) - (if table[k].slotType == t then 1 else 0)
  {
    AvailableCountIsFreeOfType(table, t);
    AvailableCountIsFreeOfType(MarkUnavailable(table, table[k].id), t);
    MarkUnavailableFreeOfType(table, k, t);
  }

  lemma {:induction false} MarkUnavailableFreeOfType(table: seq<ParkingSlot>, k: nat, t: SlotType)
    requires UniqueIds(table) && k < |table| && table[k].isAvailable
    ensures FreeOfType(MarkUnavailable(table, table[k].id), t)
            == FreeOfType(table, t) - (if table[k].slotType == t then 1 else 0)
    decreases |table|
  {
    var id := table[k].id;
    var marked := MarkUnavailable(table, id);
    var rest := table[1..];
    assert marked[1..] == MarkUnavailable(rest, id);
    if k == 0 {
      assert MarkUnavailable(rest, id) == rest by {
        assert forall j :: 0 <= j < |rest| ==> rest[j].id != id by {
          assert forall j :: 0 <= j < |rest| ==> rest[j] == table[j + 1];
        }
        MarkUnavailableNoMatch(rest, id);
      }
    } else {
      assert marked[0] == table[0] by {
        assert table[0].id != table[k].id;
      }
      assert UniqueIds(rest) && rest[k - 1] == table[k];
      MarkUnavailableFreeOfType(rest, k - 1, t);
    }
  }

  lemma MarkUnavailableNoMatch(table: seq<ParkingSlot>, id: string)
    requires forall j :: 0 <= j < |table| ==> table[j].id != id
    ensures MarkUnavailable(table, id) == table
  {
  }

  // ---------------------------------------------------------------------------
  // Booking

  /** The ticket code `PARK-${slot_number}-${Date.now()}`. */
  function ParkingQrCode(slotNumber: string, now: nat): (r: string)
    ensures |r| == 6 + |slotNumber| + |NatToString(now)|
    ensures r[..5] == "PARK-"
  {
    ConcatFour("PARK-", slotNumber, "-", NatToString(now));
    Concat(["PARK-", slotNumber, "-", NatToString(now)])
  }

  /** A ticket code names its slot number and its issue time. */
  lemma ParkingQrCodeInjective(slotNumber1: string, now1: nat, slotNumber2: string, now2: nat)
    requires ParkingQrCode(slotNumber1, now1) == ParkingQrCode(slotNumber2, now2)
    ensures slotNumber1 == slotNumber2 && now1 == now2
  {
    ConcatFour("PARK-", slotNumber1, "-", NatToString(now1));
    ConcatFour("PARK-", slotNumber2, "-", NatToString(now2));
    assert ("PARK-" + slotNumber1) + "-" + NatToString(now1) == ("PARK-" + slotNumber2) + "-" + NatToString(now2);
    DashNumberInjective("PARK-" + slotNumber1, now1, "PARK-" + slotNumber2, now2);
    assert slotNumber1 == ("PARK-" + slotNumber1)[5..] && slotNumber2 == ("PARK-" + slotNumber2)[5..];
  }

  /** The guard of handleBookSlot: a user, a selected slot and a vehicle number that is not blank. */
  predicate CanAttempt(user: Option<string>, selectedSlot: Option<ParkingSlot>, vehicleNumber: string): (b: bool)
    ensures b <==> user.Some? && selectedSlot.Some? && !IsBlank(vehicleNumber)
  {
    user.Some? && selectedSlot.Some? && Trim(vehicleNumber) != []
  }

  /**
   * The inserted booking: the vehicle number is upper-cased but not trimmed, so
   * surrounding whitespace and every other character but a-z is stored as typed, and it is
   * blank exactly when the input was.
   */
  function ParkingRequest(userId: string, slot: ParkingSlot, vehicleNumber: string, now: nat): (r: ParkingBookingInsert)
    ensures r.userId == userId && r.slotId == slot.id && r.qrCode == ParkingQrCode(slot.slotNumber, now)
    ensures r.vehicleNumber == ToUpper(vehicleNumber)
    ensures |r.vehicleNumber| == |vehicleNumber|
    ensures forall i :: 0 <= i < |vehicleNumber| && !IsAsciiLower(vehicleNumber[i]) ==> r.vehicleNumber[i] == vehicleNumber[i]
    ensures forall i :: 0 <= i < |vehicleNumber| ==> !IsAsciiLower(r.vehicleNumber[i])
    ensures Trim(r.vehicleNumber) == [] <==> Trim(vehicleNumber) == []
  {
    ToUpperKeepsBlankness(vehicleNumber);
    ParkingBookingInsert(userId, slot.id, ToUpper(vehicleNumber), ParkingQrCode(slot.slotNumber, now))
  }

  // ---------------------------------------------------------------------------
  // The page's state

  class ParkingPage {
    var slots: seq<ParkingSlot>
    var loading: bool
    var vehicleNumber: string
    var selectedSlot: Option<ParkingSlot>
    /** The signed-in user's id, if any. */
    var user: Option<string>
    /** The `parking_bookings` table, as far as this page writes it. */
    ghost var parkingBookings: seq<ParkingBookingInsert>
    /** The `parking_slots` table. */
    ghost var slotTable: seq<ParkingSlot>

    /** Only a slot shown free can be selected: the buttons of occupied slots are disabled. */
    ghost predicate Valid()
      reads this
    {
      selectedSlot.Some? ==> selectedSlot.value.isAvailable
    }

    constructor (user: Option<string>, parkingBookings: seq<ParkingBookingInsert>, slotTable: seq<ParkingSlot>)
      ensures Valid()
      ensures slots == [] && loading && vehicleNumber == "" && selectedSlot.None? && this.user == user
      ensures this.parkingBookings == parkingBookings && this.slotTable == slotTable
    {
      slots := [];
      loading := true;
      vehicleNumber := "";
      selectedSlot := None;
      this.user := user;
      this.parkingBookings := parkingBookings;
      this.slotTable := slotTable;
    }

    /** fetchSlots' continuation: rows that came back without error replace the slots; loading ends either way. */
    method ReceiveSlots(data: Option<seq<ParkingSlot>>)
      requires Valid()
      modifies this
      ensures Valid() && !loading
      ensures data.None? ==> slots == old(slots)
      ensures data.Some? ==> slots == data.value
      ensures vehicleNumber == old(vehicleNumber) && selectedSlot == old(selectedSlot) && user == old(user)
      ensures parkingBookings == old(parkingBookings) && slotTable == old(slotTable)
    {
      if data.Some? {
        slots := data.value;
      }
      loading := false;
    }

    /** A click on a free slot's button. */
    method SelectSlot(slot: ParkingSlot)
      requires Valid() && slot.isAvailable
      modifies this
      ensures Valid() && selectedSlot == Some(slot)
      ensures slots == old(slots) && loading == old(loading) && vehicleNumber == old(vehicleNumber) && user == old(user)
      ensures parkingBookings == old(parkingBookings) && slotTable == old(slotTable)
    {
      selectedSlot := Some(slot);
    }

    /** Typing in the vehicle number field. */
    method EnterVehicleNumber(text: string)
      requires Valid()
      modifies this
      ensures Valid() && vehicleNumber == text
      ensures slots == old(slots) && loading == old(loading) && selectedSlot == old(selectedSlot) && user == old(user)
      ensures parkingBookings == old(parkingBookings) && slotTable == old(slotTable)
    {
      vehicleNumber := text;
    }

    /**
     * handleBookSlot. Without a user, a selected slot or a non-blank vehicle number
     * nothing happens. A failed insert changes nothing. A successful one stores the
     * booking, marks the selected slot occupied (unless that update fails, which the
     * page ignores) and clears the form; the slot list itself changes only when the
     * re-fetch it starts arrives through ReceiveSlots.
     */
    method BookSlot(now: nat, insertError: Option<string>, updateFailed: bool) returns (outcome: BookSlotOutcome)
      requires Valid()
      modifies this
      ensures Valid()
      ensures outcome.NotAttempted? <==> !CanAttempt(old(user), old(selectedSlot), old(vehicleNumber))
      ensures !outcome.SlotBooked? ==>
                && vehicleNumber == old(vehicleNumber) && selectedSlot == old(selectedSlot)
                && parkingBookings == old(parkingBookings) && slotTable == old(slotTable)
      ensures CanAttempt(old(user), old(selectedSlot), old(vehicleNumber)) && insertError.Some? ==>
                outcome == BookingFailed(insertError.value)
      ensures CanAttempt(old(user), old(selectedSlot), old(vehicleNumber)) && insertError.None? ==>
                var request := ParkingRequest(old(user).value, old(selectedSlot).value, old(vehicleNumber), now);
                && outcome == SlotBooked(request)
                && old(selectedSlot).value.isAvailable
                && parkingBookings == old(parkingBookings) + [request]
                && slotTable == (if updateFailed then old(slotTable) else MarkUnavailable(old(slotTable), request.slotId))
                && vehicleNumber == "" && selectedSlot.None?
      ensures slots == old(slots) && loading == old(loading) && user == old(user)
    {
      if user.None? || selectedSlot.None? || Trim(vehicleNumber) == [] {
        return NotAttempted;
      }
      var slot := selectedSlot.value;
      var request := ParkingRequest(user.value, slot, vehicleNumber, now);
      outcome := FinishBooking(request, insertError, updateFailed);
    }

    /**
     * The continuation of handleBookSlot once the insert has answered: on an error
     * nothing changes; otherwise the booking is stored, its slot marked occupied
     * (unless that update fails) and the form cleared.
     */
    method FinishBooking(request: ParkingBookingInsert, insertError: Option<string>, updateFailed: bool)
      returns (outcome: BookSlotOutcome)
      requires Valid()
      modifies this
      ensures Valid()
      ensures insertError.Some? ==>
                && outcome == BookingFailed(insertError.value)
                && vehicleNumber == old(vehicleNumber) && selectedSlot == old(selectedSlot)
                && parkingBookings == old(parkingBookings) && slotTable == old(slotTable)
      ensures insertError.None? ==>
                && outcome == SlotBooked(request)
                && parkingBookings == old(parkingBookings) + [request]
                && slotTable == (if updateFailed then old(slotTable) else MarkUnavailable(old(slotTable), request.slotId))
                && vehicleNumber == "" && selectedSlot.None?
      ensures slots == old(slots) && loading == old(loading) && user == old(user)
    {
      if insertError.Some? {
        return BookingFailed(insertError.value);
      }
      parkingBookings := parkingBookings + [request];
      if !updateFailed {
        slotTable := MarkUnavailable(slotTable, request.slotId);
      }
      vehicleNumber := "";
      selectedSlot := None;
      outcome := SlotBooked(request);
    }
  }
}
