/** The parking service: a map from slot id to slot objects and a map from token to reservation objects,
    changed in place by sequential (lock-serialised) operations. */
module Service {
  import opened Wrappers
  import opened JavaInt
  import opened Status
  import opened Sorting
  import opened Slots
  import opened Reservations
  import opened ParkingModel
  import opened ParkingProperties

  ghost function SlotRecordOf(s: ParkingSlot): (rec: SlotRecord)
    reads s
  {
    SlotRecord(s.id, s.location, s.occupied, s.reserved)
  }

  ghost function ReservationRecordOf(r: Reservation): (rec: ReservationRecord)
    reads r
  {
    ReservationRecord(r.id, r.user, r.slot.id, r.createdAt, r.startedAt, r.endedAt, r.status)
  }

  lemma {:induction false} LongerThanAll(keys: set<string>) returns (n: nat)
    ensures forall k :: k in keys ==> |k| < n
  {
    if keys == {} {
      n := 0;
    } else {
      var k :| k in keys;
      var m := LongerThanAll(keys - {k});
      n := if |k| < m then m else |k| + 1;
    }
  }

  /** There is always a token not yet in use, which is all the model asks of `UUID.randomUUID()`. */
  lemma FreshTokenExists(keys: set<string>)
    ensures exists t :: t !in keys
  {
    var n := LongerThanAll(keys);
    var t := seq(n, _ => 'x');
    assert t !in keys;
  }

  /** Copies the values of `m` into a list, visiting the keys in an arbitrary order; `keys` records it. */
  method ValuesOf<K, V>(m: map<K, V>) returns (vs: seq<V>, ghost keys: seq<K>)
    ensures |vs| == |keys| == |m|
    ensures forall i :: 0 <= i < |keys| ==> keys[i] in m && vs[i] == m[keys[i]]
    ensures forall k :: k in m ==> k in keys
    ensures forall i, j :: 0 <= i < j < |keys| ==> keys[i] != keys[j]
  {
    vs, keys := [], [];
    var rest := m.Keys;
    while rest != {}
      invariant |vs| == |keys| && |keys| + |rest| == |m|
      invariant rest <= m.Keys
      invariant forall i :: 0 <= i < |keys| ==> keys[i] in m && keys[i] !in rest && vs[i] == m[keys[i]]
      invariant forall k :: k in m ==> k in rest || k in keys
      invariant forall i, j :: 0 <= i < j < |keys| ==> keys[i] != keys[j]
      decreases |rest|
    {
      var k :| k in rest;
      vs, keys := vs + [m[k]], keys + [k];
      rest := rest - {k};
    }
  }

  class ParkingService {
    var slots: map<int32, ParkingSlot>
    var reservations: map<string, Reservation>
    /** The slot and reservation objects the service owns, whether or not still stored in a map. */
    ghost var Repr: set<object>

    /** The state the objects currently represent. */
    ghost function View(): (st: State)
      reads this, slots.Values, reservations.Values
    {
      State(SlotsView(), ReservationsView())
    }

    ghost function SlotsView(): (view: map<int32, SlotRecord>)
      reads this`slots, slots.Values
    {
      map k | k in slots :: SlotRecordOf(slots[k])
    }

    ghost function ReservationsView(): (view: map<string, ReservationRecord>)
      reads this`reservations, reservations.Values
    {
      map t | t in reservations :: ReservationRecordOf(reservations[t])
    }

    /** Each map is keyed by its objects' own ids, so no object is stored under two keys. */
    ghost predicate Keyed()
      reads this, slots.Values, reservations.Values
    {
      && (forall k :: k in slots ==> slots[k].id == k)
      && (forall t :: t in reservations ==> reservations[t].id == t)
    }

    /** Every stored object belongs to the service, and the service is not one of its own objects. */
    ghost predicate Owned()
      reads this
    {
      && this !in Repr
      && (forall k :: k in slots ==> slots[k] in Repr)
      && (forall t :: t in reservations ==> reservations[t] in Repr)
    }

    /** The service owns its objects, every reservation that still holds its slot refers to the slot object
        in the inventory, and the represented state satisfies the invariant. */
    ghost predicate Valid()
      reads this, slots.Values, reservations.Values
    {
      && Owned()
      && Keyed()
      && (forall t :: t in reservations && Holds(reservations[t].status) ==>
            reservations[t].slot.id in slots && slots[reservations[t].slot.id] == reservations[t].slot)
      && Inv(View())
    }

    /** Seeds the ten slots A1..A5 (ids 1..5) and B1..B5 (ids 6..10). */
    constructor ()
      ensures Valid() && View() == Initial()
      ensures fresh(Repr) && reservations == map[]
    {
      slots := map[];
      reservations := map[];
      Repr := {};
      new;
      var id: int32 := 1;
      var rows := ['A', 'B'];
      for r := 0 to |rows|
        invariant id as int == 5 * r + 1
        invariant Building(id)
        invariant forall o :: o in Repr ==> fresh(o)
      {
        for i := 1 to 6
          invariant id as int == 5 * r + i
          invariant Building(id)
          invariant forall o :: o in Repr ==> fresh(o)
        {
          assert SeedSlotWithId(id) == SeedSlot(r, i);
          label before:
          var slot := new ParkingSlot(id, Location(rows[r], i));
          slots := slots[id := slot];
          Repr := Repr + {slot};
          SeededGrow@before(id, slot);
          id := id + 1;
        }
      }
      SeededIsInitial();
    }

    /** The slots with ids 1 .. next - 1 are in the inventory, as the constructor creates them, and no
        reservation exists. */
    ghost predicate Seeded(next: int32)
      reads this, slots.Values
    {
      && (forall k :: k in slots <==> 1 <= k < next)
      && (forall k :: k in slots ==> 1 <= k <= 10 && SlotRecordOf(slots[k]) == SeedSlotWithId(k))
    }

    /** What the constructor's loops keep: a seeded prefix of the inventory, owned, and no reservation. */
    ghost predicate Building(next: int32)
      reads this, slots.Values
    {
      Seeded(next) && Owned() && reservations == map[]
    }

    /** Storing the seed slot for `id` extends the seeded inventory by one. */
    twostate lemma SeededGrow(id: int32, new slot: ParkingSlot)
      requires old(Building(id)) && 1 <= id <= 10
      requires slots == old(slots)[id := slot] && reservations == old(reservations)
      requires Repr == old(Repr) + {slot}
      requires forall k :: k in old(slots) ==> unchanged(old(slots)[k])
      requires SlotRecordOf(slot) == SeedSlotWithId(id)
      ensures Building(id + 1)
    {
    }

    lemma SeededIsInitial()
      requires Building(11)
      ensures View() == Initial() && Valid()
    {
      assert View().slots == Initial().slots;
      InitialIsValid();
    }
  
    // ------------------------------------------------------------ reservation lifecycle

    /** `reserveSlot(user, slotId)`; `now` is the clock reading and the token is any one not in use. */
    method ReserveSlot(user: User, slotId: int32, now: Timestamp) returns (result: Result<Reservation, Error>)
      requires Valid()
      modifies this, slots.Values
      ensures Valid() && slots == old(slots)
      ensures result.Failure? ==>
        && (forall t :: Reserve(old(View()), user, slotId, t, now) == Failure(result.error))
        && reservations == old(reservations) && Repr == old(Repr) && unchanged(Repr)
      ensures result.Success? ==>
        var r := result.value;
        && fresh(r) && r.id !in old(reservations) && reservations == old(reservations)[r.id := r]
        && Repr == old(Repr) + {r}
        && Reserve(old(View()), user, slotId, r.id, now) == Success(View())
    {
      if slotId !in slots {
        return Failure(IllegalArgument);
      }
      var slot := slots[slotId];
      if slot.occupied || slot.reserved {
        return Failure(IllegalState);
      }
      ghost var before := View();
      slot.SetReserved(true);
      FreshTokenExists(reservations.Keys);
      var token :| token !in reservations;
      var r := new Reservation(token, user, slot, now);
      r.SetStatus(RESERVED);
      reservations := reservations[token := r];
      Repr := Repr + {r};
      SlotViewAfter(slot);
      ReservationViewAdded(r);
      ReservePreservesInv(before, user, slotId, token, now);
      assert View() == Reserve(before, user, slotId, token, now).value;
      StillValidAdded(r);
      result := Success(r);
    }

    /** Changing one slot object of the inventory changes only that slot's record in the view. */
    twostate lemma SlotViewAfter(s: ParkingSlot)
      requires old(slots) == slots && s.id in slots && slots[s.id] == s
      requires forall k :: k in slots && k != s.id ==> unchanged(slots[k])
      ensures SlotsView() == old(SlotsView())[s.id := SlotRecordOf(s)]
    {
    }

    /** Changing one stored reservation object changes only that reservation's record in the view. */
    twostate lemma ReservationViewAfter(r: Reservation)
      requires old(reservations) == reservations && r.id in reservations && reservations[r.id] == r
      requires forall t :: t in reservations && t != r.id ==> unchanged(reservations[t])
      ensures ReservationsView() == old(ReservationsView())[r.id := ReservationRecordOf(r)]
    {
    }

    /** The reservations view depends only on the reservation map and its objects. */
    twostate lemma ReservationsViewKept()
      requires reservations == old(reservations)
      requires forall t :: t in reservations ==> unchanged(reservations[t])
      ensures ReservationsView() == old(ReservationsView())
    {
    }

    /** Storing a new reservation object under its own id adds only its record to the view. */
    twostate lemma ReservationViewAdded(new r: Reservation)
      requires reservations == old(reservations)[r.id := r] && r.id !in old(reservations)
      requires forall t :: t in old(reservations) ==> unchanged(reservations[t])
      ensures ReservationsView() == old(ReservationsView())[r.id := ReservationRecordOf(r)]
    {
    }

    /** Validity survives adding a reservation that holds the slot object stored under its slot's id,
        when the slot objects may change but the inventory map does not. */
    twostate lemma StillValidAdded(new r: Reservation)
      requires old(Valid()) && fresh(r) && Repr == old(Repr) + {r}
      requires slots == old(slots)
      requires reservations == old(reservations)[r.id := r] && r.id !in old(reservations)
      requires r.slot.id in slots && slots[r.slot.id] == r.slot
      requires forall t :: t in old(reservations) ==> unchanged(reservations[t])
      requires Inv(View())
      ensures Valid()
    {
    }

    /** Validity survives a step that keeps both maps, changes at most one stored reservation besides
        slot objects, and does not make that reservation a holder when it was not one. */
    twostate lemma StillValid(r: Reservation)
      requires old(Valid()) && Owned()
      requires slots == old(slots) && reservations == old(reservations)
      requires r.id in reservations && reservations[r.id] == r
      requires Inv(View())
      requires forall t :: t in reservations && t != r.id ==> unchanged(reservations[t])
      requires Holds(r.status) ==> old(Holds(r.status))
      ensures Valid()
    {
      forall t | t in reservations && Holds(reservations[t].status)
        ensures reservations[t].slot.id in slots && slots[reservations[t].slot.id] == reservations[t].slot
      {
        assert old(Holds(reservations[t].status));
      }
    }

    /** `occupySlot(reservationId)`; `now` is the clock reading. */
    method OccupySlot(reservationId: string, now: Timestamp) returns (result: Result<Reservation, Error>)
      requires Valid()
      modifies slots.Values, reservations.Values
      ensures Valid()
      ensures result.Failure? ==> Occupy(old(View()), reservationId, now) == Failure(result.error) && unchanged(Repr)
      ensures result.Success? ==>
        && reservationId in reservations && result.value == reservations[reservationId]
        && Occupy(old(View()), reservationId, now) == Success(View())
    {
      if reservationId !in reservations {
        return Failure(IllegalArgument);
      }
      var r := reservations[reservationId];
      if r.status != RESERVED {
        return Failure(IllegalState);
      }
      ghost var before := View();
      var slot := r.slot;
      slot.SetReserved(false);
      slot.SetOccupied(true);
      r.SetStatus(ACTIVE);
      r.SetStartedAt(Some(now));
      SlotViewAfter(slot);
      ReservationViewAfter(r);
      OccupyPreservesInv(before, reservationId, now);
      assert View() == Occupy(before, reservationId, now).value;
      StillValid(r);
      result := Success(r);
    }

    /** `releaseSlot(reservationId)`; `now` is the clock reading. */
    method ReleaseSlot(reservationId: string, now: Timestamp) returns (result: Result<Reservation, Error>)
      requires Valid()
      modifies slots.Values, reservations.Values
      ensures Valid()
      ensures result.Failure? ==> Release(old(View()), reservationId, now) == Failure(result.error) && unchanged(Repr)
      ensures result.Success? ==>
        && reservationId in reservations && result.value == reservations[reservationId]
        && Release(old(View()), reservationId, now) == Success(View())
    {
      if reservationId !in reservations {
        return Failure(IllegalArgument);
      }
      var r := reservations[reservationId];
      if r.status != ACTIVE {
        return Failure(IllegalState);
      }
      ghost var before := View();
      var slot := r.slot;
      slot.SetOccupied(false);
      r.SetEndedAt(Some(now));
      r.SetStatus(COMPLETED);
      SlotViewAfter(slot);
      ReservationViewAfter(r);
      ReleasePreservesInv(before, reservationId, now);
      assert View() == Release(before, reservationId, now).value;
      StillValid(r);
      result := Success(r);
    }

    // ------------------------------------------------------------ admin utilities

    /** Storing a new slot object under its own id adds only its record to the view. */
    twostate lemma SlotViewAdded(new s: ParkingSlot)
      requires slots == old(slots)[s.id := s] && s.id !in old(slots)
      requires forall k :: k in old(slots) ==> unchanged(slots[k])
      ensures SlotsView() == old(SlotsView())[s.id := SlotRecordOf(s)]
    {
    }

    /** Dropping a key of the inventory map drops only that slot's record from the view. */
    twostate lemma SlotViewRemoved(id: int32)
      requires slots == old(slots) - {id}
      requires forall k :: k in slots ==> unchanged(slots[k])
      ensures SlotsView() == old(SlotsView()) - {id}
    {
    }

    /** Validity survives a change of the inventory map alone that keeps every slot a holder refers to. */
    twostate lemma StillValidInventory()
      requires old(Valid()) && this !in Repr && old(Repr) <= Repr
      requires forall k :: k in slots && k !in old(slots) ==> slots[k] in Repr
      requires reservations == old(reservations) && unchanged(reservations.Values)
      requires forall k :: k in slots ==> slots[k].id == k
      requires forall k :: k in old(slots) && k in slots ==> slots[k] == old(slots[k])
      requires forall t :: t in reservations && Holds(reservations[t].status) ==>
        reservations[t].slot.id in slots
      requires Inv(View())
      ensures Valid()
    {
    }

    /** `addSlot(id, location)`. */
    method AddSlot(id: int32, location: string) returns (outcome: Outcome<Error>)
      requires Valid()
      modifies this
      ensures Valid() && reservations == old(reservations)
      ensures outcome.Fail? ==>
        ParkingModel.AddSlot(old(View()), id, location) == Failure(outcome.error) && slots == old(slots)
        && Repr == old(Repr)
      ensures outcome.Pass? ==>
        && id !in old(slots) && id in slots && fresh(slots[id]) && slots == old(slots)[id := slots[id]]
        && Repr == old(Repr) + {slots[id]}
        && ParkingModel.AddSlot(old(View()), id, location) == Success(View())
    {
      if id in slots {
        return Fail(IllegalArgument);
      }
      ghost var before := View();
      var slot := new ParkingSlot(id, location);
      slots := slots[id := slot];
      Repr := Repr + {slot};
      AddSlotPreservesInv(before, id, location);
      SlotViewAdded(slot);
      ReservationsViewKept();
      assert View() == ParkingModel.AddSlot(before, id, location).value;
      StillValidInventory();
      outcome := Pass;
    }

    /** `removeSlot(id)`. */
    method RemoveSlot(id: int32) returns (outcome: Outcome<Error>)
      requires Valid()
      modifies this
      ensures Valid() && reservations == old(reservations) && Repr == old(Repr)
      ensures outcome.Fail? ==>
        ParkingModel.RemoveSlot(old(View()), id) == Failure(outcome.error) && slots == old(slots)
      ensures outcome.Pass? ==>
        slots == old(slots) - {id} && ParkingModel.RemoveSlot(old(View()), id) == Success(View())
    {
      if id !in slots {
        return Fail(IllegalArgument);
      }
      var s := slots[id];
      if s.occupied || s.reserved {
        return Fail(IllegalState);
      }
      ghost var before := View();
      // no reservation holds the free slot, so every holder's slot stays in the inventory
      forall t | t in reservations && reservations[t].slot.id == id
        ensures !Holds(reservations[t].status)
      {
        FreeSlotUnheld(before, id, t);
      }
      slots := slots - {id};
      RemoveSlotPreservesInv(before, id);
      SlotViewRemoved(id);
      ReservationsViewKept();
      assert View() == ParkingModel.RemoveSlot(before, id).value;
      StillValidInventory();
      outcome := Pass;
    }

    // ------------------------------------------------------------ queries

    /** `findReservationById(id)`: the reservation stored under `id`, if any. */
    function FindReservationById(id: string): (found: Option<Reservation>)
      reads this, slots.Values, reservations.Values
      ensures found.Some? <==> id in View().reservations
      ensures found.Some? ==>
        found.value == reservations[id] && ReservationRecordOf(found.value) == View().reservations[id]
    {
      if id in reservations then Some(reservations[id]) else None
    }

    /** The ids of the slots neither occupied nor reserved. */
    function FreeIds(): (ids: set<int32>)
      reads this, slots.Values
    {
      set k | k in slots && !slots[k].occupied && !slots[k].reserved
    }

    lemma FreeIdsAreTheViewsAvailable()
      ensures FreeIds() == set k | k in View().slots && Available(View().slots[k])
    {
      forall k ensures k in FreeIds() <==> k in View().slots && Available(View().slots[k]) {
        if k in slots {
          assert View().slots[k] == SlotRecordOf(slots[k]);
        }
      }
    }

    /** The slot objects stored under `ids`, in that order. */
    function SlotsAt(ids: seq<int32>): (r: seq<ParkingSlot>)
      requires forall i :: 0 <= i < |ids| ==> ids[i] in slots
      reads this
      ensures |r| == |ids| && forall i :: 0 <= i < |ids| ==> r[i] == slots[ids[i]]
    {
      if ids == [] then [] else SlotsAt(ids[..|ids| - 1]) + [slots[ids[|ids| - 1]]]
    }

    /** `listAvailableSlots()`: the slots neither occupied nor reserved, by ascending id. */
    function ListAvailableSlots(): (free: seq<ParkingSlot>)
      requires Keyed()
      reads this, slots.Values, reservations.Values
      ensures |free| == |AvailableIds(View())|
      ensures forall i :: 0 <= i < |free| ==> free[i].id == AvailableIds(View())[i]
      ensures forall i :: 0 <= i < |free| ==>
        free[i].id in slots && free[i] == slots[free[i].id] && !free[i].occupied && !free[i].reserved
      ensures forall k :: k in slots && !slots[k].occupied && !slots[k].reserved ==> slots[k] in free
      ensures forall i, j :: 0 <= i < j < |free| ==> free[i].id < free[j].id
    {
      FreeListing();
      SlotsAt(Sorted(FreeIds()))
    }

    /** The free slots listed by ascending id are the view's available ids, each with its own object. */
    lemma FreeListing()
      requires Keyed()
      ensures var ids := Sorted(FreeIds());
        && ids == AvailableIds(View())
        && (forall i :: 0 <= i < |ids| ==> ids[i] in slots)
        && var free := SlotsAt(ids);
        && (forall i :: 0 <= i < |free| ==>
             free[i].id == ids[i] && free[i] == slots[free[i].id] && !free[i].occupied && !free[i].reserved)
        && (forall k :: k in slots && !slots[k].occupied && !slots[k].reserved ==> slots[k] in free)
    {
      FreeIdsAreTheViewsAvailable();
      var ids := Sorted(FreeIds());
      assert forall i :: 0 <= i < |ids| ==> ids[i] in FreeIds();
      var free := SlotsAt(ids);
      forall k | k in slots && !slots[k].occupied && !slots[k].reserved ensures slots[k] in free {
        assert k in FreeIds();
        var i :| 0 <= i < |ids| && ids[i] == k;
        assert free[i] == slots[k];
      }
    }

    /** `listAllSlots()`: every slot object once, in the map's (unspecified) iteration order. */
    method ListAllSlots() returns (all: seq<ParkingSlot>)
      requires Valid()
      ensures |all| == |slots|
      ensures forall s :: s in all <==> s in slots.Values
      ensures forall i, j :: 0 <= i < j < |all| ==> all[i] != all[j]
    {
      ghost var keys;
      all, keys := ValuesOf(slots);
      forall i, j | 0 <= i < j < |all| ensures all[i] != all[j] {
        assert all[i].id == keys[i] && all[j].id == keys[j];
      }
    }

    /** `listReservations()`: every reservation object once, in the map's (unspecified) iteration order. */
    method ListReservations() returns (all: seq<Reservation>)
      requires Valid()
      ensures |all| == |reservations|
      ensures forall r :: r in all <==> r in reservations.Values
      ensures forall i, j :: 0 <= i < j < |all| ==> all[i] != all[j]
    {
      ghost var keys;
      all, keys := ValuesOf(reservations);
      forall i, j | 0 <= i < j < |all| ensures all[i] != all[j] {
        assert all[i].id == keys[i] && all[j].id == keys[j];
      }
    }
  }
}
