/** Properties of the parking state machine: the invariant holds initially and after every operation, the
    lifecycle only moves forward, and the scenarios the service is built for. */
module ParkingProperties {
  import opened Wrappers
  import opened JavaInt
  import opened Status
  import opened Sorting
  import opened Reservations
  import opened ParkingModel

  lemma InitialIsValid()
    ensures Inv(Initial())
  {
  }

  /** A slot whose reservations are the same in two states is held in one exactly when in the other. */
  lemma SameHolders(st: State, st': State, k: int32, s: ReservationStatus)
    requires forall t :: HeldWith(st', t, k, s) <==> HeldWith(st, t, k, s)
    ensures (exists t :: HeldWith(st', t, k, s)) <==> (exists t :: HeldWith(st, t, k, s))
  {
    if exists t :: HeldWith(st', t, k, s) {
      var t :| HeldWith(st', t, k, s);
      assert HeldWith(st, t, k, s);
    }
    if exists t :: HeldWith(st, t, k, s) {
      var t :| HeldWith(st, t, k, s);
      assert HeldWith(st', t, k, s);
    }
  }

  /** Tracking carries over to a state where the slot and the reservations holding it are unchanged. */
  lemma TrackedTransfer(st: State, st': State, k: int32)
    requires k in st.slots && k in st'.slots && st'.slots[k] == st.slots[k]
    requires forall t, s :: HeldWith(st', t, k, s) <==> HeldWith(st, t, k, s)
    requires Tracked(st, k)
    ensures Tracked(st', k)
  {
    SameHolders(st, st', k, RESERVED);
    SameHolders(st, st', k, ACTIVE);
  }

  /** Under the invariant an available slot is held by no reservation. */
  lemma FreeSlotUnheld(st: State, k: int32, t: string)
    requires FlagsTracked(st)
    requires k in st.slots && Available(st.slots[k])
    requires t in st.reservations && st.reservations[t].slotId == k
    ensures !Holds(st.reservations[t].status)
  {
    assert Tracked(st, k);
    assert !HeldWith(st, t, k, RESERVED) && !HeldWith(st, t, k, ACTIVE);
  }

  /** Under the invariant a slot held by one reservation is held by no other. */
  lemma OnlyHolder(st: State, token: string, t: string)
    requires SingleHolder(st)
    requires token in st.reservations && Holds(st.reservations[token].status)
    requires t in st.reservations && t != token && st.reservations[t].slotId == st.reservations[token].slotId
    ensures !Holds(st.reservations[t].status)
  {
  }

  // ---------------------------------------------------------------- reserve

  lemma ReserveKeepsTracking(st: State, user: User, slotId: int32, token: string, now: Timestamp)
    requires FlagsTracked(st) && token !in st.reservations
    requires Reserve(st, user, slotId, token, now).Success?
    ensures FlagsTracked(Reserve(st, user, slotId, token, now).value)
  {
    var st' := Reserve(st, user, slotId, token, now).value;
    forall k | k in st'.slots ensures Tracked(st', k) {
      if k == slotId {
        assert HeldWith(st', token, k, RESERVED);
        forall t ensures !HeldWith(st', t, k, ACTIVE) {
          if t in st.reservations && st.reservations[t].slotId == k { FreeSlotUnheld(st, k, t); }
        }
      } else {
        assert Tracked(st, k);
        TrackedTransfer(st, st', k);
      }
    }
  }

  lemma ReserveKeepsSingleHolder(st: State, user: User, slotId: int32, token: string, now: Timestamp)
    requires FlagsTracked(st) && SingleHolder(st) && token !in st.reservations
    requires Reserve(st, user, slotId, token, now).Success?
    ensures SingleHolder(Reserve(st, user, slotId, token, now).value)
  {
    forall t | t in st.reservations && st.reservations[t].slotId == slotId
      ensures !Holds(st.reservations[t].status)
    {
      FreeSlotUnheld(st, slotId, t);
    }
  }

  lemma ReservePreservesInv(st: State, user: User, slotId: int32, token: string, now: Timestamp)
    requires Inv(st) && token !in st.reservations
    requires Reserve(st, user, slotId, token, now).Success?
    ensures Inv(Reserve(st, user, slotId, token, now).value)
    ensures Step(st, Reserve(st, user, slotId, token, now).value)
  {
    ReserveKeepsTracking(st, user, slotId, token, now);
    ReserveKeepsSingleHolder(st, user, slotId, token, now);
  }

  // ---------------------------------------------------------------- occupy

  lemma OccupyKeepsTracking(st: State, token: string, now: Timestamp)
    requires FlagsTracked(st) && SingleHolder(st)
    requires Occupy(st, token, now).Success?
    ensures FlagsTracked(Occupy(st, token, now).value)
  {
    var st' := Occupy(st, token, now).value;
    var slotId := st.reservations[token].slotId;
    forall k | k in st'.slots ensures Tracked(st', k) {
      if k == slotId {
        assert HeldWith(st', token, k, ACTIVE);
        forall t ensures !HeldWith(st', t, k, RESERVED) {
          if t != token && t in st.reservations && st.reservations[t].slotId == k { OnlyHolder(st, token, t); }
        }
      } else {
        assert Tracked(st, k);
        TrackedTransfer(st, st', k);
      }
    }
  }

  lemma OccupyPreservesInv(st: State, token: string, now: Timestamp)
    requires Inv(st)
    requires Occupy(st, token, now).Success?
    ensures Inv(Occupy(st, token, now).value)
    ensures Step(st, Occupy(st, token, now).value)
  {
    OccupyKeepsTracking(st, token, now);
  }

  // ---------------------------------------------------------------- release

  lemma ReleaseKeepsTracking(st: State, token: string, now: Timestamp)
    requires FlagsTracked(st) && SingleHolder(st)
    requires Release(st, token, now).Success?
    ensures FlagsTracked(Release(st, token, now).value)
  {
    var st' := Release(st, token, now).value;
    var slotId := st.reservations[token].slotId;
    forall k | k in st'.slots ensures Tracked(st', k) {
      if k == slotId {
        forall t ensures !HeldWith(st', t, k, ACTIVE) && !HeldWith(st', t, k, RESERVED) {
          if t != token && t in st.reservations && st.reservations[t].slotId == k { OnlyHolder(st, token, t); }
        }
        assert Tracked(st, k);
        assert !st.slots[k].reserved by {
          forall t ensures !HeldWith(st, t, k, RESERVED) {
            if t != token && t in st.reservations && st.reservations[t].slotId == k { OnlyHolder(st, token, t); }
          }
        }
      } else {
        assert Tracked(st, k);
        TrackedTransfer(st, st', k);
      }
    }
  }

  lemma ReleasePreservesInv(st: State, token: string, now: Timestamp)
    requires Inv(st)
    requires Release(st, token, now).Success?
    ensures Inv(Release(st, token, now).value)
    ensures Step(st, Release(st, token, now).value)
  {
    ReleaseKeepsTracking(st, token, now);
  }

  // ---------------------------------------------------------------- admin

  lemma AddSlotPreservesInv(st: State, id: int32, location: string)
    requires Inv(st)
    requires AddSlot(st, id, location).Success?
    ensures Inv(AddSlot(st, id, location).value)
    ensures Step(st, AddSlot(st, id, location).value)
  {
    var st' := AddSlot(st, id, location).value;
    forall k | k in st'.slots ensures Tracked(st', k) {
      if k == id {
        // every held slot is in the inventory, and id was not
        forall t ensures !HeldWith(st', t, k, RESERVED) && !HeldWith(st', t, k, ACTIVE) { }
      } else {
        assert Tracked(st, k);
        TrackedTransfer(st, st', k);
      }
    }
  }

  lemma RemoveSlotPreservesInv(st: State, id: int32)
    requires Inv(st)
    requires RemoveSlot(st, id).Success?
    ensures Inv(RemoveSlot(st, id).value)
    ensures Step(st, RemoveSlot(st, id).value)
  {
    var st' := RemoveSlot(st, id).value;
    // the removed slot was free, so no reservation holds it
    forall t | t in st.reservations && st.reservations[t].slotId == id
      ensures !Holds(st.reservations[t].status)
    {
      FreeSlotUnheld(st, id, t);
    }
    forall k | k in st'.slots ensures Tracked(st', k) {
      assert Tracked(st, k);
      TrackedTransfer(st, st', k);
    }
  }

  // ---------------------------------------------------------------- consequences of the invariant

  /** No slot is both occupied and reserved. */
  lemma NoSlotBothFlags(st: State, k: int32)
    requires Inv(st) && k in st.slots
    ensures !(st.slots[k].occupied && st.slots[k].reserved)
  {
    assert Tracked(st, k);
  }

  /** A slot is available exactly when no RESERVED or ACTIVE reservation refers to it. */
  lemma AvailableIffUnheld(st: State, k: int32)
    requires Inv(st) && k in st.slots
    ensures Available(st.slots[k]) <==>
      forall t :: t in st.reservations && st.reservations[t].slotId == k ==> !Holds(st.reservations[t].status)
  {
    if Available(st.slots[k]) {
      forall t | t in st.reservations && st.reservations[t].slotId == k
        ensures !Holds(st.reservations[t].status)
      {
        FreeSlotUnheld(st, k, t);
      }
    } else {
      assert Tracked(st, k);
    }
  }

  // ---------------------------------------------------------------- construction

  lemma InitialKeys()
    ensures Initial().slots.Keys == {1, 2, 3, 4, 5, 6, 7, 8, 9, 10}
    ensures |Initial().slots| == 10
  {
    assert forall k :: k in Initial().slots.Keys <==> 1 <= k <= 10;
    TheTenIds(Initial().slots.Keys);
  }

  /** The ids 1..10, listed and in order. */
  lemma TheTenIds(keys: set<int32>)
    requires forall k :: k in keys <==> 1 <= k <= 10
    ensures keys == {1, 2, 3, 4, 5, 6, 7, 8, 9, 10} && |keys| == 10
    ensures Sorted(keys) == [1, 2, 3, 4, 5, 6, 7, 8, 9, 10]
  {
    assert keys == {1, 2, 3, 4, 5, 6, 7, 8, 9, 10};
    SortedIsUnique(keys, [1, 2, 3, 4, 5, 6, 7, 8, 9, 10]);
  }

  /** Ten slots with ids 1..10 labelled A1..A5, B1..B5, none occupied or reserved, and no reservations. */
  lemma InitialInventory()
    ensures Initial().slots.Keys == {1, 2, 3, 4, 5, 6, 7, 8, 9, 10}
    ensures |Initial().slots| == 10 && Initial().reservations == map[]
    ensures forall k :: k in Initial().slots ==> Available(Initial().slots[k]) && Initial().slots[k].id == k
    ensures Initial().slots[1].location == "A1" && Initial().slots[2].location == "A2"
    ensures Initial().slots[3].location == "A3" && Initial().slots[4].location == "A4"
    ensures Initial().slots[5].location == "A5" && Initial().slots[6].location == "B1"
    ensures Initial().slots[7].location == "B2" && Initial().slots[8].location == "B3"
    ensures Initial().slots[9].location == "B4" && Initial().slots[10].location == "B5"
  {
    InitialKeys();
  }

  /** Initially `listAvailableSlots()` returns all ten slots in id order, so it is not empty. */
  lemma InitialAvailableIds()
    ensures AvailableIds(Initial()) == [1, 2, 3, 4, 5, 6, 7, 8, 9, 10]
  {
    var free := set k | k in Initial().slots && Available(Initial().slots[k]);
    assert forall k :: k in free <==> 1 <= k <= 10;
    TheTenIds(free);
  }

  /** `listAvailableSlots()` lists exactly the available slots, in strictly ascending id order. */
  lemma AvailableIdsAreTheFreeSlots(st: State)
    ensures forall k :: k in AvailableIds(st) <==> k in st.slots && Available(st.slots[k])
    ensures StrictlyIncreasing(AvailableIds(st))
  {
  }

  // ---------------------------------------------------------------- outcomes of single operations

  /** `reserveSlot` throws IllegalArgumentException exactly for an unknown slot, IllegalStateException exactly
      for a slot that is occupied or reserved, and succeeds otherwise. */
  lemma ReserveOutcome(st: State, user: User, slotId: int32, token: string, now: Timestamp)
    ensures Reserve(st, user, slotId, token, now) == Failure(IllegalArgument) <==> slotId !in st.slots
    ensures Reserve(st, user, slotId, token, now) == Failure(IllegalState) <==>
      slotId in st.slots && !Available(st.slots[slotId])
    ensures Reserve(st, user, slotId, token, now).Success? <==> slotId in st.slots && Available(st.slots[slotId])
  {
  }

  /** A successful reservation marks the slot reserved and adds exactly one RESERVED reservation under the
      fresh token, for the given user and slot; every other slot and reservation is as before. */
  lemma ReserveEffect(st: State, user: User, slotId: int32, token: string, now: Timestamp)
    requires token !in st.reservations
    requires Reserve(st, user, slotId, token, now).Success?
    ensures var st' := Reserve(st, user, slotId, token, now).value;
      && st'.slots.Keys == st.slots.Keys
      && st'.slots[slotId] == st.slots[slotId].(reserved := true)
      && (forall k :: k in st.slots && k != slotId ==> st'.slots[k] == st.slots[k])
      && st'.reservations.Keys == st.reservations.Keys + {token}
      && |st'.reservations| == |st.reservations| + 1
      && st'.reservations[token] == ReservationRecord(token, user, slotId, now, None, None, RESERVED)
      && (forall t :: t in st.reservations ==> st'.reservations[t] == st.reservations[t])
  {
  }

  /** `occupySlot` throws IllegalArgumentException exactly for an unknown token, IllegalStateException exactly
      for a reservation that is not RESERVED, and succeeds otherwise. */
  lemma OccupyOutcome(st: State, token: string, now: Timestamp)
    ensures Occupy(st, token, now) == Failure(IllegalArgument) <==> token !in st.reservations
    ensures Occupy(st, token, now) == Failure(IllegalState) <==>
      token in st.reservations && st.reservations[token].status != RESERVED
  {
  }

  /** A successful occupy makes the slot occupied and no longer reserved, the reservation ACTIVE with a start
      time; every other slot and reservation is as before. */
  lemma OccupyEffect(st: State, token: string, now: Timestamp)
    requires Inv(st)
    requires Occupy(st, token, now).Success?
    ensures var st', r := Occupy(st, token, now).value, st.reservations[token];
      && st'.slots.Keys == st.slots.Keys && r.slotId in st.slots
      && st'.slots[r.slotId] == st.slots[r.slotId].(occupied := true, reserved := false)
      && st'.slots[r.slotId].occupied && !st'.slots[r.slotId].reserved
      && (forall k :: k in st.slots && k != r.slotId ==> st'.slots[k] == st.slots[k])
      && st'.reservations.Keys == st.reservations.Keys
      && st'.reservations[token] == r.(status := ACTIVE, startedAt := Some(now))
      && (forall t :: t in st.reservations && t != token ==> st'.reservations[t] == st.reservations[t])
  {
  }

  /** `releaseSlot` throws IllegalArgumentException exactly for an unknown token, IllegalStateException
      exactly for a reservation that is not ACTIVE, and succeeds otherwise. */
  lemma ReleaseOutcome(st: State, token: string, now: Timestamp)
    ensures Release(st, token, now) == Failure(IllegalArgument) <==> token !in st.reservations
    ensures Release(st, token, now) == Failure(IllegalState) <==>
      token in st.reservations && st.reservations[token].status != ACTIVE
  {
  }

  /** A successful release leaves the slot available, the reservation COMPLETED with a start and an end time;
      every other slot and reservation is as before. */
  lemma ReleaseEffect(st: State, token: string, now: Timestamp)
    requires Inv(st)
    requires Release(st, token, now).Success?
    ensures var st', r := Release(st, token, now).value, st.reservations[token];
      && st'.slots.Keys == st.slots.Keys && r.slotId in st.slots
      && st'.slots[r.slotId] == st.slots[r.slotId].(occupied := false)
      && Available(st'.slots[r.slotId])
      && (forall k :: k in st.slots && k != r.slotId ==> st'.slots[k] == st.slots[k])
      && st'.reservations.Keys == st.reservations.Keys
      && st'.reservations[token] == r.(status := COMPLETED, endedAt := Some(now))
      && st'.reservations[token].startedAt.Some? && st'.reservations[token].endedAt.Some?
      && (forall t :: t in st.reservations && t != token ==> st'.reservations[t] == st.reservations[t])
  {
    var r := st.reservations[token];
    assert Tracked(st, r.slotId);
    assert HeldWith(st, token, r.slotId, ACTIVE);
    forall t ensures !HeldWith(st, t, r.slotId, RESERVED) {
      if t != token && t in st.reservations && st.reservations[t].slotId == r.slotId { OnlyHolder(st, token, t); }
    }
  }

  /** `addSlot` throws IllegalArgumentException exactly for an id already present, and otherwise adds one
      available slot and touches nothing else. */
  lemma AddSlotEffect(st: State, id: int32, location: string)
    ensures AddSlot(st, id, location) == Failure(IllegalArgument) <==> id in st.slots
    ensures AddSlot(st, id, location).Success? ==>
      var st' := AddSlot(st, id, location).value;
      && st'.slots.Keys == st.slots.Keys + {id}
      && st'.slots[id] == SlotRecord(id, location, false, false)
      && (forall k :: k in st.slots ==> st'.slots[k] == st.slots[k])
      && st'.reservations == st.reservations
  {
  }

  /** `removeSlot` throws IllegalArgumentException exactly for an unknown id, IllegalStateException exactly for
      a busy slot, and otherwise deletes that one slot and touches nothing else. */
  lemma RemoveSlotEffect(st: State, id: int32)
    ensures RemoveSlot(st, id) == Failure(IllegalArgument) <==> id !in st.slots
    ensures RemoveSlot(st, id) == Failure(IllegalState) <==> id in st.slots && !Available(st.slots[id])
    ensures RemoveSlot(st, id).Success? ==>
      var st' := RemoveSlot(st, id).value;
      && st'.slots.Keys == st.slots.Keys - {id}
      && (forall k :: k in st'.slots ==> st'.slots[k] == st.slots[k])
      && st'.reservations == st.reservations
  {
  }

  // ---------------------------------------------------------------- the lifecycle

  /** Once a slot is reserved, any further reservation of it fails with IllegalStateException: of two callers
      that the lock serialises, exactly one gets the slot. */
  lemma SecondReserveFails(st: State, u1: User, u2: User, slotId: int32, t1: string, t2: string,
                           now1: Timestamp, now2: Timestamp)
    requires Reserve(st, u1, slotId, t1, now1).Success?
    ensures Reserve(Reserve(st, u1, slotId, t1, now1).value, u2, slotId, t2, now2) == Failure(IllegalState)
  {
  }

  /** Release before occupy, a second occupy, and anything after completion all fail with
      IllegalStateException. */
  lemma OutOfOrderCallsFail(st: State, user: User, slotId: int32, token: string,
                            t0: Timestamp, t1: Timestamp, t2: Timestamp)
    requires Reserve(st, user, slotId, token, t0).Success?
    ensures var s1 := Reserve(st, user, slotId, token, t0).value;
      && Release(s1, token, t1) == Failure(IllegalState)
      && Occupy(s1, token, t1).Success?
      && Occupy(Occupy(s1, token, t1).value, token, t2) == Failure(IllegalState)
  {
  }

  /** COMPLETED has no way out. */
  lemma CompletedIsFinal(st: State, token: string, now: Timestamp)
    requires token in st.reservations && st.reservations[token].status == COMPLETED
    ensures Occupy(st, token, now) == Failure(IllegalState)
    ensures Release(st, token, now) == Failure(IllegalState)
  {
  }

  /** Reserve, occupy, release on an available slot all succeed and give back the inventory exactly as it
      was, with one more reservation, COMPLETED and carrying all three timestamps. */
  lemma LifecycleRestoresInventory(st: State, user: User, slotId: int32, token: string,
                                   t0: Timestamp, t1: Timestamp, t2: Timestamp)
    requires Inv(st) && token !in st.reservations
    requires slotId in st.slots && Available(st.slots[slotId])
    ensures Reserve(st, user, slotId, token, t0).Success?
    ensures var s1 := Reserve(st, user, slotId, token, t0).value;
      Occupy(s1, token, t1).Success? &&
      var s2 := Occupy(s1, token, t1).value;
      Release(s2, token, t2).Success? &&
      var s3 := Release(s2, token, t2).value;
      && s3.slots == st.slots
      && s3.reservations == st.reservations[token := ReservationRecord(token, user, slotId, t0, Some(t1), Some(t2), COMPLETED)]
      && AvailableIds(s3) == AvailableIds(st)
  {
    var s1 := Reserve(st, user, slotId, token, t0).value;
    var s2 := Occupy(s1, token, t1).value;
    var s3 := Release(s2, token, t2).value;
    assert s3.slots == st.slots by {
      assert s3.slots.Keys == st.slots.Keys;
      forall k | k in st.slots ensures s3.slots[k] == st.slots[k] { }
    }
  }

  /** In the seeded service, reserving slot 1 leaves slots 2..10 on the available list. */
  lemma SeedReserveFirst(user: User, token: string, t0: Timestamp)
    ensures Reserve(Initial(), user, 1, token, t0).Success?
    ensures AvailableIds(Reserve(Initial(), user, 1, token, t0).value) == [2, 3, 4, 5, 6, 7, 8, 9, 10]
  {
    var s1 := Reserve(Initial(), user, 1, token, t0).value;
    var free := set k | k in s1.slots && Available(s1.slots[k]);
    assert forall k :: k in free <==> 2 <= k <= 10;
    TheNineIds(free);
  }

  /** The ids 2..10, listed. */
  lemma TheNineIds(keys: set<int32>)
    requires forall k :: k in keys <==> 2 <= k <= 10
    ensures keys == {2, 3, 4, 5, 6, 7, 8, 9, 10}
    ensures Sorted(keys) == [2, 3, 4, 5, 6, 7, 8, 9, 10]
  {
    assert keys == {2, 3, 4, 5, 6, 7, 8, 9, 10};
    SortedIsUnique(keys, [2, 3, 4, 5, 6, 7, 8, 9, 10]);
  }

  /** The seeded service: reserving slot 1 takes it off the available list, occupying it shows it occupied and
      not reserved, and releasing it puts it back, with the reservation COMPLETED. */
  lemma SeedScenario(user: User, token: string, t0: Timestamp, t1: Timestamp, t2: Timestamp)
    ensures Reserve(Initial(), user, 1, token, t0).Success?
    ensures var s1 := Reserve(Initial(), user, 1, token, t0).value;
      && AvailableIds(s1) == [2, 3, 4, 5, 6, 7, 8, 9, 10]
      && Occupy(s1, token, t1).Success?
      && var s2 := Occupy(s1, token, t1).value;
      && s2.slots[1].occupied && !s2.slots[1].reserved
      && Release(s2, token, t2).Success?
      && var s3 := Release(s2, token, t2).value;
      && !s3.slots[1].occupied && !s3.slots[1].reserved
      && s3.reservations[token].status == COMPLETED
      && AvailableIds(s3) == [1, 2, 3, 4, 5, 6, 7, 8, 9, 10]
  {
    InitialIsValid();
    InitialKeys();
    InitialAvailableIds();
    SeedReserveFirst(user, token, t0);
    LifecycleRestoresInventory(Initial(), user, 1, token, t0, t1, t2);
  }

  // ---------------------------------------------------------------- status never goes backwards

  lemma StepIsEvolution(st: State, st': State)
    requires Step(st, st')
    ensures Evolves(st, st')
  {
  }

  lemma {:induction false} EvolvesTransitive(a: State, b: State, c: State)
    requires Evolves(a, b) && Evolves(b, c)
    ensures Evolves(a, c)
  {
    forall t | t in c.reservations && t !in a.reservations
      ensures c.reservations[t].status != CANCELLED
    {
      if t in b.reservations { assert b.reservations[t].status != CANCELLED; }
    }
  }
}
