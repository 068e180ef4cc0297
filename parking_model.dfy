/** The parking service's state as values, its operations as functions, and the invariants they keep.
    The service class is proved to move between exactly these states. */
module ParkingModel {
  import opened Wrappers
  import opened JavaInt
  import opened Status
  import opened Sorting
  import opened Reservations

  /** The two exception classes the service throws. */
  datatype Error = IllegalArgument | IllegalState

  datatype SlotRecord = SlotRecord(id: int32, location: string, occupied: bool, reserved: bool)

  /** A reservation with its slot given by id. */
  datatype ReservationRecord = ReservationRecord(
    id: string, user: User, slotId: int32, createdAt: Timestamp,
    startedAt: Option<Timestamp>, endedAt: Option<Timestamp>, status: ReservationStatus)

  datatype State = State(slots: map<int32, SlotRecord>, reservations: map<string, ReservationRecord>)

  predicate Available(s: SlotRecord)
  {
    !s.occupied && !s.reserved
  }

  // ---------------------------------------------------------------- seeding

  /** `String.format("%s%d", row, i)` for a one-digit i. */
  function Location(row: char, i: int): (text: string)
    requires 0 <= i <= 9
  {
    [row, ('0' as int + i) as char]
  }

  /** The slot the constructor creates as the i-th (1..5) of row r (0 for 'A', 1 for 'B'). */
  function SeedSlot(r: int, i: int): (slot: SlotRecord)
    requires 0 <= r < 2 && 1 <= i <= 5
  {
    SlotRecord((5 * r + i) as int32, Location(if r == 0 then 'A' else 'B', i), false, false)
  }

  /** The seed slot with a given id 1..10. */
  function SeedSlotWithId(id: int32): (slot: SlotRecord)
    requires 1 <= id <= 10
  {
    if id <= 5 then SeedSlot(0, id as int) else SeedSlot(1, id as int - 5)
  }

  /** The state after construction: slots 1..10 labelled A1..A5, B1..B5, all available; no reservations. */
  function Initial(): (st: State)
  {
    State(map id: int32 | 1 <= id <= 10 :: SeedSlotWithId(id), map[])
  }

  // ---------------------------------------------------------------- operations

  /** `reserveSlot(user, slotId)` when the fresh UUID is `token` and the clock reads `now`. */
  function Reserve(st: State, user: User, slotId: int32, token: string, now: Timestamp): (outcome: Result<State, Error>)
  {
    if slotId !in st.slots then Failure(IllegalArgument)
    else
      var s := st.slots[slotId];
      if s.occupied || s.reserved then Failure(IllegalState)
      else
        Success(State(
          st.slots[slotId := s.(reserved := true)],
          st.reservations[token := ReservationRecord(token, user, slotId, now, None, None, RESERVED)]))
  }

  /** `occupySlot(reservationId)` when the clock reads `now`. The slot is changed through the reservation's
      reference to it; a slot no longer in the map is not visible in the state. */
  function Occupy(st: State, token: string, now: Timestamp): (outcome: Result<State, Error>)
  {
    if token !in st.reservations then Failure(IllegalArgument)
    else
      var r := st.reservations[token];
      if r.status != RESERVED then Failure(IllegalState)
      else
        var slots := if r.slotId in st.slots
          then st.slots[r.slotId := st.slots[r.slotId].(reserved := false, occupied := true)]
          else st.slots;
        Success(State(slots, st.reservations[token := r.(status := ACTIVE, startedAt := Some(now))]))
  }

  /** `releaseSlot(reservationId)` when the clock reads `now`. */
  function Release(st: State, token: string, now: Timestamp): (outcome: Result<State, Error>)
  {
    if token !in st.reservations then Failure(IllegalArgument)
    else
      var r := st.reservations[token];
      if r.status != ACTIVE then Failure(IllegalState)
      else
        var slots := if r.slotId in st.slots
          then st.slots[r.slotId := st.slots[r.slotId].(occupied := false)]
          else st.slots;
        Success(State(slots, st.reservations[token := r.(endedAt := Some(now), status := COMPLETED)]))
  }

  /** `addSlot(id, location)`. */
  function AddSlot(st: State, id: int32, location: string): (outcome: Result<State, Error>)
  {
    if id in st.slots then Failure(IllegalArgument)
    else Success(st.(slots := st.slots[id := SlotRecord(id, location, false, false)]))
  }

  /** `removeSlot(id)`. */
  function RemoveSlot(st: State, id: int32): (outcome: Result<State, Error>)
  {
    if id !in st.slots then Failure(IllegalArgument)
    else if st.slots[id].occupied || st.slots[id].reserved then Failure(IllegalState)
    else Success(st.(slots := st.slots - {id}))
  }

  /** The ids `listAvailableSlots()` returns, in its order. */
  function AvailableIds(st: State): (ids: seq<int32>)
  {
    Sorted(set k | k in st.slots && Available(st.slots[k]))
  }

  // ---------------------------------------------------------------- invariants

  /** Reservation t holds slot k with status `status`. */
  ghost predicate HeldWith(st: State, t: string, k: int32, status: ReservationStatus)
  {
    t in st.reservations && st.reservations[t].slotId == k && st.reservations[t].status == status
  }

  /** The timestamps a reservation has are those its status implies. */
  predicate TimesMatchStatus(r: ReservationRecord)
  {
    match r.status
    case RESERVED => r.startedAt.None? && r.endedAt.None?
    case ACTIVE => r.startedAt.Some? && r.endedAt.None?
    case COMPLETED => r.startedAt.Some? && r.endedAt.Some?
    case CANCELLED => false
  }

  /** The maps are keyed by the records' own ids. */
  ghost predicate KeysMatch(st: State)
  {
    && (forall k :: k in st.slots ==> st.slots[k].id == k)
    && (forall t :: t in st.reservations ==> st.reservations[t].id == t)
  }

  /** Slot k is reserved exactly when a RESERVED reservation holds it, and occupied exactly when an ACTIVE
      one does. */
  ghost predicate Tracked(st: State, k: int32)
    requires k in st.slots
  {
    && (st.slots[k].reserved <==> exists t :: HeldWith(st, t, k, RESERVED))
    && (st.slots[k].occupied <==> exists t :: HeldWith(st, t, k, ACTIVE))
  }

  ghost predicate FlagsTracked(st: State)
  {
    forall k :: k in st.slots ==> Tracked(st, k)
  }

  /** At most one RESERVED or ACTIVE reservation holds any slot, and that slot is in the inventory. */
  ghost predicate SingleHolder(st: State)
  {
    && (forall t1, t2 :: t1 in st.reservations && t2 in st.reservations
          && Holds(st.reservations[t1].status) && Holds(st.reservations[t2].status)
          && st.reservations[t1].slotId == st.reservations[t2].slotId
          ==> t1 == t2)
    && (forall t :: t in st.reservations && Holds(st.reservations[t].status) ==>
          st.reservations[t].slotId in st.slots)
  }

  /** Status and timestamps agree in every reservation (so CANCELLED never occurs). */
  ghost predicate TimesConsistent(st: State)
  {
    forall t :: t in st.reservations ==> TimesMatchStatus(st.reservations[t])
  }

  /** The invariant every operation keeps. */
  ghost predicate Inv(st: State)
  {
    KeysMatch(st) && FlagsTracked(st) && SingleHolder(st) && TimesConsistent(st)
  }

  /** What one operation may do to the reservations: none is deleted, none changes its id, user, slot or
      creation time, each status stays or takes one lifecycle step, and new ones start RESERVED. */
  ghost predicate Step(st: State, st': State)
  {
    && st.reservations.Keys <= st'.reservations.Keys
    && (forall t :: t in st.reservations ==>
          var a, b := st.reservations[t], st'.reservations[t];
          a.id == b.id && a.user == b.user && a.slotId == b.slotId && a.createdAt == b.createdAt
          && StepOrStay(a.status, b.status))
    && (forall t :: t in st'.reservations && t !in st.reservations ==>
          st'.reservations[t].status == InitialStatus)
  }

  /** What any sequence of operations does to the reservations: none is deleted, none changes its id, user,
      slot or creation time, no status is lowered, and CANCELLED is never entered. */
  ghost predicate Evolves(st: State, st': State)
  {
    && st.reservations.Keys <= st'.reservations.Keys
    && (forall t :: t in st.reservations ==>
          var a, b := st.reservations[t], st'.reservations[t];
          a.id == b.id && a.user == b.user && a.slotId == b.slotId && a.createdAt == b.createdAt
          && Rank(a.status) <= Rank(b.status)
          && (b.status == CANCELLED ==> a.status == CANCELLED))
    && (forall t :: t in st'.reservations && t !in st.reservations ==>
          st'.reservations[t].status != CANCELLED)
  }
}
