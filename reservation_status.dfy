/** The reservation lifecycle: RESERVED -> ACTIVE -> COMPLETED, and the unused CANCELLED. */
module Status {

  datatype ReservationStatus = RESERVED | ACTIVE | COMPLETED | CANCELLED

  /** The status a reservation is created with. */
  const InitialStatus: ReservationStatus := RESERVED

  /** Position in the lifecycle; no service operation lowers it. */
  function Rank(s: ReservationStatus): (rank: nat)
  {
    match s
    case RESERVED => 0
    case ACTIVE => 1
    case COMPLETED => 2
    case CANCELLED => 2
  }

  /** A status that still holds its slot: reserved or occupied. */
  predicate Holds(s: ReservationStatus)
  {
    s == RESERVED || s == ACTIVE
  }

  /** The transitions the service performs: occupy (RESERVED to ACTIVE) and release (ACTIVE to COMPLETED). */
  predicate Transition(from: ReservationStatus, to: ReservationStatus)
  {
    (from == RESERVED && to == ACTIVE) || (from == ACTIVE && to == COMPLETED)
  }

  /** What one service operation can do to the status of an existing reservation. */
  predicate StepOrStay(from: ReservationStatus, to: ReservationStatus)
  {
    from == to || Transition(from, to)
  }

  lemma ExactlyFourStatuses(s: ReservationStatus)
    ensures s in {RESERVED, ACTIVE, COMPLETED, CANCELLED}
    ensures |{RESERVED, ACTIVE, COMPLETED, CANCELLED}| == 4
  {
  }

  lemma TransitionsGoForward(from: ReservationStatus, to: ReservationStatus)
    requires Transition(from, to)
    ensures Rank(from) < Rank(to)
  {
  }

  /** ACTIVE is entered only from RESERVED, COMPLETED only from ACTIVE; COMPLETED and CANCELLED are terminal
      and nothing enters CANCELLED. */
  lemma TransitionShape(from: ReservationStatus, to: ReservationStatus)
    requires Transition(from, to)
    ensures to == ACTIVE ==> from == RESERVED
    ensures to == COMPLETED ==> from == ACTIVE
    ensures from != COMPLETED && from != CANCELLED
    ensures to != CANCELLED && to != RESERVED
  {
  }
}
