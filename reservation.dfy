/** A reservation of one slot by one user, with its lifecycle status and timestamps. */
module Reservations {
  import opened Wrappers
  import opened JavaInt
  import opened Status
  import opened Slots

  /** The user a reservation is made for; the model never looks inside it. */
  type User

  /** A `LocalDateTime` reading of the clock; only its presence matters here. */
  type Timestamp

  class Reservation {
    const id: string
    const user: User
    const slot: ParkingSlot
    const createdAt: Timestamp
    var startedAt: Option<Timestamp>
    var endedAt: Option<Timestamp>
    var status: ReservationStatus

    /** `now` is the creation time read from the clock. A new reservation is RESERVED, not started, not ended. */
    constructor (id: string, user: User, slot: ParkingSlot, now: Timestamp)
      ensures this.id == id && this.user == user && this.slot == slot && createdAt == now
      ensures status == RESERVED && startedAt == None && endedAt == None
    {
      this.id := id;
      this.user := user;
      this.slot := slot;
      createdAt := now;
      status := RESERVED;
      startedAt := None;
      endedAt := None;
    }

    method SetStartedAt(startedAt: Option<Timestamp>)
      modifies this`startedAt
      ensures this.startedAt == startedAt
      ensures endedAt == old(endedAt) && status == old(status)
    {
      this.startedAt := startedAt;
    }

    method SetEndedAt(endedAt: Option<Timestamp>)
      modifies this`endedAt
      ensures this.endedAt == endedAt
      ensures startedAt == old(startedAt) && status == old(status)
    {
      this.endedAt := endedAt;
    }

    method SetStatus(status: ReservationStatus)
      modifies this`status
      ensures this.status == status
      ensures startedAt == old(startedAt) && endedAt == old(endedAt)
    {
      this.status := status;
    }

    /** `equals(Object)`: another reservation with the same id; null is never equal. */
    predicate Equals(other: Reservation?)
    {
      other != null && id == other.id
    }

    /** `hashCode()`, that is `Objects.hash(id)` over the id string's own hash. */
    function HashCode(): (hash: int32)
    {
      HashOne(StringHash(id))
    }
  }

  lemma ReservationEqualityIsEquivalence(a: Reservation, b: Reservation, c: Reservation)
    ensures a.Equals(a)
    ensures a.Equals(b) <==> b.Equals(a)
    ensures a.Equals(b) && b.Equals(c) ==> a.Equals(c)
    ensures !a.Equals(null)
  {
  }

  lemma ReservationEqualityMatchesHash(a: Reservation, b: Reservation)
    requires a.Equals(b)
    ensures a.HashCode() == b.HashCode()
  {
  }
}
