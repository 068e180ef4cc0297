/** A parking slot: a fixed id and location label, and two mutable flags. */
module Slots {
  import opened JavaInt

  class ParkingSlot {
    const id: int32
    const location: string
    var occupied: bool
    var reserved: bool

    /** A new slot is neither occupied nor reserved. */
    constructor (id: int32, location: string)
      ensures this.id == id && this.location == location
      ensures !occupied && !reserved
    {
      this.id := id;
      this.location := location;
      occupied := false;
      reserved := false;
    }

    method SetOccupied(occupied: bool)
      modifies this`occupied
      ensures this.occupied == occupied
      ensures reserved == old(reserved)
    {
      this.occupied := occupied;
    }

    method SetReserved(reserved: bool)
      modifies this`reserved
      ensures this.reserved == reserved
      ensures occupied == old(occupied)
    {
      this.reserved := reserved;
    }

    /** `equals(Object)`: another slot with the same id; null is never equal. */
    predicate Equals(other: ParkingSlot?)
    {
      other != null && id == other.id
    }

    /** `hashCode()`, that is `Objects.hash(id)`. */
    function HashCode(): (hash: int32)
    {
      HashOne(id)
    }
  }

  lemma SlotEqualityIsEquivalence(a: ParkingSlot, b: ParkingSlot, c: ParkingSlot)
    ensures a.Equals(a)
    ensures a.Equals(b) <==> b.Equals(a)
    ensures a.Equals(b) && b.Equals(c) ==> a.Equals(c)
    ensures !a.Equals(null)
  {
  }

  lemma SlotEqualityMatchesHash(a: ParkingSlot, b: ParkingSlot)
    requires a.Equals(b)
    ensures a.HashCode() == b.HashCode()
  {
  }

  /** For the ids the service uses the hash is 31 + id, with no wrap-around. */
  lemma SlotHashValue(s: ParkingSlot)
    requires s.id as int + 31 <= 0x7fff_ffff
    ensures s.HashCode() as int == 31 + s.id as int
  {
  }
}
