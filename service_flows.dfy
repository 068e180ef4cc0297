/** The first scenario of the service's test runner, as a client of a freshly seeded service. */
module Flows {
  import opened JavaInt
  import opened Slots
  import opened ParkingModel
  import opened ParkingProperties
  import opened Service

  /** The ids 1..10 in order: the i-th is i + 1. */
  lemma CountsFromOne(s: seq<int32>)
    requires s == [1, 2, 3, 4, 5, 6, 7, 8, 9, 10]
    ensures forall i :: 0 <= i < |s| ==> s[i] as int == i + 1
  {
  }

  /** A new service lists all ten seeded slots as available, by id. */
  method InitialListNotEmpty() returns (available: seq<ParkingSlot>)
    ensures |available| == 10
    ensures forall i :: 0 <= i < |available| ==> available[i].id as int == i + 1
  {
    var service := new ParkingService();
    available := service.ListAvailableSlots();
    InitialAvailableIds();
    CountsFromOne(AvailableIds(service.View()));
  }
}
