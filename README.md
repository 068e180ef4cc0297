# Smart parking: reservation lifecycle

A Dafny model of the in-memory parking service of `smart_parking_system`. The model covers:

- `ParkingService`, which seeds ten slots and keeps two maps, slot id to `ParkingSlot` and reservation token to
  `Reservation`;
- the two record classes, `ParkingSlot` and `Reservation`;
- the `ReservationStatus` lifecycle.

It is built in two layers.

- **ParkingModel** (`parking_model.dfy`) models the service's state as values (`State`: a map of
  `SlotRecord`s and a map of `ReservationRecord`s). Each operation (`Reserve`, `Occupy`, `Release`, `AddSlot`,
  `RemoveSlot`) is a function returning `Result<State, Error>`. The two `Error`s are the two exception classes
  the service throws on its guards, IllegalArgumentException and IllegalStateException; the
  NullPointerException a null token would raise has no counterpart (see "Left out"). `Inv` is the cross-object
  invariant:
  - maps are keyed by their records' ids;
  - a slot is reserved exactly when a RESERVED reservation holds it, and occupied exactly when an ACTIVE one
    does;
  - at most one live reservation holds any slot, and that slot is in the inventory;
  - timestamps agree with the status.

  **ParkingProperties** (`parking_properties.dfy`) proves that the invariant holds initially and after every
  operation, the exact outcome and effect of each operation, the forward-only lifecycle, and the test
  scenarios.
- **Service** (`parking_service.dfy`) models the Java class. `ParkingService` has `slots: map<int32,
  ParkingSlot>` and `reservations: map<string, Reservation>` fields that its methods update in place. They
  change slots and reservations through the setters of `Slots.ParkingSlot` and `Reservations.Reservation`, in
  the order the Java code calls them. Each mutating method is proved to move its objects from `old(View())` to
  exactly the state the matching `ParkingModel` function computes, or to change nothing and report the same
  exception. `Valid()` is the class invariant. It says that:
  - the service owns its objects;
  - each map is keyed by its objects' ids;
  - every live reservation points at the slot object stored under its slot id;
  - the represented state satisfies `Inv`.

Java's `int` is `JavaInt.int32`. Hash codes use explicit two's-complement wrap-around (`JavaInt.Wrap`), and
`String.hashCode` is written out character by character.

The slot id stored in a `ReservationRecord` abstracts the Java reference to the slot object. This is safe
because `removeSlot` refuses a busy slot, so under the invariant only a COMPLETED reservation can refer to a
slot that is no longer stored.

`addSlot` throws IllegalArgumentException for a duplicate id (`ParkingService.java:110`), although the other
conflicts (a busy slot, a reservation in the wrong state) throw IllegalStateException. `ParkingModel.AddSlot`
fails with `IllegalArgument` accordingly.

## Model

| member | source | states |
|---|---|---|
| Service.ParkingService.constructor | src/main/service/ParkingService.java:22-31 | The nested loop over rows 'A', 'B' and i = 1..5 stores ten fresh slots. The resulting view is `Initial()` (ids 1..10, labels A1..A5 and B1..B5, all free, no reservations) and the object is `Valid()`. |
| Service.ParkingService.SeededIsInitial | src/main/service/ParkingService.java:22-31 | Once the loops have stored the seed slots for ids 1..10 and there is no reservation, the view is `Initial()` and the class invariant holds. |
| ParkingProperties.InitialIsValid | src/main/service/ParkingService.java:22-31 | The seeded state satisfies the invariant. |
| ParkingProperties.InitialKeys | src/main/service/ParkingService.java:22-31 | The seeded inventory has exactly the keys 1..10, so ten slots. |
| ParkingProperties.InitialInventory | src/main/service/ParkingService.java:22-31 | Ten slots with ids 1..10, each stored under its own id and available, labelled A1..A5 and B1..B5. There are no reservations. |
| ParkingProperties.InitialAvailableIds | src/test/ParkingServiceTest.java:41-52 | Initially `listAvailableSlots()` lists the ids 1..10 in order, so it is not empty. |
| Flows.InitialListNotEmpty | src/test/ParkingServiceTest.java:41-52 | A client that constructs a service and calls `ListAvailableSlots()` gets ten slots whose ids are 1..10 in order. |
| Service.ParkingService.ListAvailableSlots | src/main/service/ParkingService.java:37-42 | The result is the stored slot objects that are neither occupied nor reserved, each exactly once. It is in strictly ascending id order, and its ids are `AvailableIds(View())`. |
| Service.ParkingService.FreeListing | src/main/service/ParkingService.java:37-42 | The free ids sorted ascending are the view's `AvailableIds`. The objects looked up under them are exactly the free stored slots. |
| Service.ParkingService.FreeIdsAreTheViewsAvailable | src/main/service/ParkingService.java:39 | The filter `!isOccupied() && !isReserved()` on the objects selects the same ids as `Available` on the view. |
| ParkingProperties.AvailableIdsAreTheFreeSlots | src/main/service/ParkingService.java:37-42 | An id is listed exactly when its slot is neither occupied nor reserved (both directions). The list is strictly ascending. |
| Sorting.Sorted | src/main/service/ParkingService.java:40 | The sort is a permutation of the id set (the same length and the same elements), and it is strictly increasing. |
| Sorting.SortedIsUnique | src/main/service/ParkingService.java:40 | Any strictly increasing sequence with the elements of a set is `Sorted` of that set. |
| Service.ParkingService.ListAllSlots | src/main/service/ParkingService.java:33-35 | The result holds every stored slot object, exactly once, and nothing else. |
| Service.ParkingService.ListReservations | src/main/service/ParkingService.java:104-106 | The result holds every stored reservation object, exactly once, and nothing else. |
| Service.ValuesOf | src/main/service/ParkingService.java:34 | Copying a map's values visits every key once in some order. The i-th value is the one stored under the i-th key. |
| Service.ParkingService.FindReservationById | src/main/service/ParkingService.java:100-102 | The result is present exactly when the token is stored, and then it is that object, whose record is the view's. |
| Service.ParkingService.ReserveSlot | src/main/service/ParkingService.java:47-61 | On failure, the model's `Reserve` gives the same exception for every token, and nothing changes. On success, a fresh reservation is stored under an unused token and the new view is `Reserve(old view, …)`. Only the service's fields and the stored slot objects may change. `Valid()` is kept. |
| Service.FreshTokenExists | src/main/service/ParkingService.java:56 | A token not yet in use always exists. This is all the model assumes of `UUID.randomUUID()`. |
| ParkingProperties.ReserveOutcome | src/main/service/ParkingService.java:48-54 | IllegalArgumentException exactly when the slot is unknown, IllegalStateException exactly when it is occupied or reserved, success exactly when it is available. |
| ParkingProperties.ReserveEffect | src/main/service/ParkingService.java:55-60 | The slot becomes reserved, and exactly one reservation is added under the fresh token: RESERVED, for that user and slot, created now, with no start or end. Every other slot and reservation is unchanged. |
| ParkingProperties.ReservePreservesInv | src/main/service/ParkingService.java:47-61 | A successful reservation keeps the invariant and is a lifecycle step. |
| Service.ParkingService.OccupySlot | src/main/service/ParkingService.java:66-80 | On failure, the model's `Occupy` gives that exception and no object changes. On success, the stored reservation is returned and the new view is `Occupy(old view, …)`. Only stored slot and reservation objects may change, and the maps stay as they are. `Valid()` is kept. |
| ParkingProperties.OccupyOutcome | src/main/service/ParkingService.java:67-73 | IllegalArgumentException exactly for an unknown token, IllegalStateException exactly for a status other than RESERVED. |
| ParkingProperties.OccupyEffect | src/main/service/ParkingService.java:74-79 | The held slot becomes occupied and not reserved, and the reservation becomes ACTIVE with a start time. Everything else is unchanged. |
| ParkingProperties.OccupyPreservesInv | src/main/service/ParkingService.java:66-80 | A successful occupy keeps the invariant and is a lifecycle step. |
| Service.ParkingService.ReleaseSlot | src/main/service/ParkingService.java:85-98 | On failure, the model's `Release` gives that exception and no object changes. On success, the stored reservation is returned and the new view is `Release(old view, …)`. Only stored slot and reservation objects may change, and the maps stay as they are. `Valid()` is kept. |
| ParkingProperties.ReleaseOutcome | src/main/service/ParkingService.java:86-92 | IllegalArgumentException exactly for an unknown token, IllegalStateException exactly for a status other than ACTIVE. |
| ParkingProperties.ReleaseEffect | src/main/service/ParkingService.java:93-97 | The slot becomes available again, and the reservation becomes COMPLETED with both a start and an end time. Everything else is unchanged. |
| ParkingProperties.ReleasePreservesInv | src/main/service/ParkingService.java:85-98 | A successful release keeps the invariant and is a lifecycle step. |
| Service.ParkingService.AddSlot | src/main/service/ParkingService.java:109-112 | A duplicate id fails as the model's `AddSlot` does, changing nothing. Otherwise one fresh slot is stored under `id`, the new view is `AddSlot(old view, …)`, and reservations are untouched. `Valid()` is kept. |
| ParkingProperties.AddSlotEffect | src/main/service/ParkingService.java:109-112 | IllegalArgumentException exactly for an existing id. Otherwise exactly one available slot is added and nothing else changes. |
| ParkingProperties.AddSlotPreservesInv | src/main/service/ParkingService.java:109-112 | Adding a slot keeps the invariant. |
| Service.ParkingService.RemoveSlot | src/main/service/ParkingService.java:114-119 | Fails as the model's `RemoveSlot` does, changing nothing. Otherwise exactly that key is deleted, the new view is `RemoveSlot(old view, …)`, and reservations are untouched. `Valid()` is kept. |
| ParkingProperties.RemoveSlotEffect | src/main/service/ParkingService.java:114-119 | IllegalArgumentException exactly for an unknown id, IllegalStateException exactly for a busy slot. Otherwise only that key is removed. |
| ParkingProperties.RemoveSlotPreservesInv | src/main/service/ParkingService.java:114-119 | Removing a free slot keeps the invariant. In particular, no live reservation is left pointing at a removed slot. |
| ParkingProperties.FreeSlotUnheld | src/main/service/ParkingService.java:117 | Under the invariant, no RESERVED or ACTIVE reservation refers to an available slot. |
| ParkingProperties.NoSlotBothFlags | src/main/service/ParkingService.java:75-76 | Under the invariant, no slot is both occupied and reserved. |
| ParkingProperties.AvailableIffUnheld | src/main/service/ParkingService.java:52-55 | Under the invariant, a slot is available exactly when no RESERVED or ACTIVE reservation refers to it (both directions). |
| ParkingProperties.SecondReserveFails | src/test/ParkingServiceTest.java:83-105 | After one successful reservation of a slot, a second reservation of that slot fails with IllegalStateException. |
| ParkingProperties.OutOfOrderCallsFail | src/main/service/ParkingService.java:66-98 | Right after a reservation, release fails with IllegalStateException and occupy succeeds. A second occupy then fails with IllegalStateException. |
| ParkingProperties.CompletedIsFinal | src/main/service/ParkingService.java:66-98 | Occupy and release of a COMPLETED reservation both fail with IllegalStateException. |
| ParkingProperties.LifecycleRestoresInventory | src/main/service/ParkingService.java:47-98 | Reserve, occupy and release of an available slot all succeed. Afterwards the inventory is exactly as before, so the available list is the same. The one new reservation is COMPLETED with all three timestamps. |
| ParkingProperties.SeedReserveFirst | src/test/ParkingServiceTest.java:54-64 | In the seeded service, reserving slot 1 succeeds and leaves ids 2..10 available. |
| ParkingProperties.SeedScenario | src/test/ParkingServiceTest.java:54-81 | In the seeded service, reserve, occupy and release of slot 1 give RESERVED, then occupied and not reserved, then COMPLETED and free again, so all ten slots are listed again. |
| ParkingProperties.StepIsEvolution | src/main/service/ParkingService.java:47-119 | One operation's effect on reservations is the forward-only evolution: none is lost, none changes identity, user, slot or creation time, no status goes back, and nothing becomes CANCELLED. |
| ParkingProperties.EvolvesTransitive | src/main/service/ParkingService.java:47-119 | Forward-only evolution composes, so it holds over any sequence of operations. |
| Status.ExactlyFourStatuses | src/main/java/com/example/smartparking/model/ReservationStatus.java:6-11 | Every status is one of the four values, and the four are distinct. |
| Status.TransitionsGoForward | src/main/service/ParkingService.java:71-96 | Every transition the service performs raises the lifecycle rank. |
| Status.TransitionShape | src/main/service/ParkingService.java:71-96 | ACTIVE is entered only from RESERVED and COMPLETED only from ACTIVE. COMPLETED and CANCELLED have no outgoing transition, and nothing enters CANCELLED or RESERVED. |
| Slots.ParkingSlot.constructor | src/main/java/com/example/smartparking/model/ParkingSlot.java:15-20 | A new slot has the given id and location and is neither occupied nor reserved. |
| Slots.ParkingSlot.SetOccupied | src/main/java/com/example/smartparking/model/ParkingSlot.java:34-36 | Sets `occupied` and changes no other field. |
| Slots.ParkingSlot.SetReserved | src/main/java/com/example/smartparking/model/ParkingSlot.java:42-44 | Sets `reserved` and changes no other field. |
| Slots.SlotEqualityIsEquivalence | src/main/java/com/example/smartparking/model/ParkingSlot.java:56-62 | Id equality is reflexive, symmetric and transitive, and never holds for null. |
| Slots.SlotEqualityMatchesHash | src/main/java/com/example/smartparking/model/ParkingSlot.java:56-67 | Equal slots have equal hash codes. |
| Slots.SlotHashValue | src/main/java/com/example/smartparking/model/ParkingSlot.java:64-67 | `Objects.hash(id)` is 31 + id when that does not overflow. |
| Reservations.Reservation.constructor | src/main/model/Reservation.java:19-25 | A new reservation has the given id, user and slot and is created now. It is RESERVED, with no start or end time. |
| Reservations.Reservation.SetStartedAt | src/main/model/Reservation.java:47-49 | Sets `startedAt` and changes no other field. |
| Reservations.Reservation.SetEndedAt | src/main/model/Reservation.java:55-57 | Sets `endedAt` and changes no other field. |
| Reservations.Reservation.SetStatus | src/main/model/Reservation.java:63-65 | Sets `status` and changes no other field. |
| Reservations.ReservationEqualityIsEquivalence | src/main/model/Reservation.java:78-84 | Id equality is reflexive, symmetric and transitive, and never holds for null. |
| Reservations.ReservationEqualityMatchesHash | src/main/model/Reservation.java:78-89 | Equal reservations have equal hash codes. |
| JavaInt.Wrap | src/main/model/Reservation.java:86-89 | Truncation to `int` is congruent to its argument modulo 2^32 and is the identity on the `int` range. |
| JavaInt.StringHashIsPolynomial | src/main/model/Reservation.java:86-89 | The wrapping, character-by-character `String.hashCode` agrees modulo 2^32 with the polynomial sum of s[i]·31^(n-1-i). This checks the model of the library hash that `Reservations.Reservation.HashCode` uses. |
| ParkingModel.Initial | src/main/service/ParkingService.java:22-31 | The state the constructor seeds. Its content is stated by `InitialKeys`, `InitialInventory` and `InitialIsValid`, and the constructor is proved to produce it. |
| ParkingModel.Location | src/main/service/ParkingService.java:27 | `String.format("%s%d", r, i)` for a one-digit i: the row letter followed by the digit. `InitialInventory` states the ten labels it gives. |
| ParkingModel.AvailableIds | src/main/service/ParkingService.java:37-42 | The ids `listAvailableSlots()` returns, in its order. `AvailableIdsAreTheFreeSlots` states what they are, and `ListAvailableSlots` returns the objects under them. |
| ParkingModel.Reserve | src/main/service/ParkingService.java:47-61 | `reserveSlot` on the state, with the token and the clock reading as parameters. `ReserveOutcome`, `ReserveEffect` and `ReservePreservesInv` state its contract, and `ReserveSlot` is proved to implement it. |
| ParkingModel.Occupy | src/main/service/ParkingService.java:66-80 | `occupySlot` on the state. `OccupyOutcome`, `OccupyEffect` and `OccupyPreservesInv` state its contract, and `OccupySlot` is proved to implement it. |
| ParkingModel.Release | src/main/service/ParkingService.java:85-98 | `releaseSlot` on the state. `ReleaseOutcome`, `ReleaseEffect` and `ReleasePreservesInv` state its contract, and `ReleaseSlot` is proved to implement it. |
| ParkingModel.AddSlot | src/main/service/ParkingService.java:109-112 | `addSlot` on the state. `AddSlotEffect` and `AddSlotPreservesInv` state its contract, and `ParkingService.AddSlot` is proved to implement it. |
| ParkingModel.RemoveSlot | src/main/service/ParkingService.java:114-119 | `removeSlot` on the state. `RemoveSlotEffect` and `RemoveSlotPreservesInv` state its contract, and `ParkingService.RemoveSlot` is proved to implement it. |
| Slots.ParkingSlot.Equals | src/main/java/com/example/smartparking/model/ParkingSlot.java:56-62 | `equals`: another slot with the same id, never null. `SlotEqualityIsEquivalence` and `SlotEqualityMatchesHash` state its contract. |
| Slots.ParkingSlot.HashCode | src/main/java/com/example/smartparking/model/ParkingSlot.java:64-67 | `Objects.hash(id)` in `int` arithmetic. `SlotEqualityMatchesHash` and `SlotHashValue` state its contract. |
| Reservations.Reservation.Equals | src/main/model/Reservation.java:78-84 | `equals`: another reservation with the same id, never null. `ReservationEqualityIsEquivalence` and `ReservationEqualityMatchesHash` state its contract. |
| Reservations.Reservation.HashCode | src/main/model/Reservation.java:86-89 | `Objects.hash(id)` over the id string's `hashCode()`, in `int` arithmetic. `ReservationEqualityMatchesHash` states its contract. |
| JavaInt.StringHash | src/main/model/Reservation.java:88 | `String.hashCode()` as the JDK computes it, h := 31 * h + c with wrap-around. `StringHashIsPolynomial` relates it to the documented formula. |
| JavaInt.HashOne | src/main/model/Reservation.java:88 | `Objects.hash(v)` of one value with hash h: 31 + h, wrapped. `SlotHashValue` states its value for slot ids. |

## Left out

- Concurrency: `synchronized`, `ConcurrentHashMap` and `volatile` are not modelled. Every method runs atomically on one sequential object, so the race the lock prevents is not modelled. `SecondReserveFails` is the serialised form of two competing callers.
- Randomness: `UUID.randomUUID()` is a token chosen nondeterministically (`:|`) among those not in use. Its format and its collision probability are not modelled, and that choice is not compilable as written.
- Clock: `LocalDateTime.now()` is a `now` parameter of an abstract `Timestamp` type. Only whether a timestamp is set is modelled; no ordering between `createdAt`, `startedAt` and `endedAt` is claimed.
- `User` is an abstract type; its fields are not part of this model.
- `toString` methods, `String.format` and exception messages are not modelled. `Error` carries only the exception class, not strings such as `"Slot not found: " + slotId` (`ParkingService.java:50, 53, 69, 72, 88, 91, 110, 116, 117`). The only formatting modelled is the two-character labels the constructor builds for i = 1..5.
- Service.ParkingService.ListAllSlots: hash-map iteration order is unspecified, so the order is arbitrary (chosen by `:|`); only the elements and their multiplicity are stated.
- Service.ParkingService.ListReservations: the same, for reservations.
- Getters are the classes' fields, read directly.
- Null arguments: a null token makes `reservations.get` of the `ConcurrentHashMap` throw NullPointerException, so `occupySlot(null)`, `releaseSlot(null)` and `findReservationById(null)` throw (`ParkingService.java:67, 86, 101`). Dafny strings cannot be null, so this error path is not modelled, and neither is a null `location` or `user`.
- Ownership: the service hands out its live `ParkingSlot` and `Reservation` objects, and their setters are public, so a Java caller can change a slot's flags or a reservation's status directly. That breaks the invariant: for example, `reserveSlot` then throws IllegalStateException for a slot that no reservation holds. Every service method here requires `Valid()`, which keeps the objects owned by the service (through `Repr`), so callers that change them behind the service's back are not modelled.
- Java `equals` also compares `getClass()`. The model has no subclasses, so equality is id equality between objects of the class.
- `String.hashCode` works on UTF-16 code units. The model uses Dafny `char` values, which agree for characters in the Basic Multilingual Plane.
- `Main.java` and the test runner's printing and exit code are not part of this model. The test runner's reserve/occupy/release flow and its second-reservation check are proved on the state model (`SeedScenario`, `SecondReserveFails`) rather than against a service object. `Flows.InitialListNotEmpty` is the one test-runner flow stated against the class, as a client of a freshly built service.
- Service.ParkingService.ListAvailableSlots: requires `Keyed()`, the part of the class invariant saying each slot is stored under its own id, which the constructor and every method keep. The Java method itself has no precondition. Without it, the ids of the listed objects would not be the map's keys.
