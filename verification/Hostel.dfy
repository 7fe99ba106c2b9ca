/** Hostel rooms and bed allocations: who sleeps where, and which rooms the desk offers. */
module Hostel {
  import opened Wrappers
  import opened FiniteSets

  datatype Room = Room(hostelId: string, roomNumber: string, capacity: nat)

  datatype Allocation = Allocation(studentId: string, roomId: string, bedNumber: int, active: bool)

  datatype House = House(
    hostels: set<string>, students: set<string>, rooms: map<string, Room>, allocations: map<string, Allocation>)

  datatype Outcome = Outcome(state: House, error: Option<Error>)

  function Fail(s: House, e: Error): Outcome { Outcome(s, Some(e)) }

  predicate Active(s: House, a: string) { a in s.allocations && s.allocations[a].active }

  predicate InBed(s: House, a: string, roomId: string, bed: int) {
    Active(s, a) && s.allocations[a].roomId == roomId && s.allocations[a].bedNumber == bed
  }

  predicate BedTaken(s: House, roomId: string, bed: int) { exists a | a in s.allocations :: InBed(s, a, roomId, bed) }

  predicate BedTakenByOther(s: House, roomId: string, bed: int, id: string) {
    exists a | a in s.allocations :: InBed(s, a, roomId, bed) && a != id
  }

  predicate Resident(s: House, studentId: string) {
    exists a | a in s.allocations :: Active(s, a) && s.allocations[a].studentId == studentId
  }

  function Occupied(s: House, roomId: string): set<string> {
    set a | a in s.allocations && s.allocations[a].active && s.allocations[a].roomId == roomId
  }

  // --- The operations.

  function AllocateStep(s: House, id: string, studentId: string, roomId: string, bed: int): Outcome {
    if studentId !in s.students then Fail(s, BadRequest)
    else if roomId !in s.rooms then Fail(s, NotFound)
    else if bed < 1 || bed > s.rooms[roomId].capacity then Fail(s, BadRequest)
    else if BedTaken(s, roomId, bed) then Fail(s, Conflict)
    else if Resident(s, studentId) then Fail(s, Conflict)
    else if id in s.allocations then Fail(s, Conflict)
    else Outcome(s.(allocations := s.allocations[id := Allocation(studentId, roomId, bed, true)]), None)
  }

  function ReassignStep(s: House, id: string, roomId: string, bed: int): Outcome {
    if id !in s.allocations then Fail(s, NotFound)
    else if !s.allocations[id].active then Fail(s, Conflict)
    else if roomId !in s.rooms then Fail(s, NotFound)
    else if bed < 1 || bed > s.rooms[roomId].capacity then Fail(s, BadRequest)
    else if BedTakenByOther(s, roomId, bed, id) then Fail(s, Conflict)
    else Outcome(s.(allocations := s.allocations[id := s.allocations[id].(roomId := roomId, bedNumber := bed)]), None)
  }

  function VacateStep(s: House, id: string): Outcome {
    if id !in s.allocations then Fail(s, NotFound)
    else if !s.allocations[id].active then Fail(s, Conflict)
    else Outcome(s.(allocations := s.allocations[id := s.allocations[id].(active := false)]), None)
  }

  /** Another room of the hostel has the number, which the table does not allow. */
  predicate NumberTaken(s: House, id: string, room: Room) {
    exists r | r in s.rooms :: r != id && s.rooms[r].hostelId == room.hostelId && s.rooms[r].roomNumber == room.roomNumber
  }

  function CreateRoomStep(s: House, id: string, room: Room): Outcome {
    if room.hostelId !in s.hostels then Fail(s, BadRequest)
    else if id in s.rooms || NumberTaken(s, id, room) then Fail(s, Conflict)
    else Outcome(s.(rooms := s.rooms[id := room]), None)
  }

  /** Editing a room does not look at its residents, so its capacity may drop below an occupied bed. */
  function UpdateRoomStep(s: House, id: string, room: Room): Outcome {
    if id !in s.rooms then Fail(s, NotFound)
    else if room.hostelId !in s.hostels then Fail(s, BadRequest)
    else if NumberTaken(s, id, room) then Fail(s, Conflict)
    else Outcome(s.(rooms := s.rooms[id := room]), None)
  }

  function RemoveRoomStep(s: House, id: string): Outcome {
    if id !in s.rooms then Fail(s, NotFound)
    else if Occupied(s, id) != {} then Fail(s, Conflict)
    else Outcome(s.(rooms := s.rooms - {id},
                    allocations := map a | a in s.allocations && s.allocations[a].roomId != id :: s.allocations[a]), None)
  }

  /** The rooms of a hostel with fewer residents than beds. */
  function ListAvailableRooms(s: House, hostelId: string): Result<set<string>> {
    if hostelId !in s.hostels then Err(BadRequest)
    else Ok(set r | r in s.rooms && s.rooms[r].hostelId == hostelId && |Occupied(s, r)| < s.rooms[r].capacity)
  }

  predicate Offered(s: House, hostelId: string, roomId: string) {
    var listed := ListAvailableRooms(s, hostelId);
    listed.Ok? && roomId in listed.value
  }

  datatype Command =
    | Allocate(id: string, studentId: string, roomId: string, bed: int)
    | Reassign(id: string, roomId: string, bed: int)
    | Vacate(id: string)
    | CreateRoom(roomId: string, room: Room)
    | UpdateRoom(roomId: string, room: Room)
    | RemoveRoom(roomId: string)

  function Step(s: House, c: Command): House {
    match c
    case Allocate(id, student, room, bed) => AllocateStep(s, id, student, room, bed).state
    case Reassign(id, room, bed) => ReassignStep(s, id, room, bed).state
    case Vacate(id) => VacateStep(s, id).state
    case CreateRoom(id, room) => CreateRoomStep(s, id, room).state
    case UpdateRoom(id, room) => UpdateRoomStep(s, id, room).state
    case RemoveRoom(id) => RemoveRoomStep(s, id).state
  }

  function Run(hostels: set<string>, students: set<string>, cs: seq<Command>): House {
    if cs == [] then House(hostels, students, map[], map[])
    else Step(Run(hostels, students, cs[..|cs| - 1]), cs[|cs| - 1])
  }

  // --- What every run keeps.

  predicate SameBed(a: Allocation, b: Allocation) { a.roomId == b.roomId && a.bedNumber == b.bedNumber }

  ghost predicate BedsApart(s: House) {
    && (forall a, b | Active(s, a) && Active(s, b) && a != b :: !SameBed(s.allocations[a], s.allocations[b]))
    && (forall a, b | Active(s, a) && Active(s, b) && a != b :: s.allocations[a].studentId != s.allocations[b].studentId)
    && (forall a | Active(s, a) :: s.allocations[a].roomId in s.rooms && s.allocations[a].bedNumber >= 1)
  }

  /** Rooms are of existing hostels, and their numbers differ within a hostel. */
  ghost predicate RoomsInOrder(s: House) {
    && (forall r | r in s.rooms :: s.rooms[r].hostelId in s.hostels)
    && (forall q, r | q in s.rooms && r in s.rooms && q != r ::
          s.rooms[q].hostelId != s.rooms[r].hostelId || s.rooms[q].roomNumber != s.rooms[r].roomNumber)
  }

  /** Nobody shares a bed and nobody has two, and rooms are where they should be. */
  ghost predicate Inv(s: House) { BedsApart(s) && RoomsInOrder(s) }

  lemma VacateKeeps(s: House, id: string)
    requires Inv(s)
    ensures Inv(VacateStep(s, id).state)
  {
  }

  lemma BedsStayApart(s: House, t: House)
    requires BedsApart(s) && t.allocations == s.allocations && s.rooms.Keys <= t.rooms.Keys
    ensures BedsApart(t)
  {
  }

  lemma RoomStaysInOrder(s: House, id: string, room: Room)
    requires RoomsInOrder(s) && !NumberTaken(s, id, room) && room.hostelId in s.hostels
    ensures RoomsInOrder(s.(rooms := s.rooms[id := room]))
  {
  }

  lemma RoomRowsKeep(s: House, id: string, room: Room)
    requires Inv(s)
    ensures Inv(CreateRoomStep(s, id, room).state) && Inv(UpdateRoomStep(s, id, room).state)
  {
    hide BedsApart, NumberTaken;
    BedsStayApart(s, s.(rooms := s.rooms[id := room]));
    if !NumberTaken(s, id, room) && room.hostelId in s.hostels { RoomStaysInOrder(s, id, room); }
  }

  lemma SameRoomsInOrder(s: House, t: House)
    requires RoomsInOrder(s) && t.rooms == s.rooms && t.hostels == s.hostels
    ensures RoomsInOrder(t)
  {
  }

  /** An active allocation written over row `id` keeps beds apart if no other has its bed or its student. */
  lemma WrittenStaysApart(s: House, id: string, x: Allocation)
    requires BedsApart(s) && x.roomId in s.rooms && x.bedNumber >= 1
    requires forall a | Active(s, a) && a != id :: !SameBed(s.allocations[a], x) && s.allocations[a].studentId != x.studentId
    ensures BedsApart(s.(allocations := s.allocations[id := x]))
  {
  }

  lemma AllocateKeeps(s: House, id: string, studentId: string, roomId: string, bed: int)
    requires Inv(s)
    ensures Inv(AllocateStep(s, id, studentId, roomId, bed).state)
  {
    hide BedsApart, RoomsInOrder;
    if AllocateStep(s, id, studentId, roomId, bed).error.None? {
      SameRoomsInOrder(s, AllocateStep(s, id, studentId, roomId, bed).state);
      forall a | Active(s, a)
        ensures !(s.allocations[a].roomId == roomId && s.allocations[a].bedNumber == bed)
        ensures s.allocations[a].studentId != studentId
      {
        assert !InBed(s, a, roomId, bed);
      }
      WrittenStaysApart(s, id, Allocation(studentId, roomId, bed, true));
    }
  }

  lemma ReassignKeeps(s: House, id: string, roomId: string, bed: int)
    requires Inv(s)
    ensures Inv(ReassignStep(s, id, roomId, bed).state)
  {
    hide RoomsInOrder;
    if ReassignStep(s, id, roomId, bed).error.None? {
      SameRoomsInOrder(s, ReassignStep(s, id, roomId, bed).state);
      forall a | Active(s, a) && a != id
        ensures !(s.allocations[a].roomId == roomId && s.allocations[a].bedNumber == bed)
        ensures s.allocations[a].studentId != s.allocations[id].studentId
      {
        assert !InBed(s, a, roomId, bed) && Active(s, id);
      }
      hide BedsApart, BedTakenByOther;
      WrittenStaysApart(s, id, s.allocations[id].(roomId := roomId, bedNumber := bed));
    }
  }

  lemma RemoveRoomKeeps(s: House, id: string)
    requires Inv(s)
    ensures Inv(RemoveRoomStep(s, id).state)
  {
    if RemoveRoomStep(s, id).error.None? {
      assert forall a | Active(s, a) && s.allocations[a].roomId == id :: a in Occupied(s, id);
    }
  }

  lemma StepKeeps(s: House, c: Command)
    requires Inv(s)
    ensures Inv(Step(s, c))
  {
    hide Inv, AllocateStep, ReassignStep, VacateStep, CreateRoomStep, UpdateRoomStep, RemoveRoomStep;
    match c
    case Allocate(id, student, room, bed) => AllocateKeeps(s, id, student, room, bed);
    case Reassign(id, room, bed) => ReassignKeeps(s, id, room, bed);
    case Vacate(id) => VacateKeeps(s, id);
    case CreateRoom(id, room) => RoomRowsKeep(s, id, room);
    case UpdateRoom(id, room) => RoomRowsKeep(s, id, room);
    case RemoveRoom(id) => RemoveRoomKeeps(s, id);
  }

  /** In every run nobody shares a bed and no student has two. */
  lemma {:induction false} RunKeeps(hostels: set<string>, students: set<string>, cs: seq<Command>)
    ensures Inv(Run(hostels, students, cs))
  {
    hide Step;
    if cs != [] {
      RunKeeps(hostels, students, cs[..|cs| - 1]);
      StepKeeps(Run(hostels, students, cs[..|cs| - 1]), cs[|cs| - 1]);
    }
  }

  // --- Free beds.

  ghost function TakenBeds(s: House, roomId: string): set<int> {
    set a | a in Occupied(s, roomId) :: s.allocations[a].bedNumber
  }

  ghost function FreeBeds(s: House, roomId: string): set<int>
    requires roomId in s.rooms
  {
    Range(s.rooms[roomId].capacity) - TakenBeds(s, roomId)
  }

  /** Residents whose bed number is above the room's present capacity. */
  ghost function BeyondCapacity(s: House, roomId: string): set<string>
    requires roomId in s.rooms
  {
    set a | a in Occupied(s, roomId) && s.allocations[a].bedNumber > s.rooms[roomId].capacity
  }

  ghost function BedOf(s: House): string -> int {
    a => if a in s.allocations then s.allocations[a].bedNumber else 0
  }

  /** Residents of one room sleep in different beds. */
  lemma BedsDiffer(s: House, roomId: string, some: set<string>)
    requires Inv(s) && some <= Occupied(s, roomId)
    ensures InjectiveOn(some, BedOf(s))
  {
    forall a, b | a in some && b in some && a != b ensures BedOf(s)(a) != BedOf(s)(b) {
      assert Active(s, a) && Active(s, b);
      assert !SameBed(s.allocations[a], s.allocations[b]);
    }
  }

  lemma FreeBedsAreTheRest(s: House, roomId: string)
    requires Inv(s) && roomId in s.rooms
    ensures var taken := Image(Occupied(s, roomId) - BeyondCapacity(s, roomId), BedOf(s));
            taken <= Range(s.rooms[roomId].capacity) && FreeBeds(s, roomId) == Range(s.rooms[roomId].capacity) - taken
  {
    var inside := Occupied(s, roomId) - BeyondCapacity(s, roomId);
    var taken := Image(inside, BedOf(s));
    forall a | a in inside ensures 1 <= BedOf(s)(a) <= s.rooms[roomId].capacity {
      assert Active(s, a);
    }
    hide Inv;
    forall bed | bed in Range(s.rooms[roomId].capacity) && bed in TakenBeds(s, roomId) ensures bed in taken {
      var a :| a in Occupied(s, roomId) && s.allocations[a].bedNumber == bed;
      assert a in inside && BedOf(s)(a) == bed;
    }
    forall bed | bed in taken ensures bed in TakenBeds(s, roomId) {
      var a :| a in inside && BedOf(s)(a) == bed;
    }
  }

  lemma BeyondAreResidents(s: House, roomId: string)
    requires roomId in s.rooms
    ensures BeyondCapacity(s, roomId) <= Occupied(s, roomId)
  {
  }

  /** The number of free beds is the capacity less the residents who sleep within it. */
  lemma FreeBedCount(s: House, roomId: string)
    requires Inv(s) && roomId in s.rooms
    ensures |FreeBeds(s, roomId)| == s.rooms[roomId].capacity - (|Occupied(s, roomId)| - |BeyondCapacity(s, roomId)|)
  {
    var inside := Occupied(s, roomId) - BeyondCapacity(s, roomId);
    FreeBedsAreTheRest(s, roomId);
    BedsDiffer(s, roomId, inside);
    BeyondAreResidents(s, roomId);
    hide *;
    ImageSize(inside, BedOf(s));
    RangeSize(s.rooms[roomId].capacity);
    DifferenceSize(Range(s.rooms[roomId].capacity), Image(inside, BedOf(s)));
    DifferenceSize(Occupied(s, roomId), BeyondCapacity(s, roomId));
  }

  lemma FreeMeansNotTaken(s: House, roomId: string, bed: int)
    requires roomId in s.rooms
    ensures bed in FreeBeds(s, roomId) <==> 1 <= bed <= s.rooms[roomId].capacity && !BedTaken(s, roomId, bed)
  {
    if bed in TakenBeds(s, roomId) {
      var a :| a in Occupied(s, roomId) && s.allocations[a].bedNumber == bed;
      assert InBed(s, a, roomId, bed);
    }
    if BedTaken(s, roomId, bed) {
      var a :| a in s.allocations && InBed(s, a, roomId, bed);
      assert a in Occupied(s, roomId);
    }
  }

  /** Every room the desk offers has a bed that allocation accepts for any student without one. */
  lemma OfferedRoomAccepts(s: House, hostelId: string, roomId: string, id: string, studentId: string) returns (bed: int)
    requires Inv(s) && Offered(s, hostelId, roomId)
    requires studentId in s.students && !Resident(s, studentId) && id !in s.allocations
    ensures 1 <= bed <= s.rooms[roomId].capacity
    ensures AllocateStep(s, id, studentId, roomId, bed).error == None
  {
    hide Inv, BedTaken, Resident, FreeBeds, Occupied, BeyondCapacity;
    FreeBedCount(s, roomId);
    bed := AnElement(FreeBeds(s, roomId));
    FreeMeansNotTaken(s, roomId, bed);
  }

  /** The room has a bed within its capacity that nobody holds. */
  ghost predicate HasFreeBed(s: House, roomId: string)
    requires roomId in s.rooms
  {
    exists bed :: 1 <= bed <= s.rooms[roomId].capacity && !BedTaken(s, roomId, bed)
  }

  lemma HasFreeBedIsCounted(s: House, roomId: string)
    requires roomId in s.rooms
    ensures HasFreeBed(s, roomId) <==> |FreeBeds(s, roomId)| > 0
  {
    hide BedTaken, FreeBeds;
    if HasFreeBed(s, roomId) {
      var bed :| 1 <= bed <= s.rooms[roomId].capacity && !BedTaken(s, roomId, bed);
      FreeMeansNotTaken(s, roomId, bed);
    }
    if |FreeBeds(s, roomId)| > 0 {
      var bed := AnElement(FreeBeds(s, roomId));
      FreeMeansNotTaken(s, roomId, bed);
    }
  }

  /**
   * A room is left off the list though a bed is free exactly when it has as many residents as beds
   * but some of them sleep beyond its capacity, leaving fewer within it.
   */
  lemma WronglyWithheld(s: House, hostelId: string, roomId: string)
    requires Inv(s) && roomId in s.rooms && s.rooms[roomId].hostelId == hostelId
    ensures HasFreeBed(s, roomId) && !Offered(s, hostelId, roomId)
            <==> s.rooms[roomId].capacity <= |Occupied(s, roomId)| < s.rooms[roomId].capacity + |BeyondCapacity(s, roomId)|
  {
    assert s.rooms[roomId].hostelId in s.hostels;
    hide Inv, HasFreeBed, FreeBeds, Occupied, BeyondCapacity;
    FreeBedCount(s, roomId);
    HasFreeBedIsCounted(s, roomId);
  }

  /** A run that withholds a free bed: a room of two, a resident in bed 2, and the capacity lowered to 1. */
  lemma WithheldExample()
    ensures var cs := [CreateRoom("r", Room("h", "101", 2)), Allocate("a", "s", "r", 2), UpdateRoom("r", Room("h", "101", 1))];
            var s := Run({"h"}, {"s"}, cs);
            "r" in s.rooms && HasFreeBed(s, "r") && !Offered(s, "h", "r")
  {
    var c0, c1, c2 := CreateRoom("r", Room("h", "101", 2)), Allocate("a", "s", "r", 2), UpdateRoom("r", Room("h", "101", 1));
    assert [c0, c1, c2][..2] == [c0, c1] && [c0, c1][..1] == [c0] && [c0][..0] == [];
    var s0 := House({"h"}, {"s"}, map[], map[]);
    var s1 := s0.(rooms := map["r" := Room("h", "101", 2)]);
    var s2 := s1.(allocations := map["a" := Allocation("s", "r", 2, true)]);
    var s := s2.(rooms := map["r" := Room("h", "101", 1)]);
    assert Run({"h"}, {"s"}, []) == s0;
    assert Step(s0, c0) == s1;
    assert Run({"h"}, {"s"}, [c0]) == s1;
    assert Step(s1, c1) == s2;
    assert Run({"h"}, {"s"}, [c0, c1]) == s2;
    assert Step(s2, c2) == s;
    assert Occupied(s, "r") == {"a"};
    assert !BedTaken(s, "r", 1);
  }

  /** Room edits that leave every occupied bed within the new capacity. */
  ghost predicate KeepsBeds(s: House, c: Command) {
    c.UpdateRoom? ==> forall a | Active(s, a) && s.allocations[a].roomId == c.roomId :: s.allocations[a].bedNumber <= c.room.capacity
  }

  ghost predicate BedsInRange(s: House) {
    forall a | Active(s, a) :: s.allocations[a].roomId in s.rooms && s.allocations[a].bedNumber <= s.rooms[s.allocations[a].roomId].capacity
  }

  lemma BedChangesKeepRange(s: House, id: string, studentId: string, roomId: string, bed: int)
    requires BedsInRange(s)
    ensures BedsInRange(AllocateStep(s, id, studentId, roomId, bed).state)
    ensures BedsInRange(ReassignStep(s, id, roomId, bed).state)
  {
    hide BedTaken, BedTakenByOther, Resident;
  }

  lemma UpdateRoomKeepsRange(s: House, id: string, room: Room)
    requires BedsInRange(s) && KeepsBeds(s, UpdateRoom(id, room))
    ensures BedsInRange(UpdateRoomStep(s, id, room).state)
  {
  }

  lemma RemoveRoomKeepsRange(s: House, id: string)
    requires BedsInRange(s)
    ensures BedsInRange(RemoveRoomStep(s, id).state)
  {
    if RemoveRoomStep(s, id).error.None? {
      assert forall a | Active(s, a) && s.allocations[a].roomId == id :: a in Occupied(s, id);
    }
  }

  lemma StepKeepsRange(s: House, c: Command)
    requires BedsInRange(s) && KeepsBeds(s, c)
    ensures BedsInRange(Step(s, c))
  {
    match c
    case Allocate(id, student, room, bed) => BedChangesKeepRange(s, id, student, room, bed);
    case Reassign(id, room, bed) => BedChangesKeepRange(s, id, "", room, bed);
    case UpdateRoom(id, room) => UpdateRoomKeepsRange(s, id, room);
    case RemoveRoom(id) => RemoveRoomKeepsRange(s, id);
    case Vacate(_) =>
    case CreateRoom(_, _) =>
  }

  lemma {:induction false} RunKeepsRange(hostels: set<string>, students: set<string>, cs: seq<Command>)
    requires forall k | 0 <= k < |cs| :: KeepsBeds(Run(hostels, students, cs[..k]), cs[k])
    ensures BedsInRange(Run(hostels, students, cs))
  {
    hide Step, KeepsBeds;
    if cs != [] {
      var n := |cs| - 1;
      assert forall k | 0 <= k < n :: cs[..n][..k] == cs[..k];
      RunKeepsRange(hostels, students, cs[..n]);
      StepKeepsRange(Run(hostels, students, cs[..n]), cs[n]);
    }
  }

  /** In runs that never lower a capacity below an occupied bed, the desk offers exactly the rooms with a free bed. */
  lemma OffersExactlyFreeRooms(hostels: set<string>, students: set<string>, cs: seq<Command>, hostelId: string, roomId: string)
    requires forall k | 0 <= k < |cs| :: KeepsBeds(Run(hostels, students, cs[..k]), cs[k])
    requires roomId in Run(hostels, students, cs).rooms && Run(hostels, students, cs).rooms[roomId].hostelId == hostelId
    ensures var s := Run(hostels, students, cs);
            Offered(s, hostelId, roomId) <==> HasFreeBed(s, roomId)
  {
    var s := Run(hostels, students, cs);
    RunKeeps(hostels, students, cs);
    RunKeepsRange(hostels, students, cs);
    assert BeyondCapacity(s, roomId) == {} by {
      assert forall a | a in Occupied(s, roomId) :: Active(s, a);
    }
    assert s.rooms[roomId].hostelId in s.hostels;
    hide Run, Inv, HasFreeBed, FreeBeds, Occupied, BeyondCapacity, BedsInRange;
    FreeBedCount(s, roomId);
    HasFreeBedIsCounted(s, roomId);
  }

  lemma SameOffers(s: House, t: House)
    requires s.rooms == t.rooms && s.hostels == t.hostels && forall r :: Occupied(s, r) == Occupied(t, r)
    ensures forall h :: ListAvailableRooms(s, h) == ListAvailableRooms(t, h)
  {
    hide Occupied;
    forall h ensures ListAvailableRooms(s, h) == ListAvailableRooms(t, h) {
      forall r ensures Offered(s, h, r) <==> Offered(t, h, r) {
      }
      if h in s.hostels { assert ListAvailableRooms(s, h).value == ListAvailableRooms(t, h).value; }
    }
  }

  /** Vacating undoes an allocation: the same beds are taken as before it, and by the same students. */
  lemma VacateUndoesAllocate(s: House, id: string, studentId: string, roomId: string, bed: int)
    requires AllocateStep(s, id, studentId, roomId, bed).error == None
    ensures var r := VacateStep(AllocateStep(s, id, studentId, roomId, bed).state, id);
            && r.error == None && r.state.rooms == s.rooms
            && (forall a :: Active(r.state, a) <==> Active(s, a))
            && (forall a | Active(s, a) :: r.state.allocations[a] == s.allocations[a])
            && (forall h :: ListAvailableRooms(r.state, h) == ListAvailableRooms(s, h))
  {
    hide BedTaken, Resident;
    var u := VacateStep(AllocateStep(s, id, studentId, roomId, bed).state, id).state;
    forall r ensures Occupied(u, r) == Occupied(s, r) {
    }
    SameOffers(s, u);
  }

  // --- What each operation does for its caller.

  /** The active allocations of a bed. */
  function Holders(s: House, roomId: string, bed: int): set<string> { set a | a in s.allocations && InBed(s, a, roomId, bed) }

  /** The active allocations of a student. */
  function BedsOf(s: House, studentId: string): set<string> {
    set a | a in s.allocations && s.allocations[a].active && s.allocations[a].studentId == studentId
  }

  /** Every allocation but `id` is as it was. */
  predicate OthersKept(s: House, t: House, id: string) {
    && (forall a | a in s.allocations && a != id :: a in t.allocations && t.allocations[a] == s.allocations[a])
    && (forall a | a in t.allocations && a != id :: a in s.allocations)
  }

  /** Allocation goes ahead only if nobody holds the bed and the student holds none. */
  lemma AllocateFindsFree(s: House, id: string, studentId: string, roomId: string, bed: int)
    requires AllocateStep(s, id, studentId, roomId, bed).error == None
    ensures Holders(s, roomId, bed) == {} && BedsOf(s, studentId) == {} && id !in s.allocations
    ensures AllocateStep(s, id, studentId, roomId, bed).state
            == s.(allocations := s.allocations[id := Allocation(studentId, roomId, bed, true)])
  {
    assert forall a | a in s.allocations :: !InBed(s, a, roomId, bed);
    assert forall a | a in s.allocations :: Active(s, a) ==> s.allocations[a].studentId != studentId;
  }

  /** One active row more is one holder, one bed and one resident more. */
  lemma ActiveRowAdded(s: House, id: string, x: Allocation)
    requires id !in s.allocations && x.active
    ensures var t := s.(allocations := s.allocations[id := x]);
            && OthersKept(s, t, id)
            && Holders(t, x.roomId, x.bedNumber) == Holders(s, x.roomId, x.bedNumber) + {id}
            && BedsOf(t, x.studentId) == BedsOf(s, x.studentId) + {id}
            && Occupied(t, x.roomId) == Occupied(s, x.roomId) + {id} && id !in Occupied(s, x.roomId)
  {
  }

  /** The bed goes to the student alone, who has no other, and its room has one resident more. */
  lemma AllocateEffect(s: House, id: string, studentId: string, roomId: string, bed: int)
    requires AllocateStep(s, id, studentId, roomId, bed).error == None
    ensures var t := AllocateStep(s, id, studentId, roomId, bed).state;
            && OthersKept(s, t, id) && Holders(s, roomId, bed) == {} && BedsOf(s, studentId) == {}
            && Holders(t, roomId, bed) == {id} && BedsOf(t, studentId) == {id}
            && |Occupied(t, roomId)| == |Occupied(s, roomId)| + 1
  {
    hide *;
    AllocateFindsFree(s, id, studentId, roomId, bed);
    ActiveRowAdded(s, id, Allocation(studentId, roomId, bed, true));
  }

  /** The student moves: the new bed is held by this allocation alone, and the one it leaves by nobody. */
  lemma ReassignEffect(s: House, id: string, roomId: string, bed: int)
    requires Inv(s) && ReassignStep(s, id, roomId, bed).error == None
    ensures var t := ReassignStep(s, id, roomId, bed).state;
            var was := s.allocations[id];
            && OthersKept(s, t, id) && Holders(t, roomId, bed) == {id}
            && t.allocations[id].studentId == was.studentId && BedsOf(t, was.studentId) == BedsOf(s, was.studentId)
            && (was.roomId != roomId || was.bedNumber != bed ==> Holders(t, was.roomId, was.bedNumber) == {})
  {
    var t := ReassignStep(s, id, roomId, bed).state;
    var was := s.allocations[id];
    forall a | a in s.allocations && a != id && Active(s, a) ensures !SameBed(s.allocations[a], was) {
      assert Active(s, id);
    }
    assert forall a | a in s.allocations && a != id :: !InBed(s, a, roomId, bed);
  }

  /** The bed is nobody's and the student has none; the row stays as a record. */
  lemma VacateEffect(s: House, id: string)
    requires Inv(s) && VacateStep(s, id).error == None
    ensures var t := VacateStep(s, id).state;
            var was := s.allocations[id];
            && OthersKept(s, t, id) && id in t.allocations && t.allocations[id] == was.(active := false)
            && Holders(t, was.roomId, was.bedNumber) == {} && BedsOf(t, was.studentId) == {}
            && |Occupied(t, was.roomId)| == |Occupied(s, was.roomId)| - 1
  {
    var t := VacateStep(s, id).state;
    var was := s.allocations[id];
    forall a | a in s.allocations && a != id && Active(s, a)
      ensures !SameBed(s.allocations[a], was) && s.allocations[a].studentId != was.studentId
    {
      assert Active(s, id);
    }
    assert Occupied(t, was.roomId) == Occupied(s, was.roomId) - {id} && id in Occupied(s, was.roomId);
  }

  /** A new room is empty, all its beds are free, and it is offered if it has any. */
  lemma CreateRoomEffect(s: House, id: string, room: Room)
    requires Inv(s) && CreateRoomStep(s, id, room).error == None
    ensures var t := CreateRoomStep(s, id, room).state;
            && Occupied(t, id) == {} && FreeBeds(t, id) == Range(room.capacity)
            && (Offered(t, room.hostelId, id) <==> room.capacity > 0)
            && forall h, r | r != id :: Offered(t, h, r) <==> Offered(s, h, r)
  {
    var t := CreateRoomStep(s, id, room).state;
    forall a | a in s.allocations && s.allocations[a].active ensures s.allocations[a].roomId != id {
      assert Active(s, a);
    }
    assert Occupied(t, id) == {};
    forall r ensures Occupied(t, r) == Occupied(s, r) {
    }
  }

  /** An edit moves nobody; afterwards the room is offered exactly if its new capacity exceeds its residents. */
  lemma UpdateRoomEffect(s: House, id: string, room: Room)
    requires UpdateRoomStep(s, id, room).error == None
    ensures var t := UpdateRoomStep(s, id, room).state;
            && Occupied(t, id) == Occupied(s, id)
            && (Offered(t, room.hostelId, id) <==> |Occupied(s, id)| < room.capacity)
            && (BedsInRange(s) && KeepsBeds(s, UpdateRoom(id, room)) ==> BedsInRange(t))
            && forall h, r | r != id :: Offered(t, h, r) <==> Offered(s, h, r)
  {
    var t := UpdateRoomStep(s, id, room).state;
    forall r ensures Occupied(t, r) == Occupied(s, r) {
    }
    hide Occupied;
  }

  /** Only an empty room goes, with its past allocations; nobody who has a bed loses it. */
  lemma RemoveRoomEffect(s: House, id: string)
    requires RemoveRoomStep(s, id).error == None
    ensures var t := RemoveRoomStep(s, id).state;
            && id !in t.rooms && (forall a | a in t.allocations :: t.allocations[a].roomId != id)
            && (forall a :: Active(t, a) <==> Active(s, a))
            && (forall a | Active(s, a) :: t.allocations[a] == s.allocations[a])
            && forall h :: !Offered(t, h, id)
  {
    forall a | Active(s, a) ensures s.allocations[a].roomId != id {
      assert s.allocations[a].roomId == id ==> a in Occupied(s, id);
    }
  }

  // --- The services as they run.

  class HostelDatabase {
    var hostels: set<string>
    var students: set<string>
    var rooms: map<string, Room>
    var allocations: map<string, Allocation>

    function View(): House
      reads this
    {
      House(hostels, students, rooms, allocations)
    }

    constructor (hostels: set<string>, students: set<string>)
      ensures View() == Run(hostels, students, []) && Inv(View())
    {
      this.hostels, this.students := hostels, students;
      rooms, allocations := map[], map[];
    }

    method AllocateBed(id: string, studentId: string, roomId: string, bed: int) returns (error: Option<Error>)
      requires Inv(View())
      modifies this`allocations
      ensures Inv(View())
      ensures Outcome(View(), error) == AllocateStep(old(View()), id, studentId, roomId, bed)
      ensures error.Some? ==> allocations == old(allocations)
      ensures error.None? ==>
                && OthersKept(old(View()), View(), id)
                && Holders(View(), roomId, bed) == {id} && BedsOf(View(), studentId) == {id}
                && |Occupied(View(), roomId)| == |old(Occupied(View(), roomId))| + 1
    {
      hide Inv, BedTaken, Resident, OthersKept, Holders, BedsOf, Occupied;
      AllocateKeeps(View(), id, studentId, roomId, bed);
      if AllocateStep(View(), id, studentId, roomId, bed).error == None { AllocateEffect(View(), id, studentId, roomId, bed); }
      if studentId !in students {
        return Some(BadRequest);
      }
      if roomId !in rooms {
        return Some(NotFound);
      }
      if bed < 1 || bed > rooms[roomId].capacity {
        return Some(BadRequest);
      }
      if BedTaken(View(), roomId, bed) {
        return Some(Conflict);
      }
      if Resident(View(), studentId) {
        return Some(Conflict);
      }
      if id in allocations {
        return Some(Conflict);
      }
      allocations := allocations[id := Allocation(studentId, roomId, bed, true)];
      return None;
    }

    method ReassignBed(id: string, roomId: string, bed: int) returns (error: Option<Error>)
      requires Inv(View())
      modifies this`allocations
      ensures Inv(View())
      ensures Outcome(View(), error) == ReassignStep(old(View()), id, roomId, bed)
      ensures error.Some? ==> allocations == old(allocations)
      ensures error.None? ==>
                && id in old(allocations) && OthersKept(old(View()), View(), id)
                && Holders(View(), roomId, bed) == {id}
                && BedsOf(View(), old(allocations)[id].studentId) == old(BedsOf(View(), allocations[id].studentId))
                && (old(allocations)[id].roomId != roomId || old(allocations)[id].bedNumber != bed ==>
                      Holders(View(), old(allocations)[id].roomId, old(allocations)[id].bedNumber) == {})
    {
      hide Inv, BedTakenByOther, OthersKept, Holders, BedsOf;
      ReassignKeeps(View(), id, roomId, bed);
      if ReassignStep(View(), id, roomId, bed).error == None { ReassignEffect(View(), id, roomId, bed); }
      if id !in allocations {
        return Some(NotFound);
      }
      if !allocations[id].active {
        return Some(Conflict);
      }
      if roomId !in rooms {
        return Some(NotFound);
      }
      if bed < 1 || bed > rooms[roomId].capacity {
        return Some(BadRequest);
      }
      if BedTakenByOther(View(), roomId, bed, id) {
        return Some(Conflict);
      }
      allocations := allocations[id := allocations[id].(roomId := roomId, bedNumber := bed)];
      return None;
    }

    method VacateBed(id: string) returns (error: Option<Error>)
      requires Inv(View())
      modifies this`allocations
      ensures Inv(View())
      ensures Outcome(View(), error) == VacateStep(old(View()), id)
      ensures error.Some? ==> allocations == old(allocations)
      ensures error.None? ==>
                && id in old(allocations) && id in allocations && OthersKept(old(View()), View(), id)
                && allocations[id] == old(allocations)[id].(active := false)
                && Holders(View(), allocations[id].roomId, allocations[id].bedNumber) == {}
                && BedsOf(View(), allocations[id].studentId) == {}
    {
      hide Inv, OthersKept, Holders, BedsOf, Occupied;
      VacateKeeps(View(), id);
      if VacateStep(View(), id).error == None { VacateEffect(View(), id); }
      if id !in allocations {
        return Some(NotFound);
      }
      if !allocations[id].active {
        return Some(Conflict);
      }
      allocations := allocations[id := allocations[id].(active := false)];
      return None;
    }

    method AddRoom(id: string, room: Room) returns (error: Option<Error>)
      requires Inv(View())
      modifies this`rooms
      ensures Inv(View())
      ensures Outcome(View(), error) == CreateRoomStep(old(View()), id, room)
      ensures error.Some? ==> rooms == old(rooms)
      ensures error.None? ==>
                && id in rooms && FreeBeds(View(), id) == Range(room.capacity)
                && (Offered(View(), room.hostelId, id) <==> room.capacity > 0)
                && forall h, r | r != id :: Offered(View(), h, r) <==> Offered(old(View()), h, r)
    {
      hide Inv, Occupied, FreeBeds, Offered;
      RoomRowsKeep(View(), id, room);
      if CreateRoomStep(View(), id, room).error == None { CreateRoomEffect(View(), id, room); }
      if room.hostelId !in hostels {
        return Some(BadRequest);
      }
      if id in rooms || NumberTaken(View(), id, room) {
        return Some(Conflict);
      }
      rooms := rooms[id := room];
      return None;
    }

    method EditRoom(id: string, room: Room) returns (error: Option<Error>)
      requires Inv(View())
      modifies this`rooms
      ensures Inv(View())
      ensures Outcome(View(), error) == UpdateRoomStep(old(View()), id, room)
      ensures error.Some? ==> rooms == old(rooms)
      ensures error.None? ==>
                && Occupied(View(), id) == old(Occupied(View(), id))
                && (Offered(View(), room.hostelId, id) <==> |Occupied(View(), id)| < room.capacity)
                && (BedsInRange(old(View())) && KeepsBeds(old(View()), UpdateRoom(id, room)) ==> BedsInRange(View()))
                && forall h, r | r != id :: Offered(View(), h, r) <==> Offered(old(View()), h, r)
    {
      hide Inv, Occupied, Offered, BedsInRange, KeepsBeds;
      RoomRowsKeep(View(), id, room);
      if UpdateRoomStep(View(), id, room).error == None { UpdateRoomEffect(View(), id, room); }
      if id !in rooms {
        return Some(NotFound);
      }
      if room.hostelId !in hostels {
        return Some(BadRequest);
      }
      if NumberTaken(View(), id, room) {
        return Some(Conflict);
      }
      rooms := rooms[id := room];
      return None;
    }

    method DeleteRoom(id: string) returns (error: Option<Error>)
      requires Inv(View())
      modifies this`rooms, this`allocations
      ensures Inv(View())
      ensures Outcome(View(), error) == RemoveRoomStep(old(View()), id)
      ensures error.Some? ==> rooms == old(rooms) && allocations == old(allocations)
      ensures error.None? ==>
                && id !in rooms && (forall a | a in allocations :: allocations[a].roomId != id)
                && (forall a :: Active(View(), a) <==> Active(old(View()), a))
                && forall a | Active(View(), a) :: a in old(allocations) && allocations[a] == old(allocations)[a]
    {
      hide Inv, Occupied, Offered;
      RemoveRoomKeeps(View(), id);
      if RemoveRoomStep(View(), id).error == None { RemoveRoomEffect(View(), id); }
      if id !in rooms {
        return Some(NotFound);
      }
      var activeCount := |Occupied(View(), id)|;
      if activeCount > 0 {
        return Some(Conflict);
      }
      rooms := rooms - {id};
      allocations := map a | a in allocations && allocations[a].roomId != id :: allocations[a];
      return None;
    }
  }
}
