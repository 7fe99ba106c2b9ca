/** What each hostel operation refuses, what it writes to the tables, and which rooms are offered. */
module HostelEffects {
  import opened Wrappers
  import opened Tables
  import opened Hostel

  /** Someone else than allocation `id` sleeps in the bed. */
  ghost predicate HeldByOther(s: House, roomId: string, bed: int, id: string) {
    exists a | a in s.allocations ::
      a != id && s.allocations[a].active && s.allocations[a].roomId == roomId && s.allocations[a].bedNumber == bed
  }

  /** The student has a bed. */
  ghost predicate HasBed(s: House, studentId: string) {
    exists a | a in s.allocations :: s.allocations[a].active && s.allocations[a].studentId == studentId
  }

  /** A student without a bed gets a free bed of the room. */
  lemma AllocateWrites(s: House, id: string, studentId: string, roomId: string, bed: int)
    ensures var r := AllocateStep(s, id, studentId, roomId, bed);
            var known := studentId in s.students && roomId in s.rooms;
            && (r.error == Some(NotFound) <==> studentId in s.students && roomId !in s.rooms)
            && (r.error == Some(BadRequest) <==>
                  studentId !in s.students || (known && !(1 <= bed <= s.rooms[roomId].capacity)))
            && (r.error == None <==>
                  && known && id !in s.allocations && 1 <= bed <= s.rooms[roomId].capacity
                  && !HeldByOther(s, roomId, bed, id) && !HasBed(s, studentId))
            && (r.error.Some? ==> r.state == s && r.error.value in {NotFound, BadRequest, Conflict})
            && (r.error.None? ==>
                  && r.state == s.(allocations := r.state.allocations)
                  && Put(s.allocations, r.state.allocations, id, Allocation(studentId, roomId, bed, true)))
  {
  }

  /** An active allocation moves to a bed nobody else holds. */
  lemma ReassignWrites(s: House, id: string, roomId: string, bed: int)
    ensures var r := ReassignStep(s, id, roomId, bed);
            var active := id in s.allocations && s.allocations[id].active;
            && (r.error == Some(NotFound) <==> id !in s.allocations || (active && roomId !in s.rooms))
            && (r.error == Some(BadRequest) <==> active && roomId in s.rooms && !(1 <= bed <= s.rooms[roomId].capacity))
            && (r.error == None <==>
                  active && roomId in s.rooms && 1 <= bed <= s.rooms[roomId].capacity && !HeldByOther(s, roomId, bed, id))
            && (r.error.Some? ==> r.state == s && r.error.value in {NotFound, BadRequest, Conflict})
            && (r.error.None? ==>
                  && r.state == s.(allocations := r.state.allocations)
                  && Put(s.allocations, r.state.allocations, id, Allocation(s.allocations[id].studentId, roomId, bed, true)))
  {
  }

  lemma VacateWrites(s: House, id: string)
    ensures var r := VacateStep(s, id);
            && (r.error == Some(NotFound) <==> id !in s.allocations)
            && (r.error == None <==> id in s.allocations && s.allocations[id].active)
            && (r.error.Some? ==> r.state == s && r.error.value in {NotFound, Conflict})
            && (r.error.None? ==>
                  var a := s.allocations[id];
                  && r.state == s.(allocations := r.state.allocations)
                  && Put(s.allocations, r.state.allocations, id, Allocation(a.studentId, a.roomId, a.bedNumber, false)))
  {
  }

  /** A room of an existing hostel is added, or written over, as given, if no other room there has its number. */
  lemma RoomWrites(s: House, id: string, room: Room)
    ensures var c, u := CreateRoomStep(s, id, room), UpdateRoomStep(s, id, room);
            var free := forall r | r in s.rooms && r != id && s.rooms[r].hostelId == room.hostelId ::
                          s.rooms[r].roomNumber != room.roomNumber;
            && (c.error == Some(BadRequest) <==> room.hostelId !in s.hostels)
            && (c.error == None <==> room.hostelId in s.hostels && id !in s.rooms && free)
            && (u.error == Some(NotFound) <==> id !in s.rooms)
            && (u.error == Some(BadRequest) <==> id in s.rooms && room.hostelId !in s.hostels)
            && (u.error == None <==> room.hostelId in s.hostels && id in s.rooms && free)
            && forall o | o == c || o == u ::
                 && (o.error.Some? ==> o.state == s && o.error.value in {NotFound, BadRequest, Conflict})
                 && (o.error.None? ==> o.state == s.(rooms := o.state.rooms) && Put(s.rooms, o.state.rooms, id, room))
  {
  }

  /** A room where nobody sleeps is deleted with its past allocations. */
  lemma RemoveRoomWrites(s: House, id: string)
    ensures var r := RemoveRoomStep(s, id);
            var t := r.state;
            && (r.error == Some(NotFound) <==> id !in s.rooms)
            && (r.error == None <==>
                  id in s.rooms && forall a | a in s.allocations && s.allocations[a].active :: s.allocations[a].roomId != id)
            && (r.error.Some? ==> t == s && r.error.value in {NotFound, Conflict})
            && (r.error.None? ==>
                  && t == s.(rooms := t.rooms, allocations := t.allocations)
                  && t.rooms == s.rooms - {id} && Left(s.allocations, t.allocations, (a: Allocation) => a.roomId != id))
  {
    forall a ensures a in Occupied(s, id) <==> a in s.allocations && s.allocations[a].active && s.allocations[a].roomId == id {
    }
    hide Occupied;
    assert Occupied(s, id) != {} ==> exists a :: a in Occupied(s, id);
  }

  /** The desk lists a hostel's rooms with fewer active allocations than beds, and refuses an unknown hostel. */
  lemma OfferedWhenNotFull(s: House, hostelId: string, roomId: string)
    ensures ListAvailableRooms(s, hostelId) == Err(BadRequest) <==> hostelId !in s.hostels
    ensures Offered(s, hostelId, roomId) <==>
            && hostelId in s.hostels && roomId in s.rooms && s.rooms[roomId].hostelId == hostelId
            && |set a | a in s.allocations && s.allocations[a].active && s.allocations[a].roomId == roomId| < s.rooms[roomId].capacity
  {
    assert Occupied(s, roomId) == set a | a in s.allocations && s.allocations[a].active && s.allocations[a].roomId == roomId;
  }
}
