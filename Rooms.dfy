/** The client's list of rooms and the three push-event handlers that keep it
    current. Each handler is the pure updater passed to the list's state
    setter: it maps the previous list to the next one. */
module RoomList {
  import opened Seqs

  /** A room entry as the server sends it. */
  datatype Room = Room(roomId: string, roomName: string, userCount: int)

  /** Some entry carries `roomId` (the `some` test). */
  predicate HasRoom(rooms: seq<Room>, roomId: string)
  {
    exists i :: 0 <= i < |rooms| && rooms[i].roomId == roomId
  }

  /** No two entries carry the same room id. */
  predicate UniqueIds(rooms: seq<Room>)
  {
    forall i, j :: 0 <= i < j < |rooms| ==> rooms[i].roomId != rooms[j].roomId
  }

  /** `RoomCreated`: appends the room unless its id is already listed. */
  function OnRoomCreated(prev: seq<Room>, room: Room): (next: seq<Room>)
    ensures prev <= next && |next| <= |prev| + 1
    ensures HasRoom(next, room.roomId)
    ensures next == prev <==> HasRoom(prev, room.roomId)
    ensures next != prev ==> next[|prev|] == room
    ensures UniqueIds(prev) ==> UniqueIds(next)
  {
    if HasRoom(prev, room.roomId) then prev
    else
      var next := prev + [room];
      assert next[|prev|] == room;
      next
  }

  /** `RoomDeleted`: drops every entry carrying the id. */
  function OnRoomDeleted(prev: seq<Room>, roomId: string): (next: seq<Room>)
    ensures !HasRoom(next, roomId)
    ensures forall r :: r in next <==> r in prev && r.roomId != roomId
    ensures forall r :: multiset(next)[r] == if r.roomId != roomId then multiset(prev)[r] else 0
  {
    var next := Filter(prev, (r: Room) => r.roomId != roomId);
    assert forall i :: 0 <= i < |next| ==> next[i] in next;
    next
  }

  /** Deleting keeps the surviving entries in their original order: it
      distributes over any split of the list. */
  lemma {:induction false} DeletedKeepsOrder(a: seq<Room>, b: seq<Room>, roomId: string)
    ensures OnRoomDeleted(a + b, roomId) == OnRoomDeleted(a, roomId) + OnRoomDeleted(b, roomId)
  {
    FilterConcat(a, b, (r: Room) => r.roomId != roomId);
  }

  /** Deleting the same id twice is the same as deleting it once. */
  lemma {:induction false} DeletedIdempotent(prev: seq<Room>, roomId: string)
    ensures OnRoomDeleted(OnRoomDeleted(prev, roomId), roomId) == OnRoomDeleted(prev, roomId)
  {
    FilterImplied(prev, (r: Room) => r.roomId != roomId, (r: Room) => r.roomId != roomId);
  }

  /** Deleting an id that is not listed leaves the list as it was. */
  lemma {:induction false} DeletedUnknownUnchanged(prev: seq<Room>, roomId: string)
    requires !HasRoom(prev, roomId)
    ensures OnRoomDeleted(prev, roomId) == prev
  {
    FilterKeepsAll(prev, (r: Room) => r.roomId != roomId);
  }

  /** An entry whose id is not listed can be put in front of a list without
      breaking uniqueness. */
  lemma ConsKeepsUnique(r: Room, rooms: seq<Room>)
    requires UniqueIds(rooms) && !HasRoom(rooms, r.roomId)
    ensures UniqueIds([r] + rooms)
  {
    var s := [r] + rooms;
    forall i, j | 0 <= i < j < |s|
      ensures s[i].roomId != s[j].roomId
    {
      if i == 0 {
        assert s[j] == rooms[j - 1];
      } else {
        assert s[i] == rooms[i - 1] && s[j] == rooms[j - 1];
      }
    }
  }

  /** Deleting keeps room ids unique. */
  lemma {:induction false} DeletedKeepsUnique(prev: seq<Room>, roomId: string)
    requires UniqueIds(prev)
    ensures UniqueIds(OnRoomDeleted(prev, roomId))
    decreases |prev|
  {
    if prev != [] {
      var rest := prev[1..];
      assert UniqueIds(rest) by {
        forall i, j | 0 <= i < j < |rest|
          ensures rest[i].roomId != rest[j].roomId
        {
          assert rest[i] == prev[i + 1] && rest[j] == prev[j + 1];
        }
      }
      DeletedKeepsUnique(rest, roomId);
      var tail := OnRoomDeleted(rest, roomId);
      if prev[0].roomId != roomId {
        assert !HasRoom(tail, prev[0].roomId) by {
          forall i | 0 <= i < |tail|
            ensures tail[i].roomId != prev[0].roomId
          {
            assert tail[i] in rest;
            var k :| 0 <= k < |rest| && rest[k] == tail[i];
            assert prev[k + 1] == tail[i];
          }
        }
        ConsKeepsUnique(prev[0], tail);
      }
    }
  }

  /** `RoomUpdated`: every entry carrying the id takes the pushed name and
      count; all other entries, and the order, are untouched. */
  function OnRoomUpdated(prev: seq<Room>, room: Room): (next: seq<Room>)
    ensures |next| == |prev|
    ensures forall i :: 0 <= i < |prev| ==> next[i].roomId == prev[i].roomId
    ensures forall i :: 0 <= i < |prev| && prev[i].roomId != room.roomId ==> next[i] == prev[i]
    ensures forall i :: 0 <= i < |prev| && prev[i].roomId == room.roomId ==>
      next[i].roomName == room.roomName && next[i].userCount == room.userCount
    decreases |prev|
  {
    if prev == [] then []
    else
      var r := prev[0];
      var head := if r.roomId == room.roomId then r.(roomName := room.roomName, userCount := room.userCount) else r;
      [head] + OnRoomUpdated(prev[1..], room)
  }

  /** An update for an id that is not listed changes nothing and inserts nothing. */
  lemma UpdatedUnknownUnchanged(prev: seq<Room>, room: Room)
    requires !HasRoom(prev, room.roomId)
    ensures OnRoomUpdated(prev, room) == prev
  {
    var next := OnRoomUpdated(prev, room);
    assert forall i :: 0 <= i < |prev| ==> next[i] == prev[i];
  }

  /** Updating keeps room ids unique (the ids do not change). */
  lemma UpdatedKeepsUnique(prev: seq<Room>, room: Room)
    requires UniqueIds(prev)
    ensures UniqueIds(OnRoomUpdated(prev, room))
  {
  }
}
