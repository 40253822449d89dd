/** The server's in-memory room registry: which rooms exist, the connections
    that are members of each, and the optional display name of each room.

    `Registry` is the abstract value of the two dictionaries and the functions
    on it are the reference definitions of the registry operations; the class
    `ChatRoomManager` holds the dictionaries as fields and updates them in
    place, and each of its methods is proved against the matching function. */
module ChatRoomRegistry {
  import opened Wrappers

  type RoomId = string
  type ConnectionId = string

  /** `rooms`: room id to member connections; `names`: room id to room name. */
  datatype Registry = Registry(rooms: map<RoomId, set<ConnectionId>>, names: map<RoomId, string>)

  /** Every named room exists. Rooms created implicitly by a join have no name. */
  predicate WellFormed(g: Registry)
  {
    g.names.Keys <= g.rooms.Keys
  }

  /** `m` and `m'` agree on every key other than `k`. */
  ghost predicate AgreeExcept<V>(m: map<RoomId, V>, m': map<RoomId, V>, k: RoomId)
  {
    forall x :: x != k ==> (x in m <==> x in m') && (x in m && x in m' ==> m[x] == m'[x])
  }

  /** Some room has `c` among its members. */
  ghost predicate InSomeRoom(g: Registry, c: ConnectionId)
  {
    exists k :: k in g.rooms && c in g.rooms[k]
  }

  /** Join: a missing room is created on the spot, with no name. */
  function AddUser(g: Registry, roomId: RoomId, c: ConnectionId): (g': Registry)
    ensures roomId in g'.rooms && c in g'.rooms[roomId]
    ensures roomId in g.rooms ==> g'.rooms[roomId] == g.rooms[roomId] + {c}
    ensures roomId !in g.rooms ==> g'.rooms[roomId] == {c}
    ensures AgreeExcept(g.rooms, g'.rooms, roomId)
    ensures g'.names == g.names
    ensures WellFormed(g) ==> WellFormed(g')
    ensures WellFormed(g) && roomId !in g.rooms ==> roomId !in g'.names
  {
    var members := if roomId in g.rooms then g.rooms[roomId] else {};
    g.(rooms := g.rooms[roomId := members + {c}])
  }

  /** Explicit creation: refused, with no change, when the id is taken. */
  function Create(g: Registry, roomId: RoomId, name: string): (res: (Registry, bool))
    ensures res.1 <==> roomId !in g.rooms
    ensures !res.1 ==> res.0 == g
    ensures res.1 ==> roomId in res.0.rooms && res.0.rooms[roomId] == {}
    ensures res.1 ==> roomId in res.0.names && res.0.names[roomId] == name
    ensures AgreeExcept(g.rooms, res.0.rooms, roomId) && AgreeExcept(g.names, res.0.names, roomId)
    ensures WellFormed(g) ==> WellFormed(res.0)
  {
    if roomId in g.rooms then (g, false)
    else (Registry(g.rooms[roomId := {}], g.names[roomId := name]), true)
  }

  /** Deletion: reports whether the room existed; the name is dropped either way. */
  function Delete(g: Registry, roomId: RoomId): (res: (Registry, bool))
    ensures res.1 <==> roomId in g.rooms
    ensures roomId !in res.0.rooms && roomId !in res.0.names
    ensures AgreeExcept(g.rooms, res.0.rooms, roomId) && AgreeExcept(g.names, res.0.names, roomId)
    ensures WellFormed(g) ==> WellFormed(res.0)
  {
    (Registry(g.rooms - {roomId}, g.names - {roomId}), roomId in g.rooms)
  }

  /** Leave one room: nothing happens for a missing room, and a room that
      becomes empty is kept. */
  function RemoveUser(g: Registry, roomId: RoomId, c: ConnectionId): (g': Registry)
    ensures roomId !in g.rooms ==> g' == g
    ensures roomId in g.rooms ==> roomId in g'.rooms && g'.rooms[roomId] == g.rooms[roomId] - {c}
    ensures g'.rooms.Keys == g.rooms.Keys
    ensures AgreeExcept(g.rooms, g'.rooms, roomId)
    ensures g'.names == g.names
    ensures WellFormed(g) ==> WellFormed(g')
  {
    if roomId in g.rooms then g.(rooms := g.rooms[roomId := g.rooms[roomId] - {c}]) else g
  }

  /** Leave every room: each member set loses `c`, no room disappears. */
  function RemoveEverywhere(g: Registry, c: ConnectionId): (g': Registry)
    ensures g'.rooms.Keys == g.rooms.Keys
    ensures forall k :: k in g'.rooms ==> g'.rooms[k] == g.rooms[k] - {c}
    ensures !InSomeRoom(g', c)
    ensures g'.names == g.names
    ensures WellFormed(g) ==> WellFormed(g')
  {
    g.(rooms := map k | k in g.rooms :: g.rooms[k] - {c})
  }

  /** Joining twice is the same as joining once. */
  lemma AddUserIdempotent(g: Registry, roomId: RoomId, c: ConnectionId)
    ensures AddUser(AddUser(g, roomId, c), roomId, c) == AddUser(g, roomId, c)
  {
    var once := AddUser(g, roomId, c);
    assert once.rooms[roomId] + {c} == once.rooms[roomId];
    assert once.rooms[roomId := once.rooms[roomId] + {c}] == once.rooms;
  }

  /** Leaving undoes joining a room that existed and did not have the member. */
  lemma RemoveUndoesAdd(g: Registry, roomId: RoomId, c: ConnectionId)
    requires roomId in g.rooms && c !in g.rooms[roomId]
    ensures RemoveUser(AddUser(g, roomId, c), roomId, c) == g
  {
    var back := RemoveUser(AddUser(g, roomId, c), roomId, c);
    assert back.rooms[roomId] == g.rooms[roomId];
    assert back.rooms == g.rooms;
  }

  /** Joining a missing room and leaving it again leaves an empty, unnamed room
      behind: rooms are never removed by leaving. */
  lemma JoinLeaveMissingRoomLeavesEmptyRoom(g: Registry, roomId: RoomId, c: ConnectionId)
    requires WellFormed(g) && roomId !in g.rooms
    ensures var back := RemoveUser(AddUser(g, roomId, c), roomId, c);
      roomId in back.rooms && back.rooms[roomId] == {} && roomId !in back.names
      && back.rooms == g.rooms[roomId := {}]
  {
    var back := RemoveUser(AddUser(g, roomId, c), roomId, c);
    assert back.rooms[roomId] == {};
    assert back.rooms == g.rooms[roomId := {}];
  }

  /** Deleting a room that was just created on a free id restores the registry. */
  lemma DeleteUndoesCreate(g: Registry, roomId: RoomId, name: string)
    requires WellFormed(g) && roomId !in g.rooms
    ensures Create(g, roomId, name).1
    ensures Delete(Create(g, roomId, name).0, roomId) == (g, true)
  {
    var after := Delete(Create(g, roomId, name).0, roomId).0;
    assert after.rooms == g.rooms;
    assert after.names == g.names;
  }

  /** A second delete of the same room reports that it was absent and changes nothing. */
  lemma DeleteTwice(g: Registry, roomId: RoomId)
    ensures var once := Delete(g, roomId).0; Delete(once, roomId) == (once, false)
  {
    var once := Delete(g, roomId).0;
    assert once.rooms - {roomId} == once.rooms;
    assert once.names - {roomId} == once.names;
  }

  /** Leaving all rooms twice is the same as leaving them once. */
  lemma RemoveEverywhereIdempotent(g: Registry, c: ConnectionId)
    ensures RemoveEverywhere(RemoveEverywhere(g, c), c) == RemoveEverywhere(g, c)
  {
    var once := RemoveEverywhere(g, c);
    forall k | k in once.rooms
      ensures once.rooms[k] - {c} == once.rooms[k]
    {
      assert c !in once.rooms[k];
    }
    assert RemoveEverywhere(once, c).rooms == once.rooms;
  }

  class ChatRoomManager {
    var rooms: map<RoomId, set<ConnectionId>>
    var roomNames: map<RoomId, string>

    /** The abstract value of the two dictionaries. */
    function State(): Registry
      reads this
    {
      Registry(rooms, roomNames)
    }

    ghost predicate Valid()
      reads this
    {
      WellFormed(State())
    }

    constructor ()
      ensures Valid()
      ensures rooms == map[] && roomNames == map[]
    {
      rooms := map[];
      roomNames := map[];
    }

    method AddUserToRoom(roomId: RoomId, connectionId: ConnectionId)
      modifies this
      ensures State() == AddUser(old(State()), roomId, connectionId)
      ensures old(Valid()) ==> Valid()
    {
      if roomId !in rooms {
        rooms := rooms[roomId := {}];
      }
      rooms := rooms[roomId := rooms[roomId] + {connectionId}];
    }

    method CreateRoom(roomId: RoomId, roomName: string) returns (created: bool)
      modifies this
      ensures (State(), created) == Create(old(State()), roomId, roomName)
      ensures old(Valid()) ==> Valid()
    {
      if roomId in rooms {
        return false;
      }
      rooms := rooms[roomId := {}];
      roomNames := roomNames[roomId := roomName];
      return true;
    }

    method DeleteRoom(roomId: RoomId) returns (existed: bool)
      modifies this
      ensures (State(), existed) == Delete(old(State()), roomId)
      ensures old(Valid()) ==> Valid()
    {
      roomNames := roomNames - {roomId};
      existed := roomId in rooms;
      rooms := rooms - {roomId};
    }

    /** Whether the room exists; every named room does. */
    predicate RoomExists(roomId: RoomId): (b: bool)
      reads this
      ensures Valid() && roomId in roomNames ==> b
    {
      roomId in rooms
    }

    method RemoveUserFromRoom(roomId: RoomId, connectionId: ConnectionId)
      modifies this
      ensures State() == RemoveUser(old(State()), roomId, connectionId)
      ensures old(Valid()) ==> Valid()
    {
      if roomId in rooms {
        rooms := rooms[roomId := rooms[roomId] - {connectionId}];
      }
    }

    /** Visits every room and removes the connection from its member set. */
    method RemoveUserFromAllRooms(connectionId: ConnectionId)
      modifies this
      ensures State() == RemoveEverywhere(old(State()), connectionId)
      ensures old(Valid()) ==> Valid()
    {
      var pending := rooms.Keys;
      while pending != {}
        invariant pending <= rooms.Keys == old(rooms).Keys
        invariant roomNames == old(roomNames)
        invariant forall k :: k in rooms ==>
          rooms[k] == if k in pending then old(rooms)[k] else old(rooms)[k] - {connectionId}
        decreases pending
      {
        var k :| k in pending;
        rooms := rooms[k := rooms[k] - {connectionId}];
        pending := pending - {k};
      }
      assert rooms == RemoveEverywhere(old(State()), connectionId).rooms;
    }

    /** Reverse lookup: some room that has the connection as a member, or None
        when no room has it. The dictionary's enumeration order, which decides
        which matching room comes first, is left as an arbitrary choice. */
    method FindUserRoom(connectionId: ConnectionId) returns (r: Option<RoomId>)
      ensures r.None? <==> !InSomeRoom(State(), connectionId)
      ensures r.Some? ==> r.value in rooms && connectionId in rooms[r.value]
    {
      var pending := rooms.Keys;
      while pending != {}
        invariant pending <= rooms.Keys
        invariant forall k :: k in rooms && k !in pending ==> connectionId !in rooms[k]
        decreases pending
      {
        var k :| k in pending;
        if connectionId in rooms[k] {
          return Some(k);
        }
        pending := pending - {k};
      }
      return None;
    }
  }
}
