/** The persisted chat history: one table of messages, appended to by each
    post, read back per room in timestamp order, purged per room. The table is
    a sequence in insertion order; the identifier the database assigns and the
    clock reading are supplied by the caller. */
module MessageLog {
  import opened Seqs

  /** A row of the message table; `timestamp` is the UTC time in ticks. */
  datatype Message = Message(id: int, roomId: string, username: string, email: string,
                             content: string, timestamp: int)

  predicate SortedByTime(s: seq<Message>)
  {
    forall i, j :: 0 <= i < j < |s| ==> s[i].timestamp <= s[j].timestamp
  }

  /** The rows of one room, in table order (the `Where` of the query). */
  function RoomMessages(table: seq<Message>, roomId: string): (r: seq<Message>)
    ensures forall m :: m in r <==> m in table && m.roomId == roomId
    ensures forall m :: multiset(r)[m] == if m.roomId == roomId then multiset(table)[m] else 0
    ensures r == [] <==> forall m :: m in table ==> m.roomId != roomId
  {
    Filter(table, (m: Message) => m.roomId == roomId)
  }

  /** The rows of every other room, in table order (what a purge keeps). */
  function OtherRooms(table: seq<Message>, roomId: string): (r: seq<Message>)
    ensures forall m :: m in r <==> m in table && m.roomId != roomId
    ensures forall m :: multiset(r)[m] == if m.roomId != roomId then multiset(table)[m] else 0
  {
    Filter(table, (m: Message) => m.roomId != roomId)
  }

  /** Inserts `m` into a sorted sequence, before the first later message. */
  function InsertByTime(m: Message, s: seq<Message>): (r: seq<Message>)
    requires SortedByTime(s)
    ensures SortedByTime(r)
    ensures multiset(r) == multiset(s) + multiset{m}
    ensures forall x :: x in r <==> x in s || x == m
    decreases |s|
  {
    if s == [] || m.timestamp <= s[0].timestamp then [m] + s
    else
      var rest := InsertByTime(m, s[1..]);
      assert s == [s[0]] + s[1..];
      assert forall x :: x in rest ==> s[0].timestamp <= x.timestamp;
      [s[0]] + rest
  }

  /** Orders messages by non-decreasing timestamp (the `OrderBy` of the query). */
  function SortByTime(s: seq<Message>): (r: seq<Message>)
    ensures SortedByTime(r)
    ensures multiset(r) == multiset(s)
    ensures forall x :: x in r <==> x in s
    decreases |s|
  {
    if s == [] then []
    else
      assert s == [s[0]] + s[1..];
      InsertByTime(s[0], SortByTime(s[1..]))
  }

  /** Appending a message to the table adds it at the end of its own room's
      rows and leaves every other room's rows as they were. */
  lemma {:induction false} AppendMessage(table: seq<Message>, m: Message, roomId: string)
    ensures RoomMessages(table + [m], roomId)
      == RoomMessages(table, roomId) + (if m.roomId == roomId then [m] else [])
  {
    FilterConcat(table, [m], (x: Message) => x.roomId == roomId);
  }

  /** A purge of one room leaves the rows of every other room exactly as
      they were, in the same order. */
  lemma {:induction false} PurgeKeepsOtherRooms(table: seq<Message>, purged: string, roomId: string)
    requires roomId != purged
    ensures RoomMessages(OtherRooms(table, purged), roomId) == RoomMessages(table, roomId)
  {
    FilterImplied(table, (m: Message) => m.roomId != purged, (m: Message) => m.roomId == roomId);
  }

  /** A purge that is repeated changes nothing further. */
  lemma {:induction false} PurgeIdempotent(table: seq<Message>, roomId: string)
    ensures OtherRooms(OtherRooms(table, roomId), roomId) == OtherRooms(table, roomId)
  {
    FilterImplied(table, (m: Message) => m.roomId != roomId, (m: Message) => m.roomId != roomId);
  }

  /** A service over the message table as it currently stands in the database. */
  class MessageService {
    var messages: seq<Message>

    constructor (messages: seq<Message>)
      ensures this.messages == messages
    {
      this.messages := messages;
    }

    /** Stores a new message; `id` and `timestamp` are what the database and
        the clock would supply. */
    method AddMessage(roomId: string, username: string, email: string, content: string,
                      id: int, timestamp: int) returns (m: Message)
      modifies this
      ensures m.roomId == roomId && m.username == username && m.email == email
      ensures m.content == content && m.timestamp == timestamp && m.id == id
      ensures messages == old(messages) + [m]
      ensures RoomMessages(messages, roomId) == RoomMessages(old(messages), roomId) + [m]
      ensures forall other :: other != roomId ==>
        RoomMessages(messages, other) == RoomMessages(old(messages), other)
    {
      m := Message(id, roomId, username, email, content, timestamp);
      messages := messages + [m];
      AppendMessage(old(messages), m, roomId);
      forall other | other != roomId
        ensures RoomMessages(messages, other) == RoomMessages(old(messages), other)
      {
        AppendMessage(old(messages), m, other);
      }
    }

    /** The history of one room: exactly that room's messages, in
        non-decreasing timestamp order. */
    function GetMessagesByRoom(roomId: string): (r: seq<Message>)
      reads this
      ensures forall i :: 0 <= i < |r| ==> r[i].roomId == roomId
      ensures SortedByTime(r)
      ensures multiset(r) == multiset(RoomMessages(messages, roomId))
      ensures forall m :: m in r <==> m in messages && m.roomId == roomId
    {
      SortByTime(RoomMessages(messages, roomId))
    }

    /** Removes every message of the room; always reports success. */
    method DeleteMessagesByRoom(roomId: string) returns (ok: bool)
      modifies this
      ensures ok
      ensures messages == OtherRooms(old(messages), roomId)
      ensures forall m :: m in messages ==> m.roomId != roomId
      ensures GetMessagesByRoom(roomId) == []
      ensures forall other :: other != roomId ==>
        RoomMessages(messages, other) == RoomMessages(old(messages), other)
    {
      messages := OtherRooms(messages, roomId);
      forall other | other != roomId
        ensures RoomMessages(messages, other) == RoomMessages(old(messages), other)
      {
        PurgeKeepsOtherRooms(old(messages), roomId, other);
      }
      assert RoomMessages(messages, roomId) == [];
      return true;
    }
  }
}
