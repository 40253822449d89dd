# Chat room registry, room endpoints, message log, user table and client room list

A Dafny model of the core of a small real-time chat server and its web client:

- **Room registry** (`ChatRoomManager.dfy`, module `ChatRoomRegistry`): the server's
  in-memory map from room id to the set of connection ids in the room, and the map from
  room id to room name. Class `ChatRoomManager` keeps both maps as fields and updates
  them in place. Each of its updating methods is proved equal to a reference function on the
  abstract value `Registry` (`AddUser`, `Create`, `Delete`, `RemoveUser`,
  `RemoveEverywhere`). The invariant `WellFormed` (every named room exists) is preserved
  by every operation. Two quirks of the code are kept. Joining a missing room creates it,
  with no name, so a join never fails. Deleting a room drops its name even when the room
  is absent.
- **Room endpoints** (`ChatRoomController.dfy`, module `RoomController`): create, delete
  and post-message map the registry's answers to `Ok` / `Conflict` / `NotFound`. Posting
  to an existing room sends `ReceiveMessage` to the room's hub group; the model records
  that send as an append to `outbox`.
- **Message log** (`MessageService.dfy`, module `MessageLog`): the message table as a
  sequence in insertion order, taken as it stands when the service is built. It covers append, the per-room history sorted by
  timestamp, and the per-room purge.
- **User table** (`UserService.dfy`, module `Users`): users keyed by e-mail. It covers
  get-or-create with a default name taken from the address's local part, lookup, role
  update, partial profile update and the role check. Class `UserService` works over
  the table as it stands and keeps the invariant `KeyedByEmail` (every row is stored
  under its own e-mail).
- **Client room list** (`Rooms.dfy`, module `RoomList`): the three push-event handlers
  `RoomCreated`, `RoomDeleted` and `RoomUpdated`, as pure functions from the previous
  list to the next.

`Wrappers.dfy` holds `Option`, which stands in for C#'s nullable values. `Seqs.dfy`
holds an order-preserving `Filter` with its lemmas; it is shared by the server's
`Where` and the client's `filter`.

Behaviour of the code that the model keeps as it is:

- Joining an unknown room creates it, unnamed
  (server/Services/ChatRoom/ChatRoomManager.cs:10-11), so a join never fails.
- The delete endpoint only removes the room from the registry. It evicts no member,
  purges no history and sends no `RoomDeleted` (server/Controllers/ChatRoomController.cs:39-46).
- The server code never sends `RoomCreated`, `RoomUpdated` or `RoomDeleted`. It has no
  leave or disconnect handler. The client handlers are modelled on their own.
- The create endpoint calls `CreateRoom(roomId)` with one argument
  (server/Controllers/ChatRoomController.cs:20). The registry only offers
  `CreateRoom(roomId, roomName)` (server/Services/ChatRoom/ChatRoomManager.cs:16), so
  the code as written does not compile. The model's `ChatRoomController.CreateRoom`
  takes the name as an extra, unconstrained parameter. Its contract speaks only of ids,
  answers and the registry.

## Model

| member | source | states |
|---|---|---|
| `ChatRoomRegistry.AddUser` | server/Services/ChatRoom/ChatRoomManager.cs:8-14 | after a join the room exists and holds the connection. An existing room gains exactly that member. A missing room is created with only that member and no name. No other room and no name changes, and the invariant is kept |
| `ChatRoomRegistry.Create` | server/Services/ChatRoom/ChatRoomManager.cs:16-26 | succeeds iff the id is free. On a taken id both maps are unchanged. On a free id the room exists with no members and the given name, all other entries are unchanged, and the invariant is kept |
| `ChatRoomRegistry.Delete` | server/Services/ChatRoom/ChatRoomManager.cs:28-32 | reports true iff the room existed. Afterwards the id is in neither map and every other entry is unchanged |
| `ChatRoomRegistry.RemoveUser` | server/Services/ChatRoom/ChatRoomManager.cs:39-45 | has no effect on a missing room. Otherwise that room loses exactly the connection and stays even when empty. The set of room ids, the other rooms and the names are unchanged |
| `ChatRoomRegistry.RemoveEverywhere` | server/Services/ChatRoom/ChatRoomManager.cs:47-53 | every room loses the connection and no room is in the connection's rooms afterwards. The set of room ids and the names are unchanged |
| `ChatRoomRegistry.AddUserIdempotent` | server/Services/ChatRoom/ChatRoomManager.cs:10-13 | joining twice gives the same registry as joining once |
| `ChatRoomRegistry.RemoveUndoesAdd` | server/Services/ChatRoom/ChatRoomManager.cs:8-45 | leaving undoes joining an existing room the connection was not in |
| `ChatRoomRegistry.JoinLeaveMissingRoomLeavesEmptyRoom` | server/Services/ChatRoom/ChatRoomManager.cs:8-45 | joining a missing room and then leaving it leaves an empty, unnamed room behind |
| `ChatRoomRegistry.DeleteUndoesCreate` | server/Services/ChatRoom/ChatRoomManager.cs:16-32 | on a free id, creating and then deleting succeeds and restores the registry exactly |
| `ChatRoomRegistry.DeleteTwice` | server/Services/ChatRoom/ChatRoomManager.cs:28-32 | a second delete of the same id reports false and changes nothing |
| `ChatRoomRegistry.RemoveEverywhereIdempotent` | server/Services/ChatRoom/ChatRoomManager.cs:47-53 | leaving all rooms twice is the same as leaving them once |
| `ChatRoomRegistry.ChatRoomManager.constructor` | server/Services/ChatRoom/ChatRoomManager.cs:3-4 | both maps start empty and the invariant holds |
| `ChatRoomRegistry.ChatRoomManager.AddUserToRoom` | server/Services/ChatRoom/ChatRoomManager.cs:8-14 | the in-place update leaves the fields equal to `AddUser` of the old state and keeps the invariant |
| `ChatRoomRegistry.ChatRoomManager.CreateRoom` | server/Services/ChatRoom/ChatRoomManager.cs:16-26 | the new fields and the answer are those of `Create` on the old state, and the invariant is kept |
| `ChatRoomRegistry.ChatRoomManager.DeleteRoom` | server/Services/ChatRoom/ChatRoomManager.cs:28-32 | the new fields and the answer are those of `Delete` on the old state, and the invariant is kept |
| `ChatRoomRegistry.ChatRoomManager.RoomExists` | server/Services/ChatRoom/ChatRoomManager.cs:34-37 | under the invariant, every room that has a name exists |
| `ChatRoomRegistry.ChatRoomManager.RemoveUserFromRoom` | server/Services/ChatRoom/ChatRoomManager.cs:39-45 | the new fields equal `RemoveUser` of the old state, and the invariant is kept |
| `ChatRoomRegistry.ChatRoomManager.RemoveUserFromAllRooms` | server/Services/ChatRoom/ChatRoomManager.cs:47-53 | the loop over all rooms leaves the fields equal to `RemoveEverywhere` of the old state, and the invariant is kept |
| `ChatRoomRegistry.ChatRoomManager.FindUserRoom` | server/Services/ChatRoom/ChatRoomManager.cs:55-58 | returns None iff no room contains the connection. Otherwise it returns a room whose member set contains it |
| `RoomController.ChatRoomController.constructor` | server/Controllers/ChatRoomController.cs:11-15 | the controller uses the given registry, and nothing has been sent yet |
| `RoomController.ChatRoomController.CreateRoom` | server/Controllers/ChatRoomController.cs:17-24 | answers Conflict iff the id already existed, and then leaves the registry unchanged. Ok implies that the room exists afterwards. Never answers NotFound. The registry becomes `Create` of the old one |
| `RoomController.ChatRoomController.SendMessage` | server/Controllers/ChatRoomController.cs:26-37 | answers NotFound iff the room does not exist, and then sends nothing. Otherwise it appends exactly one `ReceiveMessage` send to the room's group and answers "Message Sent". The registry is never changed |
| `RoomController.ChatRoomController.DeleteRoom` | server/Controllers/ChatRoomController.cs:39-46 | answers NotFound iff the room was absent beforehand. In both cases the room and its name are gone afterwards |
| `Seqs.Filter` | server/Services/Message/MessageService.cs:34 | keeps exactly the elements that satisfy the condition, each with its original multiplicity. The result is empty iff none qualifies |
| `MessageLog.RoomMessages` | server/Services/Message/MessageService.cs:34 | holds exactly the table's messages of the room, each as often as in the table. It is empty iff the room has none |
| `MessageLog.OtherRooms` | server/Services/Message/MessageService.cs:41-42 | holds exactly the table's messages of all other rooms, each as often as in the table |
| `MessageLog.InsertByTime` | server/Services/Message/MessageService.cs:35 | inserting into a timestamp-sorted sequence keeps it sorted and adds exactly the one message |
| `MessageLog.SortByTime` | server/Services/Message/MessageService.cs:35 | the result is sorted by non-decreasing timestamp and is a permutation of the input |
| `MessageLog.AppendMessage` | server/Services/Message/MessageService.cs:26 | an appended message ends its own room's rows and leaves every other room's rows unchanged |
| `MessageLog.PurgeKeepsOtherRooms` | server/Services/Message/MessageService.cs:41-43 | purging one room keeps every other room's rows, with the same contents in the same order |
| `MessageLog.PurgeIdempotent` | server/Services/Message/MessageService.cs:41-43 | purging the same room twice equals purging once |
| `MessageLog.MessageService.constructor` | server/Services/Message/MessageService.cs:10-13 | the service works over the table as it stands, whatever rows it already holds |
| `MessageLog.MessageService.AddMessage` | server/Services/Message/MessageService.cs:15-29 | the table grows by exactly one message at the end. That message carries the given room, name, e-mail, content, timestamp and id. Earlier messages and the other rooms' histories are unchanged |
| `MessageLog.MessageService.GetMessagesByRoom` | server/Services/Message/MessageService.cs:31-37 | returns only messages of that room, in non-decreasing timestamp order. The result is a permutation of all the table's messages of the room. The table is only read |
| `MessageLog.MessageService.DeleteMessagesByRoom` | server/Services/Message/MessageService.cs:39-45 | always answers true. Afterwards no message of the room remains and its history is empty. Every other room's messages keep their order and contents |
| `Users.LocalPart` | server/Services/User/UserService.cs:26 | the result is a prefix of the address, contains no '@', and is followed by '@' unless it is the whole address |
| `Users.GetOrCreate` | server/Services/User/UserService.cs:16-36 | a known address returns the stored user with the table unchanged. A new address inserts a user with that e-mail, phone 0 and role User. The user's name is the given one, or else the local part of the address. Either way the address maps to the returned user, and every user stays keyed by its own e-mail |
| `Users.GetOrCreateIdempotent` | server/Services/User/UserService.cs:18-35 | a second call with the same address returns the same user and leaves the table unchanged, whatever name it passes |
| `Users.UpdateRole` | server/Services/User/UserService.cs:43-51 | answers false, with no change, for an unknown address. Otherwise only that user's role changes, to the given one |
| `Users.Update` | server/Services/User/UserService.cs:53-63 | answers false, with no change, for an unknown address. Otherwise a given name or phone replaces the stored one, and an absent one leaves it. E-mail, role and all other users are unchanged |
| `Users.EmptyUpdateChangesNothing` | server/Services/User/UserService.cs:58-59 | an update with neither a name nor a phone leaves the table unchanged |
| `Users.UserService.constructor` | server/Services/User/UserService.cs:10-13 | the service works over the table as it stands; the invariant holds when every row is stored under its own e-mail |
| `Users.UserService.GetOrCreateUser` | server/Services/User/UserService.cs:16-36 | the returned user and the new table are those of `GetOrCreate` on the old table. The invariant is kept, and the returned user then carries the given e-mail |
| `Users.UserService.GetUserByEmail` | server/Services/User/UserService.cs:38-41 | finds a user iff the address is stored, and then returns that stored user |
| `Users.UserService.UpdateUserRole` | server/Services/User/UserService.cs:43-51 | the answer and the new table are those of `UpdateRole`. On success the role check for the new role holds. The invariant is kept |
| `Users.UserService.UpdateUser` | server/Services/User/UserService.cs:53-63 | the answer and the new table are those of `Update`. The invariant is kept |
| `Users.UserService.HasRole` | server/Services/User/UserService.cs:65-69 | true iff a user is stored under the address and has that role |
| `RoomList.OnRoomCreated` | client/src/pages/Rooms.jsx:41-48 | the list is unchanged iff the id was already listed. Otherwise the room is appended at the end and all prior entries are kept in order. Afterwards the id is listed, and unique ids stay unique |
| `RoomList.OnRoomDeleted` | client/src/pages/Rooms.jsx:51-53 | afterwards no entry carries the id. Every other entry is kept, with its multiplicity |
| `RoomList.DeletedKeepsOrder` | client/src/pages/Rooms.jsx:52 | deletion distributes over any split of the list, so the survivors keep their original order |
| `RoomList.DeletedIdempotent` | client/src/pages/Rooms.jsx:52 | deleting the same id twice equals deleting it once |
| `RoomList.DeletedUnknownUnchanged` | client/src/pages/Rooms.jsx:52 | deleting an id that is not listed leaves the list unchanged |
| `RoomList.DeletedKeepsUnique` | client/src/pages/Rooms.jsx:52 | deletion keeps room ids unique |
| `RoomList.OnRoomUpdated` | client/src/pages/Rooms.jsx:56-62 | the length, order and ids are kept. Matching entries take the pushed name and count. Every other entry is unchanged |
| `RoomList.UpdatedUnknownUnchanged` | client/src/pages/Rooms.jsx:57-61 | an update for an id that is not listed leaves the list unchanged and inserts nothing |
| `RoomList.UpdatedKeepsUnique` | client/src/pages/Rooms.jsx:57-61 | an update keeps room ids unique |

## Left out

- Concurrency, `async`/`await` and locking. The registry is a plain, unsynchronised dictionary. Operations are modelled one after another, and no atomicity is added.
- ChatRoomRegistry.ChatRoomManager.FindUserRoom: returns some matching room rather than the first one in the dictionary's enumeration order, because that order is an implementation detail of the .NET dictionary.
- server/Hubs/ChatHub.cs is not part of this model. Its group subscription and its hub-level send are SignalR plumbing, and its only registry effect is `AddUserToRoom`, which is modelled.
- Hub delivery: a send is only an appended `outbox` entry. Who receives it is not modelled.
- Failures of the external calls are not modelled. `SaveChangesAsync` and `SendAsync` can throw, and the caller then gets HTTP 500. The model has neither path: every save and every send succeeds.
- Persistence: the database context, `SaveChangesAsync`, and the enum-to-string column conversion are replaced by a sequence and a map. The message id that the database assigns and the `DateTime.UtcNow` reading are parameters of `AddMessage`. A timestamp is an integer tick count.
- MessageLog.SortByTime: messages with equal timestamps stay in table order. The database's `ORDER BY` does not fix the order of ties, so the model commits to one of the orders the query allows.
- The read-only `Rooms` and `RoomNames` views are left out. The model's fields are directly readable.
- `UserRole` is not defined in the modelled files. The model has `Admin` and `User`: new users get `User`, and the client shows the admin controls to role 0.
- Client room entries carry only `roomId`, `roomName` and `userCount`. The object spread in the update handler would also copy any other fields.
- Server bootstrapping (server/Program.cs), the user HTTP wrapper (server/Controllers/UserController.cs), the React pages and components, fetching the room list, random room and display names, Auth0 login and the build configuration are outside the model.
