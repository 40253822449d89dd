/** The HTTP endpoints for rooms: they map the registry's answers to
    200/409/404 responses, and the message endpoint pushes the message to the
    room's hub group. Hub delivery is recorded as an append to `outbox`. */
module RoomController {
  import opened ChatRoomRegistry

  /** `Ok`, `Conflict` and `NotFound` responses with their text bodies. */
  datatype ActionResult = Ok(body: string) | Conflict(body: string) | NotFound(body: string)

  /** A hub send: client method `target` invoked with `payload` on every connection of `group`. */
  datatype HubEvent = GroupSend(group: string, target: string, payload: string)

  class ChatRoomController {
    const manager: ChatRoomManager
    var outbox: seq<HubEvent>

    constructor (manager: ChatRoomManager)
      ensures this.manager == manager && outbox == []
    {
      this.manager := manager;
      outbox := [];
    }

    /** POST {roomId}. The room name is a parameter of the model only. */
    method CreateRoom(roomId: RoomId, roomName: string) returns (res: ActionResult)
      modifies manager
      ensures res.Conflict? <==> roomId in old(manager.rooms)
      ensures res.Conflict? ==> res.body == "Room already exists." && manager.State() == old(manager.State())
      ensures res.Ok? ==> res.body == "Room created." && manager.RoomExists(roomId)
      ensures !res.NotFound?
      ensures manager.State() == Create(old(manager.State()), roomId, roomName).0
      ensures old(manager.Valid()) ==> manager.Valid()
    {
      var created := manager.CreateRoom(roomId, roomName);
      if !created {
        return Conflict("Room already exists.");
      }
      return Ok("Room created.");
    }

    /** POST {roomId}/message: refused for an unknown room, otherwise sent to
        the room's group and acknowledged. */
    method SendMessage(roomId: RoomId, message: string) returns (res: ActionResult)
      modifies this
      ensures res.NotFound? <==> !manager.RoomExists(roomId)
      ensures res.NotFound? ==> res.body == "Room does not exist." && outbox == old(outbox)
      ensures !res.NotFound? ==> res == Ok("Message Sent")
      ensures !res.NotFound? ==> outbox == old(outbox) + [GroupSend(roomId, "ReceiveMessage", message)]
      ensures unchanged(manager)
    {
      if !manager.RoomExists(roomId) {
        return NotFound("Room does not exist.");
      }
      outbox := outbox + [GroupSend(roomId, "ReceiveMessage", message)];
      return Ok("Message Sent");
    }

    /** DELETE {roomId}: the room is gone afterwards whatever the answer. */
    method DeleteRoom(roomId: RoomId) returns (res: ActionResult)
      modifies manager
      ensures res.NotFound? <==> roomId !in old(manager.rooms)
      ensures res.NotFound? ==> res.body == "Room does not exist."
      ensures res.Ok? ==> res.body == "Room deleted."
      ensures !res.Conflict?
      ensures !manager.RoomExists(roomId) && roomId !in manager.roomNames
      ensures manager.State() == Delete(old(manager.State()), roomId).0
      ensures old(manager.Valid()) ==> manager.Valid()
    {
      var existed := manager.DeleteRoom(roomId);
      if !existed {
        return NotFound("Room does not exist.");
      }
      return Ok("Room deleted.");
    }
  }
}
