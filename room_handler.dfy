/** The room chat handler (server/socket/handlers/roomHandler.js). */
module RoomHandler {
  import opened Common
  import opened Messages
  import opened Users
  import opened HistoryModel
  import opened Events
  import HistoryService

  /** `handleChatMessage(socket, io, msg)`: an unbound socket is told it is in
      no room and nothing is stored; otherwise one message from the sender is
      appended to the sender's room and that same message goes to the whole room. */
  method HandleChatMessage(users: UserService, history: MessageHistory, id: string, msg: string, now: int)
    returns (events: seq<Event>)
    modifies history
    ensures users.GetCurrentUser(id).None? ==>
              events == [ErrorTo(id, "joinError", "You are not in a room")] &&
              history.roomMessages == old(history.roomMessages)
    ensures users.GetCurrentUser(id).Some? ==>
              var user := users.GetCurrentUser(id).value;
              var m := Message(user.username, msg, now);
              history.roomMessages == old(history.roomMessages)[user.room := Log(old(history.roomMessages), user.room) + [m]] &&
              events == [Event(ToRoom(user.room), "message", ChatMessage(m))]
    ensures history.privateMessages == old(history.privateMessages) && history.groupMessages == old(history.groupMessages)
  {
    var user := users.GetCurrentUser(id);
    if user.None? {
      return [ErrorTo(id, "joinError", "You are not in a room")];
    }
    var formattedMessage := HistoryService.AddRoomMessage(history, user.value.room, user.value.username, msg, now);
    events := [Event(ToRoom(user.value.room), "message", ChatMessage(formattedMessage))];
  }
}
