/** What the socket handlers send: each emit becomes an event with a target,
    an event name and a payload, in the order the handler emits them. */
module Events {
  import opened Common
  import opened Messages
  import opened Members
  import Users
  import GroupModel

  /** Who receives an emit. */
  datatype Target =
    | ToSocket(id: string)                        // socket.emit / io.to(socketId).emit
    | ToRoom(room: string)                        // io.to(room).emit, sender included
    | ToRoomExcept(room: string, except: string)  // socket.broadcast.to(room).emit
    | ToEveryone                                  // io.emit

  datatype Payload =
    | Text(text: string)
    | ChatMessage(message: Message)
    | RoomHistory(room: string, messages: seq<Message>)
    | RoomUsers(room: string, users: seq<Users.User>)
    | AllUsers(users: seq<Users.User>)
    | AllGroups(groups: seq<GroupModel.GroupInfo>)
    | ThemePreference(theme: string)
    | PrivateMessage(from: string, to: Option<string>, message: Message, room: string)
    | PrivateHistory(otherUsername: string, messages: seq<Message>)
    | GroupResult(group: GroupModel.GroupDetail, joinTime: int)
    | GroupJoined(groupName: string, username: string)
    | GroupMessage(groupName: string, message: Message)
    | GroupHistory(groupName: string, messages: seq<Message>)

  datatype Event = Event(target: Target, name: string, payload: Payload)

  /** A one-event error reply to the requesting socket. */
  function ErrorTo(id: string, name: string, text: string): Event
  {
    Event(ToSocket(id), name, Text(text))
  }
}
