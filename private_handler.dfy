/** The private message handler (server/socket/handlers/privateHandler.js). */
module PrivateHandler {
  import opened Common
  import opened Text
  import opened Messages
  import opened Users
  import opened HistoryModel
  import opened Events
  import HistoryService
  import Config

  /** The conversation name both sides are told: the sorted pair joined by "_pm_". */
  function PrivateRoom(a: string, b: string): (room: string)
    ensures room == PrivateKey(a, b) && room == PrivateKey(b, a)
  {
    SortedJoin(a, b, Config.PRIVATE_ROOM_SEPARATOR)
  }

  /** The first bound user with exactly this username. */
  function Online(users: seq<User>, username: string): (r: Option<User>)
    ensures r.None? <==> !NameBound(users, username)
    ensures r.Some? ==> r.value in users && r.value.username == username
  {
    Find(users, (u: User) => u.username == username)
  }

  /** `handlePrivateMessage(socket, io, { toUsername, message })`: checks that
      the sender is bound, then that the recipient is online, then that they
      differ; on success stores one message in the pair's log, delivers it to
      the recipient without `to` and echoes it to the sender with `to`. */
  method HandlePrivateMessage(users: UserService, history: MessageHistory, id: string, toUsername: string,
                              message: string, now: int)
    returns (events: seq<Event>)
    modifies history
    ensures history.roomMessages == old(history.roomMessages) && history.groupMessages == old(history.groupMessages)
    ensures var sender := users.GetCurrentUser(id);
            var receiver := Online(users.users, toUsername);
            if sender.None? then
              events == [ErrorTo(id, "joinError", "You are not in a room")] &&
              history.privateMessages == old(history.privateMessages)
            else if receiver.None? then
              events == [ErrorTo(id, "privateMessageError", "User " + toUsername + " is not online")] &&
              history.privateMessages == old(history.privateMessages)
            else if receiver.value.username == sender.value.username then
              events == [ErrorTo(id, "privateMessageError", "You cannot send a message to yourself")] &&
              history.privateMessages == old(history.privateMessages)
            else
              var from := sender.value.username;
              var to := receiver.value.username;
              var m := Message(from, message, now);
              var room := PrivateRoom(from, to);
              var key := PrivateKey(from, to);
              history.privateMessages == old(history.privateMessages)[key := Log(old(history.privateMessages), key) + [m]] &&
              history.GetPrivateMessages(from, to) == old(history.GetPrivateMessages(from, to)) + [m] &&
              history.GetPrivateMessages(to, from) == history.GetPrivateMessages(from, to) &&
              events == [Event(ToSocket(receiver.value.id), "privateMessage", PrivateMessage(from, None, m, room)),
                         Event(ToSocket(id), "privateMessage", PrivateMessage(from, Some(to), m, room))]
  {
    var sender := users.GetCurrentUser(id);
    if sender.None? {
      return [ErrorTo(id, "joinError", "You are not in a room")];
    }
    var receiver := Find(users.users, (u: User) => u.username == toUsername);
    if receiver.None? {
      return [ErrorTo(id, "privateMessageError", "User " + toUsername + " is not online")];
    }
    if receiver.value.username == sender.value.username {
      return [ErrorTo(id, "privateMessageError", "You cannot send a message to yourself")];
    }
    var privateRoom := PrivateRoom(sender.value.username, receiver.value.username);
    var formattedMessage := HistoryService.AddPrivateMessage(history, sender.value.username, receiver.value.username,
                                                             sender.value.username, message, now);
    events := [Event(ToSocket(receiver.value.id), "privateMessage",
                     PrivateMessage(sender.value.username, None, formattedMessage, privateRoom)),
               Event(ToSocket(id), "privateMessage",
                     PrivateMessage(sender.value.username, Some(receiver.value.username), formattedMessage, privateRoom))];
  }

  /** `handleRequestPrivateHistory(socket, { otherUsername })`: a bound socket
      gets the whole shared log, with no join-time cut-off. */
  method HandleRequestPrivateHistory(users: UserService, history: MessageHistory, id: string, otherUsername: string)
    returns (events: seq<Event>)
    ensures users.GetCurrentUser(id).None? ==> events == [ErrorTo(id, "joinError", "You are not in a room")]
    ensures users.GetCurrentUser(id).Some? ==>
              var me := users.GetCurrentUser(id).value.username;
              events == [Event(ToSocket(id), "privateHistory",
                               PrivateHistory(otherUsername, Log(history.privateMessages, PrivateKey(otherUsername, me))))]
  {
    var user := users.GetCurrentUser(id);
    if user.None? {
      return [ErrorTo(id, "joinError", "You are not in a room")];
    }
    var messages := HistoryService.GetPrivateHistory(history, user.value.username, otherUsername);
    events := [Event(ToSocket(id), "privateHistory", PrivateHistory(otherUsername, messages))];
  }
}
