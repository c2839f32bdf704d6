/** The history service of the modular server
    (server/services/historyService.js): builds each message at the current
    clock reading, stores it in the shared MessageHistory and hands it back;
    room and group reads are cut at a join time, private reads never are. */
module HistoryService {
  import opened Common
  import opened Messages
  import opened HistoryModel
  import Text
  import Config

  /** `addRoomMessage(room, username, text)`: stores one new message at the
      end of the room's log and returns it. */
  method AddRoomMessage(store: MessageHistory, room: string, username: string, text: string, now: int)
    returns (m: Message)
    modifies store
    ensures m == Message(username, text, now)
    ensures store.roomMessages == old(store.roomMessages)[room := Log(old(store.roomMessages), room) + [m]]
    ensures store.privateMessages == old(store.privateMessages) && store.groupMessages == old(store.groupMessages)
  {
    m := Message(username, text, now);
    store.AddRoomMessage(room, m);
  }

  /** `addPrivateMessage(fromUser, toUser, senderUsername, text)`: stores one
      new message at the end of the pair's log, where both sides see it. */
  method AddPrivateMessage(store: MessageHistory, fromUser: string, toUser: string, senderUsername: string,
                           text: string, now: int)
    returns (m: Message)
    modifies store
    ensures m == Message(senderUsername, text, now)
    ensures var key := PrivateKey(fromUser, toUser);
            store.privateMessages == old(store.privateMessages)[key := Log(old(store.privateMessages), key) + [m]]
    ensures GetPrivateHistory(store, fromUser, toUser) == old(GetPrivateHistory(store, fromUser, toUser)) + [m]
    ensures GetPrivateHistory(store, toUser, fromUser) == GetPrivateHistory(store, fromUser, toUser)
    ensures store.roomMessages == old(store.roomMessages) && store.groupMessages == old(store.groupMessages)
  {
    m := Message(senderUsername, text, now);
    store.AddPrivateMessage(fromUser, toUser, m);
  }

  /** `addGroupMessage(groupName, username, text)`: stores one new message at
      the end of the group's log and returns it. */
  method AddGroupMessage(store: MessageHistory, groupName: string, username: string, text: string, now: int)
    returns (m: Message)
    modifies store
    ensures m == Message(username, text, now)
    ensures store.groupMessages == old(store.groupMessages)[groupName := Log(old(store.groupMessages), groupName) + [m]]
    ensures store.roomMessages == old(store.roomMessages) && store.privateMessages == old(store.privateMessages)
  {
    m := Message(username, text, now);
    store.AddGroupMessage(groupName, m);
  }

  /** `getRoomHistory(room, afterTime)`: what the room's log holds from
      afterTime on, in order. */
  function GetRoomHistory(store: MessageHistory, room: string, afterTime: int): (r: seq<Message>)
    reads store
    ensures IsSubsequence(r, Log(store.roomMessages, room))
    ensures forall k :: 0 <= k < |r| ==> r[k].timestamp >= afterTime
    ensures forall m :: m in Log(store.roomMessages, room) && m.timestamp >= afterTime ==> m in r
  {
    store.GetRoomMessages(room, afterTime)
  }

  /** `getPrivateHistory(user1, user2)`: the pair's whole log, with no
      time cut-off, the same for both users. */
  function GetPrivateHistory(store: MessageHistory, user1: string, user2: string): (r: seq<Message>)
    reads store
    ensures r == Log(store.privateMessages, PrivateKey(user2, user1))
  {
    store.GetPrivateMessages(user1, user2)
  }

  /** `getGroupHistory(groupName, afterTime)`: what the group's log holds
      from afterTime on, in order. */
  function GetGroupHistory(store: MessageHistory, groupName: string, afterTime: int): (r: seq<Message>)
    reads store
    ensures IsSubsequence(r, Log(store.groupMessages, groupName))
    ensures forall k :: 0 <= k < |r| ==> r[k].timestamp >= afterTime
    ensures forall m :: m in Log(store.groupMessages, groupName) && m.timestamp >= afterTime ==> m in r
  {
    store.GetGroupMessages(groupName, afterTime)
  }

  /** A group message stored by `addGroupMessage` (the store's group logs
      were `before`) stays in the group's log, yet a member whose join time
      is later than its stamp does not get it back from `getGroupHistory`,
      while a member who joined at or before that stamp does. */
  lemma GroupMessageBeforeJoinHidden(store: MessageHistory, before: map<string, seq<Message>>, groupName: string,
                                     m: Message, joinTime: int)
    requires store.groupMessages == before[groupName := Log(before, groupName) + [m]]
    requires m.timestamp < joinTime
    ensures m in Log(store.groupMessages, groupName)
    ensures m !in GetGroupHistory(store, groupName, joinTime)
    ensures forall t :: t <= m.timestamp ==> m in GetGroupHistory(store, groupName, t)
  {
    assert Log(store.groupMessages, groupName)[|Log(before, groupName)|] == m;
  }

  /** A private message stored by `addPrivateMessage(from, to, ...)` (the
      store's private logs were `before`) ends the history that either side
      reads with `getPrivateHistory`, in either order of the names: private
      reads have no cut-off. */
  lemma PrivateMessageSeenByBoth(store: MessageHistory, before: map<string, seq<Message>>, fromUser: string,
                                 toUser: string, m: Message)
    requires var key := PrivateKey(fromUser, toUser);
             store.privateMessages == before[key := Log(before, key) + [m]]
    ensures GetPrivateHistory(store, fromUser, toUser) == GetPrivateHistory(store, toUser, fromUser)
    ensures GetPrivateHistory(store, fromUser, toUser) != []
    ensures GetPrivateHistory(store, fromUser, toUser)[|GetPrivateHistory(store, fromUser, toUser)| - 1] == m
  {
    Text.SortedJoinSymmetric(fromUser, toUser, Config.PRIVATE_ROOM_SEPARATOR);
  }
}
