/** The history store of the modular server (server/models/MessageHistory.js):
    three separate maps from channel name to an unbounded log, one for rooms,
    one for private conversations and one for groups. */
module HistoryModel {
  import opened Common
  import opened Text
  import opened Messages
  import Config

  /** `[user1, user2].sort().join("_pm_")`: one key per unordered pair. */
  function PrivateKey(user1: string, user2: string): (k: string)
    ensures k == SortedJoin(user2, user1, Config.PRIVATE_ROOM_SEPARATOR)
  {
    SortedJoinSymmetric(user1, user2, Config.PRIVATE_ROOM_SEPARATOR);
    SortedJoin(user1, user2, Config.PRIVATE_ROOM_SEPARATOR)
  }

  class MessageHistory {
    var roomMessages: map<string, seq<Message>>
    var privateMessages: map<string, seq<Message>>
    var groupMessages: map<string, seq<Message>>

    constructor ()
      ensures roomMessages == map[] && privateMessages == map[] && groupMessages == map[]
    {
      roomMessages := map[];
      privateMessages := map[];
      groupMessages := map[];
    }

    /** `addRoomMessage(room, message)`: appends to that room's log only. */
    method AddRoomMessage(room: string, message: Message)
      modifies this
      ensures roomMessages == old(roomMessages)[room := Log(old(roomMessages), room) + [message]]
      ensures privateMessages == old(privateMessages) && groupMessages == old(groupMessages)
    {
      if room !in roomMessages {
        roomMessages := roomMessages[room := []];
      }
      roomMessages := roomMessages[room := roomMessages[room] + [message]];
    }

    /** `addPrivateMessage(user1, user2, message)`: appends to the pair's log only. */
    method AddPrivateMessage(user1: string, user2: string, message: Message)
      modifies this
      ensures var key := PrivateKey(user1, user2);
              privateMessages == old(privateMessages)[key := Log(old(privateMessages), key) + [message]]
      ensures roomMessages == old(roomMessages) && groupMessages == old(groupMessages)
    {
      var key := PrivateKey(user1, user2);
      if key !in privateMessages {
        privateMessages := privateMessages[key := []];
      }
      privateMessages := privateMessages[key := privateMessages[key] + [message]];
    }

    /** `addGroupMessage(groupName, message)`: appends to that group's log only. */
    method AddGroupMessage(groupName: string, message: Message)
      modifies this
      ensures groupMessages == old(groupMessages)[groupName := Log(old(groupMessages), groupName) + [message]]
      ensures roomMessages == old(roomMessages) && privateMessages == old(privateMessages)
    {
      if groupName !in groupMessages {
        groupMessages := groupMessages[groupName := []];
      }
      groupMessages := groupMessages[groupName := groupMessages[groupName] + [message]];
    }

    /** `getRoomMessages(room, afterTime)`: the room's messages stamped at or
        after afterTime, in order. */
    function GetRoomMessages(room: string, afterTime: int): (r: seq<Message>)
      reads this
      ensures IsSubsequence(r, Log(roomMessages, room))
      ensures forall k :: 0 <= k < |r| ==> r[k].timestamp >= afterTime
      ensures forall m :: m in Log(roomMessages, room) && m.timestamp >= afterTime ==> m in r
    {
      Since(Log(roomMessages, room), afterTime)
    }

    /** `getPrivateMessages(user1, user2)`: the pair's whole log, whichever
        of the two asks. */
    function GetPrivateMessages(user1: string, user2: string): (r: seq<Message>)
      reads this
      ensures r == Log(privateMessages, PrivateKey(user2, user1))
    {
      Log(privateMessages, PrivateKey(user1, user2))
    }

    /** `getGroupMessages(groupName, afterTime)`: the group's messages stamped
        at or after afterTime, in order. */
    function GetGroupMessages(groupName: string, afterTime: int): (r: seq<Message>)
      reads this
      ensures IsSubsequence(r, Log(groupMessages, groupName))
      ensures forall k :: 0 <= k < |r| ==> r[k].timestamp >= afterTime
      ensures forall m :: m in Log(groupMessages, groupName) && m.timestamp >= afterTime ==> m in r
    {
      Since(Log(groupMessages, groupName), afterTime)
    }

    /** `clear()`: every log of every kind is emptied. */
    method Clear()
      modifies this
      ensures roomMessages == map[] && privateMessages == map[] && groupMessages == map[]
    {
      roomMessages := map[];
      privateMessages := map[];
      groupMessages := map[];
    }
  }
}
