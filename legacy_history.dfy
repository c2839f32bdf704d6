/** The history store used by the first server (utils/messageHistory.js): one
    map from a channel key to a log that keeps only the most recent
    MAX_MESSAGES_PER_CHAT messages. Room, private and group keys share the map
    and are told apart only by their spelling. */
module LegacyHistory {
  import opened Common
  import opened Text
  import opened Messages

  const MAX_MESSAGES_PER_CHAT: nat := 1000

  /** `room_${roomName}`. */
  function RoomKey(roomName: string): string
  {
    "room_" + roomName
  }

  /** `${sorted[0]}_pm_${sorted[1]}` for `sorted = [user1, user2].sort()`. */
  function PrivateKey(user1: string, user2: string): (k: string)
    ensures k == SortedJoin(user2, user1, "_pm_")
  {
    SortedJoinSymmetric(user1, user2, "_pm_");
    SortedJoin(user1, user2, "_pm_")
  }

  /** `group_${groupName}`. */
  function GroupKey(groupName: string): string
  {
    "group_" + groupName
  }

  /** The last n elements of s (all of s when it is shorter). */
  function LastN(s: seq<Message>, n: nat): (r: seq<Message>)
    ensures |r| <= n && |r| <= |s|
    ensures |s| <= n ==> r == s
    ensures |r| == if |s| <= n then |s| else n
    ensures r == s[|s| - |r|..]
  {
    if |s| <= n then s else s[|s| - n..]
  }

  /** `messages.push(m)` followed by one `messages.shift()` when the log has
      grown past the bound. */
  function PushBounded(log: seq<Message>, m: Message): (r: seq<Message>)
    ensures |log| <= MAX_MESSAGES_PER_CHAT ==> |r| <= MAX_MESSAGES_PER_CHAT
    ensures |r| > 0 && r[|r| - 1] == m
    ensures |log| < MAX_MESSAGES_PER_CHAT ==> r == log + [m]
    ensures |log| == MAX_MESSAGES_PER_CHAT ==> r == log[1..] + [m]
  {
    var pushed := log + [m];
    if |pushed| > MAX_MESSAGES_PER_CHAT then pushed[1..] else pushed
  }

  /** A bounded log is always the window of the latest messages appended: push
      then shift keeps the last MAX_MESSAGES_PER_CHAT of the whole sequence. */
  lemma {:induction false} WindowAfterPush(all: seq<Message>, m: Message)
    ensures PushBounded(LastN(all, MAX_MESSAGES_PER_CHAT), m) == LastN(all + [m], MAX_MESSAGES_PER_CHAT)
  {
    var n := MAX_MESSAGES_PER_CHAT;
    var w := LastN(all, n);
    if |all| < n {
      assert w == all;
    } else {
      assert w == all[|all| - n..];
      assert (all + [m])[|all| + 1 - n..] == all[|all| - n..][1..] + [m];
    }
  }

  /** `get*History(..., joinTime)`: the whole log when no join time is given,
      otherwise the messages stamped at or after it, in order. */
  function Read(log: seq<Message>, joinTime: Option<int>): (r: seq<Message>)
    ensures IsSubsequence(r, log)
    ensures joinTime.None? ==> r == log
    ensures joinTime.Some? ==> forall k :: 0 <= k < |r| ==> r[k].timestamp >= joinTime.value
    ensures joinTime.Some? ==> forall k :: 0 <= k < |log| && log[k].timestamp >= joinTime.value ==> log[k] in r
  {
    if joinTime.None? then
      SubsequenceReflexive(log);
      log
    else Since(log, joinTime.value)
  }

  /** Each stored log is the window of the latest messages appended under its key. */
  predicate Windows(stored: map<string, seq<Message>>, appended: map<string, seq<Message>>)
  {
    stored.Keys == appended.Keys &&
    forall key :: key in stored ==> stored[key] == LastN(appended[key], MAX_MESSAGES_PER_CHAT)
  }

  /** Appending under one key keeps every log the window of its appends. */
  lemma AppendKeepsWindows(stored: map<string, seq<Message>>, appended: map<string, seq<Message>>,
                           key: string, m: Message)
    requires Windows(stored, appended)
    ensures Windows(stored[key := PushBounded(Log(stored, key), m)], appended[key := Log(appended, key) + [m]])
  {
    var stored' := stored[key := PushBounded(Log(stored, key), m)];
    var appended' := appended[key := Log(appended, key) + [m]];
    forall k | k in stored' ensures stored'[k] == LastN(appended'[k], MAX_MESSAGES_PER_CHAT) {
      if k == key {
        assert Log(stored, key) == LastN(Log(appended, key), MAX_MESSAGES_PER_CHAT);
        WindowAfterPush(Log(appended, key), m);
      }
    }
  }

  /** The module-level `messageHistory` map, with the ghost record of every
      message appended under each key since that key was last cleared. */
  class HistoryStore {
    var messageHistory: map<string, seq<Message>>
    ghost var appended: map<string, seq<Message>>

    /** Every stored log is the window of the latest appended messages. */
    ghost predicate Valid()
      reads this
    {
      Windows(messageHistory, appended)
    }

    constructor ()
      ensures Valid() && messageHistory == map[] && appended == map[]
    {
      messageHistory := map[];
      appended := map[];
    }

    /** The shared body of the three `add*Message` functions for one key:
        a missing log starts empty; push, and shift once past the bound. */
    method Append(key: string, m: Message)
      requires Valid()
      modifies this
      ensures Valid()
      ensures messageHistory == old(messageHistory)[key := PushBounded(Log(old(messageHistory), key), m)]
      ensures appended == old(appended)[key := Log(old(appended), key) + [m]]
    {
      AppendKeepsWindows(messageHistory, appended, key, m);
      var log := if key in messageHistory then messageHistory[key] else [];
      var messages := log + [m];
      if |messages| > MAX_MESSAGES_PER_CHAT {
        messages := messages[1..];
      }
      assert messages == PushBounded(log, m);
      messageHistory := messageHistory[key := messages];
      appended := appended[key := Log(appended, key) + [m]];
    }

    /** `addRoomMessage(roomName, username, message)`. */
    method AddRoomMessage(roomName: string, username: string, message: string, now: int) returns (m: Message)
      requires Valid()
      modifies this
      ensures Valid()
      ensures m == Message(username, message, now)
      ensures messageHistory == old(messageHistory)[RoomKey(roomName) := PushBounded(Log(old(messageHistory), RoomKey(roomName)), m)]
      ensures appended == old(appended)[RoomKey(roomName) := Log(old(appended), RoomKey(roomName)) + [m]]
    {
      m := Message(username, message, now);
      Append(RoomKey(roomName), m);
    }

    /** `addPrivateMessage(user1, user2, username, message)`. */
    method AddPrivateMessage(user1: string, user2: string, username: string, message: string, now: int)
      returns (m: Message)
      requires Valid()
      modifies this
      ensures Valid()
      ensures m == Message(username, message, now)
      ensures var key := PrivateKey(user1, user2);
              messageHistory == old(messageHistory)[key := PushBounded(Log(old(messageHistory), key), m)] &&
              appended == old(appended)[key := Log(old(appended), key) + [m]]
    {
      m := Message(username, message, now);
      Append(PrivateKey(user1, user2), m);
    }

    /** `addGroupMessage(groupName, username, message)`. */
    method AddGroupMessage(groupName: string, username: string, message: string, now: int) returns (m: Message)
      requires Valid()
      modifies this
      ensures Valid()
      ensures m == Message(username, message, now)
      ensures messageHistory == old(messageHistory)[GroupKey(groupName) := PushBounded(Log(old(messageHistory), GroupKey(groupName)), m)]
      ensures appended == old(appended)[GroupKey(groupName) := Log(old(appended), GroupKey(groupName)) + [m]]
    {
      m := Message(username, message, now);
      Append(GroupKey(groupName), m);
    }

    /** `getRoomHistory(roomName, joinTime)`. */
    function GetRoomHistory(roomName: string, joinTime: Option<int>): (r: seq<Message>)
      reads this
      requires Valid()
      ensures IsSubsequence(r, LastN(Log(appended, RoomKey(roomName)), MAX_MESSAGES_PER_CHAT))
      ensures joinTime.None? ==> r == LastN(Log(appended, RoomKey(roomName)), MAX_MESSAGES_PER_CHAT)
      ensures joinTime.Some? ==> forall k :: 0 <= k < |r| ==> r[k].timestamp >= joinTime.value
      ensures joinTime.Some? ==> forall m :: (m in LastN(Log(appended, RoomKey(roomName)), MAX_MESSAGES_PER_CHAT) &&
                                             m.timestamp >= joinTime.value) ==> m in r
    {
      Read(Log(messageHistory, RoomKey(roomName)), joinTime)
    }

    /** `getPrivateHistory(user1, user2, joinTime)`: the same log for both
        orders of the pair, cut at joinTime when one is given. */
    function GetPrivateHistory(user1: string, user2: string, joinTime: Option<int>): (r: seq<Message>)
      reads this
      requires Valid()
      ensures r == Read(Log(messageHistory, PrivateKey(user2, user1)), joinTime)
      ensures IsSubsequence(r, LastN(Log(appended, PrivateKey(user1, user2)), MAX_MESSAGES_PER_CHAT))
      ensures joinTime.None? ==> r == LastN(Log(appended, PrivateKey(user1, user2)), MAX_MESSAGES_PER_CHAT)
      ensures joinTime.Some? ==> forall m :: (m in LastN(Log(appended, PrivateKey(user1, user2)), MAX_MESSAGES_PER_CHAT) &&
                                             m.timestamp >= joinTime.value) ==> m in r
    {
      Read(Log(messageHistory, PrivateKey(user1, user2)), joinTime)
    }

    /** `getGroupHistory(groupName, joinTime)`. */
    function GetGroupHistory(groupName: string, joinTime: Option<int>): (r: seq<Message>)
      reads this
      requires Valid()
      ensures IsSubsequence(r, LastN(Log(appended, GroupKey(groupName)), MAX_MESSAGES_PER_CHAT))
      ensures joinTime.None? ==> r == LastN(Log(appended, GroupKey(groupName)), MAX_MESSAGES_PER_CHAT)
      ensures joinTime.Some? ==> forall k :: 0 <= k < |r| ==> r[k].timestamp >= joinTime.value
      ensures joinTime.Some? ==> forall m :: (m in LastN(Log(appended, GroupKey(groupName)), MAX_MESSAGES_PER_CHAT) &&
                                             m.timestamp >= joinTime.value) ==> m in r
    {
      Read(Log(messageHistory, GroupKey(groupName)), joinTime)
    }

    /** Deletes one key; the log under it reads as empty afterwards. */
    method Clear(key: string)
      requires Valid()
      modifies this
      ensures Valid()
      ensures messageHistory == old(messageHistory) - {key} && appended == old(appended) - {key}
      ensures Log(messageHistory, key) == []
    {
      messageHistory := messageHistory - {key};
      appended := appended - {key};
    }

    /** `clearRoomHistory(roomName)`. */
    method ClearRoomHistory(roomName: string)
      requires Valid()
      modifies this
      ensures Valid()
      ensures messageHistory == old(messageHistory) - {RoomKey(roomName)}
      ensures GetRoomHistory(roomName, None) == []
    {
      Clear(RoomKey(roomName));
    }

    /** `clearPrivateHistory(user1, user2)`. */
    method ClearPrivateHistory(user1: string, user2: string)
      requires Valid()
      modifies this
      ensures Valid()
      ensures messageHistory == old(messageHistory) - {PrivateKey(user1, user2)}
      ensures GetPrivateHistory(user2, user1, None) == []
    {
      Clear(PrivateKey(user1, user2));
    }

    /** `clearGroupHistory(groupName)`. */
    method ClearGroupHistory(groupName: string)
      requires Valid()
      modifies this
      ensures Valid()
      ensures messageHistory == old(messageHistory) - {GroupKey(groupName)}
      ensures GetGroupHistory(groupName, None) == []
    {
      Clear(GroupKey(groupName));
    }
  }

  /** The room and private key spaces overlap: the room called "pm_x" and the
      conversation between "room" and "x" are stored under the same key. */
  lemma RoomAndPrivateKeysCollide()
    ensures RoomKey("pm_x") == PrivateKey("room", "x")
  {
    assert !LexLe("x", "room");
    assert SortPair("room", "x") == ("room", "x");
  }

  /** So a private message between "room" and "x" shows up in the history of
      room "pm_x". */
  lemma PrivateMessageLeaksIntoRoom(store: map<string, seq<Message>>, m: Message)
    ensures var after := store[PrivateKey("room", "x") := PushBounded(Log(store, PrivateKey("room", "x")), m)];
            m in Read(Log(after, RoomKey("pm_x")), None)
  {
    RoomAndPrivateKeysCollide();
  }
}
