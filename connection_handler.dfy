/** The connection handler (server/socket/handlers/connectionHandler.js):
    joining a room and disconnecting. */
module ConnectionHandler {
  import opened Common
  import opened Messages
  import opened Members
  import opened Users
  import opened GroupModel
  import opened Groups
  import opened HistoryModel
  import opened Events
  import HistoryService
  import Config

  const WELCOME_TEXT: string := "Welcome to ComNetwork Project"

  function JoinedText(username: string): string
  {
    username + " has joined the chat"
  }

  function LeftText(username: string): string
  {
    username + " has left the chat"
  }

  /** The theme a joining user ends up with, and the preference map after
      it: a stored preference wins; otherwise a valid hint is stored and used;
      otherwise the default is stored and used. Either way the user then has
      a stored preference, and the theme sent is the one a later read gives. */
  function ResolveTheme(themes: map<string, string>, username: string, hint: string): (r: (string, map<string, string>))
    requires forall u :: u in themes ==> themes[u] in Config.VALID_THEMES
    ensures username in r.1 && r.0 == ThemeOf(r.1, username) && r.0 in Config.VALID_THEMES
    ensures forall u :: u in r.1 ==> r.1[u] in Config.VALID_THEMES
    ensures username in themes ==> r.1 == themes && r.0 == themes[username]
    ensures username !in themes && hint in Config.VALID_THEMES ==> r == (hint, themes[username := hint])
    ensures username !in themes && hint !in Config.VALID_THEMES ==>
              r == (Config.DEFAULT_THEME, themes[username := Config.DEFAULT_THEME])
  {
    if username in themes then (ThemeOf(themes, username), themes)
    else if hint != "" && hint in Config.VALID_THEMES then (hint, themes[username := hint])
    else (Config.DEFAULT_THEME, themes[username := Config.DEFAULT_THEME])
  }

  /** Every stored preference is one of the valid themes. */
  predicate ThemesValid(users: UserService)
    reads users
  {
    forall u :: u in users.userThemes ==> users.userThemes[u] in Config.VALID_THEMES
  }

  /** What a successful join sends, given the room history the joiner may
      see, the room's roster and everyone online after the join, the group
      list and the resolved theme. The history comes first and only when
      there is some; the join notice goes to the rest of the room only. */
  function JoinEvents(id: string, username: string, room: string, past: seq<Message>, roster: seq<User>,
                      everyone: seq<User>, groupList: seq<GroupInfo>, theme: string, tWelcome: int, tNotice: int): (r: seq<Event>)
    ensures |r| == if |past| > 0 then 7 else 6
    ensures |past| > 0 ==> r[0] == Event(ToSocket(id), "roomHistory", RoomHistory(room, past))
    ensures r[|r| - 1] == Event(ToSocket(id), "themePreference", ThemePreference(theme))
    ensures forall k :: 0 <= k < |r| && r[k].target == ToRoomExcept(room, id) ==>
              r[k].payload == ChatMessage(Message(Config.BOT_NAME, JoinedText(username), tNotice))
  {
    (if |past| > 0 then [Event(ToSocket(id), "roomHistory", RoomHistory(room, past))] else []) +
    [Event(ToSocket(id), "message", ChatMessage(Message(Config.BOT_NAME, WELCOME_TEXT, tWelcome))),
     Event(ToRoomExcept(room, id), "message", ChatMessage(Message(Config.BOT_NAME, JoinedText(username), tNotice))),
     Event(ToRoom(room), "roomUsers", RoomUsers(room, roster)),
     Event(ToEveryone, "allUsers", AllUsers(everyone)),
     Event(ToSocket(id), "allGroups", AllGroups(groupList)),
     Event(ToSocket(id), "themePreference", ThemePreference(theme))]
  }

  /** `handleJoinRoom(socket, io, { username, room, theme })`. The four clock
      readings are the user's join time, the welcome message, the broadcast
      join notice and the stored join notice. A refused join sends one
      `joinError` and touches neither themes nor history (the socket's earlier
      binding has still been released). A join resolves the theme, sends the
      room history from the join time on, read before the join notice is
      stored, and stores the notice in the room's log. */
  method HandleJoinRoom(users: UserService, groups: GroupService, history: MessageHistory, id: string,
                        username: string, room: string, theme: string,
                        tJoin: int, tWelcome: int, tNotice: int, tStored: int)
    returns (events: seq<Event>)
    requires users.Valid() && ThemesValid(users) && groups.Valid()
    modifies users, history
    ensures users.Valid() && ThemesValid(users)
    ensures history.privateMessages == old(history.privateMessages) && history.groupMessages == old(history.groupMessages)
    ensures NameBound(Release(old(users.users), id), username) ==>
              users.users == Release(old(users.users), id) && users.userThemes == old(users.userThemes) &&
              history.roomMessages == old(history.roomMessages) &&
              events == [ErrorTo(id, "joinError", TakenMessage(username))]
    ensures !NameBound(Release(old(users.users), id), username) ==>
              var resolved := ResolveTheme(old(users.userThemes), username, theme);
              users.users == Release(old(users.users), id) + [User(id, username, room, tJoin)] &&
              users.userThemes == resolved.1 && resolved.0 == users.GetUserTheme(username) &&
              history.roomMessages == old(history.roomMessages)[room :=
                Log(old(history.roomMessages), room) + [Message(Config.BOT_NAME, JoinedText(username), tStored)]]
    ensures !NameBound(Release(old(users.users), id), username) ==>
              events == JoinEvents(id, username, room, Since(Log(old(history.roomMessages), room), tJoin),
                                   users.GetRoomUsers(room), users.users, old(groups.GetAllGroups()),
                                   ResolveTheme(old(users.userThemes), username, theme).0, tWelcome, tNotice)
  {
    var groupList := groups.GetAllGroups();
    var result := users.UserJoin(id, username, room, tJoin);
    if result.Err? {
      return [ErrorTo(id, "joinError", result.error)];
    }
    var user := result.value;
    var userTheme;
    if users.HasUserTheme(user.username) {
      userTheme := users.GetUserTheme(user.username);
    } else if theme != "" && theme in Config.VALID_THEMES {
      users.SetUserTheme(user.username, theme);
      userTheme := theme;
    } else {
      userTheme := Config.DEFAULT_THEME;
      users.SetUserTheme(user.username, userTheme);
    }
    var roomHistory := HistoryService.GetRoomHistory(history, user.room, user.joinTime);
    assert roomHistory == Since(Log(history.roomMessages, room), tJoin);
    var _ := HistoryService.AddRoomMessage(history, user.room, Config.BOT_NAME, JoinedText(user.username), tStored);
    events := JoinEvents(id, user.username, user.room, roomHistory, users.GetRoomUsers(user.room), users.users,
                         groupList, userTheme, tWelcome, tNotice);
  }

  /** The member lists after the socket id has left, one after the other,
      each of the named groups it belongs to. */
  function Purge(ms: map<string, seq<Member>>, names: seq<string>, id: string): map<string, seq<Member>>
  {
    if names == [] then ms else Purge(Leave(ms, names[0], id), names[1..], id)
  }

  /** Purging keeps only existing groups, clears the id from every named group
      that remains, leaves the other groups as they were and keeps the lists
      well formed. */
  lemma {:induction false} PurgeSpec(ms: map<string, seq<Member>>, names: seq<string>, id: string)
    ensures forall n :: n in Purge(ms, names, id) ==> n in ms
    ensures forall n :: n in Purge(ms, names, id) && n in names ==> !HasId(Purge(ms, names, id)[n], id)
    ensures forall n :: n in ms && n !in names ==> n in Purge(ms, names, id) && Purge(ms, names, id)[n] == ms[n]
    ensures WellFormed(ms) ==> WellFormed(Purge(ms, names, id))
  {
    if names != [] {
      var ms' := Leave(ms, names[0], id);
      PurgeSpec(ms', names[1..], id);
      var r := Purge(ms, names, id);
      assert r == Purge(ms', names[1..], id);
      forall n | n in r && n in names ensures !HasId(r[n], id) {
        if n !in names[1..] {
          assert n == names[0];
        }
      }
    }
  }

  /** The group order after the socket id has left the named groups one
      after the other: a name goes exactly when its group is emptied. */
  function PurgeOrder(ms: map<string, seq<Member>>, names: seq<string>, id: string, order: seq<string>): seq<string>
  {
    if names == [] then order
    else
      var n := names[0];
      var next := if n in ms && WithoutId(ms[n], id) == [] then WithoutName(order, n) else order;
      PurgeOrder(Leave(ms, n, id), names[1..], id, next)
  }

  /** When the order lists the groups once each, the purged order is the old
      order, in the same relative order, restricted to the groups that remain
      after the purge. */
  lemma {:induction false} PurgeOrderSpec(ms: map<string, seq<Member>>, names: seq<string>, id: string, order: seq<string>)
    requires Distinct(order) && forall n :: n in order <==> n in ms
    ensures IsSubsequence(PurgeOrder(ms, names, id, order), order)
    ensures Distinct(PurgeOrder(ms, names, id, order))
    ensures forall n :: n in PurgeOrder(ms, names, id, order) <==> n in Purge(ms, names, id)
  {
    if names == [] {
      SubsequenceReflexive(order);
    } else {
      var n := names[0];
      var next := if n in ms && WithoutId(ms[n], id) == [] then WithoutName(order, n) else order;
      var ms' := Leave(ms, n, id);
      assert forall x :: x in next <==> x in ms';
      PurgeOrderSpec(ms', names[1..], id, next);
      if next == order {
        SubsequenceReflexive(order);
      }
      SubsequenceTransitive(PurgeOrder(ms', names[1..], id, next), next, order);
    }
  }

  /** Leaving a group one does not belong to changes nothing. */
  lemma LeaveAbsent(ms: map<string, seq<Member>>, name: string, id: string)
    requires WellFormed(ms)
    requires name in ms ==> !HasId(ms[name], id)
    ensures Leave(ms, name, id) == ms
  {
    if name in ms {
      WithoutAbsentId(ms[name], id);
    }
  }

  /** One step of a purge: the first remaining name is left first. */
  lemma PurgeStep(ms: map<string, seq<Member>>, names: seq<string>, i: nat, id: string, order: seq<string>)
    requires i < |names|
    ensures Purge(ms, names[i..], id) == Purge(Leave(ms, names[i], id), names[i + 1..], id)
    ensures var n := names[i];
            PurgeOrder(ms, names[i..], id, order) ==
            PurgeOrder(Leave(ms, n, id), names[i + 1..], id,
                       if n in ms && WithoutId(ms[n], id) == [] then WithoutName(order, n) else order)
  {
    assert names[i..][1..] == names[i + 1..];
  }

  /** The group-leaving loop of `handleDisconnect`: over a snapshot of the
      group list, the socket leaves every group it is a member of. */
  method LeaveAllGroups(groups: GroupService, id: string)
    requires groups.Valid()
    modifies groups, groups.groups.Values
    ensures groups.Valid()
    ensures groups.memberships == Purge(old(groups.memberships), old(groups.order), id)
    ensures groups.order == PurgeOrder(old(groups.memberships), old(groups.order), id, old(groups.order))
    ensures IsSubsequence(groups.order, old(groups.order))
    ensures forall n :: n in groups.groups ==> n in old(groups.groups) && groups.groups[n] == old(groups.groups)[n]
    ensures forall n :: n in groups.memberships ==> !HasId(groups.memberships[n], id)
  {
    var allGroups := groups.GetAllGroups();
    ghost var names := groups.order;
    ghost var start := groups.memberships;
    ghost var frame := groups.groups;
    var i := 0;
    while i < |allGroups|
      invariant 0 <= i <= |allGroups| == |names|
      invariant forall k :: 0 <= k < |allGroups| ==> allGroups[k].name == names[k]
      invariant groups.Valid()
      invariant forall n :: n in groups.groups ==> n in frame && groups.groups[n] == frame[n]
      invariant Purge(start, names, id) == Purge(groups.memberships, names[i..], id)
      invariant PurgeOrder(start, names, id, names) == PurgeOrder(groups.memberships, names[i..], id, groups.order)
    {
      var name := allGroups[i].name;
      ghost var before := groups.memberships;
      PurgeStep(before, names, i, id, groups.order);
      var group := groups.GetGroup(name);
      if group.Some? && group.value.HasMember(id) {
        var _ := groups.LeaveGroup(name, id);
      } else {
        LeaveAbsent(before, name, id);
      }
      i := i + 1;
    }
    PurgeSpec(start, names, id);
    PurgeOrderSpec(start, names, id, names);
  }

  /** What a disconnect broadcasts, given the departed user, the room's
      roster and everyone still online after the departure, and the group
      list after the socket has left its groups. */
  function LeaveEvents(user: User, roster: seq<User>, everyone: seq<User>, groupList: seq<GroupInfo>, tLeft: int): (r: seq<Event>)
    ensures |r| == 4
    ensures forall k :: 0 <= k < 2 ==> r[k].target == ToRoom(user.room)
    ensures forall k :: 2 <= k < 4 ==> r[k].target == ToEveryone
    ensures r[0].payload == ChatMessage(Message(Config.BOT_NAME, LeftText(user.username), tLeft))
    ensures r[1].payload == RoomUsers(user.room, roster) && r[2].payload == AllUsers(everyone)
    ensures r[3] == Event(ToEveryone, "allGroups", AllGroups(groupList))
  {
    [Event(ToRoom(user.room), "message", ChatMessage(Message(Config.BOT_NAME, LeftText(user.username), tLeft))),
     Event(ToRoom(user.room), "roomUsers", RoomUsers(user.room, roster)),
     Event(ToEveryone, "allUsers", AllUsers(everyone)),
     Event(ToEveryone, "allGroups", AllGroups(groupList))]
  }

  /** `handleDisconnect(socket, io)`: nothing happens for an unbound socket.
      Otherwise the binding goes, the room hears that the user left (the
      notice is not stored), the rosters are resent, the socket leaves every
      group (empty groups disappear) and then everyone gets the group list. */
  method HandleDisconnect(users: UserService, groups: GroupService, id: string, tLeft: int)
    returns (events: seq<Event>)
    requires users.Valid() && groups.Valid()
    modifies users, groups, groups.groups.Values
    ensures users.Valid() && groups.Valid()
    ensures users.userThemes == old(users.userThemes)
    ensures old(users.GetCurrentUser(id)).None? ==>
              events == [] && users.users == old(users.users) && groups.memberships == old(groups.memberships) &&
              groups.groups == old(groups.groups) && groups.order == old(groups.order)
    ensures old(users.GetCurrentUser(id)).Some? ==>
              users.users == Release(old(users.users), id) &&
              groups.memberships == Purge(old(groups.memberships), old(groups.order), id) &&
              groups.order == PurgeOrder(old(groups.memberships), old(groups.order), id, old(groups.order))
    ensures old(users.GetCurrentUser(id)).Some? ==>
              var user := old(users.GetCurrentUser(id)).value;
              events == LeaveEvents(user, users.GetRoomUsers(user.room), users.users, groups.GetAllGroups(), tLeft)
    ensures old(users.GetCurrentUser(id)).Some? ==>
              forall n :: n in groups.memberships ==> !HasId(groups.memberships[n], id)
  {
    var user := users.UserLeave(id);
    if user.None? {
      return [];
    }
    var u := user.value;
    var roster := users.GetRoomUsers(u.room);
    var everyone := users.users;
    ghost var themes := users.userThemes;
    LeaveAllGroups(groups, id);
    assert users.users == everyone && users.userThemes == themes;
    events := LeaveEvents(u, roster, everyone, groups.GetAllGroups(), tLeft);
  }
}
