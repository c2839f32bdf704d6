/** The group handler (server/socket/handlers/groupHandler.js). */
module GroupHandler {
  import opened Common
  import opened Text
  import opened Messages
  import opened Members
  import opened Users
  import opened GroupModel
  import opened Groups
  import opened HistoryModel
  import opened Events
  import HistoryService
  import PrivateHandler
  import Config

  /** The transport channel of a group's members: `group_${groupName}`. */
  function GroupChannel(groupName: string): string
  {
    Config.GROUP_ROOM_PREFIX + groupName
  }

  /** The `groupJoined` notice for one member: sent to the first bound user
      carrying the member's username, or to nobody when none is bound. */
  function Notice(member: Member, users: seq<User>, groupName: string, username: string): (r: seq<Event>)
    ensures |r| <= 1
    ensures r != [] <==> NameBound(users, member.username)
    ensures r != [] ==> exists u :: u in users && u.username == member.username &&
                                    r[0] == Event(ToSocket(u.id), "groupJoined", GroupJoined(groupName, username))
  {
    match PrivateHandler.Online(users, member.username)
    case None => []
    case Some(u) => [Event(ToSocket(u.id), "groupJoined", GroupJoined(groupName, username))]
  }

  /** The notices of `result.group.members.forEach(...)`, in member order. */
  function JoinNotices(members: seq<Member>, users: seq<User>, groupName: string, username: string): (r: seq<Event>)
    ensures |r| <= |members|
    ensures forall j :: 0 <= j < |members| ==>
              forall e :: e in Notice(members[j], users, groupName, username) ==> e in r
    ensures forall k :: 0 <= k < |r| ==>
              exists j :: 0 <= j < |members| && r[k] in Notice(members[j], users, groupName, username)
  {
    if members == [] then []
    else
      var front := members[..|members| - 1];
      var last := members[|members| - 1];
      var r := JoinNotices(front, users, groupName, username) + Notice(last, users, groupName, username);
      assert forall j :: 0 <= j < |front| ==> front[j] == members[j];
      r
  }

  /** The member-notification loop of `handleJoinGroup`. */
  method NotifyMembers(users: UserService, members: seq<Member>, groupName: string, username: string)
    returns (events: seq<Event>)
    ensures events == JoinNotices(members, users.users, groupName, username)
  {
    events := [];
    var i := 0;
    while i < |members|
      invariant 0 <= i <= |members|
      invariant events == JoinNotices(members[..i], users.users, groupName, username)
    {
      var member := members[i];
      var memberUser := Find(users.users, (u: User) => u.username == member.username);
      if memberUser.Some? {
        events := events + [Event(ToSocket(memberUser.value.id), "groupJoined", GroupJoined(groupName, username))];
      }
      assert members[..i + 1][..i] == members[..i];
      i := i + 1;
    }
    assert members[..i] == members;
  }

  /** `handleCreateGroup(socket, io, { groupName })`: an unbound socket or a
      refused name gets one `groupError`; a created group is announced to
      everyone before the creator's confirmation. */
  method HandleCreateGroup(users: UserService, groups: GroupService, id: string, groupName: string,
                           tMember: int, tReturn: int)
    returns (events: seq<Event>)
    requires groups.Valid()
    modifies groups
    ensures groups.Valid()
    ensures users.GetCurrentUser(id).None? ==>
              events == [ErrorTo(id, "groupError", "You are not in a room")] &&
              groups.memberships == old(groups.memberships) && groups.order == old(groups.order)
    ensures users.GetCurrentUser(id).Some? ==>
              var user := users.GetCurrentUser(id).value;
              var members := [Member(user.username, id, tMember)];
              if IsBlank(groupName) || groupName in old(groups.groups) then
                events == [ErrorTo(id, "groupError",
                                   if IsBlank(groupName) then "Group name cannot be empty"
                                   else "Group \"" + groupName + "\" already exists")] &&
                groups.memberships == old(groups.memberships) && groups.order == old(groups.order)
              else
                groups.memberships == old(groups.memberships)[groupName := members] &&
                groups.order == old(groups.order) + [groupName] &&
                events == [Event(ToEveryone, "allGroups", AllGroups(groups.GetAllGroups())),
                           Event(ToSocket(id), "groupCreated", GroupResult(Detail(groupName, members), tReturn))]
  {
    var user := users.GetCurrentUser(id);
    if user.None? {
      return [ErrorTo(id, "groupError", "You are not in a room")];
    }
    var result := groups.CreateGroup(groupName, user.value.username, id, tMember, tReturn);
    if result.Err? {
      return [ErrorTo(id, "groupError", result.error)];
    }
    events := [Event(ToEveryone, "allGroups", AllGroups(groups.GetAllGroups())),
               Event(ToSocket(id), "groupCreated", GroupResult(result.value.group, result.value.joinTime))];
  }

  /** `handleRequestGroups(socket)`: the requester gets every group, none empty. */
  method HandleRequestGroups(groups: GroupService, id: string) returns (events: seq<Event>)
    requires groups.Valid()
    ensures |events| == 1 && events[0].target == ToSocket(id) && events[0].name == "allGroups"
    ensures events[0].payload == AllGroups(groups.GetAllGroups())
    ensures forall k :: 0 <= k < |events[0].payload.groups| ==> events[0].payload.groups[k].memberCount > 0
  {
    events := [Event(ToSocket(id), "allGroups", AllGroups(groups.GetAllGroups()))];
  }

  /** `handleJoinGroup(socket, io, { groupName })`: an unbound socket, an
      unknown group or a repeated join gets one `groupError`; a join notifies
      every bound member (the joiner included), then everyone gets the group
      list, then the joiner its confirmation. */
  method HandleJoinGroup(users: UserService, groups: GroupService, id: string, groupName: string, now: int)
    returns (events: seq<Event>)
    requires users.Valid() && groups.Valid()
    modifies groups, groups.groups.Values
    ensures groups.Valid()
    ensures groups.groups == old(groups.groups) && groups.order == old(groups.order)
    ensures users.GetCurrentUser(id).None? ==>
              events == [ErrorTo(id, "groupError", "You are not in a room")] &&
              groups.memberships == old(groups.memberships)
    ensures users.GetCurrentUser(id).Some? && groupName !in old(groups.groups) ==>
              events == [ErrorTo(id, "groupError", "Group \"" + groupName + "\" does not exist")] &&
              groups.memberships == old(groups.memberships)
    ensures users.GetCurrentUser(id).Some? && groupName in old(groups.groups) &&
            HasId(old(groups.memberships)[groupName], id) ==>
              events == [ErrorTo(id, "groupError", "You are already a member of this group")] &&
              groups.memberships == old(groups.memberships)
    ensures users.GetCurrentUser(id).Some? && groupName in old(groups.groups) &&
            !HasId(old(groups.memberships)[groupName], id) ==>
              var user := users.GetCurrentUser(id).value;
              var members := old(groups.memberships)[groupName] + [Member(user.username, id, now)];
              groups.memberships == old(groups.memberships)[groupName := members] &&
              events == JoinNotices(members, users.users, groupName, user.username) +
                        [Event(ToEveryone, "allGroups", AllGroups(groups.GetAllGroups())),
                         Event(ToSocket(id), "groupJoinedSuccess", GroupResult(Detail(groupName, members), now))] &&
              Event(ToSocket(id), "groupJoined", GroupJoined(groupName, user.username)) in events
  {
    var user := users.GetCurrentUser(id);
    if user.None? {
      return [ErrorTo(id, "groupError", "You are not in a room")];
    }
    var result := groups.JoinGroup(groupName, user.value.username, id, now);
    if result.Err? {
      return [ErrorTo(id, "groupError", result.error)];
    }
    assert users.GetCurrentUser(id) == user;
    var group := result.value.group;
    events := NotifyMembers(users, group.members, group.name, user.value.username);
    JoinerNotified(users.users, group.members, user.value, group.name);
    events := events + [Event(ToEveryone, "allGroups", AllGroups(groups.GetAllGroups())),
                        Event(ToSocket(id), "groupJoinedSuccess", GroupResult(group, result.value.joinTime))];
  }

  /** With one entry per username, a bound user who is the last member to
      join is sent a `groupJoined` notice at its own socket. */
  lemma JoinerNotified(users: seq<User>, members: seq<Member>, joiner: User, groupName: string)
    requires NamesUnique(users) && joiner in users
    requires members != [] && members[|members| - 1].username == joiner.username
    ensures Event(ToSocket(joiner.id), "groupJoined", GroupJoined(groupName, joiner.username))
            in JoinNotices(members, users, groupName, joiner.username)
  {
    var last := members[|members| - 1];
    var n := Notice(last, users, groupName, joiner.username);
    assert NameBound(users, joiner.username) by {
      var k :| 0 <= k < |users| && users[k] == joiner;
    }
    var u :| u in users && u.username == last.username &&
             n[0] == Event(ToSocket(u.id), "groupJoined", GroupJoined(groupName, joiner.username));
    var a :| 0 <= a < |users| && users[a] == u;
    var b :| 0 <= b < |users| && users[b] == joiner;
    assert a == b;
    assert n[0] in n;
  }

  /** `handleGroupMessage(socket, io, { groupName, message })`: only a bound
      member's message is stored, once, and sent unchanged to the group channel. */
  method HandleGroupMessage(users: UserService, groups: GroupService, history: MessageHistory, id: string,
                            groupName: string, message: string, now: int)
    returns (events: seq<Event>)
    modifies history
    ensures history.roomMessages == old(history.roomMessages) && history.privateMessages == old(history.privateMessages)
    ensures var user := users.GetCurrentUser(id);
            if user.None? then
              events == [ErrorTo(id, "groupError", "You are not in a room")] &&
              history.groupMessages == old(history.groupMessages)
            else if !groups.IsGroupMember(groupName, id) then
              events == [ErrorTo(id, "groupError", "You are not a member of this group")] &&
              history.groupMessages == old(history.groupMessages)
            else
              var m := Message(user.value.username, message, now);
              history.groupMessages == old(history.groupMessages)[groupName := Log(old(history.groupMessages), groupName) + [m]] &&
              events == [Event(ToRoom(GroupChannel(groupName)), "groupMessage", GroupMessage(groupName, m))]
  {
    var user := users.GetCurrentUser(id);
    if user.None? {
      return [ErrorTo(id, "groupError", "You are not in a room")];
    }
    if !groups.IsGroupMember(groupName, id) {
      return [ErrorTo(id, "groupError", "You are not a member of this group")];
    }
    var formattedMessage := HistoryService.AddGroupMessage(history, groupName, user.value.username, message, now);
    events := [Event(ToRoom(GroupChannel(groupName)), "groupMessage", GroupMessage(groupName, formattedMessage))];
  }

  /** The cut-off of a member's group history: its own join time, or the
      clock reading now when that is missing or 0. */
  function HistoryCutoff(member: Option<Member>, now: int): (t: int)
    ensures member.Some? && member.value.joinTime != 0 ==> t == member.value.joinTime
    ensures member.None? || member.value.joinTime == 0 ==> t == now
  {
    if member.Some? then (if member.value.joinTime != 0 then member.value.joinTime else now) else now
  }

  /** `handleRequestGroupHistory(socket, { groupName })`: a bound member gets
      the group's messages from its own join time on. */
  method HandleRequestGroupHistory(users: UserService, groups: GroupService, history: MessageHistory, id: string,
                                   groupName: string, now: int)
    returns (events: seq<Event>)
    requires groups.Valid()
    ensures var user := users.GetCurrentUser(id);
            if user.None? then events == [ErrorTo(id, "groupError", "You are not in a room")]
            else if !groups.IsGroupMember(groupName, id) then
              events == [ErrorTo(id, "groupError", "You are not a member of this group")]
            else
              var t := HistoryCutoff(MemberById(groups.memberships[groupName], id), now);
              |events| == 1 && events[0].target == ToSocket(id) && events[0].name == "groupHistory" &&
              events[0].payload == GroupHistory(groupName, Since(Log(history.groupMessages, groupName), t)) &&
              forall m :: m in events[0].payload.messages ==> m.timestamp >= t
  {
    var user := users.GetCurrentUser(id);
    if user.None? {
      return [ErrorTo(id, "groupError", "You are not in a room")];
    }
    if !groups.IsGroupMember(groupName, id) {
      return [ErrorTo(id, "groupError", "You are not a member of this group")];
    }
    var group := groups.GetGroup(groupName);
    var member := MemberById(group.value.members, id);
    var joinTime := HistoryCutoff(member, now);
    var messages := HistoryService.GetGroupHistory(history, groupName, joinTime);
    events := [Event(ToSocket(id), "groupHistory", GroupHistory(groupName, messages))];
  }
}
