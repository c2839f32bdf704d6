# COMP-NETWORK chat server — a Dafny model of its core

The system is a Socket.IO chat application. Users join a room under a
username. They talk in the room, send private messages to another online
user, and create, join and talk in named groups. The server keeps a
per-room, per-pair and per-group message history. A user joining a group
sees only the messages sent after they joined.

The repository holds two generations of the server-side state:

* the older module-level stores `utils/user.js`, `utils/groups.js` and
  `utils/messageHistory.js`: arrays and maps with trimmed,
  case-insensitive names and a 1000-message window per chat;
* the newer `server/` tree: the `User`, `Group` and `MessageHistory`
  models, the `userService`, `groupService` and `historyService` singletons,
  and the Socket.IO event handlers built on them.

The browser keeps its own bookkeeping: the current chat, the open chats,
the joined groups, the chat identifiers and the unread counters.

The model follows that structure, one Dafny module per source file:

* State that the source updates in place is a `class` whose fields the
  methods reassign. This covers both user stores, both group stores, both
  history stores, the `Group` model, the client session and the unread
  counter. The group service's insertion-ordered `Map` becomes a
  `map<string, Group>` plus the `order` of its keys, with a
  `memberships` snapshot of every group's member list.
* Each method is specified by a pure function on the old state: the
  admission checks `CheckJoin` and `CheckCreate`, `Release`, `Leave`,
  `Purge`, `Since`, `PushBounded` and `LastN`. The lemmas beside those
  functions state what the source relies on.
* A socket handler is a method over the services. It returns the events
  it emits as a sequence of `Event`, each with a target: the socket, a
  room, a room except the sender, or everyone.
* Clock readings (`Date.now()`) are parameters, one per reading.

## Model

| member | source | states |
|---|---|---|
| Text.Trim | utils/user.js:6-7 | the result is the input with its leading and trailing whitespace removed: a contiguous slice that neither starts nor ends in whitespace |
| Text.TrimEmptyIffBlank | server/services/groupService.js:19 | a name trims to the empty string exactly when every character is whitespace |
| Text.TrimsToEmpty | server/services/groupService.js:19 | the `!groupName.trim()` test is true exactly for blank names |
| Text.TrimIdempotent | utils/user.js:6-7 | trimming a trimmed name changes nothing |
| Text.TrimUnchanged | utils/user.js:6-7 | a name with no outer whitespace is its own trim |
| Text.ToLower | utils/user.js:16 | the lower-cased key has the name's length and maps each character through the letter-case rule |
| Text.ToLowerIdempotent | utils/user.js:16-19 | lower-casing a key again gives the same key |
| Text.Utf16Length | utils/user.js:12 | the JavaScript `length` lies between the number of characters and twice that |
| Text.HasDoubleSpaceMeans | utils/user.js:13 | `includes('  ')` holds exactly when two adjacent characters are both spaces |
| Text.SortedJoinSymmetric | server/models/MessageHistory.js:43 | the sorted pair and the joined private key do not depend on the order of the two usernames |
| Text.SortPairOrdered | utils/messageHistory.js:33-34 | sorting two names yields the same two names, in lexicographic order |
| Messages.Log | server/models/MessageHistory.js:68-71 | a missing key reads as the empty log, and a present key as its stored log |
| Messages.Since | server/models/MessageHistory.js:68-71 | the filtered history is an in-order subsequence of the log holding exactly the messages stamped at or after the cut-off |
| Messages.SinceAppend | server/models/MessageHistory.js:29-34 | filtering after an append is filtering before it, plus the new message when it passes the cut-off |
| Messages.SinceNarrows | server/models/MessageHistory.js:90-93 | a later cut-off yields a subsequence of an earlier one, and filtering twice equals filtering at the later cut-off |
| Messages.SinceEverything | server/models/MessageHistory.js:68-71 | when every message passes the cut-off, the whole log is returned |
| Members.WithoutId | server/models/Group.js:48-52 | removing an id keeps, in order, every member with another id and no member with that id |
| Members.WithoutIdLength | server/models/Group.js:48-52 | the list gets shorter exactly when the id was present, and by one when ids are unique |
| Members.WithoutIdUnique | server/models/Group.js:48-52 | removing a member keeps ids unique |
| Members.UniqueAppend | server/services/groupService.js:60-78 | appending a member whose id is absent keeps ids unique |
| Members.RemoveOnlyEntry | utils/groups.js:54-62 | splicing out the one entry with an id keeps ids unique and removes that id |
| Members.MemberById | server/models/Group.js:68-70 | the lookup fails exactly when no member has the id, and otherwise returns the first member with it |
| Members.Usernames | server/models/Group.js:76-82 | the usernames are listed in member order |
| LegacyUsers.CheckJoin | utils/user.js:5-28 | a join succeeds exactly for a valid, untaken trimmed name in a non-blank room; each refusal returns the source's message, in the source's order of checks; success stores the trimmed name, trimmed room and lower-cased key |
| LegacyUsers.KeysRemoveAt | utils/user.js:31-38 | splicing out a user removes exactly that user's key and keeps keys distinct |
| LegacyUsers.JoinKeepsRegistry | utils/user.js:25-27 | pushing a user with a fresh key keeps the users and the key set in step |
| LegacyUsers.CaseInsensitiveConflict | utils/user.js:16-19 | after "Alice" joins, a name that differs only in case is refused |
| LegacyUsers.UserList.constructor | utils/user.js:2-3 | the store starts with no users and no keys |
| LegacyUsers.UserList.UserJoin | utils/user.js:5-28 | the outcome is the one `CheckJoin` gives against the current keys; a success appends the user and its key, and a refusal changes nothing |
| LegacyUsers.UserList.GetCurrentUser | utils/user.js:30 | the lookup fails exactly when no user has the id, and otherwise returns the first entry with it (which matters after a rejoin leaves two entries) |
| LegacyUsers.UserList.UserLeave | utils/user.js:31-38 | the first user with the id is removed together with its key; an unknown id changes nothing |
| LegacyUsers.UserList.GetRoomUsers | utils/user.js:39-42 | the result is, in order, exactly the users whose room equals the trimmed argument |
| LegacyUsers.RejoinKeepsOldBinding | utils/user.js:5-28 | a socket that joins again under a new name holds two entries (see Findings) |
| LegacyUsers.RejoinSameNameRefused | utils/user.js:16-19 | a socket that joins again under its own name is refused, because its own entry holds the key |
| Users.Release | server/services/userService.js:25-28 | releasing an id removes at most one entry, keeps every other user in order, and keeps ids and names unique |
| Users.JoinKeepsOneBindingPerId | server/services/userService.js:23-42 | after any join, ids and names stay unique and the socket holds at most one entry |
| Users.CaseDistinctNamesCoexist | server/services/userService.js:31-36 | names are compared exactly, so "alice" is free while "Alice" is bound |
| Users.ThemeOf | server/services/userService.js:96-98 | the theme is the stored one when present and non-empty, and "light" otherwise; it is never empty |
| Users.ThemeRoundTrip | server/services/userService.js:87-98 | after a theme is set for a user it is read back, falling back to the default only for "", and other users' themes are unchanged |
| Users.UserService.constructor | server/services/userService.js:10-13 | the service starts with no users and no themes |
| Users.UserService.UserJoin | server/services/userService.js:23-42 | the socket's earlier entry is released first; the name is refused exactly when another connection holds it, otherwise a `User` with the join time is appended; themes are untouched |
| Users.UserService.GetCurrentUser | server/services/userService.js:49-51 | the lookup fails exactly when no user has the id, and otherwise returns a stored user with it |
| Users.UserService.UserLeave | server/services/userService.js:58-63 | the result is the user previously bound to the socket; afterwards no entry has the id and the rest are kept in order |
| Users.UserService.GetRoomUsers | server/services/userService.js:70-72 | the result is, in order, exactly the users in the room |
| Users.UserService.SetUserTheme | server/services/userService.js:87-89 | the theme map is updated at that username only |
| Users.UserService.GetUserTheme | server/services/userService.js:96-98 | the stored theme when it is non-empty, and the default when none is stored or the stored one is empty; never empty |
| GroupModel.Info | server/models/Group.js:76-82 | the summary carries the name, the usernames in member order, and a member count equal to the list's length |
| GroupModel.Group.constructor | server/models/Group.js:16-25 | a new group has its name and exactly one member, the creator, with the creation time |
| GroupModel.Group.AddMember | server/models/Group.js:33-41 | one member with the join time is appended and returned; membership of every other id is unchanged |
| GroupModel.Group.RemoveMember | server/models/Group.js:48-52 | every entry with the id is filtered out; the result is true exactly when the id was a member; unique ids stay unique |
| GroupModel.Group.GetMember | server/models/Group.js:68-70 | the lookup fails exactly for non-members, and otherwise returns the first entry with the id |
| GroupModel.Group.ToJSON | server/models/Group.js:76-82 | the summary lists the usernames in order, with a matching count |
| GroupModel.Group.ToDetailedJSON | server/models/Group.js:88-94 | the detail carries the full member records, with a matching count |
| LegacyGroups.Lookup | utils/groups.js:32-35 | the index is -1 exactly when no group name equals the trimmed argument up to letter case, and otherwise points at a match |
| LegacyGroups.LookupUnique | utils/groups.js:32-35 | in a store whose names are distinct up to case, the match is the only one |
| LegacyGroups.ReplaceKeepsWellFormed | utils/groups.js:37-52 | replacing a group's member list by a non-empty one with unique ids keeps the store well formed |
| LegacyGroups.RemoveKeepsWellFormed | utils/groups.js:63-69 | deleting a group keeps the store well formed |
| LegacyGroups.CheckCreate | utils/groups.js:4-22 | creation succeeds exactly for a non-blank name free up to case; each refusal returns the source's message; success makes the creator the only member |
| LegacyGroups.AppendKeepsWellFormed | utils/groups.js:4-22 | pushing a non-empty group under a fresh name keeps the store well formed |
| LegacyGroups.GroupList.constructor | utils/groups.js:2 | the store starts empty |
| LegacyGroups.GroupList.CreateGroup | utils/groups.js:4-22 | the outcome is the one `CheckCreate` gives; a success appends the group and a refusal changes nothing |
| LegacyGroups.GroupList.GetGroup | utils/groups.js:32-35 | the lookup fails exactly when no name matches up to case, and otherwise returns a stored match |
| LegacyGroups.GroupList.JoinGroup | utils/groups.js:37-52 | an unknown group is an error; an existing member gets its own join time back (the current time when that is 0) and nothing changes; otherwise one member is appended; on success the joiner is a member |
| LegacyGroups.GroupList.LeaveGroup | utils/groups.js:54-72 | an unknown group or a non-member is an error that changes nothing; otherwise the member is spliced out, and a group left empty is deleted |
| LegacyGroups.GroupList.GetAllGroups | utils/groups.js:24-30 | one summary per group in creation order, none of them empty |
| LegacyGroups.GroupList.GetGroupMembers | utils/groups.js:74-78 | the member list of the matching group, or empty when there is none |
| Groups.Leave | server/services/groupService.js:86-98 | leaving removes the id from that group only, deletes the group exactly when it becomes empty, and keeps the memberships well formed |
| Groups.WithoutName | server/services/groupService.js:93-95 | deleting a key from the ordered map removes exactly that name from the order, keeps the other names in their order, and keeps it duplicate-free |
| Groups.CreateConsistent | server/services/groupService.js:18-34 | storing a new non-empty group under a fresh name keeps groups, memberships and order consistent |
| Groups.UpdateConsistent | server/services/groupService.js:60-78 | refreshing one group's membership snapshot keeps the service consistent |
| Groups.DropConsistent | server/services/groupService.js:86-98 | deleting a group from all three views keeps the service consistent |
| Groups.GroupService.constructor | server/services/groupService.js:9 | the service starts with no groups |
| Groups.GroupService.CreateGroup | server/services/groupService.js:18-34 | creation succeeds exactly for a non-blank, unused name; each refusal returns the source's message and changes nothing; success stores a fresh group whose only member is the creator, appended last in order |
| Groups.GroupService.JoinGroup | server/services/groupService.js:60-78 | joining succeeds exactly for an existing group the socket is not in; each refusal returns the source's message and changes nothing; success appends one member |
| Groups.GroupService.LeaveGroup | server/services/groupService.js:86-98 | the result is true exactly when the socket was a member; afterwards it is not, the memberships follow `Leave`, and the name leaves the order exactly when the group is deleted |
| Groups.GroupService.GetGroup | server/services/groupService.js:49-51 | a group is found exactly when the name is stored, with its current members |
| Groups.GroupService.GetGroupMembers | server/services/groupService.js:105-108 | the members of a stored group; empty exactly for an unknown group |
| Groups.GroupService.GetAllGroups | server/services/groupService.js:40-42 | one summary per stored group in insertion order, each with a positive member count |
| Groups.GroupService.ListGroups | server/services/groupService.js:40-42 | the summaries of the named groups, in the given order |
| HistoryModel.PrivateKey | server/models/MessageHistory.js:43 | the pair key is the two usernames sorted and joined with `_pm_` |
| HistoryModel.MessageHistory.constructor | server/models/MessageHistory.js:13-22 | the three logs start empty |
| HistoryModel.MessageHistory.AddRoomMessage | server/models/MessageHistory.js:29-34 | the message is appended to that room's log, and no other log changes |
| HistoryModel.MessageHistory.AddPrivateMessage | server/models/MessageHistory.js:42-48 | the message is appended to the pair's log, and no other log changes |
| HistoryModel.MessageHistory.AddGroupMessage | server/models/MessageHistory.js:55-60 | the message is appended to that group's log, and no other log changes |
| HistoryModel.MessageHistory.GetRoomMessages | server/models/MessageHistory.js:68-71 | exactly the room's messages stamped at or after the cut-off, in order |
| HistoryModel.MessageHistory.GetPrivateMessages | server/models/MessageHistory.js:79-82 | the pair's log, whichever order the names come in |
| HistoryModel.MessageHistory.GetGroupMessages | server/models/MessageHistory.js:90-93 | exactly the group's messages stamped at or after the cut-off, in order |
| HistoryModel.MessageHistory.Clear | server/models/MessageHistory.js:98-102 | all three logs are emptied |
| HistoryService.AddRoomMessage | server/services/historyService.js:19-23 | the stored message carries the sender, text and time, and is appended to the room log only |
| HistoryService.AddPrivateMessage | server/services/historyService.js:33-37 | the message is appended to the pair's log; both parties then read the same history, ending in it |
| HistoryService.AddGroupMessage | server/services/historyService.js:46-50 | the message is appended to the group log only |
| HistoryService.GetRoomHistory | server/services/historyService.js:58-60 | exactly the room's messages at or after the cut-off, in order |
| HistoryService.GetPrivateHistory | server/services/historyService.js:68-70 | the pair's whole log |
| HistoryService.GetGroupHistory | server/services/historyService.js:78-80 | exactly the group's messages at or after the cut-off, in order |
| HistoryService.GroupMessageBeforeJoinHidden | server/services/historyService.js:46-80 | after `addGroupMessage`, the message is in the group log but not in the history of a member whose join time is later than its stamp, and is in the history of one who joined at or before it |
| HistoryService.PrivateMessageSeenByBoth | server/services/historyService.js:33-70 | after `addPrivateMessage`, both parties read the same private history, in either order of the names, and it ends in the new message |
| LegacyHistory.PrivateKey | utils/messageHistory.js:33-34 | the pair key is the two usernames sorted and joined with `_pm_` |
| LegacyHistory.LastN | utils/messageHistory.js:23-26 | the window is the suffix of the log of length min(n, log length): the latest n messages, or all of them when there are fewer |
| LegacyHistory.PushBounded | utils/messageHistory.js:21-26 | a push keeps the log within 1000 messages, the new message last, dropping the oldest only when the log was full |
| LegacyHistory.WindowAfterPush | utils/messageHistory.js:21-26 | pushing onto the window of everything sent equals the window of everything sent including the new message |
| LegacyHistory.Read | utils/messageHistory.js:72-82 | without a join time the whole log; with one, exactly the messages stamped at or after it, in order |
| LegacyHistory.AppendKeepsWindows | utils/messageHistory.js:11-29 | after any append, every stored log is still the last 1000 messages sent to its key |
| LegacyHistory.HistoryStore.constructor | utils/messageHistory.js:6 | the store starts empty |
| LegacyHistory.HistoryStore.Append | utils/messageHistory.js:13-26 | the key's log gets the message with the 1000-message bound, and the key's full record grows by it |
| LegacyHistory.HistoryStore.AddRoomMessage | utils/messageHistory.js:11-29 | the message built from sender, text and time is pushed under `room_<name>` |
| LegacyHistory.HistoryStore.AddPrivateMessage | utils/messageHistory.js:31-51 | the message is pushed under the sorted pair key |
| LegacyHistory.HistoryStore.AddGroupMessage | utils/messageHistory.js:53-70 | the message is pushed under `group_<name>` |
| LegacyHistory.HistoryStore.GetRoomHistory | utils/messageHistory.js:72-82 | the latest 1000 room messages, cut at the join time when one is given, every kept message at or after it included |
| LegacyHistory.HistoryStore.GetPrivateHistory | utils/messageHistory.js:84-95 | the same for the pair, whichever order the names come in |
| LegacyHistory.HistoryStore.GetGroupHistory | utils/messageHistory.js:97-107 | the same for the group |
| LegacyHistory.HistoryStore.Clear | utils/messageHistory.js:109-123 | the key's log is deleted and nothing else changes |
| LegacyHistory.HistoryStore.ClearRoomHistory | utils/messageHistory.js:109-112 | the room's history reads empty afterwards |
| LegacyHistory.HistoryStore.ClearPrivateHistory | utils/messageHistory.js:114-118 | the pair's history reads empty afterwards, in either order |
| LegacyHistory.HistoryStore.ClearGroupHistory | utils/messageHistory.js:120-123 | the group's history reads empty afterwards |
| LegacyHistory.RoomAndPrivateKeysCollide | utils/messageHistory.js:12-34 | the room "pm_x" and the pair ("room", "x") share one key (see Findings) |
| LegacyHistory.PrivateMessageLeaksIntoRoom | utils/messageHistory.js:31-51 | a private message between "room" and "x" shows up in the history of room "pm_x" (see Findings) |
| RoomHandler.HandleChatMessage | server/socket/handlers/roomHandler.js:15-25 | an unbound socket gets "You are not in a room"; otherwise the message is stored in the sender's room and broadcast to that room |
| ThemeHandler.HandleChangeTheme | server/socket/handlers/themeHandler.js:15-25 | a bound user's theme is stored and echoed back to the socket; an unbound socket changes nothing and gets nothing |
| PrivateHandler.PrivateRoom | server/socket/handlers/privateHandler.js:43-45 | the private room name is the same for both parties |
| PrivateHandler.Online | server/socket/handlers/privateHandler.js:29-30 | the receiver is found exactly when some connection holds that username |
| PrivateHandler.HandlePrivateMessage | server/socket/handlers/privateHandler.js:21-69 | the three refusals (unbound sender, offline receiver, oneself) each send their message and store nothing; otherwise the message is appended to the pair's log and no other private log changes, both parties read the same log, and the message is sent to the receiver and echoed to the sender |
| PrivateHandler.HandleRequestPrivateHistory | server/socket/handlers/privateHandler.js:77-91 | a bound user receives the whole log shared with the other user |
| GroupHandler.Notice | server/socket/handlers/groupHandler.js:88-98 | a member gets one "groupJoined" notice exactly when their username is online, sent to that connection |
| GroupHandler.JoinNotices | server/socket/handlers/groupHandler.js:88-98 | the notices are exactly those of the members, at most one each |
| GroupHandler.NotifyMembers | server/socket/handlers/groupHandler.js:88-98 | the loop emits exactly `JoinNotices` of the members |
| GroupHandler.JoinerNotified | server/socket/handlers/groupHandler.js:88-98 | the joiner, being the last member, is notified too |
| GroupHandler.HandleCreateGroup | server/socket/handlers/groupHandler.js:27-52 | an unbound socket or a refused name gets a "groupError" and nothing changes; otherwise the group is created with the user as its only member, the group list goes to everyone and "groupCreated" to the creator |
| GroupHandler.HandleRequestGroups | server/socket/handlers/groupHandler.js:58-60 | one "allGroups" event to the requester with every group, none empty |
| GroupHandler.HandleJoinGroup | server/socket/handlers/groupHandler.js:69-107 | the stored groups and their order never change; each refusal sends its message and changes nothing; a join appends the user, notifies every online member (the joiner included), sends the group list to everyone and confirms to the joiner |
| GroupHandler.HandleGroupMessage | server/socket/handlers/groupHandler.js:117-138 | an unbound socket or a non-member is refused and nothing is stored; otherwise the message goes to the group log and to the group's channel |
| GroupHandler.HistoryCutoff | server/socket/handlers/groupHandler.js:160-162 | the cut-off is the member's join time, or the current time when that is missing or 0 |
| GroupHandler.HandleRequestGroupHistory | server/socket/handlers/groupHandler.js:146-170 | a member receives only the group messages stamped at or after the cut-off; others get the matching error |
| ConnectionHandler.ResolveTheme | server/socket/handlers/connectionHandler.js:54-69 | a stored theme wins; otherwise a valid hint, else the default, is stored and used; every stored theme stays valid |
| ConnectionHandler.JoinEvents | server/socket/handlers/connectionHandler.js:75-108 | the join emits the history only when there is some, and the theme last; every broadcast to the rest of the room is the bot's "has joined" notice |
| ConnectionHandler.HandleJoinRoom | server/socket/handlers/connectionHandler.js:41-112 | a taken name gets "joinError" and stores nothing; otherwise the user is bound, the theme resolved, the history since the join time sent, the notice stored in the room log, and the join events emitted |
| ConnectionHandler.PurgeSpec | server/socket/handlers/connectionHandler.js:138-144 | after leaving every group in order, no listed group holds the id, no group is added, unlisted groups are unchanged, and the memberships stay well formed |
| ConnectionHandler.LeaveAbsent | server/services/groupService.js:86-98 | leaving a group one is not in changes nothing |
| ConnectionHandler.LeaveAllGroups | server/socket/handlers/connectionHandler.js:138-144 | the loop's result is `Purge` of the memberships over the group order, and the new order is `PurgeOrder`, a subsequence of the old one; surviving groups are the same objects; afterwards no group holds the id |
| ConnectionHandler.PurgeOrderSpec | server/services/groupService.js:86-98 | the order after leaving groups one by one is the old order, in the same relative order and without repeats, holding exactly the groups that survive |
| ConnectionHandler.LeaveEvents | server/socket/handlers/connectionHandler.js:124-146 | a disconnect emits four events: the bot's "has left" notice and the room roster to the old room, then the user list and the group list to everyone |
| ConnectionHandler.HandleDisconnect | server/socket/handlers/connectionHandler.js:119-147 | an unbound socket emits nothing and changes neither users nor groups nor their order; otherwise the user is released, removed from every group (emptied groups leave the order, the rest keep it), and the leave events are emitted |
| ChatUtils.GetChatId | public/js/utils/chatUtils.js:16-25 | the identifier is empty exactly for an unknown chat type |
| ChatUtils.GetCurrentChatId | public/js/utils/chatUtils.js:31-33 | the id of the chat on screen; empty exactly when its type is unknown |
| ChatUtils.CurrentChatIdSelects | public/js/utils/chatUtils.js:31-33 | among chats of the current kind, the current id is shared exactly by those with the current name, or the current target for a private chat |
| ChatUtils.ChatIdsSeparateChats | public/js/utils/chatUtils.js:16-25 | within one chat type, two chats share an identifier exactly when they share the name (or the target for private chats) |
| ChatUtils.RoomAndGroupIdsDiffer | public/js/utils/chatUtils.js:16-25 | a room and a group never share an identifier |
| ChatUtils.RoomAndPrivateIdsCanCollide | public/js/utils/chatUtils.js:18-20 | room "x_pm" and a private chat with "room_x" share an identifier (see Findings) |
| ChatUtils.GroupAndPrivateIdsCanCollide | public/js/utils/chatUtils.js:20-22 | group "y_pm" and a private chat with "group_y" share an identifier (see Findings) |
| ChatUtils.TaggedChatId | public/js/utils/chatUtils.js:16-25 | the corrected identifier: empty exactly for an unknown chat type (see Findings) |
| ChatUtils.TaggedChatIdInjective | public/js/utils/chatUtils.js:9-25 | two chats share a corrected identifier exactly when they have the same kind and the same name, or target for a private chat |
| ClientState.Session.constructor | public/js/core/state.js:41-64 | the session starts in its room's chat with no open chats and no groups |
| ClientState.Session.SetCurrentChat | public/js/core/state.js:70-72 | the current chat is replaced and nothing else changes |
| ClientState.Session.AddActiveChat | public/js/core/state.js:103-105 | the chat is stored under its identifier, and other identifiers are unchanged |
| ClientState.Session.GetActiveChat | public/js/core/state.js:112-114 | a chat is found exactly when one is stored under the identifier |
| ClientState.Session.AddUserGroup | public/js/core/state.js:129-131 | the group is recorded; adding it twice changes nothing |
| ClientState.Session.RemoveUserGroup | public/js/core/state.js:137-139 | the group is forgotten and other groups are unchanged |
| UnreadCounter.Bumped | public/js/modules/notifications/unreadCounter.js:17-21 | the chat's count goes up by one (from 0 when absent), and other counts are unchanged |
| UnreadCounter.CountAfterIncrements | public/js/modules/notifications/unreadCounter.js:17-21 | n increments raise the count by exactly n |
| UnreadCounter.CountAfterClear | public/js/modules/notifications/unreadCounter.js:28-31 | after a clear the count restarts from zero and no badge is shown |
| UnreadCounter.Counter.constructor | public/js/modules/notifications/unreadCounter.js:10 | there are no counts at first |
| UnreadCounter.Counter.IncrementUnreadCount | public/js/modules/notifications/unreadCounter.js:17-21 | the chat's count goes up by one, and others are unchanged |
| UnreadCounter.Counter.ClearUnreadCount | public/js/modules/notifications/unreadCounter.js:28-31 | the chat's count reads 0 afterwards, and others are unchanged |
| UnreadCounter.Counter.GetUnreadCount | public/js/modules/notifications/unreadCounter.js:38-40 | an absent chat reads 0 |
| UnreadCounter.DecimalString | public/js/modules/notifications/unreadCounter.js:97 | `toString()` yields one to several decimal digits, one for counts under 10 and two under 100 |
| UnreadCounter.DecimalRoundTrip | public/js/modules/notifications/unreadCounter.js:97 | parsing the printed count gives the count back |
| UnreadCounter.BadgeLabel | public/js/modules/notifications/unreadCounter.js:91-101 | no badge exactly for counts of 0 or less; "99+" above 99; otherwise the count itself, in at most two digits |

## Left out

- Socket.IO transport, `socket.join`, broadcasting fan-out and `console.log`: handlers return the events they would emit, and delivery is not modelled.
- Moment-style time formatting (`formatMessage`, `server/services/messageService.js`, `utils/message.js`): a message carries its raw timestamp, and the display string is not part of this model.
- Clock readings (`Date.now()`) are parameters. The model does not tie them to real time or to each other.
- `String(x || "")` coercion: missing usernames, rooms and theme hints are modelled as "". A missing private target, which the source would print as "null", is `None`.
- `toLowerCase` is modelled for ASCII letters only. Other scripts' case mappings are not modelled.
- Sort order: names are compared by Unicode scalar value. JavaScript compares UTF-16 code units, which differ only between astral characters and U+E000–U+FFFF.
- The unreachable checks at utils/user.js:11 and :23 (a non-empty trimmed string cannot have length below 1) have no branch of their own.
- `getAllUsers` (utils/user.js:43, server/services/userService.js:78-80) is reading the `users` field, and `getUsername`/`getRoom` (public/js/core/state.js:86-97) are the session's constants.
- `isGroupMember` (utils/groups.js:80-84, server/services/groupService.js:116-119), `hasUserTheme`, `hasMember` (server/models/Group.js:59-61) and the client's `getCurrentChat`, `hasActiveChat` and `isUserInGroup` (public/js/core/state.js:78-80, 121-123, 146-148) are `predicate`s or one-line reads: LegacyGroups.GroupList.IsGroupMember, Groups.GroupService.IsGroupMember, Users.UserService.HasUserTheme, GroupModel.Group.HasMember, ClientState.Session.GetCurrentChat, ClientState.Session.HasActiveChat and ClientState.Session.IsUserInGroup. Their meaning is their body, they carry no separate contract, and the mutators' contracts state how each reads back.
- Aliasing of returned live objects: the legacy group records and the service's member lists are returned as values. A caller mutating a returned record is not modelled.
- `createdAt` is an integer clock reading, not a `Date`.
- Reading `username` and `room` from the page URL (`Qs.parse`) is replaced by constructor parameters of the client session.
- The DOM side of the unread badges (`updateUnreadBadges`, element creation and removal) is not modelled; only the label rule is.
- The browser-side emitters send the private target as `to`, while the server reads `toUsername`. The model follows the server handler's parameter.
- Groups.GroupService.CreateGroup: the member's join time and the returned join time are separate parameters, as in the source's two clock readings. The model does not state that they are close.

## Findings

| source | as written | input that shows it | evidently intended | confidence | as-written member | corrected member |
|---|---|---|---|---|---|---|
| utils/messageHistory.js:12-34 | room logs are keyed `room_<name>` and private logs `<a>_pm_<b>` in one shared map, so a room key can equal a pair key | room "pm_x" and the users "room" and "x": both keys are "room_pm_x" | each kind of chat keeps a log of its own | not executed | LegacyHistory.PrivateMessageLeaksIntoRoom | HistoryModel.MessageHistory.AddPrivateMessage |
| public/js/utils/chatUtils.js:16-25 | `getChatId`, documented as returning a unique chat identifier, puts "room_" and "group_" before a name but "_pm" after a private target, so ids of different kinds can coincide; the ids key the open chats and the unread counts | room "x_pm" and a private chat with user "room_x" both get "room_x_pm"; group "y_pm" and a private chat with "group_y" both get "group_y_pm" | one id per chat across all three kinds, e.g. a kind tag in front of every key | not executed | ChatUtils.RoomAndPrivateIdsCanCollide | ChatUtils.TaggedChatIdInjective |
| utils/user.js:5-28 | `userJoin` does not release a binding the socket already holds | a socket bound as "a" joins again as "b": two entries share its id, and "a" stays reserved | one binding per connection, as server/services/userService.js:25-28 does | not executed | LegacyUsers.RejoinKeepsOldBinding | Users.JoinKeepsOneBindingPerId |
