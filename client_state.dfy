/** The browser client's session state (public/js/core/state.js): the chat
    on screen, the chats opened so far and the groups the user belongs to. */
module ClientState {
  import opened Common

  const ROOM_CHAT: string := "room"
  const PRIVATE_CHAT: string := "private"
  const GROUP_CHAT: string := "group"

  /** `{ type, name, target }`; target is the other user of a private chat
      and None where the client stores null. */
  datatype Chat = Chat(kind: string, name: string, target: Option<string>)

  /** A message as the client keeps it, with its already formatted time. */
  datatype ClientMessage = ClientMessage(username: string, message: string, timestamp: string)

  /** `{ type, name, messages }`: an opened chat and the messages shown in it. */
  datatype ChatData = ChatData(kind: string, name: string, messages: seq<ClientMessage>)

  class Session {
    /** The username and room read once from the page's query string. */
    const username: string
    const room: string
    var currentChat: Chat
    var activeChats: map<string, ChatData>
    var userGroups: set<string>

    /** The state at page load: the room of the query string is on screen and
        nothing else is open or joined. */
    constructor (username: string, room: string)
      ensures this.username == username && this.room == room
      ensures currentChat == Chat(ROOM_CHAT, room, None)
      ensures activeChats == map[] && userGroups == {}
    {
      this.username := username;
      this.room := room;
      currentChat := Chat(ROOM_CHAT, room, None);
      activeChats := map[];
      userGroups := {};
    }

    /** `setCurrentChat(newChat)`. */
    method SetCurrentChat(newChat: Chat)
      modifies this
      ensures GetCurrentChat() == newChat
      ensures activeChats == old(activeChats) && userGroups == old(userGroups)
    {
      currentChat := newChat;
    }

    /** `getCurrentChat()`. */
    function GetCurrentChat(): Chat
      reads this
    {
      currentChat
    }

    /** `addActiveChat(chatId, chatData)`: stores the chat under its id,
        replacing whatever was there. */
    method AddActiveChat(chatId: string, chatData: ChatData)
      modifies this
      ensures activeChats == old(activeChats)[chatId := chatData]
      ensures HasActiveChat(chatId) && GetActiveChat(chatId) == Some(chatData)
      ensures forall id :: id != chatId ==> GetActiveChat(id) == old(GetActiveChat(id))
      ensures currentChat == old(currentChat) && userGroups == old(userGroups)
    {
      activeChats := activeChats[chatId := chatData];
    }

    /** `getActiveChat(chatId)`: None where the Map gives undefined. */
    function GetActiveChat(chatId: string): (r: Option<ChatData>)
      reads this
      ensures r.Some? <==> HasActiveChat(chatId)
      ensures r.Some? ==> r.value == activeChats[chatId]
    {
      if chatId in activeChats then Some(activeChats[chatId]) else None
    }

    /** `hasActiveChat(chatId)`. */
    predicate HasActiveChat(chatId: string)
      reads this
    {
      chatId in activeChats
    }

    /** `addUserGroup(groupName)`: set insertion, so adding twice is adding once. */
    method AddUserGroup(groupName: string)
      modifies this
      ensures userGroups == old(userGroups) + {groupName}
      ensures IsUserInGroup(groupName)
      ensures old(IsUserInGroup(groupName)) ==> userGroups == old(userGroups)
      ensures currentChat == old(currentChat) && activeChats == old(activeChats)
    {
      userGroups := userGroups + {groupName};
    }

    /** `removeUserGroup(groupName)`. */
    method RemoveUserGroup(groupName: string)
      modifies this
      ensures userGroups == old(userGroups) - {groupName}
      ensures !IsUserInGroup(groupName)
      ensures forall g :: g != groupName ==> (IsUserInGroup(g) <==> old(IsUserInGroup(g)))
      ensures currentChat == old(currentChat) && activeChats == old(activeChats)
    {
      userGroups := userGroups - {groupName};
    }

    /** `isUserInGroup(groupName)`. */
    predicate IsUserInGroup(groupName: string)
      reads this
    {
      groupName in userGroups
    }
  }
}
