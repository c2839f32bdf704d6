/** Chat identifiers on the client (public/js/utils/chatUtils.js): the key
    under which a chat's unread count and opened state are kept. */
module ChatUtils {
  import opened Common
  import opened ClientState

  /** The text a template literal produces for the target: null prints as
      "null". */
  function TargetText(target: Option<string>): string
  {
    if target.Some? then target.value else "null"
  }

  /** `getChatId(chat)`: "room_" or "group_" before the name, "_pm" after a
      private chat's target, and the empty id for any other type. */
  function GetChatId(chat: Chat): (id: string)
    ensures id == [] <==> chat.kind !in {ROOM_CHAT, PRIVATE_CHAT, GROUP_CHAT}
  {
    if chat.kind == ROOM_CHAT then "room_" + chat.name
    else if chat.kind == PRIVATE_CHAT then TargetText(chat.target) + "_pm"
    else if chat.kind == GROUP_CHAT then "group_" + chat.name
    else ""
  }

  /** `getCurrentChatId()`: the id of the chat on screen. */
  function GetCurrentChatId(session: Session): (id: string)
    reads session
    ensures id == GetChatId(session.GetCurrentChat())
    ensures id == [] <==> session.GetCurrentChat().kind !in {ROOM_CHAT, PRIVATE_CHAT, GROUP_CHAT}
  {
    GetChatId(session.currentChat)
  }

  /** Equal prefixes cancel. */
  lemma PrefixCancel(p: string, a: string, b: string)
    requires p + a == p + b
    ensures a == b
  {
    assert a == (p + a)[|p|..];
    assert b == (p + b)[|p|..];
  }

  /** Equal suffixes cancel. */
  lemma SuffixCancel(a: string, b: string, q: string)
    requires a + q == b + q
    ensures a == b
  {
    assert a == (a + q)[..|a|];
    assert |a| == |b|;
    assert b == (b + q)[..|b|];
  }

  /** Two room chats, or two group chats, share an id exactly when they
      share a name; two private chats with a target share an id exactly when
      they share the target, whatever their display names. */
  lemma ChatIdsSeparateChats(c1: Chat, c2: Chat)
    requires c1.kind == c2.kind
    ensures c1.kind in {ROOM_CHAT, GROUP_CHAT} ==> (GetChatId(c1) == GetChatId(c2) <==> c1.name == c2.name)
    ensures c1.kind == PRIVATE_CHAT && c1.target.Some? && c2.target.Some? ==>
              (GetChatId(c1) == GetChatId(c2) <==> c1.target == c2.target)
  {
    if GetChatId(c1) == GetChatId(c2) {
      if c1.kind == ROOM_CHAT {
        PrefixCancel("room_", c1.name, c2.name);
      } else if c1.kind == GROUP_CHAT {
        PrefixCancel("group_", c1.name, c2.name);
      } else if c1.kind == PRIVATE_CHAT {
        SuffixCancel(TargetText(c1.target), TargetText(c2.target), "_pm");
      }
    }
  }

  /** The current chat id picks out, among the chats of the current kind,
      exactly those with the current name (room, group) or the current
      target (private): it is the one key under which the chat on screen is
      counted and opened. */
  lemma CurrentChatIdSelects(session: Session, other: Chat)
    requires other.kind == session.GetCurrentChat().kind
    ensures other.kind in {ROOM_CHAT, GROUP_CHAT} ==>
              (GetCurrentChatId(session) == GetChatId(other) <==> other.name == session.GetCurrentChat().name)
    ensures other.kind == PRIVATE_CHAT && other.target.Some? && session.GetCurrentChat().target.Some? ==>
              (GetCurrentChatId(session) == GetChatId(other) <==> other.target == session.GetCurrentChat().target)
  {
    ChatIdsSeparateChats(session.GetCurrentChat(), other);
  }

  /** A room chat and a group chat never share an id. */
  lemma RoomAndGroupIdsDiffer(room: Chat, group: Chat)
    requires room.kind == ROOM_CHAT && group.kind == GROUP_CHAT
    ensures GetChatId(room) != GetChatId(group)
  {
    assert GetChatId(room)[0] == 'r' && GetChatId(group)[0] == 'g';
  }

  /** A room whose name ends in "_pm" and a private chat with a user named
      "room_" + the rest share one id, so they share one unread count. */
  lemma RoomAndPrivateIdsCanCollide()
    ensures GetChatId(Chat(ROOM_CHAT, "x_pm", None)) == GetChatId(Chat(PRIVATE_CHAT, "", Some("room_x")))
  {
    assert "room_" + "x_pm" == "room_x" + "_pm";
  }

  /** A group whose name ends in "_pm" and a private chat with a user named
      "group_" + the rest share one id too. */
  lemma GroupAndPrivateIdsCanCollide()
    ensures GetChatId(Chat(GROUP_CHAT, "y_pm", None)) == GetChatId(Chat(PRIVATE_CHAT, "", Some("group_y")))
  {
    assert "group_" + "y_pm" == "group_y" + "_pm";
  }

  /** What names a chat within its kind: the target of a private chat, the
      name of any other. */
  function ChatKey(chat: Chat): string
  {
    if chat.kind == PRIVATE_CHAT then TargetText(chat.target) else chat.name
  }

  /** A chat id that keeps the kinds apart: a one-letter kind tag and a colon
      in front of the chat's key, for every kind; the empty id for any other
      type. */
  function TaggedChatId(chat: Chat): (id: string)
    ensures id == [] <==> chat.kind !in {ROOM_CHAT, PRIVATE_CHAT, GROUP_CHAT}
  {
    if chat.kind == ROOM_CHAT then "r:" + chat.name
    else if chat.kind == PRIVATE_CHAT then "p:" + TargetText(chat.target)
    else if chat.kind == GROUP_CHAT then "g:" + chat.name
    else ""
  }

  /** The tagged id is unique across all three kinds: two chats share it
      exactly when they have the same kind and the same key. */
  lemma TaggedChatIdInjective(c1: Chat, c2: Chat)
    requires c1.kind in {ROOM_CHAT, PRIVATE_CHAT, GROUP_CHAT} && c2.kind in {ROOM_CHAT, PRIVATE_CHAT, GROUP_CHAT}
    ensures TaggedChatId(c1) == TaggedChatId(c2) <==> c1.kind == c2.kind && ChatKey(c1) == ChatKey(c2)
  {
    if TaggedChatId(c1) == TaggedChatId(c2) {
      var tag := TaggedChatId(c1)[..2];
      assert tag == TaggedChatId(c2)[..2];
      assert c1.kind == c2.kind by {
        assert tag == if c1.kind == ROOM_CHAT then "r:" else if c1.kind == PRIVATE_CHAT then "p:" else "g:";
        assert tag == if c2.kind == ROOM_CHAT then "r:" else if c2.kind == PRIVATE_CHAT then "p:" else "g:";
      }
      PrefixCancel(tag, ChatKey(c1), ChatKey(c2));
    }
  }
}
