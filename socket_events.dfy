/** The client's socket event handlers: which store transitions each
    incoming event triggers, and the `messages-read` notice the client
    sends back for a message it displays at once. */
module SocketEvents {
  import opened Domain
  import opened ClientTypes
  import opened ChatSlice
  import opened OtherUser
  import opened MessageController

  /** The `messages-read` notice the client emits. */
  datatype ReadNotice = ReadNotice(chatId: ChatId, userId: UserId, lastReadMessageId: MessageId)

  /** The chat `handleNewMessage` lists: a direct chat gets its other user
      attached first. */
  function AsListed(chat: ChatView, me: UserId): (c: ChatView)
    ensures c.id == chat.id
    ensures c.(otherUser := chat.otherUser) == chat
    ensures !chat.isGroup ==> c.otherUser == GetOtherUser(Some(chat), me)
    ensures chat.isGroup ==> c == chat
  {
    if chat.isGroup then chat else chat.(otherUser := GetOtherUser(Some(chat), me))
  }

  /** The chat list after the "not yet listed" step of `handleNewMessage`. */
  function ListedFor(chats: seq<ChatView>, chat: ChatView, me: UserId): seq<ChatView> {
    AddIfAbsent(chats, AsListed(chat, me))
  }

  /** `handleNewMessage` for a `receive-message` carrying `m` of `chat`.
      An unlisted chat is listed first. A message of a chat that is not
      selected only updates the preview. A message of the selected chat is
      added to its messages and becomes its latest, and unless the current
      user sent it a `messages-read` notice for it goes out. */
  method HandleNewMessage(store: ChatStore, me: User, m: Message, chat: ChatView) returns (notices: seq<ReadNotice>)
    requires m.chat == chat.id
    modifies store
    ensures var listed := ListedFor(old(store.chats), chat, me.id);
      var selected := old(store.selectedChat).Some? && old(store.selectedChat).value.id == chat.id;
      && (!selected ==>
            && store.chats == Preview(listed, m)
            && store.messagesByChatId == old(store.messagesByChatId)
            && store.selectedChat == old(store.selectedChat)
            && notices == [])
      && (selected ==>
            && store.messagesByChatId == old(store.messagesByChatId)[m.chat := AddMessageTo(MessagesOf(old(store.messagesByChatId), m.chat), m)]
            && store.selectedChat == Some(old(store.selectedChat).value.(latestMessage := Some(m)))
            && store.chats == SetLatest(listed, chat.id, Some(m))
            && notices == if m.sender != me.id then [ReadNotice(chat.id, me.id, m.id)] else [])
    ensures store.typingUsersByChatId == old(store.typingUsersByChatId)
    ensures store.loading == old(store.loading) && store.error == old(store.error)
  {
    if ViewIndex(store.chats, chat.id).None? {
      store.AddChatToList(AsListed(chat, me.id));
    }
    notices := [];
    if store.selectedChat.None? || store.selectedChat.value.id != chat.id {
      store.UpdateChatPreview(m);
    } else {
      store.AddMessage(m);
      store.UpdateSelectedChatLatestMessage(m);
      if m.sender != me.id {
        notices := [ReadNotice(chat.id, me.id, m.id)];
      }
    }
  }

  /** A message for a chat that is not selected puts that chat on top with
      one more unread than before; a newly listed chat counts from whatever
      count the event's chat carries (the server sends none, read as 0). */
  lemma UnselectedMessageCountsUnread(chats: seq<ChatView>, chat: ChatView, me: UserId, m: Message)
    requires m.chat == chat.id
    ensures var r := Preview(ListedFor(chats, chat, me), m);
      && r[0].id == chat.id && r[0].latestMessage == Some(m)
      && UnreadOrZero(r[0]) == 1 + (if ViewIndex(chats, chat.id).Some? then UnreadOrZero(chats[ViewIndex(chats, chat.id).value]) else UnreadOrZero(chat))
  {
    var listed := ListedFor(chats, chat, me);
    if ViewIndex(chats, chat.id).None? {
      assert listed[0].id == chat.id;
      assert ViewIndex(listed, chat.id) == Some(0);
    }
    PreviewMovesChatToTop(listed, m);
  }

  /** A message for the selected chat changes no unread count. */
  lemma SelectedMessageKeepsUnread(chats: seq<ChatView>, id: ChatId, m: Message)
    ensures var r := SetLatest(chats, id, Some(m));
      forall k :: 0 <= k < |chats| ==> r[k].unreadCount == chats[k].unreadCount
  {
  }

  /** `handleDeleteMsg`: a notice lacking the chat or the message id is
      ignored; otherwise it goes to the same transition as the client's own
      delete for everyone. */
  method HandleDeleteMsg(store: ChatStore, chatId: Option<ChatId>, messageId: Option<MessageId>)
    modifies store
    ensures chatId.None? || messageId.None? ==> store.messagesByChatId == old(store.messagesByChatId)
    ensures chatId.Some? && messageId.Some? && chatId.value in old(store.messagesByChatId) ==>
      store.messagesByChatId == old(store.messagesByChatId)[chatId.value := TombstoneIn(old(store.messagesByChatId)[chatId.value], messageId.value)]
    ensures chatId.Some? && chatId.value !in old(store.messagesByChatId) ==> store.messagesByChatId == old(store.messagesByChatId)
    ensures store.chats == old(store.chats) && store.selectedChat == old(store.selectedChat)
    ensures store.typingUsersByChatId == old(store.typingUsersByChatId)
    ensures store.loading == old(store.loading) && store.error == old(store.error)
  {
    if chatId.None? || messageId.None? {
      return;
    }
    store.DeleteMessageForEveryoneFulfilled(DeletedForEveryone(messageId.value, chatId.value));
  }

  /** The `messages-read-by-user` handler: the current user's own reads are
      ignored. */
  method HandleReadByUser(store: ChatStore, me: User, chatId: ChatId, userId: UserId, last: MessageId)
    modifies store
    ensures userId == me.id ==>
      store.messagesByChatId == old(store.messagesByChatId) && store.chats == old(store.chats)
    ensures userId != me.id && chatId in old(store.messagesByChatId) ==>
      && store.messagesByChatId == old(store.messagesByChatId)[chatId := ClientRead(old(store.messagesByChatId)[chatId], userId, last)]
      && store.chats == SetUnread(old(store.chats), chatId, 0)
    ensures userId != me.id && chatId !in old(store.messagesByChatId) ==>
      store.messagesByChatId == old(store.messagesByChatId) && store.chats == old(store.chats)
    ensures store.selectedChat == old(store.selectedChat)
    ensures store.typingUsersByChatId == old(store.typingUsersByChatId)
    ensures store.loading == old(store.loading) && store.error == old(store.error)
  {
    if userId != me.id {
      store.MarkMessagesAsRead(chatId, userId, last);
    }
  }

  /** The `messages-delivered` handler. */
  method HandleDelivered(store: ChatStore, chatId: ChatId, userId: UserId)
    modifies store
    ensures chatId in old(store.messagesByChatId) ==>
      store.messagesByChatId == old(store.messagesByChatId)[chatId := ClientDeliver(old(store.messagesByChatId)[chatId], userId)]
    ensures chatId !in old(store.messagesByChatId) ==> store.messagesByChatId == old(store.messagesByChatId)
    ensures store.chats == old(store.chats) && store.selectedChat == old(store.selectedChat)
    ensures store.typingUsersByChatId == old(store.typingUsersByChatId)
    ensures store.loading == old(store.loading) && store.error == old(store.error)
  {
    store.MarkMessagesAsDelivered(chatId, userId);
  }

  /** The `typing` and `stop-typing` handlers. */
  method HandleTyping(store: ChatStore, chatId: ChatId, user: User, stopped: bool)
    modifies store
    ensures !stopped ==>
      store.typingUsersByChatId == old(store.typingUsersByChatId)[chatId := AddTyping(TypingOf(old(store.typingUsersByChatId), chatId), user)]
    ensures stopped && chatId in old(store.typingUsersByChatId) ==>
      store.typingUsersByChatId == old(store.typingUsersByChatId)[chatId := RemoveTyping(old(store.typingUsersByChatId)[chatId], user.id)]
    ensures stopped && chatId !in old(store.typingUsersByChatId) ==> store.typingUsersByChatId == old(store.typingUsersByChatId)
    ensures store.messagesByChatId == old(store.messagesByChatId)
    ensures store.chats == old(store.chats) && store.selectedChat == old(store.selectedChat)
    ensures store.loading == old(store.loading) && store.error == old(store.error)
  {
    if stopped {
      store.RemoveTypingUser(chatId, user);
    } else {
      store.AddTypingUser(chatId, user);
    }
  }
}
