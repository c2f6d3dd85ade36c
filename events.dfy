/** Socket.IO emits, recorded as an event log. Every handler that emits
    returns the events it sends, in order; delivery itself is not modelled. */
module Events {
  import opened Domain

  /** A room a socket can join. The connection handler joins the room named
      by the user's id; `joinChat` joins the room named by a chat id. */
  datatype Room = UserRoom(user: UserId) | ChatRoom(chat: ChatId)

  /** Where an emit goes: `io.to(room)` reaches every socket in the room,
      `socket.to(room)` every socket in it but the sender, `socket.emit` only
      the sender, `io.emit` every socket. */
  datatype Target =
    | ToRoom(room: Room)
    | ToRoomExcept(room: Room, except: SocketId)
    | ToSocket(socket: SocketId)
    | ToAll

  /** Whether a socket that has joined `rooms` receives an emit to `t`. */
  predicate Receives(t: Target, sock: SocketId, rooms: set<Room>) {
    match t
    case ToRoom(r) => r in rooms
    case ToRoomExcept(r, ex) => r in rooms && sock != ex
    case ToSocket(s) => s == sock
    case ToAll => true
  }

  datatype Payload =
    | MessagesDelivered(chatId: ChatId, userId: UserId)
    | OnlineUsers(userIds: seq<UserId>)
    | Setup
    | ChatJoined(chatId: ChatId, userId: UserId)
    | Typing(chatId: ChatId, user: User)
    | StopTyping(chatId: ChatId, user: User)
    | MessagesReadByUser(chatId: ChatId, userId: UserId, lastReadMessageId: MessageId)
    | UserLastSeen(userId: UserId, lastSeen: Option<int>)
    | ReceiveMessage(message: Message)
    | MessageDeletedEveryone(messageId: MessageId, chatId: ChatId)
    | NewChat(chat: Chat)

  datatype Event = Event(target: Target, payload: Payload)

  /** `messages-delivered` to each of the user's chat rooms, except the
      connecting socket, in the order of `chats`. */
  function DeliveredNotices(chats: seq<ChatId>, except: SocketId, u: UserId): (r: seq<Event>)
    ensures |r| == |chats|
    ensures forall i :: 0 <= i < |chats| ==>
      r[i] == Event(ToRoomExcept(ChatRoom(chats[i]), except), MessagesDelivered(chats[i], u))
  {
    if chats == [] then []
    else
      var first := Event(ToRoomExcept(ChatRoom(chats[0]), except), MessagesDelivered(chats[0], u));
      [first] + DeliveredNotices(chats[1..], except, u)
  }

  /** `Update-user` with the new `lastSeen` to each of the user's chat rooms,
      except the closing socket, in the order of `chats`. */
  function LastSeenNotices(chats: seq<ChatId>, except: SocketId, u: UserId, lastSeen: Option<int>): (r: seq<Event>)
    ensures |r| == |chats|
    ensures forall i :: 0 <= i < |chats| ==>
      r[i] == Event(ToRoomExcept(ChatRoom(chats[i]), except), UserLastSeen(u, lastSeen))
  {
    if chats == [] then []
    else
      var first := Event(ToRoomExcept(ChatRoom(chats[0]), except), UserLastSeen(u, lastSeen));
      [first] + LastSeenNotices(chats[1..], except, u, lastSeen)
  }

  /** One emit of `payload` to each member's own room
      (`members.forEach(id => io.to(id).emit(...))`). */
  function ToEachMember(members: seq<UserId>, payload: Payload): (r: seq<Event>)
    ensures |r| == |members|
    ensures forall i :: 0 <= i < |members| ==> r[i] == Event(ToRoom(UserRoom(members[i])), payload)
  {
    if members == [] then []
    else [Event(ToRoom(UserRoom(members[0])), payload)] + ToEachMember(members[1..], payload)
  }

  /** Every member receives the payload exactly once when the members are
      distinct, and nobody else receives it. */
  lemma ToEachMemberReachesEachOnce(members: seq<UserId>, payload: Payload, u: UserId)
    requires NoDup(members)
    ensures var es := ToEachMember(members, payload);
      (u in members ==> exists i :: 0 <= i < |es| && es[i].target == ToRoom(UserRoom(u)))
      && (forall i, j :: 0 <= i < j < |es| ==> es[i].target != es[j].target)
      && (forall i :: 0 <= i < |es| ==> es[i].target.room.user in members)
  {
    var es := ToEachMember(members, payload);
    if u in members {
      var k :| 0 <= k < |members| && members[k] == u;
      assert es[k].target == ToRoom(UserRoom(u));
    }
  }
}
