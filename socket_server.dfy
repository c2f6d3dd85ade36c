/** The Socket.IO connection handler: presence in the registry, retroactive
    delivery receipts on connect, read receipts, typing relays and the
    disconnect bookkeeping. */
module SocketServer {
  import opened Domain
  import opened Events
  import opened Registry
  import opened Database
  import opened Receipts

  /** `getChatsOfUser`: the ids of the chats the user belongs to, in storage order. */
  function ChatsOfUser(chats: seq<Chat>, u: UserId): (r: seq<ChatId>)
    ensures forall c :: c in r ==> exists i :: 0 <= i < |chats| && chats[i].id == c && u in chats[i].members
    ensures forall i :: 0 <= i < |chats| && u in chats[i].members ==> chats[i].id in r
    ensures UniqueChatIds(chats) ==> NoDup(r)
  {
    if chats == [] then []
    else
      var rest := ChatsOfUser(chats[1..], u);
      assert UniqueChatIds(chats) ==> UniqueChatIds(chats[1..]) && chats[0].id !in rest;
      if u in chats[0].members then [chats[0].id] + rest else rest
  }

  /** One socket's handler state: the user id from the handshake and the
      chats looked up at connect time, which the later handlers close over,
      and the rooms the socket has joined. */
  class Connection {
    const socket: SocketId
    const user: UserId
    const chats: seq<ChatId>
    var rooms: set<Room>

    constructor (socket: SocketId, user: UserId, chats: seq<ChatId>)
      ensures this.socket == socket && this.user == user && this.chats == chats
      ensures rooms == {}
    {
      this.socket := socket;
      this.user := user;
      this.chats := chats;
      rooms := {};
    }

    /** `socket.join(room)`. */
    method Join(room: Room)
      modifies this
      ensures rooms == old(rooms) + {room}
    {
      rooms := rooms + {room};
    }
  }

  /** The `connection` handler. With no user id in the handshake the socket
      is disconnected and nothing is touched. Otherwise the registry maps the
      user to this socket (replacing any earlier socket), the socket joins
      the user's room, the user goes online, every message of the user's
      chats that someone else sent becomes delivered to the user, and the
      handler emits `messages-delivered` to each chat room, `online-users`
      with the registry's keys to everyone, and `setup` to the socket. */
  method Connect(db: Db, reg: ConnectionRegistry, sid: SocketId, handshakeUser: Option<UserId>)
    returns (conn: Option<Connection>, events: seq<Event>)
    requires db.Valid() && reg.Valid()
    modifies db, reg
    ensures db.Valid() && reg.Valid()
    ensures handshakeUser.None? ==>
      && conn.None? && events == []
      && reg.entries == old(reg.entries)
      && db.users == old(db.users) && db.chats == old(db.chats) && db.messages == old(db.messages)
    ensures handshakeUser.Some? ==>
      var u := handshakeUser.value;
      var chats := ChatsOfUser(old(db.chats), u);
      && conn.Some? && fresh(conn.value)
      && conn.value.socket == sid && conn.value.user == u && conn.value.chats == chats
      && conn.value.rooms == {UserRoom(u)}
      && reg.entries == Put(old(reg.entries), u, sid)
      && (u in old(db.users) ==> db.users == old(db.users)[u := old(db.users)[u].(status := Online)])
      && (u !in old(db.users) ==> db.users == old(db.users))
      && db.chats == old(db.chats)
      && db.messages == MarkDelivered(old(db.messages), chats, u)
      && events == DeliveredNotices(chats, sid, u)
                   + [Event(ToAll, OnlineUsers(Keys(reg.entries))), Event(ToSocket(sid), Setup)]
  {
    if handshakeUser.None? {
      return None, [];
    }
    var u := handshakeUser.value;
    var chats := ChatsOfUser(db.chats, u);
    reg.Set(u, sid);
    var c := new Connection(sid, u, chats);
    c.Join(UserRoom(u));
    var _ := db.SetUserStatus(u, Online, 0);
    db.DeliverPending(chats, u);
    events := DeliveredNotices(chats, sid, u)
      + [Event(ToAll, OnlineUsers(Keys(reg.entries))), Event(ToSocket(sid), Setup)];
    conn := Some(c);
  }

  /** `messages-delivered` reaches each of the user's chats exactly once. */
  lemma DeliveredOncePerChat(chats: seq<Chat>, u: UserId, sid: SocketId)
    requires UniqueChatIds(chats)
    ensures var ids := ChatsOfUser(chats, u);
      var es := DeliveredNotices(ids, sid, u);
      && (forall i, j :: 0 <= i < j < |es| ==> es[i].target != es[j].target)
      && (forall i :: 0 <= i < |chats| && u in chats[i].members ==>
            exists k :: 0 <= k < |es| && es[k] == Event(ToRoomExcept(ChatRoom(chats[i].id), sid), MessagesDelivered(chats[i].id, u)))
  {
    var ids := ChatsOfUser(chats, u);
    var es := DeliveredNotices(ids, sid, u);
    forall i | 0 <= i < |chats| && u in chats[i].members
      ensures exists k :: 0 <= k < |es| && es[k] == Event(ToRoomExcept(ChatRoom(chats[i].id), sid), MessagesDelivered(chats[i].id, u))
    {
      var k :| 0 <= k < |ids| && ids[k] == chats[i].id;
      assert es[k] == Event(ToRoomExcept(ChatRoom(chats[i].id), sid), MessagesDelivered(chats[i].id, u));
    }
  }

  /** `joinChat`: the socket joins the chat's room and is told so. */
  method JoinChat(conn: Connection, chatId: ChatId) returns (events: seq<Event>)
    modifies conn
    ensures conn.rooms == old(conn.rooms) + {ChatRoom(chatId)}
    ensures events == [Event(ToSocket(conn.socket), ChatJoined(chatId, conn.user))]
  {
    conn.Join(ChatRoom(chatId));
    events := [Event(ToSocket(conn.socket), ChatJoined(chatId, conn.user))];
  }

  /** `typing` and `stop-typing`: relayed unchanged to the chat's room, never
      back to the typist. */
  function TypingRelay(from: SocketId, chatId: ChatId, user: User, stopped: bool): (e: Event)
    ensures e.target == ToRoomExcept(ChatRoom(chatId), from)
    ensures e.payload == if stopped then StopTyping(chatId, user) else Typing(chatId, user)
  {
    if stopped then Event(ToRoomExcept(ChatRoom(chatId), from), StopTyping(chatId, user))
    else Event(ToRoomExcept(ChatRoom(chatId), from), Typing(chatId, user))
  }

  /** A typing notice reaches exactly the other sockets in the chat's room,
      and tells them who is typing in which chat and whether they stopped. */
  lemma TypingReachesOthersInRoom(from: SocketId, chatId: ChatId, user: User, stopped: bool,
                                  sock: SocketId, rooms: set<Room>)
    ensures var e := TypingRelay(from, chatId, user, stopped);
      && (Receives(e.target, sock, rooms) <==> ChatRoom(chatId) in rooms && sock != from)
      && (e.payload.Typing? || e.payload.StopTyping?)
      && e.payload.chatId == chatId && e.payload.user == user
      && (e.payload.StopTyping? <==> stopped)
  {
  }

  /** `messages-read`. A `lastReadMessageId` that names no message ends the
      handler: nothing changes and nothing is emitted. Otherwise its creation
      time is the cutoff, every message of the chat up to the cutoff that
      someone other than the payload's user sent gets that user in
      `readBy`, and the chat's room, except this socket, hears of it. The
      chat and user come from the payload, not from the connection. */
  method MessagesRead(db: Db, conn: Connection, chatId: ChatId, userId: UserId, lastReadMessageId: MessageId)
    returns (events: seq<Event>)
    requires db.Valid()
    modifies db
    ensures db.Valid()
    ensures db.users == old(db.users) && db.chats == old(db.chats)
    ensures match MessageIndex(old(db.messages), lastReadMessageId)
      case None => db.messages == old(db.messages) && events == []
      case Some(i) =>
        && db.messages == MarkRead(old(db.messages), chatId, old(db.messages)[i].createdAt, userId)
        && events == [Event(ToRoomExcept(ChatRoom(chatId), conn.socket), MessagesReadByUser(chatId, userId, lastReadMessageId))]
  {
    match MessageIndex(db.messages, lastReadMessageId)
    case None =>
      events := [];
    case Some(i) =>
      db.MarkReadUpTo(chatId, db.messages[i].createdAt, userId);
      events := [Event(ToRoomExcept(ChatRoom(chatId), conn.socket), MessagesReadByUser(chatId, userId, lastReadMessageId))];
  }

  /** `disconnect`. The loop walks the registry in insertion order; at the
      first entry holding this socket's id it deletes that entry, sets the
      connection's user offline, emits `online-users` and the new `lastSeen`
      to the chats captured at connect, and stops. If no entry holds this
      socket's id (a later connection of the same user replaced it) nothing
      changes and nothing is emitted. */
  method Disconnect(db: Db, reg: ConnectionRegistry, conn: Connection, now: int)
    returns (events: seq<Event>)
    requires db.Valid() && reg.Valid()
    modifies db, reg
    ensures db.Valid() && reg.Valid()
    ensures reg.entries == RemoveSocket(old(reg.entries), conn.socket)
    ensures db.chats == old(db.chats) && db.messages == old(db.messages)
    ensures SocketIndex(old(reg.entries), conn.socket).None? ==>
      events == [] && db.users == old(db.users)
    ensures SocketIndex(old(reg.entries), conn.socket).Some? ==>
      var u := conn.user;
      && (u in old(db.users) ==> db.users == old(db.users)[u := old(db.users)[u].(status := Offline, lastSeen := now)])
      && (u !in old(db.users) ==> db.users == old(db.users))
      && events == [Event(ToAll, OnlineUsers(Keys(reg.entries)))]
                   + LastSeenNotices(conn.chats, conn.socket, u, if u in old(db.users) then Some(now) else None)
  {
    events := [];
    var i := 0;
    while i < |reg.entries|
      invariant 0 <= i <= |reg.entries|
      invariant reg.entries == old(reg.entries) && reg.Valid()
      invariant forall k :: 0 <= k < i ==> reg.entries[k].1 != conn.socket
      invariant db.users == old(db.users) && db.chats == old(db.chats) && db.messages == old(db.messages)
      invariant db.Valid() && events == []
    {
      var (uid, sid) := reg.entries[i];
      if sid == conn.socket {
        assert SocketIndex(old(reg.entries), conn.socket) == Some(i);
        reg.Delete(uid);
        var lastSeen := db.SetUserStatus(conn.user, Offline, now);
        events := [Event(ToAll, OnlineUsers(Keys(reg.entries)))]
          + LastSeenNotices(conn.chats, conn.socket, conn.user, lastSeen);
        return;
      }
      i := i + 1;
    }
  }
}
