/** Delivery and read receipts on stored messages: the `updateMany` filters
    and `$addToSet` updates the socket handlers run, and the unread count
    the chat list derives from `readBy`. */
module Receipts {
  import opened Domain

  /** The connect handler's filter: a message in one of the user's chats,
      not yet delivered to the user, sent by someone else. */
  predicate AwaitsDelivery(m: Message, chatIds: seq<ChatId>, u: UserId) {
    m.chat in chatIds && u !in m.deliveredTo && m.sender != u
  }

  /** `$addToSet: { deliveredTo: u }` on one message the filter selects. */
  function DeliverOne(m: Message, chatIds: seq<ChatId>, u: UserId): (r: Message)
    ensures r.(deliveredTo := m.deliveredTo) == m
    ensures m.chat in chatIds && m.sender != u ==> u in r.deliveredTo
    ensures forall v :: v in r.deliveredTo <==> v in m.deliveredTo || (v == u && AwaitsDelivery(m, chatIds, u))
    ensures NoDup(m.deliveredTo) ==> NoDup(r.deliveredTo)
  {
    if AwaitsDelivery(m, chatIds, u) then m.(deliveredTo := AddToSet(m.deliveredTo, u)) else m
  }

  /** The whole `updateMany` of the connect handler. */
  function MarkDelivered(ms: seq<Message>, chatIds: seq<ChatId>, u: UserId): seq<Message> {
    seq(|ms|, i requires 0 <= i < |ms| => DeliverOne(ms[i], chatIds, u))
  }

  /** Retroactive delivery: afterwards every message of the user's chats sent
      by someone else lists the user as delivered, exactly once if the list
      had no duplicate; every other message, and every other field, is as it
      was. */
  lemma RetroactiveDelivery(ms: seq<Message>, chatIds: seq<ChatId>, u: UserId)
    ensures var r := MarkDelivered(ms, chatIds, u);
      && |r| == |ms|
      && (forall i :: 0 <= i < |ms| && ms[i].chat in chatIds && ms[i].sender != u ==>
            u in r[i].deliveredTo && (NoDup(ms[i].deliveredTo) ==> NoDup(r[i].deliveredTo)))
      && (forall i :: 0 <= i < |ms| && (ms[i].chat !in chatIds || ms[i].sender == u) ==> r[i] == ms[i])
      && (forall i :: 0 <= i < |ms| ==> r[i].(deliveredTo := ms[i].deliveredTo) == ms[i])
  {
  }

  /** Delivering twice is delivering once. */
  lemma DeliveryIdempotent(ms: seq<Message>, chatIds: seq<ChatId>, u: UserId)
    ensures MarkDelivered(MarkDelivered(ms, chatIds, u), chatIds, u) == MarkDelivered(ms, chatIds, u)
  {
    var once := MarkDelivered(ms, chatIds, u);
    var twice := MarkDelivered(once, chatIds, u);
    forall i | 0 <= i < |ms| ensures twice[i] == once[i] {
      assert !AwaitsDelivery(once[i], chatIds, u);
    }
  }

  /** The `messages-read` filter: a message of the chat created no later than
      the cutoff, not yet read by the user, sent by someone else. */
  predicate AwaitsRead(m: Message, chatId: ChatId, cutoff: int, u: UserId) {
    m.chat == chatId && m.createdAt <= cutoff && u !in m.readBy && m.sender != u
  }

  /** `$addToSet: { readBy: u }` on one message the filter selects. */
  function ReadOne(m: Message, chatId: ChatId, cutoff: int, u: UserId): (r: Message)
    ensures r.(readBy := m.readBy) == m
    ensures m.chat == chatId && m.createdAt <= cutoff && m.sender != u ==> u in r.readBy
    ensures forall v :: v in r.readBy <==> v in m.readBy || (v == u && AwaitsRead(m, chatId, cutoff, u))
    ensures NoDup(m.readBy) ==> NoDup(r.readBy)
  {
    if AwaitsRead(m, chatId, cutoff, u) then m.(readBy := AddToSet(m.readBy, u)) else m
  }

  /** The whole `updateMany` of the `messages-read` handler. */
  function MarkRead(ms: seq<Message>, chatId: ChatId, cutoff: int, u: UserId): seq<Message> {
    seq(|ms|, i requires 0 <= i < |ms| => ReadOne(ms[i], chatId, cutoff, u))
  }

  /** Read-marking reaches every message of the chat up to the cutoff sent by
      someone else, touches nothing else, and never changes `deliveredTo`. */
  lemma ReadMarking(ms: seq<Message>, chatId: ChatId, cutoff: int, u: UserId)
    ensures var r := MarkRead(ms, chatId, cutoff, u);
      && |r| == |ms|
      && (forall i :: 0 <= i < |ms| && ms[i].chat == chatId && ms[i].createdAt <= cutoff && ms[i].sender != u ==>
            u in r[i].readBy)
      && (forall i :: 0 <= i < |ms| && !(ms[i].chat == chatId && ms[i].createdAt <= cutoff && ms[i].sender != u) ==>
            r[i] == ms[i])
      && (forall i :: 0 <= i < |ms| ==> r[i].deliveredTo == ms[i].deliveredTo)
  {
  }

  /** Marking read twice is marking once. */
  lemma ReadIdempotent(ms: seq<Message>, chatId: ChatId, cutoff: int, u: UserId)
    ensures MarkRead(MarkRead(ms, chatId, cutoff, u), chatId, cutoff, u) == MarkRead(ms, chatId, cutoff, u)
  {
    var once := MarkRead(ms, chatId, cutoff, u);
    var twice := MarkRead(once, chatId, cutoff, u);
    forall i | 0 <= i < |ms| ensures twice[i] == once[i] {
      assert !AwaitsRead(once[i], chatId, cutoff, u);
    }
  }

  /** A later cutoff marks everything an earlier one marks: marking up to the
      earlier cutoff first and then up to the later is the same as marking
      up to the later one alone. */
  lemma ReadMonotoneInCutoff(ms: seq<Message>, chatId: ChatId, early: int, late: int, u: UserId)
    requires early <= late
    ensures MarkRead(MarkRead(ms, chatId, early, u), chatId, late, u) == MarkRead(ms, chatId, late, u)
    ensures forall i :: 0 <= i < |ms| ==>
      multiset(MarkRead(ms, chatId, early, u)[i].readBy) <= multiset(MarkRead(ms, chatId, late, u)[i].readBy)
  {
    var e := MarkRead(ms, chatId, early, u);
    var both := MarkRead(e, chatId, late, u);
    var l := MarkRead(ms, chatId, late, u);
    forall i | 0 <= i < |ms| ensures both[i] == l[i] {
      if AwaitsRead(ms[i], chatId, early, u) {
        assert !AwaitsRead(e[i], chatId, late, u);
        assert AwaitsRead(ms[i], chatId, late, u);
      }
    }
  }

  /** A message counts as unread for `u` in the chat list. */
  predicate Unread(m: Message, chatId: ChatId, u: UserId) {
    m.chat == chatId && m.sender != u && u !in m.readBy
  }

  /** The aggregate behind `unreadCount`: messages of the chat sent by
      someone else that `u` has not read; `|| 0` makes a chat with none 0. */
  function UnreadCount(ms: seq<Message>, chatId: ChatId, u: UserId): (n: nat)
    ensures n <= |ms|
  {
    if ms == [] then 0
    else (if Unread(ms[0], chatId, u) then 1 else 0) + UnreadCount(ms[1..], chatId, u)
  }

  /** The count is zero exactly when the user has read every message of the
      chat that someone else sent. */
  lemma {:induction false} UnreadCountZeroIff(ms: seq<Message>, chatId: ChatId, u: UserId)
    ensures UnreadCount(ms, chatId, u) == 0 <==> forall i :: 0 <= i < |ms| ==> !Unread(ms[i], chatId, u)
  {
    if ms != [] {
      UnreadCountZeroIff(ms[1..], chatId, u);
      assert forall i :: 1 <= i < |ms| ==> ms[i] == ms[1..][i - 1];
    }
  }

  /** Reading up to a cutoff no earlier than any message of the chat leaves
      nothing unread there. */
  lemma ReadingToLatestClearsUnread(ms: seq<Message>, chatId: ChatId, cutoff: int, u: UserId)
    requires forall i :: 0 <= i < |ms| && ms[i].chat == chatId ==> ms[i].createdAt <= cutoff
    ensures UnreadCount(MarkRead(ms, chatId, cutoff, u), chatId, u) == 0
  {
    var r := MarkRead(ms, chatId, cutoff, u);
    forall i | 0 <= i < |r| ensures !Unread(r[i], chatId, u) {
      assert r[i] == ReadOne(ms[i], chatId, cutoff, u);
    }
    UnreadCountZeroIff(r, chatId, u);
  }

  /** Delivery receipts never change the unread count. */
  lemma {:induction false} DeliveryKeepsUnreadCount(ms: seq<Message>, chatIds: seq<ChatId>, u: UserId, chatId: ChatId, v: UserId)
    ensures UnreadCount(MarkDelivered(ms, chatIds, u), chatId, v) == UnreadCount(ms, chatId, v)
  {
    if ms != [] {
      DeliveryKeepsUnreadCount(ms[1..], chatIds, u, chatId, v);
      assert MarkDelivered(ms, chatIds, u)[1..] == MarkDelivered(ms[1..], chatIds, u);
    }
  }

  /** A newly stored message adds one to the count of every member but its
      sender: it starts with nobody in `readBy`. */
  lemma {:induction false} NewMessageCount(ms: seq<Message>, m: Message, chatId: ChatId, u: UserId)
    requires m.readBy == []
    ensures UnreadCount(ms + [m], chatId, u)
      == UnreadCount(ms, chatId, u) + (if m.chat == chatId && m.sender != u then 1 else 0)
  {
    if ms != [] {
      assert (ms + [m])[1..] == ms[1..] + [m];
      NewMessageCount(ms[1..], m, chatId, u);
    }
  }
}
