/** The server's storage: the user, chat and message collections as
    in-memory collections, and the few update operations the handlers run
    on them. Collections keep storage order, which is the order `find`
    returns documents in when no sort is given. */
module Database {
  import opened Domain
  import opened Groups
  import opened Receipts
  import TimeOrder

  /** `findById` on the chats: the position of the chat with that id. */
  function ChatIndex(chats: seq<Chat>, id: ChatId): (r: Option<nat>)
    ensures r.Some? ==> r.value < |chats| && chats[r.value].id == id
    ensures r.None? ==> forall k :: 0 <= k < |chats| ==> chats[k].id != id
  {
    if chats == [] then None
    else if chats[0].id == id then Some(0)
    else match ChatIndex(chats[1..], id)
      case None => None
      case Some(k) => Some(k + 1)
  }

  /** `findById` on the messages. */
  function MessageIndex(ms: seq<Message>, id: MessageId): (r: Option<nat>)
    ensures r.Some? ==> r.value < |ms| && ms[r.value].id == id
    ensures r.None? ==> forall k :: 0 <= k < |ms| ==> ms[k].id != id
  {
    if ms == [] then None
    else if ms[0].id == id then Some(0)
    else match MessageIndex(ms[1..], id)
      case None => None
      case Some(k) => Some(k + 1)
  }

  /** `findById` stops at the first message with the id. */
  lemma {:induction false} MessageIndexIsFirst(ms: seq<Message>, id: MessageId)
    requires MessageIndex(ms, id).Some?
    ensures forall k :: 0 <= k < MessageIndex(ms, id).value ==> ms[k].id != id
  {
    if ms[0].id != id {
      MessageIndexIsFirst(ms[1..], id);
      forall k | 0 < k < MessageIndex(ms, id).value ensures ms[k].id != id {
        assert ms[k] == ms[1..][k - 1];
      }
    }
  }

  predicate UniqueChatIds(chats: seq<Chat>) {
    forall i, j :: 0 <= i < j < |chats| ==> chats[i].id != chats[j].id
  }

  /** No two direct chats hold the same pair of users. */
  predicate OneDirectChatPerPair(chats: seq<Chat>) {
    forall i, j :: 0 <= i < |chats| && 0 <= j < |chats| && i != j && !chats[j].isGroup ==>
      !CoversPair(chats[i], chats[j].members)
  }

  /** `$addToSet` and the includes-guarded pushes never duplicate an id. */
  predicate ReceiptsNoDup(ms: seq<Message>) {
    forall i :: 0 <= i < |ms| ==>
      NoDup(ms[i].readBy) && NoDup(ms[i].deliveredTo) && NoDup(ms[i].deletedFor)
  }

  /** The database. `nextId` stands for the generator of fresh ObjectIds. */
  class Db {
    var users: map<UserId, User>
    var chats: seq<Chat>
    var messages: seq<Message>
    var nextId: nat

    ghost predicate Valid()
      reads this
    {
      && (forall u :: u in users ==> users[u].id == u)
      && UniqueChatIds(chats)
      && (forall i :: 0 <= i < |chats| ==> chats[i].id < nextId && ChatWellFormed(chats[i]))
      && (forall i, u :: 0 <= i < |chats| && u in chats[i].members ==> u in users)
      && OneDirectChatPerPair(chats)
      && TimeOrder.UniqueIds(messages)
      && (forall i :: 0 <= i < |messages| ==> messages[i].id < nextId)
      && ReceiptsNoDup(messages)
    }

    /** A database holding only the given users. */
    constructor (initialUsers: map<UserId, User>)
      requires forall u :: u in initialUsers ==> initialUsers[u].id == u
      ensures Valid()
      ensures users == initialUsers && chats == [] && messages == []
    {
      users := initialUsers;
      chats := [];
      messages := [];
      nextId := 0;
    }

    /** A fresh document id. */
    method NewId() returns (id: nat)
      requires Valid()
      modifies this
      ensures Valid()
      ensures id == old(nextId) && nextId == old(nextId) + 1
      ensures users == old(users) && chats == old(chats) && messages == old(messages)
    {
      id := nextId;
      nextId := nextId + 1;
    }

    /** `setUserStatus`: the status is stored, and going offline also stores
        `now` as `lastSeen`. The answer is the stored `lastSeen` when going
        offline (none if there is no such user) and none when going online. */
    method SetUserStatus(u: UserId, status: Status, now: int) returns (lastSeen: Option<int>)
      requires Valid()
      modifies this
      ensures Valid()
      ensures u in old(users) ==> users == old(users)[u := old(users)[u].(
        status := status,
        lastSeen := if status == Offline then now else old(users)[u].lastSeen)]
      ensures u !in old(users) ==> users == old(users)
      ensures lastSeen == if status == Offline && u in old(users) then Some(now) else None
      ensures chats == old(chats) && messages == old(messages) && nextId == old(nextId)
    {
      if u in users {
        var user := users[u];
        var seen := if status == Offline then now else user.lastSeen;
        users := users[u := user.(status := status, lastSeen := seen)];
        lastSeen := if status == Offline then Some(seen) else None;
      } else {
        lastSeen := None;
      }
    }

    /** The connect handler's `updateMany`, one matching document at a time. */
    method DeliverPending(chatIds: seq<ChatId>, u: UserId)
      requires Valid()
      modifies this
      ensures Valid()
      ensures messages == MarkDelivered(old(messages), chatIds, u)
      ensures users == old(users) && chats == old(chats) && nextId == old(nextId)
    {
      var i := 0;
      while i < |messages|
        invariant 0 <= i <= |messages| == |old(messages)|
        invariant forall k :: 0 <= k < i ==> messages[k] == DeliverOne(old(messages)[k], chatIds, u)
        invariant forall k :: i <= k < |messages| ==> messages[k] == old(messages)[k]
        invariant users == old(users) && chats == old(chats) && nextId == old(nextId)
      {
        if AwaitsDelivery(messages[i], chatIds, u) {
          messages := messages[i := DeliverOne(messages[i], chatIds, u)];
        }
        i := i + 1;
      }
    }

    /** The `messages-read` handler's `updateMany`, one matching document at a time. */
    method MarkReadUpTo(chatId: ChatId, cutoff: int, u: UserId)
      requires Valid()
      modifies this
      ensures Valid()
      ensures messages == MarkRead(old(messages), chatId, cutoff, u)
      ensures users == old(users) && chats == old(chats) && nextId == old(nextId)
    {
      var i := 0;
      while i < |messages|
        invariant 0 <= i <= |messages| == |old(messages)|
        invariant forall k :: 0 <= k < i ==> messages[k] == ReadOne(old(messages)[k], chatId, cutoff, u)
        invariant forall k :: i <= k < |messages| ==> messages[k] == old(messages)[k]
        invariant users == old(users) && chats == old(chats) && nextId == old(nextId)
      {
        if AwaitsRead(messages[i], chatId, cutoff, u) {
          messages := messages[i := ReadOne(messages[i], chatId, cutoff, u)];
        }
        i := i + 1;
      }
    }

    /** Stores a new message. */
    method AppendMessage(m: Message)
      requires Valid()
      requires m.id < nextId && forall k :: 0 <= k < |messages| ==> messages[k].id != m.id
      requires NoDup(m.readBy) && NoDup(m.deliveredTo) && NoDup(m.deletedFor)
      modifies this
      ensures Valid()
      ensures messages == old(messages) + [m]
      ensures users == old(users) && chats == old(chats) && nextId == old(nextId)
    {
      messages := messages + [m];
    }

    /** Saves a changed message in place; its id stays. */
    method ReplaceMessage(i: nat, m: Message)
      requires Valid() && i < |messages| && m.id == messages[i].id
      requires NoDup(m.readBy) && NoDup(m.deliveredTo) && NoDup(m.deletedFor)
      modifies this
      ensures Valid()
      ensures messages == old(messages)[i := m]
      ensures users == old(users) && chats == old(chats) && nextId == old(nextId)
    {
      messages := messages[i := m];
    }

    /** Saves a changed chat in place: same id, same kind, and a direct chat
        keeps its two members. */
    method ReplaceChat(i: nat, c: Chat)
      requires Valid() && i < |chats| && c.id == chats[i].id
      requires ChatWellFormed(c) && c.isGroup == chats[i].isGroup
      requires !c.isGroup ==> c.members == chats[i].members
      requires forall u :: u in c.members ==> u in users
      modifies this
      ensures Valid()
      ensures chats == old(chats)[i := c]
      ensures users == old(users) && messages == old(messages) && nextId == old(nextId)
    {
      chats := chats[i := c];
    }

    /** `findByIdAndDelete` on a chat. */
    method RemoveChatAt(i: nat)
      requires Valid() && i < |chats|
      modifies this
      ensures Valid()
      ensures chats == old(chats)[..i] + old(chats)[i + 1..]
      ensures users == old(users) && messages == old(messages) && nextId == old(nextId)
    {
      chats := chats[..i] + chats[i + 1..];
    }

    /** `chatModel.create`: a new chat, last in storage order. A direct chat
        may only be added when no direct chat holds the same pair. */
    method AddChat(c: Chat)
      requires Valid() && c.id < nextId && forall k :: 0 <= k < |chats| ==> chats[k].id != c.id
      requires ChatWellFormed(c) && forall u :: u in c.members ==> u in users
      requires !c.isGroup ==> forall k :: 0 <= k < |chats| ==> !CoversPair(chats[k], c.members)
      modifies this
      ensures Valid()
      ensures chats == old(chats) + [c]
      ensures users == old(users) && messages == old(messages) && nextId == old(nextId)
    {
      chats := chats + [c];
      DirectPairsStayDistinct(old(chats), c);
    }
  }

  /** Covering a two-member list is symmetric between direct chats. */
  lemma CoversPairSymmetric(c: Chat, d: Chat)
    requires ChatWellFormed(c) && ChatWellFormed(d) && !c.isGroup && !d.isGroup
    requires CoversPair(c, d.members)
    ensures CoversPair(d, c.members)
  {
    assert d.members[0] in c.members && d.members[1] in c.members;
  }

  lemma DirectPairsStayDistinct(chats: seq<Chat>, c: Chat)
    requires OneDirectChatPerPair(chats) && ChatWellFormed(c)
    requires forall k :: 0 <= k < |chats| ==> ChatWellFormed(chats[k])
    requires !c.isGroup ==> forall k :: 0 <= k < |chats| ==> !CoversPair(chats[k], c.members)
    ensures OneDirectChatPerPair(chats + [c])
  {
    var all := chats + [c];
    forall i, j | 0 <= i < |all| && 0 <= j < |all| && i != j && !all[j].isGroup
      ensures !CoversPair(all[i], all[j].members)
    {
      if j == |chats| {
        assert all[i] == chats[i];
      } else if i == |chats| {
        if !c.isGroup && CoversPair(c, chats[j].members) {
          CoversPairSymmetric(c, chats[j]);
          assert false;
        }
      } else {
        assert all[i] == chats[i] && all[j] == chats[j];
      }
    }
  }
}
