/** Record shapes shared by the server and the client store, and the
    duplicate-free list operations (`$addToSet`, includes-guarded `push`,
    `filter(id !== x)`) that every component uses on them. */
module Domain {

  datatype Option<+T> = None | Some(value: T)

  /** Document and connection identities. The database generates ObjectIds
      and compares them by value; the model uses natural numbers. */
  type UserId = nat
  type ChatId = nat
  type MessageId = nat
  type SocketId = nat

  datatype Status = Online | Offline

  /** A user document without its password hash (every response strips it). */
  datatype User = User(
    id: UserId,
    email: string,
    username: string,
    profilePic: string,
    status: Status,
    lastSeen: int,
    bio: string)

  /** A chat document as stored: members, admins and the latest message are ids. */
  datatype Chat = Chat(
    id: ChatId,
    name: Option<string>,
    isGroup: bool,
    members: seq<UserId>,
    createdBy: Option<UserId>,
    groupAdmins: seq<UserId>,
    latestMessage: Option<MessageId>,
    description: Option<string>,
    groupProfilePic: Option<string>)

  /** A message document; `createdAt` is the creation timestamp in milliseconds. */
  datatype Message = Message(
    id: MessageId,
    chat: ChatId,
    sender: UserId,
    text: Option<string>,
    readBy: seq<UserId>,
    attachments: seq<string>,
    deletedFor: seq<UserId>,
    isDeleted: bool,
    deliveredTo: seq<UserId>,
    createdAt: int)

  /** A REST reply: a status code with data, or a status code with an error message. */
  datatype Reply<+T> = Ok(code: nat, data: T) | Err(code: nat, message: string)

  const TombstoneText: string := "This message was deleted"

  /** The fields a delete-for-everyone overwrites, on the server and in the client store. */
  function Tombstone(m: Message): (r: Message)
    ensures r.isDeleted && r.text == Some(TombstoneText) && r.attachments == []
    ensures r.(text := m.text, attachments := m.attachments, isDeleted := m.isDeleted) == m
  {
    m.(text := Some(TombstoneText), attachments := [], isDeleted := true)
  }

  /** Deleting for everyone a second time changes nothing. */
  lemma TombstoneIdempotent(m: Message)
    ensures Tombstone(Tombstone(m)) == Tombstone(m)
  {
  }

  predicate NoDup<T(==)>(s: seq<T>) {
    forall i, j :: 0 <= i < j < |s| ==> s[i] != s[j]
  }

  /** `$addToSet`, or `if (!arr.includes(x)) arr.push(x)`. */
  function AddToSet(s: seq<UserId>, x: UserId): (r: seq<UserId>)
    ensures x in r
    ensures forall y :: y in r <==> y in s || y == x
    ensures |s| <= |r| <= |s| + 1 && r[..|s|] == s
    ensures x in s ==> r == s
    ensures NoDup(s) ==> NoDup(r)
  {
    if x in s then s else s + [x]
  }

  /** `arr.filter(id => id !== x)`: every occurrence of `x` removed, order kept. */
  function Without(s: seq<UserId>, x: UserId): (r: seq<UserId>)
    ensures forall y :: y in r <==> y in s && y != x
    ensures |r| <= |s|
    ensures x !in s ==> r == s
    ensures NoDup(s) ==> NoDup(r)
  {
    if s == [] then []
    else if s[0] == x then Without(s[1..], x)
    else
      var rest := Without(s[1..], x);
      assert NoDup(s) ==> NoDup(s[1..]) && s[0] !in s[1..];
      [s[0]] + rest
  }

  /** The filter works piece by piece, so the kept ids stay in order. */
  lemma {:induction false} WithoutAppend(a: seq<UserId>, b: seq<UserId>, x: UserId)
    ensures Without(a + b, x) == Without(a, x) + Without(b, x)
    decreases |a|
  {
    if a == [] {
      assert a + b == b;
    } else {
      assert (a + b)[0] == a[0];
      assert (a + b)[1..] == a[1..] + b;
      WithoutAppend(a[1..], b, x);
    }
  }

  /** Every occurrence of `x` goes, every other id stays as often as it
      occurred. */
  lemma {:induction false} WithoutCounts(s: seq<UserId>, x: UserId)
    ensures multiset(Without(s, x)) == multiset(s)[x := 0]
    decreases |s|
  {
    if s != [] {
      WithoutCounts(s[1..], x);
      assert s == [s[0]] + s[1..];
    }
  }

  /** Adding to a set and then adding again is the same as adding once. */
  lemma AddToSetIdempotent(s: seq<UserId>, x: UserId)
    ensures AddToSet(AddToSet(s, x), x) == AddToSet(s, x)
  {
  }
}
