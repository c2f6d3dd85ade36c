/** The client's chat store: the chat list, the selected chat, the messages
    and typing users per chat, and the loading and error flags, with every
    reducer as an in-place transition. */
module ChatSlice {
  import opened Domain
  import opened ClientTypes
  import opened TimeOrder
  import opened Database
  import opened MessageController

  // ----- the chat list -----

  /** `chats.findIndex(c => c._id === id)`, and the chat `find` returns. */
  function ViewIndex(chats: seq<ChatView>, id: ChatId): (r: Option<nat>)
    ensures r.Some? ==> r.value < |chats| && chats[r.value].id == id
    ensures r.Some? ==> forall k :: 0 <= k < r.value ==> chats[k].id != id
    ensures r.None? ==> forall k :: 0 <= k < |chats| ==> chats[k].id != id
  {
    if chats == [] then None
    else if chats[0].id == id then Some(0)
    else match ViewIndex(chats[1..], id)
      case None => None
      case Some(i) => Some(i + 1)
  }

  predicate UniqueViewIds(chats: seq<ChatView>) {
    forall i, j :: 0 <= i < j < |chats| ==> chats[i].id != chats[j].id
  }

  /** `splice(i, 1)` then `unshift(c)`: `c` first, the others in their order. */
  function MoveToFront(chats: seq<ChatView>, i: nat, c: ChatView): (r: seq<ChatView>)
    requires i < |chats|
    ensures |r| == |chats| && r[0] == c
    ensures forall k :: 0 <= k < i ==> r[k + 1] == chats[k]
    ensures forall k :: i < k < |chats| ==> r[k] == chats[k]
  {
    [c] + chats[..i] + chats[i + 1..]
  }

  /** `updateChatPreview`: a listed chat takes the message as its latest,
      counts one more unread and moves to the top; otherwise nothing. */
  function Preview(chats: seq<ChatView>, m: Message): seq<ChatView> {
    match ViewIndex(chats, m.chat)
    case None => chats
    case Some(i) =>
      MoveToFront(chats, i, chats[i].(latestMessage := Some(m), unreadCount := Some(UnreadOrZero(chats[i]) + 1)))
  }

  /** The preview puts the chat on top with the message and one more unread
      (a missing count counting as 0) and keeps every other chat in its
      order; an unlisted chat leaves the list as it is. */
  lemma PreviewMovesChatToTop(chats: seq<ChatView>, m: Message)
    ensures ViewIndex(chats, m.chat).None? ==> Preview(chats, m) == chats
    ensures ViewIndex(chats, m.chat).Some? ==>
      var i := ViewIndex(chats, m.chat).value;
      var r := Preview(chats, m);
      && r[0].id == m.chat && r[0].latestMessage == Some(m)
      && UnreadOrZero(r[0]) == UnreadOrZero(chats[i]) + 1
      && r[1..] == chats[..i] + chats[i + 1..]
  {
  }

  /** Every chat id stays listed after a preview, and none is listed twice
      if none was. */
  lemma PreviewKeepsChatIds(chats: seq<ChatView>, m: Message)
    ensures var r := Preview(chats, m);
      && (forall k :: 0 <= k < |chats| ==> exists j :: 0 <= j < |r| && r[j].id == chats[k].id)
      && (UniqueViewIds(chats) ==> UniqueViewIds(r))
  {
    match ViewIndex(chats, m.chat)
    case None =>
    case Some(i) =>
      var c := chats[i].(latestMessage := Some(m), unreadCount := Some(UnreadOrZero(chats[i]) + 1));
      assert Preview(chats, m) == MoveToFront(chats, i, c);
      MoveToFrontKeepsIds(chats, i, c);
      if UniqueViewIds(chats) {
        MoveToFrontKeepsUnique(chats, i, c);
      }
  }

  lemma MoveToFrontKeepsIds(chats: seq<ChatView>, i: nat, c: ChatView)
    requires i < |chats| && c.id == chats[i].id
    ensures var r := MoveToFront(chats, i, c);
      forall k :: 0 <= k < |chats| ==> exists j :: 0 <= j < |r| && r[j].id == chats[k].id
  {
    var r := MoveToFront(chats, i, c);
    forall k | 0 <= k < |chats| ensures exists j :: 0 <= j < |r| && r[j].id == chats[k].id {
      if k < i { assert r[k + 1] == chats[k]; }
      else if k == i { assert r[0].id == chats[k].id; }
      else { assert r[k] == chats[k]; }
    }
  }

  lemma MoveToFrontKeepsUnique(chats: seq<ChatView>, i: nat, c: ChatView)
    requires i < |chats| && c.id == chats[i].id && UniqueViewIds(chats)
    ensures UniqueViewIds(MoveToFront(chats, i, c))
  {
    var r := MoveToFront(chats, i, c);
    forall a, b | 0 <= a < b < |r| ensures r[a].id != r[b].id {
      var ia := if a == 0 then i else if a <= i then a - 1 else a;
      var ib := if b <= i then b - 1 else b;
      assert r[a].id == chats[ia].id;
      assert r[b].id == chats[ib].id;
    }
  }

  /** The first chat with this id gets this unread count. */
  function SetUnread(chats: seq<ChatView>, id: ChatId, n: nat): (r: seq<ChatView>)
    ensures |r| == |chats|
    ensures ViewIndex(chats, id).None? ==> r == chats
    ensures ViewIndex(chats, id).Some? ==>
      r == chats[ViewIndex(chats, id).value := chats[ViewIndex(chats, id).value].(unreadCount := Some(n))]
  {
    match ViewIndex(chats, id)
    case None => chats
    case Some(i) => chats[i := chats[i].(unreadCount := Some(n))]
  }

  /** Resetting one chat's count leaves every other chat as it was. */
  lemma ResetTouchesOneChat(chats: seq<ChatView>, id: ChatId)
    requires UniqueViewIds(chats)
    ensures var r := SetUnread(chats, id, 0);
      && (forall k :: 0 <= k < |chats| && chats[k].id != id ==> r[k] == chats[k])
      && (forall k :: 0 <= k < |chats| && chats[k].id == id ==> r[k] == chats[k].(unreadCount := Some(0)))
  {
  }

  /** The first chat with this id gets this latest message. */
  function SetLatest(chats: seq<ChatView>, id: ChatId, latest: Option<Message>): (r: seq<ChatView>)
    ensures |r| == |chats|
    ensures ViewIndex(chats, id).None? ==> r == chats
    ensures ViewIndex(chats, id).Some? ==>
      r == chats[ViewIndex(chats, id).value := chats[ViewIndex(chats, id).value].(latestMessage := latest)]
  {
    match ViewIndex(chats, id)
    case None => chats
    case Some(i) => chats[i := chats[i].(latestMessage := latest)]
  }

  /** Setting one chat's latest message leaves every other chat as it was. */
  lemma SetLatestTouchesOneChat(chats: seq<ChatView>, id: ChatId, latest: Option<Message>)
    requires UniqueViewIds(chats)
    ensures var r := SetLatest(chats, id, latest);
      && (forall k :: 0 <= k < |chats| && chats[k].id != id ==> r[k] == chats[k])
      && (forall k :: 0 <= k < |chats| && chats[k].id == id ==> r[k] == chats[k].(latestMessage := latest))
  {
  }

  /** `if (!existing) chats.unshift(c)`. */
  function AddIfAbsent(chats: seq<ChatView>, c: ChatView): (r: seq<ChatView>)
    ensures ViewIndex(chats, c.id).Some? ==> r == chats
    ensures ViewIndex(chats, c.id).None? ==> r == [c] + chats
  {
    if ViewIndex(chats, c.id).Some? then chats else [c] + chats
  }

  /** Adding a chat never lists an id twice, and adding it again changes
      nothing. */
  lemma AddIfAbsentKeepsIdsUnique(chats: seq<ChatView>, c: ChatView)
    ensures UniqueViewIds(chats) ==> UniqueViewIds(AddIfAbsent(chats, c))
    ensures AddIfAbsent(AddIfAbsent(chats, c), c) == AddIfAbsent(chats, c)
    ensures exists k :: 0 <= k < |AddIfAbsent(chats, c)| && AddIfAbsent(chats, c)[k].id == c.id
  {
    var r := AddIfAbsent(chats, c);
    if ViewIndex(chats, c.id).None? {
      assert r[0].id == c.id;
      if UniqueViewIds(chats) {
        forall a, b | 0 <= a < b < |r| ensures r[a].id != r[b].id {
          assert r[b] == chats[b - 1];
          if a > 0 { assert r[a] == chats[a - 1]; }
        }
      }
    } else {
      assert r[ViewIndex(chats, c.id).value].id == c.id;
    }
  }

  /** `updateChat`: every chat with the updated id is replaced. */
  function ReplaceAll(chats: seq<ChatView>, updated: ChatView): (r: seq<ChatView>)
    ensures |r| == |chats|
    ensures forall k :: 0 <= k < |chats| ==> r[k] == if chats[k].id == updated.id then updated else chats[k]
  {
    seq(|chats|, k requires 0 <= k < |chats| => if chats[k].id == updated.id then updated else chats[k])
  }

  /** Replacing keeps the id at every position, so a list without repeated
      ids stays so; it changes nothing when no chat has the id, and
      replacing twice is replacing once. */
  lemma ReplaceAllKeepsIds(chats: seq<ChatView>, updated: ChatView)
    ensures forall k :: 0 <= k < |chats| ==> ReplaceAll(chats, updated)[k].id == chats[k].id
    ensures UniqueViewIds(chats) ==> UniqueViewIds(ReplaceAll(chats, updated))
    ensures ViewIndex(chats, updated.id).None? ==> ReplaceAll(chats, updated) == chats
    ensures ViewIndex(chats, updated.id).Some? ==> updated in ReplaceAll(chats, updated)
    ensures ReplaceAll(ReplaceAll(chats, updated), updated) == ReplaceAll(chats, updated)
  {
    if ViewIndex(chats, updated.id).Some? {
      assert ReplaceAll(chats, updated)[ViewIndex(chats, updated.id).value] == updated;
    }
  }

  /** `chats.filter(chat => chat._id !== id)`. */
  function RemoveView(chats: seq<ChatView>, id: ChatId): (r: seq<ChatView>)
    ensures forall c :: c in r <==> c in chats && c.id != id
    ensures |r| <= |chats|
  {
    if chats == [] then []
    else if chats[0].id == id then RemoveView(chats[1..], id)
    else [chats[0]] + RemoveView(chats[1..], id)
  }

  /** The filter works piece by piece, so the kept chats stay in order. */
  lemma {:induction false} RemoveViewAppend(a: seq<ChatView>, b: seq<ChatView>, id: ChatId)
    ensures RemoveView(a + b, id) == RemoveView(a, id) + RemoveView(b, id)
    decreases |a|
  {
    if a == [] {
      assert a + b == b;
    } else {
      assert (a + b)[0] == a[0];
      assert (a + b)[1..] == a[1..] + b;
      RemoveViewAppend(a[1..], b, id);
    }
  }

  /** Every chat with the id goes, every other chat stays as often as it
      was listed. */
  lemma {:induction false} RemoveViewCounts(chats: seq<ChatView>, id: ChatId)
    ensures forall c :: multiset(RemoveView(chats, id))[c] == if c.id == id then 0 else multiset(chats)[c]
    decreases |chats|
  {
    if chats != [] {
      RemoveViewCounts(chats[1..], id);
      assert chats == [chats[0]] + chats[1..];
    }
  }

  /** `unreadCount: chat.unreadCount || 0`. */
  function WithUnreadDefault(chats: seq<ChatView>): (r: seq<ChatView>)
    ensures |r| == |chats|
    ensures forall k :: 0 <= k < |chats| ==> r[k] == chats[k].(unreadCount := Some(UnreadOrZero(chats[k])))
  {
    seq(|chats|, k requires 0 <= k < |chats| => chats[k].(unreadCount := Some(UnreadOrZero(chats[k]))))
  }

  /** After the defaulting every chat has a count, the count a reader sees
      is the one it had, nothing else changes, and defaulting again
      changes nothing. */
  lemma WithUnreadDefaultKeepsCounts(chats: seq<ChatView>)
    ensures forall k :: 0 <= k < |chats| ==> WithUnreadDefault(chats)[k].unreadCount.Some?
    ensures forall k :: 0 <= k < |chats| ==> UnreadOrZero(WithUnreadDefault(chats)[k]) == UnreadOrZero(chats[k])
    ensures forall k :: 0 <= k < |chats| ==>
      WithUnreadDefault(chats)[k].(unreadCount := chats[k].unreadCount) == chats[k]
    ensures forall k :: 0 <= k < |chats| && chats[k].unreadCount.Some? ==> WithUnreadDefault(chats)[k] == chats[k]
    ensures WithUnreadDefault(WithUnreadDefault(chats)) == WithUnreadDefault(chats)
  {
  }

  /** The other user of a direct chat, marked online exactly when listed. */
  function WithStatus(c: ChatView, online: seq<UserId>): (r: ChatView)
    ensures r.(otherUser := c.otherUser) == c
    ensures !c.isGroup && c.otherUser.Some? ==>
      r.otherUser.Some? && r.otherUser.value.(status := c.otherUser.value.status) == c.otherUser.value
      && (r.otherUser.value.status == Online <==> c.otherUser.value.id in online)
    ensures c.isGroup || c.otherUser.None? ==> r == c
  {
    if c.isGroup || c.otherUser.None? then c
    else c.(otherUser := Some(c.otherUser.value.(status := if c.otherUser.value.id in online then Online else Offline)))
  }

  /** The selected chat's other user, updated without the group test. */
  function SelectedWithStatus(s: Option<ChatView>, online: seq<UserId>): (r: Option<ChatView>)
    ensures s.None? || s.value.otherUser.None? ==> r == s
    ensures s.Some? && s.value.otherUser.Some? ==>
      && r.Some? && r.value.(otherUser := s.value.otherUser) == s.value && r.value.otherUser.Some?
      && r.value.otherUser.value.(status := s.value.otherUser.value.status) == s.value.otherUser.value
      && (r.value.otherUser.value.status == Online <==> s.value.otherUser.value.id in online)
  {
    if s.None? || s.value.otherUser.None? then s
    else Some(s.value.(otherUser := Some(s.value.otherUser.value.(status := if s.value.otherUser.value.id in online then Online else Offline))))
  }

  /** Refreshing the statuses twice with the same list is refreshing once. */
  lemma StatusRefreshIdempotent(c: ChatView, online: seq<UserId>)
    ensures WithStatus(WithStatus(c, online), online) == WithStatus(c, online)
  {
  }

  /** The other user of a chat, updated when the update is about them. */
  function WithPatch(c: ChatView, u: UserId, p: UserPatch): (r: ChatView)
    ensures r.(otherUser := c.otherUser) == c
    ensures c.otherUser.Some? && c.otherUser.value.id == u ==> r.otherUser == Some(ApplyPatch(c.otherUser.value, p))
    ensures c.otherUser.None? || c.otherUser.value.id != u ==> r == c
  {
    if c.otherUser.Some? && c.otherUser.value.id == u then c.(otherUser := Some(ApplyPatch(c.otherUser.value, p))) else c
  }

  /** The disconnect notice about `u` stamps the last-seen time on a chat
      whose other user is `u` and leaves every other chat alone. */
  lemma LastSeenReachesOtherUser(c: ChatView, u: UserId, t: int)
    ensures c.otherUser.Some? && c.otherUser.value.id == u ==>
      WithPatch(c, u, LastSeenPatch(Some(t))) == c.(otherUser := Some(c.otherUser.value.(lastSeen := t)))
    ensures c.otherUser.None? || c.otherUser.value.id != u ==> WithPatch(c, u, LastSeenPatch(Some(t))) == c
  {
    if c.otherUser.Some? && c.otherUser.value.id == u {
      LastSeenPatchSetsOnlyLastSeen(c.otherUser.value, Some(t));
    }
  }

  // ----- messages of one chat -----

  predicate HasId(ms: seq<Message>, id: MessageId) {
    exists k :: 0 <= k < |ms| && ms[k].id == id
  }

  /** The list `addMessage` sorts: the message appended unless its id is
      already there. */
  function AppendIfAbsent(ms: seq<Message>, m: Message): (r: seq<Message>)
    ensures HasId(ms, m.id) ==> r == ms
    ensures !HasId(ms, m.id) ==> r == ms + [m]
  {
    if HasId(ms, m.id) then ms else ms + [m]
  }

  /** `addMessage` on one chat's list: append if new, then sort oldest first. */
  function AddMessageTo(ms: seq<Message>, m: Message): seq<Message> {
    Sort(AppendIfAbsent(ms, m), false)
  }

  /** Appending a message whose id is new keeps ids distinct. */
  lemma AppendIfAbsentKeepsIdsUnique(ms: seq<Message>, m: Message)
    requires UniqueIds(ms)
    ensures UniqueIds(AppendIfAbsent(ms, m))
  {
    if !HasId(ms, m.id) {
      var t := ms + [m];
      forall i, j | 0 <= i < j < |t| ensures t[i].id != t[j].id {
        assert t[i] == ms[i];
        if j < |ms| { assert t[j] == ms[j]; }
      }
    }
  }

  /** Sorting keeps every id present. */
  lemma SortKeepsHasId(t: seq<Message>, id: MessageId)
    requires HasId(t, id)
    ensures HasId(Sort(t, false), id)
  {
    var r := Sort(t, false);
    var w :| 0 <= w < |t| && t[w].id == id;
    assert t[w] in multiset(r);
    var k :| 0 <= k < |r| && r[k] == t[w];
  }

  /** `addMessage` keeps ids unique and the list sorted oldest first, holds
      the message's id afterwards, and adds the message only when its id is
      new; adding it again changes nothing. */
  lemma AddMessageKeepsListSound(ms: seq<Message>, m: Message)
    ensures var r := AddMessageTo(ms, m);
      && Sorted(r, false)
      && (UniqueIds(ms) ==> UniqueIds(r))
      && HasId(r, m.id)
      && multiset(r) == (if HasId(ms, m.id) then multiset(ms) else multiset(ms) + multiset{m})
      && AddMessageTo(r, m) == r
  {
    var t := AppendIfAbsent(ms, m);
    var r := Sort(t, false);
    SortSorted(t, false);
    if UniqueIds(ms) {
      AppendIfAbsentKeepsIdsUnique(ms, m);
      SortKeepsIdsUnique(t, false);
    }
    assert HasId(t, m.id) by {
      if !HasId(ms, m.id) { assert t[|ms|] == m; }
    }
    SortKeepsHasId(t, m.id);
    assert AppendIfAbsent(r, m) == r;
    SortSortedIsIdentity(r, false);
  }

  /** `markMessagesAsRead`'s stopping point: the messages up to and
      including the first with that id, or all of them. */
  function ReadCount(ms: seq<Message>, last: MessageId): (n: nat)
    ensures n <= |ms|
    ensures MessageIndex(ms, last).Some? ==> n == MessageIndex(ms, last).value + 1
    ensures MessageIndex(ms, last).None? ==> n == |ms|
  {
    match MessageIndex(ms, last)
    case None => |ms|
    case Some(i) => i + 1
  }

  /** The marking stops right after the first message with the id, and runs
      to the end when no message has it. */
  lemma ReadCountStopsAtFirst(ms: seq<Message>, last: MessageId)
    ensures forall k :: 0 <= k < ReadCount(ms, last) - 1 ==> ms[k].id != last
    ensures HasId(ms, last) <==> ReadCount(ms, last) >= 1 && ms[ReadCount(ms, last) - 1].id == last
    ensures !HasId(ms, last) ==> ReadCount(ms, last) == |ms|
  {
    if MessageIndex(ms, last).Some? {
      MessageIndexIsFirst(ms, last);
    }
  }

  /** The client's read marking: walks the stored order and adds the reader
      to every message before the stopping point, its own messages too. */
  function ClientRead(ms: seq<Message>, u: UserId, last: MessageId): (r: seq<Message>)
    ensures |r| == |ms|
  {
    MarkPrefix(ms, u, ReadCount(ms, last))
  }

  /** The first `n` messages with the reader added to `readBy`. */
  function MarkPrefix(ms: seq<Message>, u: UserId, n: nat): (r: seq<Message>)
    requires n <= |ms|
    ensures |r| == |ms|
  {
    seq(|ms|, k requires 0 <= k < |ms| =>
      if k < n then ms[k].(readBy := AddToSet(ms[k].readBy, u)) else ms[k])
  }

  /** After the client's read marking, the reader is in `readBy` of every
      message up to the stopping point, whoever sent it, and of no extra
      message after it; nothing else about a message changes, so marking
      again changes nothing. */
  lemma ClientReadMarksPrefix(ms: seq<Message>, u: UserId, last: MessageId)
    ensures var r := ClientRead(ms, u, last);
      && (forall k :: 0 <= k < ReadCount(ms, last) ==> u in r[k].readBy && r[k].(readBy := ms[k].readBy) == ms[k])
      && (forall k :: ReadCount(ms, last) <= k < |ms| ==> r[k] == ms[k])
      && ClientRead(r, u, last) == r
  {
    var r := ClientRead(ms, u, last);
    forall k | 0 <= k < |ms| ensures r[k].id == ms[k].id { }
    SameIdsSameIndex(ms, r, last);
    forall k | 0 <= k < |ms| ensures ClientRead(r, u, last)[k] == r[k] {
      if k < ReadCount(ms, last) {
        AddToSetIdempotent(ms[k].readBy, u);
      }
    }
  }

  lemma {:induction false} SameIdsSameIndex(a: seq<Message>, b: seq<Message>, id: MessageId)
    requires |a| == |b| && forall k :: 0 <= k < |a| ==> a[k].id == b[k].id
    ensures MessageIndex(a, id) == MessageIndex(b, id)
  {
    if a != [] && a[0].id != id {
      SameIdsSameIndex(a[1..], b[1..], id);
    }
  }

  /** The client does not exclude the reader's own messages, which the
      server's read marking skips. */
  lemma ClientReadsOwnMessages(m: Message)
    requires m.readBy == []
    ensures ClientRead([m], m.sender, m.id)[0].readBy == [m.sender]
    ensures Receipts.MarkRead([m], m.chat, m.createdAt, m.sender)[0].readBy == []
  {
  }

  /** The client's delivery marking: every message whose `deliveredTo` and
      `readBy` both lack the user gets the user in `deliveredTo`. */
  function ClientDeliver(ms: seq<Message>, u: UserId): (r: seq<Message>)
    ensures |r| == |ms|
  {
    seq(|ms|, k requires 0 <= k < |ms| =>
      if u !in ms[k].deliveredTo && u !in ms[k].readBy then ms[k].(deliveredTo := ms[k].deliveredTo + [u]) else ms[k])
  }

  /** Afterwards every message has the user in `deliveredTo` or `readBy`;
      only `deliveredTo` changes, no id is added twice, and a second pass
      changes nothing. */
  lemma ClientDeliverCovers(ms: seq<Message>, u: UserId)
    ensures var r := ClientDeliver(ms, u);
      && (forall k :: 0 <= k < |ms| ==> (u in r[k].deliveredTo || u in r[k].readBy))
      && (forall k :: 0 <= k < |ms| ==> r[k].(deliveredTo := ms[k].deliveredTo) == ms[k])
      && (forall k :: 0 <= k < |ms| && NoDup(ms[k].deliveredTo) ==> NoDup(r[k].deliveredTo))
      && ClientDeliver(r, u) == r
  {
    var r := ClientDeliver(ms, u);
    forall k | 0 <= k < |ms| && NoDup(ms[k].deliveredTo) ensures NoDup(r[k].deliveredTo) {
      if u !in ms[k].deliveredTo && u !in ms[k].readBy {
        assert r[k].deliveredTo == AddToSet(ms[k].deliveredTo, u);
      }
    }
  }

  /** `deleteMessageForMe.fulfilled` on one chat's list: the first message
      with the id records the user in `deletedFor`. */
  function MarkDeletedFor(ms: seq<Message>, id: MessageId, u: UserId): (r: seq<Message>)
    ensures MessageIndex(ms, id).None? ==> r == ms
    ensures MessageIndex(ms, id).Some? ==>
      r == ms[MessageIndex(ms, id).value := ms[MessageIndex(ms, id).value].(deletedFor := AddToSet(ms[MessageIndex(ms, id).value].deletedFor, u))]
  {
    match MessageIndex(ms, id)
    case None => ms
    case Some(i) => ms[i := ms[i].(deletedFor := AddToSet(ms[i].deletedFor, u))]
  }

  /** Only the matching message records the user; with unique ids every
      other message stays as it was, and repeating it changes nothing. */
  lemma DeleteForOnlyMatching(ms: seq<Message>, id: MessageId, u: UserId)
    requires UniqueIds(ms)
    ensures var r := MarkDeletedFor(ms, id, u);
      && |r| == |ms|
      && (forall k :: 0 <= k < |ms| && ms[k].id != id ==> r[k] == ms[k])
      && (forall k :: 0 <= k < |ms| && ms[k].id == id ==>
            u in r[k].deletedFor && r[k] == ms[k].(deletedFor := AddToSet(ms[k].deletedFor, u)))
      && MarkDeletedFor(r, id, u) == r
  {
    var r := MarkDeletedFor(ms, id, u);
    if MessageIndex(ms, id).Some? {
      var i := MessageIndex(ms, id).value;
      assert forall k :: 0 <= k < |ms| && ms[k].id == id ==> k == i;
      forall k | 0 <= k < |ms| ensures r[k].id == ms[k].id { }
      SameIdsSameIndex(ms, r, id);
      AddToSetIdempotent(ms[i].deletedFor, u);
    }
  }

  /** `deleteMessageForEveryone.fulfilled` on one chat's list. */
  function TombstoneIn(ms: seq<Message>, id: MessageId): (r: seq<Message>)
    ensures MessageIndex(ms, id).None? ==> r == ms
    ensures MessageIndex(ms, id).Some? ==> r == ms[MessageIndex(ms, id).value := Tombstone(ms[MessageIndex(ms, id).value])]
  {
    match MessageIndex(ms, id)
    case None => ms
    case Some(i) => ms[i := Tombstone(ms[i])]
  }

  /** Only the matching message is tombstoned; with unique ids every other
      message stays as it was, and repeating it changes nothing. */
  lemma TombstoneOnlyMatching(ms: seq<Message>, id: MessageId)
    requires UniqueIds(ms)
    ensures var r := TombstoneIn(ms, id);
      && |r| == |ms|
      && (forall k :: 0 <= k < |ms| && ms[k].id != id ==> r[k] == ms[k])
      && (forall k :: 0 <= k < |ms| && ms[k].id == id ==> r[k] == Tombstone(ms[k]))
      && TombstoneIn(r, id) == r
  {
    var r := TombstoneIn(ms, id);
    if MessageIndex(ms, id).Some? {
      var i := MessageIndex(ms, id).value;
      assert forall k :: 0 <= k < |ms| && ms[k].id == id ==> k == i;
      forall k | 0 <= k < |ms| ensures r[k].id == ms[k].id { }
      SameIdsSameIndex(ms, r, id);
      TombstoneIdempotent(ms[i]);
    }
  }

  // ----- typing users -----

  /** `addTypingUser` on one chat's list. */
  function AddTyping(list: seq<User>, user: User): (r: seq<User>)
    ensures (exists k :: 0 <= k < |list| && list[k].id == user.id) ==> r == list
    ensures (forall k :: 0 <= k < |list| ==> list[k].id != user.id) ==> r == list + [user]
  {
    if exists k :: 0 <= k < |list| && list[k].id == user.id then list else list + [user]
  }

  /** `removeTypingUser` on one chat's list: every entry with the id goes. */
  function RemoveTyping(list: seq<User>, id: UserId): (r: seq<User>)
    ensures forall x :: x in r <==> x in list && x.id != id
    ensures UniqueUserIds(list) ==> UniqueUserIds(r)
  {
    if list == [] then []
    else
      var rest := RemoveTyping(list[1..], id);
      if list[0].id == id then rest
      else
        assert UniqueUserIds(list) ==> UniqueUserIds(list[1..]) && forall x :: x in rest ==> x.id != list[0].id;
        [list[0]] + rest
  }

  /** The filter works piece by piece, so the kept users stay in order. */
  lemma {:induction false} RemoveTypingAppend(a: seq<User>, b: seq<User>, id: UserId)
    ensures RemoveTyping(a + b, id) == RemoveTyping(a, id) + RemoveTyping(b, id)
    decreases |a|
  {
    if a == [] {
      assert a + b == b;
    } else {
      assert (a + b)[0] == a[0];
      assert (a + b)[1..] == a[1..] + b;
      RemoveTypingAppend(a[1..], b, id);
    }
  }

  /** Every entry with the id goes, every other entry stays as often as it
      was listed. */
  lemma {:induction false} RemoveTypingCounts(list: seq<User>, id: UserId)
    ensures forall x :: multiset(RemoveTyping(list, id))[x] == if x.id == id then 0 else multiset(list)[x]
    decreases |list|
  {
    if list != [] {
      RemoveTypingCounts(list[1..], id);
      assert list == [list[0]] + list[1..];
    }
  }

  /** A typing list never holds a user twice, and a user who stops typing
      is no longer in it. */
  lemma TypingListsStayUnique(list: seq<User>, user: User)
    ensures UniqueUserIds(list) ==> UniqueUserIds(AddTyping(list, user))
    ensures forall x :: x in RemoveTyping(AddTyping(list, user), user.id) ==> x.id != user.id
    ensures exists k :: 0 <= k < |AddTyping(list, user)| && AddTyping(list, user)[k].id == user.id
  {
    var r := AddTyping(list, user);
    if forall k :: 0 <= k < |list| ==> list[k].id != user.id {
      assert r[|list|] == user;
      if UniqueUserIds(list) {
        forall a, b | 0 <= a < b < |r| ensures r[a].id != r[b].id {
          assert r[a] == list[a];
        }
      }
    }
  }

  /** The typing list of a chat, empty when the chat has none yet. */
  function TypingOf(m: map<ChatId, seq<User>>, id: ChatId): seq<User> {
    if id in m then m[id] else []
  }

  function MessagesOf(m: map<ChatId, seq<Message>>, id: ChatId): seq<Message> {
    if id in m then m[id] else []
  }

  /** The `for ... of` loop of `markMessagesAsRead`: each message in turn
      gets the reader, and the loop breaks after the one with `last`. */
  method ReadThrough(ms: seq<Message>, u: UserId, last: MessageId) returns (list: seq<Message>)
    ensures list == ClientRead(ms, u, last)
  {
    list := ms;
    var i := 0;
    assert list == MarkPrefix(ms, u, 0);
    while i < |list|
      invariant 0 <= i <= |ms| && i <= ReadCount(ms, last)
      invariant forall k :: 0 <= k < i ==> ms[k].id != last
      invariant list == MarkPrefix(ms, u, i)
    {
      list := list[i := list[i].(readBy := AddToSet(list[i].readBy, u))];
      assert list == MarkPrefix(ms, u, i + 1);
      if list[i].id == last {
        FirstIndexAt(ms, last, i);
        return;
      }
      i := i + 1;
    }
  }

  lemma {:induction false} FirstIndexAt(ms: seq<Message>, id: MessageId, i: nat)
    requires i < |ms| && ms[i].id == id && forall k :: 0 <= k < i ==> ms[k].id != id
    ensures MessageIndex(ms, id) == Some(i)
  {
    if i > 0 {
      FirstIndexAt(ms[1..], id, i - 1);
    }
  }

  /** The `for ... of` loop of `markMessagesAsDelivered`. */
  method DeliverThrough(ms: seq<Message>, u: UserId) returns (list: seq<Message>)
    ensures list == ClientDeliver(ms, u)
  {
    list := ms;
    for i := 0 to |list|
      invariant |list| == |ms|
      invariant forall k :: 0 <= k < i ==> list[k] == ClientDeliver(ms, u)[k]
      invariant forall k :: i <= k < |list| ==> list[k] == ms[k]
    {
      if u !in list[i].deliveredTo && u !in list[i].readBy {
        list := list[i := list[i].(deliveredTo := list[i].deliveredTo + [u])];
      }
    }
  }

  // ----- the store -----

  class ChatStore {
    var messagesByChatId: map<ChatId, seq<Message>>
    var selectedChat: Option<ChatView>
    var chats: seq<ChatView>
    var typingUsersByChatId: map<ChatId, seq<User>>
    var loading: bool
    var error: Option<string>

    /** The initial state. */
    constructor ()
      ensures messagesByChatId == map[] && selectedChat.None? && chats == []
      ensures typingUsersByChatId == map[] && !loading && error.None?
    {
      messagesByChatId := map[];
      selectedChat := None;
      chats := [];
      typingUsersByChatId := map[];
      loading := false;
      error := None;
    }

    /** `clearChatState`: the chat list and typing users stay. */
    method ClearChatState()
      modifies this
      ensures messagesByChatId == map[] && selectedChat.None? && !loading && error.None?
      ensures chats == old(chats) && typingUsersByChatId == old(typingUsersByChatId)
    {
      messagesByChatId := map[];
      selectedChat := None;
      loading := false;
      error := None;
    }

    /** `addMessage`. */
    method AddMessage(m: Message)
      modifies this
      ensures messagesByChatId == old(messagesByChatId)[m.chat := AddMessageTo(MessagesOf(old(messagesByChatId), m.chat), m)]
      ensures selectedChat == old(selectedChat) && chats == old(chats)
      ensures typingUsersByChatId == old(typingUsersByChatId) && loading == old(loading) && error == old(error)
    {
      var list := MessagesOf(messagesByChatId, m.chat);
      messagesByChatId := messagesByChatId[m.chat := AddMessageTo(list, m)];
    }

    /** `updateChatPreview`. */
    method UpdateChatPreview(m: Message)
      modifies this
      ensures chats == Preview(old(chats), m)
      ensures messagesByChatId == old(messagesByChatId) && selectedChat == old(selectedChat)
      ensures typingUsersByChatId == old(typingUsersByChatId) && loading == old(loading) && error == old(error)
    {
      chats := Preview(chats, m);
    }

    /** `resetUnreadCount`. */
    method ResetUnreadCount(id: ChatId)
      modifies this
      ensures chats == SetUnread(old(chats), id, 0)
      ensures messagesByChatId == old(messagesByChatId) && selectedChat == old(selectedChat)
      ensures typingUsersByChatId == old(typingUsersByChatId) && loading == old(loading) && error == old(error)
    {
      chats := SetUnread(chats, id, 0);
    }

    /** `updateSelectedChatLatestMessage`: only for a message of the
        selected chat, which takes it as latest, as does its list entry. */
    method UpdateSelectedChatLatestMessage(m: Message)
      modifies this
      ensures old(selectedChat).Some? && old(selectedChat).value.id == m.chat ==>
        && selectedChat == Some(old(selectedChat).value.(latestMessage := Some(m)))
        && chats == SetLatest(old(chats), m.chat, Some(m))
      ensures !(old(selectedChat).Some? && old(selectedChat).value.id == m.chat) ==>
        selectedChat == old(selectedChat) && chats == old(chats)
      ensures messagesByChatId == old(messagesByChatId)
      ensures typingUsersByChatId == old(typingUsersByChatId) && loading == old(loading) && error == old(error)
    {
      if selectedChat.Some? && selectedChat.value.id == m.chat {
        selectedChat := Some(selectedChat.value.(latestMessage := Some(m)));
        chats := SetLatest(chats, m.chat, Some(m));
      }
    }

    /** `addChatToList`. */
    method AddChatToList(c: ChatView)
      modifies this
      ensures chats == AddIfAbsent(old(chats), c)
      ensures messagesByChatId == old(messagesByChatId) && selectedChat == old(selectedChat)
      ensures typingUsersByChatId == old(typingUsersByChatId) && loading == old(loading) && error == old(error)
    {
      chats := AddIfAbsent(chats, c);
    }

    /** `updateUserStatus`: the `forEach` over the chat list, then the
        selected chat. */
    method UpdateUserStatus(online: seq<UserId>)
      modifies this
      ensures |chats| == |old(chats)|
      ensures forall k :: 0 <= k < |chats| ==> chats[k] == WithStatus(old(chats)[k], online)
      ensures selectedChat == SelectedWithStatus(old(selectedChat), online)
      ensures messagesByChatId == old(messagesByChatId)
      ensures typingUsersByChatId == old(typingUsersByChatId) && loading == old(loading) && error == old(error)
    {
      var i := 0;
      while i < |chats|
        invariant 0 <= i <= |chats| == |old(chats)|
        invariant forall k :: 0 <= k < i ==> chats[k] == WithStatus(old(chats)[k], online)
        invariant forall k :: i <= k < |chats| ==> chats[k] == old(chats)[k]
        invariant selectedChat == old(selectedChat) && messagesByChatId == old(messagesByChatId)
        invariant typingUsersByChatId == old(typingUsersByChatId) && loading == old(loading) && error == old(error)
      {
        chats := chats[i := WithStatus(chats[i], online)];
        i := i + 1;
      }
      selectedChat := SelectedWithStatus(selectedChat, online);
    }

    /** `addTypingUser`: the chat's list is created if missing. */
    method AddTypingUser(chatId: ChatId, user: User)
      modifies this
      ensures typingUsersByChatId == old(typingUsersByChatId)[chatId := AddTyping(TypingOf(old(typingUsersByChatId), chatId), user)]
      ensures messagesByChatId == old(messagesByChatId) && selectedChat == old(selectedChat)
      ensures chats == old(chats) && loading == old(loading) && error == old(error)
    {
      typingUsersByChatId := typingUsersByChatId[chatId := AddTyping(TypingOf(typingUsersByChatId, chatId), user)];
    }

    /** `removeTypingUser`: only a chat that has a list. */
    method RemoveTypingUser(chatId: ChatId, user: User)
      modifies this
      ensures chatId in old(typingUsersByChatId) ==>
        typingUsersByChatId == old(typingUsersByChatId)[chatId := RemoveTyping(old(typingUsersByChatId)[chatId], user.id)]
      ensures chatId !in old(typingUsersByChatId) ==> typingUsersByChatId == old(typingUsersByChatId)
      ensures messagesByChatId == old(messagesByChatId) && selectedChat == old(selectedChat)
      ensures chats == old(chats) && loading == old(loading) && error == old(error)
    {
      if chatId in typingUsersByChatId {
        typingUsersByChatId := typingUsersByChatId[chatId := RemoveTyping(typingUsersByChatId[chatId], user.id)];
      }
    }

    /** `updateOtherUserDetails`: every chat whose other user is `u`, then
        the selected chat. */
    method UpdateOtherUserDetails(u: UserId, p: UserPatch)
      modifies this
      ensures |chats| == |old(chats)|
      ensures forall k :: 0 <= k < |chats| ==> chats[k] == WithPatch(old(chats)[k], u, p)
      ensures old(selectedChat).Some? ==> selectedChat == Some(WithPatch(old(selectedChat).value, u, p))
      ensures old(selectedChat).None? ==> selectedChat.None?
      ensures messagesByChatId == old(messagesByChatId)
      ensures typingUsersByChatId == old(typingUsersByChatId) && loading == old(loading) && error == old(error)
    {
      var i := 0;
      while i < |chats|
        invariant 0 <= i <= |chats| == |old(chats)|
        invariant forall k :: 0 <= k < i ==> chats[k] == WithPatch(old(chats)[k], u, p)
        invariant forall k :: i <= k < |chats| ==> chats[k] == old(chats)[k]
        invariant selectedChat == old(selectedChat) && messagesByChatId == old(messagesByChatId)
        invariant typingUsersByChatId == old(typingUsersByChatId) && loading == old(loading) && error == old(error)
      {
        chats := chats[i := WithPatch(chats[i], u, p)];
        i := i + 1;
      }
      if selectedChat.Some? {
        selectedChat := Some(WithPatch(selectedChat.value, u, p));
      }
    }

    /** `markMessagesAsRead`: the `for ... of` loop that stops after the
        message with `last`, then the chat's count is reset; nothing happens
        for a chat without a message list. */
    method MarkMessagesAsRead(chatId: ChatId, u: UserId, last: MessageId)
      modifies this
      ensures chatId in old(messagesByChatId) ==>
        && messagesByChatId == old(messagesByChatId)[chatId := ClientRead(old(messagesByChatId)[chatId], u, last)]
        && chats == SetUnread(old(chats), chatId, 0)
      ensures chatId !in old(messagesByChatId) ==> messagesByChatId == old(messagesByChatId) && chats == old(chats)
      ensures selectedChat == old(selectedChat)
      ensures typingUsersByChatId == old(typingUsersByChatId) && loading == old(loading) && error == old(error)
    {
      if chatId !in messagesByChatId {
        return;
      }
      var list := ReadThrough(messagesByChatId[chatId], u, last);
      messagesByChatId := messagesByChatId[chatId := list];
      chats := SetUnread(chats, chatId, 0);
    }

    /** `markMessagesAsDelivered`: the `for ... of` loop over the chat's
        list; nothing happens for a chat without one. */
    method MarkMessagesAsDelivered(chatId: ChatId, u: UserId)
      modifies this
      ensures chatId in old(messagesByChatId) ==>
        messagesByChatId == old(messagesByChatId)[chatId := ClientDeliver(old(messagesByChatId)[chatId], u)]
      ensures chatId !in old(messagesByChatId) ==> messagesByChatId == old(messagesByChatId)
      ensures selectedChat == old(selectedChat) && chats == old(chats)
      ensures typingUsersByChatId == old(typingUsersByChatId) && loading == old(loading) && error == old(error)
    {
      if chatId !in messagesByChatId {
        return;
      }
      var list := DeliverThrough(messagesByChatId[chatId], u);
      messagesByChatId := messagesByChatId[chatId := list];
    }

    /** Every action whose type ends in `pending`, whichever thunk it comes from. */
    method Pending()
      modifies this
      ensures loading && error.None?
      ensures messagesByChatId == old(messagesByChatId) && selectedChat == old(selectedChat)
      ensures chats == old(chats) && typingUsersByChatId == old(typingUsersByChatId)
    {
      loading := true;
      error := None;
    }

    /** Every action whose type ends in `rejected`, whichever thunk it comes from. */
    method Rejected(payload: Option<string>)
      modifies this
      ensures !loading && error == payload
      ensures messagesByChatId == old(messagesByChatId) && selectedChat == old(selectedChat)
      ensures chats == old(chats) && typingUsersByChatId == old(typingUsersByChatId)
    {
      loading := false;
      error := payload;
    }

    /** `fetchChatList.fulfilled`: the list is replaced; the error stays. */
    method FetchChatListFulfilled(payload: seq<ChatView>)
      modifies this
      ensures !loading && chats == WithUnreadDefault(payload)
      ensures messagesByChatId == old(messagesByChatId) && selectedChat == old(selectedChat)
      ensures typingUsersByChatId == old(typingUsersByChatId) && error == old(error)
    {
      loading := false;
      chats := WithUnreadDefault(payload);
    }

    /** `getChat.fulfilled`: the chat is selected, its messages stored as
        received, and its unread count reset. */
    method GetChatFulfilled(chat: ChatView, messages: seq<Message>)
      modifies this
      ensures !loading && selectedChat == Some(chat)
      ensures messagesByChatId == old(messagesByChatId)[chat.id := messages]
      ensures chats == SetUnread(old(chats), chat.id, 0)
      ensures typingUsersByChatId == old(typingUsersByChatId) && error == old(error)
    {
      loading := false;
      selectedChat := Some(chat);
      messagesByChatId := messagesByChatId[chat.id := messages];
      chats := SetUnread(chats, chat.id, 0);
    }

    /** `createChat.fulfilled`: listed if new, and selected. */
    method CreateChatFulfilled(chat: ChatView)
      modifies this
      ensures !loading && selectedChat == Some(chat) && chats == AddIfAbsent(old(chats), chat)
      ensures messagesByChatId == old(messagesByChatId)
      ensures typingUsersByChatId == old(typingUsersByChatId) && error == old(error)
    {
      loading := false;
      chats := AddIfAbsent(chats, chat);
      selectedChat := Some(chat);
    }

    /** `updateChat`, shared by the rename, add, promote, remove and demote
        fulfilments. */
    method UpdateChat(updated: ChatView)
      modifies this
      ensures !loading && chats == ReplaceAll(old(chats), updated)
      ensures old(selectedChat).Some? && old(selectedChat).value.id == updated.id ==> selectedChat == Some(updated)
      ensures !(old(selectedChat).Some? && old(selectedChat).value.id == updated.id) ==> selectedChat == old(selectedChat)
      ensures messagesByChatId == old(messagesByChatId)
      ensures typingUsersByChatId == old(typingUsersByChatId) && error == old(error)
    {
      chats := ReplaceAll(chats, updated);
      if selectedChat.Some? && selectedChat.value.id == updated.id {
        selectedChat := Some(updated);
      }
      loading := false;
    }

    /** `leaveGroup.fulfilled`: the chat and its messages go, and it is
        unselected if it was selected. */
    method LeaveGroupFulfilled(chatId: ChatId)
      modifies this
      ensures !loading && chats == RemoveView(old(chats), chatId)
      ensures messagesByChatId == old(messagesByChatId) - {chatId}
      ensures old(selectedChat).Some? && old(selectedChat).value.id == chatId ==> selectedChat.None?
      ensures !(old(selectedChat).Some? && old(selectedChat).value.id == chatId) ==> selectedChat == old(selectedChat)
      ensures typingUsersByChatId == old(typingUsersByChatId) && error == old(error)
    {
      chats := RemoveView(chats, chatId);
      messagesByChatId := messagesByChatId - {chatId};
      if selectedChat.Some? && selectedChat.value.id == chatId {
        selectedChat := None;
      }
      loading := false;
    }

    /** `createMessage.fulfilled`: appended if new (not sorted), and the
        chat moves to the top with its entry otherwise unchanged. */
    method CreateMessageFulfilled(m: Message)
      modifies this
      ensures !loading
      ensures messagesByChatId == old(messagesByChatId)[m.chat := AppendIfAbsent(MessagesOf(old(messagesByChatId), m.chat), m)]
      ensures ViewIndex(old(chats), m.chat).Some? ==>
        var i := ViewIndex(old(chats), m.chat).value;
        chats == MoveToFront(old(chats), i, old(chats)[i])
      ensures ViewIndex(old(chats), m.chat).None? ==> chats == old(chats)
      ensures selectedChat == old(selectedChat)
      ensures typingUsersByChatId == old(typingUsersByChatId) && error == old(error)
    {
      messagesByChatId := messagesByChatId[m.chat := AppendIfAbsent(MessagesOf(messagesByChatId, m.chat), m)];
      var found := ViewIndex(chats, m.chat);
      if found.Some? {
        chats := MoveToFront(chats, found.value, chats[found.value]);
      }
      loading := false;
    }

    /** `deleteMessageForMe.fulfilled`. Without a message list for the chat
        nothing happens; otherwise the message records the user, and a new
        latest message (or its absence) is written to the chat's entry and
        to the selected chat. The loading flag is left as it is. */
    method DeleteMessageForMeFulfilled(p: DeletedForMe)
      modifies this
      ensures p.chatId !in old(messagesByChatId) ==>
        messagesByChatId == old(messagesByChatId) && chats == old(chats) && selectedChat == old(selectedChat)
      ensures p.chatId in old(messagesByChatId) ==>
        messagesByChatId == old(messagesByChatId)[p.chatId := MarkDeletedFor(old(messagesByChatId)[p.chatId], p.messageId, p.userId)]
      ensures p.chatId in old(messagesByChatId) && p.newLatestMessage.Untouched? ==>
        chats == old(chats) && selectedChat == old(selectedChat)
      ensures p.chatId in old(messagesByChatId) && !p.newLatestMessage.Untouched? ==>
        var latest := if p.newLatestMessage.Cleared? then None else Some(p.newLatestMessage.message);
        && chats == SetLatest(old(chats), p.chatId, latest)
        && (old(selectedChat).Some? && old(selectedChat).value.id == p.chatId ==>
              selectedChat == Some(old(selectedChat).value.(latestMessage := latest)))
        && (!(old(selectedChat).Some? && old(selectedChat).value.id == p.chatId) ==> selectedChat == old(selectedChat))
      ensures typingUsersByChatId == old(typingUsersByChatId) && loading == old(loading) && error == old(error)
    {
      if p.chatId !in messagesByChatId {
        return;
      }
      messagesByChatId := messagesByChatId[p.chatId := MarkDeletedFor(messagesByChatId[p.chatId], p.messageId, p.userId)];
      if !p.newLatestMessage.Untouched? {
        var latest := if p.newLatestMessage.Cleared? then None else Some(p.newLatestMessage.message);
        chats := SetLatest(chats, p.chatId, latest);
        if selectedChat.Some? && selectedChat.value.id == p.chatId {
          selectedChat := Some(selectedChat.value.(latestMessage := latest));
        }
      }
    }

    /** `deleteMessageForEveryone.fulfilled`: the matching message of the
        chat's list, if any, is tombstoned. The loading flag is left as it is. */
    method DeleteMessageForEveryoneFulfilled(p: DeletedForEveryone)
      modifies this
      ensures p.chatId in old(messagesByChatId) ==>
        messagesByChatId == old(messagesByChatId)[p.chatId := TombstoneIn(old(messagesByChatId)[p.chatId], p.messageId)]
      ensures p.chatId !in old(messagesByChatId) ==> messagesByChatId == old(messagesByChatId)
      ensures chats == old(chats) && selectedChat == old(selectedChat)
      ensures typingUsersByChatId == old(typingUsersByChatId) && loading == old(loading) && error == old(error)
    {
      if p.chatId in messagesByChatId {
        messagesByChatId := messagesByChatId[p.chatId := TombstoneIn(messagesByChatId[p.chatId], p.messageId)];
      }
    }
  }
}
