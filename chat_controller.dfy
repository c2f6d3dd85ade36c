/** The chat controller: creating chats, listing them with unread counts,
    reading one chat's history, and the group operations (rename, add,
    promote, remove, demote, leave). */
module ChatController {
  import opened Domain
  import opened Events
  import opened Database
  import opened Groups
  import opened Receipts
  import opened TimeOrder
  import opened SocketServer
  import opened MessageController

  /** `findOne({ members: { $all: pair, $size: 2 }, isGroup: false })`: the
      first direct chat, in storage order, holding both ids. */
  function FindDirect(chats: seq<Chat>, pair: seq<UserId>): (r: Option<nat>)
    ensures r.Some? ==> r.value < |chats| && CoversPair(chats[r.value], pair)
    ensures r.Some? ==> forall k :: 0 <= k < r.value ==> !CoversPair(chats[k], pair)
    ensures r.None? ==> forall k :: 0 <= k < |chats| ==> !CoversPair(chats[k], pair)
  {
    if chats == [] then None
    else if CoversPair(chats[0], pair) then Some(0)
    else match FindDirect(chats[1..], pair)
      case None => None
      case Some(i) => Some(i + 1)
  }

  /** `createChat`. A group request is validated and stored, answering 201.
      A direct request is validated; if a direct chat with the same two
      members exists it is answered with 200 and nothing is stored;
      otherwise the new chat is stored, both members' rooms hear of it, and
      the answer is 201. */
  method CreateChat(db: Db, requester: UserId, req: CreateRequest) returns (r: Reply<Chat>, events: seq<Event>)
    requires db.Valid()
    modifies db
    ensures db.Valid()
    ensures db.users == old(db.users) && db.messages == old(db.messages)
    ensures req.isGroup ==>
      var f := GroupRefusal(req, old(db.users).Keys);
      && events == []
      && (f.Some? ==> r == Err(f.value.code, f.value.message) && db.chats == old(db.chats))
      && (f.None? ==>
            var c := NewGroup(old(db.nextId), req, requester);
            r == Ok(201, c) && db.chats == old(db.chats) + [c])
    ensures !req.isGroup ==>
      var f := DirectRefusal(req, old(db.users).Keys);
      && (f.Some? ==> r == Err(f.value.code, f.value.message) && events == [] && db.chats == old(db.chats))
      && (f.None? && FindDirect(old(db.chats), req.members.value).Some? ==>
            && r == Ok(200, old(db.chats)[FindDirect(old(db.chats), req.members.value).value])
            && events == [] && db.chats == old(db.chats))
      && (f.None? && FindDirect(old(db.chats), req.members.value).None? ==>
            var c := NewDirect(old(db.nextId), req.members.value);
            && r == Ok(201, c) && db.chats == old(db.chats) + [c]
            && events == ToEachMember(c.members, NewChat(c)))
  {
    events := [];
    if req.isGroup {
      var f := GroupRefusal(req, db.users.Keys);
      if f.Some? {
        return Err(f.value.code, f.value.message), [];
      }
      var id := db.NewId();
      var c := NewGroup(id, req, requester);
      AcceptedGroupWellFormed(id, req, requester, db.users.Keys);
      db.AddChat(c);
      r := Ok(201, c);
    } else {
      var f := DirectRefusal(req, db.users.Keys);
      if f.Some? {
        return Err(f.value.code, f.value.message), [];
      }
      var existing := FindDirect(db.chats, req.members.value);
      if existing.Some? {
        return Ok(200, db.chats[existing.value]), [];
      }
      var id := db.NewId();
      var c := NewDirect(id, req.members.value);
      AcceptedDirectWellFormed(id, req, db.users.Keys);
      db.AddChat(c);
      events := ToEachMember(c.members, NewChat(c));
      r := Ok(201, c);
    }
  }

  /** Once a direct chat for a pair is stored, a request for the same pair,
      in either order, finds it. */
  lemma DirectChatFoundAgain(chats: seq<Chat>, id: ChatId, a: UserId, b: UserId)
    requires a != b
    requires FindDirect(chats, [a, b]).None?
    ensures FindDirect(chats + [NewDirect(id, [a, b])], [a, b]) == Some(|chats|)
    ensures FindDirect(chats + [NewDirect(id, [a, b])], [b, a]) == Some(|chats|)
  {
    var all := chats + [NewDirect(id, [a, b])];
    forall k | 0 <= k < |chats| ensures !CoversPair(all[k], [a, b]) && !CoversPair(all[k], [b, a]) {
      assert all[k] == chats[k];
      assert !CoversPair(chats[k], [a, b]);
    }
    FindDirectPrefixMiss(chats, NewDirect(id, [a, b]), [a, b]);
    FindDirectPrefixMiss(chats, NewDirect(id, [a, b]), [b, a]);
  }

  lemma {:induction false} FindDirectPrefixMiss(chats: seq<Chat>, c: Chat, pair: seq<UserId>)
    requires forall k :: 0 <= k < |chats| ==> !CoversPair(chats[k], pair)
    requires CoversPair(c, pair)
    ensures FindDirect(chats + [c], pair) == Some(|chats|)
  {
    if chats != [] {
      assert (chats + [c])[1..] == chats[1..] + [c];
      FindDirectPrefixMiss(chats[1..], c, pair);
    } else {
      assert chats + [c] == [c];
    }
  }

  /** In a consistent database the direct chat a pair finds is the only
      one: any direct chat over the same pair is that chat. */
  lemma DirectChatUnique(chats: seq<Chat>, a: UserId, b: UserId, k: nat)
    requires OneDirectChatPerPair(chats) && forall i :: 0 <= i < |chats| ==> ChatWellFormed(chats[i])
    requires a != b && k < |chats| && CoversPair(chats[k], [a, b])
    ensures FindDirect(chats, [a, b]) == Some(k)
  {
    forall i | 0 <= i < k ensures !CoversPair(chats[i], [a, b]) {
      assert !CoversPair(chats[i], chats[k].members);
      PairCoverage(chats[k], chats[i], a, b);
    }
    FindDirectFirst(chats, [a, b], k);
  }

  /** A chat covering the pair that a direct chat holds covers that chat's
      members. */
  lemma PairCoverage(c: Chat, d: Chat, a: UserId, b: UserId)
    requires ChatWellFormed(c) && a != b && CoversPair(c, [a, b])
    ensures CoversPair(d, [a, b]) ==> CoversPair(d, c.members)
  {
    var m := c.members;
    assert a in m && b in m;
    assert m[0] == a || m[0] == b;
    assert m[1] == a || m[1] == b;
    assert forall x :: x in m ==> x == m[0] || x == m[1];
  }

  lemma {:induction false} FindDirectFirst(chats: seq<Chat>, pair: seq<UserId>, k: nat)
    requires k < |chats| && CoversPair(chats[k], pair)
    requires forall i :: 0 <= i < k ==> !CoversPair(chats[i], pair)
    ensures FindDirect(chats, pair) == Some(k)
  {
    if k > 0 {
      FindDirectFirst(chats[1..], pair, k - 1);
    }
  }

  /** One entry of the `getChats` answer: the chat and its unread count. */
  datatype ChatSummary = ChatSummary(chat: Chat, unreadCount: nat)

  /** `getChats`: the user's chats, in storage order, each with the number
      of its messages sent by someone else that the user has not read. */
  function ChatsWithUnread(chats: seq<Chat>, ms: seq<Message>, u: UserId): (r: seq<ChatSummary>)
    ensures forall s :: s in r ==> s.chat in chats && u in s.chat.members && s.unreadCount == UnreadCount(ms, s.chat.id, u)
    ensures forall i :: 0 <= i < |chats| && u in chats[i].members ==> ChatSummary(chats[i], UnreadCount(ms, chats[i].id, u)) in r
    ensures |r| <= |chats|
  {
    if chats == [] then []
    else
      var rest := ChatsWithUnread(chats[1..], ms, u);
      if u in chats[0].members then [ChatSummary(chats[0], UnreadCount(ms, chats[0].id, u))] + rest else rest
  }

  /** A listed chat shows zero unread exactly when the user has read every
      message of it that someone else sent; the user's own messages never
      count. */
  lemma ListedUnreadZeroIff(chats: seq<Chat>, ms: seq<Message>, u: UserId, s: ChatSummary)
    requires s in ChatsWithUnread(chats, ms, u)
    ensures s.unreadCount == 0 <==> forall i :: 0 <= i < |ms| && ms[i].chat == s.chat.id && ms[i].sender != u ==> u in ms[i].readBy
  {
    UnreadCountZeroIff(ms, s.chat.id, u);
  }

  /** The `getChat` answer: the chat and its history. */
  datatype ChatHistory = ChatHistory(chat: Chat, messages: seq<Message>)

  /** `getChat`: 404 for an unknown chat; otherwise the chat with its
      messages the caller has not deleted for themself, newest first.
      Membership is not checked. */
  function GetChat(chats: seq<Chat>, ms: seq<Message>, chatId: ChatId, u: UserId): (r: Reply<ChatHistory>)
    ensures ChatIndex(chats, chatId).None? <==> r == Err(404, "Chat not found")
    ensures r.Ok? ==> r.code == 200 && r.data.chat == chats[ChatIndex(chats, chatId).value]
  {
    match ChatIndex(chats, chatId)
    case None => Err(404, "Chat not found")
    case Some(i) => Ok(200, ChatHistory(chats[i], Sort(VisibleOthers(ms, chatId, None, u), true)))
  }

  /** The history holds every message of the chat that the caller has not
      deleted for themself, each as often as it is stored, and nothing else,
      newest first. */
  lemma HistoryIsVisibleNewestFirst(chats: seq<Chat>, ms: seq<Message>, chatId: ChatId, u: UserId)
    requires ChatIndex(chats, chatId).Some?
    ensures var h := GetChat(chats, ms, chatId, u).data.messages;
      && Sorted(h, true)
      && (forall x :: x in h <==> x in ms && x.chat == chatId && u !in x.deletedFor)
      && (forall x :: multiset(h)[x] == if x.chat == chatId && u !in x.deletedFor then multiset(ms)[x] else 0)
  {
    var v := VisibleOthers(ms, chatId, None, u);
    VisibleOthersCounts(ms, chatId, None, u);
    SortSorted(v, true);
    var h := Sort(v, true);
    forall x ensures x in h <==> x in v {
      assert x in h <==> x in multiset(h);
      assert x in v <==> x in multiset(v);
    }
  }

  // ----- rename -----

  /** What a handler leaves behind: its answer and the stored chats. */
  datatype Outcome = Outcome(reply: Reply<Chat>, chats: seq<Chat>)

  /** The checks of `rename` in order; `None` when the rename goes ahead. */
  function RenameRefusal(chats: seq<Chat>, chatId: ChatId, name: Option<string>): (f: Option<Refusal>)
    ensures f.None? <==> RenameNameRefusal(name).None? && ChatIndex(chats, chatId).Some?
                         && chats[ChatIndex(chats, chatId).value].isGroup
  {
    if RenameNameRefusal(name).Some? then RenameNameRefusal(name)
    else match ChatIndex(chats, chatId)
      case None => Some(Refusal(404, "Chat not found"))
      case Some(i) => RenameChatRefusal(chats[i])
  }

  /** `rename` as written: the name is saved, then the assignment to the
      undeclared `updatedChat` throws in strict mode and the catch answers
      500. */
  function RenameAsWritten(chats: seq<Chat>, chatId: ChatId, name: Option<string>): (o: Outcome)
    ensures RenameRefusal(chats, chatId, name).Some? ==>
      o == Outcome(Err(RenameRefusal(chats, chatId, name).value.code, RenameRefusal(chats, chatId, name).value.message), chats)
    ensures RenameRefusal(chats, chatId, name).None? ==>
      var i := ChatIndex(chats, chatId).value;
      o == Outcome(Err(500, "Server error"), chats[i := chats[i].(name := name)])
  {
    var f := RenameRefusal(chats, chatId, name);
    if f.Some? then Outcome(Err(f.value.code, f.value.message), chats)
    else
      var i := ChatIndex(chats, chatId).value;
      Outcome(Err(500, "Server error"), chats[i := chats[i].(name := name)])
  }

  /** A successful rename of a group to "team" is reported as a failure
      although the new name is stored. */
  lemma RenameAsWrittenFailsAfterSaving()
    ensures var c := Chat(0, Some("old"), true, [1, 2], Some(1), [1], None, None, None);
      var o := RenameAsWritten([c], 0, Some("team"));
      o.reply == Err(500, "Server error") && o.chats == [c.(name := Some("team"))]
  {
    var c := Chat(0, Some("old"), true, [1, 2], Some(1), [1], None, None, None);
    assert !IsJsSpace("team"[0]);
    assert RenameNameRefusal(Some("team")).None?;
  }

  /** `rename` as intended: the saved chat is the answer. */
  function RenameIntended(chats: seq<Chat>, chatId: ChatId, name: Option<string>): (o: Outcome)
    ensures RenameRefusal(chats, chatId, name).Some? ==>
      o == Outcome(Err(RenameRefusal(chats, chatId, name).value.code, RenameRefusal(chats, chatId, name).value.message), chats)
    ensures RenameRefusal(chats, chatId, name).None? ==>
      var i := ChatIndex(chats, chatId).value;
      o.chats == chats[i := chats[i].(name := name)] && o.reply == Ok(200, o.chats[i])
  {
    var f := RenameRefusal(chats, chatId, name);
    if f.Some? then Outcome(Err(f.value.code, f.value.message), chats)
    else
      var i := ChatIndex(chats, chatId).value;
      var renamed := chats[i].(name := name);
      Outcome(Ok(200, renamed), chats[i := renamed])
  }

  /** The intended rename reports what it did: a failure leaves the chats
      as they were, a success answers with a stored chat carrying the new
      name, and only the renamed chat changes. */
  lemma RenameIntendedReportsSave(chats: seq<Chat>, chatId: ChatId, name: Option<string>)
    ensures var o := RenameIntended(chats, chatId, name);
      && (o.reply.Err? ==> o.chats == chats)
      && (o.reply.Ok? ==>
            && o.reply.data in o.chats && o.reply.data.name == name && o.reply.data.id == chatId
            && |o.chats| == |chats|
            && forall k :: 0 <= k < |chats| && chats[k].id != chatId ==> o.chats[k] == chats[k])
  {
    var o := RenameIntended(chats, chatId, name);
    if o.reply.Ok? {
      var i := ChatIndex(chats, chatId).value;
      assert o.chats[i] == o.reply.data;
    }
  }

  /** `rename`, with the answer the code evidently intends. */
  method Rename(db: Db, chatId: ChatId, name: Option<string>) returns (r: Reply<Chat>)
    requires db.Valid()
    modifies db
    ensures db.Valid()
    ensures r == RenameIntended(old(db.chats), chatId, name).reply
    ensures db.chats == RenameIntended(old(db.chats), chatId, name).chats
    ensures db.users == old(db.users) && db.messages == old(db.messages)
  {
    var f := RenameRefusal(db.chats, chatId, name);
    if f.Some? {
      return Err(f.value.code, f.value.message);
    }
    var i := ChatIndex(db.chats, chatId).value;
    var renamed := db.chats[i].(name := name);
    db.ReplaceChat(i, renamed);
    r := Ok(200, renamed);
  }

  // ----- membership -----

  /** `addUser`: 404 for an unknown chat, then the group rules; an accepted
      user is appended to the members. */
  method AddUser(db: Db, chatId: ChatId, u: UserId) returns (r: Reply<Chat>)
    requires db.Valid()
    modifies db
    ensures db.Valid()
    ensures db.users == old(db.users) && db.messages == old(db.messages)
    ensures ChatIndex(old(db.chats), chatId).None? ==> r == Err(404, "Chat not found") && db.chats == old(db.chats)
    ensures ChatIndex(old(db.chats), chatId).Some? ==>
      var i := ChatIndex(old(db.chats), chatId).value;
      var c := old(db.chats)[i];
      var f := AddUserRefusal(c, u, u in old(db.users));
      && (f.Some? ==> r == Err(f.value.code, f.value.message) && db.chats == old(db.chats))
      && (f.None? ==> r == Ok(200, WithMember(c, u)) && db.chats == old(db.chats)[i := WithMember(c, u)])
  {
    var found := ChatIndex(db.chats, chatId);
    if found.None? {
      return Err(404, "Chat not found");
    }
    var i := found.value;
    var c := db.chats[i];
    var f := AddUserRefusal(c, u, u in db.users);
    if f.Some? {
      return Err(f.value.code, f.value.message);
    }
    AddUserKeepsWellFormed(c, u, u in db.users);
    db.ReplaceChat(i, WithMember(c, u));
    r := Ok(200, WithMember(c, u));
  }

  /** `promote_admin`. */
  method PromoteAdmin(db: Db, chatId: ChatId, requester: UserId, target: UserId) returns (r: Reply<Chat>)
    requires db.Valid()
    modifies db
    ensures db.Valid()
    ensures db.users == old(db.users) && db.messages == old(db.messages)
    ensures ChatIndex(old(db.chats), chatId).None? ==> r == Err(404, "Chat not found") && db.chats == old(db.chats)
    ensures ChatIndex(old(db.chats), chatId).Some? ==>
      var i := ChatIndex(old(db.chats), chatId).value;
      var c := old(db.chats)[i];
      var f := PromoteRefusal(c, requester, target);
      && (f.Some? ==> r == Err(f.value.code, f.value.message) && db.chats == old(db.chats))
      && (f.None? ==> r == Ok(200, WithAdmin(c, target)) && db.chats == old(db.chats)[i := WithAdmin(c, target)])
  {
    var found := ChatIndex(db.chats, chatId);
    if found.None? {
      return Err(404, "Chat not found");
    }
    var i := found.value;
    var c := db.chats[i];
    var f := PromoteRefusal(c, requester, target);
    if f.Some? {
      return Err(f.value.code, f.value.message);
    }
    PromoteKeepsWellFormed(c, requester, target);
    db.ReplaceChat(i, WithAdmin(c, target));
    r := Ok(200, WithAdmin(c, target));
  }

  /** `removeMember`. */
  method RemoveMember(db: Db, chatId: ChatId, requester: UserId, target: UserId) returns (r: Reply<Chat>)
    requires db.Valid()
    modifies db
    ensures db.Valid()
    ensures db.users == old(db.users) && db.messages == old(db.messages)
    ensures ChatIndex(old(db.chats), chatId).None? ==> r == Err(404, "Chat not found") && db.chats == old(db.chats)
    ensures ChatIndex(old(db.chats), chatId).Some? ==>
      var i := ChatIndex(old(db.chats), chatId).value;
      var c := old(db.chats)[i];
      var f := RemoveRefusal(c, requester, target);
      && (f.Some? ==> r == Err(f.value.code, f.value.message) && db.chats == old(db.chats))
      && (f.None? ==> r == Ok(200, WithoutMember(c, target)) && db.chats == old(db.chats)[i := WithoutMember(c, target)])
  {
    var found := ChatIndex(db.chats, chatId);
    if found.None? {
      return Err(404, "Chat not found");
    }
    var i := found.value;
    var c := db.chats[i];
    var f := RemoveRefusal(c, requester, target);
    if f.Some? {
      return Err(f.value.code, f.value.message);
    }
    WithoutMemberKeepsWellFormed(c, target);
    db.ReplaceChat(i, WithoutMember(c, target));
    r := Ok(200, WithoutMember(c, target));
  }

  /** `demoteAdmin`. */
  method DemoteAdmin(db: Db, chatId: ChatId, requester: UserId, target: UserId) returns (r: Reply<Chat>)
    requires db.Valid()
    modifies db
    ensures db.Valid()
    ensures db.users == old(db.users) && db.messages == old(db.messages)
    ensures ChatIndex(old(db.chats), chatId).None? ==> r == Err(404, "Chat not found") && db.chats == old(db.chats)
    ensures ChatIndex(old(db.chats), chatId).Some? ==>
      var i := ChatIndex(old(db.chats), chatId).value;
      var c := old(db.chats)[i];
      var f := DemoteRefusal(c, requester, target);
      && (f.Some? ==> r == Err(f.value.code, f.value.message) && db.chats == old(db.chats))
      && (f.None? ==> r == Ok(200, WithoutAdmin(c, target)) && db.chats == old(db.chats)[i := WithoutAdmin(c, target)])
  {
    var found := ChatIndex(db.chats, chatId);
    if found.None? {
      return Err(404, "Chat not found");
    }
    var i := found.value;
    var c := db.chats[i];
    var f := DemoteRefusal(c, requester, target);
    if f.Some? {
      return Err(f.value.code, f.value.message);
    }
    DemoteKeepsWellFormed(c, requester, target);
    db.ReplaceChat(i, WithoutAdmin(c, target));
    r := Ok(200, WithoutAdmin(c, target));
  }

  /** The two successful answers of `leaveGroup`. */
  datatype Left = GroupDeleted | LeftGroup(chat: Chat)

  /** `leaveGroup`: the caller leaves the members and the admins; a group
      left empty is deleted, together with nothing else. */
  method LeaveGroup(db: Db, chatId: ChatId, u: UserId) returns (r: Reply<Left>)
    requires db.Valid()
    modifies db
    ensures db.Valid()
    ensures db.users == old(db.users) && db.messages == old(db.messages)
    ensures ChatIndex(old(db.chats), chatId).None? ==> r == Err(404, "Chat not found") && db.chats == old(db.chats)
    ensures ChatIndex(old(db.chats), chatId).Some? ==>
      var i := ChatIndex(old(db.chats), chatId).value;
      var c := old(db.chats)[i];
      var c' := WithoutMember(c, u);
      && (!c.isGroup ==> r == Err(400, "Cannot leave a direct chat") && db.chats == old(db.chats))
      && (c.isGroup && c'.members == [] ==> r == Ok(200, GroupDeleted) && db.chats == old(db.chats)[..i] + old(db.chats)[i + 1..])
      && (c.isGroup && c'.members != [] ==> r == Ok(200, LeftGroup(c')) && db.chats == old(db.chats)[i := c'])
  {
    var found := ChatIndex(db.chats, chatId);
    if found.None? {
      return Err(404, "Chat not found");
    }
    var i := found.value;
    var c := db.chats[i];
    var f := LeaveRefusal(c);
    if f.Some? {
      return Err(f.value.code, f.value.message);
    }
    var c' := WithoutMember(c, u);
    if c'.members == [] {
      db.RemoveChatAt(i);
      return Ok(200, GroupDeleted);
    }
    WithoutMemberKeepsWellFormed(c, u);
    db.ReplaceChat(i, c');
    r := Ok(200, LeftGroup(c'));
  }

  /** The last admin leaving leaves a group that nobody may manage any
      more: every promote, remove and demote is then refused with 403. */
  lemma LastAdminLeavingLocksGroup(c: Chat, u: UserId, requester: UserId, target: UserId)
    requires ChatWellFormed(c) && c.isGroup && c.groupAdmins == [u]
    ensures var c' := WithoutMember(c, u);
      && PromoteRefusal(c', requester, target) == Some(Refusal(403, "You are not an admin of this group"))
      && RemoveRefusal(c', requester, target) == Some(Refusal(403, "Only admins can remove members"))
      && DemoteRefusal(c', requester, target) == Some(Refusal(403, "Permission denied"))
  {
    var c' := WithoutMember(c, u);
    assert Without([u], u) == [];
    assert c'.groupAdmins == [];
  }

  /** A member who leaves is gone from a chat that remains, and the chat
      stays well formed; only the last member leaving deletes it. */
  lemma LeaveDeletesOnlyWhenLast(c: Chat, u: UserId)
    requires ChatWellFormed(c) && c.isGroup
    ensures WithoutMember(c, u).members == [] <==> forall v :: v in c.members ==> v == u
    ensures ChatWellFormed(WithoutMember(c, u)) && u !in WithoutMember(c, u).members
  {
    var m := WithoutMember(c, u).members;
    if m != [] {
      assert m[0] in c.members && m[0] != u;
    }
  }
}
