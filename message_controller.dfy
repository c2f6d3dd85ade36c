/** The message controller: sending a message, deleting it for oneself and
    deleting it for everyone. */
module MessageController {
  import opened Domain
  import opened Events
  import opened Registry
  import opened Database
  import opened Groups
  import opened TimeOrder
  import opened PublicId

  /** The file part of a send request: none, an upload that answered with a
      URL, or an upload that failed (the upload promise rejects). */
  datatype FileInput = NoFile | Uploaded(url: string) | UploadFailed

  /** The checks that run before anything is stored, in the controller's order. */
  function SendRefusal(chats: seq<Chat>, chatId: Option<ChatId>, sender: UserId, text: Option<string>, file: FileInput): (f: Option<Refusal>)
    ensures chatId.None? ==> f == Some(Refusal(400, "Chat ID is required"))
    ensures chatId.Some? && ChatIndex(chats, chatId.value).None? ==> f == Some(Refusal(404, "Chat not found"))
    ensures chatId.Some? && ChatIndex(chats, chatId.value).Some? ==>
      var c := chats[ChatIndex(chats, chatId.value).value];
      && (sender !in c.members ==> f == Some(Refusal(403, "You are not a member of this chat")))
      && (sender in c.members && !Truthy(text) && file.NoFile? ==> f == Some(Refusal(400, "Message text or attachment is required")))
      && (f.None? <==> sender in c.members && (Truthy(text) || !file.NoFile?))
  {
    if chatId.None? then Some(Refusal(400, "Chat ID is required"))
    else match ChatIndex(chats, chatId.value)
      case None => Some(Refusal(404, "Chat not found"))
      case Some(i) =>
        if sender !in chats[i].members then Some(Refusal(403, "You are not a member of this chat"))
        else if !Truthy(text) && file.NoFile? then Some(Refusal(400, "Message text or attachment is required"))
        else None
  }

  /** The `deliveredTo` snapshot: the chat's members, in order, other than
      the sender, that the registry holds a socket for at this moment. */
  function DeliveredSnapshot(members: seq<UserId>, sender: UserId, online: Entries): (r: seq<UserId>)
    ensures forall v :: v in r <==> v in members && v != sender && v in Keys(online)
    ensures sender !in r
    ensures |r| <= |members|
    ensures NoDup(members) ==> NoDup(r)
  {
    if members == [] then []
    else
      var rest := DeliveredSnapshot(members[1..], sender, online);
      assert NoDup(members) ==> NoDup(members[1..]) && members[0] !in members[1..];
      if members[0] != sender && Get(online, members[0]).Some? then [members[0]] + rest else rest
  }

  /** `uploadedUrl ? [uploadedUrl] : []`: an empty URL counts as none. */
  function AttachmentsFor(file: FileInput): (a: seq<string>)
    ensures |a| <= 1
    ensures |a| == 1 <==> file.Uploaded? && file.url != ""
    ensures |a| == 1 ==> a[0] == file.url
  {
    if file.Uploaded? && file.url != "" then [file.url] else []
  }

  /** `createMessage`. A refused request or a failed upload changes nothing.
      Otherwise the message is stored with a fresh id, creation time `now`,
      nobody in `readBy` or `deletedFor`, and the delivery snapshot; it
      becomes the chat's latest message, and every member's room (the
      sender's included) receives it. */
  method CreateMessage(db: Db, online: ConnectionRegistry, sender: UserId, chatId: Option<ChatId>,
                       text: Option<string>, file: FileInput, now: int)
    returns (r: Reply<Message>, events: seq<Event>)
    requires db.Valid() && online.Valid()
    modifies db
    ensures db.Valid()
    ensures db.users == old(db.users)
    ensures SendRefusal(old(db.chats), chatId, sender, text, file).Some? ==>
      var f := SendRefusal(old(db.chats), chatId, sender, text, file).value;
      r == Err(f.code, f.message) && events == []
      && db.chats == old(db.chats) && db.messages == old(db.messages)
    ensures SendRefusal(old(db.chats), chatId, sender, text, file).None? && file.UploadFailed? ==>
      r == Err(500, "Failed to send message") && events == []
      && db.chats == old(db.chats) && db.messages == old(db.messages)
    ensures SendRefusal(old(db.chats), chatId, sender, text, file).None? && !file.UploadFailed? ==>
      var i := ChatIndex(old(db.chats), chatId.value).value;
      var c := old(db.chats)[i];
      var m := Message(old(db.nextId), c.id, sender, text, [], AttachmentsFor(file), [], false,
                       DeliveredSnapshot(c.members, sender, online.entries), now);
      && r == Ok(201, m)
      && db.messages == old(db.messages) + [m]
      && db.chats == old(db.chats)[i := c.(latestMessage := Some(m.id))]
      && events == ToEachMember(c.members, ReceiveMessage(m))
  {
    var refusal := SendRefusal(db.chats, chatId, sender, text, file);
    if refusal.Some? {
      return Err(refusal.value.code, refusal.value.message), [];
    }
    if file.UploadFailed? {
      return Err(500, "Failed to send message"), [];
    }
    var i := ChatIndex(db.chats, chatId.value).value;
    var c := db.chats[i];
    var id := db.NewId();
    var m := Message(id, c.id, sender, text, [], AttachmentsFor(file), [], false,
                     DeliveredSnapshot(c.members, sender, online.entries), now);
    db.AppendMessage(m);
    db.ReplaceChat(i, c.(latestMessage := Some(id)));
    events := ToEachMember(c.members, ReceiveMessage(m));
    r := Ok(201, m);
  }

  /** A stored message is never delivered to its own sender at creation,
      and is delivered to exactly the other members who were online. */
  lemma SnapshotExcludesSender(c: Chat, sender: UserId, online: Entries, v: UserId)
    requires ChatWellFormed(c)
    ensures v in DeliveredSnapshot(c.members, sender, online) <==> v in c.members && v != sender && Get(online, v).Some?
    ensures NoDup(DeliveredSnapshot(c.members, sender, online))
  {
  }

  /** The messages a user still sees in a chat, other than `excluded`. */
  function VisibleOthers(ms: seq<Message>, chatId: ChatId, excluded: Option<MessageId>, u: UserId): (r: seq<Message>)
    ensures forall x :: x in r <==> x in ms && x.chat == chatId && (excluded.None? || x.id != excluded.value) && u !in x.deletedFor
    ensures |r| <= |ms|
  {
    if ms == [] then []
    else
      var rest := VisibleOthers(ms[1..], chatId, excluded, u);
      var m := ms[0];
      if m.chat == chatId && (excluded.None? || m.id != excluded.value) && u !in m.deletedFor then [m] + rest else rest
  }

  /** Each visible message is kept as often as it is stored, and nothing
      else is kept. */
  lemma {:induction false} VisibleOthersCounts(ms: seq<Message>, chatId: ChatId, excluded: Option<MessageId>, u: UserId)
    ensures forall x :: multiset(VisibleOthers(ms, chatId, excluded, u))[x]
                     == if x.chat == chatId && (excluded.None? || x.id != excluded.value) && u !in x.deletedFor then multiset(ms)[x] else 0
    decreases |ms|
  {
    if ms != [] {
      VisibleOthersCounts(ms[1..], chatId, excluded, u);
      assert ms == [ms[0]] + ms[1..];
    }
  }

  /** `find(...).sort({ createdAt: -1 }).limit(1)`: the newest visible other
      message of the chat, or none when there is none. */
  function MostRecentVisible(ms: seq<Message>, chatId: ChatId, excluded: MessageId, u: UserId): Option<Message> {
    var newestFirst := Sort(VisibleOthers(ms, chatId, Some(excluded), u), true);
    if newestFirst == [] then None else Some(newestFirst[0])
  }

  /** The new latest message is a message of the chat, not the deleted one,
      not deleted for this user, and no other such message is newer; there
      is none exactly when no such message exists. */
  lemma MostRecentVisibleIsNewest(ms: seq<Message>, chatId: ChatId, excluded: MessageId, u: UserId)
    ensures var r := MostRecentVisible(ms, chatId, excluded, u);
      && (r.None? <==> forall x :: x in ms ==> !(x.chat == chatId && x.id != excluded && u !in x.deletedFor))
      && (r.Some? ==>
            && r.value in ms && r.value.chat == chatId && r.value.id != excluded && u !in r.value.deletedFor
            && forall x :: x in ms && x.chat == chatId && x.id != excluded && u !in x.deletedFor ==>
                 x.createdAt <= r.value.createdAt)
  {
    var cands := VisibleOthers(ms, chatId, Some(excluded), u);
    var sorted := Sort(cands, true);
    SortSorted(cands, true);
    if sorted != [] {
      InMultiset(sorted, cands, 0);
      forall x | x in ms && x.chat == chatId && x.id != excluded && u !in x.deletedFor
        ensures x.createdAt <= sorted[0].createdAt
      {
        assert x in multiset(cands);
        assert x in multiset(sorted);
        var k :| 0 <= k < |sorted| && sorted[k] == x;
        if k > 0 {
          assert Key(sorted[0], true) <= Key(sorted[k], true);
        }
      }
    } else {
      assert |cands| == 0;
    }
  }

  /** What `newLatestMessage` says: left out of the answer (the message was
      not the latest), `null`, or the new latest message. */
  datatype LatestUpdate = Untouched | Cleared | Replaced(message: Message)

  datatype DeletedForMe = DeletedForMe(messageId: MessageId, userId: UserId, chatId: ChatId, newLatestMessage: LatestUpdate)

  function LatestUpdateOf(next: Option<Message>): LatestUpdate {
    if next.None? then Cleared else Replaced(next.value)
  }

  function IdOf(m: Option<Message>): Option<MessageId> {
    if m.None? then None else Some(m.value.id)
  }

  /** `deleteMessageForMe`. An unknown message is 404. Otherwise the user is
      added to `deletedFor` unless already there. If the message's chat no
      longer exists, reading it throws after that save: 500. If the message
      was the chat's latest, the chat's latest becomes the newest message
      still visible to the user, or none. */
  method DeleteForMe(db: Db, messageId: MessageId, u: UserId) returns (r: Reply<DeletedForMe>)
    requires db.Valid()
    modifies db
    ensures db.Valid()
    ensures db.users == old(db.users)
    ensures MessageIndex(old(db.messages), messageId).None? ==>
      r == Err(404, "Message not found") && db.messages == old(db.messages) && db.chats == old(db.chats)
    ensures MessageIndex(old(db.messages), messageId).Some? ==>
      var i := MessageIndex(old(db.messages), messageId).value;
      var m := old(db.messages)[i];
      && db.messages == old(db.messages)[i := m.(deletedFor := AddToSet(m.deletedFor, u))]
      && (ChatIndex(old(db.chats), m.chat).None? ==> r == Err(500, "Server error") && db.chats == old(db.chats))
      && (ChatIndex(old(db.chats), m.chat).Some? ==>
            var j := ChatIndex(old(db.chats), m.chat).value;
            var c := old(db.chats)[j];
            if c.latestMessage == Some(m.id) then
              var next := MostRecentVisible(db.messages, c.id, m.id, u);
              && db.chats == old(db.chats)[j := c.(latestMessage := IdOf(next))]
              && r == Ok(200, DeletedForMe(messageId, u, c.id, LatestUpdateOf(next)))
            else
              && db.chats == old(db.chats)
              && r == Ok(200, DeletedForMe(messageId, u, c.id, Untouched)))
  {
    var found := MessageIndex(db.messages, messageId);
    if found.None? {
      return Err(404, "Message not found");
    }
    var i := found.value;
    var m := db.messages[i];
    if u !in m.deletedFor {
      db.ReplaceMessage(i, m.(deletedFor := m.deletedFor + [u]));
    } else {
      assert m.(deletedFor := AddToSet(m.deletedFor, u)) == m;
      assert db.messages == db.messages[i := m];
    }
    var chatAt := ChatIndex(db.chats, m.chat);
    if chatAt.None? {
      return Err(500, "Server error");
    }
    var j := chatAt.value;
    var c := db.chats[j];
    if c.latestMessage == Some(m.id) {
      var next := MostRecentVisible(db.messages, c.id, m.id, u);
      db.ReplaceChat(j, c.(latestMessage := IdOf(next)));
      r := Ok(200, DeletedForMe(messageId, u, c.id, LatestUpdateOf(next)));
    } else {
      r := Ok(200, DeletedForMe(messageId, u, c.id, Untouched));
    }
  }

  /** Deleting for oneself twice leaves `deletedFor` as after once. */
  lemma DeleteForMeIdempotent(m: Message, u: UserId)
    ensures var once := m.(deletedFor := AddToSet(m.deletedFor, u));
      once.(deletedFor := AddToSet(once.deletedFor, u)) == once
  {
    AddToSetIdempotent(m.deletedFor, u);
  }

  // ----- delete for everyone -----

  /** ASCII `toLowerCase`. */
  function ToLower(s: string): (r: string)
    ensures |r| == |s|
    ensures forall k :: 0 <= k < |s| ==> r[k] == if 'A' <= s[k] <= 'Z' then (s[k] as int + 32) as char else s[k]
  {
    if s == [] then []
    else [if 'A' <= s[0] <= 'Z' then (s[0] as int + 32) as char else s[0]] + ToLower(s[1..])
  }

  /** `url.split(".").pop()`: the text after the last dot, or all of it. */
  function AfterLastDot(url: string): (tail: string)
    ensures '.' !in tail
  {
    var parts := Split(url, '.');
    parts[|parts| - 1]
  }

  /** `url.split(".").pop().split("?")[0].toLowerCase()`: what follows the
      last dot, up to the first question mark, in lower case. */
  function Extension(url: string): (ext: string)
    ensures '?' !in ext
  {
    var piece := Split(AfterLastDot(url), '?')[0];
    var ext := ToLower(piece);
    assert forall k :: 0 <= k < |ext| ==> ext[k] != '?' by {
      forall k | 0 <= k < |ext| ensures ext[k] != '?' {
        assert piece[k] != '?';
      }
    }
    ext
  }

  datatype ResourceType = Image | Video | Raw

  const VideoExtensions: seq<string> := ["mp4", "webm", "ogg", "mov", "mkv"]
  const ImageExtensions: seq<string> := ["jpg", "jpeg", "png", "gif", "webp", "svg"]

  /** The resource type the storage delete is asked for. */
  function ResourceTypeOf(ext: string): (t: ResourceType)
    ensures t == Video <==> ext in VideoExtensions
    ensures t == Image <==> ext in ImageExtensions
    ensures t == Raw <==> ext !in VideoExtensions && ext !in ImageExtensions
  {
    if ext in VideoExtensions then Video
    else if ext !in ImageExtensions then Raw
    else Image
  }

  /** One storage delete: the public id and the resource type. */
  datatype Destroy = Destroy(publicId: string, resourceType: ResourceType)

  /** The storage delete an attachment URL calls for: none when its public
      id is empty (falsy). */
  function DestroyFor(url: string): (d: seq<Destroy>)
    ensures |d| <= 1
    ensures |d| == 1 <==> ExtractPublicId(Some(url)).value != ""
    ensures |d| == 1 ==> d[0] == Destroy(ExtractPublicId(Some(url)).value, ResourceTypeOf(Extension(url)))
  {
    var id := ExtractPublicId(Some(url)).value;
    if id != "" then [Destroy(id, ResourceTypeOf(Extension(url)))] else []
  }

  /** The storage deletes for a message's attachments, in order. */
  function DestroyPlan(urls: seq<string>): (plan: seq<Destroy>)
    ensures |plan| <= |urls|
  {
    if urls == [] then [] else DestroyPlan(urls[..|urls| - 1]) + DestroyFor(urls[|urls| - 1])
  }

  /** One more attachment adds its own storage delete at the end. */
  lemma DestroyPlanStep(urls: seq<string>, k: nat)
    requires k < |urls|
    ensures DestroyPlan(urls[..k + 1]) == DestroyPlan(urls[..k]) + DestroyFor(urls[k])
  {
    assert urls[..k + 1][..k] == urls[..k];
  }

  /** The plan for two lists of attachments is the two plans in turn. */
  lemma {:induction false} DestroyPlanAppend(a: seq<string>, b: seq<string>)
    ensures DestroyPlan(a + b) == DestroyPlan(a) + DestroyPlan(b)
    decreases |b|
  {
    if b == [] {
      assert a + b == a;
    } else {
      var front := b[..|b| - 1];
      assert (a + b)[..|a + b| - 1] == a + front;
      assert (a + b)[|a + b| - 1] == b[|b| - 1];
      DestroyPlanAppend(a, front);
    }
  }

  /** An attachment stored under the upload folder is always deleted from
      storage, under an id that starts with the folder name. */
  lemma FolderAttachmentDestroyed(url: string)
    requires FindSegment(Split(url, '/'), Folder).Some?
    ensures |DestroyFor(url)| == 1
    ensures var id := DestroyFor(url)[0].publicId; |id| >= |Folder| && id[..|Folder|] == Folder
  {
    FolderPrefixKept(url);
  }

  /** The `for ... of message.attachments` loop: one storage delete per
      attachment whose public id is not empty. A failing delete is caught
      and logged, so nothing the loop computes can stop the tombstone. */
  method PlanDestroys(urls: seq<string>) returns (plan: seq<Destroy>)
    ensures plan == DestroyPlan(urls)
  {
    plan := [];
    for k := 0 to |urls|
      invariant plan == DestroyPlan(urls[..k])
    {
      DestroyPlanStep(urls, k);
      plan := plan + DestroyFor(urls[k]);
    }
    assert urls[..|urls|] == urls;
  }

  datatype DeletedForEveryone = DeletedForEveryone(messageId: MessageId, chatId: ChatId)

  /** `deleteMessageForEveryone`. An unknown message is 404; a caller who is
      not the sender is 403 and nothing changes. Otherwise the attachments'
      storage deletes are issued and the message is tombstoned whatever they
      do. If the message's chat no longer exists, reading its members throws
      after that save: 500 and no emit. Otherwise every member's room hears
      of the deletion. */
  method DeleteForEveryone(db: Db, messageId: MessageId, u: UserId)
    returns (r: Reply<DeletedForEveryone>, destroys: seq<Destroy>, events: seq<Event>)
    requires db.Valid()
    modifies db
    ensures db.Valid()
    ensures db.users == old(db.users) && db.chats == old(db.chats)
    ensures MessageIndex(old(db.messages), messageId).None? ==>
      r == Err(404, "Message not found") && destroys == [] && events == [] && db.messages == old(db.messages)
    ensures MessageIndex(old(db.messages), messageId).Some? ==>
      var i := MessageIndex(old(db.messages), messageId).value;
      var m := old(db.messages)[i];
      if m.sender != u then
        r == Err(403, "Unauthorized") && destroys == [] && events == [] && db.messages == old(db.messages)
      else
        && destroys == DestroyPlan(m.attachments)
        && db.messages == old(db.messages)[i := Tombstone(m)]
        && (ChatIndex(old(db.chats), m.chat).None? ==> r == Err(500, "Server error") && events == [])
        && (ChatIndex(old(db.chats), m.chat).Some? ==>
              var c := old(db.chats)[ChatIndex(old(db.chats), m.chat).value];
              && r == Ok(200, DeletedForEveryone(m.id, m.chat))
              && events == ToEachMember(c.members, MessageDeletedEveryone(m.id, m.chat)))
  {
    destroys, events := [], [];
    var found := MessageIndex(db.messages, messageId);
    if found.None? {
      return Err(404, "Message not found"), [], [];
    }
    var i := found.value;
    var m := db.messages[i];
    if m.sender != u {
      return Err(403, "Unauthorized"), [], [];
    }
    destroys := PlanDestroys(m.attachments);
    db.ReplaceMessage(i, Tombstone(m));
    var chatAt := ChatIndex(db.chats, m.chat);
    if chatAt.None? {
      return Err(500, "Server error"), destroys, [];
    }
    var c := db.chats[chatAt.value];
    events := ToEachMember(c.members, MessageDeletedEveryone(m.id, m.chat));
    r := Ok(200, DeletedForEveryone(m.id, m.chat));
  }

  /** What follows the last dot is the piece the extension is read from. */
  lemma LastPieceAfterDot(base: string, tail: string)
    requires '.' !in tail
    ensures AfterLastDot(base + ['.'] + tail) == tail
  {
    SplitAtSeparator(base, tail, '.');
    SplitPlain(tail, '.');
  }

  /** The extension rule without a query string: case is ignored. */
  lemma ExtensionPlain(base: string, ext: string)
    requires '.' !in ext && '?' !in ext
    ensures Extension(base + "." + ext) == ToLower(ext)
  {
    assert base + "." + ext == base + ['.'] + ext;
    LastPieceAfterDot(base, ext);
    SplitPlain(ext, '?');
  }

  /** A URL ending in `.ext?query` is its base, a dot, and a dot-free tail. */
  lemma QueryUrlShape(base: string, ext: string, query: string)
    requires '.' !in ext && '.' !in query
    ensures base + "." + ext + "?" + query == base + ['.'] + (ext + ['?'] + query)
    ensures '.' !in ext + ['?'] + query
  {
  }

  /** The text before the first question mark. */
  lemma QueryCut(ext: string, query: string)
    requires '?' !in ext
    ensures Split(ext + ['?'] + query, '?')[0] == ext
  {
    SplitAtSeparator(ext, query, '?');
    SplitPlain(ext, '?');
  }

  /** With a dot-free query string, the query string is cut off. */
  lemma ExtensionBeforeQuery(base: string, ext: string, query: string)
    requires '.' !in ext && '?' !in ext && '.' !in query
    ensures Extension(base + "." + ext + "?" + query) == ToLower(ext)
  {
    QueryUrlShape(base, ext, query);
    LastPieceAfterDot(base, ext + ['?'] + query);
    QueryCut(ext, query);
  }

  /** An upper-case video extension still names a video. */
  lemma UpperCaseVideo()
    ensures ResourceTypeOf(Extension("a/b.MP4")) == Video
  {
    ExtensionPlain("a/b", "MP4");
    assert "a/b" + "." + "MP4" == "a/b.MP4";
    assert ToLower("MP4") == "mp4";
  }

  /** A query string after an image extension is ignored. */
  lemma ImageBehindQuery()
    ensures ResourceTypeOf(Extension("a/b.png?v=1")) == Image
  {
    ExtensionBeforeQuery("a/b", "png", "v=1");
    assert "a/b" + "." + "png" + "?" + "v=1" == "a/b.png?v=1";
    assert ToLower("png") == "png";
  }

  /** A query string holding a dot hides the extension: the delete is asked
      for a raw resource although the file is an image. */
  lemma DottedQueryHidesImage()
    ensures ResourceTypeOf(Extension("a/b.png?v=1.2")) == Raw
  {
    ExtensionPlain("a/b.png?v=1", "2");
    assert "a/b.png?v=1" + "." + "2" == "a/b.png?v=1.2";
    assert ToLower("2") == "2";
    assert forall e :: e in VideoExtensions + ImageExtensions ==> |e| >= 3;
  }
}
