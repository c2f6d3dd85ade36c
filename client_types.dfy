/** Record shapes of the client store: chats arrive from the server with
    their members and latest message filled in, and the client adds an
    unread count and, for a direct chat, the other participant. */
module ClientTypes {
  import opened Domain

  /** A chat in the client store. `unreadCount` is absent on a chat that
      came in through a socket event rather than the chat list. */
  datatype ChatView = ChatView(
    id: ChatId,
    name: Option<string>,
    isGroup: bool,
    members: seq<User>,
    groupAdmins: seq<User>,
    latestMessage: Option<Message>,
    unreadCount: Option<nat>,
    otherUser: Option<User>)

  /** `chat.unreadCount || 0`. */
  function UnreadOrZero(c: ChatView): nat {
    if c.unreadCount.None? then 0 else c.unreadCount.value
  }

  /** The `updates` of an `Update-user` event: each profile edit sends one
      of the first three fields, a closing connection sends `lastSeen`. An
      absent field is `None`. */
  datatype UserPatch = UserPatch(
    username: Option<string>,
    profilePic: Option<string>,
    bio: Option<string>,
    lastSeen: Option<int>)

  /** `{ ...user, ...updates }`: present fields win, the rest is kept. */
  function ApplyPatch(u: User, p: UserPatch): (r: User)
    ensures r.id == u.id && r.email == u.email && r.status == u.status
    ensures r.username == (if p.username.Some? then p.username.value else u.username)
    ensures r.profilePic == (if p.profilePic.Some? then p.profilePic.value else u.profilePic)
    ensures r.bio == (if p.bio.Some? then p.bio.value else u.bio)
    ensures r.lastSeen == (if p.lastSeen.Some? then p.lastSeen.value else u.lastSeen)
  {
    u.(username := if p.username.Some? then p.username.value else u.username,
       profilePic := if p.profilePic.Some? then p.profilePic.value else u.profilePic,
       bio := if p.bio.Some? then p.bio.value else u.bio,
       lastSeen := if p.lastSeen.Some? then p.lastSeen.value else u.lastSeen)
  }

  /** The `updates` of the disconnect notice, `{ lastSeen }`. A `lastSeen`
      that is `undefined` (the user was not found) is dropped when the
      event is serialised, so the client receives no field at all. */
  function LastSeenPatch(lastSeen: Option<int>): UserPatch {
    UserPatch(None, None, None, lastSeen)
  }

  /** The disconnect notice sets the last-seen time and nothing else of the
      user; one without a time changes nothing. */
  lemma LastSeenPatchSetsOnlyLastSeen(u: User, t: Option<int>)
    ensures t.Some? ==> ApplyPatch(u, LastSeenPatch(t)) == u.(lastSeen := t.value)
    ensures t.None? ==> ApplyPatch(u, LastSeenPatch(t)) == u
  {
  }

  /** Applying the same update twice is applying it once. */
  lemma ApplyPatchIdempotent(u: User, p: UserPatch)
    ensures ApplyPatch(ApplyPatch(u, p), p) == ApplyPatch(u, p)
  {
  }

  predicate UniqueUserIds(s: seq<User>) {
    forall i, j :: 0 <= i < j < |s| ==> s[i].id != s[j].id
  }
}
