/** The chat and group rules of the chat controller, one chat at a time:
    which requests are refused (with the status code and message the
    controller answers) and what an accepted request does to the chat. */
module Groups {
  import opened Domain

  /** A refused request: the HTTP status and the `message` field. */
  datatype Refusal = Refusal(code: nat, message: string)

  /** What every stored chat satisfies: no member twice, every admin a
      member, and a direct chat has exactly two different members and no
      admins. */
  predicate ChatWellFormed(c: Chat) {
    && NoDup(c.members)
    && (forall a :: a in c.groupAdmins ==> a in c.members)
    && (!c.isGroup ==> |c.members| == 2 && c.members[0] != c.members[1] && c.groupAdmins == [])
  }

  /** JavaScript truthiness of an optional string: present and not empty. */
  predicate Truthy(s: Option<string>) {
    s.Some? && s.value != ""
  }

  /** The fields of a create-chat request body. An absent or non-array
      `members` or `groupAdmins` is `None`. */
  datatype CreateRequest = CreateRequest(
    name: Option<string>,
    isGroup: bool,
    members: Option<seq<UserId>>,
    groupAdmins: Option<seq<UserId>>,
    description: Option<string>)

  /** `UserModel.find({ _id: { $in: members } })`: the distinct requested ids
      that name a user. */
  function ExistingUsers(members: seq<UserId>, users: set<UserId>): set<UserId> {
    set x | x in members && x in users
  }

  /** The lookup finds as many users as there are requested ids exactly when
      no id is requested twice and every id names a user: the length test
      refuses duplicates as well as unknown ids. */
  lemma {:induction false} ExistingUsersCountIff(members: seq<UserId>, users: set<UserId>)
    ensures |ExistingUsers(members, users)| == |members| <==> NoDup(members) && forall x :: x in members ==> x in users
  {
    if members == [] {
      assert ExistingUsers(members, users) == {};
    } else {
      var rest := members[1..];
      var x := members[0];
      ExistingUsersCountIff(rest, users);
      var er := ExistingUsers(rest, users);
      assert ExistingUsers(members, users) == er + (if x in users then {x} else {});
      CardinalityAtMost(rest, users);
      assert NoDup(members) <==> NoDup(rest) && x !in rest;
      if x in users && x in rest {
        assert x in er;
      }
    }
  }

  lemma {:induction false} CardinalityAtMost(members: seq<UserId>, users: set<UserId>)
    ensures |ExistingUsers(members, users)| <= |members|
  {
    if members != [] {
      CardinalityAtMost(members[1..], users);
      var x := members[0];
      assert ExistingUsers(members, users) == ExistingUsers(members[1..], users) + (if x in users then {x} else {});
    }
  }

  /** `groupAdmins.every(adminId => members.includes(adminId))`. */
  predicate AdminsAreMembers(admins: seq<UserId>, members: seq<UserId>) {
    forall a :: a in admins ==> a in members
  }

  /** The validation of a group request, in the controller's order. */
  function GroupRefusal(req: CreateRequest, users: set<UserId>): (f: Option<Refusal>)
    requires req.isGroup
    ensures f.None? <==>
      && Truthy(req.name) && req.members.Some? && req.groupAdmins.Some?
      && |req.members.value| >= 2
      && NoDup(req.members.value) && (forall x :: x in req.members.value ==> x in users)
      && AdminsAreMembers(req.groupAdmins.value, req.members.value)
  {
    ExistingUsersCountIff(if req.members.Some? then req.members.value else [], users);
    if !Truthy(req.name) || req.members.None? || req.groupAdmins.None? || |req.members.value| < 2 then
      Some(Refusal(400, "Invalid group chat data"))
    else if |ExistingUsers(req.members.value, users)| != |req.members.value| then
      Some(Refusal(400, "One or more user IDs are invalid"))
    else if !AdminsAreMembers(req.groupAdmins.value, req.members.value) then
      Some(Refusal(400, "All group admins must also be members of the chat"))
    else None
  }

  /** The validation of a direct-chat request, in the controller's order. */
  function DirectRefusal(req: CreateRequest, users: set<UserId>): (f: Option<Refusal>)
    requires !req.isGroup
    ensures f.None? <==>
      && req.members.Some? && |req.members.value| == 2
      && req.members.value[0] != req.members.value[1]
      && req.members.value[0] in users && req.members.value[1] in users
  {
    ExistingUsersCountIff(if req.members.Some? then req.members.value else [], users);
    if req.members.None? || |req.members.value| != 2 || req.members.value[0] == req.members.value[1] then
      Some(Refusal(400, "Invalid chat data"))
    else if |ExistingUsers(req.members.value, users)| != |req.members.value| then
      Some(Refusal(400, "One or more user IDs are invalid"))
    else None
  }

  /** The group document `chatModel.create` stores. */
  function NewGroup(id: ChatId, req: CreateRequest, creator: UserId): (c: Chat)
    requires req.isGroup && req.members.Some? && req.groupAdmins.Some?
    ensures c.id == id && c.isGroup && c.createdBy == Some(creator)
    ensures c.members == req.members.value && c.groupAdmins == req.groupAdmins.value
    ensures c.latestMessage.None?
  {
    Chat(id, req.name, true, req.members.value, Some(creator), req.groupAdmins.value, None, req.description, None)
  }

  /** The direct-chat document: only the flag and the two members are given. */
  function NewDirect(id: ChatId, members: seq<UserId>): (c: Chat)
    ensures c.id == id && !c.isGroup && c.members == members && c.groupAdmins == []
    ensures c.createdBy.None? && c.latestMessage.None? && c.name.None?
  {
    Chat(id, None, false, members, None, [], None, None, None)
  }

  /** A group the validation lets through is well formed. */
  lemma AcceptedGroupWellFormed(id: ChatId, req: CreateRequest, creator: UserId, users: set<UserId>)
    requires req.isGroup && GroupRefusal(req, users).None?
    ensures ChatWellFormed(NewGroup(id, req, creator))
  {
  }

  /** A direct chat the validation lets through is well formed. */
  lemma AcceptedDirectWellFormed(id: ChatId, req: CreateRequest, users: set<UserId>)
    requires !req.isGroup && DirectRefusal(req, users).None?
    ensures ChatWellFormed(NewDirect(id, req.members.value))
  {
  }

  /** The `$all`/`$size: 2` lookup: a direct chat whose two members include
      both requested ids. */
  predicate CoversPair(c: Chat, pair: seq<UserId>) {
    !c.isGroup && |c.members| == 2 && forall x :: x in pair ==> x in c.members
  }

  // ----- addUser -----

  function AddUserRefusal(c: Chat, u: UserId, userExists: bool): (f: Option<Refusal>)
    ensures f.None? <==> c.isGroup && u !in c.members && userExists
  {
    if !c.isGroup then Some(Refusal(400, "Cannot add users to a direct chat"))
    else if u in c.members then Some(Refusal(400, "User already in the group"))
    else if !userExists then Some(Refusal(404, "User not found"))
    else None
  }

  /** `chat.members.push(userId)`. */
  function WithMember(c: Chat, u: UserId): (r: Chat)
    ensures r.members == c.members + [u]
    ensures r.(members := c.members) == c
  {
    c.(members := c.members + [u])
  }

  /** An accepted add keeps the chat well formed: exactly the new id joins,
      admins are unchanged. */
  lemma AddUserKeepsWellFormed(c: Chat, u: UserId, userExists: bool)
    requires ChatWellFormed(c) && AddUserRefusal(c, u, userExists).None?
    ensures ChatWellFormed(WithMember(c, u))
    ensures forall v :: v in WithMember(c, u).members <==> v in c.members || v == u
  {
    AddToSetIsPush(c.members, u);
  }

  lemma AddToSetIsPush(s: seq<UserId>, u: UserId)
    requires u !in s
    ensures AddToSet(s, u) == s + [u]
  {
  }

  // ----- promote_admin -----

  function PromoteRefusal(c: Chat, requester: UserId, target: UserId): (f: Option<Refusal>)
    ensures f.None? <==> c.isGroup && requester in c.groupAdmins && target in c.members && target !in c.groupAdmins
    ensures f.Some? && requester !in c.groupAdmins && c.isGroup ==> f.value.code == 403
  {
    if !c.isGroup then Some(Refusal(400, "Cannot promote user in a direct chat"))
    else if requester !in c.groupAdmins then Some(Refusal(403, "You are not an admin of this group"))
    else if target !in c.members then Some(Refusal(400, "User is not a member of this group"))
    else if target in c.groupAdmins then Some(Refusal(400, "User is already an admin"))
    else None
  }

  /** `chat.groupAdmins.push(userId)`. */
  function WithAdmin(c: Chat, u: UserId): (r: Chat)
    ensures r.groupAdmins == c.groupAdmins + [u]
    ensures r.(groupAdmins := c.groupAdmins) == c
  {
    c.(groupAdmins := c.groupAdmins + [u])
  }

  lemma PromoteKeepsWellFormed(c: Chat, requester: UserId, target: UserId)
    requires ChatWellFormed(c) && PromoteRefusal(c, requester, target).None?
    ensures ChatWellFormed(WithAdmin(c, target))
    ensures target in WithAdmin(c, target).groupAdmins && WithAdmin(c, target).members == c.members
  {
  }

  // ----- removeMember -----

  function RemoveRefusal(c: Chat, requester: UserId, target: UserId): (f: Option<Refusal>)
    ensures f.None? <==> c.isGroup && requester in c.groupAdmins && target in c.members
  {
    if !c.isGroup then Some(Refusal(400, "Not a group chat"))
    else if requester !in c.groupAdmins then Some(Refusal(403, "Only admins can remove members"))
    else if target !in c.members then Some(Refusal(400, "User not a group member"))
    else None
  }

  /** The two `filter` reassignments: the id leaves the members and the
      admins. */
  function WithoutMember(c: Chat, u: UserId): (r: Chat)
    ensures forall v :: v in r.members <==> v in c.members && v != u
    ensures forall v :: v in r.groupAdmins <==> v in c.groupAdmins && v != u
    ensures r.(members := c.members, groupAdmins := c.groupAdmins) == c
  {
    c.(members := Without(c.members, u), groupAdmins := Without(c.groupAdmins, u))
  }

  lemma WithoutMemberKeepsWellFormed(c: Chat, u: UserId)
    requires ChatWellFormed(c) && c.isGroup
    ensures ChatWellFormed(WithoutMember(c, u))
    ensures u !in WithoutMember(c, u).members && u !in WithoutMember(c, u).groupAdmins
  {
  }

  /** With distinct members, removing a member shortens the list by one. */
  lemma {:induction false} WithoutMemberShortensByOne(s: seq<UserId>, u: UserId)
    requires NoDup(s) && u in s
    ensures |Without(s, u)| == |s| - 1
  {
    if s[0] == u {
      assert u !in s[1..];
    } else {
      assert NoDup(s[1..]);
      WithoutMemberShortensByOne(s[1..], u);
    }
  }

  // ----- demoteAdmin -----

  function DemoteRefusal(c: Chat, requester: UserId, target: UserId): (f: Option<Refusal>)
    ensures f.None? <==> c.isGroup && requester in c.groupAdmins && target in c.groupAdmins
  {
    if !c.isGroup then Some(Refusal(400, "Not a group chat"))
    else if requester !in c.groupAdmins then Some(Refusal(403, "Permission denied"))
    else if target !in c.groupAdmins then Some(Refusal(400, "User is not an admin"))
    else None
  }

  /** `groupAdmins.filter(...)`: the member stays a member. */
  function WithoutAdmin(c: Chat, u: UserId): (r: Chat)
    ensures forall v :: v in r.groupAdmins <==> v in c.groupAdmins && v != u
    ensures r.(groupAdmins := c.groupAdmins) == c
  {
    c.(groupAdmins := Without(c.groupAdmins, u))
  }

  lemma DemoteKeepsWellFormed(c: Chat, requester: UserId, target: UserId)
    requires ChatWellFormed(c) && DemoteRefusal(c, requester, target).None?
    ensures ChatWellFormed(WithoutAdmin(c, target))
    ensures target in WithoutAdmin(c, target).members && target !in WithoutAdmin(c, target).groupAdmins
  {
  }

  /** Promoting a member and then demoting it gives the admins back. */
  lemma {:induction false} DemoteUndoesPromote(c: Chat, requester: UserId, target: UserId)
    requires PromoteRefusal(c, requester, target).None?
    ensures WithoutAdmin(WithAdmin(c, target), target) == c
  {
    WithoutAppended(c.groupAdmins, target);
  }

  lemma {:induction false} WithoutAppended(s: seq<UserId>, u: UserId)
    requires u !in s
    ensures Without(s + [u], u) == s
  {
    if s != [] {
      assert (s + [u])[1..] == s[1..] + [u];
      WithoutAppended(s[1..], u);
    }
  }

  /** Adding a user and then removing it gives the chat back. */
  lemma RemoveUndoesAdd(c: Chat, u: UserId, userExists: bool)
    requires ChatWellFormed(c) && AddUserRefusal(c, u, userExists).None?
    ensures WithoutMember(WithMember(c, u), u) == c
  {
    WithoutAppended(c.members, u);
  }

  // ----- leaveGroup -----

  function LeaveRefusal(c: Chat): (f: Option<Refusal>)
    ensures f.None? <==> c.isGroup
  {
    if !c.isGroup then Some(Refusal(400, "Cannot leave a direct chat")) else None
  }

  // ----- rename -----

  /** The characters `String.prototype.trim` removes: white space and line
      terminators. */
  predicate IsJsSpace(ch: char) {
    || ch == '\t' || ch == '\n' || ch == '\U{000B}' || ch == '\U{000C}' || ch == '\r' || ch == ' '
    || ch == '\U{00A0}' || ch == '\U{1680}' || ('\U{2000}' <= ch <= '\U{200A}')
    || ch == '\U{2028}' || ch == '\U{2029}' || ch == '\U{202F}' || ch == '\U{205F}'
    || ch == '\U{3000}' || ch == '\U{FEFF}'
  }

  /** `!name || name.trim() === ""`. */
  function RenameNameRefusal(name: Option<string>): (f: Option<Refusal>)
    ensures f.None? <==> name.Some? && exists k :: 0 <= k < |name.value| && !IsJsSpace(name.value[k])
  {
    if name.None? || forall k :: 0 <= k < |name.value| ==> IsJsSpace(name.value[k]) then
      Some(Refusal(400, "New name is required"))
    else None
  }

  function RenameChatRefusal(c: Chat): (f: Option<Refusal>)
    ensures f.None? <==> c.isGroup
  {
    if !c.isGroup then Some(Refusal(400, "Cannot rename direct chat")) else None
  }
}
