/** `getOtherUser`: the other participant of a direct chat. */
module OtherUser {
  import opened Domain
  import opened ClientTypes

  /** `members.find(member => member._id !== currentUserId)`, as a position. */
  function FirstOtherIndex(members: seq<User>, me: UserId): (r: Option<nat>)
    ensures r.Some? ==> r.value < |members| && members[r.value].id != me
    ensures r.Some? ==> forall k :: 0 <= k < r.value ==> members[k].id == me
    ensures r.None? ==> forall k :: 0 <= k < |members| ==> members[k].id == me
  {
    if members == [] then None
    else if members[0].id != me then Some(0)
    else match FirstOtherIndex(members[1..], me)
      case None => None
      case Some(i) => Some(i + 1)
  }

  /** No chat, or a group, has no other user; otherwise it is the first
      member whose id is not the current user's, or none if every member is
      the current user. An absent member list behaves as an empty one. */
  function GetOtherUser(chat: Option<ChatView>, me: UserId): (r: Option<User>)
    ensures chat.None? || chat.value.isGroup ==> r.None?
    ensures chat.Some? && !chat.value.isGroup ==>
      (r.None? <==> forall k :: 0 <= k < |chat.value.members| ==> chat.value.members[k].id == me)
    ensures r.Some? ==> r.value in chat.value.members && r.value.id != me
    ensures r.Some? ==> exists k :: 0 <= k < |chat.value.members| && chat.value.members[k] == r.value
                          && forall j :: 0 <= j < k ==> chat.value.members[j].id == me
  {
    if chat.None? || chat.value.isGroup then None
    else match FirstOtherIndex(chat.value.members, me)
      case None => None
      case Some(i) => Some(chat.value.members[i])
  }

  /** In a direct chat of two different users, each sees the other. */
  lemma DirectChatPartners(c: ChatView, a: User, b: User)
    requires !c.isGroup && c.members == [a, b] && a.id != b.id
    ensures GetOtherUser(Some(c), a.id) == Some(b)
    ensures GetOtherUser(Some(c), b.id) == Some(a)
  {
    assert FirstOtherIndex(c.members, a.id) == Some(1) by {
      assert FirstOtherIndex(c.members[1..], a.id) == Some(0);
    }
  }
}
