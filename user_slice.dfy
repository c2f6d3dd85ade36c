/** The client's user directory: the list of all users and its request flags. */
module UserSlice {
  import opened Domain

  class UserList {
    var list: seq<User>
    var loading: bool
    var error: Option<string>

    constructor ()
      ensures list == [] && !loading && error.None?
    {
      list := [];
      loading := false;
      error := None;
    }

    /** `clearUserList`. */
    method ClearUserList()
      modifies this
      ensures list == [] && !loading && error.None?
    {
      list := [];
      loading := false;
      error := None;
    }

    /** `fetchAllUsers.pending`: the list stays. */
    method FetchPending()
      modifies this
      ensures loading && error.None? && list == old(list)
    {
      loading := true;
      error := None;
    }

    /** `fetchAllUsers.fulfilled`: the list is the payload; the error stays. */
    method FetchFulfilled(payload: seq<User>)
      modifies this
      ensures !loading && list == payload && error == old(error)
    {
      loading := false;
      list := payload;
    }

    /** `fetchAllUsers.rejected`: the list stays. */
    method FetchRejected(payload: Option<string>)
      modifies this
      ensures !loading && error == payload && list == old(list)
    {
      loading := false;
      error := payload;
    }
  }
}
