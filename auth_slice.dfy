/** The client's session store: the signed-in user and the flags of the
    sign-in and profile-edit requests. */
module AuthSlice {
  import opened Domain

  class AuthStore {
    var user: Option<User>
    var loading: bool
    var updatingDetails: bool
    var error: Option<string>
    var isLoggedIn: bool

    constructor ()
      ensures user.None? && !loading && !updatingDetails && error.None? && !isLoggedIn
    {
      user := None;
      loading := false;
      updatingDetails := false;
      error := None;
      isLoggedIn := false;
    }

    /** `setError`. */
    method SetError(e: Option<string>)
      modifies this
      ensures error == e
      ensures user == old(user) && loading == old(loading) && updatingDetails == old(updatingDetails) && isLoggedIn == old(isLoggedIn)
    {
      error := e;
    }

    /** `updateUserStatus`: the signed-in user is online exactly when the
        list names them; without a user nothing happens. */
    method UpdateUserStatus(online: seq<UserId>)
      modifies this
      ensures old(user).None? ==> user.None?
      ensures old(user).Some? ==>
        user == Some(old(user).value.(status := if old(user).value.id in online then Online else Offline))
      ensures loading == old(loading) && updatingDetails == old(updatingDetails)
      ensures error == old(error) && isLoggedIn == old(isLoggedIn)
    {
      if user.Some? {
        user := Some(user.value.(status := if user.value.id in online then Online else Offline));
      }
    }

    /** `loginUser`, `registerUser`, `logoutUser` and `getMe` pending: only
        the loading flag. */
    method SessionPending()
      modifies this
      ensures loading
      ensures user == old(user) && updatingDetails == old(updatingDetails) && error == old(error) && isLoggedIn == old(isLoggedIn)
    {
      loading := true;
    }

    /** `loginUser`, `registerUser` and `getMe` fulfilled: signed in as the
        payload. */
    method SignedIn(u: User)
      modifies this
      ensures user == Some(u) && isLoggedIn && !loading && error.None?
      ensures updatingDetails == old(updatingDetails)
    {
      user := Some(u);
      isLoggedIn := true;
      loading := false;
      error := None;
    }

    /** `logoutUser.fulfilled`. */
    method SignedOut()
      modifies this
      ensures user.None? && !isLoggedIn && !loading && error.None?
      ensures updatingDetails == old(updatingDetails)
    {
      user := None;
      isLoggedIn := false;
      loading := false;
      error := None;
    }

    /** `loginUser`, `registerUser` and `logoutUser` rejected: the session
        is left as it was. */
    method SessionRejected(payload: Option<string>)
      modifies this
      ensures error == payload && !loading
      ensures user == old(user) && isLoggedIn == old(isLoggedIn) && updatingDetails == old(updatingDetails)
    {
      error := payload;
      loading := false;
    }

    /** `getMe.rejected`: the only rejection that signs out, though the user
        record stays. */
    method GetMeRejected(payload: Option<string>)
      modifies this
      ensures error == payload && !loading && !isLoggedIn
      ensures user == old(user) && updatingDetails == old(updatingDetails)
    {
      error := payload;
      isLoggedIn := false;
      loading := false;
    }

    /** `updateProfilepic`, `updateBio` and `updateUsername` pending. */
    method DetailsPending()
      modifies this
      ensures updatingDetails
      ensures user == old(user) && loading == old(loading) && error == old(error) && isLoggedIn == old(isLoggedIn)
    {
      updatingDetails := true;
    }

    /** `updateProfilepic`, `updateBio` and `updateUsername` rejected. */
    method DetailsRejected(payload: Option<string>)
      modifies this
      ensures error == payload && !updatingDetails
      ensures user == old(user) && loading == old(loading) && isLoggedIn == old(isLoggedIn)
    {
      error := payload;
      updatingDetails := false;
    }

    /** `updateProfilepic.fulfilled`: only the picture is copied. Without a
        signed-in user the assignment throws and the state stays. */
    method ProfilePicUpdated(profilePic: string) returns (threw: bool)
      modifies this
      ensures threw <==> old(user).None?
      ensures threw ==> user == old(user) && updatingDetails == old(updatingDetails) && error == old(error)
      ensures !threw ==> user == Some(old(user).value.(profilePic := profilePic)) && !updatingDetails && error.None?
      ensures loading == old(loading) && isLoggedIn == old(isLoggedIn)
    {
      if user.None? {
        return true;
      }
      user := Some(user.value.(profilePic := profilePic));
      updatingDetails := false;
      error := None;
      threw := false;
    }

    /** `updateBio.fulfilled`. */
    method BioUpdated(bio: string) returns (threw: bool)
      modifies this
      ensures threw <==> old(user).None?
      ensures threw ==> user == old(user) && updatingDetails == old(updatingDetails) && error == old(error)
      ensures !threw ==> user == Some(old(user).value.(bio := bio)) && !updatingDetails && error.None?
      ensures loading == old(loading) && isLoggedIn == old(isLoggedIn)
    {
      if user.None? {
        return true;
      }
      user := Some(user.value.(bio := bio));
      updatingDetails := false;
      error := None;
      threw := false;
    }

    /** `updateUsername.fulfilled`. */
    method UsernameUpdated(username: string) returns (threw: bool)
      modifies this
      ensures threw <==> old(user).None?
      ensures threw ==> user == old(user) && updatingDetails == old(updatingDetails) && error == old(error)
      ensures !threw ==> user == Some(old(user).value.(username := username)) && !updatingDetails && error.None?
      ensures loading == old(loading) && isLoggedIn == old(isLoggedIn)
    {
      if user.None? {
        return true;
      }
      user := Some(user.value.(username := username));
      updatingDetails := false;
      error := None;
      threw := false;
    }
  }
}
