/**
 * The `auth` store slice (src/store/slices/authSlice.ts): the signed-in
 * session, the user's profile, a loading flag and an error message.
 */
module AuthSlice {
  import opened Wrappers

  /** The role column of `profiles`. */
  datatype Role = User | Admin

  /** A `profiles` row (src/types/database.types.ts). */
  datatype Profile = Profile(
    id: string, email: Option<string>, fullName: Option<string>, role: Role,
    department: Option<string>, parentId: Option<string>, createdAt: string, updatedAt: string)

  /** The authentication session, of which only the signed-in user and its token are modelled. */
  datatype Session = Session(userId: string, accessToken: string)

  /** The slice's fields as one value. */
  datatype AuthState = AuthState(session: Option<Session>, profile: Option<Profile>, loading: bool, error: Option<string>)

  /** What `logout` leaves: no session, no profile, no error, and the loading flag as it was. */
  function LoggedOut(s: AuthState): (r: AuthState)
    ensures r.session == None && r.profile == None && r.error == None
    ensures r.loading == s.loading
  {
    s.(session := None, profile := None, error := None)
  }

  /** Logging out twice is logging out once. */
  lemma LogoutIdempotent(s: AuthState)
    ensures LoggedOut(LoggedOut(s)) == LoggedOut(s)
  {
  }

  /** Logging out forgets whatever was signed in: two states that differ only there log out alike. */
  lemma LogoutForgetsSession(s: AuthState, t: AuthState)
    requires s.loading == t.loading
    ensures LoggedOut(s) == LoggedOut(t)
  {
  }

  /** The slice state, changed in place by the reducers. */
  class AuthStore {
    var session: Option<Session>
    var profile: Option<Profile>
    var loading: bool
    var error: Option<string>

    /** The current fields as one value. */
    function State(): AuthState
      reads this
    {
      AuthState(session, profile, loading, error)
    }

    /** `initialState`: signed out, loading, no error. */
    constructor ()
      ensures State() == AuthState(None, None, true, None)
    {
      session := None;
      profile := None;
      loading := true;
      error := None;
    }

    /** `setSession`. */
    method SetSession(value: Option<Session>)
      modifies this
      ensures State() == old(State()).(session := value)
    {
      session := value;
    }

    /** `setProfile`. */
    method SetProfile(value: Option<Profile>)
      modifies this
      ensures State() == old(State()).(profile := value)
    {
      profile := value;
    }

    /** `setLoading`. */
    method SetLoading(value: bool)
      modifies this
      ensures State() == old(State()).(loading := value)
    {
      loading := value;
    }

    /** `setError`. */
    method SetError(value: Option<string>)
      modifies this
      ensures State() == old(State()).(error := value)
    {
      error := value;
    }

    /** `logout`: the three fields are cleared one by one. */
    method Logout()
      modifies this
      ensures State() == LoggedOut(old(State()))
    {
      session := None;
      profile := None;
      error := None;
    }
  }
}
