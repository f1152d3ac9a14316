/** The authentication state reducer (hooks/useAuth.tsx): a pure function
    from a state record and an action to the next state record. */
module AuthReducer {

  import opened Wrappers
  import opened Backend

  datatype AuthState = AuthState(user: Option<PublicUser>, isAuthenticated: bool, isLoading: bool,
                                 error: Option<string>)

  datatype AuthAction =
    | AuthStart
    | AuthSuccess(payload: PublicUser)
    | AuthError(message: string)
    | Logout
    | ClearError

  /** `initialState`: signed out, idle, no error. */
  function InitialAuth(): AuthState {
    AuthState(None, false, false, None)
  }

  /** `isAuthenticated` says exactly whether a user is signed in. */
  predicate Consistent(s: AuthState) {
    s.isAuthenticated <==> s.user.Some?
  }

  /** `authReducer(state, action)`. */
  function Reduce(s: AuthState, a: AuthAction): (r: AuthState)
    ensures a.AuthStart? ==> (r.user == s.user && r.isAuthenticated == s.isAuthenticated &&
      r.isLoading && r.error.None?)
    ensures a.AuthSuccess? ==> r.user == Some(a.payload) && r.isAuthenticated && !r.isLoading && r.error.None?
    ensures a.AuthError? ==> r.user.None? && !r.isAuthenticated && !r.isLoading && r.error == Some(a.message)
    ensures a.Logout? ==> r == InitialAuth()
    ensures a.ClearError? ==> r == s.(error := None)
  {
    match a
    case AuthStart => s.(isLoading := true, error := None)
    case AuthSuccess(u) => s.(user := Some(u), isAuthenticated := true, isLoading := false, error := None)
    case AuthError(m) => s.(user := None, isAuthenticated := false, isLoading := false, error := Some(m))
    case Logout => s.(user := None, isAuthenticated := false, isLoading := false, error := None)
    case ClearError => s.(error := None)
  }

  /** The state after dispatching `actions` in order. */
  function Run(s: AuthState, actions: seq<AuthAction>): AuthState
    decreases |actions|
  {
    if actions == [] then s else Run(Reduce(s, actions[0]), actions[1..])
  }

  /** Every action keeps `isAuthenticated` in step with `user`. */
  lemma ReducePreservesConsistent(s: AuthState, a: AuthAction)
    requires Consistent(s)
    ensures Consistent(Reduce(s, a))
  {
  }

  /** Every state reachable from `initialState` is consistent. */
  lemma {:induction false} RunConsistent(s: AuthState, actions: seq<AuthAction>)
    requires Consistent(s)
    ensures Consistent(Run(s, actions))
    decreases |actions|
  {
    if actions != [] {
      ReducePreservesConsistent(s, actions[0]);
      RunConsistent(Reduce(s, actions[0]), actions[1..]);
    }
  }

  lemma ReachableConsistent(actions: seq<AuthAction>)
    ensures Consistent(Run(InitialAuth(), actions))
  {
    RunConsistent(InitialAuth(), actions);
  }

  /** Logging out forgets everything before it, so a second logout changes nothing. */
  lemma LogoutIdempotent(s: AuthState)
    ensures Reduce(Reduce(s, Logout), Logout) == Reduce(s, Logout) == InitialAuth()
  {
  }

  /** Whatever was dispatched before, a trailing logout lands on `initialState`. */
  lemma {:induction false} LogoutResets(s: AuthState, actions: seq<AuthAction>)
    ensures Run(s, actions + [Logout]) == InitialAuth()
    decreases |actions|
  {
    if actions == [] {
      assert actions + [Logout] == [Logout];
    } else {
      assert (actions + [Logout])[1..] == actions[1..] + [Logout];
      LogoutResets(Reduce(s, actions[0]), actions[1..]);
    }
  }
}
