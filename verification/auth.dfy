/** Client authentication state (src/contexts/AuthContext.tsx): the
    `authReducer` state machine, the mapping of identity-provider users, and
    the sequences of actions the provider dispatches.  Every call to the
    identity provider or the sign-out endpoint becomes an outcome argument;
    the clock is an argument too. */
module Auth {
  import opened Common
  import opened Text

  datatype User = User(id: Str, email: Str, createdAt: Str, lastSignInAt: Option<Str>)

  datatype AuthState = AuthState(user: Option<User>, loading: bool, error: Option<Str>)

  datatype Action =
    | Login(user: User)
    | Logout
    | Loading(loading: bool)
    | Failure(message: Option<Str>)   // `ERROR`
    | Unknown

  /** `initialState`: no user, loading, no error. */
  const InitialState: AuthState := AuthState(None, true, None)

  /** `authReducer` */
  function Reduce(s: AuthState, a: Action): (r: AuthState)
    ensures a.Login? ==> r == AuthState(Some(a.user), false, None)
    ensures a.Logout? ==> r == AuthState(None, false, None)
    ensures a.Loading? ==> r.loading == a.loading && r.user == s.user && r.error == s.error
    ensures a.Failure? ==> r.error == a.message && !r.loading && r.user == s.user
    ensures a.Unknown? ==> r == s
  {
    match a
    case Login(u) => s.(user := Some(u), loading := false, error := None)
    case Logout => s.(user := None, loading := false, error := None)
    case Loading(b) => s.(loading := b)
    case Failure(m) => s.(error := m, loading := false)
    case Unknown => s
  }

  /** Several dispatches in order. */
  function ReduceAll(s: AuthState, actions: seq<Action>): AuthState
    decreases |actions|
  {
    if actions == [] then s else ReduceAll(Reduce(s, actions[0]), actions[1..])
  }

  lemma {:induction false} ReduceAllAppend(s: AuthState, a: seq<Action>, b: seq<Action>)
    ensures ReduceAll(s, a + b) == ReduceAll(ReduceAll(s, a), b)
    decreases |a|
  {
    if a != [] {
      assert (a + b)[0] == a[0] && (a + b)[1..] == a[1..] + b;
      ReduceAllAppend(Reduce(s, a[0]), a[1..], b);
    } else {
      assert a + b == b;
    }
  }

  /** Once a `LOGOUT` has been dispatched, `ERROR` and `LOADING` actions
      cannot bring a user back: only `LOGIN` can. */
  lemma {:induction false} NoUserWithoutLogin(s: AuthState, actions: seq<Action>)
    requires s.user.None?
    requires forall i :: 0 <= i < |actions| ==> !actions[i].Login?
    ensures ReduceAll(s, actions).user.None?
    decreases |actions|
  {
    if actions != [] {
      NoUserWithoutLogin(Reduce(s, actions[0]), actions[1..]);
    }
  }

  /** An `ERROR` followed by `LOGOUT`, the pair the catch blocks dispatch,
      leaves no trace of the error. */
  lemma FailureThenLogoutForgetsError(s: AuthState, message: Option<Str>)
    ensures ReduceAll(s, [Failure(message), Logout]) == AuthState(None, false, None)
  {
    var acts := [Failure(message), Logout];
    assert acts[1..] == [Logout] && [Logout][1..] == [];
    var t := Reduce(s, Failure(message));
    assert ReduceAll(s, acts) == ReduceAll(t, [Logout]);
    assert ReduceAll(t, [Logout]) == ReduceAll(Reduce(t, Logout), []);
  }

  // ================================================================ users

  /** The provider's user record: optional fields may be absent or empty. */
  datatype ProviderUser = ProviderUser(id: Str, email: Option<Str>, createdAt: Option<Str>, lastSignInAt: Option<Str>)

  /** `mapSupabaseUser`; `nowIso` is `new Date().toISOString()`. */
  function MapUser(u: ProviderUser, nowIso: Str): (r: User)
    ensures r.id == u.id
    ensures r.email == (if u.email.Some? then u.email.value else [])
    ensures r.createdAt == OrElse(u.createdAt, nowIso)
    ensures r.lastSignInAt.Some? <==> u.lastSignInAt.Some? && u.lastSignInAt.value != []
    ensures r.lastSignInAt.Some? ==> r.lastSignInAt == u.lastSignInAt
  {
    User(u.id, OrElse(u.email, []), OrElse(u.createdAt, nowIso),
         if u.lastSignInAt.Some? && u.lastSignInAt.value != [] then u.lastSignInAt else None)
  }

  // ================================================================ session expiry

  /** A session is refreshed when it expires in less than this many seconds. */
  const RefreshMargin: int := 600

  /** `timeToExpire < 600 || timeToExpire <= 0`, with
      `timeToExpire = (expires_at || 0) - Math.floor(nowMs / 1000)`. */
  predicate NeedsRefresh(expiresAt: Option<int>, nowMs: nat) {
    var expires := if expiresAt.Some? then expiresAt.value else 0;
    var timeToExpire := expires - nowMs / 1000;
    timeToExpire < RefreshMargin || timeToExpire <= 0
  }

  /** The second disjunct adds nothing: a refresh is attempted exactly when
      fewer than 600 whole seconds remain, and always for a session without
      an expiry time. */
  lemma NeedsRefreshExactly(expiresAt: Option<int>, nowMs: nat)
    ensures NeedsRefresh(expiresAt, nowMs) <==>
            (if expiresAt.Some? then expiresAt.value else 0) - nowMs / 1000 < RefreshMargin
    ensures expiresAt.None? ==> NeedsRefresh(expiresAt, nowMs)
  {
  }

  /** A session due for refresh stays due as time passes. */
  lemma NeedsRefreshMonotone(expiresAt: Option<int>, nowMs: nat, laterMs: nat)
    requires nowMs <= laterMs && NeedsRefresh(expiresAt, nowMs)
    ensures NeedsRefresh(expiresAt, laterMs)
  {
  }

  // ================================================================ the provider

  /** What a provider call for signing in or up answered. */
  datatype SignInOutcome = SignInError(message: Str) | NoUser | SignedIn(user: ProviderUser)

  /** Whether a call succeeded; the provider ignores the answer to some. */
  datatype CallOutcome = CallOk | CallFailed

  /** What `getSession` answered. */
  datatype SessionOutcome = SessionError(message: Str) | NoSession | HasSession(user: ProviderUser, expiresAt: Option<int>)

  /** What `refreshSession` answered. */
  datatype RefreshOutcome = RefreshError(message: Str) | RefreshThrew | Refreshed(user: Option<ProviderUser>)

  /** A refresh error about the refresh token signs the user out. */
  predicate IsRefreshTokenError(message: Str) {
    Contains(message, "Refresh Token") || Contains(message, "Invalid Refresh Token")
  }

  /** The state after a sign out: no user, not loading, no error. */
  const SignedOut: AuthState := AuthState(None, false, None)

  class AuthProvider {
    var state: AuthState

    constructor()
      ensures state == InitialState
    {
      state := InitialState;
    }

    method Dispatch(a: Action)
      modifies this
      ensures state == Reduce(old(state), a)
    {
      state := Reduce(state, a);
    }

    /** `signIn` and `signUp`: the provider's answer decides. An answer with
        neither an error nor a user leaves the state loading. */
    method SignIn(outcome: SignInOutcome, nowIso: Str)
      modifies this
      ensures outcome.SignInError? ==>
                state == old(state).(loading := false, error := Some(outcome.message))
      ensures outcome.NoUser? ==> state == old(state).(loading := true)
      ensures outcome.SignedIn? ==> state == AuthState(Some(MapUser(outcome.user, nowIso)), false, None)
    {
      Dispatch(Loading(true));
      match outcome {
        case SignInError(message) =>
          Dispatch(Failure(Some(message)));
        case NoUser =>
        case SignedIn(u) =>
          Dispatch(Login(MapUser(u, nowIso)));
      }
    }

    /** `signOut`: the endpoint's and the provider's answers are only logged;
        the user is always signed out. */
    method SignOut(api: CallOutcome, provider: CallOutcome)
      modifies this
      ensures state == SignedOut
    {
      Dispatch(Loading(true));
      if api.CallFailed? {
        // logged and ignored
      }
      if provider.CallFailed? {
        // logged and ignored
      }
      Dispatch(Logout);
      Dispatch(Loading(false));
    }

    /** `resetPassword`: success only clears the loading flag. */
    method ResetPassword(error: Option<Str>)
      modifies this
      ensures error.None? ==> state == old(state).(loading := false)
      ensures error.Some? ==> state == old(state).(loading := false, error := error)
    {
      Dispatch(Loading(true));
      match error {
        case Some(message) => Dispatch(Failure(Some(message)));
        case None => Dispatch(Loading(false));
      }
    }

    /** `checkSession`: sign in from the stored session, refreshing it when it
        is about to expire; a refresh-token error signs the user out.  The
        state always ends not loading. */
    method CheckSession(session: SessionOutcome, nowMs: nat, refresh: RefreshOutcome,
                        api: CallOutcome, provider: CallOutcome, nowIso: Str)
      modifies this
      ensures !state.loading
      ensures !session.HasSession? ==> state == SignedOut
      ensures session.HasSession? && !NeedsRefresh(session.expiresAt, nowMs) ==>
                state == AuthState(Some(MapUser(session.user, nowIso)), false, None)
      ensures session.HasSession? && NeedsRefresh(session.expiresAt, nowMs) ==>
                state == match refresh
                         case RefreshError(m) =>
                           if IsRefreshTokenError(m) then SignedOut
                           else AuthState(Some(MapUser(session.user, nowIso)), false, None)
                         case RefreshThrew => AuthState(Some(MapUser(session.user, nowIso)), false, None)
                         case Refreshed(u) =>
                           AuthState(Some(MapUser(if u.Some? then u.value else session.user, nowIso)), false, None)
    {
      Dispatch(Loading(true));
      match session {
        case SessionError(message) =>
          Dispatch(Failure(Some(message)));
          Dispatch(Logout);
        case NoSession =>
          Dispatch(Logout);
        case HasSession(u, expiresAt) =>
          Dispatch(Login(MapUser(u, nowIso)));
          if NeedsRefresh(expiresAt, nowMs) {
            match refresh {
              case RefreshError(m) =>
                if IsRefreshTokenError(m) {
                  SignOut(api, provider);
                }
              case RefreshThrew =>
              case Refreshed(renewed) =>
                if renewed.Some? {
                  Dispatch(Login(MapUser(renewed.value, nowIso)));
                }
            }
          }
      }
      Dispatch(Loading(false));
    }
  }
}
