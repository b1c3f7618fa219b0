/**
 * The authentication store: who is signed in, with which token, whether a
 * request is under way and the last error, together with the browser storage
 * entries (`token`, `supabase_session`, `user_logged_out`) its reducers write.
 */
module AuthSlice {
  import opened Wrappers

  datatype User = User(
    id: string,
    tableId: string,
    email: string,
    firstName: string,
    lastName: string,
    profilePicture: Option<string>,
    emailVerified: bool,
    isAdmin: bool,
    isMember: bool)

  /** A snapshot of the store and of browser storage. */
  datatype AuthState = AuthState(
    user: Option<User>,
    token: Option<string>,
    isAuthenticated: bool,
    isLoading: bool,
    error: Option<string>,
    storage: map<string, string>)

  const TokenKey := "token"
  const SessionKey := "supabase_session"
  const LoggedOutKey := "user_logged_out"

  /** The actions the reducers handle. */
  datatype Action =
    | LoginStart
    | LoginSuccess(user: User, token: string)
    | SupabaseAuthSuccess(user: User, token: string)
    | LoginFailure(message: string)
    | Logout
    | SupabaseLogout
    | ClearError
    | UpdateUser(user: User)
    | FetchUserStart
    | FetchUserSuccess(user: User)
    | FetchUserFailure(message: string)

  /** Signed out, idle, no error; browser storage is whatever it already holds. */
  function Initial(storage: map<string, string>): AuthState {
    AuthState(None, None, false, false, None, storage)
  }

  /** The store is authenticated exactly when it holds a token, and then it also holds a user. */
  predicate Consistent(s: AuthState) {
    (s.isAuthenticated <==> s.token.Some?) && (s.isAuthenticated ==> s.user.Some?)
  }

  /** The reducers: the state after `a` is handled in state `s`. */
  function Apply(s: AuthState, a: Action): AuthState {
    match a
    case LoginStart =>
      s.(isLoading := true, error := None)
    case LoginSuccess(u, t) =>
      s.(isLoading := false, isAuthenticated := true, user := Some(u), token := Some(t), error := None,
         storage := s.storage[TokenKey := t])
    case SupabaseAuthSuccess(u, t) =>
      s.(isLoading := false, isAuthenticated := true, user := Some(u), token := Some(t), error := None,
         storage := s.storage - {LoggedOutKey})
    case LoginFailure(m) =>
      s.(isLoading := false, error := Some(m), isAuthenticated := false, user := None, token := None)
    case Logout =>
      s.(user := None, token := None, isAuthenticated := false, error := None,
         storage := (s.storage - {TokenKey, SessionKey})[LoggedOutKey := "true"])
    case SupabaseLogout =>
      s.(user := None, token := None, isAuthenticated := false, error := None,
         storage := (s.storage - {SessionKey})[LoggedOutKey := "true"])
    case ClearError =>
      s.(error := None)
    case UpdateUser(u) =>
      s.(user := Some(u))
    case FetchUserStart =>
      s.(isLoading := true, error := None)
    case FetchUserSuccess(u) =>
      s.(isLoading := false, user := Some(u), error := None)
    case FetchUserFailure(m) =>
      s.(isLoading := false, error := Some(m), isAuthenticated := false, user := None, token := None,
         storage := s.storage - {TokenKey, SessionKey})
  }

  /** The state reached from `s` by handling the actions in order. */
  function ApplyAll(s: AuthState, actions: seq<Action>): AuthState
    decreases |actions|
  {
    if actions == [] then s else ApplyAll(Apply(s, actions[0]), actions[1..])
  }

  lemma InitialConsistent(storage: map<string, string>)
    ensures Consistent(Initial(storage))
    ensures var s := Initial(storage);
      s.user.None? && s.token.None? && !s.isAuthenticated && !s.isLoading && s.error.None?
  {
  }

  /** Every reducer keeps the store consistent. */
  lemma ApplyConsistent(s: AuthState, a: Action)
    requires Consistent(s)
    ensures Consistent(Apply(s, a))
  {
    match a
    case UpdateUser(u) =>
    case FetchUserSuccess(u) =>
    case _ =>
  }

  /** Any sequence of actions from a consistent state leaves it consistent. */
  lemma {:induction false} ApplyAllConsistent(s: AuthState, actions: seq<Action>)
    requires Consistent(s)
    ensures Consistent(ApplyAll(s, actions))
    decreases |actions|
  {
    if actions != [] {
      ApplyConsistent(s, actions[0]);
      ApplyAllConsistent(Apply(s, actions[0]), actions[1..]);
    }
  }

  /** Every state the store reaches from its initial state is consistent. */
  lemma ReachableConsistent(storage: map<string, string>, actions: seq<Action>)
    ensures Consistent(ApplyAll(Initial(storage), actions))
  {
    ApplyAllConsistent(Initial(storage), actions);
  }

  /** The two start actions only raise `isLoading` and clear the error. */
  lemma StartOnlyLoads(s: AuthState, a: Action)
    requires a == LoginStart || a == FetchUserStart
    ensures Apply(s, a).isLoading && Apply(s, a).error.None?
    ensures Apply(s, a).(isLoading := s.isLoading, error := s.error) == s
  {
  }

  /** A successful login (either kind) signs the payload's user in with the payload's token. */
  lemma SuccessSignsIn(s: AuthState, u: User, t: string)
    ensures var r := Apply(s, LoginSuccess(u, t));
      r.isAuthenticated && r.user == Some(u) && r.token == Some(t) && !r.isLoading && r.error.None?
      && r.storage == s.storage[TokenKey := t]
    ensures var r := Apply(s, SupabaseAuthSuccess(u, t));
      r.isAuthenticated && r.user == Some(u) && r.token == Some(t) && !r.isLoading && r.error.None?
      && LoggedOutKey !in r.storage
      && forall k :: k in s.storage && k != LoggedOutKey ==> k in r.storage && r.storage[k] == s.storage[k]
  {
  }

  /** A failure (login or user fetch) signs out and keeps the message; only the fetch failure clears storage. */
  lemma FailureSignsOut(s: AuthState, a: Action)
    requires a.LoginFailure? || a.FetchUserFailure?
    ensures var r := Apply(s, a);
      !r.isAuthenticated && r.user.None? && r.token.None? && !r.isLoading && r.error == Some(a.message)
    ensures a.LoginFailure? ==> Apply(s, a).storage == s.storage
    ensures a.FetchUserFailure? ==> TokenKey !in Apply(s, a).storage && SessionKey !in Apply(s, a).storage
  {
  }

  /** Both logouts sign out, drop the session and set the logged-out flag; only `logout` drops the token entry. */
  lemma LogoutSignsOut(s: AuthState, a: Action)
    requires a == Logout || a == SupabaseLogout
    ensures var r := Apply(s, a);
      !r.isAuthenticated && r.user.None? && r.token.None? && r.error.None? && r.isLoading == s.isLoading
      && SessionKey !in r.storage && LoggedOutKey in r.storage && r.storage[LoggedOutKey] == "true"
    ensures a == Logout ==> TokenKey !in Apply(s, a).storage
    ensures a == SupabaseLogout && TokenKey in s.storage ==>
      TokenKey in Apply(s, a).storage && Apply(s, a).storage[TokenKey] == s.storage[TokenKey]
  {
  }

  /** Logging out twice is logging out once. */
  lemma LogoutIdempotent(s: AuthState, a: Action)
    requires a == Logout || a == SupabaseLogout
    ensures Apply(Apply(s, a), a) == Apply(s, a)
  {
    assert Apply(Apply(s, a), a).storage == Apply(s, a).storage;
  }

  /** A later Supabase sign-in undoes the logged-out flag a logout set. */
  lemma SignInAfterLogout(s: AuthState, u: User, t: string)
    ensures var r := Apply(Apply(s, Logout), SupabaseAuthSuccess(u, t));
      r.isAuthenticated && LoggedOutKey !in r.storage && SessionKey !in r.storage && TokenKey !in r.storage
  {
  }

  /** `clearError` changes only the error and `updateUser` only the user. */
  lemma SettersTouchOneField(s: AuthState, u: User)
    ensures Apply(s, ClearError) == s.(error := None)
    ensures Apply(s, UpdateUser(u)) == s.(user := Some(u))
  {
  }

  /** The store itself, updated in place by one method per reducer. */
  class AuthStore {
    var user: Option<User>
    var token: Option<string>
    var isAuthenticated: bool
    var isLoading: bool
    var error: Option<string>
    var storage: map<string, string>

    function State(): AuthState
      reads this
    {
      AuthState(user, token, isAuthenticated, isLoading, error, storage)
    }

    ghost predicate Valid()
      reads this
    {
      Consistent(State())
    }

    constructor(initialStorage: map<string, string>)
      ensures State() == Initial(initialStorage) && Valid()
    {
      user := None;
      token := None;
      isAuthenticated := false;
      isLoading := false;
      error := None;
      storage := initialStorage;
    }

    method LoginStart()
      modifies this
      ensures State() == Apply(old(State()), Action.LoginStart)
      ensures old(Valid()) ==> Valid()
    {
      isLoading := true;
      error := None;
    }

    method LoginSuccess(u: User, t: string)
      modifies this
      ensures State() == Apply(old(State()), Action.LoginSuccess(u, t))
      ensures Valid()
    {
      isLoading := false;
      isAuthenticated := true;
      user := Some(u);
      token := Some(t);
      error := None;
      storage := storage[TokenKey := t];
    }

    method SupabaseAuthSuccess(u: User, t: string)
      modifies this
      ensures State() == Apply(old(State()), Action.SupabaseAuthSuccess(u, t))
      ensures Valid()
    {
      isLoading := false;
      isAuthenticated := true;
      user := Some(u);
      token := Some(t);
      error := None;
      storage := storage - {LoggedOutKey};
    }

    method LoginFailure(message: string)
      modifies this
      ensures State() == Apply(old(State()), Action.LoginFailure(message))
      ensures Valid()
    {
      isLoading := false;
      error := Some(message);
      isAuthenticated := false;
      user := None;
      token := None;
    }

    method Logout()
      modifies this
      ensures State() == Apply(old(State()), Action.Logout)
      ensures Valid()
    {
      user := None;
      token := None;
      isAuthenticated := false;
      error := None;
      storage := storage - {TokenKey};
      storage := storage - {SessionKey};
      storage := storage[LoggedOutKey := "true"];
      assert storage == (old(storage) - {TokenKey, SessionKey})[LoggedOutKey := "true"];
    }

    method SupabaseLogout()
      modifies this
      ensures State() == Apply(old(State()), Action.SupabaseLogout)
      ensures Valid()
    {
      user := None;
      token := None;
      isAuthenticated := false;
      error := None;
      storage := storage - {SessionKey};
      storage := storage[LoggedOutKey := "true"];
    }

    method ClearError()
      modifies this
      ensures State() == Apply(old(State()), Action.ClearError)
      ensures old(Valid()) ==> Valid()
    {
      error := None;
    }

    method UpdateUser(u: User)
      modifies this
      ensures State() == Apply(old(State()), Action.UpdateUser(u))
      ensures old(Valid()) ==> Valid()
    {
      user := Some(u);
    }

    method FetchUserStart()
      modifies this
      ensures State() == Apply(old(State()), Action.FetchUserStart)
      ensures old(Valid()) ==> Valid()
    {
      isLoading := true;
      error := None;
    }

    method FetchUserSuccess(u: User)
      modifies this
      ensures State() == Apply(old(State()), Action.FetchUserSuccess(u))
      ensures old(Valid()) ==> Valid()
    {
      isLoading := false;
      user := Some(u);
      error := None;
    }

    method FetchUserFailure(message: string)
      modifies this
      ensures State() == Apply(old(State()), Action.FetchUserFailure(message))
      ensures Valid()
    {
      isLoading := false;
      error := Some(message);
      isAuthenticated := false;
      user := None;
      token := None;
      storage := storage - {TokenKey};
      storage := storage - {SessionKey};
      assert storage == old(storage) - {TokenKey, SessionKey};
    }
  }
}
