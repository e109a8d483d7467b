/** `src/global/auth/auth-slice.ts`: the session state, its reducer, and
    the five thunks with their storage effects. Each thunk is one step
    that ends in its fulfilled or rejected action; the reducer is a total
    function of the state and the action, and the store applies it field
    by field. */
module AuthSlice {

  import opened Wrappers
  import opened UserView
  import opened KeyValue
  import DatabaseService
  import AuthService
  import TokenUtils

  const ACCESS_TOKEN_KEY := "@access_token"
  const USER_DATA_KEY := "@user_data"
  const IS_LOGGED_IN_KEY := "@is_logged_in"

  /** `AuthError`: `code` and `status` are optional. */
  datatype AuthError = AuthError(message: string, code: Option<string>, status: Option<int>)

  /** `AuthState` */
  datatype AuthState = AuthState(
    user: Option<AuthUser>,
    token: Option<string>,
    isAuthenticated: bool,
    isLoading: bool,
    error: Option<AuthError>,
    isInitialized: bool)

  /** `initialState` */
  const INITIAL_STATE := AuthState(None, None, false, false, None, false)

  /** What `initializeAuth` fulfils with. */
  datatype InitPayload = InitPayload(user: Option<AuthUser>, token: Option<string>, isAuthenticated: bool)

  /** What `loginWithEmail` and `registerUser` fulfil with. */
  datatype Session = Session(user: AuthUser, token: string)

  /** The slice's actions: the three plain reducers and the pending,
      fulfilled and rejected action of each thunk. A rejected action holds
      the thunk's `rejectWithValue` payload, or None when the thunk threw
      past it. */
  datatype Action =
    | ClearError
    | UpdateUser(patch: UserPatch)
    | ResetAuth
    | InitializePending
    | InitializeFulfilled(init: InitPayload)
    | InitializeRejected(rejection: Option<AuthError>)
    | LoginPending
    | LoginFulfilled(session: Session)
    | LoginRejected(rejection: Option<AuthError>)
    | RegisterPending
    | RegisterFulfilled(session: Session)
    | RegisterRejected(rejection: Option<AuthError>)
    | ProfilePending
    | ProfileFulfilled(profile: AuthUser)
    | ProfileRejected(rejection: Option<AuthError>)
    | LogoutPending
    | LogoutFulfilled
    | LogoutRejected(rejection: Option<AuthError>)

  /** `action.payload || {message}` */
  function ErrorOr(rejection: Option<AuthError>, message: string): AuthError {
    if rejection.Some? then rejection.value else AuthError(message, None, None)
  }

  /** The slice reducer. */
  function Reduce(s: AuthState, a: Action): AuthState {
    match a
    case ClearError => s.(error := None)
    case UpdateUser(patch) => if s.user.Some? then s.(user := Some(Merge(s.user.value, patch))) else s
    case ResetAuth => s.(user := None, token := None, isAuthenticated := false, error := None)
    case InitializePending => s.(isLoading := true)
    case InitializeFulfilled(p) =>
      s.(user := p.user, token := p.token, isAuthenticated := p.isAuthenticated,
         isLoading := false, isInitialized := true, error := None)
    case InitializeRejected(e) =>
      s.(isLoading := false, isInitialized := true, error := Some(ErrorOr(e, "Initialization failed")))
    case LoginPending => s.(isLoading := true, error := None)
    case LoginFulfilled(sn) =>
      s.(user := Some(sn.user), token := Some(sn.token), isAuthenticated := true, isLoading := false, error := None)
    case LoginRejected(e) =>
      s.(isLoading := false, error := Some(ErrorOr(e, "Login failed")), isAuthenticated := false)
    case RegisterPending => s.(isLoading := true, error := None)
    case RegisterFulfilled(sn) =>
      s.(user := Some(sn.user), token := Some(sn.token), isAuthenticated := true, isLoading := false, error := None)
    case RegisterRejected(e) =>
      s.(isLoading := false, error := Some(ErrorOr(e, "Registration failed")), isAuthenticated := false)
    case ProfilePending => s.(isLoading := true)
    case ProfileFulfilled(u) => s.(user := Some(u), isLoading := false, error := None)
    case ProfileRejected(e) => s.(isLoading := false, error := Some(ErrorOr(e, "Failed to fetch profile")))
    case LogoutPending => s.(isLoading := true)
    case LogoutFulfilled =>
      s.(user := None, token := None, isAuthenticated := false, isLoading := false, error := None)
    case LogoutRejected(e) =>
      s.(user := None, token := None, isAuthenticated := false, isLoading := false,
         error := Some(ErrorOr(e, "Logout failed")))
  }

  /** The session invariant: an authenticated state has a user. */
  predicate SessionConsistent(s: AuthState) {
    s.isAuthenticated ==> s.user.Some?
  }

  /** An action whose payload keeps the invariant; only the payload of
      `initializeAuth` carries its own flag. */
  predicate PayloadConsistent(a: Action) {
    a.InitializeFulfilled? ==> (a.init.isAuthenticated ==> a.init.user.Some?)
  }

  /** Every reducer case keeps the session invariant. */
  lemma ReduceKeepsSession(s: AuthState, a: Action)
    requires SessionConsistent(s) && PayloadConsistent(a)
    ensures SessionConsistent(Reduce(s, a))
  {
  }

  /** The reducer over a run of dispatched actions. */
  function ReduceAll(s: AuthState, actions: seq<Action>): AuthState
    decreases |actions|
  {
    if actions == [] then s else ReduceAll(Reduce(s, actions[0]), actions[1..])
  }

  /** From the initial state, any run of well-formed actions keeps the
      session invariant. */
  lemma {:induction false} ReduceAllKeepsSession(s: AuthState, actions: seq<Action>)
    requires SessionConsistent(s)
    requires forall i :: 0 <= i < |actions| ==> PayloadConsistent(actions[i])
    ensures SessionConsistent(ReduceAll(s, actions))
    decreases |actions|
  {
    if actions != [] {
      ReduceKeepsSession(s, actions[0]);
      ReduceAllKeepsSession(Reduce(s, actions[0]), actions[1..]);
    }
  }

  /** `initializeAuth` fulfilled takes user, token and flag from the
      payload and marks the state initialised; rejected marks it
      initialised with the error and keeps the session fields. */
  lemma InitializeCases(s: AuthState, p: InitPayload, e: Option<AuthError>)
    ensures Reduce(s, InitializeFulfilled(p)) ==
            AuthState(p.user, p.token, p.isAuthenticated, false, None, true)
    ensures var t := Reduce(s, InitializeRejected(e));
            && t.user == s.user && t.token == s.token && t.isAuthenticated == s.isAuthenticated
            && !t.isLoading && t.isInitialized && t.error == Some(e.GetOr(AuthError("Initialization failed", None, None)))
  {
  }

  /** Login and register: pending sets the loading flag and clears the
      error; fulfilled installs the session; rejected signs out without
      clearing the user or the token. */
  lemma LoginRegisterCases(s: AuthState, sn: Session, e: Option<AuthError>)
    ensures Reduce(s, LoginPending) == Reduce(s, RegisterPending) == s.(isLoading := true, error := None)
    ensures Reduce(s, LoginFulfilled(sn)) == Reduce(s, RegisterFulfilled(sn))
    ensures var t := Reduce(s, LoginFulfilled(sn));
            t.user == Some(sn.user) && t.token == Some(sn.token) && t.isAuthenticated
            && !t.isLoading && t.error.None? && t.isInitialized == s.isInitialized
    ensures var t := Reduce(s, LoginRejected(e));
            t.user == s.user && t.token == s.token && !t.isAuthenticated && !t.isLoading
            && t.error == Some(e.GetOr(AuthError("Login failed", None, None)))
    ensures var t := Reduce(s, RegisterRejected(e));
            t.user == s.user && t.token == s.token && !t.isAuthenticated && !t.isLoading
            && t.error == Some(e.GetOr(AuthError("Registration failed", None, None)))
  {
  }

  /** The token, the flag and the initialised mark of `s` and `t` agree:
      the step neither signed in nor signed out. */
  predicate SameSession(s: AuthState, t: AuthState) {
    t.token == s.token && t.isAuthenticated == s.isAuthenticated && t.isInitialized == s.isInitialized
  }

  /** `getUserProfile` never signs in or out. Pending only raises the
      loading flag; fulfilled replaces the user and clears the error;
      rejected keeps the user and records the rejection, or the fallback
      message when there is none. */
  lemma ProfileCases(s: AuthState, u: AuthUser, e: Option<AuthError>)
    ensures var t := Reduce(s, ProfilePending);
            SameSession(s, t) && t.isLoading && t.user == s.user && t.error == s.error
    ensures var t := Reduce(s, ProfileFulfilled(u));
            SameSession(s, t) && t.user == Some(u) && !t.isLoading && t.error.None?
    ensures var t := Reduce(s, ProfileRejected(e));
            && SameSession(s, t) && t.user == s.user && !t.isLoading && t.error.Some?
            && (e.Some? ==> t.error == e)
            && (e.None? ==> t.error.value.message == "Failed to fetch profile")
    ensures SessionConsistent(s) ==>
            SessionConsistent(Reduce(s, ProfilePending)) && SessionConsistent(Reduce(s, ProfileRejected(e)))
  {
  }

  /** Logout signs out whether it succeeds or fails; the two outcomes
      differ only in the error. */
  lemma LogoutCases(s: AuthState, e: Option<AuthError>)
    ensures Reduce(s, LogoutPending) == s.(isLoading := true)
    ensures var t := Reduce(s, LogoutFulfilled);
            t.user.None? && t.token.None? && !t.isAuthenticated && !t.isLoading && t.isInitialized == s.isInitialized
    ensures Reduce(s, LogoutRejected(e)) ==
            Reduce(s, LogoutFulfilled).(error := Some(e.GetOr(AuthError("Logout failed", None, None))))
  {
  }

  /** `clearError` removes the error and nothing else, and a second one
      changes nothing. `updateUser` touches only a present user, merging
      the patch into it, and repeating it changes nothing. `resetAuth`
      ends the session as a successful logout does, except that the
      loading flag is left as it was. */
  lemma PlainReducers(s: AuthState, patch: UserPatch)
    ensures var t := Reduce(s, ClearError);
            t.error.None? && t.(error := s.error) == s && Reduce(t, ClearError) == t
    ensures var t := Reduce(s, UpdateUser(patch));
            t.(user := s.user) == s && (t.user.Some? <==> s.user.Some?)
    ensures s.user.Some? ==>
            var v := Reduce(s, UpdateUser(patch)).user.value;
            && v.id == patch.id.GetOr(s.user.value.id)
            && v.name == patch.name.GetOr(s.user.value.name)
            && v.email == patch.email.GetOr(s.user.value.email)
    ensures Reduce(Reduce(s, UpdateUser(patch)), UpdateUser(patch)) == Reduce(s, UpdateUser(patch))
    ensures Reduce(s, ResetAuth) == Reduce(s, LogoutFulfilled).(isLoading := s.isLoading)
  {
    if s.user.Some? {
      MergeFields(s.user.value, patch);
      MergeIdempotent(s.user.value, patch);
    }
  }

  // ---------------------------------------------------------------------
  // Thunk results on values

  const INIT_ERROR := AuthError("Failed to initialize authentication", Some("INIT_ERROR"), None)
  const NO_USER_FOUND := "No user found"

  function Get(items: map<string, string>, key: string): Option<string> {
    if key in items then Some(items[key]) else None
  }

  /** `error?.message || fallback` */
  function MessageOr(message: string, fallback: string): (m: string)
    ensures fallback != "" ==> m != ""
  {
    if message != "" then message else fallback
  }

  /** How `initializeAuth` settles for the stored items, `readFault` being
      what `multiGet` throws, if anything. Stored user text that does not
      parse makes `JSON.parse` throw, which rejects the thunk. */
  function InitOutcome(items: map<string, string>, readFault: Option<string>): Action {
    if readFault.Some? then InitializeRejected(Some(INIT_ERROR))
    else
      var userData := Get(items, USER_DATA_KEY);
      if userData.Some? && userData.value != "" && Parse(userData.value).None? then
        InitializeRejected(Some(INIT_ERROR))
      else
        var user := if userData.Some? && userData.value != "" then Parse(userData.value) else None;
        InitializeFulfilled(InitPayload(user, Get(items, ACCESS_TOKEN_KEY),
                                        Get(items, IS_LOGGED_IN_KEY) == Some("true") && user.Some?))
  }

  /** The `initializeAuth` payload is authenticated exactly when the flag
      reads `true` and a user is stored; either way it is well formed. */
  lemma InitOutcomeShape(items: map<string, string>, readFault: Option<string>)
    ensures InitOutcome(items, readFault).InitializeFulfilled? || InitOutcome(items, readFault) == InitializeRejected(Some(INIT_ERROR))
    ensures PayloadConsistent(InitOutcome(items, readFault))
    ensures InitOutcome(items, readFault).InitializeFulfilled? ==>
              var p := InitOutcome(items, readFault).init;
              && (p.isAuthenticated <==> Get(items, IS_LOGGED_IN_KEY) == Some("true") && p.user.Some?)
              && p.token == Get(items, ACCESS_TOKEN_KEY)
  {
  }

  /** The three writes of a successful login or registration. */
  function SessionWrites(items: map<string, string>, sn: Session): map<string, string> {
    items[ACCESS_TOKEN_KEY := sn.token][USER_DATA_KEY := Stringify(sn.user)][IS_LOGGED_IN_KEY := "true"]
  }

  /** The service's own two writes are overwritten by the thunk's. */
  lemma SessionWritesAfterLogin(items: map<string, string>, sn: Session)
    ensures SessionWrites(AuthService.LoggedIn(items, sn.user), sn) == SessionWrites(items, sn)
  {
    assert AuthService.USER_KEY == USER_DATA_KEY && AuthService.IS_LOGGED_IN_KEY == IS_LOGGED_IN_KEY;
  }

  /** A restart after a login restores the same user and token, signed in. */
  lemma RestoreAfterLogin(items: map<string, string>, sn: Session)
    ensures InitOutcome(SessionWrites(items, sn), None) ==
            InitializeFulfilled(InitPayload(Some(sn.user), Some(sn.token), true))
  {
    var w := SessionWrites(items, sn);
    ParseStringify(sn.user);
    assert Get(w, USER_DATA_KEY) == Some(Stringify(sn.user));
    assert Get(w, ACCESS_TOKEN_KEY) == Some(sn.token);
  }

  /** After a logout, a restart finds nobody signed in. */
  lemma RestoreAfterLogout(items: map<string, string>)
    ensures InitOutcome(items - {ACCESS_TOKEN_KEY, USER_DATA_KEY, IS_LOGGED_IN_KEY}, None) ==
            InitializeFulfilled(InitPayload(None, None, false))
  {
  }

  /** `initializeAuth` signs in a stored user with the flag set even when
      no token is stored: an authenticated state need not hold a token. */
  lemma AuthenticatedWithoutToken(u: AuthUser)
    ensures var items := map[USER_DATA_KEY := Stringify(u), IS_LOGGED_IN_KEY := "true"];
            var t := Reduce(INITIAL_STATE, InitOutcome(items, None));
            t.isAuthenticated && t.user == Some(u) && t.token.None?
  {
    ParseStringify(u);
    TokenlessRestore(Stringify(u), u);
  }

  /** A restart that finds a parsable user and the flag but no token. */
  lemma TokenlessRestore(text: string, u: AuthUser)
    requires text != "" && Parse(text) == Some(u)
    ensures var t := Reduce(INITIAL_STATE, InitOutcome(map[USER_DATA_KEY := text, IS_LOGGED_IN_KEY := "true"], None));
            t.isAuthenticated && t.user == Some(u) && t.token.None?
  {
    var items := map[USER_DATA_KEY := text, IS_LOGGED_IN_KEY := "true"];
    KeysDistinct();
    assert ACCESS_TOKEN_KEY !in items;
    assert Get(items, USER_DATA_KEY) == Some(text) && Get(items, IS_LOGGED_IN_KEY) == Some("true");
    assert InitOutcome(items, None) == InitializeFulfilled(InitPayload(Some(u), None, true));
  }

  /** The three storage keys are different. */
  lemma KeysDistinct()
    ensures ACCESS_TOKEN_KEY != USER_DATA_KEY && ACCESS_TOKEN_KEY != IS_LOGGED_IN_KEY && USER_DATA_KEY != IS_LOGGED_IN_KEY
  {
    assert ACCESS_TOKEN_KEY[1] == 'a' && USER_DATA_KEY[1] == 'u' && IS_LOGGED_IN_KEY[1] == 'i';
  }

  /** The rejection of a failed login or registration. */
  function Rejection(message: string, fallback: string, code: string): AuthError {
    AuthError(MessageOr(message, fallback), Some(code), None)
  }

  // ---------------------------------------------------------------------
  // The store and the thunks

  class AuthStore {

    var user: Option<AuthUser>
    var token: Option<string>
    var isAuthenticated: bool
    var isLoading: bool
    var error: Option<AuthError>
    var isInitialized: bool

    const service: AuthService.Auth

    function State(): AuthState
      reads this
    {
      AuthState(user, token, isAuthenticated, isLoading, error, isInitialized)
    }

    constructor (service: AuthService.Auth)
      ensures State() == INITIAL_STATE && this.service == service
    {
      this.service := service;
      user, token, isAuthenticated := None, None, false;
      isLoading, error, isInitialized := false, None, false;
    }

    /** `dispatch(action)`: the case reducer assigns the state's fields in
        place. */
    method Dispatch(a: Action)
      modifies this
      ensures State() == Reduce(old(State()), a)
    {
      match a
      case ClearError =>
        error := None;
      case UpdateUser(patch) =>
        if user.Some? {
          user := Some(Merge(user.value, patch));
        }
      case ResetAuth =>
        user := None;
        token := None;
        isAuthenticated := false;
        error := None;
      case InitializePending =>
        isLoading := true;
      case InitializeFulfilled(p) =>
        user := p.user;
        token := p.token;
        isAuthenticated := p.isAuthenticated;
        isLoading := false;
        isInitialized := true;
        error := None;
      case InitializeRejected(e) =>
        isLoading := false;
        isInitialized := true;
        error := Some(ErrorOr(e, "Initialization failed"));
      case LoginPending =>
        isLoading := true;
        error := None;
      case LoginFulfilled(sn) =>
        user := Some(sn.user);
        token := Some(sn.token);
        isAuthenticated := true;
        isLoading := false;
        error := None;
      case LoginRejected(e) =>
        isLoading := false;
        error := Some(ErrorOr(e, "Login failed"));
        isAuthenticated := false;
      case RegisterPending =>
        isLoading := true;
        error := None;
      case RegisterFulfilled(sn) =>
        user := Some(sn.user);
        token := Some(sn.token);
        isAuthenticated := true;
        isLoading := false;
        error := None;
      case RegisterRejected(e) =>
        isLoading := false;
        error := Some(ErrorOr(e, "Registration failed"));
        isAuthenticated := false;
      case ProfilePending =>
        isLoading := true;
      case ProfileFulfilled(u) =>
        user := Some(u);
        isLoading := false;
        error := None;
      case ProfileRejected(e) =>
        isLoading := false;
        error := Some(ErrorOr(e, "Failed to fetch profile"));
      case LogoutPending =>
        isLoading := true;
      case LogoutFulfilled =>
        user := None;
        token := None;
        isAuthenticated := false;
        isLoading := false;
        error := None;
      case LogoutRejected(e) =>
        user := None;
        token := None;
        isAuthenticated := false;
        isLoading := false;
        error := Some(ErrorOr(e, "Logout failed"));
    }

    /** `initializeAuth()`: reads the three keys and settles; it writes
        nothing. */
    method InitializeAuth(readFault: Option<string>) returns (a: Action)
      ensures a == InitOutcome(service.storage.items, readFault)
      ensures PayloadConsistent(a)
    {
      if readFault.Some? {
        return InitializeRejected(Some(INIT_ERROR));
      }
      var userData := service.storage.GetItem(USER_DATA_KEY);
      var storedToken := service.storage.GetItem(ACCESS_TOKEN_KEY);
      var isLoggedIn := service.storage.GetItem(IS_LOGGED_IN_KEY);
      var user: Option<AuthUser> := None;
      if userData.Some? && userData.value != "" {
        user := Parse(userData.value);
        if user.None? {
          return InitializeRejected(Some(INIT_ERROR));
        }
      }
      InitOutcomeShape(service.storage.items, readFault);
      return InitializeFulfilled(InitPayload(user, storedToken, isLoggedIn == Some("true") && user.Some?));
    }

    /** `loginWithEmail({email, password})` at time `now` with nonce
        `random`: a match stores token, user and flag and fulfils with the
        session; any failure rejects with `LOGIN_ERROR` and writes nothing. */
    method LoginWithEmail(email: string, password: string, now: int, random: string) returns (a: Action)
      requires service.db.Valid()
      modifies service.db`connection, service.storage
      ensures service.db.Valid()
      ensures old(service.db.Ready()).Err? ==>
        a == LoginRejected(Some(Rejection(old(service.db.Ready()).message, "Login failed. Please check your credentials.", "LOGIN_ERROR")))
      ensures old(service.db.Ready()).Ok? ==>
        var found := DatabaseService.FirstMatch(service.db.rows, email, password);
        && (found.None? ==> a == LoginRejected(Some(Rejection(AuthService.INVALID_CREDENTIALS, "", "LOGIN_ERROR"))))
        && (found.Some? ==> a == LoginFulfilled(Session(AuthService.View(found.value),
                              TokenUtils.GenerateToken(found.value.id, found.value.email, now, random))))
      ensures a.LoginRejected? ==> service.storage.items == old(service.storage.items)
      ensures a.LoginFulfilled? ==> service.storage.items == SessionWrites(old(service.storage.items), a.session)
      ensures a.LoginFulfilled? || (a.LoginRejected? && a.rejection.Some? && a.rejection.value.message != "")
    {
      var r := service.Login(email, password);
      if r.Err? {
        return LoginRejected(Some(Rejection(r.message, "Login failed. Please check your credentials.", "LOGIN_ERROR")));
      }
      var u := r.value;
      var t := TokenUtils.GenerateToken(u.id, u.email, now, random);
      SessionWritesAfterLogin(old(service.storage.items), Session(u, t));
      service.storage.SetItem(ACCESS_TOKEN_KEY, t);
      service.storage.SetItem(USER_DATA_KEY, Stringify(u));
      service.storage.SetItem(IS_LOGGED_IN_KEY, "true");
      return LoginFulfilled(Session(u, t));
    }

    /** `registerUser({name, email, password})` at time `now` with nonce
        `random`: a new row is stored like a login; any failure rejects
        with `REGISTER_ERROR` and the service's rewritten message. */
    method RegisterUser(name: string, email: string, password: string, now: int, random: string) returns (a: Action)
      requires service.db.Valid()
      modifies service.db`connection, service.db`rows, service.db`nextId, service.storage
      ensures service.db.Valid()
      ensures old(service.db.Ready()).Err? ==>
        a == RegisterRejected(Some(Rejection(AuthService.RegisterError(old(service.db.Ready()).message), "", "REGISTER_ERROR")))
      ensures old(service.db.Ready()).Ok? ==>
        var ins := DatabaseService.Insert(DatabaseService.Table(old(service.db.rows), old(service.db.nextId)),
                                          DatabaseService.NewUser(name, email, password));
        && (ins.Err? ==> a == RegisterRejected(Some(Rejection(AuthService.ALREADY_REGISTERED, "", "REGISTER_ERROR"))))
        && (ins.Ok? ==> a == RegisterFulfilled(Session(AuthUser(old(service.db.nextId), name, email),
                              TokenUtils.GenerateToken(old(service.db.nextId), email, now, random))))
      ensures a.RegisterRejected? ==> service.storage.items == old(service.storage.items)
      ensures a.RegisterFulfilled? ==> service.storage.items == SessionWrites(old(service.storage.items), a.session)
    {
      var r := service.Register(name, email, password);
      if r.Err? {
        return RegisterRejected(Some(Rejection(r.message, "Registration failed. Please try again.", "REGISTER_ERROR")));
      }
      var u := r.value;
      var t := TokenUtils.GenerateToken(u.id, u.email, now, random);
      SessionWritesAfterLogin(old(service.storage.items), Session(u, t));
      service.storage.SetItem(ACCESS_TOKEN_KEY, t);
      service.storage.SetItem(USER_DATA_KEY, Stringify(u));
      service.storage.SetItem(IS_LOGGED_IN_KEY, "true");
      return RegisterFulfilled(Session(u, t));
    }

    /** `getUserProfile()`: the stored user, or a rejection; it writes
        nothing. */
    method GetUserProfile() returns (a: Action)
      ensures var stored := AuthService.StoredUser(service.storage.items);
        && (stored.Some? ==> a == ProfileFulfilled(stored.value))
        && (stored.None? ==> a == ProfileRejected(Some(AuthError(NO_USER_FOUND, Some("PROFILE_ERROR"), None))))
    {
      var u := service.GetCurrentUser();
      if u.None? {
        return ProfileRejected(Some(Rejection(NO_USER_FOUND, "Failed to fetch profile", "PROFILE_ERROR")));
      }
      return ProfileFulfilled(u.value);
    }

    /** `logout()`: `serviceFault` is what the service's removal throws and
        `removeFault` what the token's removal throws, if anything. Either
        way the token, the user and the flag end up removed. */
    method Logout(serviceFault: Option<string>, removeFault: Option<string>) returns (a: Action)
      modifies service.storage
      ensures service.storage.items == old(service.storage.items) - {ACCESS_TOKEN_KEY, USER_DATA_KEY, IS_LOGGED_IN_KEY}
      ensures serviceFault.None? && removeFault.None? ==> a == LogoutFulfilled
      ensures serviceFault.Some? ==>
        a == LogoutRejected(Some(Rejection(serviceFault.value, "Logout failed", "LOGOUT_ERROR")))
      ensures serviceFault.None? && removeFault.Some? ==>
        a == LogoutRejected(Some(Rejection(removeFault.value, "Logout failed", "LOGOUT_ERROR")))
    {
      var r := service.Logout(serviceFault);
      var fault := if r.Err? then Some(r.message) else removeFault;
      if fault.None? {
        service.storage.RemoveItem(ACCESS_TOKEN_KEY);
        return LogoutFulfilled;
      }
      service.storage.MultiRemove([ACCESS_TOKEN_KEY, USER_DATA_KEY, IS_LOGGED_IN_KEY]);
      assert (set k | k in [ACCESS_TOKEN_KEY, USER_DATA_KEY, IS_LOGGED_IN_KEY]) == {ACCESS_TOKEN_KEY, USER_DATA_KEY, IS_LOGGED_IN_KEY};
      return LogoutRejected(Some(Rejection(fault.value, "Logout failed", "LOGOUT_ERROR")));
    }
  }
}
