/** `src/services/api/auth-service.ts`: login, registration, logout and the
    stored current user, over the credential table and the key-value
    store. The stored user is the public view `{id, name, email}` in its
    serialised form under `@user_data`; `@is_logged_in` holds the text
    `true`. */
module AuthService {

  import opened Wrappers
  import opened Text
  import opened UserView
  import opened DatabaseService
  import opened KeyValue

  const USER_KEY := "@user_data"
  const IS_LOGGED_IN_KEY := "@is_logged_in"

  const INVALID_CREDENTIALS := "Invalid email or password"
  const ALREADY_REGISTERED := "This email is already registered"
  const REGISTRATION_FAILED := "Registration failed. Please try again."
  const NO_USER := "No user is logged in"

  /** The marker `register` looks for in a failure's message. */
  const UNIQUE_VIOLATION := "UNIQUE constraint failed"

  /** The public view of a row: everything but the password. */
  function View(row: UserRow): AuthUser {
    AuthUser(row.id, row.name, row.email)
  }

  /** The message `register` rethrows for a failure with message `message`. */
  function RegisterError(message: string): string {
    if Includes(message, UNIQUE_VIOLATION) then ALREADY_REGISTERED else REGISTRATION_FAILED
  }

  /** A repeated email is reported as already registered; a missing table,
      a failed login and a message-less error all as the generic failure. */
  lemma RegisterErrors()
    ensures RegisterError(DUPLICATE_EMAIL) == ALREADY_REGISTERED
    ensures RegisterError(NO_TABLE) == REGISTRATION_FAILED
    ensures RegisterError(INVALID_CREDENTIALS) == REGISTRATION_FAILED
    ensures RegisterError("") == REGISTRATION_FAILED
  {
    assert OccursAt(DUPLICATE_EMAIL, UNIQUE_VIOLATION, 0);
    assert INVALID_CREDENTIALS[0..|UNIQUE_VIOLATION|][0] != UNIQUE_VIOLATION[0];
    assert INVALID_CREDENTIALS[1] == 'n';
    assert INVALID_CREDENTIALS[1..1 + |UNIQUE_VIOLATION|][0] != UNIQUE_VIOLATION[0];
  }

  /** The user `getCurrentUser` reads back: None when the key is absent,
      holds the empty text, or holds text that is not a stored user. */
  function StoredUser(items: map<string, string>): Option<AuthUser> {
    if USER_KEY in items && items[USER_KEY] != "" then Parse(items[USER_KEY]) else None
  }

  /** What `isAuthenticated` answers for the stored items. */
  predicate Authenticated(items: map<string, string>) {
    && IS_LOGGED_IN_KEY in items && items[IS_LOGGED_IN_KEY] == "true"
    && StoredUser(items).Some?
  }

  /** The two writes of a successful login. */
  function LoggedIn(items: map<string, string>, u: AuthUser): map<string, string> {
    items[USER_KEY := Stringify(u)][IS_LOGGED_IN_KEY := "true"]
  }

  /** After the writes of a login the stored user is the user logged in,
      and the store reads as authenticated, whatever it held before. */
  lemma LoggedInReadsBack(items: map<string, string>, u: AuthUser)
    ensures StoredUser(LoggedIn(items, u)) == Some(u)
    ensures Authenticated(LoggedIn(items, u))
  {
    ParseStringify(u);
    assert LoggedIn(items, u)[USER_KEY] == Stringify(u);
  }

  /** After the removal of `logout` the store never reads as authenticated. */
  lemma LoggedOutReadsBack(items: map<string, string>)
    ensures StoredUser(items - {USER_KEY, IS_LOGGED_IN_KEY}).None?
    ensures !Authenticated(items - {USER_KEY, IS_LOGGED_IN_KEY})
  {
  }

  /** The static `AuthService` over the module-level table and the shared
      store. */
  class Auth {

    const db: Database
    const storage: KeyValueStore

    constructor (db: Database, storage: KeyValueStore)
      ensures this.db == db && this.storage == storage
    {
      this.db := db;
      this.storage := storage;
    }

    /** `AuthService.login(email, password)`. A miss is an error and the
        store is not written; a match stores the row's public view and the
        logged-in flag, and returns that view. */
    method Login(email: string, password: string) returns (r: Result<AuthUser>)
      requires db.Valid()
      modifies db`connection, storage
      ensures db.Valid() && db.Ready() == old(db.Ready())
      ensures old(db.Ready()).Err? ==> r == Err(old(db.Ready()).message) && storage.items == old(storage.items)
      ensures old(db.Ready()).Ok? ==>
        var found := FirstMatch(db.rows, email, password);
        && (found.None? ==> r == Err(INVALID_CREDENTIALS) && storage.items == old(storage.items))
        && (found.Some? ==> r == Ok(View(found.value)) && storage.items == LoggedIn(old(storage.items), r.value))
      ensures r.Ok? ==> StoredUser(storage.items) == Some(r.value) && Authenticated(storage.items)
    {
      var user := db.LoginUser(email, password);
      if user.Err? {
        return Err(user.message);
      }
      if user.value.None? {
        return Err(INVALID_CREDENTIALS);
      }
      var userData := View(user.value.value);
      storage.SetItem(USER_KEY, Stringify(userData));
      storage.SetItem(IS_LOGGED_IN_KEY, "true");
      LoggedInReadsBack(old(storage.items), userData);
      return Ok(userData);
    }

    /** `AuthService.register(name, email, password)`: inserts the row and
        then logs in with the same credentials, so that success returns the
        new row's view; every error is replaced by one of two messages. */
    method Register(name: string, email: string, password: string) returns (r: Result<AuthUser>)
      requires db.Valid()
      modifies db`connection, db`rows, db`nextId, storage
      ensures db.Valid() && db.Ready() == old(db.Ready())
      ensures old(db.Ready()).Err? ==>
        && r == Err(RegisterError(old(db.Ready()).message))
        && db.rows == old(db.rows) && storage.items == old(storage.items)
      ensures old(db.Ready()).Ok? ==>
        var ins := Insert(Table(old(db.rows), old(db.nextId)), NewUser(name, email, password));
        && (ins.Err? ==> r == Err(ALREADY_REGISTERED) && db.rows == old(db.rows) && storage.items == old(storage.items))
        && (ins.Ok? ==> && r == Ok(AuthUser(old(db.nextId), name, email))
                        && Table(db.rows, db.nextId) == ins.value
                        && storage.items == LoggedIn(old(storage.items), r.value))
      ensures r.Err? ==> r.message == ALREADY_REGISTERED || r.message == REGISTRATION_FAILED
    {
      ghost var table := Table(db.rows, db.nextId);
      var created := db.CreateUser(name, email, password);
      if created.Err? {
        RegisterErrors();
        return Err(RegisterError(created.message));
      }
      FindInserted(table, NewUser(name, email, password));
      // The login right after a successful insert finds the new row, so
      // the rewriting of its errors never applies.
      var user := Login(email, password);
      return user;
    }

    /** `AuthService.logout()`: removes the stored user and the flag and no
        other key; `fault` is what `multiRemove` throws, if anything. */
    method Logout(fault: Option<string>) returns (r: Result<()>)
      modifies storage
      ensures fault.None? ==> r == Ok(()) && storage.items == old(storage.items) - {USER_KEY, IS_LOGGED_IN_KEY}
      ensures fault.Some? ==> r == Err(fault.value) && storage.items == old(storage.items)
    {
      if fault.Some? {
        return Err(fault.value);
      }
      storage.MultiRemove([USER_KEY, IS_LOGGED_IN_KEY]);
      assert (set k | k in [USER_KEY, IS_LOGGED_IN_KEY]) == {USER_KEY, IS_LOGGED_IN_KEY};
      return Ok(());
    }

    /** `AuthService.getCurrentUser()`: never an error. */
    method GetCurrentUser() returns (u: Option<AuthUser>)
      ensures u == StoredUser(storage.items)
      ensures USER_KEY !in storage.items ==> u.None?
      ensures u.Some? ==> USER_KEY in storage.items && Parse(storage.items[USER_KEY]) == u
    {
      var userData := storage.GetItem(USER_KEY);
      if userData.None? || userData.value == "" {
        return None;
      }
      return Parse(userData.value);
    }

    /** `AuthService.isAuthenticated()`: the flag reads exactly `true` and
        a current user is stored. */
    method IsAuthenticated() returns (b: bool)
      ensures b <==> storage.GetItem(IS_LOGGED_IN_KEY) == Some("true") && StoredUser(storage.items).Some?
      ensures b == Authenticated(storage.items)
    {
      var isLoggedIn := storage.GetItem(IS_LOGGED_IN_KEY);
      var user := GetCurrentUser();
      return isLoggedIn == Some("true") && user.Some?;
    }

    /** `AuthService.updateCurrentUser(patch)`: rewrites only the stored
        user, with the patch's fields laid over it. */
    method UpdateCurrentUser(patch: UserPatch) returns (r: Result<()>)
      modifies storage
      ensures StoredUser(old(storage.items)).None? ==> r == Err(NO_USER) && storage.items == old(storage.items)
      ensures StoredUser(old(storage.items)).Some? ==>
        var updated := Merge(StoredUser(old(storage.items)).value, patch);
        && r == Ok(())
        && storage.items == old(storage.items)[USER_KEY := Stringify(updated)]
        && StoredUser(storage.items) == Some(updated)
    {
      var currentUser := GetCurrentUser();
      if currentUser.None? {
        return Err(NO_USER);
      }
      var updatedUser := Merge(currentUser.value, patch);
      storage.SetItem(USER_KEY, Stringify(updatedUser));
      ParseStringify(updatedUser);
      return Ok(());
    }
  }
}
