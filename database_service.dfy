/** `src/services/database/database-service.ts`: the on-device `Users`
    table (`id INTEGER PRIMARY KEY AUTOINCREMENT, name, email UNIQUE,
    password`) behind a lazily opened, cached connection handle. The
    table is a sequence of rows in insertion order and a next-id counter;
    whether the platform can open the database file is fixed when the
    object is made. */
module DatabaseService {

  import opened Wrappers

  const DB_NAME := "UserDB.db"

  /** The message SQLite gives for a statement on a table that was never created. */
  const NO_TABLE := "no such table: Users"

  /** The message SQLite gives when an insert repeats an email. */
  const DUPLICATE_EMAIL := "UNIQUE constraint failed: Users.email"

  /** One row of `Users`. */
  datatype UserRow = UserRow(id: int, name: string, email: string, password: string)

  /** The handle `SQLite.openDatabase` hands back. */
  datatype Connection = Connection(name: string)

  /** A row to be inserted, as `createUser` receives it. */
  datatype NewUser = NewUser(name: string, email: string, password: string)

  /** The table after an insert, with its next id. */
  datatype Table = Table(rows: seq<UserRow>, nextId: int)

  // ---------------------------------------------------------------------
  // The table on values

  predicate HasEmail(rows: seq<UserRow>, email: string) {
    exists i :: 0 <= i < |rows| && rows[i].email == email
  }

  /** The `UNIQUE` constraint on `email`. */
  predicate EmailsUnique(rows: seq<UserRow>) {
    forall i, j :: 0 <= i < j < |rows| ==> rows[i].email != rows[j].email
  }

  /** `AUTOINCREMENT`: ids grow with insertion order, start at 1 and stay
      below the next id to hand out. */
  predicate IdsIncreasing(rows: seq<UserRow>, nextId: int) {
    && (forall i, j :: 0 <= i < j < |rows| ==> rows[i].id < rows[j].id)
    && (forall i :: 0 <= i < |rows| ==> 1 <= rows[i].id < nextId)
  }

  predicate TableInvariant(t: Table) {
    t.nextId >= 1 && EmailsUnique(t.rows) && IdsIncreasing(t.rows, t.nextId)
  }

  /** `INSERT INTO Users (name, email, password) VALUES (?, ?, ?)` on an
      existing table. */
  function Insert(t: Table, u: NewUser): Result<Table> {
    if HasEmail(t.rows, u.email) then Err(DUPLICATE_EMAIL)
    else Ok(Table(t.rows + [UserRow(t.nextId, u.name, u.email, u.password)], t.nextId + 1))
  }

  /** A fresh email adds exactly one row, at the end, under an id no row
      had; a repeated one is refused with the constraint's message. */
  lemma InsertOutcome(t: Table, u: NewUser)
    requires TableInvariant(t)
    ensures Insert(t, u).Err? <==> HasEmail(t.rows, u.email)
    ensures Insert(t, u).Err? ==> Insert(t, u).message == DUPLICATE_EMAIL
    ensures Insert(t, u).Ok? ==>
      var r := Insert(t, u).value;
      && |r.rows| == |t.rows| + 1 && r.rows[..|t.rows|] == t.rows
      && r.rows[|t.rows|] == UserRow(r.rows[|t.rows|].id, u.name, u.email, u.password)
      && forall i :: 0 <= i < |t.rows| ==> t.rows[i].id != r.rows[|t.rows|].id
  {
    if !HasEmail(t.rows, u.email) {
      var r := Insert(t, u).value;
      assert r.rows[..|t.rows|] == t.rows;
    }
  }

  /** Every insert keeps the table's constraints. */
  lemma InsertKeepsInvariant(t: Table, u: NewUser)
    requires TableInvariant(t)
    ensures Insert(t, u).Ok? ==> TableInvariant(Insert(t, u).value)
  {
    if !HasEmail(t.rows, u.email) {
      var rows := Insert(t, u).value.rows;
      forall i, j | 0 <= i < j < |rows|
        ensures rows[i].email != rows[j].email
      {
        if j == |t.rows| {
          assert rows[i] == t.rows[i];
        }
      }
    }
  }

  /** A run of `createUser` calls on an existing table; refused inserts
      leave the table as it was. */
  function InsertAll(t: Table, us: seq<NewUser>): Table
    decreases |us|
  {
    if us == [] then t
    else
      var next := Insert(t, us[0]);
      InsertAll(if next.Ok? then next.value else t, us[1..])
  }

  /** After any sequence of inserts no two rows share an email and no two
      rows share an id. */
  lemma {:induction false} InsertAllKeepsInvariant(t: Table, us: seq<NewUser>)
    requires TableInvariant(t)
    ensures TableInvariant(InsertAll(t, us))
    ensures forall i, j :: 0 <= i < j < |InsertAll(t, us).rows| ==>
              InsertAll(t, us).rows[i].email != InsertAll(t, us).rows[j].email
              && InsertAll(t, us).rows[i].id != InsertAll(t, us).rows[j].id
    decreases |us|
  {
    if us != [] {
      InsertKeepsInvariant(t, us[0]);
      var next := Insert(t, us[0]);
      InsertAllKeepsInvariant(if next.Ok? then next.value else t, us[1..]);
    }
  }

  predicate Matches(r: UserRow, email: string, password: string) {
    r.email == email && r.password == password
  }

  /** The position of the first row from `from` on whose email and
      password are the given ones. */
  function FirstMatchFrom(rows: seq<UserRow>, email: string, password: string, from: nat): (r: Option<nat>)
    ensures r.Some? ==> from <= r.value < |rows| && Matches(rows[r.value], email, password)
                        && forall k :: from <= k < r.value ==> !Matches(rows[k], email, password)
    ensures r.None? ==> forall k :: from <= k < |rows| ==> !Matches(rows[k], email, password)
    decreases |rows| - from
  {
    if from >= |rows| then None
    else if Matches(rows[from], email, password) then Some(from)
    else FirstMatchFrom(rows, email, password, from + 1)
  }

  /** `SELECT * FROM Users WHERE email = ? AND password = ?`, first row. */
  function FirstMatch(rows: seq<UserRow>, email: string, password: string): (r: Option<UserRow>)
    ensures r.Some? <==> exists i :: 0 <= i < |rows| && Matches(rows[i], email, password)
    ensures r.Some? ==> exists i :: 0 <= i < |rows| && rows[i] == r.value && Matches(rows[i], email, password)
                          && forall k :: 0 <= k < i ==> !Matches(rows[k], email, password)
  {
    match FirstMatchFrom(rows, email, password, 0)
    case None => None
    case Some(i) => Some(rows[i])
  }

  /** With unique emails the first match is the only row with that email. */
  lemma OnlyMatch(rows: seq<UserRow>, email: string, password: string)
    requires EmailsUnique(rows)
    requires FirstMatch(rows, email, password).Some?
    ensures forall i :: 0 <= i < |rows| && rows[i].email == email ==> rows[i] == FirstMatch(rows, email, password).value
  {
  }

  /** Right after a fresh row is inserted, its own email and password
      find exactly that row. */
  lemma FindInserted(t: Table, u: NewUser)
    requires TableInvariant(t)
    requires !HasEmail(t.rows, u.email)
    ensures FirstMatch(Insert(t, u).value.rows, u.email, u.password) == Some(UserRow(t.nextId, u.name, u.email, u.password))
  {
    var rows := Insert(t, u).value.rows;
    var n := |t.rows|;
    assert Matches(rows[n], u.email, u.password);
    forall k | 0 <= k < n
      ensures !Matches(rows[k], u.email, u.password)
    {
      assert rows[k] == t.rows[k];
    }
  }

  /** `getDatabase`'s handle after one call: an existing handle is kept,
      otherwise the file is opened when the platform allows it. */
  function Opened(connection: Option<Connection>, openFault: Option<string>): (c: Option<Connection>)
  {
    if connection.Some? then connection
    else if openFault.None? then Some(Connection(DB_NAME))
    else None
  }

  /** The database is opened at most once: a handle, once there, is the
      one every later call gets, and a second call changes nothing. */
  lemma OpenedOnce(connection: Option<Connection>, openFault: Option<string>)
    ensures connection.Some? ==> Opened(connection, openFault) == connection
    ensures Opened(Opened(connection, openFault), openFault) == Opened(connection, openFault)
    ensures Opened(connection, openFault).None? <==> connection.None? && openFault.Some?
  {
  }

  // ---------------------------------------------------------------------
  // The module's state and its exported functions

  class Database {

    /** The module-level `database` handle; None until opened. */
    var connection: Option<Connection>

    /** Whether `CREATE TABLE Users` has run. */
    var tableExists: bool

    var rows: seq<UserRow>

    /** The id `AUTOINCREMENT` hands out next. */
    var nextId: int

    /** None when the platform opens the file; otherwise what
        `openDatabase` throws. */
    const openFault: Option<string>

    ghost predicate Valid()
      reads this
    {
      && TableInvariant(Table(rows, nextId))
      && (!tableExists ==> rows == [])
      && (connection.Some? ==> connection.value == Connection(DB_NAME))
    }

    constructor (openFault: Option<string>)
      ensures Valid() && this.openFault == openFault
      ensures connection.None? && !tableExists && rows == [] && nextId == 1
    {
      this.openFault := openFault;
      connection := None;
      tableExists := false;
      rows := [];
      nextId := 1;
    }

    /** Ok when `getDatabase` would hand out a handle and `Users` exists;
        otherwise the error a statement on the table throws. */
    function Ready(): Result<()>
      reads this
    {
      if Opened(connection, openFault).None? then Err(openFault.value)
      else if !tableExists then Err(NO_TABLE)
      else Ok(())
    }

    /** `getDatabase()`: the cached handle, or a newly opened one, or the
        error opening threw. */
    method GetDatabase() returns (r: Result<Connection>)
      requires Valid()
      modifies this`connection
      ensures Valid()
      ensures connection == Opened(old(connection), openFault)
      ensures old(connection).Some? ==> r == Ok(old(connection).value)
      ensures connection.Some? ==> r == Ok(connection.value)
      ensures connection.None? ==> openFault.Some? && r == Err(openFault.value)
    {
      if connection.Some? {
        return Ok(connection.value);
      }
      if openFault.Some? {
        return Err(openFault.value);
      }
      var db := Connection(DB_NAME);
      connection := Some(db);
      return Ok(db);
    }

    /** `initDB()`: `CREATE TABLE IF NOT EXISTS Users`. An existing table
        and its rows are left as they are. */
    method InitDB() returns (r: Result<()>)
      requires Valid()
      modifies this`connection, this`tableExists
      ensures Valid()
      ensures connection == Opened(old(connection), openFault)
      ensures connection.None? ==> r == Err(openFault.value) && tableExists == old(tableExists)
      ensures connection.Some? ==> r == Ok(()) && tableExists
      ensures rows == old(rows) && nextId == old(nextId)
    {
      var db := GetDatabase();
      if db.Err? {
        return Err(db.message);
      }
      tableExists := true;
      return Ok(());
    }

    /** `createUser(name, email, password)`: the new row's id, or the
        error SQLite reports. */
    method CreateUser(name: string, email: string, password: string) returns (r: Result<int>)
      requires Valid()
      modifies this`connection, this`rows, this`nextId
      ensures Valid()
      ensures connection == Opened(old(connection), openFault)
      ensures Ready() == old(Ready())
      ensures old(Ready()).Err? ==> r == Err(old(Ready()).message)
      ensures old(Ready()).Ok? ==>
        var ins := Insert(Table(old(rows), old(nextId)), NewUser(name, email, password));
        && (ins.Err? ==> r == Err(ins.message))
        && (ins.Ok? ==> r == Ok(old(nextId)) && Table(rows, nextId) == ins.value)
      ensures r.Err? ==> rows == old(rows) && nextId == old(nextId)
    {
      var db := GetDatabase();
      if db.Err? {
        return Err(db.message);
      }
      if !tableExists {
        return Err(NO_TABLE);
      }
      var t := Table(rows, nextId);
      var u := NewUser(name, email, password);
      InsertKeepsInvariant(t, u);
      var ins := Insert(t, u);
      if ins.Err? {
        return Err(ins.message);
      }
      r := Ok(nextId);
      rows := ins.value.rows;
      nextId := ins.value.nextId;
    }

    /** `loginUser(email, password)`: the first row with both the email and
        the password, or None. The email-only lookup the source runs after
        a miss only feeds its log. */
    method LoginUser(email: string, password: string) returns (r: Result<Option<UserRow>>)
      requires Valid()
      modifies this`connection
      ensures Valid()
      ensures connection == Opened(old(connection), openFault)
      ensures Ready() == old(Ready())
      ensures old(Ready()).Err? ==> r == Err(old(Ready()).message)
      ensures old(Ready()).Ok? ==> r == Ok(FirstMatch(rows, email, password))
    {
      var db := GetDatabase();
      if db.Err? {
        return Err(db.message);
      }
      if !tableExists {
        return Err(NO_TABLE);
      }
      var user := FirstMatch(rows, email, password);
      if user.Some? {
        return Ok(user);
      }
      var emailExists := HasEmail(rows, email);
      return Ok(None);
    }

    /** `getAllUsers()`: every row, in table order. */
    method GetAllUsers() returns (r: Result<seq<UserRow>>)
      requires Valid()
      modifies this`connection
      ensures Valid()
      ensures connection == Opened(old(connection), openFault)
      ensures Ready() == old(Ready())
      ensures old(Ready()).Err? ==> r == Err(old(Ready()).message)
      ensures old(Ready()).Ok? ==> r == Ok(rows) && |r.value| == |rows|
    {
      var db := GetDatabase();
      if db.Err? {
        return Err(db.message);
      }
      if !tableExists {
        return Err(NO_TABLE);
      }
      var users: seq<UserRow> := [];
      var i := 0;
      while i < |rows|
        invariant 0 <= i <= |rows|
        invariant users == rows[..i]
      {
        users := users + [rows[i]];
        i := i + 1;
      }
      assert rows[..i] == rows;
      return Ok(users);
    }
  }
}
