/** services/SQLiteService.ts: the relational store, with an array-backed
    simulation for the web, a wrapper around the device's SQLite engine for
    mobile, and a facade that picks one of them once, by platform. */
module SQLiteService {
  import opened UserRecords
  import opened Ordering
  import opened SqlTable

  /** The web stand-in: an array plays the table and is always ready. */
  class WebSQLiteSimulation {
    var db: seq<User>

    ghost predicate Valid()
      reads this
    {
      UniqueEmails(db)
    }

    constructor ()
      ensures Valid() && db == []
    {
      db := [];
    }

    /** `init` only logs and resolves. */
    method Init() returns (r: InitOutcome)
      ensures r == Resolved
    {
      r := Resolved;
    }

    /** Scan for the email, then push the new user at the end of the array. */
    method SaveUser(c: Candidate, id: string, createdAt: string) returns (r: UserResult)
      requires Valid()
      modifies this
      ensures Valid()
      ensures EmailTaken(old(db), c.email) ==> r == SaveFailed(DuplicateEmail) && db == old(db)
      ensures !EmailTaken(old(db), c.email) ==>
        r == Saved(NewUser(c, id, createdAt)) && db == old(db) + [NewUser(c, id, createdAt)]
    {
      if EmailTaken(db, c.email) {
        r := SaveFailed(DuplicateEmail);
        return;
      }
      var newUser := NewUser(c, id, createdAt);
      AppendKeepsUniqueEmails(db, newUser);
      db := db + [newUser];
      r := Saved(newUser);
    }

    /** Always a success: the first user with the email, or none. */
    function GetUserByEmail(email: string): (r: UserResult)
      reads this
      ensures r.success && r.error == None
      ensures r.user.None? <==> !EmailTaken(db, email)
      ensures r.user.Some? ==> exists i :: FirstWithEmail(db, email, i) && db[i] == r.user.value
    {
      UserResult(true, FindByEmail(db, email), None)
    }

    /** A reversed copy of the array: the latest insertion first. */
    function GetAllUsers(): (r: UsersResult)
      reads this
      ensures r.success && r.error == None
      ensures |r.users| == |db|
      ensures forall k :: 0 <= k < |db| ==> r.users[k] == db[|db| - 1 - k]
    {
      UsersResult(true, Reversed(db), None)
    }

    method ClearAll() returns (r: StatusResult)
      requires Valid()
      modifies this
      ensures Valid()
      ensures r == StatusResult(true, None) && db == []
    {
      db := [];
      r := StatusResult(true, None);
    }
  }

  /** The mobile store: a `users` table in the engine's `users.db`, usable
      only after `init` has created the table. */
  class NativeSQLiteService {
    var initialized: bool
    /** The rows of the table, in insertion order; the database file keeps
        them between runs of the application. */
    var rows: seq<User>

    ghost predicate Valid()
      reads this
    {
      ValidTable(rows)
    }

    /** persisted: what `CREATE TABLE IF NOT EXISTS` will find in the file. */
    constructor (persisted: seq<User>)
      requires ValidTable(persisted)
      ensures Valid() && !initialized && rows == persisted
    {
      initialized := false;
      rows := persisted;
    }

    /** Opens the database and runs `CREATE TABLE IF NOT EXISTS`; fault is
        the error the engine reports, if any. Only the statement's success
        callback sets the flag; a failure rejects and leaves it as it was.
        The rows are never touched. */
    method Init(fault: Option<string>) returns (r: InitOutcome)
      requires Valid()
      modifies this
      ensures Valid() && rows == old(rows)
      ensures fault.None? ==> initialized && r == Resolved
      ensures fault.Some? ==> initialized == old(initialized) && r == Rejected(fault.value)
    {
      if fault.Some? {
        r := Rejected(fault.value);
        return;
      }
      initialized := true;
      r := Resolved;
    }

    /** `INSERT INTO users`: the table's constraints reject a taken id or
        email, and the engine's message is returned. */
    method SaveUser(c: Candidate, id: string, createdAt: string) returns (r: UserResult)
      requires Valid()
      modifies this
      ensures Valid() && initialized == old(initialized)
      ensures !old(initialized) ==> r == SaveFailed(NotInitialized) && rows == old(rows)
      ensures old(initialized) && (IdTaken(old(rows), id) || EmailTaken(old(rows), c.email)) ==>
        !r.success && r.user == None && rows == old(rows) &&
        (r.error == Some(PrimaryKeyViolation) || r.error == Some(EmailUniqueViolation))
      ensures r.error == Some(PrimaryKeyViolation) ==> IdTaken(old(rows), id)
      ensures r.error == Some(EmailUniqueViolation) ==> EmailTaken(old(rows), c.email)
      ensures old(initialized) && !IdTaken(old(rows), id) && !EmailTaken(old(rows), c.email) ==>
        r == Saved(NewUser(c, id, createdAt)) && rows == old(rows) + [NewUser(c, id, createdAt)]
    {
      if !initialized {
        r := SaveFailed(NotInitialized);
        return;
      }
      var newUser := NewUser(c, id, createdAt);
      InsertKeepsTableValid(rows, newUser);
      match InsertRow(rows, newUser)
      case Inserted(t) =>
        rows := t;
        r := Saved(newUser);
      case Violation(message) =>
        r := SaveFailed(message);
    }

    /** `SELECT * FROM users WHERE email = ?`, keeping the first row. */
    function GetUserByEmail(email: string): (r: UserResult)
      reads this
      ensures !initialized ==> r == UserResult(false, None, Some(NotInitialized))
      ensures initialized ==> r.success && r.error == None
      ensures initialized ==> (r.user.None? <==> !EmailTaken(rows, email))
      ensures initialized && r.user.Some? ==>
        r.user.value in rows && r.user.value.email == email && r.user == FindByEmail(rows, email)
    {
      if !initialized then UserResult(false, None, Some(NotInitialized))
      else
        var selected := SelectWhereEmail(rows, email);
        UserResult(true, if |selected| > 0 then Some(selected[0]) else None, None)
    }

    /** `SELECT * FROM users ORDER BY createdAt DESC`, copied row by row
        into the result. */
    method GetAllUsers() returns (r: UsersResult)
      ensures !initialized ==> r == UsersResult(false, [], Some(NotInitialized))
      ensures initialized ==> r.success && r.error == None
      ensures initialized ==> NewestFirst(r.users) && multiset(r.users) == multiset(rows)
      ensures initialized ==> r.users == OrderByCreatedAtDesc(rows)
    {
      if !initialized {
        r := UsersResult(false, [], Some(NotInitialized));
        return;
      }
      var resultRows := OrderByCreatedAtDesc(rows);
      var users: seq<User> := [];
      var i := 0;
      while i < |resultRows|
        invariant 0 <= i <= |resultRows|
        invariant users == resultRows[..i]
      {
        users := users + [resultRows[i]];
        i := i + 1;
      }
      assert resultRows[..i] == resultRows;
      r := UsersResult(true, users, None);
    }

    /** `DELETE FROM users` */
    method ClearAll() returns (r: StatusResult)
      requires Valid()
      modifies this
      ensures Valid() && initialized == old(initialized)
      ensures !old(initialized) ==> r == StatusResult(false, Some(NotInitialized)) && rows == old(rows)
      ensures old(initialized) ==> r == StatusResult(true, None) && rows == []
    {
      if !initialized {
        r := StatusResult(false, Some(NotInitialized));
        return;
      }
      rows := [];
      r := StatusResult(true, None);
    }
  }

  /** The exported `SQLiteService`: every call goes to the implementation
      chosen once, when the module loads, by the platform probe. */
  class SQLiteFacade {
    const isWeb: bool
    const simulation: WebSQLiteSimulation?
    const native: NativeSQLiteService?

    ghost predicate Valid()
      reads this, simulation, native
    {
      if isWeb then simulation != null && native == null && simulation.Valid()
      else native != null && simulation == null && native.Valid()
    }

    /** The users the chosen implementation holds. */
    ghost function Stored(): seq<User>
      reads this, simulation, native
      requires Valid()
    {
      if isWeb then simulation.db else native.rows
    }

    /** platformIsWeb: the result of the platform probe; persisted: the
        rows the mobile database file already holds. */
    constructor (platformIsWeb: bool, persisted: seq<User>)
      requires ValidTable(persisted)
      ensures Valid() && isWeb == platformIsWeb
      ensures isWeb ==> fresh(simulation) && Stored() == []
      ensures !isWeb ==> fresh(native) && !native.initialized && Stored() == persisted
    {
      isWeb := platformIsWeb;
      if platformIsWeb {
        simulation := new WebSQLiteSimulation();
        native := null;
      } else {
        native := new NativeSQLiteService(persisted);
        simulation := null;
      }
    }

    method Init(fault: Option<string>) returns (r: InitOutcome)
      requires Valid()
      modifies native
      ensures Valid() && Stored() == old(Stored())
      ensures isWeb ==> r == Resolved
      ensures !isWeb && fault.None? ==> native.initialized && r == Resolved
      ensures !isWeb && fault.Some? ==> native.initialized == old(native.initialized) && r == Rejected(fault.value)
    {
      if isWeb {
        r := simulation.Init();
      } else {
        r := native.Init(fault);
      }
    }

    method SaveUser(c: Candidate, id: string, createdAt: string) returns (r: UserResult)
      requires Valid()
      modifies simulation, native
      ensures Valid()
      ensures !isWeb ==> native.initialized == old(native.initialized)
      ensures r.success ==> r == Saved(NewUser(c, id, createdAt))
      ensures !r.success ==> r.user == None
      ensures Stored() == if r.success then old(Stored()) + [NewUser(c, id, createdAt)] else old(Stored())
      ensures isWeb && !r.success ==> r == SaveFailed(DuplicateEmail)
      ensures !isWeb && !old(native.initialized) ==> r == SaveFailed(NotInitialized)
      ensures !isWeb && old(native.initialized) && !r.success ==>
        (r == SaveFailed(PrimaryKeyViolation) && IdTaken(old(Stored()), id)) ||
        (r == SaveFailed(EmailUniqueViolation) && EmailTaken(old(Stored()), c.email))
      ensures isWeb ==> (r.success <==> !EmailTaken(old(Stored()), c.email))
      ensures !isWeb ==>
        (r.success <==> old(native.initialized) && !IdTaken(old(Stored()), id) && !EmailTaken(old(Stored()), c.email))
    {
      if isWeb {
        r := simulation.SaveUser(c, id, createdAt);
      } else {
        r := native.SaveUser(c, id, createdAt);
      }
    }

    function GetUserByEmail(email: string): (r: UserResult)
      reads this, simulation, native
      requires Valid()
      ensures r.success <==> isWeb || native.initialized
      ensures !r.success ==> r == UserResult(false, None, Some(NotInitialized))
      ensures r.success ==> r.error == None && (r.user.None? <==> !EmailTaken(Stored(), email))
      ensures r.user.Some? ==> r.user == FindByEmail(Stored(), email)
    {
      if isWeb then simulation.GetUserByEmail(email) else native.GetUserByEmail(email)
    }

    method GetAllUsers() returns (r: UsersResult)
      requires Valid()
      ensures r.success <==> isWeb || native.initialized
      ensures !r.success ==> r == UsersResult(false, [], Some(NotInitialized))
      ensures r.success ==> r.error == None && multiset(r.users) == multiset(Stored())
      ensures isWeb ==> r.users == Reversed(Stored())
      ensures !isWeb && r.success ==> NewestFirst(r.users)
    {
      if isWeb {
        r := simulation.GetAllUsers();
        ReversedIsPermutation(simulation.db);
      } else {
        r := native.GetAllUsers();
      }
    }

    method ClearAll() returns (r: StatusResult)
      requires Valid()
      modifies simulation, native
      ensures Valid()
      ensures !isWeb ==> native.initialized == old(native.initialized)
      ensures r.success <==> isWeb || old(native.initialized)
      ensures r == if r.success then StatusResult(true, None) else StatusResult(false, Some(NotInitialized))
      ensures Stored() == if r.success then [] else old(Stored())
    {
      if isWeb {
        r := simulation.ClearAll();
      } else {
        r := native.ClearAll();
      }
    }

    /** `isWebSimulation`: the probe's answer, which is also the choice of
        implementation. */
    function IsWebSimulation(): (r: bool)
      reads this, simulation, native
      requires Valid()
      ensures r <==> simulation != null
      ensures !r <==> native != null
    {
      isWeb
    }
  }
}
