/** services/WebSQLiteService.ts: the relational store on sql.js, an
    in-memory SQLite database in the browser. Every `init` that gets as far
    as creating a database replaces the previous one by a new, empty one. */
module WebSQLite {
  import opened UserRecords
  import opened Ordering
  import opened SqlTable

  /** An sql.js database: whether its `users` table exists, and its rows. */
  datatype Database = Database(hasUsersTable: bool, rows: seq<User>)

  /** The steps of `init` that can throw. */
  datatype InitFault =
    | NoWindow                          // not running in a browser
    | LoadFailed(message: string)       // the module import or the wasm load rejects
    | NoDatabaseConstructor             // the loaded module has no Database
    | CreateTableFailed(message: string) // the new database refuses CREATE TABLE

  const NoWindowMessage: string := "Ambiente web não detectado"
  const NotLoadedMessage: string := "SQL.js não carregado corretamente"
  const SaveFallbackMessage: string := "Erro ao salvar usuário"

  /** The message `init` rejects with: its own text for the two checks it
      makes, the rethrown error's message otherwise. */
  function InitFaultMessage(f: InitFault): (m: string)
    ensures f.NoWindow? ==> m == NoWindowMessage
    ensures f.NoDatabaseConstructor? ==> m == NotLoadedMessage
    ensures f.LoadFailed? || f.CreateTableFailed? ==> m == f.message
  {
    match f
    case NoWindow => NoWindowMessage
    case LoadFailed(m) => m
    case NoDatabaseConstructor => NotLoadedMessage
    case CreateTableFailed(m) => m
  }

  /** `error.message || 'Erro ao salvar usuário'` */
  function SaveErrorText(message: string): (t: string)
    ensures t != ""
    ensures message != "" ==> t == message
  {
    if message == "" then SaveFallbackMessage else message
  }

  class WebSQLiteService {
    var db: Option<Database>
    var initialized: bool

    ghost predicate Valid()
      reads this
    {
      (initialized ==> db.Some?) &&
      (db.Some? ==> ValidTable(db.value.rows) && (!db.value.hasUsersTable ==> db.value.rows == []))
    }

    /** The guard `!this.initialized || !this.db` every operation runs first. */
    predicate Ready()
      reads this
    {
      initialized && db.Some?
    }

    /** The rows of the current database (none without one). */
    ghost function Rows(): seq<User>
      reads this
    {
      if db.Some? then db.value.rows else []
    }

    constructor ()
      ensures Valid() && db == None && !initialized
    {
      db := None;
      initialized := false;
    }

    /** fault: the step at which loading or creating fails, if any. The flag
        is set only after the table statement has run; a database created
        before a failing table statement stays in place, without a table. */
    method Init(fault: Option<InitFault>) returns (r: InitOutcome)
      requires Valid()
      modifies this
      ensures Valid()
      ensures fault.None? ==> r == Resolved && initialized && db == Some(Database(true, []))
      ensures fault.Some? ==> r == Rejected(InitFaultMessage(fault.value)) && initialized == old(initialized)
      ensures fault.Some? && !fault.value.CreateTableFailed? ==> db == old(db)
      ensures fault.Some? && fault.value.CreateTableFailed? ==> db == Some(Database(false, []))
    {
      if fault.Some? && !fault.value.CreateTableFailed? {
        r := Rejected(InitFaultMessage(fault.value));
        return;
      }
      db := Some(Database(false, []));
      if fault.Some? {
        r := Rejected(InitFaultMessage(fault.value));
        return;
      }
      db := Some(Database(true, []));
      initialized := true;
      r := Resolved;
    }

    /** Check-then-insert: a SELECT for the email, then the INSERT, which
        can still hit the primary key on the id. */
    method SaveUser(c: Candidate, id: string, createdAt: string) returns (r: UserResult)
      requires Valid()
      modifies this
      ensures Valid() && initialized == old(initialized)
      ensures !r.success ==> db == old(db) && r.user == None
      ensures !old(Ready()) ==> r == SaveFailed(NotInitialized)
      ensures old(Ready()) && !old(db.value.hasUsersTable) ==> r == SaveFailed(MissingTable)
      ensures old(Ready()) && old(db.value.hasUsersTable) ==>
        if EmailTaken(old(Rows()), c.email) then r == SaveFailed(DuplicateEmail)
        else if IdTaken(old(Rows()), id) then r == SaveFailed(PrimaryKeyViolation)
        else r == Saved(NewUser(c, id, createdAt)) &&
             db == Some(Database(true, old(Rows()) + [NewUser(c, id, createdAt)]))
    {
      if !initialized || db.None? {
        r := SaveFailed(NotInitialized);
        return;
      }
      var newUser := NewUser(c, id, createdAt);
      var current := db.value;
      if !current.hasUsersTable {
        r := SaveFailed(SaveErrorText(MissingTable));
        return;
      }
      if SelectWhereEmail(current.rows, newUser.email) != [] {
        r := SaveFailed(SaveErrorText(DuplicateEmail));
        return;
      }
      InsertKeepsTableValid(current.rows, newUser);
      match InsertRow(current.rows, newUser)
      case Inserted(t) =>
        db := Some(Database(true, t));
        r := Saved(newUser);
      case Violation(message) =>
        r := SaveFailed(SaveErrorText(message));
    }

    function GetUserByEmail(email: string): (r: UserResult)
      reads this
      ensures !Ready() ==> r == UserResult(false, None, Some(NotInitialized))
      ensures Ready() && !db.value.hasUsersTable ==> r == UserResult(false, None, Some(MissingTable))
      ensures Ready() && db.value.hasUsersTable ==>
        r.success && r.error == None && (r.user.None? <==> !EmailTaken(Rows(), email))
      ensures r.user.Some? ==>
        r.user.value in Rows() && r.user.value.email == email && r.user == FindByEmail(Rows(), email)
    {
      if !Ready() then UserResult(false, None, Some(NotInitialized))
      else if !db.value.hasUsersTable then UserResult(false, None, Some(MissingTable))
      else
        var selected := SelectWhereEmail(db.value.rows, email);
        UserResult(true, if selected != [] then Some(selected[0]) else None, None)
    }

    /** Steps through `SELECT * FROM users ORDER BY createdAt DESC`,
        pushing each row onto the result. */
    method GetAllUsers() returns (r: UsersResult)
      ensures !Ready() ==> r == UsersResult(false, [], Some(NotInitialized))
      ensures Ready() && !db.value.hasUsersTable ==> r == UsersResult(false, [], Some(MissingTable))
      ensures Ready() && db.value.hasUsersTable ==>
        r.success && r.error == None && r.users == OrderByCreatedAtDesc(Rows()) &&
        NewestFirst(r.users) && multiset(r.users) == multiset(Rows())
    {
      if !initialized || db.None? {
        r := UsersResult(false, [], Some(NotInitialized));
        return;
      }
      if !db.value.hasUsersTable {
        r := UsersResult(false, [], Some(MissingTable));
        return;
      }
      var resultRows := OrderByCreatedAtDesc(db.value.rows);
      var users: seq<User> := [];
      var next := 0;
      while next < |resultRows|
        invariant 0 <= next <= |resultRows|
        invariant users == resultRows[..next]
      {
        users := users + [resultRows[next]];
        next := next + 1;
      }
      assert resultRows[..next] == resultRows;
      r := UsersResult(true, users, None);
    }

    /** `DELETE FROM users` */
    method ClearAll() returns (r: StatusResult)
      requires Valid()
      modifies this
      ensures Valid() && initialized == old(initialized)
      ensures !old(Ready()) ==> r == StatusResult(false, Some(NotInitialized)) && db == old(db)
      ensures old(Ready()) && !old(db.value.hasUsersTable) ==>
        r == StatusResult(false, Some(MissingTable)) && db == old(db)
      ensures old(Ready()) && old(db.value.hasUsersTable) ==>
        r == StatusResult(true, None) && db == Some(Database(true, []))
    {
      if !initialized || db.None? {
        r := StatusResult(false, Some(NotInitialized));
        return;
      }
      if !db.value.hasUsersTable {
        r := StatusResult(false, Some(MissingTable));
        return;
      }
      db := Some(Database(true, []));
      r := StatusResult(true, None);
    }

    /** The flag; once it is set a database exists, so the flag alone
        decides whether the operations run. */
    function IsInitialized(): (r: bool)
      reads this
      requires Valid()
      ensures r == initialized
      ensures r <==> Ready()
    {
      initialized
    }
  }
}
