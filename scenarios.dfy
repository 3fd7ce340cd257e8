/** Client runs of the stores, proved from their contracts alone: the
    register-twice walk-through, the two read-all orders with three users,
    the relational stores before `init`, and what a second `init` does. */
module Scenarios {
  import opened UserRecords
  import opened Ordering
  import opened SqlTable
  import opened AsyncStorage
  import opened SQLiteService
  import opened WebSQLite

  /** Register Ana in the key-value store, register her again, look her up. */
  method KeyValueRegisterTwice() returns (first: UserResult, second: UserResult, found: UserResult)
    ensures first.success && first.user.Some? && first.user.value.email == "ana@x.com"
    ensures second == SaveFailed(DuplicateEmail)
    ensures found.success && found.user.Some? && found.user.value.name == "Ana"
  {
    var store := new AsyncStorageService(map[]);
    var ana := Candidate("Ana", "ana@x.com", "abcdef");
    first := store.SaveUser(ana, "1", "2024-05-01T10:00:00.000Z", None, None);
    assert UsersIn(store.items) == [NewUser(ana, "1", "2024-05-01T10:00:00.000Z")];
    second := store.SaveUser(ana, "2", "2024-05-01T10:00:01.000Z", None, None);
    found := store.GetUserByEmail("ana@x.com", false);
  }

  /** Three candidates with distinct emails, the input of the ordering
      scenarios; they are saved with ids "1", "2", "3" and timestamps
      t1, t2, t3 in this order. */
  predicate DistinctEmails(a: Candidate, b: Candidate, c: Candidate)
  {
    a.email != b.email && a.email != c.email && b.email != c.email
  }

  /** Three users saved in the key-value store are listed in insertion order. */
  method KeyValueInsertionOrder(a: Candidate, b: Candidate, c: Candidate, t1: string, t2: string, t3: string)
    returns (all: UsersResult)
    requires DistinctEmails(a, b, c)
    ensures all == UsersResult(true, [NewUser(a, "1", t1), NewUser(b, "2", t2), NewUser(c, "3", t3)], None)
  {
    var store := KeyValueWithThreeUsers(a, b, c, t1, t2, t3);
    all := store.GetAllUsers(false);
  }

  /** A key-value store into which the three users were saved. */
  method KeyValueWithThreeUsers(a: Candidate, b: Candidate, c: Candidate, t1: string, t2: string, t3: string)
    returns (store: AsyncStorageService)
    requires DistinctEmails(a, b, c)
    ensures fresh(store)
    ensures UsersIn(store.items) == [NewUser(a, "1", t1), NewUser(b, "2", t2), NewUser(c, "3", t3)]
  {
    var ua, ub := NewUser(a, "1", t1), NewUser(b, "2", t2);
    store := new AsyncStorageService(map[]);
    KeyValueSaveNew(store, a, "1", t1);
    assert !EmailTaken([ua], b.email);
    KeyValueSaveNew(store, b, "2", t2);
    assert !EmailTaken([ua, ub], c.email);
    KeyValueSaveNew(store, c, "3", t3);
  }

  /** A key-value save whose email is new and whose storage calls succeed
      appends to the stored list. */
  method KeyValueSaveNew(store: AsyncStorageService, c: Candidate, id: string, t: string)
    requires !EmailTaken(UsersIn(store.items), c.email)
    modifies store
    ensures UsersIn(store.items) == UsersIn(old(store.items)) + [NewUser(c, id, t)]
  {
    var r := store.SaveUser(c, id, t, None, None);
  }

  /** The same three users in the simulation come back newest first,
      whatever their timestamps. */
  method SimulationNewestFirst(a: Candidate, b: Candidate, c: Candidate, t1: string, t2: string, t3: string)
    returns (all: UsersResult)
    requires DistinctEmails(a, b, c)
    ensures all == UsersResult(true, [NewUser(c, "3", t3), NewUser(b, "2", t2), NewUser(a, "1", t1)], None)
  {
    var store := SimulationWithThreeUsers(a, b, c, t1, t2, t3);
    all := store.GetAllUsers();
  }

  /** A simulated store into which the three users were saved. */
  method SimulationWithThreeUsers(a: Candidate, b: Candidate, c: Candidate, t1: string, t2: string, t3: string)
    returns (store: WebSQLiteSimulation)
    requires DistinctEmails(a, b, c)
    ensures fresh(store)
    ensures store.db == [NewUser(a, "1", t1), NewUser(b, "2", t2), NewUser(c, "3", t3)]
  {
    var ua, ub := NewUser(a, "1", t1), NewUser(b, "2", t2);
    store := new WebSQLiteSimulation();
    var r := store.SaveUser(a, "1", t1);
    assert !EmailTaken([ua], b.email);
    r := store.SaveUser(b, "2", t2);
    assert !EmailTaken([ua, ub], c.email);
    r := store.SaveUser(c, "3", t3);
  }

  /** In the native table they come back newest first by timestamp: when
      the timestamps increase, in the very order the simulation gives. */
  method NativeNewestFirst(a: Candidate, b: Candidate, c: Candidate, t1: string, t2: string, t3: string)
    returns (all: UsersResult)
    requires DistinctEmails(a, b, c)
    requires TextLe(t1, t2) && TextLe(t2, t3) && t1 != t2 && t2 != t3
    ensures all == UsersResult(true, [NewUser(c, "3", t3), NewUser(b, "2", t2), NewUser(a, "1", t1)], None)
  {
    var ua, ub, uc := NewUser(a, "1", t1), NewUser(b, "2", t2), NewUser(c, "3", t3);
    var store := NativeWithThreeUsers(a, b, c, t1, t2, t3);
    AscendingTimestamps(ua, ub, uc);
    ThreeRowsNewestFirst([ua, ub, uc]);
    all := store.GetAllUsers();
  }

  /** An initialised native store into which the three users were saved. */
  method NativeWithThreeUsers(a: Candidate, b: Candidate, c: Candidate, t1: string, t2: string, t3: string)
    returns (store: NativeSQLiteService)
    requires DistinctEmails(a, b, c)
    ensures fresh(store) && store.initialized && store.Valid()
    ensures store.rows == [NewUser(a, "1", t1), NewUser(b, "2", t2), NewUser(c, "3", t3)]
  {
    var ua, ub := NewUser(a, "1", t1), NewUser(b, "2", t2);
    store := new NativeSQLiteService([]);
    var i := store.Init(None);
    NativeSaveNew(store, a, "1", t1);
    assert !EmailTaken([ua], b.email) && !IdTaken([ua], "2");
    NativeSaveNew(store, b, "2", t2);
    assert !EmailTaken([ua, ub], c.email) && !IdTaken([ua, ub], "3");
    NativeSaveNew(store, c, "3", t3);
  }

  /** A native save with a new id and a new email, after `init`, appends. */
  method NativeSaveNew(store: NativeSQLiteService, c: Candidate, id: string, t: string)
    requires store.Valid() && store.initialized
    requires !EmailTaken(store.rows, c.email) && !IdTaken(store.rows, id)
    modifies store
    ensures store.Valid() && store.initialized
    ensures store.rows == old(store.rows) + [NewUser(c, id, t)]
  {
    var r := store.SaveUser(c, id, t);
  }

  /** Three increasing, distinct timestamps make an oldest-first sequence. */
  lemma AscendingTimestamps(ua: User, ub: User, uc: User)
    requires TextLe(ua.createdAt, ub.createdAt) && TextLe(ub.createdAt, uc.createdAt)
    requires ua.createdAt != ub.createdAt && ub.createdAt != uc.createdAt
    ensures OldestFirst([ua, ub, uc]) && DistinctTimestamps([ua, ub, uc])
  {
    TextLeTransitive(ua.createdAt, ub.createdAt, uc.createdAt);
    if ua.createdAt == uc.createdAt {
      TextLeAntisymmetric(ua.createdAt, ub.createdAt);
    }
  }

  /** The ordered select over three rows whose timestamps increase is
      their reversal. */
  lemma ThreeRowsNewestFirst(rows: seq<User>)
    requires |rows| == 3 && OldestFirst(rows) && DistinctTimestamps(rows)
    ensures OrderByCreatedAtDesc(rows) == [rows[2], rows[1], rows[0]]
  {
    ReversedMatchesOrderBy(rows);
    assert Reversed(rows) == [rows[2], rows[1], rows[0]];
  }

  /** Every operation of either relational store that has not been
      initialised fails with the not-initialised error. */
  method RelationalBeforeInit()
    returns (save: UserResult, find: UserResult, all: UsersResult, clear: StatusResult,
             nativeSave: UserResult, nativeFind: UserResult, nativeAll: UsersResult, nativeClear: StatusResult)
    ensures save == nativeSave == SaveFailed(NotInitialized)
    ensures find == nativeFind == UserResult(false, None, Some(NotInitialized))
    ensures all == nativeAll == UsersResult(false, [], Some(NotInitialized))
    ensures clear == nativeClear == StatusResult(false, Some(NotInitialized))
  {
    var ana := Candidate("Ana", "ana@x.com", "abcdef");

    var web := new WebSQLiteService();
    save := web.SaveUser(ana, "1", "2024-05-01T10:00:00.000Z");
    find := web.GetUserByEmail("ana@x.com");
    all := web.GetAllUsers();
    clear := web.ClearAll();

    var native := new NativeSQLiteService([]);
    nativeSave := native.SaveUser(ana, "1", "2024-05-01T10:00:00.000Z");
    nativeFind := native.GetUserByEmail("ana@x.com");
    nativeAll := native.GetAllUsers();
    nativeClear := native.ClearAll();
  }

  /** A second successful `init` keeps the native table and its flag, but
      gives the sql.js store a new, empty database. */
  method InitTwice()
    returns (nativeFirst: InitOutcome, nativeSecond: InitOutcome, nativeAfter: UsersResult, webAfter: UsersResult)
    ensures nativeFirst == nativeSecond == Resolved
    ensures nativeAfter == UsersResult(true, [NewUser(Candidate("Ana", "ana@x.com", "abcdef"), "1", "1")], None)
    ensures webAfter == UsersResult(true, [], None)
  {
    var ana := Candidate("Ana", "ana@x.com", "abcdef");

    var native := new NativeSQLiteService([]);
    nativeFirst := native.Init(None);
    var r := native.SaveUser(ana, "1", "1");
    nativeSecond := native.Init(None);
    nativeAfter := native.GetAllUsers();
    SingleRowOrdered(NewUser(ana, "1", "1"));

    var web := new WebSQLiteService();
    var i := web.Init(None);
    r := web.SaveUser(ana, "1", "1");
    i := web.Init(None);
    webAfter := web.GetAllUsers();
  }

  /** The ordered select over a single row is that row. */
  lemma SingleRowOrdered(u: User)
    ensures OrderByCreatedAtDesc([u]) == [u]
  {
    var r := OrderByCreatedAtDesc([u]);
    assert |r| == |multiset(r)| == 1;
    assert r[0] in multiset([u]);
  }
}
