# User stores that refuse a second account per email

The application keeps registered users (`id`, `name`, `email`, `password`,
`createdAt`) in one of three interchangeable stores. Each store offers the
same operations: save a user, look one up by email, list all users, and
clear them. Every store refuses to save a second user with an email it
already holds, with the message `Email já cadastrado` or the SQL engine's
constraint message.

The model covers these stores:

- **Key-value store** (`services/AsyncStorageService.ts`, module `AsyncStorage`).
  All users are stored as one list under the key `@users`. A save reads the
  list, scans it for the email, appends the new user and writes the list back.
  Listing returns the users in insertion order.
- **Web simulation** (`WebSQLiteSimulation` in `services/SQLiteService.ts`,
  module `SQLiteService`). An in-memory array stands in for the table. It is
  always ready, and it lists the latest insertion first by reversing the array.
- **Native SQLite** (`NativeSQLiteService`, same file). This is a `users` table
  with `id` as PRIMARY KEY and `email` as UNIQUE. Every operation before a
  successful `init` fails with `SQLite não inicializado`. Listing uses
  `ORDER BY createdAt DESC`.
- **The `SQLiteService` facade** (class `SQLiteFacade`). It picks the simulation
  or the native store once, by platform, and forwards every call to it.
- **sql.js store** (`services/WebSQLiteService.ts`, module `WebSQLite`). This is
  the same table in an in-browser database. It checks for the email with a
  SELECT before it inserts.

Shared pieces:

- Module `UserRecords` holds the user record, the result envelopes, the email
  lookup (`Array.find`) and the uniqueness invariant.
- Module `Ordering` holds SQLite's text ordering on `createdAt`, the ordered
  select, and array reversal.
- Module `SqlTable` holds the table's constraints and its INSERT and SELECT
  statements.
- Module `Scenarios` holds client scenarios proved from the contracts alone:
  - registering the same email twice;
  - the listing order of each store with three users;
  - every call before `init`;
  - a second `init`.

Every store keeps the same invariant: no two stored users share an email.
That invariant is a `Valid()` predicate on each class, and every state-changing
method preserves it. On the native table and the sql.js table the invariant
also requires unique ids. The key-value store and the simulation do not check
ids.

The main relations between the stores are these:

- For a store that has passed the duplicate check, a save followed by a lookup
  finds the new user (`UserRecords.SaveThenFind`).
- Under the invariant, the lookup returns a user exactly when that user is
  stored under the email (`UserRecords.FindIsExact`).
- The simulation's reversal gives the same order as the native
  `ORDER BY createdAt DESC` whenever the timestamps increase in insertion order
  (`Ordering.ReversedMatchesOrderBy`).

### Where the code departs from the intended design

The model follows the code in each case below.

- **`WebSQLiteService.init` is not idempotent.**
  - Every `init` that gets past loading builds a new, empty `Database`
    (`services/WebSQLiteService.ts:49`). A second `init` therefore discards
    every stored user. `Scenarios.InitTwice` shows this next to the native
    store, whose `CREATE TABLE IF NOT EXISTS` keeps the rows.
  - If `CREATE TABLE` throws, the new database stays in place without a table
    and the flag keeps its old value. A previously initialised store then
    fails every later call with the engine's missing-table error.
- **Ids are not always unique.** The key-value store and the simulation never
  check ids, so two saves in the same millisecond store two users with the
  same id. Only the SQL tables reject a repeated id.
- **`clearAll` of the key-value store can fail.** It returns nothing, and a
  rejected `removeItem` propagates to the caller.
- **Lookup failures in the key-value store carry no error text.** A failing
  `getUserByEmail` or `getAllUsers` returns only `success: false`.

## Model

| member | source | states |
|---|---|---|
| UserRecords.NewUser | services/SQLiteService.ts:36-40 | the new user carries the candidate's name, email and password unchanged, plus the id and timestamp the store assigns |
| UserRecords.EmailTaken | services/SQLiteService.ts:31 | `some` holds exactly when a stored user has the email |
| UserRecords.FindByEmail | services/SQLiteService.ts:64 | the lookup finds nothing exactly when no stored user has the email; otherwise it returns the first user that has it |
| UserRecords.AppendKeepsUniqueEmails | services/SQLiteService.ts:31-42 | appending a user keeps emails unique if and only if the list was unique and the email was not taken, which is the check-then-push every save runs |
| UserRecords.FindAfterAppend | services/AsyncStorageService.ts:38-67 | after an append, a lookup returns the earlier match if there is one, else the appended user if its email matches, else nothing |
| UserRecords.FindIsExact | services/SQLiteService.ts:31-64 | once emails are unique, the lookup returns `u` if and only if `u` is stored and has that email |
| UserRecords.SaveThenFind | services/AsyncStorageService.ts:27-67 | after a save that passed the duplicate check, looking up its email returns exactly the new user |
| Ordering.TextLeIsLexicographic | services/SQLiteService.ts:283 | the engine's TEXT comparison `TextLe` is exactly lexicographic order: a prefix sorts first, otherwise the first differing code point decides |
| Ordering.TextLeTotal | services/SQLiteService.ts:137 | any two `createdAt` texts are comparable under the text ordering |
| Ordering.TextLeTransitive | services/SQLiteService.ts:137 | the text ordering is transitive |
| Ordering.TextLeAntisymmetric | services/SQLiteService.ts:137 | two texts each ordered before the other are equal |
| Ordering.Reversed | services/SQLiteService.ts:86 | the copy has the same length, and position k holds the element at position n-1-k |
| Ordering.ReversedIsPermutation | services/SQLiteService.ts:86 | the reversed copy holds exactly the same users (same multiset) |
| Ordering.ReversedChronologicalIsNewestFirst | services/SQLiteService.ts:86 | if insertion order is chronological, the reversed array lists the most recent first |
| Ordering.InsertKeepsNewestFirst | services/SQLiteService.ts:283 | placing one row into a newest-first listing keeps it newest first |
| Ordering.OrderByCreatedAtDesc | services/SQLiteService.ts:283 | `ORDER BY createdAt DESC` returns a permutation of the rows with non-increasing `createdAt` |
| Ordering.NewestFirstIsUnique | services/SQLiteService.ts:283 | with distinct timestamps, two newest-first orderings of the same rows are equal, so the ordered select is determined |
| Ordering.ReversedMatchesOrderBy | services/SQLiteService.ts:86 | for rows inserted with strictly increasing timestamps, the simulation's reversal equals the native ordered select |
| SqlTable.InsertRow | services/SQLiteService.ts:181-201 | the INSERT succeeds if and only if neither the id nor the email is taken, and then appends the row; each rejection names the constraint that is actually violated |
| SqlTable.AppendKeepsUniqueIds | services/SQLiteService.ts:133 | appending keeps ids unique if and only if the id was not taken |
| SqlTable.InsertKeepsTableValid | services/SQLiteService.ts:132-138 | every accepted INSERT leaves both the primary key and the unique email constraint satisfied |
| SqlTable.SelectWhereEmail | services/SQLiteService.ts:231-236 | `WHERE email = ?` returns exactly the stored rows with that email, is empty if and only if the email is not taken, and its first row is the lookup's result |
| SqlTable.SelectByUniqueEmailIsSingle | services/SQLiteService.ts:135 | under the UNIQUE constraint the select returns at most one row |
| SQLiteService.WebSQLiteSimulation.constructor | services/SQLiteService.ts:17-19 | the simulation starts empty and valid |
| SQLiteService.WebSQLiteSimulation.Init | services/SQLiteService.ts:21-24 | init always resolves |
| SQLiteService.WebSQLiteSimulation.SaveUser | services/SQLiteService.ts:26-58 | a taken email fails with `Email já cadastrado` and leaves the array unchanged; otherwise the new user is pushed and returned; email uniqueness is preserved |
| SQLiteService.WebSQLiteSimulation.GetUserByEmail | services/SQLiteService.ts:60-80 | always succeeds; finds a user if and only if the email is taken, and returns the first such user |
| SQLiteService.WebSQLiteSimulation.GetAllUsers | services/SQLiteService.ts:82-103 | always succeeds and returns the array in reverse insertion order |
| SQLiteService.WebSQLiteSimulation.ClearAll | services/SQLiteService.ts:105-115 | succeeds and empties the array |
| SQLiteService.NativeSQLiteService.constructor | services/SQLiteService.ts:119-121 | not initialised; the table holds whatever the database file held |
| SQLiteService.NativeSQLiteService.Init | services/SQLiteService.ts:123-158 | on success the flag is set and the rows are kept; on an engine error it rejects with that error and leaves the flag unchanged |
| SQLiteService.NativeSQLiteService.SaveUser | services/SQLiteService.ts:160-214 | fails with `SQLite não inicializado` before init; with a taken id or email it fails with the matching constraint message and leaves the table unchanged; otherwise it appends and returns the new user; the constraints keep holding |
| SQLiteService.NativeSQLiteService.GetUserByEmail | services/SQLiteService.ts:216-264 | fails before init; otherwise finds a user if and only if the email is taken, and it is the first row with that email |
| SQLiteService.NativeSQLiteService.GetAllUsers | services/SQLiteService.ts:266-320 | fails before init; otherwise copies the ordered select row by row, giving a newest-first permutation of the table |
| SQLiteService.NativeSQLiteService.ClearAll | services/SQLiteService.ts:322-345 | fails before init and changes nothing; otherwise deletes every row |
| SQLiteService.SQLiteFacade.constructor | services/SQLiteService.ts:349 | exactly one implementation is chosen, matching the platform probe |
| SQLiteService.SQLiteFacade.Init | services/SQLiteService.ts:352-354 | forwards init; the stored users do not change |
| SQLiteService.SQLiteFacade.SaveUser | services/SQLiteService.ts:356-358 | on the web a save succeeds if and only if the email is new, and otherwise fails with `Email já cadastrado`; on mobile it fails with `SQLite não inicializado` before init, and after init it succeeds if and only if both id and email are new, otherwise failing with the message of a constraint that is actually violated; a success appends and returns exactly the new user; a failure returns no user and changes nothing |
| SQLiteService.SQLiteFacade.GetUserByEmail | services/SQLiteService.ts:360-362 | succeeds unless the native store is not initialised, and then fails with `SQLite não inicializado`; a successful lookup carries no error and finds a user if and only if the email is taken, and that user is the first match |
| SQLiteService.SQLiteFacade.GetAllUsers | services/SQLiteService.ts:364-366 | fails with no users and `SQLite não inicializado` only when the native store is not initialised; a successful listing carries no error and is a permutation of the stored users: reversed on the web, newest first on mobile |
| SQLiteService.SQLiteFacade.ClearAll | services/SQLiteService.ts:368-370 | succeeds unless the native store is not initialised, and then fails with `SQLite não inicializado`; a successful clear empties the chosen store and a failed one changes nothing; the native flag never changes |
| SQLiteService.SQLiteFacade.IsWebSimulation | services/SQLiteService.ts:373-375 | answers true if and only if the simulation is the implementation in use |
| WebSQLite.InitFaultMessage | services/WebSQLiteService.ts:30-68 | `init` rejects with `Ambiente web não detectado` without a window, `SQL.js não carregado corretamente` without a Database constructor, and the thrown error's own message when loading or CREATE TABLE fails |
| WebSQLite.SaveErrorText | services/WebSQLiteService.ts:128 | the reported save error is never empty and is the engine's message whenever that message is non-empty |
| WebSQLite.WebSQLiteService.constructor | services/WebSQLiteService.ts:25-28 | no database and not initialised |
| WebSQLite.WebSQLiteService.Init | services/WebSQLiteService.ts:30-68 | on success there is a fresh database with an empty table and the flag is set; a failure before the database exists changes nothing; a failing CREATE TABLE leaves a new table-less database and the flag unchanged |
| WebSQLite.WebSQLiteService.SaveUser | services/WebSQLiteService.ts:71-131 | fails before init, without a table, on a taken email (`Email já cadastrado`) and on a taken id (primary key); otherwise appends and returns the new user; failures change nothing and the constraints keep holding |
| WebSQLite.WebSQLiteService.GetUserByEmail | services/WebSQLiteService.ts:133-177 | fails before init or without a table; otherwise finds a user if and only if the email is taken, and it is the first row with that email |
| WebSQLite.WebSQLiteService.GetAllUsers | services/WebSQLiteService.ts:179-224 | fails before init or without a table; otherwise steps through the ordered select, giving a newest-first permutation of the rows |
| WebSQLite.WebSQLiteService.ClearAll | services/WebSQLiteService.ts:226-240 | fails before init or without a table and changes nothing; otherwise empties the table |
| WebSQLite.WebSQLiteService.IsInitialized | services/WebSQLiteService.ts:259-261 | returns the flag, which holds if and only if the operations will run |
| AsyncStorage.UsersIn | services/AsyncStorageService.ts:24 | a missing `@users` key reads as no users |
| AsyncStorage.FaultText | services/AsyncStorageService.ts:53 | the reported error is the message of an `Error` and `Erro desconhecido` for any other thrown value |
| AsyncStorage.AsyncStorageService.constructor | services/AsyncStorageService.ts:13-15 | the store works over whatever the device storage already holds |
| AsyncStorage.AsyncStorageService.SaveUser | services/AsyncStorageService.ts:17-57 | a failing read or write fails with its message (or `Erro desconhecido`) and writes nothing; a taken email fails with `Email já cadastrado`; otherwise only `@users` changes, to the old list plus the new user; email uniqueness is preserved |
| AsyncStorage.AsyncStorageService.GetUserByEmail | services/AsyncStorageService.ts:60-82 | a failing read gives neither a user nor an error; otherwise finds a user if and only if the email is taken, and it is the first such user |
| AsyncStorage.AsyncStorageService.GetAllUsers | services/AsyncStorageService.ts:85-106 | a failing read gives an empty failure; otherwise the stored list in insertion order, and nothing when the key is missing |
| AsyncStorage.AsyncStorageService.ClearAll | services/AsyncStorageService.ts:109-111 | removes the `@users` key so that no users remain, or propagates the storage's rejection and changes nothing |
| Scenarios.KeyValueRegisterTwice | services/AsyncStorageService.ts:17-82 | registering the same email twice: the first save succeeds, the second fails with `Email já cadastrado`, and the lookup finds the first user |
| Scenarios.KeyValueInsertionOrder | services/AsyncStorageService.ts:85-97 | three users saved in the key-value store are listed in insertion order |
| Scenarios.SimulationNewestFirst | services/SQLiteService.ts:82-92 | the same three users in the simulation are listed last-saved first, whatever their timestamps |
| Scenarios.NativeNewestFirst | services/SQLiteService.ts:266-297 | with increasing timestamps the native store lists the three users in the simulation's order |
| Scenarios.AscendingTimestamps | services/SQLiteService.ts:137 | three increasing, distinct timestamps form an oldest-first sequence with distinct timestamps |
| Scenarios.ThreeRowsNewestFirst | services/SQLiteService.ts:283 | the ordered select over three rows with increasing timestamps is their reversal |
| Scenarios.RelationalBeforeInit | services/WebSQLiteService.ts:71-240 | before init, the save, lookup, listing and clear of the sql.js store and of the native store all fail with `SQLite não inicializado`, with no user and no rows |
| Scenarios.InitTwice | services/WebSQLiteService.ts:30-68 | both native inits resolve and the native store still lists exactly the saved user after the second, while a second init leaves the sql.js store with no users |
| Scenarios.SingleRowOrdered | services/SQLiteService.ts:283 | the ordered select over one row is that row |

## Left out

- Timing: `performance.now()` and the `time` field of every result are not modelled, because they depend on the clock.
- Ids and timestamps: `Date.now().toString()` and `new Date().toISOString()` are parameters of every save, not values read from the clock.
- JSON: `JSON.stringify`/`JSON.parse` are treated as exact inverses. The storage map holds user lists directly. A stored text that does not parse is modelled as a read failure.
- Asynchrony: promise scheduling, interleaving of concurrent calls, and `console` logging are left out. Each call is modelled as one atomic step.
- Environment probes: `Platform.OS`, `typeof window`, the dynamic import of sql.js and the wasm download are parameters. These are the facade's `platformIsWeb` and the `InitFault` cases.
- WebSQLite.WebSQLiteService: `exportDatabase` and `importDatabase` are not modelled. They only serialise the database and are not part of saving or looking up users. The `SQL` module field they use is left out with them.
- SQLiteService.NativeSQLiteService.SaveUser: only constraint violations are modelled as engine errors. Other transaction failures are not. When both the id and the email are taken, the contract allows either constraint message, because the engine does not promise which constraint it checks first.
- SQLiteService.NativeSQLiteService.GetUserByEmail: engine failures of the select and of the transaction are not modelled, and neither is the missing table (the table exists once `init` succeeds). The same holds for `GetAllUsers` and `ClearAll`.
- WebSQLite.WebSQLiteService.GetUserByEmail: statement errors are modelled only as the missing table; other sql.js exceptions are not. The same holds for `SaveUser`, `GetAllUsers` and `ClearAll`.
- SqlTable.InsertRow: the NOT NULL constraints are not modelled, because the model's strings can never be null.
- Ordering.OrderByCreatedAtDesc: rows with equal `createdAt` are ordered by one fixed rule, while SQLite leaves their order unspecified. Every exact-order statement (for example `Ordering.ReversedMatchesOrderBy`) therefore requires distinct timestamps.
- SQLiteService.WebSQLiteSimulation: the `initialized` field is always true and is never read, so it is not modelled. The `catch` branches are not modelled either, because array operations on the simulation cannot throw.
- Engine messages: the texts `UNIQUE constraint failed: users.id`, `UNIQUE constraint failed: users.email` and `no such table: users` stand in for whatever the engine reports.
- The screens under `app/` that call the stores are not part of this model.
