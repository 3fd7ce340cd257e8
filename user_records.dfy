/** The record model shared by every user store: the User entity, the
    input of saveUser, the result envelopes and the list queries that the
    stores run over a sequence of users (JavaScript's `some` and `find`). */
module UserRecords {

  datatype Option<T> = None | Some(value: T)

  /** A stored user; id and createdAt are strings, as in the source. */
  datatype User = User(id: string, name: string, email: string, password: string, createdAt: string)

  /** What a caller passes to saveUser: a user without id and createdAt. */
  datatype Candidate = Candidate(name: string, email: string, password: string)

  /** The candidate spread into a new user with the id and the timestamp the
      store assigns (the clock readings are inputs of the model). */
  function NewUser(c: Candidate, id: string, createdAt: string): (u: User)
    ensures u.id == id && u.createdAt == createdAt
    ensures Candidate(u.name, u.email, u.password) == c
  {
    User(id, c.name, c.email, c.password, createdAt)
  }

  /** `{success, user?, error?}` returned by saveUser and getUserByEmail. */
  datatype UserResult = UserResult(success: bool, user: Option<User>, error: Option<string>)

  /** `{success, users, error?}` returned by getAllUsers. */
  datatype UsersResult = UsersResult(success: bool, users: seq<User>, error: Option<string>)

  /** `{success, error?}` returned by clearAll of the relational stores. */
  datatype StatusResult = StatusResult(success: bool, error: Option<string>)

  /** How an `init` promise settles: resolved, or rejected with a message. */
  datatype InitOutcome = Resolved | Rejected(message: string)

  const DuplicateEmail: string := "Email já cadastrado"
  const NotInitialized: string := "SQLite não inicializado"

  function Saved(u: User): UserResult
  {
    UserResult(true, Some(u), None)
  }

  function SaveFailed(message: string): UserResult
  {
    UserResult(false, None, Some(message))
  }

  /** `users.some(u => u.email === email)` */
  predicate EmailTaken(users: seq<User>, email: string)
    ensures EmailTaken(users, email) <==> exists u :: u in users && u.email == email
  {
    exists i :: 0 <= i < |users| && users[i].email == email
  }

  /** Every email occurs at most once: the invariant every store keeps. */
  predicate UniqueEmails(users: seq<User>)
  {
    forall i, j :: 0 <= i < j < |users| ==> users[i].email != users[j].email
  }

  /** Position i holds the first user with the given email. */
  predicate FirstWithEmail(users: seq<User>, email: string, i: int)
  {
    0 <= i < |users| && users[i].email == email &&
    forall j :: 0 <= j < i ==> users[j].email != email
  }

  /** `users.find(u => u.email === email)`: the first user with that email,
      or None when there is none. */
  function FindByEmail(users: seq<User>, email: string): (r: Option<User>)
    ensures r.None? <==> !EmailTaken(users, email)
    ensures r.Some? ==> exists i :: FirstWithEmail(users, email, i) && users[i] == r.value
  {
    if users == [] then None
    else if users[0].email == email then
      assert FirstWithEmail(users, email, 0);
      Some(users[0])
    else
      EmailTakenPastHead(users, email);
      var r := FindByEmail(users[1..], email);
      if r.Some? then
        var i :| FirstWithEmail(users[1..], email, i) && users[1..][i] == r.value;
        FirstWithEmailPastHead(users, email, i);
        r
      else
        r
  }

  /** Step of FindByEmail: a list whose head does not match has the email
      exactly when its tail has it. */
  lemma EmailTakenPastHead(users: seq<User>, email: string)
    requires users != [] && users[0].email != email
    ensures EmailTaken(users, email) <==> EmailTaken(users[1..], email)
  {
    if EmailTaken(users, email) {
      var i :| 0 <= i < |users| && users[i].email == email;
      assert users[1..][i - 1].email == email;
    }
    if EmailTaken(users[1..], email) {
      var i :| 0 <= i < |users[1..]| && users[1..][i].email == email;
      assert users[i + 1].email == email;
    }
  }

  /** Step of FindByEmail: the first match in the tail is the first match
      in the list when the head does not match. */
  lemma FirstWithEmailPastHead(users: seq<User>, email: string, i: int)
    requires users != [] && users[0].email != email
    requires FirstWithEmail(users[1..], email, i)
    ensures FirstWithEmail(users, email, i + 1) && users[i + 1] == users[1..][i]
  {
    forall j | 0 <= j < i + 1 ensures users[j].email != email {
      if j > 0 {
        assert users[j] == users[1..][j - 1];
      }
    }
  }

  /** Appending a user keeps emails unique exactly when its email was not
      taken yet: the check every saveUser runs before it appends. */
  lemma AppendKeepsUniqueEmails(users: seq<User>, u: User)
    ensures UniqueEmails(users + [u]) <==> UniqueEmails(users) && !EmailTaken(users, u.email)
  {
    var s := users + [u];
    if UniqueEmails(s) {
      forall i, j | 0 <= i < j < |users| ensures users[i].email != users[j].email {
        assert s[i] == users[i] && s[j] == users[j];
      }
      forall i | 0 <= i < |users| ensures users[i].email != u.email {
        assert s[i] == users[i] && s[|users|] == u;
      }
    }
  }

  /** What a lookup sees after an append: an earlier user with the email
      still wins; otherwise the appended user is found if it carries it. */
  lemma {:induction false} FindAfterAppend(users: seq<User>, u: User, email: string)
    ensures FindByEmail(users + [u], email) ==
      if EmailTaken(users, email) then FindByEmail(users, email)
      else if u.email == email then Some(u)
      else None
  {
    if users == [] {
      assert users + [u] == [u];
    } else {
      assert (users + [u])[1..] == users[1..] + [u];
      FindAfterAppend(users[1..], u, email);
    }
  }

  /** Once emails are unique, a lookup finds a user exactly when that user
      is stored under the email: the first match is the only match. */
  lemma FindIsExact(users: seq<User>, email: string, u: User)
    requires UniqueEmails(users)
    ensures FindByEmail(users, email) == Some(u) <==> u in users && u.email == email
  {
    var r := FindByEmail(users, email);
    if u in users && u.email == email {
      var k :| 0 <= k < |users| && users[k] == u;
      var i :| FirstWithEmail(users, email, i) && users[i] == r.value;
      assert i == k;
    }
  }

  /** A store that passes the duplicate check and appends finds the new user
      by its email afterwards (save followed by lookup). */
  lemma SaveThenFind(users: seq<User>, c: Candidate, id: string, createdAt: string)
    requires !EmailTaken(users, c.email)
    ensures FindByEmail(users + [NewUser(c, id, createdAt)], c.email) == Some(NewUser(c, id, createdAt))
  {
    FindAfterAppend(users, NewUser(c, id, createdAt), c.email);
  }
}
