/** services/AsyncStorageService.ts: the key-value store. All users live as
    one list under the key `@users`; every save reads the whole list, scans
    it, appends and writes the whole list back. The device storage is a map
    from keys to values whose JSON encoding is abstracted away. */
module AsyncStorage {
  import opened UserRecords

  const UsersKey: string := "@users"
  const UnknownErrorMessage: string := "Erro desconhecido"

  /** What a rejected storage call or a failing JSON.parse throws. */
  datatype Fault = ErrorObject(message: string) | NonErrorValue

  /** How `clearAll`'s promise settles. */
  datatype Completion = Completed | Threw(fault: Fault)

  /** `error instanceof Error ? error.message : 'Erro desconhecido'` */
  function FaultText(f: Fault): (t: string)
    ensures f.ErrorObject? ==> t == f.message
    ensures f.NonErrorValue? ==> t == UnknownErrorMessage
  {
    match f
    case ErrorObject(m) => m
    case NonErrorValue => UnknownErrorMessage
  }

  /** `usersJSON ? JSON.parse(usersJSON) : []`: a missing key reads as no users. */
  function UsersIn(items: map<string, seq<User>>): (users: seq<User>)
    ensures UsersKey !in items ==> users == []
    ensures UsersKey in items ==> users == items[UsersKey]
  {
    if UsersKey in items then items[UsersKey] else []
  }

  class AsyncStorageService {
    /** The device's storage, shared by every key. */
    var items: map<string, seq<User>>

    /** The invariant `saveUser` keeps: no email twice in the list. */
    ghost predicate Valid()
      reads this
    {
      UniqueEmails(UsersIn(items))
    }

    constructor (stored: map<string, seq<User>>)
      ensures items == stored
    {
      items := stored;
    }

    /** readFault / writeFault: what getItem or JSON.parse, and setItem,
        throw, if they fail. Nothing is written unless the whole save
        succeeds, and no key but `@users` is ever written. */
    method SaveUser(c: Candidate, id: string, createdAt: string,
                    readFault: Option<Fault>, writeFault: Option<Fault>) returns (r: UserResult)
      modifies this
      ensures old(Valid()) ==> Valid()
      ensures !r.success ==> items == old(items) && r.user == None
      ensures readFault.Some? ==> r == SaveFailed(FaultText(readFault.value))
      ensures readFault.None? && EmailTaken(UsersIn(old(items)), c.email) ==> r == SaveFailed(DuplicateEmail)
      ensures readFault.None? && !EmailTaken(UsersIn(old(items)), c.email) && writeFault.Some? ==>
        r == SaveFailed(FaultText(writeFault.value))
      ensures readFault.None? && !EmailTaken(UsersIn(old(items)), c.email) && writeFault.None? ==>
        r == Saved(NewUser(c, id, createdAt)) &&
        items == old(items)[UsersKey := UsersIn(old(items)) + [NewUser(c, id, createdAt)]]
    {
      if readFault.Some? {
        r := SaveFailed(FaultText(readFault.value));
        return;
      }
      var users := UsersIn(items);
      if EmailTaken(users, c.email) {
        r := SaveFailed(FaultText(ErrorObject(DuplicateEmail)));
        return;
      }
      var newUser := NewUser(c, id, createdAt);
      AppendKeepsUniqueEmails(users, newUser);
      users := users + [newUser];
      if writeFault.Some? {
        r := SaveFailed(FaultText(writeFault.value));
        return;
      }
      items := items[UsersKey := users];
      r := Saved(newUser);
    }

    /** readFails: getItem rejects or the stored text does not parse; the
        result then carries neither a user nor an error. */
    function GetUserByEmail(email: string, readFails: bool): (r: UserResult)
      reads this
      ensures readFails ==> r == UserResult(false, None, None)
      ensures !readFails ==> r.success && r.error == None
      ensures !readFails ==> (r.user.None? <==> !EmailTaken(UsersIn(items), email))
      ensures r.user.Some? ==>
        exists i :: FirstWithEmail(UsersIn(items), email, i) && UsersIn(items)[i] == r.user.value
    {
      if readFails then UserResult(false, None, None)
      else UserResult(true, FindByEmail(UsersIn(items), email), None)
    }

    /** The stored list as it is, in insertion order. */
    function GetAllUsers(readFails: bool): (r: UsersResult)
      reads this
      ensures readFails ==> r == UsersResult(false, [], None)
      ensures !readFails ==> r.success && r.error == None && r.users == UsersIn(items)
      ensures !readFails && UsersKey !in items ==> r.users == []
    {
      if readFails then UsersResult(false, [], None)
      else UsersResult(true, UsersIn(items), None)
    }

    /** `removeItem('@users')`; a rejection propagates to the caller. */
    method ClearAll(removeFault: Option<Fault>) returns (r: Completion)
      modifies this
      ensures removeFault.None? ==> r == Completed && items == old(items) - {UsersKey} && UsersIn(items) == []
      ensures removeFault.Some? ==> r == Threw(removeFault.value) && items == old(items)
    {
      if removeFault.Some? {
        r := Threw(removeFault.value);
        return;
      }
      items := items - {UsersKey};
      r := Completed;
    }
  }
}
