/** The `users` table both relational stores create:
    `id TEXT PRIMARY KEY, name, email TEXT UNIQUE, password, createdAt`.
    The engine is abstracted to its rows in insertion order and to the two
    statements the stores run against it that can fail: INSERT (on the
    constraints) and SELECT ... WHERE email = ?. */
module SqlTable {
  import opened UserRecords

  /** The engine's messages for the failures the model covers. */
  const PrimaryKeyViolation: string := "UNIQUE constraint failed: users.id"
  const EmailUniqueViolation: string := "UNIQUE constraint failed: users.email"
  const MissingTable: string := "no such table: users"

  predicate IdTaken(rows: seq<User>, id: string)
  {
    exists i :: 0 <= i < |rows| && rows[i].id == id
  }

  predicate UniqueIds(rows: seq<User>)
  {
    forall i, j :: 0 <= i < j < |rows| ==> rows[i].id != rows[j].id
  }

  /** What the table's PRIMARY KEY and UNIQUE constraints guarantee. */
  predicate ValidTable(rows: seq<User>)
  {
    UniqueIds(rows) && UniqueEmails(rows)
  }

  datatype InsertOutcome = Inserted(rows: seq<User>) | Violation(message: string)

  /** `INSERT INTO users (...) VALUES (...)`: rejected by the primary key or
      by the unique email, otherwise the row is added. */
  function InsertRow(rows: seq<User>, u: User): (r: InsertOutcome)
    ensures r.Inserted? <==> !IdTaken(rows, u.id) && !EmailTaken(rows, u.email)
    ensures r.Inserted? ==> r.rows == rows + [u]
    ensures r.Violation? ==>
      (r.message == PrimaryKeyViolation && IdTaken(rows, u.id)) ||
      (r.message == EmailUniqueViolation && EmailTaken(rows, u.email))
  {
    if IdTaken(rows, u.id) then Violation(PrimaryKeyViolation)
    else if EmailTaken(rows, u.email) then Violation(EmailUniqueViolation)
    else Inserted(rows + [u])
  }

  /** Appending keeps ids unique exactly when the id was not taken yet. */
  lemma AppendKeepsUniqueIds(rows: seq<User>, u: User)
    ensures UniqueIds(rows + [u]) <==> UniqueIds(rows) && !IdTaken(rows, u.id)
  {
    var s := rows + [u];
    if UniqueIds(s) {
      forall i, j | 0 <= i < j < |rows| ensures rows[i].id != rows[j].id {
        assert s[i] == rows[i] && s[j] == rows[j];
      }
      forall i | 0 <= i < |rows| ensures rows[i].id != u.id {
        assert s[i] == rows[i] && s[|rows|] == u;
      }
    }
  }

  /** The constraints hold after every insert the engine accepts. */
  lemma InsertKeepsTableValid(rows: seq<User>, u: User)
    requires ValidTable(rows)
    ensures InsertRow(rows, u).Inserted? ==> ValidTable(InsertRow(rows, u).rows)
  {
    AppendKeepsUniqueIds(rows, u);
    AppendKeepsUniqueEmails(rows, u);
  }

  /** `SELECT * FROM users WHERE email = ?`: the matching rows in table
      order; the first of them is what `find` would return. */
  function SelectWhereEmail(rows: seq<User>, email: string): (r: seq<User>)
    ensures forall x :: x in r <==> x in rows && x.email == email
    ensures r == [] <==> !EmailTaken(rows, email)
    ensures r != [] ==> FindByEmail(rows, email) == Some(r[0])
  {
    if rows == [] then []
    else
      var rest := SelectWhereEmail(rows[1..], email);
      assert rows == [rows[0]] + rows[1..];
      assert EmailTaken(rows[1..], email) ==> EmailTaken(rows, email) by {
        if EmailTaken(rows[1..], email) {
          var i :| 0 <= i < |rows[1..]| && rows[1..][i].email == email;
          assert rows[i + 1].email == email;
        }
      }
      if rows[0].email == email then [rows[0]] + rest else rest
  }

  /** Under the UNIQUE constraint a select by email returns at most one row. */
  lemma {:induction false} SelectByUniqueEmailIsSingle(rows: seq<User>, email: string)
    requires UniqueEmails(rows)
    ensures |SelectWhereEmail(rows, email)| <= 1
  {
    if rows != [] {
      var tail := rows[1..];
      assert UniqueEmails(tail) by {
        forall i, j | 0 <= i < j < |tail| ensures tail[i].email != tail[j].email {
          assert tail[i] == rows[i + 1] && tail[j] == rows[j + 1];
        }
      }
      SelectByUniqueEmailIsSingle(tail, email);
      if rows[0].email == email {
        assert !EmailTaken(tail, email) by {
          forall i | 0 <= i < |tail| ensures tail[i].email != email {
            assert tail[i] == rows[i + 1];
          }
        }
      }
    }
  }
}
