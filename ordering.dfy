/** The two read-all orders of the stores: the simulation's reversed copy of
    its array, and the relational engine's `ORDER BY createdAt DESC`, which
    compares the ISO timestamps as TEXT (code point by code point, a shorter
    prefix first). */
module Ordering {
  import opened UserRecords

  /** TEXT comparison under SQLite's BINARY collation: a <= b. */
  predicate TextLe(a: string, b: string)
  {
    |a| == 0 || (|b| > 0 && (a[0] < b[0] || (a[0] == b[0] && TextLe(a[1..], b[1..]))))
  }

  /** Lexicographic order as usually defined: a is a prefix of b, or the
      first position where they differ holds the smaller code point in a. */
  predicate Lexicographic(a: string, b: string)
  {
    a <= b || exists k :: 0 <= k < |a| && k < |b| && a[..k] == b[..k] && a[k] < b[k]
  }

  /** The recursive comparison is exactly lexicographic order. */
  lemma {:induction false} TextLeIsLexicographic(a: string, b: string)
    ensures TextLe(a, b) <==> Lexicographic(a, b)
  {
    if |a| == 0 {
      assert a <= b;
    } else if |b| == 0 {
      assert !Lexicographic(a, b);
    } else if a[0] < b[0] {
      assert a[..0] == b[..0];
    } else if a[0] == b[0] {
      TextLeIsLexicographic(a[1..], b[1..]);
      LexicographicPastEqualHeads(a, b);
    }
  }

  /** Equal first code points: the order is decided by the rests. */
  lemma LexicographicPastEqualHeads(a: string, b: string)
    requires |a| > 0 && |b| > 0 && a[0] == b[0]
    ensures Lexicographic(a, b) <==> Lexicographic(a[1..], b[1..])
  {
    var a', b' := a[1..], b[1..];
    if a' <= b' {
      assert a == [a[0]] + a' && b == [b[0]] + b';
    } else if Lexicographic(a', b') {
      var k :| 0 <= k < |a'| && k < |b'| && a'[..k] == b'[..k] && a'[k] < b'[k];
      assert a[..k + 1] == [a[0]] + a'[..k] && b[..k + 1] == [b[0]] + b'[..k];
    }
    if a <= b {
      assert a' <= b';
    } else if Lexicographic(a, b) {
      var k :| 0 <= k < |a| && k < |b| && a[..k] == b[..k] && a[k] < b[k];
      assert k > 0;
      assert a'[..k - 1] == a[1..k] == b[1..k] == b'[..k - 1];
    }
  }

  lemma {:induction false} TextLeTotal(a: string, b: string)
    ensures TextLe(a, b) || TextLe(b, a)
  {
    if |a| > 0 && |b| > 0 && a[0] == b[0] {
      TextLeTotal(a[1..], b[1..]);
    }
  }

  lemma {:induction false} TextLeTransitive(a: string, b: string, c: string)
    requires TextLe(a, b) && TextLe(b, c)
    ensures TextLe(a, c)
  {
    if |a| > 0 && a[0] == b[0] && b[0] == c[0] {
      TextLeTransitive(a[1..], b[1..], c[1..]);
    }
  }

  lemma {:induction false} TextLeAntisymmetric(a: string, b: string)
    requires TextLe(a, b) && TextLe(b, a)
    ensures a == b
  {
    if |a| > 0 {
      TextLeAntisymmetric(a[1..], b[1..]);
      assert a == [a[0]] + a[1..] && b == [b[0]] + b[1..];
    }
  }

  /** Newest first: createdAt never increases along the sequence. */
  predicate NewestFirst(users: seq<User>)
  {
    forall i, j :: 0 <= i < j < |users| ==> TextLe(users[j].createdAt, users[i].createdAt)
  }

  /** Oldest first: createdAt never decreases along the sequence, which is
      what insertion order gives when the clock does not run backwards. */
  predicate OldestFirst(users: seq<User>)
  {
    forall i, j :: 0 <= i < j < |users| ==> TextLe(users[i].createdAt, users[j].createdAt)
  }

  /** No two users carry the same timestamp. */
  predicate DistinctTimestamps(users: seq<User>)
  {
    forall i, j :: 0 <= i < j < |users| ==> users[i].createdAt != users[j].createdAt
  }

  /** `[...users].reverse()` */
  function Reversed(users: seq<User>): (r: seq<User>)
    ensures |r| == |users|
    ensures forall k :: 0 <= k < |users| ==> r[k] == users[|users| - 1 - k]
  {
    if users == [] then [] else Reversed(users[1..]) + [users[0]]
  }

  lemma {:induction false} ReversedIsPermutation(users: seq<User>)
    ensures multiset(Reversed(users)) == multiset(users)
  {
    if users != [] {
      ReversedIsPermutation(users[1..]);
      assert users == [users[0]] + users[1..];
    }
  }

  /** With a clock that never runs backwards the simulation's reversed array
      is in the relational engine's order: newest first. */
  lemma ReversedChronologicalIsNewestFirst(users: seq<User>)
    requires OldestFirst(users)
    ensures NewestFirst(Reversed(users))
  {
    var r := Reversed(users);
    var n := |users|;
    forall i, j | 0 <= i < j < n ensures TextLe(r[j].createdAt, r[i].createdAt) {
      assert r[i] == users[n - 1 - i] && r[j] == users[n - 1 - j];
    }
  }

  /** Places u in front of the first row that is not newer than it. */
  function InsertNewestFirst(u: User, rows: seq<User>): (r: seq<User>)
    ensures multiset(r) == multiset(rows) + multiset{u}
  {
    if rows == [] then [u]
    else if TextLe(rows[0].createdAt, u.createdAt) then [u] + rows
    else
      assert rows == [rows[0]] + rows[1..];
      [rows[0]] + InsertNewestFirst(u, rows[1..])
  }

  lemma {:induction false} InsertKeepsNewestFirst(u: User, rows: seq<User>)
    requires NewestFirst(rows)
    ensures NewestFirst(InsertNewestFirst(u, rows))
  {
    if rows == [] {
    } else if TextLe(rows[0].createdAt, u.createdAt) {
      PrependKeepsNewestFirst(u, rows);
    } else {
      var tail := rows[1..];
      InsertKeepsNewestFirst(u, tail);
      TextLeTotal(u.createdAt, rows[0].createdAt);
      forall x: User | x in multiset(InsertNewestFirst(u, tail))
        ensures TextLe(x.createdAt, rows[0].createdAt)
      {
        if x != u {
          assert x in multiset(tail);
          var k :| 0 <= k < |tail| && tail[k] == x;
          assert rows[k + 1] == x;
        }
      }
      PrependNewestKeepsNewestFirst(rows[0], InsertNewestFirst(u, tail));
    }
  }

  /** Case of InsertKeepsNewestFirst: u is not older than the first row. */
  lemma PrependKeepsNewestFirst(u: User, rows: seq<User>)
    requires NewestFirst(rows) && rows != [] && TextLe(rows[0].createdAt, u.createdAt)
    ensures NewestFirst([u] + rows)
  {
    var r := [u] + rows;
    forall i, j | 0 <= i < j < |r| ensures TextLe(r[j].createdAt, r[i].createdAt) {
      if i == 0 {
        assert r[j] == rows[j - 1];
        if j > 1 {
          TextLeTransitive(rows[j - 1].createdAt, rows[0].createdAt, u.createdAt);
        }
      } else {
        assert r[i] == rows[i - 1] && r[j] == rows[j - 1];
      }
    }
  }

  /** Case of InsertKeepsNewestFirst: the head is not older than any of the
      (already ordered) rest. */
  lemma PrependNewestKeepsNewestFirst(h: User, t: seq<User>)
    requires NewestFirst(t)
    requires forall x :: x in multiset(t) ==> TextLe(x.createdAt, h.createdAt)
    ensures NewestFirst([h] + t)
  {
    var r := [h] + t;
    forall i, j | 0 <= i < j < |r| ensures TextLe(r[j].createdAt, r[i].createdAt) {
      assert r[j] == t[j - 1] && t[j - 1] in multiset(t);
      if i > 0 {
        assert r[i] == t[i - 1];
      }
    }
  }

  /** The relational engine's `ORDER BY createdAt DESC` over the table rows
      (rows with equal timestamps keep no particular order in SQL; the model
      picks one). */
  function OrderByCreatedAtDesc(rows: seq<User>): (r: seq<User>)
    ensures multiset(r) == multiset(rows)
    ensures NewestFirst(r)
  {
    if rows == [] then []
    else
      assert rows == [rows[0]] + rows[1..];
      var sorted := OrderByCreatedAtDesc(rows[1..]);
      InsertKeepsNewestFirst(rows[0], sorted);
      InsertNewestFirst(rows[0], sorted)
  }

  /** Two newest-first permutations of the same rows agree once every
      timestamp is distinct: the order is then determined by the rows. */
  lemma {:induction false} NewestFirstIsUnique(a: seq<User>, b: seq<User>)
    requires multiset(a) == multiset(b)
    requires NewestFirst(a) && NewestFirst(b)
    requires DistinctTimestamps(a)
    ensures a == b
  {
    if a != [] {
      NewestHeadsAgree(a, b);
      SameHeadSameTails(a, b);
      assert a == [a[0]] + a[1..] && b == [b[0]] + b[1..];
      TailKeepsOrder(a);
      TailKeepsOrder(b);
      NewestFirstIsUnique(a[1..], b[1..]);
    }
  }

  /** Step of NewestFirstIsUnique: both sequences start with the newest row. */
  lemma NewestHeadsAgree(a: seq<User>, b: seq<User>)
    requires multiset(a) == multiset(b) && a != []
    requires NewestFirst(a) && NewestFirst(b)
    requires DistinctTimestamps(a)
    ensures b != [] && a[0] == b[0]
  {
    assert a[0] in multiset(b);
    assert b[0] in multiset(a);
    var p :| 0 <= p < |a| && a[p] == b[0];
    var q :| 0 <= q < |b| && b[q] == a[0];
    if p != 0 && q != 0 {
      assert TextLe(a[p].createdAt, a[0].createdAt);
      assert TextLe(b[q].createdAt, b[0].createdAt);
      TextLeAntisymmetric(a[0].createdAt, b[0].createdAt);
    }
  }

  /** Step of NewestFirstIsUnique: equal heads leave equal remainders. */
  lemma SameHeadSameTails(a: seq<User>, b: seq<User>)
    requires multiset(a) == multiset(b) && a != [] && b != [] && a[0] == b[0]
    ensures multiset(a[1..]) == multiset(b[1..])
  {
    assert a == [a[0]] + a[1..] && b == [b[0]] + b[1..];
    assert multiset(a) == multiset{a[0]} + multiset(a[1..]);
    assert multiset(b) == multiset{b[0]} + multiset(b[1..]);
    assert multiset(a[1..]) == multiset(a) - multiset{a[0]};
    assert multiset(b[1..]) == multiset(b) - multiset{b[0]};
  }

  /** Dropping the head keeps both properties of an ordered select. */
  lemma TailKeepsOrder(a: seq<User>)
    requires a != []
    ensures NewestFirst(a) ==> NewestFirst(a[1..])
    ensures DistinctTimestamps(a) ==> DistinctTimestamps(a[1..])
  {
    var t := a[1..];
    forall i, j | 0 <= i < j < |t| ensures t[i] == a[i + 1] && t[j] == a[j + 1] {
    }
  }

  lemma ReversedKeepsDistinctTimestamps(users: seq<User>)
    requires DistinctTimestamps(users)
    ensures DistinctTimestamps(Reversed(users))
  {
    var r := Reversed(users);
    var n := |users|;
    forall i, j | 0 <= i < j < n ensures r[i].createdAt != r[j].createdAt {
      assert r[i] == users[n - 1 - i] && r[j] == users[n - 1 - j];
    }
  }

  /** With strictly increasing timestamps in insertion order, the simulation's
      reversed array and the relational engine's ordered select are the same
      sequence. */
  lemma ReversedMatchesOrderBy(users: seq<User>)
    requires OldestFirst(users) && DistinctTimestamps(users)
    ensures Reversed(users) == OrderByCreatedAtDesc(users)
  {
    var r := Reversed(users);
    var o := OrderByCreatedAtDesc(users);
    ReversedChronologicalIsNewestFirst(users);
    ReversedIsPermutation(users);
    ReversedKeepsDistinctTimestamps(users);
    NewestFirstIsUnique(r, o);
  }
}
