/** Tables held as sequences of rows, in the order a query returns them, and
    the queries the persistence layer runs on them: a `WHERE` filter, a
    single-row fetch, a merge and a delete. */
module Tables {

  /** The outcome of a query that expects one row (`getSingleResult`):
      no row, exactly one, or several. */
  datatype Single<T> = NoResult | One(row: T) | NonUnique

  /** The rows satisfying `p`, in table order. */
  function Select<T(!new)>(rows: seq<T>, p: T -> bool): (r: seq<T>)
    ensures |r| <= |rows|
    ensures forall x :: x in r <==> x in rows && p(x)
    decreases |rows|
  {
    if rows == [] then []
    else
      var rest := Select(rows[1..], p);
      assert forall x :: x in rows <==> x == rows[0] || x in rows[1..] by {
        assert rows == [rows[0]] + rows[1..];
      }
      if p(rows[0]) then [rows[0]] + rest else rest
  }

  /** No two distinct positions satisfy `p`. */
  predicate AtMostOne<T>(rows: seq<T>, p: T -> bool) {
    forall i, j :: 0 <= i < |rows| && 0 <= j < |rows| && p(rows[i]) && p(rows[j]) ==> i == j
  }

  /** No two rows share a key. */
  predicate UniqueBy<T, K(==)>(rows: seq<T>, key: T -> K) {
    forall i, j :: 0 <= i < j < |rows| ==> key(rows[i]) != key(rows[j])
  }

  /** The single-row fetch: the matching row when there is exactly one. */
  function SingleResult<T(!new)>(rows: seq<T>, p: T -> bool): (r: Single<T>)
    ensures r.NoResult? <==> forall x :: x in rows ==> !p(x)
    ensures r.One? ==> r.row in rows && p(r.row)
    ensures r.One? ==> forall x :: x in rows && p(x) ==> x == r.row
    ensures r.NonUnique? ==> !AtMostOne(rows, p)
  {
    var m := Select(rows, p);
    if |m| == 0 then NoResult
    else if |m| == 1 then
      assert m[0] in m;
      One(m[0])
    else
      SelectTwo(rows, p);
      NonUnique
  }

  /** Two selected rows come from two different positions. */
  lemma {:induction false} SelectTwo<T(!new)>(rows: seq<T>, p: T -> bool)
    requires |Select(rows, p)| >= 2
    ensures !AtMostOne(rows, p)
    decreases |rows|
  {
    assert rows != [];
    if p(rows[0]) {
      var rest := Select(rows[1..], p);
      assert |rest| >= 1;
      assert rest[0] in rows[1..];
      var j :| 0 <= j < |rows[1..]| && rows[1..][j] == rest[0];
      assert p(rows[j + 1]) && p(rows[0]);
    } else {
      SelectTwo(rows[1..], p);
      var i, j :| 0 <= i < |rows[1..]| && 0 <= j < |rows[1..]| && p(rows[1..][i]) && p(rows[1..][j]) && i != j;
      assert p(rows[i + 1]) && p(rows[j + 1]);
    }
  }

  /** When the key is unique, a fetch by key never finds several rows. */
  lemma UniqueKeyFetch<T(!new), K>(rows: seq<T>, key: T -> K, k: K)
    requires UniqueBy(rows, key)
    ensures !SingleResult(rows, x => key(x) == k).NonUnique?
  {
    var p := x => key(x) == k;
    assert AtMostOne(rows, p);
  }

  /** A fetch whose condition holds at exactly one position finds that row. */
  lemma SingleAt<T(!new)>(rows: seq<T>, p: T -> bool, k: int)
    requires 0 <= k < |rows| && p(rows[k])
    requires forall i :: 0 <= i < |rows| && i != k ==> !p(rows[i])
    ensures SingleResult(rows, p) == One(rows[k])
  {
    assert AtMostOne(rows, p);
    assert rows[k] in rows;
  }

  /** Every row satisfying `p` replaced by `x` (`merge` of a detached row). */
  function Replace<T>(rows: seq<T>, p: T -> bool, x: T): (r: seq<T>)
    ensures |r| == |rows|
    ensures forall i :: 0 <= i < |rows| ==> r[i] == (if p(rows[i]) then x else rows[i])
  {
    seq(|rows|, i requires 0 <= i < |rows| => if p(rows[i]) then x else rows[i])
  }

  /** The rows not satisfying `p` (`DELETE ... WHERE p`). */
  function Remove<T(!new)>(rows: seq<T>, p: T -> bool): (r: seq<T>)
    ensures forall x :: x in r <==> x in rows && !p(x)
  {
    Select(rows, x => !p(x))
  }

  /** Filtering keeps the rows in their order, so a unique key stays unique. */
  lemma {:induction false} SelectKeepsUnique<T(!new), K>(rows: seq<T>, p: T -> bool, key: T -> K)
    requires UniqueBy(rows, key)
    ensures UniqueBy(Select(rows, p), key)
    decreases |rows|
  {
    if rows != [] {
      assert UniqueBy(rows[1..], key);
      SelectKeepsUnique(rows[1..], p, key);
      var rest := Select(rows[1..], p);
      if p(rows[0]) {
        var r := [rows[0]] + rest;
        forall i, j | 0 <= i < j < |r| ensures key(r[i]) != key(r[j]) {
          if i == 0 {
            assert r[j] in rows[1..];
            var k :| 0 <= k < |rows[1..]| && rows[1..][k] == r[j];
            assert key(rows[0]) != key(rows[k + 1]);
          } else {
            assert r[i] == rest[i - 1] && r[j] == rest[j - 1];
          }
        }
      }
    }
  }

  /** A row with a new key keeps the keys unique. */
  lemma AppendKeepsUnique<T, K>(rows: seq<T>, x: T, key: T -> K)
    requires UniqueBy(rows, key)
    requires forall r :: r in rows ==> key(r) != key(x)
    ensures UniqueBy(rows + [x], key)
  {
    var s := rows + [x];
    forall i, j | 0 <= i < j < |s| ensures key(s[i]) != key(s[j]) {
      if j == |rows| {
        assert s[i] in rows;
      }
    }
  }

  /** Replacing rows by one with the same key leaves every key in place. */
  lemma ReplaceKeepsUnique<T, K>(rows: seq<T>, p: T -> bool, x: T, key: T -> K)
    requires UniqueBy(rows, key)
    requires forall r :: r in rows && p(r) ==> key(r) == key(x)
    ensures UniqueBy(Replace(rows, p, x), key)
  {
    var s := Replace(rows, p, x);
    forall i | 0 <= i < |rows| ensures key(s[i]) == key(rows[i]) {
      if p(rows[i]) {
        assert rows[i] in rows;
      }
    }
  }

  /** Deletion keeps a unique key unique. */
  lemma RemoveKeepsUnique<T(!new), K>(rows: seq<T>, p: T -> bool, key: T -> K)
    requires UniqueBy(rows, key)
    ensures UniqueBy(Remove(rows, p), key)
  {
    SelectKeepsUnique(rows, x => !p(x), key);
  }

  /** A replaced table holds the new row, if some row was replaced, and
      exactly the rows that were not. */
  lemma ReplaceMembers<T>(rows: seq<T>, p: T -> bool, x: T)
    ensures forall y :: y in Replace(rows, p, x) ==> (y == x && exists r :: r in rows && p(r)) || (y in rows && !p(y))
    ensures forall r :: r in rows && !p(r) ==> r in Replace(rows, p, x)
    ensures (exists r :: r in rows && p(r)) ==> x in Replace(rows, p, x)
  {
    var s := Replace(rows, p, x);
    forall y | y in s ensures (y == x && exists r :: r in rows && p(r)) || (y in rows && !p(y)) {
      var i :| 0 <= i < |s| && s[i] == y;
      assert rows[i] in rows;
    }
    forall r | r in rows && !p(r) ensures r in s {
      var i :| 0 <= i < |rows| && rows[i] == r;
      assert s[i] == r;
    }
    if exists r :: r in rows && p(r) {
      var r :| r in rows && p(r);
      var i :| 0 <= i < |rows| && rows[i] == r;
      assert s[i] == x;
    }
  }
}
