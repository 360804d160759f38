/** Relational tables as sequences of rows in insertion (primary key) order.
    A `key` argument projects a row on one of its integer columns; the functions
    below are the SELECT, UPDATE and DELETE ... WHERE column = ? that both
    backends issue. Key functions are always passed by name. */
module Tables {
  import opened Options

  /** Primary keys strictly increase along the table (AUTOINCREMENT / IDENTITY). */
  predicate Ascending<T>(rows: seq<T>, key: T -> int)
  {
    forall i, j :: 0 <= i < j < |rows| ==> key(rows[i]) < key(rows[j])
  }

  /** Every key is below `bound`, the next value the id generator hands out. */
  predicate Below<T(==)>(rows: seq<T>, key: T -> int, bound: int)
  {
    forall x :: x in rows ==> key(x) < bound
  }

  /** A UNIQUE column: no two rows agree on `key`. */
  predicate UniqueBy<T, K(==)>(rows: seq<T>, key: T -> K)
  {
    forall i, j :: 0 <= i < j < |rows| ==> key(rows[i]) != key(rows[j])
  }

  /** The values a column takes. */
  function Keys<T(==), K(==)>(rows: seq<T>, key: T -> K): set<K>
  {
    set x | x in rows :: key(x)
  }

  /** SELECT ... WHERE key = k LIMIT 1: the first row with that key. */
  function Find<T(==), K(==)>(rows: seq<T>, key: T -> K, k: K): (r: Option<T>)
    ensures r.Some? ==> r.value in rows && key(r.value) == k
    ensures r.None? <==> k !in Keys(rows, key)
  {
    if |rows| == 0 then None
    else if key(rows[0]) == k then Some(rows[0])
    else
      var r := Find(rows[1..], key, k);
      assert forall x :: x in rows[1..] ==> x in rows;
      assert k !in Keys(rows[1..], key) && key(rows[0]) != k ==> k !in Keys(rows, key) by {
        if k in Keys(rows, key) && key(rows[0]) != k {
          var x :| x in rows && key(x) == k;
          var i :| 0 <= i < |rows| && rows[i] == x;
          assert rows[1..][i - 1] == x;
        }
      }
      r
  }

  /** Under unique keys, Find returns the one row that carries the key. */
  lemma {:induction false} FindAt<T>(rows: seq<T>, key: T -> int, i: int)
    requires Ascending(rows, key) && 0 <= i < |rows|
    ensures Find(rows, key, key(rows[i])) == Some(rows[i])
  {
    if i > 0 {
      assert key(rows[0]) < key(rows[i]);
      assert rows[1..][i - 1] == rows[i];
      FindAt(rows[1..], key, i - 1);
    }
  }

  /** A primary key identifies its row. */
  lemma KeyDetermines<T>(rows: seq<T>, key: T -> int, x: T, y: T)
    requires Ascending(rows, key) && x in rows && y in rows
    ensures key(x) == key(y) ==> x == y
  {
    var i :| 0 <= i < |rows| && rows[i] == x;
    var j :| 0 <= j < |rows| && rows[j] == y;
    assert i < j ==> key(rows[i]) < key(rows[j]);
    assert j < i ==> key(rows[j]) < key(rows[i]);
  }

  /** Under unique keys, Find returns the row that carries the key. */
  lemma FindMember<T>(rows: seq<T>, key: T -> int, x: T)
    requires Ascending(rows, key) && x in rows
    ensures Find(rows, key, key(x)) == Some(x)
  {
    var i :| 0 <= i < |rows| && rows[i] == x;
    FindAt(rows, key, i);
  }

  /** UPDATE ... WHERE key = k: every row with that key becomes `row`. */
  function Replace<T>(rows: seq<T>, key: T -> int, k: int, row: T): (r: seq<T>)
    ensures |r| == |rows|
    ensures forall i :: 0 <= i < |rows| ==> r[i] == if key(rows[i]) == k then row else rows[i]
  {
    seq(|rows|, i requires 0 <= i < |rows| => if key(rows[i]) == k then row else rows[i])
  }

  /** Writing the same row twice is writing it once. */
  lemma ReplaceTwice<T>(rows: seq<T>, key: T -> int, k: int, row: T)
    requires key(row) == k
    ensures Replace(Replace(rows, key, k, row), key, k, row) == Replace(rows, key, k, row)
  {
  }

  /** The rows after an UPDATE are the new row and old rows; the new row is there when
      some row carried the key. */
  lemma ReplaceMembers<T>(rows: seq<T>, key: T -> int, k: int, row: T)
    ensures forall x :: x in Replace(rows, key, k, row) ==> x == row || (x in rows && key(x) != k)
    ensures k in Keys(rows, key) ==> row in Replace(rows, key, k, row)
  {
    var r := Replace(rows, key, k, row);
    forall x | x in r ensures x == row || (x in rows && key(x) != k) {
      var i :| 0 <= i < |r| && r[i] == x;
      assert rows[i] in rows;
    }
    if k in Keys(rows, key) {
      var x :| x in rows && key(x) == k;
      var i :| 0 <= i < |rows| && rows[i] == x;
      assert r[i] == row;
    }
  }

  /** DELETE ... WHERE key IN ks: the rows whose key lies outside `ks`, in order. */
  function DeleteIn<T(==,!new)>(rows: seq<T>, key: T -> int, ks: set<int>): (r: seq<T>)
    ensures |r| <= |rows|
    ensures forall x :: x in r <==> x in rows && key(x) !in ks
  {
    if |rows| == 0 then []
    else
      var rest := DeleteIn(rows[1..], key, ks);
      assert forall x :: x in rows <==> x == rows[0] || x in rows[1..];
      if key(rows[0]) in ks then rest else [rows[0]] + rest
  }

  /** SELECT ... WHERE key = k: the rows that carry the key, in order. */
  function Select<T(==,!new)>(rows: seq<T>, key: T -> int, k: int): (r: seq<T>)
    ensures |r| <= |rows|
    ensures forall x :: x in r <==> x in rows && key(x) == k
  {
    if |rows| == 0 then []
    else
      var rest := Select(rows[1..], key, k);
      assert forall x :: x in rows <==> x == rows[0] || x in rows[1..];
      if key(rows[0]) == k then [rows[0]] + rest else rest
  }

  lemma KeysOfDeleteIn<T(!new)>(rows: seq<T>, key: T -> int, ks: set<int>)
    ensures Keys(DeleteIn(rows, key, ks), key) == Keys(rows, key) - ks
  {
  }

  /** Deleting rows keeps any order the table had (filtering is order-preserving). */
  lemma {:induction false} DeleteInKeepsAscending<T(!new)>(rows: seq<T>, key: T -> int, ks: set<int>, order: T -> int)
    requires Ascending(rows, order)
    ensures Ascending(DeleteIn(rows, key, ks), order)
  {
    if |rows| > 0 {
      DeleteInKeepsAscending(rows[1..], key, ks, order);
      var rest := DeleteIn(rows[1..], key, ks);
      forall y | y in rest ensures order(rows[0]) < order(y) {
        var j :| 0 <= j < |rows[1..]| && rows[1..][j] == y;
        assert rows[j + 1] == y;
      }
    }
  }

  /** Deleting rows keeps a UNIQUE column unique. */
  lemma {:induction false} DeleteInKeepsUnique<T(!new), K>(rows: seq<T>, key: T -> int, ks: set<int>, unique: T -> K)
    requires UniqueBy(rows, unique)
    ensures UniqueBy(DeleteIn(rows, key, ks), unique)
  {
    if |rows| > 0 {
      DeleteInKeepsUnique(rows[1..], key, ks, unique);
      var rest := DeleteIn(rows[1..], key, ks);
      forall y | y in rest ensures unique(rows[0]) != unique(y) {
        var j :| 0 <= j < |rows[1..]| && rows[1..][j] == y;
        assert rows[j + 1] == y;
      }
    }
  }

  /** Appending a row with a fresh, larger key keeps the keys ascending. */
  lemma AppendKeepsAscending<T>(rows: seq<T>, key: T -> int, row: T, bound: int)
    requires Ascending(rows, key) && Below(rows, key, bound) && bound <= key(row)
    ensures Ascending(rows + [row], key)
  {
    var r := rows + [row];
    forall i, j | 0 <= i < j < |r| ensures key(r[i]) < key(r[j]) {
      if j == |rows| {
        assert r[i] in rows;
      }
    }
  }

  /** Appending a row whose value is new keeps a UNIQUE column unique. */
  lemma AppendKeepsUnique<T, K>(rows: seq<T>, unique: T -> K, row: T)
    requires UniqueBy(rows, unique)
    requires forall x :: x in rows ==> unique(x) != unique(row)
    ensures UniqueBy(rows + [row], unique)
  {
    var r := rows + [row];
    forall i, j | 0 <= i < j < |r| ensures unique(r[i]) != unique(r[j]) {
      if j == |rows| {
        assert r[i] in rows;
      }
    }
  }

  /** Replacing a row by one with the same key changes no key. */
  lemma ReplaceKeepsKeys<T>(rows: seq<T>, key: T -> int, k: int, row: T)
    requires key(row) == k
    ensures Keys(Replace(rows, key, k, row), key) == Keys(rows, key)
    ensures Ascending(rows, key) ==> Ascending(Replace(rows, key, k, row), key)
  {
    var r := Replace(rows, key, k, row);
    forall x | x in r ensures key(x) in Keys(rows, key) {
      var i :| 0 <= i < |r| && r[i] == x;
      assert rows[i] in rows;
    }
    forall y | y in Keys(rows, key) ensures y in Keys(r, key) {
      var x :| x in rows && key(x) == y;
      var i :| 0 <= i < |rows| && rows[i] == x;
      assert r[i] in r;
    }
  }
}
