/** ORDER BY as a function: an insertion sort over a total preorder. SQL leaves the
    order of rows that compare equal unspecified; this sort fixes one of the orders
    SQL allows, and everything proved about it holds of every such order. */
module Ordering {
  /** `le` is a total preorder: any two rows compare, and comparison chains. */
  ghost predicate TotalPreorder<T(!new)>(le: (T, T) -> bool)
  {
    (forall a, b :: le(a, b) || le(b, a)) &&
    (forall a, b, c :: le(a, b) && le(b, c) ==> le(a, c))
  }

  predicate SortedBy<T>(s: seq<T>, le: (T, T) -> bool)
  {
    forall i, j :: 0 <= i < j < |s| ==> le(s[i], s[j])
  }

  /** Puts `x` before the first row it does not follow. */
  function Insert<T(!new)>(x: T, s: seq<T>, le: (T, T) -> bool): (r: seq<T>)
    requires TotalPreorder(le) && SortedBy(s, le)
    ensures SortedBy(r, le)
    ensures multiset(r) == multiset(s) + multiset{x}
  {
    if |s| == 0 then [x]
    else if le(x, s[0]) then
      FirstBelowAll(x, s, le);
      ConsSorted(x, s, le);
      [x] + s
    else
      var rest := Insert(x, s[1..], le);
      assert s == [s[0]] + s[1..];
      RestAbove(s, x, rest, le);
      ConsSorted(s[0], rest, le);
      [s[0]] + rest
  }

  /** A row that precedes the head of sorted rows precedes all of them. */
  lemma FirstBelowAll<T(!new)>(x: T, s: seq<T>, le: (T, T) -> bool)
    requires TotalPreorder(le) && SortedBy(s, le) && |s| > 0 && le(x, s[0])
    ensures forall y :: y in s ==> le(x, y)
  {
    forall y | y in s ensures le(x, y) {
      var j :| 0 <= j < |s| && s[j] == y;
      if j > 0 { assert le(s[0], s[j]); }
    }
  }

  /** A row that precedes every row of sorted rows can be put in front of them. */
  lemma ConsSorted<T>(a: T, s: seq<T>, le: (T, T) -> bool)
    requires SortedBy(s, le) && forall y :: y in s ==> le(a, y)
    ensures SortedBy([a] + s, le)
  {
    var r := [a] + s;
    forall i, j | 0 <= i < j < |r| ensures le(r[i], r[j]) {
      if i == 0 { assert r[j] == s[j - 1]; } else { assert r[i] == s[i - 1] && r[j] == s[j - 1]; }
    }
  }

  /** Every row of the tail, and `x` when it follows the head, follows the head. */
  lemma RestAbove<T(!new)>(s: seq<T>, x: T, rest: seq<T>, le: (T, T) -> bool)
    requires TotalPreorder(le) && SortedBy(s, le) && |s| > 0 && !le(x, s[0])
    requires multiset(rest) == multiset(s[1..]) + multiset{x}
    ensures forall y :: y in rest ==> le(s[0], y)
  {
    forall y | y in rest ensures le(s[0], y) {
      assert y in multiset(rest);
      if y != x {
        assert y in multiset(s[1..]);
        var j :| 0 <= j < |s[1..]| && s[1..][j] == y;
        assert s[j + 1] == y;
      }
    }
  }

  /** The rows of `s` rearranged so that `le` holds between every earlier and later row. */
  function SortBy<T(!new)>(s: seq<T>, le: (T, T) -> bool): (r: seq<T>)
    requires TotalPreorder(le)
    ensures SortedBy(r, le)
    ensures multiset(r) == multiset(s)
    ensures |r| == |s|
  {
    if |s| == 0 then []
    else
      assert s == [s[0]] + s[1..];
      Insert(s[0], SortBy(s[1..], le), le)
  }

  /** The rows a LIMIT/OFFSET clause keeps. SQLite reads a negative LIMIT as "no limit"
      and a negative OFFSET as zero. */
  function Window<T>(s: seq<T>, limit: int, offset: int): (r: seq<T>)
    ensures limit >= 0 ==> |r| <= limit
    ensures forall i :: 0 <= i < |r| ==> 0 <= Skip(offset) + i < |s| && r[i] == s[Skip(offset) + i]
    ensures Skip(offset) <= |s| ==> |r| == if limit < 0 || Skip(offset) + limit > |s| then |s| - Skip(offset) else limit
    ensures Skip(offset) >= |s| ==> r == []
  {
    var from := Skip(offset);
    if from >= |s| then []
    else if limit < 0 || from + limit > |s| then s[from..]
    else s[from..from + limit]
  }

  /** A page cut from sorted rows is sorted. */
  lemma WindowKeepsSorted<T>(s: seq<T>, le: (T, T) -> bool, limit: int, offset: int)
    requires SortedBy(s, le)
    ensures SortedBy(Window(s, limit, offset), le)
  {
    var r := Window(s, limit, offset);
    forall i, j | 0 <= i < j < |r| ensures le(r[i], r[j]) {
      assert r[i] == s[Skip(offset) + i] && r[j] == s[Skip(offset) + j];
    }
  }

  /** The number of rows an OFFSET skips. */
  function Skip(offset: int): nat
  {
    if offset < 0 then 0 else offset
  }
}
