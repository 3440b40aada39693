/**
 * Generic helpers for tables held as sequences of rows in primary-key order:
 * the selections the ORM queries perform (`filter(...).order_by(...).first()`,
 * `aggregate(Max(...))`) and the bulk filter a cascading delete performs.
 */
module Tables {
  import opened Wrappers

  /** Every row's key is below `next` and keys strictly increase along the table. */
  ghost predicate Keyed<T>(s: seq<T>, key: T -> nat, next: nat) {
    && (forall i :: 0 <= i < |s| ==> key(s[i]) < next)
    && (forall i, j :: 0 <= i < j < |s| ==> key(s[i]) < key(s[j]))
  }

  /** The keys present in a table. */
  ghost function Keys<T>(s: seq<T>, key: T -> nat): set<nat> {
    set x | x in s :: key(x)
  }

  /**
   * Index of the first row, in table order, among the rows that `keep`
   * admits and that have the least `rank`; None when `keep` admits no row.
   */
  function FirstMin<T>(s: seq<T>, keep: T -> bool, rank: T -> int): (r: Option<nat>)
    ensures r.None? <==> forall i :: 0 <= i < |s| ==> !keep(s[i])
    ensures r.Some? ==> r.value < |s| && keep(s[r.value])
    ensures r.Some? ==> forall i :: 0 <= i < |s| && keep(s[i]) ==> rank(s[r.value]) <= rank(s[i])
    ensures r.Some? ==> forall i :: 0 <= i < r.value && keep(s[i]) ==> rank(s[r.value]) < rank(s[i])
    decreases |s|
  {
    if |s| == 0 then None
    else
      var rest := FirstMin(s[1..], keep, rank);
      if keep(s[0]) && (rest.None? || rank(s[0]) <= rank(s[1..][rest.value])) then Some(0)
      else if rest.None? then None
      else Some(rest.value + 1)
  }

  /**
   * The largest `rank` among the rows `keep` admits, or 0 when there is none
   * (`aggregate(Max(...))[...] or 0`).
   */
  function MaxOr0<T>(s: seq<T>, keep: T -> bool, rank: T -> nat): (m: nat)
    ensures forall i :: 0 <= i < |s| && keep(s[i]) ==> rank(s[i]) <= m
    ensures m == 0 || exists i :: 0 <= i < |s| && keep(s[i]) && rank(s[i]) == m
    decreases |s|
  {
    if |s| == 0 then 0
    else
      var rest := MaxOr0(s[1..], keep, rank);
      if keep(s[0]) && rank(s[0]) > rest then rank(s[0]) else rest
  }

  /** The rows `keep` admits, in their original order. */
  function Filter<T(!new)>(s: seq<T>, keep: T -> bool): (r: seq<T>)
    ensures |r| <= |s|
    ensures forall x :: x in r <==> x in s && keep(x)
    decreases |s|
  {
    if |s| == 0 then []
    else if keep(s[0]) then [s[0]] + Filter(s[1..], keep)
    else Filter(s[1..], keep)
  }

  /** Filtering keeps a table keyed: the rows stay in key order. */
  lemma {:induction false} FilterKeyed<T(!new)>(s: seq<T>, keep: T -> bool, key: T -> nat, next: nat)
    requires Keyed(s, key, next)
    ensures Keyed(Filter(s, keep), key, next)
    decreases |s|
  {
    if |s| > 0 {
      var tail := s[1..];
      assert Keyed(tail, key, next) by {
        forall i, j | 0 <= i < j < |tail| ensures key(tail[i]) < key(tail[j]) {
          assert tail[i] == s[i + 1] && tail[j] == s[j + 1];
        }
      }
      FilterKeyed(tail, keep, key, next);
      var f := Filter(tail, keep);
      if keep(s[0]) {
        forall j | 0 <= j < |f| ensures key(s[0]) < key(f[j]) {
          assert f[j] in tail;
          var k :| 0 <= k < |tail| && tail[k] == f[j];
          assert s[k + 1] == f[j];
        }
        var r := [s[0]] + f;
        forall i, j | 0 <= i < j < |r| ensures key(r[i]) < key(r[j]) {
          if i > 0 {
            assert r[i] == f[i - 1] && r[j] == f[j - 1];
          } else {
            assert r[j] == f[j - 1];
          }
        }
        forall i | 0 <= i < |r| ensures key(r[i]) < next {
          if i > 0 { assert r[i] == f[i - 1]; }
        }
      }
    }
  }

  /** Filtering a row appended at the end adds it to the end of the result when it is kept. */
  lemma {:induction false} FilterAppend<T(!new)>(s: seq<T>, x: T, keep: T -> bool)
    ensures Filter(s + [x], keep) == Filter(s, keep) + (if keep(x) then [x] else [])
    decreases |s|
  {
    if |s| > 0 {
      assert (s + [x])[1..] == s[1..] + [x];
      FilterAppend(s[1..], x, keep);
    }
  }

  /** The positions of the rows `keep` admits. */
  function Positions<T>(s: seq<T>, keep: T -> bool): set<nat> {
    set i: nat | i < |s| && keep(s[i])
  }

  /** Appending a row adds its position when `keep` admits it. */
  lemma PositionsAppend<T>(s: seq<T>, x: T, keep: T -> bool)
    ensures |Positions(s + [x], keep)| == |Positions(s, keep)| + (if keep(x) then 1 else 0)
  {
    var last: set<nat> := if keep(x) then {|s|} else {};
    forall i: nat ensures i in Positions(s + [x], keep) <==> i in Positions(s, keep) + last {
      if i < |s| { assert (s + [x])[i] == s[i]; }
    }
    assert Positions(s + [x], keep) == Positions(s, keep) + last;
    assert |s| !in Positions(s, keep);
  }

  /** A filter keeps exactly as many rows as there are positions whose row `keep` admits. */
  lemma {:induction false} FilterCount<T(!new)>(s: seq<T>, keep: T -> bool)
    ensures |Filter(s, keep)| == |Positions(s, keep)|
    decreases |s|
  {
    if |s| > 0 {
      var a, x := s[..|s| - 1], s[|s| - 1];
      assert s == a + [x];
      FilterAppend(a, x, keep);
      PositionsAppend(a, x, keep);
      FilterCount(a, keep);
    }
  }

  /** Index of the first row `p` admits, or None when it admits none (`objects.get`, `get_object_or_404`). */
  function Find<T>(s: seq<T>, p: T -> bool): (r: Option<nat>)
    ensures r.None? <==> forall i :: 0 <= i < |s| ==> !p(s[i])
    ensures r.Some? ==> r.value < |s| && p(s[r.value])
    ensures r.Some? ==> forall i :: 0 <= i < r.value ==> !p(s[i])
    decreases |s|
  {
    if |s| == 0 then None
    else if p(s[0]) then Some(0)
    else match Find(s[1..], p)
      case None => None
      case Some(i) => Some(i + 1)
  }

  /** Counting what `p` admits after one row is replaced. */
  lemma {:induction false} FilterUpdateCount<T(!new)>(s: seq<T>, p: T -> bool, i: nat, x: T)
    requires i < |s|
    ensures |Filter(s[i := x], p)| == |Filter(s, p)| - (if p(s[i]) then 1 else 0) + (if p(x) then 1 else 0)
    decreases |s|
  {
    var t := s[i := x];
    if i == 0 {
      assert t[1..] == s[1..];
    } else {
      assert t[1..] == s[1..][i - 1 := x];
      assert t[0] == s[0];
      FilterUpdateCount(s[1..], p, i - 1, x);
    }
  }

  /** Appending a row with a fresh, larger key keeps a table keyed. */
  lemma AppendKeyed<T>(s: seq<T>, key: T -> nat, next: nat, x: T)
    requires Keyed(s, key, next) && key(x) == next
    ensures Keyed(s + [x], key, next + 1)
    ensures Keys(s + [x], key) == Keys(s, key) + {next}
  {
    var t := s + [x];
    assert forall i :: 0 <= i < |s| ==> t[i] == s[i];
  }

  /** Replacing a row by one with the same key keeps the table keyed and its key set. */
  lemma UpdateKeyed<T>(s: seq<T>, key: T -> nat, next: nat, i: nat, x: T)
    requires Keyed(s, key, next) && i < |s| && key(x) == key(s[i])
    ensures Keyed(s[i := x], key, next)
    ensures Keys(s[i := x], key) == Keys(s, key)
  {
    var t := s[i := x];
    forall k | k in Keys(s, key) ensures k in Keys(t, key) {
      var y :| y in s && key(y) == k;
      var j :| 0 <= j < |s| && s[j] == y;
      if j == i { assert key(t[i]) == k; } else { assert t[j] == y; }
    }
    forall k | k in Keys(t, key) ensures k in Keys(s, key) {
      var y :| y in t && key(y) == k;
      var j :| 0 <= j < |t| && t[j] == y;
      if j == i { assert key(s[i]) == k; } else { assert s[j] == y; }
    }
  }

  /** Raising `next` keeps a table keyed. */
  lemma KeyedBelow<T>(s: seq<T>, key: T -> nat, next: nat, next': nat)
    requires Keyed(s, key, next) && next <= next'
    ensures Keyed(s, key, next')
  {
  }

  /** Two tables with the same key at every position are keyed alike and have the same keys. */
  lemma SameKeysAt<T, U>(s: seq<T>, key: T -> nat, t: seq<U>, key': U -> nat, next: nat)
    requires |s| == |t| && forall i :: 0 <= i < |s| ==> key(s[i]) == key'(t[i])
    requires Keyed(s, key, next)
    ensures Keyed(t, key', next)
    ensures Keys(t, key') == Keys(s, key)
  {
    forall k | k in Keys(s, key) ensures k in Keys(t, key') {
      var y :| y in s && key(y) == k;
      var j :| 0 <= j < |s| && s[j] == y;
      assert t[j] in t && key'(t[j]) == k;
    }
    forall k | k in Keys(t, key') ensures k in Keys(s, key) {
      var y :| y in t && key'(y) == k;
      var j :| 0 <= j < |t| && t[j] == y;
      assert s[j] in s && key(s[j]) == k;
    }
  }
}
