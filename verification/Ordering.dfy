/** Strict total orders and the sorted listing of a finite set.

    The source sorts module keys with Python's `sorted` and rows with SQL's
    `ORDER BY`.  Both are the one ascending listing of a set, whatever order the
    set was met in. */
module Ordering {

  ghost predicate StrictOrder<T(!new)>(less: (T, T) -> bool) {
    && (forall a :: !less(a, a))
    && (forall a, b, c :: less(a, b) && less(b, c) ==> less(a, c))
    && (forall a, b :: a == b || less(a, b) || less(b, a))
  }

  ghost predicate Ascending<T(!new)>(s: seq<T>, less: (T, T) -> bool) {
    forall i, j {:trigger less(s[i], s[j])} :: 0 <= i < j < |s| ==> less(s[i], s[j])
  }

  ghost predicate Distinct<T(!new)>(s: seq<T>) {
    forall i, j :: 0 <= i < j < |s| ==> s[i] != s[j]
  }

  function Elements<T>(s: seq<T>): set<T> {
    set x | x in s
  }

  lemma LeastExists<T(!new)>(s: set<T>, less: (T, T) -> bool) returns (m: T)
    requires StrictOrder(less) && s != {}
    ensures m in s && forall x :: x in s ==> x == m || less(m, x)
  {
    var y :| y in s;
    if s == {y} {
      m := y;
    } else {
      var rest := s - {y};
      assert s == {y} + rest;
      var m' := LeastExists(rest, less);
      m := if less(y, m') then y else m';
      assert forall x :: x in s ==> x == y || x in rest;
    }
  }

  /** The least element of a non-empty set. */
  function Least<T(!new)>(s: set<T>, less: (T, T) -> bool): (m: T)
    requires StrictOrder(less) && s != {}
    ensures m in s && forall x :: x in s && x != m ==> less(m, x)
  {
    assert exists m :: m in s && forall x :: x in s ==> x == m || less(m, x) by {
      var m := LeastExists(s, less);
    }
    var m :| m in s && forall x :: x in s ==> x == m || less(m, x);
    m
  }

  lemma PrependLeast<T(!new)>(m: T, rest: seq<T>, s: set<T>, less: (T, T) -> bool)
    requires m in s && Elements(rest) == s - {m} && Ascending(rest, less)
    requires forall x :: x in s && x != m ==> less(m, x)
    ensures Elements([m] + rest) == s && Ascending([m] + rest, less)
  {
    forall j | 0 <= j < |rest| ensures less(m, rest[j]) {
      assert rest[j] in Elements(rest);
    }
    forall x ensures x in [m] + rest <==> x in s {
      assert x in rest <==> x in Elements(rest);
    }
  }

  /** The ascending listing of `s`. */
  function Sorted<T(!new)>(s: set<T>, less: (T, T) -> bool): (r: seq<T>)
    requires StrictOrder(less)
    ensures Ascending(r, less) && Elements(r) == s && |r| == |s|
  {
    if s == {} then []
    else
      var m := Least(s, less);
      var rest := Sorted(s - {m}, less);
      PrependLeast(m, rest, s, less);
      [m] + rest
  }

  /** The head of an ascending listing is its least element, and does not recur. */
  lemma HeadIsLeast<T(!new)>(s: seq<T>, less: (T, T) -> bool)
    requires StrictOrder(less) && Ascending(s, less) && s != []
    ensures forall x :: x in s[1..] <==> x in s && x != s[0]
    ensures forall x :: x in s[1..] ==> less(s[0], x)
    ensures Ascending(s[1..], less)
  {
    forall j | 0 < j < |s| ensures less(s[0], s[j]) && s[j] != s[0] {}
    assert s == [s[0]] + s[1..];
    forall i, j | 0 <= i < j < |s[1..]| ensures less(s[1..][i], s[1..][j]) {
      assert less(s[i + 1], s[j + 1]);
    }
  }

  /** An ascending listing is determined by its elements. */
  lemma {:induction false} AscendingIsUnique<T(!new)>(a: seq<T>, b: seq<T>, less: (T, T) -> bool)
    requires StrictOrder(less) && Ascending(a, less) && Ascending(b, less)
    requires Elements(a) == Elements(b)
    ensures a == b
  {
    assert forall x :: x in a <==> x in Elements(a);
    assert forall x :: x in b <==> x in Elements(b);
    assert a != [] ==> a[0] in b;
    assert b != [] ==> b[0] in a;
    if a != [] {
      HeadIsLeast(a, less);
      HeadIsLeast(b, less);
      assert a[0] in b && b[0] in a;
      assert a[0] == b[0];
      assert Elements(a[1..]) == Elements(b[1..]);
      AscendingIsUnique(a[1..], b[1..], less);
    }
  }

  lemma AscendingIsDistinct<T(!new)>(a: seq<T>, less: (T, T) -> bool)
    requires StrictOrder(less) && Ascending(a, less)
    ensures Distinct(a)
  {
    forall i, j | 0 <= i < j < |a| ensures a[i] != a[j] {
      assert less(a[i], a[j]);
    }
  }

  /** A sequence without repetition is as long as its set of elements. */
  lemma {:induction false} DistinctLength<T(!new)>(s: seq<T>)
    requires Distinct(s)
    ensures |Elements(s)| == |s|
  {
    if s != [] {
      DistinctLength(s[1..]);
      assert Elements(s) == {s[0]} + Elements(s[1..]);
      assert s[0] !in s[1..];
    }
  }

  lemma SubsetLength<T>(a: set<T>, b: set<T>)
    requires a <= b
    ensures |a| <= |b| && (|a| == |b| ==> a == b)
  {
    if a != b {
      var d := b - a;
      assert b == a + d && a !! d;
      assert |b| == |a| + |d|;
      assert d != {};
    }
  }

  /** Pigeonhole: more places than values forces a repetition. */
  lemma Pigeonhole<T(!new)>(s: seq<T>, values: set<T>) returns (i: nat, j: nat)
    requires Elements(s) <= values && |s| > |values|
    ensures i < j < |s| && s[i] == s[j]
  {
    if Distinct(s) {
      DistinctLength(s);
      SubsetLength(Elements(s), values);
      assert false;
    }
    i, j :| 0 <= i < j < |s| && s[i] == s[j];
  }

  /** The members of `order` that lie in `keep`, in order: a list comprehension with a filter. */
  function Restrict<T(!new)>(order: seq<T>, keep: set<T>): (r: seq<T>)
    ensures forall x :: x in r <==> x in order && x in keep
  {
    if order == [] then []
    else if order[0] in keep then [order[0]] + Restrict(order[1..], keep)
    else Restrict(order[1..], keep)
  }

  lemma {:induction false} RestrictAscending<T(!new)>(order: seq<T>, keep: set<T>, less: (T, T) -> bool)
    requires StrictOrder(less) && Ascending(order, less)
    ensures Ascending(Restrict(order, keep), less)
  {
    if order != [] {
      HeadIsLeast(order, less);
      RestrictAscending(order[1..], keep, less);
      var rest := Restrict(order[1..], keep);
      forall j | 0 <= j < |rest| ensures less(order[0], rest[j]) {
        assert rest[j] in rest;
      }
    }
  }

  lemma {:induction false} RestrictAppends<T(!new)>(a: seq<T>, b: seq<T>, keep: set<T>)
    ensures Restrict(a + b, keep) == Restrict(a, keep) + Restrict(b, keep)
  {
    if a == [] {
      assert a + b == b;
    } else {
      assert (a + b)[1..] == a[1..] + b;
      RestrictAppends(a[1..], b, keep);
    }
  }
}
