/**
 Strict total orders on values and the sorted listing of a finite set.  Sorted JSON keys,
 the keyword ranking and the ORDER BY clauses of the backfill queries are all instances.
 */
module Ordering {

  ghost predicate StrictTotalOrder<T(!new)>(lt: (T, T) -> bool) {
    && (forall a :: !lt(a, a))
    && (forall a, b :: a == b || lt(a, b) || lt(b, a))
    && (forall a, b, c :: lt(a, b) && lt(b, c) ==> lt(a, c))
  }

  ghost predicate SortedBy<T>(s: seq<T>, lt: (T, T) -> bool) {
    forall i, j :: 0 <= i < j < |s| ==> lt(s[i], s[j])
  }

  ghost predicate IsLeast<T(!new)>(m: T, s: set<T>, lt: (T, T) -> bool) {
    m in s && forall x :: x in s ==> x == m || lt(m, x)
  }

  lemma LeastExists<T(!new)>(s: set<T>, lt: (T, T) -> bool)
    requires StrictTotalOrder(lt) && s != {}
    ensures exists m :: IsLeast(m, s, lt)
    decreases |s|
  {
    var x :| x in s;
    if s == {x} {
      assert IsLeast(x, s, lt);
    } else {
      var rest := s - {x};
      assert rest != {};
      LeastExists(rest, lt);
      var m :| IsLeast(m, rest, lt);
      var k := if lt(x, m) then x else m;
      assert forall y :: y in s ==> y == x || y in rest;
      assert IsLeast(k, s, lt);
    }
  }

  function Least<T(==, !new)>(s: set<T>, lt: (T, T) -> bool): (m: T)
    requires StrictTotalOrder(lt) && s != {}
    ensures IsLeast(m, s, lt)
  {
    LeastExists(s, lt);
    var m :| m in s && forall x :: x in s ==> x == m || lt(m, x);
    m
  }

  /** The elements of `s`, each once, in increasing order. */
  function Sorted<T(==, !new)>(s: set<T>, lt: (T, T) -> bool): (r: seq<T>)
    requires StrictTotalOrder(lt)
    ensures SortedBy(r, lt) && |r| == |s|
    ensures forall x :: x in r <==> x in s
    decreases |s|
  {
    if s == {} then []
    else
      var m := Least(s, lt);
      [m] + Sorted(s - {m}, lt)
  }

  lemma SortedHasNoRepeats<T(!new)>(s: seq<T>, lt: (T, T) -> bool)
    requires StrictTotalOrder(lt) && SortedBy(s, lt)
    ensures forall i, j :: 0 <= i < j < |s| ==> s[i] != s[j]
  {
  }

  // ---------------------------------------------------------------- strings

  /** Code point order: Python's string order and SQLite's BINARY collation. */
  predicate StrLess(a: string, b: string) {
    if b == [] then false
    else if a == [] then true
    else if a[0] != b[0] then a[0] < b[0]
    else StrLess(a[1..], b[1..])
  }

  lemma {:induction false} StrLessIrreflexive(a: string)
    ensures !StrLess(a, a)
  {
    if a != [] {
      StrLessIrreflexive(a[1..]);
    }
  }

  lemma {:induction false} StrLessConnected(a: string, b: string)
    ensures a == b || StrLess(a, b) || StrLess(b, a)
  {
    if a != [] && b != [] && a[0] == b[0] {
      StrLessConnected(a[1..], b[1..]);
      assert a == [a[0]] + a[1..];
      assert b == [b[0]] + b[1..];
    }
  }

  lemma {:induction false} StrLessTransitive(a: string, b: string, c: string)
    requires StrLess(a, b) && StrLess(b, c)
    ensures StrLess(a, c)
  {
    if a != [] && a[0] == b[0] && b[0] == c[0] {
      StrLessTransitive(a[1..], b[1..], c[1..]);
    }
  }

  lemma StrLessIsStrictTotalOrder()
    ensures StrictTotalOrder(StrLess)
  {
    forall a ensures !StrLess(a, a) { StrLessIrreflexive(a); }
    forall a, b ensures a == b || StrLess(a, b) || StrLess(b, a) { StrLessConnected(a, b); }
    forall a, b, c | StrLess(a, b) && StrLess(b, c) ensures StrLess(a, c) { StrLessTransitive(a, b, c); }
  }

  predicate StrGreater(a: string, b: string) { StrLess(b, a) }

  /** SQL's MIN over a text column. */
  function MinText(s: set<string>): (m: string)
    requires s != {}
    ensures m in s && forall x :: x in s ==> !StrLess(x, m)
  {
    StrLessIsStrictTotalOrder();
    Least(s, StrLess)
  }

  /** SQL's MAX over a text column. */
  function MaxText(s: set<string>): (m: string)
    requires s != {}
    ensures m in s && forall x :: x in s ==> !StrLess(m, x)
  {
    StrLessIsStrictTotalOrder();
    Least(s, StrGreater)
  }
}
