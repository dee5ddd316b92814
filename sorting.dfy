// Python's `sorted(...)` over dictionary keys, as used by the code generator
// for quadrature point counts, table names and dof-block tuples.  Keys are
// put in increasing order of a strict total order; the orders here are the
// ones Python uses for ints, strings and tuples of int pairs.
module Sorting {

  ghost predicate StrictTotalOrder<K(!new)>(less: (K, K) -> bool)
  {
    (forall a :: !less(a, a))
    && (forall a, b, c :: less(a, b) && less(b, c) ==> less(a, c))
    && (forall a, b :: a != b ==> less(a, b) || less(b, a))
  }

  predicate SortedBy<K>(s: seq<K>, less: (K, K) -> bool)
  {
    forall i, j :: 0 <= i < j < |s| ==> less(s[i], s[j])
  }

  predicate IsLeast<K(==,!new)>(m: K, s: set<K>, less: (K, K) -> bool)
  {
    m in s && forall x :: x in s && x != m ==> less(m, x)
  }

  lemma NonEmptyHasMember<K>(s: set<K>)
    requires s != {}
    ensures exists x :: x in s
  {
    if forall x :: x !in s { assert false; }
  }

  lemma LeastExists<K(!new)>(s: set<K>, less: (K, K) -> bool)
    requires StrictTotalOrder(less)
    requires s != {}
    ensures exists m :: IsLeast(m, s, less)
  {
    NonEmptyHasMember(s);
    var x :| x in s;
    if s - {x} == {} {
      assert s == {x};
      assert IsLeast(x, s, less);
    } else {
      LeastExists(s - {x}, less);
      var y :| IsLeast(y, s - {x}, less);
      var m := if less(x, y) then x else y;
      forall z | z in s && z != m
        ensures less(m, z)
      {
        if z != x && z != y {
          assert z in s - {x};
        }
      }
      assert IsLeast(m, s, less);
    }
  }

  /** The keys of `s` in increasing order: Python's `sorted(s)`. */
  function SortedKeys<K(==,!new)>(s: set<K>, less: (K, K) -> bool): (r: seq<K>)
    requires StrictTotalOrder(less)
    ensures SortedBy(r, less)
    ensures forall x :: x in r <==> x in s
    ensures |r| == |s|
    decreases s
  {
    if s == {} then []
    else
      LeastExists(s, less);
      var m :| IsLeast(m, s, less);
      [m] + SortedKeys(s - {m}, less)
  }

  /** A strictly sorted sequence is determined by its elements. */
  lemma {:induction false} SortedUnique<K(!new)>(r: seq<K>, t: seq<K>, less: (K, K) -> bool)
    requires StrictTotalOrder(less)
    requires SortedBy(r, less) && SortedBy(t, less)
    requires forall x :: x in r <==> x in t
    ensures r == t
  {
    if r != [] { assert r[0] in t; }
    if t != [] { assert t[0] in r; }
    if r != [] {
      var r0, t0 := r[0], t[0];
      var k :| 0 <= k < |t| && t[k] == r0;
      var k' :| 0 <= k' < |r| && r[k'] == t0;
      assert k == 0 || less(t0, r0);
      assert k' == 0 || less(r0, t0);
      assert r0 == t0;
      forall x ensures x in r[1..] <==> x in t[1..] {
        if x in r[1..] {
          var i :| 1 <= i < |r| && r[i] == x;
          assert less(r[0], x);
          assert x in t;
        }
        if x in t[1..] {
          var i :| 1 <= i < |t| && t[i] == x;
          assert less(t[0], x);
          assert x in r;
        }
      }
      SortedUnique(r[1..], t[1..], less);
      assert r == [r[0]] + r[1..];
      assert t == [t[0]] + t[1..];
    }
  }

  // ---------------------------------------------------------------------
  // Python's orders on the key types the generator sorts.

  function NatLess(a: nat, b: nat): bool { a < b }

  function CharLess(a: char, b: char): bool { a < b }

  /** Python's ordering of (begin, end) tuples. */
  function PairLess(p: (int, int), q: (int, int)): bool
  {
    p.0 < q.0 || (p.0 == q.0 && p.1 < q.1)
  }

  /**
   * Python's sequence comparison: the first position where the two differ
   * decides; a proper prefix comes first.
   */
  function LexLess<T(==,!new)>(a: seq<T>, b: seq<T>, less: (T, T) -> bool): bool
    decreases |a|
  {
    if |a| == 0 then |b| > 0
    else if |b| == 0 then false
    else if a[0] != b[0] then less(a[0], b[0])
    else LexLess(a[1..], b[1..], less)
  }

  function StringLess(a: string, b: string): bool { LexLess(a, b, CharLess) }

  function TupleLess(a: seq<(int, int)>, b: seq<(int, int)>): bool { LexLess(a, b, PairLess) }

  lemma {:induction false} LexIrreflexive<T(!new)>(a: seq<T>, less: (T, T) -> bool)
    ensures !LexLess(a, a, less)
  {
    if |a| > 0 { LexIrreflexive(a[1..], less); }
  }

  lemma {:induction false} LexTransitive<T(!new)>(a: seq<T>, b: seq<T>, c: seq<T>, less: (T, T) -> bool)
    requires StrictTotalOrder(less)
    requires LexLess(a, b, less) && LexLess(b, c, less)
    ensures LexLess(a, c, less)
  {
    if |a| > 0 && |b| > 0 && |c| > 0 && a[0] == b[0] && b[0] == c[0] {
      LexTransitive(a[1..], b[1..], c[1..], less);
    }
  }

  lemma {:induction false} LexConnected<T(!new)>(a: seq<T>, b: seq<T>, less: (T, T) -> bool)
    requires StrictTotalOrder(less)
    requires a != b
    ensures LexLess(a, b, less) || LexLess(b, a, less)
  {
    if |a| > 0 && |b| > 0 && a[0] == b[0] {
      assert a == [a[0]] + a[1..];
      assert b == [b[0]] + b[1..];
      LexConnected(a[1..], b[1..], less);
    }
  }

  lemma NatLessStrictTotal()
    ensures StrictTotalOrder(NatLess)
  {
  }

  lemma StringLessStrictTotal()
    ensures StrictTotalOrder(StringLess)
  {
    forall a: string ensures !StringLess(a, a) { LexIrreflexive(a, CharLess); }
    forall a: string, b: string, c: string | StringLess(a, b) && StringLess(b, c)
      ensures StringLess(a, c)
    {
      LexTransitive(a, b, c, CharLess);
    }
    forall a: string, b: string | a != b
      ensures StringLess(a, b) || StringLess(b, a)
    {
      LexConnected(a, b, CharLess);
    }
  }

  lemma TupleLessStrictTotal()
    ensures StrictTotalOrder(TupleLess)
  {
    forall a: seq<(int, int)> ensures !TupleLess(a, a) { LexIrreflexive(a, PairLess); }
    forall a: seq<(int, int)>, b: seq<(int, int)>, c: seq<(int, int)> | TupleLess(a, b) && TupleLess(b, c)
      ensures TupleLess(a, c)
    {
      LexTransitive(a, b, c, PairLess);
    }
    forall a: seq<(int, int)>, b: seq<(int, int)> | a != b
      ensures TupleLess(a, b) || TupleLess(b, a)
    {
      LexConnected(a, b, PairLess);
    }
  }
}
