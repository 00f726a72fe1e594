/** Sorted listings of finite sets, as a Mongo find with a sort returns them. */
module Sorting {
  /** What a strict total order gives for three elements; named so that it is used only where it is asked for. */
  predicate OrderedAt<T(==)>(less: (T, T) -> bool, a: T, b: T, c: T) {
    && !less(a, a)
    && (a != b ==> less(a, b) || less(b, a))
    && (less(a, b) && less(b, c) ==> less(a, c))
  }

  ghost predicate StrictOrder<T(!new)>(less: (T, T) -> bool) {
    forall a, b, c :: OrderedAt(less, a, b, c)
  }

  ghost predicate Increasing<T>(s: seq<T>, less: (T, T) -> bool) {
    forall i, j :: 0 <= i < j < |s| ==> less(s[i], s[j])
  }

  predicate IsLeast<T(==)>(m: T, s: set<T>, less: (T, T) -> bool) {
    m in s && forall x :: x in s ==> x == m || less(m, x)
  }

  lemma {:induction false} LeastExists<T(!new)>(s: set<T>, less: (T, T) -> bool)
    requires StrictOrder(less) && s != {}
    ensures exists m :: IsLeast(m, s, less)
  {
    var m :| m in s;
    var rest := s - {m};
    if rest == {} {
      assert s == {m};
      assert IsLeast(m, s, less);
    } else {
      LeastExists(rest, less);
      var n :| IsLeast(n, rest, less);
      var least := if less(n, m) then n else m;
      forall x | x in s ensures x == least || less(least, x) {
        assert OrderedAt(less, n, m, x) && OrderedAt(less, m, n, x);
        assert x == m || x in rest;
      }
      assert IsLeast(least, s, less);
    }
  }

  lemma LeastIsUnique<T(!new)>(s: set<T>, less: (T, T) -> bool)
    requires StrictOrder(less)
    ensures forall a, b :: IsLeast(a, s, less) && IsLeast(b, s, less) ==> a == b
  {
    forall a, b | IsLeast(a, s, less) && IsLeast(b, s, less) ensures a == b {
      assert OrderedAt(less, a, b, a);
    }
  }

  function Least<T(==, !new)>(s: set<T>, less: (T, T) -> bool): (m: T)
    requires StrictOrder(less) && s != {}
    ensures IsLeast(m, s, less)
  {
    LeastExists(s, less);
    LeastIsUnique(s, less);
    var m :| m in s && IsLeast(m, s, less);
    m
  }

  /** The elements of s in increasing order. */
  function Sorted<T(==, !new)>(s: set<T>, less: (T, T) -> bool): (r: seq<T>)
    requires StrictOrder(less)
    ensures Increasing(r, less)
    ensures forall x :: x in r <==> x in s
    ensures |r| == |s|
  {
    if s == {} then [] else
      var m := Least(s, less);
      [m] + Sorted(s - {m}, less)
  }

  /** An increasing listing of given elements is unique. */
  lemma {:induction false} IncreasingUnique<T(!new)>(a: seq<T>, b: seq<T>, less: (T, T) -> bool)
    requires StrictOrder(less) && Increasing(a, less) && Increasing(b, less)
    requires forall x :: x in a <==> x in b
    ensures a == b
  {
    assert b != [] ==> b[0] in b;
    assert a != [] ==> a[0] in a;
    if a != [] {
      assert a[0] in b && b[0] in a;
      assert OrderedAt(less, a[0], b[0], a[0]);
      forall x ensures x in a[1..] <==> x in b[1..] {
        HeadNotInTail(a, less);
        HeadNotInTail(b, less);
        assert x in a <==> x == a[0] || x in a[1..];
        assert x in b <==> x == b[0] || x in b[1..];
      }
      IncreasingUnique(a[1..], b[1..], less);
    }
  }

  lemma HeadNotInTail<T(!new)>(a: seq<T>, less: (T, T) -> bool)
    requires StrictOrder(less) && Increasing(a, less) && a != []
    ensures a[0] !in a[1..]
  {
    assert OrderedAt(less, a[0], a[0], a[0]);
  }
}
