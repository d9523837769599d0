/**
 * Python's `sorted(...)` applied to a set: the elements listed in ascending order
 * of a strict total order, each exactly once.
 */
module Sorting {

  /** `lt` is a strict total order on the elements of `s`. */
  ghost predicate StrictTotalOrderOn<T>(s: set<T>, lt: (T, T) -> bool) {
    && (forall x :: x in s ==> !lt(x, x))
    && (forall x, y, z :: x in s && y in s && z in s && lt(x, y) && lt(y, z) ==> lt(x, z))
    && (forall x, y :: x in s && y in s && x != y ==> lt(x, y) || lt(y, x))
  }

  /** `r` lists the elements of `s` in strictly ascending order. */
  ghost predicate IsSortedListing<T>(r: seq<T>, s: set<T>, lt: (T, T) -> bool) {
    && (forall i, j :: 0 <= i < j < |r| ==> lt(r[i], r[j]))
    && (forall i :: 0 <= i < |r| ==> r[i] in s)
    && (forall x :: x in s ==> x in r)
  }

  /** `m` is below every other element of `s`. */
  predicate IsMinimum<T>(m: T, s: set<T>, lt: (T, T) -> bool) {
    m in s && forall y :: y in s && y != m ==> lt(m, y)
  }

  lemma OrderOnSubset<T>(s: set<T>, t: set<T>, lt: (T, T) -> bool)
    requires t <= s && StrictTotalOrderOn(s, lt)
    ensures StrictTotalOrderOn(t, lt)
  {
  }

  /** Every non-empty finite set has a least element under a strict total order. */
  lemma {:induction false} MinimumExists<T>(s: set<T>, lt: (T, T) -> bool)
    requires s != {} && StrictTotalOrderOn(s, lt)
    ensures exists m :: IsMinimum(m, s, lt)
    decreases s
  {
    var x :| x in s;
    if s != {x} {
      var rest := s - {x};
      OrderOnSubset(s, rest, lt);
      MinimumExists(rest, lt);
      var m :| IsMinimum(m, rest, lt);
      if lt(x, m) {
        assert IsMinimum(x, s, lt);
      } else {
        assert IsMinimum(m, s, lt);
      }
    } else {
      assert IsMinimum(x, s, lt);
    }
  }

  /** A set has only one sorted listing, so `sorted` is determined by the set alone. */
  lemma {:induction false} SortedListingUnique<T>(r1: seq<T>, r2: seq<T>, s: set<T>, lt: (T, T) -> bool)
    requires StrictTotalOrderOn(s, lt)
    requires IsSortedListing(r1, s, lt) && IsSortedListing(r2, s, lt)
    ensures r1 == r2
    decreases |r1|
  {
    if r1 == [] {
      assert r2 == [] by {
        assert forall x :: x !in s;
      }
    } else {
      assert r1[0] in r2;
      assert r2[0] in r1;
      assert r1[0] == r2[0];
      var x := r1[0];
      var t := s - {x};
      OrderOnSubset(s, t, lt);
      forall y | y in r1[1..] ensures y in t {
        var k :| 1 <= k < |r1| && r1[k] == y;
        assert lt(r1[0], r1[k]);
      }
      forall y | y in r2[1..] ensures y in t {
        var k :| 1 <= k < |r2| && r2[k] == y;
        assert lt(r2[0], r2[k]);
      }
      forall y | y in t ensures y in r1[1..] && y in r2[1..] {
        assert y in r1 && y in r2;
      }
      SortedListingUnique(r1[1..], r2[1..], t, lt);
      assert r1 == [x] + r1[1..] && r2 == [x] + r2[1..];
    }
  }

  /** `sorted(s)`: repeatedly takes the least remaining element. */
  method SortSet<T>(s: set<T>, lt: (T, T) -> bool) returns (r: seq<T>)
    requires StrictTotalOrderOn(s, lt)
    ensures IsSortedListing(r, s, lt)
    ensures |r| == |s|
  {
    r := [];
    var rest := s;
    while rest != {}
      invariant rest <= s
      invariant forall x :: x in s <==> x in r || x in rest
      invariant forall i, j :: 0 <= i < j < |r| ==> lt(r[i], r[j])
      invariant forall i, y :: 0 <= i < |r| && y in rest ==> lt(r[i], y)
      invariant |r| + |rest| == |s|
      decreases |rest|
    {
      OrderOnSubset(s, rest, lt);
      MinimumExists(rest, lt);
      var m :| IsMinimum(m, rest, lt);
      r := r + [m];
      rest := rest - {m};
    }
  }
}
