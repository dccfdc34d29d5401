/** Facts about finite sequences shared by the other modules. */
module Sequences {

  ghost predicate Distinct<T>(s: seq<T>) {
    forall i, j :: 0 <= i < j < |s| ==> s[i] != s[j]
  }

  ghost function Elements<T>(s: seq<T>): set<T> {
    set x | x in s
  }

  /** Index of the first occurrence of `x`, or `|s|` when there is none. */
  function Position<T(==)>(s: seq<T>, x: T): (i: nat)
    ensures i <= |s|
    ensures x in s <==> i < |s|
    ensures i < |s| ==> s[i] == x
  {
    if s == [] || s[0] == x then 0 else 1 + Position(s[1..], x)
  }

  lemma {:induction false} PositionOf<T>(s: seq<T>, i: nat)
    requires Distinct(s) && i < |s|
    ensures Position(s, s[i]) == i
  {
  }

  lemma {:induction false} PositionAppend<T>(s: seq<T>, t: seq<T>, x: T)
    requires x in s
    ensures Position(s + t, x) == Position(s, x)
  {
    if s[0] != x {
      assert (s + t)[1..] == s[1..] + t;
      PositionAppend(s[1..], t, x);
    }
  }

  /** Pigeonhole: a duplicate-free sequence is no longer than a set that holds its elements. */
  lemma {:induction false} DistinctBound<T>(s: seq<T>, all: set<T>)
    requires Distinct(s) && forall x :: x in s ==> x in all
    ensures |s| <= |all|
  {
    if s == [] {
    } else {
      var last := s[|s| - 1];
      var rest := s[..|s| - 1];
      forall x | x in rest ensures x in all - {last} { }
      DistinctBound(rest, all - {last});
    }
  }

  lemma {:induction false} ElementsBound<T>(s: seq<T>)
    ensures |Elements(s)| <= |s|
  {
    if s == [] {
    } else {
      var n := |s| - 1;
      ElementsBound(s[..n]);
      assert s == s[..n] + [s[n]];
      assert Elements(s) == Elements(s[..n]) + {s[n]};
    }
  }

  /** A duplicate-free sequence over the elements of `t` is no longer than `t`. */
  lemma {:induction false} DistinctWithin<T>(s: seq<T>, t: seq<T>)
    requires Distinct(s) && forall x :: x in s ==> x in t
    ensures |s| <= |t|
  {
    DistinctBound(s, Elements(t));
    ElementsBound(t);
  }

  /** Two duplicate-free sequences over the same elements are permutations of one another. */
  lemma {:induction false} DistinctSameElements<T>(s: seq<T>, t: seq<T>)
    requires Distinct(s) && Distinct(t)
    requires forall x :: x in s <==> x in t
    ensures multiset(s) == multiset(t)
  {
    forall x ensures multiset(s)[x] == multiset(t)[x] {
      DistinctCount(s, x);
      DistinctCount(t, x);
    }
  }

  lemma {:induction false} DistinctCount<T>(s: seq<T>, x: T)
    requires Distinct(s)
    ensures multiset(s)[x] == if x in s then 1 else 0
  {
    if s == [] {
    } else {
      var n := |s| - 1;
      DistinctCount(s[..n], x);
      assert s == s[..n] + [s[n]];
    }
  }

  /** The elements of `s` in the order of their first occurrence (the keys of a Python dict filled from `s`). */
  function Dedup<T(==,!new)>(s: seq<T>): (r: seq<T>)
    ensures Distinct(r)
    ensures forall x :: x in r <==> x in s
    ensures |r| <= |s|
    ensures Distinct(s) ==> r == s
    ensures |r| == |s| ==> Distinct(s)
  {
    if s == [] then []
    else
      var n := |s| - 1;
      var r := Dedup(s[..n]);
      assert s == s[..n] + [s[n]];
      if s[n] in r then
        assert exists i :: 0 <= i < n && s[i] == s[n];
        r
      else r + [s[n]]
  }
}
