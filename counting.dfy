/**
 * Counting facts the termination and bound proofs of the two path searches
 * rest on: a sequence without repeats drawn from n values has at most n
 * elements.
 */
module Counting {
  ghost predicate Distinct<T>(s: seq<T>) {
    forall i, j | 0 <= i < j < |s| :: s[i] != s[j]
  }

  /** The integers 0 .. n-1 as a set. */
  function Range(n: nat): (r: set<int>)
    ensures forall x :: x in r <==> 0 <= x < n
  {
    if n == 0 then {} else Range(n - 1) + {n - 1}
  }

  lemma {:induction false} RangeCard(n: nat)
    ensures |Range(n)| == n
  {
    if n > 0 {
      RangeCard(n - 1);
      var smaller := Range(n - 1);
      assert n - 1 !in smaller;
      assert Range(n) == smaller + {n - 1};
    }
  }

  lemma {:induction false} SubsetCard<T>(a: set<T>, b: set<T>)
    requires a <= b
    ensures |a| <= |b|
    decreases a
  {
    if a != {} {
      var x :| x in a;
      SubsetCard(a - {x}, b - {x});
    }
  }

  lemma {:induction false} DistinctCard<T>(s: seq<T>)
    requires Distinct(s)
    ensures |set x | x in s| == |s|
  {
    if |s| > 0 {
      var t := s[..|s| - 1];
      assert Distinct(t);
      DistinctCard(t);
      assert (set x | x in s) == (set x | x in t) + {s[|s| - 1]};
      assert s[|s| - 1] !in t;
    }
  }

  /** Pigeonhole: a repeat-free sequence of values in 0 .. n-1 is at most n long. */
  lemma DistinctIntsBound(s: seq<int>, n: nat)
    requires Distinct(s)
    requires forall i | 0 <= i < |s| :: 0 <= s[i] < n
    ensures |s| <= n
  {
    DistinctCard(s);
    SubsetCard((set x | x in s), Range(n));
    RangeCard(n);
  }
}
