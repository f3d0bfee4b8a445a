/**
 * Row-order-preserving selection and column sums over sequences: the
 * boolean-mask indexing `df[mask]` and `Series.sum()` the pipeline is built on.
 */
module Sequences {

  /** The elements of s that satisfy p, in their original order. */
  function Where<T(!new)>(s: seq<T>, p: T -> bool): (r: seq<T>)
    ensures |r| <= |s|
    ensures forall x :: x in r <==> x in s && p(x)
  {
    if s == [] then [] else (if p(s[0]) then [s[0]] else []) + Where(s[1..], p)
  }

  /** The mask keeps every selected element as often as it occurs, and drops the others. */
  lemma {:induction false} WhereCounts<T(!new)>(s: seq<T>, p: T -> bool)
    ensures forall x :: multiset(Where(s, p))[x] == if p(x) then multiset(s)[x] else 0
  {
    if s != [] {
      WhereCounts(s[1..], p);
      assert s == [s[0]] + s[1..];
    }
  }

  /** r is obtained from s by deleting elements, keeping the order of the rest. */
  predicate IsSubsequence<T(==)>(r: seq<T>, s: seq<T>)
  {
    if s == [] then r == []
    else (r != [] && r[0] == s[0] && IsSubsequence(r[1..], s[1..])) || IsSubsequence(r, s[1..])
  }

  lemma {:induction false} WhereIsSubsequence<T(!new)>(s: seq<T>, p: T -> bool)
    ensures IsSubsequence(Where(s, p), s)
  {
    if s != [] {
      WhereIsSubsequence(s[1..], p);
      var r := Where(s, p);
      if p(s[0]) {
        assert r[0] == s[0] && r[1..] == Where(s[1..], p);
      } else {
        assert r == Where(s[1..], p);
      }
    }
  }

  /** Applying the same mask twice selects the same rows as applying it once. */
  lemma {:induction false} WhereIdempotent<T(!new)>(s: seq<T>, p: T -> bool)
    ensures Where(Where(s, p), p) == Where(s, p)
  {
    if s != [] {
      WhereIdempotent(s[1..], p);
      var r := Where(s, p);
      if p(s[0]) {
        assert r[0] == s[0] && r[1..] == Where(s[1..], p);
      } else {
        assert r == Where(s[1..], p);
      }
    }
  }

  /** Two masks applied one after the other select what their conjunction selects. */
  lemma {:induction false} WhereThenWhere<T(!new)>(s: seq<T>, p: T -> bool, q: T -> bool, pq: T -> bool)
    requires forall x :: pq(x) == (p(x) && q(x))
    ensures Where(Where(s, p), q) == Where(s, pq)
  {
    if s != [] {
      WhereThenWhere(s[1..], p, q, pq);
      var r := Where(s, p);
      if p(s[0]) {
        assert r[0] == s[0] && r[1..] == Where(s[1..], p);
      } else {
        assert r == Where(s[1..], p);
      }
    }
  }

  /** A mask that every element passes selects everything. */
  lemma {:induction false} WhereKeepsAll<T(!new)>(s: seq<T>, p: T -> bool)
    requires forall x :: x in s ==> p(x)
    ensures Where(s, p) == s
  {
    if s != [] {
      WhereKeepsAll(s[1..], p);
    }
  }

  /** Two masks applied one after the other select the same rows in either order. */
  lemma WhereCommutes<T(!new)>(s: seq<T>, p: T -> bool, q: T -> bool)
    ensures Where(Where(s, p), q) == Where(Where(s, q), p)
  {
    var pq := (x: T) => p(x) && q(x);
    WhereThenWhere(s, p, q, pq);
    WhereThenWhere(s, q, p, pq);
  }

  /** Nothing is selected by a predicate nothing satisfies. */
  lemma {:induction false} WhereNone<T(!new)>(s: seq<T>, p: T -> bool)
    requires forall x :: !p(x)
    ensures Where(s, p) == []
  {
    if s != [] {
      WhereNone(s[1..], p);
    }
  }

  /** When p is the disjoint union of q and q', its selection is as long as theirs together. */
  lemma {:induction false} WhereSplits<T(!new)>(s: seq<T>, p: T -> bool, q: T -> bool, q': T -> bool)
    requires forall x :: p(x) == (q(x) || q'(x))
    requires forall x :: !(q(x) && q'(x))
    ensures |Where(s, p)| == |Where(s, q)| + |Where(s, q')|
  {
    if s != [] {
      WhereSplits(s[1..], p, q, q');
    }
  }

  /** A sequence without repeats has as many elements as the set of its elements. */
  lemma {:induction false} DistinctCardinality<T>(s: seq<T>)
    requires forall i, j :: 0 <= i < j < |s| ==> s[i] != s[j]
    ensures |set x | x in s| == |s|
  {
    if s != [] {
      DistinctCardinality(s[1..]);
      assert (set x | x in s) == {s[0]} + (set x | x in s[1..]);
      assert s[0] !in s[1..];
    }
  }

  /** `Series.sum()` of the values w gives the elements of s. */
  function Total<T>(s: seq<T>, w: T -> real): real
  {
    if s == [] then 0.0 else w(s[0]) + Total(s[1..], w)
  }

  /** 1 for an element the mask selects, 0 for any other. */
  function Indicator<T>(p: T -> bool): T -> real
  {
    (x: T) => if p(x) then 1.0 else 0.0
  }

  /** The number of selected elements is the sum of the mask's indicator. */
  lemma {:induction false} WhereLengthCounts<T(!new)>(s: seq<T>, p: T -> bool)
    ensures |Where(s, p)| as real == Total(s, Indicator(p))
  {
    if s != [] {
      WhereLengthCounts(s[1..], p);
    }
  }

  /** Counting is summing ones. */
  lemma {:induction false} TotalOfOnes<T>(s: seq<T>, w: T -> real)
    requires forall x :: w(x) == 1.0
    ensures Total(s, w) == |s| as real
  {
    if s != [] {
      TotalOfOnes(s[1..], w);
    }
  }

  /** A sum of values that are each at least lo is at least |s| * lo. */
  lemma {:induction false} TotalAtLeast<T>(s: seq<T>, w: T -> real, lo: real)
    requires forall x :: x in s ==> lo <= w(x)
    ensures |s| as real * lo <= Total(s, w)
  {
    if s != [] {
      TotalAtLeast(s[1..], w, lo);
    }
  }

  /** A sum of values that are each at most hi is at most |s| * hi. */
  lemma {:induction false} TotalAtMost<T>(s: seq<T>, w: T -> real, hi: real)
    requires forall x :: x in s ==> w(x) <= hi
    ensures Total(s, w) <= |s| as real * hi
  {
    if s != [] {
      TotalAtMost(s[1..], w, hi);
    }
  }

  /** Splitting s by a predicate and its negation splits the sum. */
  lemma {:induction false} TotalSplits<T(!new)>(s: seq<T>, w: T -> real, p: T -> bool, q: T -> bool)
    requires forall x :: q(x) == !p(x)
    ensures Total(s, w) == Total(Where(s, p), w) + Total(Where(s, q), w)
  {
    if s != [] {
      TotalSplits(s[1..], w, p, q);
      var a, b := Where(s, p), Where(s, q);
      if p(s[0]) {
        assert a[0] == s[0] && a[1..] == Where(s[1..], p);
        assert b == Where(s[1..], q);
      } else {
        assert b[0] == s[0] && b[1..] == Where(s[1..], q);
        assert a == Where(s[1..], p);
      }
    }
  }

  /** The mean of w over s; pandas' `mean()` of an empty selection is NaN. */
  function Mean<T>(s: seq<T>, w: T -> real): (m: real)
    requires s != []
    ensures m * |s| as real == Total(s, w)
  {
    Total(s, w) / |s| as real
  }

  /** The mean lies between any lower and upper bound of the values. */
  lemma MeanWithin<T>(s: seq<T>, w: T -> real, lo: real, hi: real)
    requires s != [] && forall x :: x in s ==> lo <= w(x) <= hi
    ensures lo <= Mean(s, w) <= hi
  {
    var n, m := |s| as real, Mean(s, w);
    TotalAtLeast(s, w, lo);
    TotalAtMost(s, w, hi);
    assert (m - lo) * n == m * n - lo * n;
    assert (hi - m) * n == hi * n - m * n;
  }

  /** Sum of a sequence of reals. */
  function SumOf(s: seq<real>): real
  {
    if s == [] then 0.0 else s[0] + SumOf(s[1..])
  }

  /** The largest element; `Series.max()`. */
  function Max(s: seq<int>): (m: int)
    requires s != []
    ensures m in s
    ensures forall i :: 0 <= i < |s| ==> s[i] <= m
  {
    if |s| == 1 then s[0]
    else
      var rest := Max(s[1..]);
      assert forall i :: 1 <= i < |s| ==> s[i] == s[1..][i - 1];
      if s[0] >= rest then s[0] else rest
  }

  /** The smallest element; `Series.min()`. */
  function Min(s: seq<int>): (m: int)
    requires s != []
    ensures m in s
    ensures forall i :: 0 <= i < |s| ==> m <= s[i]
  {
    if |s| == 1 then s[0]
    else
      var rest := Min(s[1..]);
      assert forall i :: 1 <= i < |s| ==> s[i] == s[1..][i - 1];
      if s[0] <= rest then s[0] else rest
  }
}
