/**
 * `sorted(series.unique())`: the distinct values of a column in increasing
 * order, for any strict total order; Python's string order and the
 * chronological order of months are the two the dashboard uses.
 */
module Ordering {
  import opened Calendar

  ghost predicate StrictTotalOrder<T(!new)>(less: (T, T) -> bool)
  {
    && (forall a :: !less(a, a))
    && (forall a, b, c :: less(a, b) && less(b, c) ==> less(a, c))
    && (forall a, b :: a != b ==> less(a, b) || less(b, a))
  }

  /** Strictly increasing, hence also free of duplicates. */
  predicate Increasing<T>(s: seq<T>, less: (T, T) -> bool)
  {
    forall i, j :: 0 <= i < j < |s| ==> less(s[i], s[j])
  }

  /** Inserts x into the increasing sequence s unless it is already there. */
  function Insert<T(==,!new)>(s: seq<T>, x: T, less: (T, T) -> bool): (r: seq<T>)
    requires StrictTotalOrder(less) && Increasing(s, less)
    ensures Increasing(r, less)
    ensures forall v :: v in r <==> v in s || v == x
    ensures |r| <= |s| + 1
  {
    if s == [] then [x]
    else if x == s[0] then s
    else if less(x, s[0]) then [x] + s
    else
      assert Increasing(s[1..], less) by {
        forall i, j | 0 <= i < j < |s[1..]| ensures less(s[1..][i], s[1..][j]) {
          assert s[1..][i] == s[i + 1] && s[1..][j] == s[j + 1];
        }
      }
      var rest := Insert(s[1..], x, less);
      assert less(s[0], x);
      assert forall v :: v in rest ==> v == x || v in s[1..];
      assert forall k :: 1 <= k < |s| ==> less(s[0], s[k]);
      assert forall v :: v in s[1..] ==> less(s[0], v);
      [s[0]] + rest
  }

  /** `sorted(xs.unique())`. */
  function SortedDistinct<T(==,!new)>(xs: seq<T>, less: (T, T) -> bool): (r: seq<T>)
    requires StrictTotalOrder(less)
    ensures Increasing(r, less)
    ensures forall v :: v in r <==> v in xs
    ensures |r| <= |xs|
  {
    if xs == [] then []
    else
      var init := xs[..|xs| - 1];
      assert xs == init + [xs[|xs| - 1]];
      Insert(SortedDistinct(init, less), xs[|xs| - 1], less)
  }

  /** An increasing sequence holds each value at one position at most. */
  lemma IncreasingIsDistinct<T(!new)>(s: seq<T>, less: (T, T) -> bool)
    requires StrictTotalOrder(less) && Increasing(s, less)
    ensures forall i, j :: 0 <= i < |s| && 0 <= j < |s| && i != j ==> s[i] != s[j]
  {
  }

  /** Python's `<` on `str`: lexicographic by code point, a proper prefix first. */
  predicate StrLess(a: string, b: string)
  {
    if a == [] then b != []
    else if b == [] then false
    else if a[0] != b[0] then a[0] < b[0]
    else StrLess(a[1..], b[1..])
  }

  lemma {:induction false} StrLessIrreflexive(a: string)
    ensures !StrLess(a, a)
  {
    if a != [] {
      StrLessIrreflexive(a[1..]);
    }
  }

  lemma {:induction false} StrLessTransitive(a: string, b: string, c: string)
    requires StrLess(a, b) && StrLess(b, c)
    ensures StrLess(a, c)
  {
    if a != [] && b != [] && c != [] && a[0] == b[0] && b[0] == c[0] {
      StrLessTransitive(a[1..], b[1..], c[1..]);
    }
  }

  lemma {:induction false} StrLessTotal(a: string, b: string)
    requires a != b
    ensures StrLess(a, b) || StrLess(b, a)
  {
    if a != [] && b != [] && a[0] == b[0] {
      assert a == [a[0]] + a[1..] && b == [b[0]] + b[1..];
      StrLessTotal(a[1..], b[1..]);
    }
  }

  /** The string order `sorted` uses is a strict total order. */
  lemma StrLessIsStrictTotalOrder()
    ensures StrictTotalOrder(StrLess)
  {
    forall a ensures !StrLess(a, a) {
      StrLessIrreflexive(a);
    }
    forall a, b, c | StrLess(a, b) && StrLess(b, c) ensures StrLess(a, c) {
      StrLessTransitive(a, b, c);
    }
    forall a, b | a != b ensures StrLess(a, b) || StrLess(b, a) {
      StrLessTotal(a, b);
    }
  }

  lemma MonthBeforeIsStrictTotalOrder()
    ensures StrictTotalOrder(MonthBefore)
  {
  }

  /** The sorted distinct strings of a column. */
  function SortedNames(xs: seq<string>): (r: seq<string>)
    ensures Increasing(r, StrLess)
    ensures forall v :: v in r <==> v in xs
    ensures |r| <= |xs|
  {
    StrLessIsStrictTotalOrder();
    SortedDistinct(xs, StrLess)
  }

  /** The distinct months in chronological order; `groupby` sorts its keys. */
  function SortedMonths(xs: seq<MonthKey>): (r: seq<MonthKey>)
    ensures Increasing(r, MonthBefore)
    ensures forall v :: v in r <==> v in xs
    ensures |r| <= |xs|
  {
    MonthBeforeIsStrictTotalOrder();
    SortedDistinct(xs, MonthBefore)
  }
}
