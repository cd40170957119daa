/**
 * Statistics and searches over finite sequences, shared by the three analyzers:
 * sums and averages, mean-square (RMS without the square root), population
 * variance (standard deviation without the square root), first/last search by
 * a predicate, first arg-max / arg-min, and the mode with first-occurrence
 * tie-break.
 */
module Stats {
  import opened Options

  function Abs(x: real): real { if x < 0.0 then -x else x }

  function Min(a: int, b: int): int { if a <= b then a else b }

  function Max(a: int, b: int): int { if a >= b then a else b }

  function MaxReal(a: real, b: real): real { if a >= b then a else b }

  function Sum(xs: seq<real>): real
    decreases |xs|
  {
    if xs == [] then 0.0 else xs[0] + Sum(xs[1..])
  }

  /** A sum of values that all lie in [lo, hi] lies in [n * lo, n * hi]. */
  lemma {:induction false} SumBounds(xs: seq<real>, lo: real, hi: real)
    requires forall i :: 0 <= i < |xs| ==> lo <= xs[i] <= hi
    ensures |xs| as real * lo <= Sum(xs) <= |xs| as real * hi
    decreases |xs|
  {
    if xs != [] {
      SumBounds(xs[1..], lo, hi);
      assert |xs| as real * lo == (|xs| - 1) as real * lo + lo;
      assert |xs| as real * hi == (|xs| - 1) as real * hi + hi;
    }
  }

  /** LINQ's Average: defined only on a non-empty sequence. */
  function Average(xs: seq<real>): (r: real)
    requires |xs| > 0
    ensures InRangeOf(xs, r)
  {
    var lo := ArgMinIn(xs, 0, |xs|);
    var hi := ArgMaxIn(xs, 0, |xs|);
    AverageBounds(xs, xs[lo], xs[hi]);
    Sum(xs) / |xs| as real
  }

  /** v lies between two of the values of xs. */
  predicate InRangeOf(xs: seq<real>, v: real)
  {
    exists i, j :: 0 <= i < |xs| && 0 <= j < |xs| && xs[i] <= v <= xs[j]
  }

  /** The mean of values that all lie in [lo, hi] lies in [lo, hi]. */
  lemma AverageBounds(xs: seq<real>, lo: real, hi: real)
    requires |xs| > 0
    requires forall j :: 0 <= j < |xs| ==> lo <= xs[j] <= hi
    ensures lo <= Sum(xs) / |xs| as real <= hi
  {
    SumBounds(xs, lo, hi);
    MeanBetween(Sum(xs), |xs|, lo, hi);
  }

  lemma MeanBetween(s: real, n: nat, lo: real, hi: real)
    requires n > 0 && n as real * lo <= s <= n as real * hi
    ensures lo <= s / n as real <= hi
  {
    MeanAtLeast(s, n as real, lo);
    MeanAtLeast(-s, n as real, -hi);
  }

  lemma MeanAtLeast(s: real, n: real, lo: real)
    requires n > 0.0 && n * lo <= s
    ensures lo <= s / n
  {
  }

  /** The average of n copies of c is c. */
  lemma AverageOfConstant(xs: seq<real>, c: real)
    requires |xs| > 0
    requires forall i :: 0 <= i < |xs| ==> xs[i] == c
    ensures Average(xs) == c
  {
  }

  function SumSquares(xs: seq<real>): (r: real)
    ensures r >= 0.0
    decreases |xs|
  {
    if xs == [] then 0.0 else Square(xs[0]) + SumSquares(xs[1..])
  }

  /** A sum of squares of zeros is zero. */
  lemma {:induction false} SumSquaresOfZeros(xs: seq<real>)
    ensures (forall i :: 0 <= i < |xs| ==> xs[i] == 0.0) ==> SumSquares(xs) == 0.0
    decreases |xs|
  {
    if xs != [] {
      SumSquaresOfZeros(xs[1..]);
      assert forall i :: 1 <= i < |xs| ==> xs[1..][i - 1] == xs[i];
    }
  }

  function Square(x: real): (r: real)
    ensures r >= 0.0
  {
    if x < 0.0 then (-x) * (-x) else x * x
  }

  /** The square of CalculateRMS: mean of the squares, 0 for an empty sequence. */
  function MeanSquare(xs: seq<real>): (r: real)
    ensures r >= 0.0
    ensures (forall i :: 0 <= i < |xs| ==> xs[i] == 0.0) ==> r == 0.0
  {
    SumSquaresOfZeros(xs);
    if |xs| == 0 then 0.0 else SumSquares(xs) / |xs| as real
  }

  function Deviations(xs: seq<real>, m: real): (d: seq<real>)
    ensures |d| == |xs|
    ensures forall i :: 0 <= i < |xs| ==> d[i] == xs[i] - m
  {
    seq(|xs|, i requires 0 <= i < |xs| => xs[i] - m)
  }

  /** The square of CalculateStdDev: population variance, 0 for an empty sequence. */
  function Variance(xs: seq<real>): (r: real)
    ensures r >= 0.0
    ensures |xs| == 0 ==> r == 0.0
  {
    if |xs| == 0 then 0.0 else MeanSquare(Deviations(xs, Average(xs)))
  }

  /** A constant command is perfectly stable: its variance is zero. */
  lemma ConstantHasZeroVariance(xs: seq<real>, c: real)
    requires forall i :: 0 <= i < |xs| ==> xs[i] == c
    ensures Variance(xs) == 0.0
  {
    if |xs| > 0 {
      AverageOfConstant(xs, c);
      var d := Deviations(xs, Average(xs));
      assert forall i :: 0 <= i < |d| ==> d[i] == 0.0;
    }
  }

  lemma PrefixOfAppend<T>(s: seq<T>, x: T)
    ensures (s + [x])[..|s|] == s
  {
  }

  lemma ConcatAssoc<T>(a: seq<T>, b: seq<T>, c: seq<T>)
    ensures (a + b) + c == a + (b + c)
  {
  }

  /** FirstOrDefault(p) as an index: the first position whose element satisfies p. */
  function FirstWhere<T>(s: seq<T>, p: T -> bool): (r: Option<nat>)
    ensures r.Some? ==> r.value < |s| && p(s[r.value])
    ensures r.Some? ==> forall j :: 0 <= j < r.value ==> !p(s[j])
    ensures r.None? <==> forall j :: 0 <= j < |s| ==> !p(s[j])
    decreases |s|
  {
    if s == [] then None
    else if p(s[0]) then Some(0)
    else
      match FirstWhere(s[1..], p)
      case None => None
      case Some(k) => Some(k + 1)
  }

  /** LastOrDefault(p) as an index: the last position whose element satisfies p. */
  function LastWhere<T>(s: seq<T>, p: T -> bool): (r: Option<nat>)
    ensures r.Some? ==> r.value < |s| && p(s[r.value])
    ensures r.Some? ==> forall j :: r.value < j < |s| ==> !p(s[j])
    ensures r.None? <==> forall j :: 0 <= j < |s| ==> !p(s[j])
    decreases |s|
  {
    if s == [] then None
    else if p(s[|s| - 1]) then Some(|s| - 1)
    else LastWhere(s[..|s| - 1], p)
  }

  /** k is the first position of [lo, hi) holding the largest value there. */
  predicate IsFirstMaxIn(s: seq<real>, lo: nat, hi: nat, k: nat)
    requires hi <= |s|
  {
    && lo <= k < hi
    && (forall j :: lo <= j < hi ==> s[j] <= s[k])
    && (forall j :: lo <= j < k ==> s[j] < s[k])
  }

  /** k is the first position of [lo, hi) holding the smallest value there. */
  predicate IsFirstMinIn(s: seq<real>, lo: nat, hi: nat, k: nat)
    requires hi <= |s|
  {
    && lo <= k < hi
    && (forall j :: lo <= j < hi ==> s[k] <= s[j])
    && (forall j :: lo <= j < k ==> s[k] < s[j])
  }

  /** A left-to-right scan that replaces its candidate only on a strictly larger value finds the first maximum. */
  lemma {:induction false} FirstMaxExists(s: seq<real>, lo: nat, hi: nat)
    requires lo < hi <= |s|
    ensures exists k :: IsFirstMaxIn(s, lo, hi, k)
    decreases hi
  {
    if hi == lo + 1 {
      assert IsFirstMaxIn(s, lo, hi, lo);
    } else {
      FirstMaxExists(s, lo, hi - 1);
      var k: nat :| IsFirstMaxIn(s, lo, hi - 1, k);
      if s[hi - 1] > s[k] {
        assert IsFirstMaxIn(s, lo, hi, hi - 1);
      } else {
        assert IsFirstMaxIn(s, lo, hi, k);
      }
    }
  }

  /** The same scan keeping the smallest value finds the first minimum. */
  lemma {:induction false} FirstMinExists(s: seq<real>, lo: nat, hi: nat)
    requires lo < hi <= |s|
    ensures exists k :: IsFirstMinIn(s, lo, hi, k)
    decreases hi
  {
    if hi == lo + 1 {
      assert IsFirstMinIn(s, lo, hi, lo);
    } else {
      FirstMinExists(s, lo, hi - 1);
      var k: nat :| IsFirstMinIn(s, lo, hi - 1, k);
      if s[hi - 1] < s[k] {
        assert IsFirstMinIn(s, lo, hi, hi - 1);
      } else {
        assert IsFirstMinIn(s, lo, hi, k);
      }
    }
  }

  /** There is only one first maximum. */
  lemma FirstMaxUnique(s: seq<real>, lo: nat, hi: nat)
    requires hi <= |s|
    ensures forall a: nat, b: nat :: IsFirstMaxIn(s, lo, hi, a) && IsFirstMaxIn(s, lo, hi, b) ==> a == b
  {
    forall a: nat, b: nat | IsFirstMaxIn(s, lo, hi, a) && IsFirstMaxIn(s, lo, hi, b)
      ensures a == b
    {
      assert s[a] == s[b];
    }
  }

  /** There is only one first minimum. */
  lemma FirstMinUnique(s: seq<real>, lo: nat, hi: nat)
    requires hi <= |s|
    ensures forall a: nat, b: nat :: IsFirstMinIn(s, lo, hi, a) && IsFirstMinIn(s, lo, hi, b) ==> a == b
  {
    forall a: nat, b: nat | IsFirstMinIn(s, lo, hi, a) && IsFirstMinIn(s, lo, hi, b)
      ensures a == b
    {
      assert s[a] == s[b];
    }
  }

  /**
   * The position in [lo, hi) that OrderByDescending(x => x).First() picks: a
   * maximum, and the first of the maxima, because the ordering is stable.
   */
  function ArgMaxIn(s: seq<real>, lo: nat, hi: nat): (k: nat)
    requires lo < hi <= |s|
    ensures lo <= k < hi
    ensures forall j :: lo <= j < hi ==> s[j] <= s[k]
    ensures forall j :: lo <= j < k ==> s[j] < s[k]
  {
    FirstMaxExists(s, lo, hi);
    FirstMaxUnique(s, lo, hi);
    var k: nat :| IsFirstMaxIn(s, lo, hi, k);
    k
  }

  /** The position in [lo, hi) that OrderBy(x => x).First() picks: the first of the minima. */
  function ArgMinIn(s: seq<real>, lo: nat, hi: nat): (k: nat)
    requires lo < hi <= |s|
    ensures lo <= k < hi
    ensures forall j :: lo <= j < hi ==> s[k] <= s[j]
    ensures forall j :: lo <= j < k ==> s[k] < s[j]
  {
    FirstMinExists(s, lo, hi);
    FirstMinUnique(s, lo, hi);
    var k: nat :| IsFirstMinIn(s, lo, hi, k);
    k
  }

  /** The first arg-max and the first arg-min coincide exactly when the key is constant on the range. */
  lemma ArgMaxIsArgMinIffConstant(s: seq<real>, lo: nat, hi: nat)
    requires lo < hi <= |s|
    ensures ArgMaxIn(s, lo, hi) == ArgMinIn(s, lo, hi) <==> forall j :: lo <= j < hi ==> s[j] == s[lo]
  {
    var kMax, kMin := ArgMaxIn(s, lo, hi), ArgMinIn(s, lo, hi);
    if forall j :: lo <= j < hi ==> s[j] == s[lo] {
      assert s[kMax] == s[lo] == s[kMin];
      assert !(lo < kMax) && !(lo < kMin);
    }
  }

  function Occurrences(xs: seq<real>, x: real): nat
  {
    multiset(xs)[x]
  }

  /**
   * Scans positions i.. keeping the best position so far; a later value replaces
   * the best only with a strictly larger count, so the first of the most
   * frequent values wins.
   */
  function ModeScan(xs: seq<real>, i: nat, best: nat): (k: nat)
    requires best < i <= |xs|
    requires forall j :: 0 <= j < i ==> Occurrences(xs, xs[j]) <= Occurrences(xs, xs[best])
    requires forall j :: 0 <= j < best ==> Occurrences(xs, xs[j]) < Occurrences(xs, xs[best])
    ensures k < |xs|
    ensures forall j :: 0 <= j < |xs| ==> Occurrences(xs, xs[j]) <= Occurrences(xs, xs[k])
    ensures forall j :: 0 <= j < k ==> Occurrences(xs, xs[j]) < Occurrences(xs, xs[k])
    decreases |xs| - i
  {
    if i == |xs| then best
    else if Occurrences(xs, xs[i]) > Occurrences(xs, xs[best]) then ModeScan(xs, i + 1, i)
    else ModeScan(xs, i + 1, best)
  }

  /**
   * GroupBy(x).OrderByDescending(count).First().Key as a position: a most
   * frequent value, and among the most frequent values the one met first.
   */
  function ModeIndex(xs: seq<real>): (k: nat)
    requires |xs| > 0
    ensures k < |xs|
    ensures forall j :: 0 <= j < |xs| ==> Occurrences(xs, xs[j]) <= Occurrences(xs, xs[k])
    ensures forall j :: 0 <= j < k ==> Occurrences(xs, xs[j]) < Occurrences(xs, xs[k])
  {
    ModeScan(xs, 1, 0)
  }

  /** The mode's position is the first occurrence of the mode's value. */
  lemma ModeIsFirstOccurrence(xs: seq<real>)
    requires |xs| > 0
    ensures forall j :: 0 <= j < ModeIndex(xs) ==> xs[j] != xs[ModeIndex(xs)]
  {
  }

  /**
   * Among equally frequent values the mode is the one met first: every value
   * as frequent as the mode occurs no earlier than the mode's first occurrence.
   */
  lemma ModeTieBreak(xs: seq<real>)
    requires |xs| > 0
    ensures xs[ModeIndex(xs)] == Mode(xs)
    ensures forall j :: 0 <= j < |xs| && Occurrences(xs, xs[j]) == Occurrences(xs, Mode(xs)) ==> ModeIndex(xs) <= j
  {
  }

  /** The value GroupBy(x).OrderByDescending(count).First().Key selects. */
  function Mode(xs: seq<real>): (m: real)
    requires |xs| > 0
    ensures m in multiset(xs)
    ensures forall x :: x in multiset(xs) ==> Occurrences(xs, x) <= Occurrences(xs, m)
  {
    var k := ModeIndex(xs);
    assert forall x :: x in multiset(xs) ==> exists j :: 0 <= j < |xs| && xs[j] == x;
    xs[k]
  }
}
