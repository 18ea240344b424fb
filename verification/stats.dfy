/** Descriptive statistics over the non-null values of a column, in exact
    real arithmetic. Two variances are kept apart on purpose: scipy's
    `zscore` divides by n (population, ddof = 0) while pandas' `std` divides
    by n - 1 (sample, ddof = 1). Square roots are never taken here; callers
    that need a standard deviation receive the square-root routine as a
    parameter. */
module Stats {
  import opened Wrappers

  function Sum(xs: seq<real>): real
  {
    if |xs| == 0 then 0.0 else xs[0] + Sum(xs[1..])
  }

  /** The arithmetic mean of pandas' `mean`: the one number that, counted
      once per value, adds up to the values' sum. */
  function Mean(xs: seq<real>): (m: real)
    requires |xs| > 0
    ensures m * (|xs| as real) == Sum(xs)
  {
    Sum(xs) / (|xs| as real)
  }

  function Sq(x: real): (r: real)
    ensures r >= 0.0
  {
    x * x
  }

  /** Sum of squared deviations from `m`. */
  function SumSq(xs: seq<real>, m: real): (r: real)
    ensures r >= 0.0
  {
    if |xs| == 0 then 0.0 else Sq(xs[0] - m) + SumSq(xs[1..], m)
  }

  /** Population variance (ddof = 0), as used by scipy's `zscore`. */
  function PopVariance(xs: seq<real>): (v: real)
    requires |xs| > 0
    ensures v >= 0.0
  {
    SumSq(xs, Mean(xs)) / (|xs| as real)
  }

  /** Sample variance (ddof = 1), as used by pandas' `Series.std`. */
  function SampleVariance(xs: seq<real>): (v: real)
    requires |xs| > 1
    ensures v >= 0.0
  {
    SumSq(xs, Mean(xs)) / ((|xs| - 1) as real)
  }

  /** The two estimators differ only in their divisor: n times the
      population variance is n - 1 times the sample variance. */
  lemma VarianceDdof(xs: seq<real>)
    requires |xs| > 1
    ensures PopVariance(xs) * (|xs| as real) == SampleVariance(xs) * ((|xs| - 1) as real)
  {
  }

  /** Only zero squares to zero. */
  lemma SqZero(x: real)
    ensures Sq(x) == 0.0 <==> x == 0.0
  {
    if x != 0.0 {
      assert x * x / x == x;
    }
  }

  /** The squared deviations from m add up to zero exactly when every value
      is m. */
  lemma {:induction false} SumSqZero(xs: seq<real>, m: real)
    ensures SumSq(xs, m) == 0.0 <==> forall i :: 0 <= i < |xs| ==> xs[i] == m
  {
    if |xs| > 0 {
      SumSqZero(xs[1..], m);
      SqZero(xs[0] - m);
      assert (forall i :: 0 <= i < |xs| ==> xs[i] == m) <==>
        xs[0] == m && forall i :: 0 <= i < |xs[1..]| ==> xs[1..][i] == m;
    }
  }

  /** The population variance is zero exactly for a constant list, the case
      in which every z-score is NaN. */
  lemma PopVarianceZero(xs: seq<real>)
    requires |xs| > 0
    ensures PopVariance(xs) == 0.0 <==> forall i :: 0 <= i < |xs| ==> xs[i] == xs[0]
  {
    SumSqZero(xs, Mean(xs));
    if forall i :: 0 <= i < |xs| ==> xs[i] == xs[0] {
      SumConstant(xs);
    }
  }

  /** The sum of a constant list is its length times the value. */
  lemma {:induction false} SumConstant(xs: seq<real>)
    requires |xs| > 0 && forall i :: 0 <= i < |xs| ==> xs[i] == xs[0]
    ensures Sum(xs) == (|xs| as real) * xs[0]
  {
    if |xs| > 1 {
      SumConstant(xs[1..]);
    }
  }

  function Min(xs: seq<real>): (m: real)
    requires |xs| > 0
    ensures m in xs
    ensures forall i :: 0 <= i < |xs| ==> m <= xs[i]
  {
    if |xs| == 1 then xs[0]
    else
      var rest := Min(xs[1..]);
      if xs[0] <= rest then xs[0] else rest
  }

  function Max(xs: seq<real>): (m: real)
    requires |xs| > 0
    ensures m in xs
    ensures forall i :: 0 <= i < |xs| ==> xs[i] <= m
  {
    if |xs| == 1 then xs[0]
    else
      var rest := Max(xs[1..]);
      if xs[0] >= rest then xs[0] else rest
  }

  /** A sum of values that all lie in [lo, hi] lies in [n*lo, n*hi]. */
  lemma {:induction false} SumBounds(xs: seq<real>, lo: real, hi: real)
    requires forall i :: 0 <= i < |xs| ==> lo <= xs[i] <= hi
    ensures (|xs| as real) * lo <= Sum(xs) <= (|xs| as real) * hi
  {
    if |xs| > 0 {
      SumBounds(xs[1..], lo, hi);
      var n := (|xs| - 1) as real;
      assert (|xs| as real) * lo == lo + n * lo;
      assert (|xs| as real) * hi == hi + n * hi;
    }
  }

  /** Division by a positive count keeps a lower bound. */
  lemma DivLower(s: real, n: real, lo: real)
    requires n > 0.0 && n * lo <= s
    ensures lo <= s / n
  {
  }

  /** Division by a positive count keeps an upper bound. */
  lemma DivUpper(s: real, n: real, hi: real)
    requires n > 0.0 && s <= n * hi
    ensures s / n <= hi
  {
  }

  /** A mean of values that all lie in [lo, hi] lies in [lo, hi]. */
  lemma MeanWithin(xs: seq<real>, lo: real, hi: real)
    requires |xs| > 0
    requires forall i :: 0 <= i < |xs| ==> lo <= xs[i] <= hi
    ensures lo <= Mean(xs) <= hi
  {
    var n := |xs| as real;
    SumBounds(xs, lo, hi);
    DivLower(Sum(xs), n, lo);
    DivUpper(Sum(xs), n, hi);
  }

  /** The mean lies between the smallest and the largest value. */
  lemma MeanBetween(xs: seq<real>)
    requires |xs| > 0
    ensures Min(xs) <= Mean(xs) <= Max(xs)
  {
    MeanWithin(xs, Min(xs), Max(xs));
  }

  predicate SortedAsc(s: seq<real>)
  {
    forall i, j :: 0 <= i < j < |s| ==> s[i] <= s[j]
  }

  function Insert(x: real, s: seq<real>): (r: seq<real>)
    requires SortedAsc(s)
    ensures SortedAsc(r)
    ensures multiset(r) == multiset(s) + multiset{x}
    ensures |r| == |s| + 1
  {
    if |s| == 0 then [x]
    else if x <= s[0] then [x] + s
    else
      var rest := Insert(x, s[1..]);
      InsertStep(x, s, rest);
      [s[0]] + rest
  }

  /** The head of a sorted sequence may precede the insertion of a larger
      value into its tail. */
  lemma InsertStep(x: real, s: seq<real>, rest: seq<real>)
    requires |s| > 0 && SortedAsc(s) && s[0] < x
    requires SortedAsc(rest) && multiset(rest) == multiset(s[1..]) + multiset{x}
    ensures SortedAsc([s[0]] + rest)
    ensures multiset([s[0]] + rest) == multiset(s) + multiset{x}
  {
    assert s == [s[0]] + s[1..];
    forall k | 0 <= k < |rest|
      ensures s[0] <= rest[k]
    {
      assert rest[k] in multiset(rest);
      if rest[k] != x {
        assert rest[k] in s[1..];
      }
    }
  }

  /** Ascending sort (insertion sort), the order pandas sorts by. */
  function Sort(xs: seq<real>): (r: seq<real>)
    ensures SortedAsc(r)
    ensures multiset(r) == multiset(xs)
    ensures |r| == |xs|
  {
    if |xs| == 0 then []
    else
      assert xs == [xs[0]] + xs[1..];
      Insert(xs[0], Sort(xs[1..]))
  }

  /** The first element of an ascending sequence is its least value. */
  lemma SortedHeadLeast(a: seq<real>, x: real)
    requires SortedAsc(a) && x in multiset(a)
    ensures |a| > 0 && a[0] <= x
  {
    var i :| 0 <= i < |a| && a[i] == x;
    assert i == 0 || a[0] <= a[i];
  }

  /** Two ascending sequences holding the same values are equal. */
  lemma {:induction false} SortedUnique(a: seq<real>, b: seq<real>)
    requires SortedAsc(a) && SortedAsc(b)
    requires multiset(a) == multiset(b)
    ensures a == b
  {
    assert |a| == |multiset(a)| == |multiset(b)| == |b|;
    if |a| > 0 {
      assert a[0] in multiset(a);
      assert b[0] in multiset(b);
      SortedHeadLeast(b, a[0]);
      SortedHeadLeast(a, b[0]);
      var a', b' := a[1..], b[1..];
      assert a == [a[0]] + a';
      assert b == [b[0]] + b';
      assert multiset(a) == multiset{a[0]} + multiset(a');
      assert multiset(b) == multiset{b[0]} + multiset(b');
      assert a[0] == b[0];
      assert multiset(a') == multiset(a) - multiset{a[0]};
      assert multiset(b') == multiset(b) - multiset{b[0]};
      assert SortedAsc(a') && SortedAsc(b');
      SortedUnique(a', b');
    }
  }

  /** The middle value of an ascending sequence, or the average of the two
      middle values when their number is even. */
  function Middle(s: seq<real>): (m: real)
    requires |s| > 0 && SortedAsc(s)
    ensures s[0] <= m <= s[|s| - 1]
  {
    var n := |s|;
    if n % 2 == 1 then s[n / 2] else (s[n / 2 - 1] + s[n / 2]) / 2.0
  }

  /** Median: the middle of the sorted values. */
  function Median(xs: seq<real>): (m: real)
    requires |xs| > 0
    ensures Min(xs) <= m <= Max(xs)
  {
    var s := Sort(xs);
    assert s[0] in multiset(xs) && s[|s| - 1] in multiset(xs);
    Middle(s)
  }

  /** The median depends only on the values, not on their row order. */
  lemma MedianOrderFree(xs: seq<real>, ys: seq<real>)
    requires |xs| > 0
    requires multiset(xs) == multiset(ys)
    ensures |ys| > 0 && Median(xs) == Median(ys)
  {
    assert |ys| == |multiset(ys)| == |xs|;
    SortedUnique(Sort(xs), Sort(ys));
  }

  /** For an odd number of values the median is one of them. */
  lemma MedianOddIsValue(xs: seq<real>)
    requires |xs| % 2 == 1
    ensures Median(xs) in xs
  {
    var s := Sort(xs);
    assert s[|s| / 2] in multiset(xs);
  }

  function Count(xs: seq<real>, v: real): nat
  {
    multiset(xs)[v]
  }

  /** `v` is what pandas' `Series.mode()[0]` returns: a most frequent value,
      the smallest one when several are equally frequent (mode() sorts). */
  predicate IsMode(xs: seq<real>, v: real)
  {
    && v in xs
    && (forall w :: w in xs ==> Count(xs, w) <= Count(xs, v))
    && (forall w :: w in xs && Count(xs, w) == Count(xs, v) ==> v <= w)
  }

  /** Scans xs[i..] keeping the best candidate seen so far. */
  function ModeScan(xs: seq<real>, i: nat, best: real): (r: real)
    requires i <= |xs| && best in xs
    requires forall k :: 0 <= k < i ==>
      Count(xs, xs[k]) < Count(xs, best) || (Count(xs, xs[k]) == Count(xs, best) && best <= xs[k])
    ensures IsMode(xs, r)
    decreases |xs| - i
  {
    if i == |xs| then
      assert forall w :: w in xs ==> exists k :: 0 <= k < |xs| && xs[k] == w;
      best
    else
      var c := xs[i];
      var better := Count(xs, c) > Count(xs, best) || (Count(xs, c) == Count(xs, best) && c < best);
      ModeScan(xs, i + 1, if better then c else best)
  }

  function Mode(xs: seq<real>): (m: real)
    requires |xs| > 0
    ensures IsMode(xs, m)
  {
    ModeScan(xs, 0, xs[0])
  }

  /** There is only one mode in the sense of `IsMode`; so it does not depend
      on row order either. */
  lemma ModeUnique(xs: seq<real>, a: real, b: real)
    requires IsMode(xs, a) && IsMode(xs, b)
    ensures a == b
  {
    assert Count(xs, a) == Count(xs, b);
  }

  /** pandas' `clip(lower, upper)` once the bounds are in order. */
  function Clamp(x: real, lo: real, hi: real): (r: real)
    requires lo <= hi
    ensures lo <= r <= hi
    ensures lo <= x <= hi ==> r == x
    ensures x < lo ==> r == lo
    ensures hi < x ==> r == hi
  {
    if x < lo then lo else if hi < x then hi else x
  }

  /** Clamping into fixed bounds a second time changes nothing. */
  lemma ClampIdempotent(x: real, lo: real, hi: real)
    requires lo <= hi
    ensures Clamp(Clamp(x, lo, hi), lo, hi) == Clamp(x, lo, hi)
  {
  }

  function Abs(x: real): (r: real)
    ensures r >= 0.0
  {
    if x < 0.0 then -x else x
  }

  lemma MulPos(x: real, y: real)
    requires x > 0.0 && y > 0.0
    ensures x * y > 0.0
  {
  }

  lemma MulNonNeg(x: real, y: real)
    requires x >= 0.0 && y >= 0.0
    ensures x * y >= 0.0
  {
  }

  /** For non-negative reals, comparing squares is comparing the values. */
  lemma SquareMonotone(d: real, a: real)
    requires d >= 0.0 && a >= 0.0
    ensures d > a <==> d * d > a * a
  {
    assert d * d - a * a == (d - a) * (d + a);
    if d > a {
      MulPos(d - a, d + a);
    } else {
      MulNonNeg(a - d, d + a);
      assert (a - d) * (d + a) == -((d - a) * (d + a));
    }
  }

  /** scipy flags a value when |x - m| / sd > t. With sd the non-negative
      square root of a positive variance v and t >= 0, that is exactly the
      square-free comparison (x - m)^2 > t^2 v that the model evaluates. */
  lemma ZScoreSquared(x: real, m: real, v: real, sd: real, t: real)
    requires v > 0.0 && sd >= 0.0 && sd * sd == v && t >= 0.0
    ensures Abs(x - m) / sd > t <==> Sq(x - m) > t * t * v
  {
    var d := Abs(x - m);
    assert sd > 0.0;
    assert d / sd > t <==> d > t * sd by {
      assert (d / sd) * sd == d;
      if d / sd > t {
        assert (d / sd) * sd > t * sd;
      }
      if d > t * sd {
        assert d / sd > (t * sd) / sd;
      }
    }
    SquareMonotone(d, t * sd);
    assert (t * sd) * (t * sd) == t * t * v;
    assert d * d == Sq(x - m);
  }

  /** One column's statistics; NaN (None) where pandas would produce NaN:
      no values at all, or fewer than two for the sample deviation. */
  datatype ColumnSummary = ColumnSummary(
    mean: Option<real>, median: Option<real>, std: Option<real>, min: Option<real>, max: Option<real>)

  function Summarize(vs: seq<real>, root: real -> real): (cs: ColumnSummary)
    ensures cs.mean.Some? <==> |vs| > 0
    ensures cs.median.Some? == cs.mean.Some? && cs.min.Some? == cs.mean.Some? && cs.max.Some? == cs.mean.Some?
    ensures cs.std.Some? <==> |vs| >= 2
    ensures cs.mean.Some? ==> cs.min.value <= cs.mean.value <= cs.max.value
    ensures cs.mean.Some? ==> cs.min.value <= cs.median.value <= cs.max.value
    ensures cs.mean.Some? ==> cs.min.value in vs && cs.max.value in vs
    ensures cs.mean.Some? ==> forall v :: v in vs ==> cs.min.value <= v <= cs.max.value
  {
    if |vs| == 0 then ColumnSummary(None, None, None, None, None)
    else
      MeanBetween(vs);
      ColumnSummary(
        Some(Mean(vs)),
        Some(Median(vs)),
        if |vs| >= 2 then Some(root(SampleVariance(vs))) else None,
        Some(Min(vs)),
        Some(Max(vs)))
  }
}
