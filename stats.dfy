/**
 * Descriptive statistics of one numeric column, over exact reals: the
 * mean, min, max, median and the 25th / 75th percentiles that pandas'
 * `Series.mean`, `min`, `max`, `median` and `quantile` compute over the
 * non-null values.
 */
module Stats {
  import opened Common
  import opened Frames

  function Sum(xs: seq<real>): real
  {
    if xs == [] then 0.0 else xs[0] + Sum(xs[1..])
  }

  function Mean(xs: seq<real>): real
    requires |xs| > 0
  {
    Sum(xs) / |xs| as real
  }

  function Min(xs: seq<real>): (m: real)
    requires |xs| > 0
    ensures m in xs
    ensures forall x :: x in xs ==> m <= x
  {
    if |xs| == 1 then xs[0]
    else
      var rest := Min(xs[1..]);
      assert forall x :: x in xs ==> x == xs[0] || x in xs[1..];
      if xs[0] <= rest then xs[0] else rest
  }

  function Max(xs: seq<real>): (m: real)
    requires |xs| > 0
    ensures m in xs
    ensures forall x :: x in xs ==> x <= m
  {
    if |xs| == 1 then xs[0]
    else
      var rest := Max(xs[1..]);
      assert forall x :: x in xs ==> x == xs[0] || x in xs[1..];
      if xs[0] >= rest then xs[0] else rest
  }

  predicate SortedAsc(v: seq<real>)
  {
    forall i, j :: 0 <= i < j < |v| ==> v[i] <= v[j]
  }

  function InsertAsc(x: real, v: seq<real>): (r: seq<real>)
    requires SortedAsc(v)
    ensures |r| == |v| + 1
    ensures forall y :: y in r ==> y == x || y in v
    ensures SortedAsc(r)
    ensures multiset(r) == multiset(v) + multiset{x}
  {
    if v == [] || x <= v[0] then [x] + v
    else
      var rest := InsertAsc(x, v[1..]);
      InsertAboveHead(x, v, rest);
      [v[0]] + rest
  }

  /** The recursive case of the insertion: the head of v stays first. */
  lemma InsertAboveHead(x: real, v: seq<real>, rest: seq<real>)
    requires SortedAsc(v) && |v| > 0 && SortedAsc(rest)
    requires forall y :: y in rest ==> y == x || y in v[1..]
    requires multiset(rest) == multiset(v[1..]) + multiset{x}
    requires v[0] < x
    ensures forall y :: y in [v[0]] + rest ==> y == x || y in v
    ensures SortedAsc([v[0]] + rest)
    ensures multiset([v[0]] + rest) == multiset(v) + multiset{x}
  {
    assert v == [v[0]] + v[1..];
    assert forall y :: y in v[1..] ==> y in v;
    forall y | y in rest ensures v[0] <= y {
      if y != x {
        var k :| 0 <= k < |v[1..]| && v[1..][k] == y;
        assert v[k + 1] == y;
      }
    }
    ConsSorted(v[0], rest);
  }

  lemma ConsSorted(a: real, s: seq<real>)
    requires SortedAsc(s)
    requires forall y :: y in s ==> a <= y
    ensures SortedAsc([a] + s)
  {
    var r := [a] + s;
    forall i, j | 0 <= i < j < |r| ensures r[i] <= r[j] {
      assert r[j] == s[j - 1];
      if i > 0 {
        assert r[i] == s[i - 1];
      } else {
        assert s[j - 1] in s;
      }
    }
  }

  /** The order statistics of `xs`: its values sorted ascending. */
  function SortAsc(xs: seq<real>): (v: seq<real>)
    ensures SortedAsc(v)
    ensures multiset(v) == multiset(xs)
  {
    if xs == [] then []
    else
      assert xs == [xs[0]] + xs[1..];
      InsertAsc(xs[0], SortAsc(xs[1..]))
  }

  /**
   * numpy's 'linear' percentile of sorted values: position (n-1)p between
   * the order statistics, interpolated between the two it falls between.
   */
  /** The interpolation position (n-1)p of the p-th percentile among n order statistics. */
  function Position(n: nat, p: real): real
  {
    (n - 1) as real * p
  }

  function QuantileSorted(v: seq<real>, p: real): real
    requires |v| > 0 && 0.0 <= p <= 1.0
  {
    PositionInRange(|v|, p);
    var lo := Position(|v|, p).Floor;
    var t := Position(|v|, p) - lo as real;
    if lo + 1 < |v| then v[lo] + t * (v[lo + 1] - v[lo]) else v[lo]
  }

  lemma PositionInRange(n: nat, p: real)
    requires n > 0 && 0.0 <= p <= 1.0
    ensures 0.0 <= Position(n, p) <= (n - 1) as real
    ensures 0 <= Position(n, p).Floor <= n - 1
  {
    var m := (n - 1) as real;
    MulNonneg(m, p);
    MulNonneg(m, 1.0 - p);
    assert m * p + m * (1.0 - p) == m;
  }

  lemma MulNonneg(a: real, b: real)
    requires a >= 0.0 && b >= 0.0
    ensures a * b >= 0.0
  {
  }

  /** Linear interpolation between a <= b grows with the fraction t. */
  lemma LerpMonotone(a: real, b: real, t1: real, t2: real)
    requires a <= b && 0.0 <= t1 <= t2
    ensures a + t1 * (b - a) <= a + t2 * (b - a)
  {
    MulNonneg(t2 - t1, b - a);
  }

  /** `Series.quantile(p)` over non-null values `xs`. */
  function Quantile(xs: seq<real>, p: real): real
    requires |xs| > 0 && 0.0 <= p <= 1.0
  {
    var v := SortAsc(xs);
    assert |v| == |xs| by { assert |multiset(v)| == |multiset(xs)|; }
    QuantileSorted(v, p)
  }

  /** The median of sorted values: the middle one, or the mean of the middle two. */
  function MedianSorted(v: seq<real>): real
    requires |v| > 0
  {
    var n := |v|;
    if n % 2 == 1 then v[n / 2] else (v[n / 2 - 1] + v[n / 2]) / 2.0
  }

  /** `Series.median()` over non-null values `xs`. */
  function Median(xs: seq<real>): real
    requires |xs| > 0
  {
    var v := SortAsc(xs);
    assert |v| == |xs| by { assert |multiset(v)| == |multiset(xs)|; }
    MedianSorted(v)
  }

  /** The statistics the model keeps for a numeric column (std, skew and kurtosis are not part of it). */
  datatype ColumnStats = ColumnStats(mean: Float, min: Float, max: Float, median: Float, q1: Float, q3: Float)

  /** The per-column dict of `calculate_basic_stats`; NaN throughout when every cell is null. */
  function Describe(cells: seq<Option<real>>): ColumnStats
  {
    var xs := NonNull(cells);
    if xs == [] then ColumnStats(NaN, NaN, NaN, NaN, NaN, NaN)
    else ColumnStats(Num(Mean(xs)), Num(Min(xs)), Num(Max(xs)), Num(Median(xs)),
                     Num(Quantile(xs, 0.25)), Num(Quantile(xs, 0.75)))
  }

  // ---------------------------------------------------------------- lemmas

  lemma {:induction false} SumBounds(xs: seq<real>, lo: real, hi: real)
    requires forall x :: x in xs ==> lo <= x <= hi
    ensures |xs| as real * lo <= Sum(xs) <= |xs| as real * hi
  {
    if xs != [] {
      assert forall x :: x in xs[1..] ==> x in xs;
      SumBounds(xs[1..], lo, hi);
      var m := |xs[1..]| as real;
      assert xs[0] in xs;
      assert Sum(xs) == xs[0] + Sum(xs[1..]);
      assert |xs| as real == m + 1.0;
      assert (m + 1.0) * lo == m * lo + lo;
      assert (m + 1.0) * hi == m * hi + hi;
    }
  }

  lemma DivBetween(s: real, n: real, lo: real, hi: real)
    requires n > 0.0 && n * lo <= s <= n * hi
    ensures lo <= s / n <= hi
  {
    assert (s / n) * n == s;
  }

  /** The mean of values within [lo, hi] is within [lo, hi]. */
  lemma MeanBetween(xs: seq<real>, lo: real, hi: real)
    requires |xs| > 0
    requires forall x :: x in xs ==> lo <= x <= hi
    ensures lo <= Mean(xs) <= hi
  {
    SumBounds(xs, lo, hi);
    DivBetween(Sum(xs), |xs| as real, lo, hi);
  }

  /** The mean lies between the minimum and the maximum. */
  lemma MeanBetweenMinAndMax(xs: seq<real>)
    requires |xs| > 0
    ensures Min(xs) <= Mean(xs) <= Max(xs)
  {
    MeanBetween(xs, Min(xs), Max(xs));
  }

  /** The sorted values run from the minimum to the maximum. */
  lemma SortedEnds(xs: seq<real>)
    requires |xs| > 0
    ensures |SortAsc(xs)| == |xs|
    ensures SortAsc(xs)[0] == Min(xs) && SortAsc(xs)[|xs| - 1] == Max(xs)
  {
    var v := SortAsc(xs);
    assert |v| == |xs| by { assert |multiset(v)| == |multiset(xs)|; }
    assert forall y :: y in v <==> y in xs by {
      forall y ensures y in v <==> y in xs {
        assert y in v <==> y in multiset(v);
        assert y in xs <==> y in multiset(xs);
      }
    }
    assert v[0] in xs && v[|v| - 1] in xs;
    var a :| 0 <= a < |v| && v[a] == Min(xs);
    var b :| 0 <= b < |v| && v[b] == Max(xs);
    assert v[0] <= v[a];
    assert v[b] <= v[|v| - 1];
  }

  /** An interpolated percentile lies between the two order statistics around it. */
  lemma QuantileInSegment(v: seq<real>, p: real)
    requires SortedAsc(v) && |v| > 0 && 0.0 <= p <= 1.0
    ensures var lo := Position(|v|, p).Floor;
      && 0 <= lo < |v|
      && v[lo] <= QuantileSorted(v, p)
      && (lo + 1 < |v| ==> QuantileSorted(v, p) <= v[lo + 1])
      && (lo + 1 >= |v| ==> QuantileSorted(v, p) == v[lo])
  {
    PositionInRange(|v|, p);
    var lo := Position(|v|, p).Floor;
    var t := Position(|v|, p) - lo as real;
    if lo + 1 < |v| {
      LerpMonotone(v[lo], v[lo + 1], 0.0, t);
      LerpMonotone(v[lo], v[lo + 1], t, 1.0);
    }
  }

  /** Percentiles of sorted values grow with p. */
  lemma QuantileMonotone(v: seq<real>, p1: real, p2: real)
    requires SortedAsc(v) && |v| > 0 && 0.0 <= p1 <= p2 <= 1.0
    ensures QuantileSorted(v, p1) <= QuantileSorted(v, p2)
  {
    var n1 := (|v| - 1) as real;
    MulNonneg(n1, p2 - p1);
    assert Position(|v|, p1) <= Position(|v|, p2);
    var lo1, lo2 := Position(|v|, p1).Floor, Position(|v|, p2).Floor;
    QuantileInSegment(v, p1);
    QuantileInSegment(v, p2);
    if lo1 == lo2 {
      if lo1 + 1 < |v| {
        LerpMonotone(v[lo1], v[lo1 + 1], Position(|v|, p1) - lo1 as real, Position(|v|, p2) - lo2 as real);
      }
    } else {
      assert v[lo1 + 1] <= v[lo2];
    }
  }

  /** The endpoints of the percentile scale are the extreme order statistics. */
  lemma QuantileEnds(v: seq<real>)
    requires SortedAsc(v) && |v| > 0
    ensures QuantileSorted(v, 0.0) == v[0]
    ensures QuantileSorted(v, 1.0) == v[|v| - 1]
  {
    assert Position(|v|, 0.0) == 0.0;
    assert Position(|v|, 1.0) == (|v| - 1) as real;
  }

  /** pandas' median is the linear 50th percentile. */
  lemma MedianIsMiddleQuantile(v: seq<real>)
    requires |v| > 0
    ensures MedianSorted(v) == QuantileSorted(v, 0.5)
  {
    var n := |v|;
    var k := (n - 1) / 2;
    if n % 2 == 1 {
      assert Position(n, 0.5) == k as real;
      assert n / 2 == k;
    } else {
      assert Position(n, 0.5) == k as real + 0.5;
      assert Position(n, 0.5).Floor == k;
      assert n / 2 == k + 1;
    }
  }

  /**
   * Every statistic is a number, the order statistics satisfy
   * min <= q1 <= median <= q3 <= max, and the mean lies between min and max.
   */
  predicate Ordered(s: ColumnStats)
  {
    && s.mean.Num? && s.min.Num? && s.max.Num? && s.median.Num? && s.q1.Num? && s.q3.Num?
    && s.min.val <= s.q1.val <= s.median.val <= s.q3.val <= s.max.val
    && s.min.val <= s.mean.val <= s.max.val
  }

  /**
   * The statistics of a column with at least one non-null value are
   * ordered; with none they are all NaN.
   */
  lemma DescribeOrdered(cells: seq<Option<real>>)
    ensures NullCount(cells) < |cells| ==> Ordered(Describe(cells))
    ensures NullCount(cells) == |cells| ==> Describe(cells) == ColumnStats(NaN, NaN, NaN, NaN, NaN, NaN)
  {
    var xs := NonNull(cells);
    if xs == [] {
      return;
    }
    var v := SortAsc(xs);
    SortedEnds(xs);
    QuantileEnds(v);
    QuantileMonotone(v, 0.0, 0.25);
    QuantileMonotone(v, 0.25, 0.5);
    QuantileMonotone(v, 0.5, 0.75);
    QuantileMonotone(v, 0.75, 1.0);
    MedianIsMiddleQuantile(v);
    MeanBetweenMinAndMax(xs);
  }
}
