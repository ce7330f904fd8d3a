/** What the statistics of a series say about its points: analytics/engine.go. */
module SeriesLaws {
  import opened Aggregation
  import opened Sorting
  import opened Statistics

  // ----- Quantiles

  /** Median, 95th and 99th percentile divide the gap between two points next to each other in rank as the quantile
      divides the gap between their ranks. */
  lemma SeriesQuantiles(points: seq<Point>, t: seq<real>, k: nat, f: real)
    requires points != [] && Ranks(t, Values(points))
    ensures Splits(|t|, 0.5, k, f) ==> StatisticsOf(points).median == Divided(t[k], t[k + 1], f)
    ensures Splits(|t|, 0.95, k, f) ==> StatisticsOf(points).p95 == Divided(t[k], t[k + 1], f)
    ensures Splits(|t|, 0.99, k, f) ==> StatisticsOf(points).p99 == Divided(t[k], t[k + 1], f)
  {
    var values := Values(points);
    SeriesPercentiles(points, values);
    QuantileOf(values, t, 0.5, k, f);
    QuantileOf(values, t, 0.95, k, f);
    QuantileOf(values, t, 0.99, k, f);
  }

  lemma SeriesPercentiles(points: seq<Point>, values: seq<real>)
    requires points != [] && values == Values(points)
    ensures var s := StatisticsOf(points);
            && s.median == Percentile(values, 0.5) && s.p95 == Percentile(values, 0.95)
            && s.p99 == Percentile(values, 0.99)
  {
  }

  lemma QuantileOf(values: seq<real>, t: seq<real>, p: real, k: nat, f: real)
    requires Ranks(t, values) && 0.0 <= p <= 1.0
    ensures Splits(|t|, p, k, f) ==> Percentile(values, p) == Divided(t[k], t[k + 1], f)
  {
    if Splits(|t|, p, k, f) {
      PercentileInterpolates(values, t, p, k, f);
    }
  }

  /** The percentile aggregations of a bucket are the same quantiles of its values. */
  lemma AggregateQuantiles(values: seq<real>, t: seq<real>, k: nat, f: real)
    requires Ranks(t, values)
    ensures Splits(|t|, 0.95, k, f) ==> Aggregate(AggP95, values) == Divided(t[k], t[k + 1], f)
    ensures Splits(|t|, 0.99, k, f) ==> Aggregate(AggP99, values) == Divided(t[k], t[k + 1], f)
  {
    QuantileOf(values, t, 0.95, k, f);
    QuantileOf(values, t, 0.99, k, f);
  }

  /** A middle point, or the mean of the two. */
  lemma SeriesMedian(points: seq<Point>, t: seq<real>, m: nat)
    requires points != [] && Ranks(t, Values(points))
    ensures |t| == 2 * m + 1 ==> StatisticsOf(points).median == t[m]
    ensures m > 0 && |t| == 2 * m ==> StatisticsOf(points).median == (t[m - 1] + t[m]) / 2.0
  {
    SeriesPercentiles(points, Values(points));
    if |t| == 2 * m + 1 {
      MedianOfOdd(Values(points), t, m);
    } else if m > 0 && |t| == 2 * m {
      MedianOfEven(Values(points), t, m);
    }
  }

  // ----- Moments

  function Square(x: real): real { x * x }

  function SumOfSquares(values: seq<real>): real {
    if values == [] then 0.0 else SumOfSquares(values[..|values| - 1]) + Square(values[|values| - 1])
  }

  function SumAll(values: seq<real>): real {
    if values == [] then 0.0 else SumAll(values[..|values| - 1]) + values[|values| - 1]
  }

  lemma {:induction false} SumIsTotal(values: seq<real>)
    ensures Total(Sum, values) == SumAll(values)
  {
    if values != [] {
      var front, last := values[..|values| - 1], values[|values| - 1];
      SumIsTotal(front);
      FoldedSnoc(Sum, front, last);
      assert values == front + [last];
    }
  }

  /** Twice the product. */
  function Twice(m: real, x: real): real { 2.0 * (m * x) }

  lemma TwiceSum(m: real, a: real, b: real)
    ensures Twice(m, a + b) == Twice(m, a) + Twice(m, b)
  {
  }

  lemma SquareAround(x: real, mean: real)
    ensures (x - mean) * (x - mean) == Square(x) - Twice(mean, x) + Square(mean)
  {
  }

  lemma {:induction false} SquaresExpand(values: seq<real>, mean: real)
    ensures SquaresAround(values, mean)
         == SumOfSquares(values) - Twice(mean, SumAll(values)) + Multiple(|values|, Square(mean))
  {
    if values != [] {
      var front, last := values[..|values| - 1], values[|values| - 1];
      SquaresExpand(front, mean);
      SquareAround(last, mean);
      MultipleNext(|front|, Square(mean));
      TwiceSum(mean, SumAll(front), last);
    }
  }

  lemma MultipleNext(n: nat, x: real)
    ensures Multiple(n + 1, x) == Multiple(n, x) + x
  {
  }

  lemma ShareOut(x: real, n: nat)
    requires n > 0
    ensures Multiple(n, x / n as real) == x
  {
  }

  lemma MeanSquare(n: nat, sum: real, mean: real)
    requires Multiple(n, mean) == sum
    ensures Twice(mean, sum) == 2.0 * Multiple(n, Square(mean))
  {
    var r := n as real;
    assert mean * (r * mean) == r * (mean * mean);
  }

  lemma VarianceShared(values: seq<real>, mean: real, n: nat)
    requires n == |values| > 0 && Multiple(n, mean) == SumAll(values)
    ensures Multiple(n, SquaresAround(values, mean) / n as real)
         == SumOfSquares(values) - Multiple(n, Square(mean))
  {
    SquaresExpand(values, mean);
    MeanSquare(n, SumAll(values), mean);
    ShareOut(SquaresAround(values, mean), n);
  }

  lemma MeanShared(values: seq<real>, n: nat)
    requires n == |values| > 0
    ensures Multiple(n, Mean(values)) == SumAll(values)
  {
    SumIsTotal(values);
    ShareOut(SumAll(values), n);
  }

  lemma SeriesMeanIs(points: seq<Point>, values: seq<real>)
    requires points != [] && values == Values(points)
    ensures var s := StatisticsOf(points);
            && s.sum == Total(Sum, values) && s.avg == Mean(values) && s.count == |values|
            && s.variance == SquaresAround(values, Mean(values)) / |values| as real
  {
  }

  /** The mean is the sum shared out evenly; the variance is the mean square less the squared mean. */
  lemma SeriesMoments(points: seq<Point>, n: nat)
    requires points != [] && n == |points|
    ensures var s, values := StatisticsOf(points), Values(points);
            && s.count == n && s.sum == SumAll(values)
            && Multiple(n, s.avg) == s.sum
            && Multiple(n, s.variance) == SumOfSquares(values) - Multiple(n, Square(s.avg))
  {
    var values := Values(points);
    SeriesMeanIs(points, values);
    SumIsTotal(values);
    MeanShared(values, n);
    VarianceShared(values, Mean(values), n);
  }

  lemma AverageShared(values: seq<real>, n: nat)
    requires n == |values| > 0
    ensures Multiple(n, Aggregate(AggAvg, values)) == SumAll(values)
  {
    SumIsTotal(values);
    ShareOut(Total(Sum, values), n);
  }

  /** The aggregations of a bucket that are no percentiles: the average shares out the sum, the count is the number. */
  lemma AggregateMoments(values: seq<real>, n: nat)
    requires n == |values| > 0
    ensures Aggregate(AggSum, values) == SumAll(values)
    ensures Multiple(n, Aggregate(AggAvg, values)) == SumAll(values)
    ensures Aggregate(AggCount, values) == n as real
    ensures Aggregate(AggMin, values) in values && Aggregate(AggMax, values) in values
    ensures forall x :: x in values ==> Aggregate(AggMin, values) <= x <= Aggregate(AggMax, values)
  {
    SumIsTotal(values);
    AverageShared(values, n);
    ExtremesBound(values);
  }

  /** The extremes of a series are points of it that bound all others; first and last are those of the list. */
  lemma SeriesExtremes(points: seq<Point>)
    requires points != []
    ensures var s := StatisticsOf(points);
            && (exists i :: 0 <= i < |points| && points[i].value == s.min)
            && (exists i :: 0 <= i < |points| && points[i].value == s.max)
            && (forall i :: 0 <= i < |points| ==> s.min <= points[i].value <= s.max)
            && s.first == points[0].value && s.last == points[|points| - 1].value
  {
    var values := Values(points);
    ExtremesBoundAll(values);
    StatisticTotals(points);
    var i :| 0 <= i < |values| && values[i] == Total(Min, values);
    var j :| 0 <= j < |values| && values[j] == Total(Max, values);
    assert points[i].value == values[i] && points[j].value == values[j];
    assert forall k :: 0 <= k < |points| ==> points[k].value == values[k];
  }

  // ----- Growth and trend

  /** So many hundredths of a value. */
  function Hundredths(x: real, n: real): real { x * n / 100.0 }

  lemma GrowthMeaning(first: real, last: real)
    ensures first != 0.0 ==> last == first + Hundredths(first, GrowthOf(first, last))
    ensures first == 0.0 ==> GrowthOf(first, last) == 0.0
  {
    if first != 0.0 {
      var q := (last - first) / first;
      assert q * first == last - first;
      assert first * (q * 100.0) == q * first * 100.0;
    }
  }

  lemma HundredthsOrder(x: real, n: real, m: real)
    requires x > 0.0
    ensures n < m <==> Hundredths(x, n) < Hundredths(x, m)
  {
    var d := m - n;
    assert Hundredths(x, m) - Hundredths(x, n) == x * d / 100.0;
    if d > 0.0 {
      assert x * d > 0.0;
    } else if d < 0.0 {
      assert x * (0.0 - d) > 0.0;
      assert x * (0.0 - d) == 0.0 - x * d;
    } else {
      assert x * d == 0.0;
    }
  }

  lemma Twentieth(x: real)
    ensures Hundredths(x, 5.0) == x / 20.0 && Hundredths(x, -5.0) == -(x / 20.0)
  {
  }

  lemma TrendMeaning(first: real, last: real, growth: real)
    requires growth == GrowthOf(first, last)
    ensures first > 0.0 ==> (TrendOf(growth) == "increasing" <==> last > first + first / 20.0)
    ensures first > 0.0 ==> (TrendOf(growth) == "decreasing" <==> last < first - first / 20.0)
    ensures first == 0.0 ==> TrendOf(growth) == "stable"
  {
    GrowthMeaning(first, last);
    if first > 0.0 {
      HundredthsOrder(first, 5.0, growth);
      HundredthsOrder(first, growth, -5.0);
      Twentieth(first);
    }
  }

  lemma SeriesGrowth(points: seq<Point>, first: real, last: real)
    requires points != [] && first == points[0].value && last == points[|points| - 1].value
    ensures var s := StatisticsOf(points);
            && s.first == first && s.last == last
            && s.growth == GrowthOf(first, last) && s.trend == TrendOf(GrowthOf(first, last))
  {
  }

  /** Growth is the change from the first to the last point in hundredths of the first; a series that starts above zero
      counts as increasing or decreasing exactly if it ends more than a twentieth of its start above or below it. */
  lemma SeriesTrend(points: seq<Point>, first: real, last: real)
    requires points != [] && first == points[0].value && last == points[|points| - 1].value
    ensures var s := StatisticsOf(points);
            && (first != 0.0 ==> last == first + Hundredths(first, s.growth))
            && (first == 0.0 ==> s.growth == 0.0 && s.trend == "stable")
            && (first > 0.0 ==> (s.trend == "increasing" <==> last > first + first / 20.0))
            && (first > 0.0 ==> (s.trend == "decreasing" <==> last < first - first / 20.0))
  {
    SeriesGrowth(points, first, last);
    GrowthMeaning(first, last);
    TrendMeaning(first, last, GrowthOf(first, last));
  }

  /** No points, no numbers. */
  lemma NothingIsZero(agg: Aggregator)
    ensures Aggregate(agg, []) == 0.0
    ensures var s := StatisticsOf([]);
            && s.sum == s.avg == s.min == s.max == s.variance == s.median == s.p95 == s.p99 == 0.0
            && s.first == s.last == s.growth == 0.0 && s.count == 0 && s.trend == ""
  {
  }
}
