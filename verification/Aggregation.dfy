/** The query pipeline of analytics/engine.go: group, bucket by time, aggregate each
    bucket, compute series statistics, summarise.  Calendar truncation is a parameter. */
module Aggregation {
  import opened Grouping
  import opened MapOrder
  import opened PartFolds
  import opened Sorting
  import opened Statistics
  import opened Wrappers

  datatype Aggregator = AggSum | AggAvg | AggMin | AggMax | AggCount | AggP95 | AggP99 | AggOther(name: string)

  datatype Point = Point(timestamp: int, value: real, count: int, metadata: map<string, string>)

  datatype SeriesStatistics = SeriesStatistics(
    sum: real, avg: real, min: real, max: real, count: int, variance: real,
    median: real, p95: real, p99: real, first: real, last: real, growth: real, trend: string)

  datatype Series = Series(name: string, points: seq<Point>, statistics: SeriesStatistics)

  function ValueOf(p: Point): real { p.value }

  function Values(points: seq<Point>): (r: seq<real>)
    ensures |r| == |points| && forall i :: 0 <= i < |r| ==> r[i] == points[i].value
  {
    Mapped(points, ValueOf)
  }

  // ----- The pipeline

  function Aggregate(agg: Aggregator, values: seq<real>): real {
    match agg
    case AggSum => Total(Sum, values)
    case AggAvg => if values == [] then 0.0 else Total(Sum, values) / |values| as real
    case AggMin => Total(Min, values)
    case AggMax => Total(Max, values)
    case AggCount => |values| as real
    case AggP95 => Percentile(values, 0.95)
    case AggP99 => Percentile(values, 0.99)
    case AggOther(_) => 0.0
  }

  /** The first listed aggregation that has an aggregator decides the bucket values. */
  function BucketValue(aggs: seq<Aggregator>, values: seq<real>): real {
    if aggs == [] then 0.0
    else if aggs[0].AggOther? then BucketValue(aggs[1..], values)
    else Aggregate(aggs[0], values)
  }

  function KindOf(agg: Aggregator): Option<Kind> {
    match agg
    case AggSum => Some(Sum)
    case AggMin => Some(Min)
    case AggMax => Some(Max)
    case _ => None
  }

  predicate Leads(agg: Aggregator, aggs: seq<Aggregator>) {
    aggs != [] && (if aggs[0].AggOther? then Leads(agg, aggs[1..]) else aggs[0] == agg)
  }

  function GroupKey(groupBy: seq<string>, p: Point): string {
    var key := FieldValues(groupBy, p);
    if key == "" then "default" else key
  }

  function FieldValues(groupBy: seq<string>, p: Point): string {
    if groupBy == [] then ""
    else (if groupBy[0] in p.metadata then p.metadata[groupBy[0]] + "|" else "") + FieldValues(groupBy[1..], p)
  }

  function ByGroup(groupBy: seq<string>): Point -> string {
    p => GroupKey(groupBy, p)
  }

  function ByBucket(trunc: int -> int): Point -> int {
    (p: Point) => trunc(p.timestamp)
  }

  function BucketPoint(points: seq<Point>, trunc: int -> int, aggs: seq<Aggregator>, t: int): Point {
    var bucket := Select(points, ByBucket(trunc), t);
    Point(t, BucketValue(aggs, Values(bucket)), |bucket|, map[])
  }

  function Times(points: seq<Point>): (r: seq<int>)
    ensures |r| == |points| && forall i :: 0 <= i < |r| ==> r[i] == points[i].timestamp
  {
    seq(|points|, i requires 0 <= i < |points| => points[i].timestamp)
  }

  ghost predicate StrictlyIncreasing(s: seq<int>) {
    forall i, j :: 0 <= i < j < |s| ==> s[i] < s[j]
  }

  /** One point per occurring bucket, in time order. */
  ghost predicate Bucketed(points: seq<Point>, trunc: int -> int, aggs: seq<Aggregator>, r: seq<Point>) {
    && StrictlyIncreasing(Times(r))
    && Enumerates(Times(r), KeySet(points, ByBucket(trunc)))
    && forall i :: 0 <= i < |r| ==> r[i] == BucketPoint(points, trunc, aggs, r[i].timestamp)
  }

  predicate Earlier(p: Point, q: Point) { p.timestamp < q.timestamp }

  method SortPointsByTime(points: seq<Point>) returns (sorted: seq<Point>)
    ensures Sorted(Earlier, sorted) && Permutation(sorted, points)
  {
    var a := new Point[|points|](i requires 0 <= i < |points| => points[i]);
    assert a[..] == points;
    ExchangeSort(a, Earlier);
    sorted := a[..];
  }

  lemma DistinctAfterSort(s: seq<Point>, sorted: seq<Point>)
    requires Sorted(Earlier, sorted) && Permutation(sorted, s)
    requires forall i, j :: 0 <= i < j < |s| ==> s[i].timestamp != s[j].timestamp
    ensures StrictlyIncreasing(Times(sorted))
  {
    forall i, j | 0 <= i < j < |sorted|
      ensures sorted[i].timestamp < sorted[j].timestamp
    {
      assert !Earlier(sorted[j], sorted[i]);
      if sorted[i].timestamp == sorted[j].timestamp {
        PermutationMembers(sorted, s);
        assert sorted[i] in s && sorted[j] in s;
        assert sorted[i] == sorted[j];
        TwiceInMultiset(sorted, i, j);
        OnceInMultiset(s, sorted[i]);
        assert false;
      }
    }
  }

  lemma TwiceInMultiset(s: seq<Point>, i: nat, j: nat)
    requires i < j < |s| && s[i] == s[j]
    ensures multiset(s)[s[i]] >= 2
  {
    assert s == s[..j] + [s[j]] + s[j + 1..];
    assert s[i] in s[..j];
  }

  lemma {:induction false} OnceInMultiset(s: seq<Point>, p: Point)
    requires forall i, j :: 0 <= i < j < |s| ==> s[i] != s[j]
    ensures multiset(s)[p] <= 1
  {
    if s != [] {
      OnceInMultiset(s[1..], p);
      assert s == [s[0]] + s[1..];
      assert s[0] !in s[1..];
    }
  }

  method AggregatePoints(points: seq<Point>, trunc: int -> int, aggs: seq<Aggregator>) returns (r: seq<Point>)
    ensures Bucketed(points, trunc, aggs, r)
  {
    var buckets := GroupBy(points, ByBucket(trunc));
    var order := Ordering(buckets.Keys);
    var result: seq<Point> := [];
    for i := 0 to |order|
      invariant Times(result) == order[..i]
      invariant forall j :: 0 <= j < i ==> result[j] == BucketPoint(points, trunc, aggs, order[j])
    {
      var t := order[i];
      result := result + [Point(t, BucketValue(aggs, Values(buckets[t])), |buckets[t]|, map[])];
    }
    assert Times(result) == order;
    r := SortPointsByTime(result);
    DistinctAfterSort(result, r);
    PermutationMembers(r, result);
    SameTimes(result, r);
    forall i | 0 <= i < |r|
      ensures r[i] == BucketPoint(points, trunc, aggs, r[i].timestamp)
    {
      assert r[i] in result;
    }
  }

  lemma SameTimes(s: seq<Point>, t: seq<Point>)
    requires forall p :: p in s <==> p in t
    ensures forall x :: x in Times(s) <==> x in Times(t)
  {
    forall x
      ensures x in Times(s) <==> x in Times(t)
    {
      if x in Times(s) {
        var i :| 0 <= i < |s| && s[i].timestamp == x;
        assert s[i] in t;
      }
      if x in Times(t) {
        var i :| 0 <= i < |t| && t[i].timestamp == x;
        assert t[i] in s;
      }
    }
  }

  // ----- Series statistics

  function SquaresAround(values: seq<real>, mean: real): real {
    if values == [] then 0.0
    else SquaresAround(values[..|values| - 1], mean) + (values[|values| - 1] - mean) * (values[|values| - 1] - mean)
  }

  const NO_STATISTICS := SeriesStatistics(0.0, 0.0, 0.0, 0.0, 0, 0.0, 0.0, 0.0, 0.0, 0.0, 0.0, 0.0, "")

  function GrowthOf(first: real, last: real): real {
    if first == 0.0 then 0.0 else (last - first) / first * 100.0
  }

  function TrendOf(growth: real): string {
    if growth > 5.0 then "increasing" else if growth < -5.0 then "decreasing" else "stable"
  }

  function Mean(values: seq<real>): real
    requires values != []
  {
    Total(Sum, values) / |values| as real
  }

  function VarianceOf(values: seq<real>, mean: real): real {
    if values == [] then 0.0 else SquaresAround(values, mean) / |values| as real
  }

  function StatisticsOf(points: seq<Point>): SeriesStatistics {
    if points == [] then NO_STATISTICS
    else
      var values := Values(points);
      var avg := Mean(values);
      var growth := GrowthOf(values[0], values[|values| - 1]);
      SeriesStatistics(
        Total(Sum, values), avg, Total(Min, values), Total(Max, values), |values|,
        VarianceOf(values, avg),
        Percentile(values, 0.5), Percentile(values, 0.95), Percentile(values, 0.99),
        values[0], values[|values| - 1], growth, TrendOf(growth))
  }

  lemma StatisticTotals(points: seq<Point>)
    ensures var s := StatisticsOf(points);
            && s.sum == Total(Sum, Values(points))
            && s.min == Total(Min, Values(points))
            && s.max == Total(Max, Values(points))
  {
  }

  method Variance(values: seq<real>, mean: real) returns (variance: real)
    ensures variance == VarianceOf(values, mean)
  {
    if values == [] {
      return 0.0;
    }
    variance := 0.0;
    for i := 0 to |values|
      invariant variance == SquaresAround(values[..i], mean)
    {
      assert values[..i + 1][..i] == values[..i];
      variance := variance + (values[i] - mean) * (values[i] - mean);
    }
    assert values[..|values|] == values;
    variance := variance / |values| as real;
  }

  method Average(values: seq<real>) returns (sum: real, avg: real)
    requires values != []
    ensures sum == Total(Sum, values) && avg == Mean(values)
  {
    sum := SumValues(values);
    avg := sum / |values| as real;
  }

  method Growth(first: real, last: real) returns (growth: real)
    ensures growth == GrowthOf(first, last)
  {
    growth := 0.0;
    if first != 0.0 {
      growth := (last - first) / first * 100.0;
    }
  }

  method CalculateStatistics(points: seq<Point>) returns (stats: SeriesStatistics)
    ensures stats == StatisticsOf(points)
  {
    if points == [] {
      return NO_STATISTICS;
    }
    var values := Values(points);
    var first, last := values[0], values[|values| - 1];
    var sum, avg := Average(values);
    var min := MinValue(values);
    var max := MaxValue(values);
    var variance := Variance(values, avg);
    var median := PercentileOf(values, 0.5);
    var p95 := PercentileOf(values, 0.95);
    var p99 := PercentileOf(values, 0.99);
    var growth := Growth(first, last);
    stats := SeriesStatistics(sum, avg, min, max, |values|, variance, median, p95, p99, first, last, growth,
      TrendOf(growth));
  }

  /** The order statistics of every nonempty series are in order. */
  lemma StatisticsOrdered(points: seq<Point>)
    requires points != []
    ensures var s := StatisticsOf(points); s.min <= s.median <= s.p95 <= s.p99 <= s.max
  {
    var values := Values(points);
    PercentileEnds(values);
    PercentileMonotone(values, 0.0, 0.5);
    PercentileMonotone(values, 0.5, 0.95);
    PercentileMonotone(values, 0.95, 0.99);
    PercentileMonotone(values, 0.99, 1.0);
  }

  // ----- Summaries

  datatype Summary = Summary(totalSeries: int, totalDataPoints: int, aggregations: map<Aggregator, real>)

  /** What the summary reads from a series for `agg`, if anything. */
  function SeriesValue(agg: Aggregator, s: Series): Option<real> {
    match agg
    case AggSum => Some(s.statistics.sum)
    case AggAvg => Some(s.statistics.avg)
    case AggMax => Some(s.statistics.max)
    case AggMin => Some(s.statistics.min)
    case _ => None
  }

  function SeriesValues(agg: Aggregator, series: seq<Series>): (r: seq<real>) {
    if series == [] then []
    else
      var v := SeriesValue(agg, series[|series| - 1]);
      SeriesValues(agg, series[..|series| - 1]) + (if v.Some? then [v.value] else [])
  }

  function SummaryMap(series: seq<Series>, aggs: seq<Aggregator>): map<Aggregator, real> {
    if aggs == [] then map[]
    else
      var agg := aggs[|aggs| - 1];
      var before := SummaryMap(series, aggs[..|aggs| - 1]);
      if SeriesValues(agg, series) == [] then before else before[agg := Aggregate(agg, SeriesValues(agg, series))]
  }

  function PointCount(series: seq<Series>): int {
    if series == [] then 0 else |series[0].points| + PointCount(series[1..])
  }

  function SummaryOf(series: seq<Series>, aggs: seq<Aggregator>): Summary {
    Summary(|series|, PointCount(series), SummaryMap(series, aggs))
  }

  method AggregateValues(agg: Aggregator, values: seq<real>) returns (r: real)
    ensures r == Aggregate(agg, values)
  {
    match agg
    case AggSum => r := SumValues(values);
    case AggAvg =>
      if values == [] {
        return 0.0;
      }
      var sum := SumValues(values);
      return sum / |values| as real;
    case AggMin => r := MinValue(values);
    case AggMax => r := MaxValue(values);
    case AggCount => return |values| as real;
    case AggP95 => r := PercentileOf(values, 0.95);
    case AggP99 => r := PercentileOf(values, 0.99);
    case AggOther(_) => return 0.0;
  }

  method CollectValues(agg: Aggregator, series: seq<Series>) returns (values: seq<real>)
    ensures values == SeriesValues(agg, series)
  {
    values := [];
    for j := 0 to |series|
      invariant values == SeriesValues(agg, series[..j])
    {
      assert series[..j + 1][..j] == series[..j];
      var v := SeriesValue(agg, series[j]);
      if v.Some? {
        values := values + [v.value];
      }
    }
    assert series[..|series|] == series;
  }

  method BuildSummary(series: seq<Series>, aggs: seq<Aggregator>) returns (summary: Summary)
    ensures summary == SummaryOf(series, aggs)
  {
    var total := 0;
    for i := 0 to |series|
      invariant total + PointCount(series[i..]) == PointCount(series)
    {
      total := total + |series[i].points|;
    }
    var m: map<Aggregator, real> := map[];
    for i := 0 to |aggs|
      invariant m == SummaryMap(series, aggs[..i])
    {
      var values := CollectValues(aggs[i], series);
      assert aggs[..i + 1][..i] == aggs[..i];
      if |values| > 0 {
        var r := AggregateValues(aggs[i], values);
        m := m[aggs[i] := r];
      }
    }
    assert aggs[..|aggs|] == aggs;
    summary := Summary(|series|, total, m);
  }

  // ----- The query

  function Names(series: seq<Series>): (r: seq<string>)
    ensures |r| == |series| && forall i :: 0 <= i < |r| ==> r[i] == series[i].name
  {
    seq(|series|, i requires 0 <= i < |series| => series[i].name)
  }

  /** The series of one group of points. */
  ghost predicate SeriesBuilt(s: Series, points: seq<Point>, trunc: int -> int, aggs: seq<Aggregator>) {
    Bucketed(points, trunc, aggs, s.points) && s.statistics == StatisticsOf(s.points)
  }

  /** One series per group, in an arbitrary order. */
  ghost predicate SeriesOf(points: seq<Point>, groupBy: seq<string>, trunc: int -> int, aggs: seq<Aggregator>,
                           series: seq<Series>)
  {
    && Enumerates(Names(series), KeySet(points, ByGroup(groupBy)))
    && forall i :: 0 <= i < |series| ==>
         SeriesBuilt(series[i], Select(points, ByGroup(groupBy), series[i].name), trunc, aggs)
  }

  method BuildSeries(name: string, points: seq<Point>, trunc: int -> int, aggs: seq<Aggregator>) returns (s: Series)
    ensures s.name == name && SeriesBuilt(s, points, trunc, aggs)
  {
    var bucketed := AggregatePoints(points, trunc, aggs);
    var stats := CalculateStatistics(bucketed);
    s := Series(name, bucketed, stats);
  }

  datatype QueryError = InvalidTimeRange | InvalidGranularity

  const GRANULARITIES := ["minute", "hour", "day", "week", "month", "quarter", "year"]

  /** Why a query is refused; time 0 is Go's zero time. */
  function RefusalOf(startTime: int, endTime: int, granularity: string): Option<QueryError> {
    if startTime == 0 || endTime == 0 || startTime > endTime then Some(InvalidTimeRange)
    else if granularity !in GRANULARITIES then Some(InvalidGranularity)
    else None
  }

  /** A query that asks for nothing asks for averages. */
  function Asked(aggs: seq<Aggregator>): seq<Aggregator> {
    if aggs == [] then [AggAvg] else aggs
  }

  method ValidateQuery(startTime: int, endTime: int, granularity: string, aggs: seq<Aggregator>)
    returns (err: Option<QueryError>, asked: seq<Aggregator>)
    ensures err == RefusalOf(startTime, endTime, granularity)
    ensures asked == if err.Some? then aggs else Asked(aggs)
  {
    asked := aggs;
    if startTime == 0 || endTime == 0 {
      return Some(InvalidTimeRange), asked;
    }
    if startTime > endTime {
      return Some(InvalidTimeRange), asked;
    }
    if granularity !in GRANULARITIES {
      return Some(InvalidGranularity), asked;
    }
    if |aggs| == 0 {
      asked := [AggAvg];
    }
    return None, asked;
  }

  const NO_SUMMARY := Summary(0, 0, map[])

  /** `points` are those fetched for the time range, `trunc` truncates to the granularity. */
  method Query(startTime: int, endTime: int, granularity: string, points: seq<Point>, groupBy: seq<string>,
               trunc: int -> int, aggs: seq<Aggregator>)
    returns (err: Option<QueryError>, series: seq<Series>, summary: Summary)
    ensures err == RefusalOf(startTime, endTime, granularity)
    ensures err.Some? ==> series == [] && summary == NO_SUMMARY
    ensures err.None? ==> SeriesOf(points, groupBy, trunc, Asked(aggs), series)
    ensures err.None? ==> summary == if points == [] then NO_SUMMARY else SummaryOf(series, Asked(aggs))
  {
    series, summary := [], NO_SUMMARY;
    var asked;
    err, asked := ValidateQuery(startTime, endTime, granularity, aggs);
    if err.Some? || |points| == 0 {
      return;
    }
    series := BuildAllSeries(points, groupBy, trunc, asked);
    summary := BuildSummary(series, asked);
  }

  /** One series per group, in whatever order the groups come. */
  method BuildAllSeries(points: seq<Point>, groupBy: seq<string>, trunc: int -> int, aggs: seq<Aggregator>)
    returns (series: seq<Series>)
    ensures SeriesOf(points, groupBy, trunc, aggs, series)
  {
    var grouped := GroupBy(points, ByGroup(groupBy));
    var order := Ordering(grouped.Keys);
    series := [];
    for i := 0 to |order|
      invariant |series| == i
      invariant forall j :: 0 <= j < i ==>
                  series[j].name == order[j] && SeriesBuilt(series[j], grouped[order[j]], trunc, aggs)
    {
      var s := BuildSeries(order[i], grouped[order[i]], trunc, aggs);
      series := series + [s];
    }
    assert Names(series) == order;
  }
}
