/** What the query pipeline of analytics/engine.go preserves of the raw points. */
module AggregationLaws {
  import opened Aggregation
  import opened Grouping
  import opened MapOrder
  import opened PartFolds
  import opened Statistics
  import opened Wrappers

  // ----- Cells: what a group and a bucket have in common

  type Cell = (string, int)

  function ByCell(groupBy: seq<string>, trunc: int -> int): Point -> Cell {
    (p: Point) => (GroupKey(groupBy, p), trunc(p.timestamp))
  }

  function Group(): Cell -> string { (c: Cell) => c.0 }

  function Bucket(): Cell -> int { (c: Cell) => c.1 }

  function CellPoints(points: seq<Point>, groupBy: seq<string>, trunc: int -> int, c: Cell): seq<Point> {
    Select(points, ByCell(groupBy, trunc), c)
  }

  /** The bucket value of a cell: that of the leading aggregation. */
  function CellValue(points: seq<Point>, groupBy: seq<string>, trunc: int -> int, aggs: seq<Aggregator>)
    : Cell -> real
  {
    c => BucketValue(aggs, Values(CellPoints(points, groupBy, trunc, c)))
  }

  lemma {:induction false} GroupThenBucket(points: seq<Point>, groupBy: seq<string>, trunc: int -> int, c: Cell)
    ensures Select(Select(points, ByGroup(groupBy), c.0), ByBucket(trunc), c.1) == CellPoints(points, groupBy, trunc, c)
  {
    if points != [] {
      var p, rest := points[0], points[1..];
      GroupThenBucket(rest, groupBy, trunc, c);
      var s := Select(rest, ByGroup(groupBy), c.0);
      if GroupKey(groupBy, p) == c.0 {
        assert Select(points, ByGroup(groupBy), c.0) == [p] + s;
        assert ([p] + s)[1..] == s;
      } else {
        assert Select(points, ByGroup(groupBy), c.0) == s;
      }
    }
  }

  /** Among distinct cells only one has a given group and bucket. */
  lemma {:induction false} SelectOnce(cells: seq<Cell>, c: Cell)
    requires forall i, j :: 0 <= i < j < |cells| ==> cells[i] != cells[j]
    ensures Select(Select(cells, Group(), c.0), Bucket(), c.1) == if c in cells then [c] else []
  {
    if cells != [] {
      var first, rest := cells[0], cells[1..];
      SelectOnce(rest, c);
      assert cells == [first] + rest && first !in rest;
      var s := Select(rest, Group(), c.0);
      if first.0 == c.0 {
        assert Select(cells, Group(), c.0) == [first] + s;
        assert ([first] + s)[1..] == s;
      } else {
        assert Select(cells, Group(), c.0) == s;
      }
    }
  }

  /** The groups of the cells are the groups of the points. */
  lemma GroupsOfCells(points: seq<Point>, groupBy: seq<string>, trunc: int -> int, cells: seq<Cell>)
    requires Enumerates(cells, KeySet(points, ByCell(groupBy, trunc)))
    ensures KeySet(cells, Group()) == KeySet(points, ByGroup(groupBy))
  {
    forall g
      ensures g in KeySet(cells, Group()) <==> g in KeySet(points, ByGroup(groupBy))
    {
      if g in KeySet(cells, Group()) {
        var c :| c in cells && c.0 == g;
        var p :| p in points && ByCell(groupBy, trunc)(p) == c;
        assert ByGroup(groupBy)(p) == g;
      }
      if g in KeySet(points, ByGroup(groupBy)) {
        var p :| p in points && GroupKey(groupBy, p) == g;
        assert ByCell(groupBy, trunc)(p) in cells;
        assert Group()(ByCell(groupBy, trunc)(p)) == g;
      }
    }
  }

  /** The buckets of a group's cells are the buckets of the group's points. */
  lemma BucketsOfCells(points: seq<Point>, groupBy: seq<string>, trunc: int -> int, cells: seq<Cell>, g: string)
    requires Enumerates(cells, KeySet(points, ByCell(groupBy, trunc)))
    ensures KeySet(Select(cells, Group(), g), Bucket()) == KeySet(Select(points, ByGroup(groupBy), g), ByBucket(trunc))
  {
    SelectMember(points, ByGroup(groupBy), g);
    SelectMember(cells, Group(), g);
    var all, part := Select(points, ByGroup(groupBy), g), Select(cells, Group(), g);
    forall t
      ensures t in KeySet(part, Bucket()) <==> t in KeySet(all, ByBucket(trunc))
    {
      if t in KeySet(part, Bucket()) {
        var c :| c in part && c.1 == t;
        var p :| p in points && ByCell(groupBy, trunc)(p) == c;
        assert p in all && ByBucket(trunc)(p) == t;
      }
      if t in KeySet(all, ByBucket(trunc)) {
        var p :| p in all && trunc(p.timestamp) == t;
        var c := ByCell(groupBy, trunc)(p);
        assert c in part && Bucket()(c) == t;
      }
    }
  }

  /** The part of the cells with a given group and bucket folds to the value of that cell. */
  lemma CellPart(kind: Kind, cells: seq<Cell>, val: Cell -> real, g: string, t: int)
    requires forall i, j :: 0 <= i < j < |cells| ==> cells[i] != cells[j]
    requires t in KeySet(Select(cells, Group(), g), Bucket())
    ensures Total(kind, Mapped(Select(Select(cells, Group(), g), Bucket(), t), val)) == val((g, t))
  {
    SelectNothing(Select(cells, Group(), g), Bucket(), t);
    SelectOnce(cells, (g, t));
    assert Mapped([(g, t)], val) == [val((g, t))];
  }

  /** The points of a series carry the values of its cells. */
  lemma SeriesIsCells(kind: Kind, s: Series, points: seq<Point>, groupBy: seq<string>, trunc: int -> int,
                      aggs: seq<Aggregator>, cells: seq<Cell>)
    requires Enumerates(cells, KeySet(points, ByCell(groupBy, trunc)))
    requires SeriesBuilt(s, Select(points, ByGroup(groupBy), s.name), trunc, aggs)
    ensures Folded(kind, Values(s.points))
         == Folded(kind, Mapped(Select(cells, Group(), s.name), CellValue(points, groupBy, trunc, aggs)))
  {
    var part, val, times := Select(cells, Group(), s.name), CellValue(points, groupBy, trunc, aggs), Times(s.points);
    BucketsOfCells(points, groupBy, trunc, cells, s.name);
    PartitionFold(kind, part, val, Bucket(), times);
    forall i | 0 <= i < |s.points|
      ensures s.points[i].value == PartValues(kind, part, val, Bucket(), times)[i]
    {
      assert times[i] in KeySet(part, Bucket());
      CellPart(kind, cells, val, s.name, times[i]);
      GroupThenBucket(points, groupBy, trunc, (s.name, times[i]));
    }
    assert Values(s.points) == PartValues(kind, part, val, Bucket(), times);
  }

  // ----- The values of the summary

  lemma {:induction false} SeriesValuesAre(agg: Aggregator, series: seq<Series>, values: seq<real>)
    requires |values| == |series| && forall i :: 0 <= i < |series| ==> SeriesValue(agg, series[i]) == Some(values[i])
    ensures SeriesValues(agg, series) == values
  {
    if series != [] {
      SeriesValuesAre(agg, series[..|series| - 1], values[..|series| - 1]);
    }
  }

  lemma {:induction false} SummaryMapAt(series: seq<Series>, aggs: seq<Aggregator>, agg: Aggregator)
    requires agg in aggs && SeriesValues(agg, series) != []
    ensures agg in SummaryMap(series, aggs)
    ensures SummaryMap(series, aggs)[agg] == Aggregate(agg, SeriesValues(agg, series))
  {
    var last := aggs[|aggs| - 1];
    assert aggs == aggs[..|aggs| - 1] + [last];
    if agg != last {
      SummaryMapAt(series, aggs[..|aggs| - 1], agg);
    }
  }

  /** The summary's value for sum, minimum or maximum is that of the cell values, each taken
      with the leading aggregation, whatever the order of the groups. */
  lemma SummaryFolds(kind: Kind, agg: Aggregator, points: seq<Point>, groupBy: seq<string>, trunc: int -> int,
                     aggs: seq<Aggregator>, series: seq<Series>, cells: seq<Cell>)
    requires points != [] && SeriesOf(points, groupBy, trunc, aggs, series)
    requires agg in aggs && KindOf(agg) == Some(kind)
    requires Enumerates(cells, KeySet(points, ByCell(groupBy, trunc)))
    ensures var m := SummaryOf(series, aggs).aggregations;
            agg in m && m[agg] == Total(kind, Mapped(cells, CellValue(points, groupBy, trunc, aggs)))
  {
    var val, names := CellValue(points, groupBy, trunc, aggs), Names(series);
    var parts := PartValues(kind, cells, val, Group(), names);
    forall i | 0 <= i < |series|
      ensures SeriesValue(agg, series[i]) == Some(parts[i])
    {
      SeriesIsCells(kind, series[i], points, groupBy, trunc, aggs, cells);
      StatisticTotals(series[i].points);
      StatisticOf(kind, agg, series[i]);
    }
    SeriesValuesAre(agg, series, parts);
    GroupsOfCells(points, groupBy, trunc, cells);
    PartitionFold(kind, cells, val, Group(), names);
    FirstKeyOccurs(points, ByGroup(groupBy));
    AggregateOf(kind, agg, parts);
    SummaryMapAt(series, aggs, agg);
  }

  lemma StatisticOf(kind: Kind, agg: Aggregator, s: Series)
    requires KindOf(agg) == Some(kind)
    requires s.statistics.sum == Total(Sum, Values(s.points))
    requires s.statistics.min == Total(Min, Values(s.points))
    requires s.statistics.max == Total(Max, Values(s.points))
    ensures SeriesValue(agg, s) == Some(Total(kind, Values(s.points)))
  {
  }

  lemma AggregateOf(kind: Kind, agg: Aggregator, values: seq<real>)
    requires KindOf(agg) == Some(kind)
    ensures Aggregate(agg, values) == Total(kind, values)
  {
  }

  lemma {:induction false} LeadingValue(agg: Aggregator, aggs: seq<Aggregator>, values: seq<real>)
    requires Leads(agg, aggs)
    ensures BucketValue(aggs, values) == Aggregate(agg, values) && agg in aggs
  {
    if aggs[0].AggOther? {
      LeadingValue(agg, aggs[1..], values);
    }
  }

  /** Cells whose values are sums, minima or maxima fold to the fold of all points. */
  lemma CellsFold(kind: Kind, agg: Aggregator, points: seq<Point>, groupBy: seq<string>, trunc: int -> int,
                  aggs: seq<Aggregator>, cells: seq<Cell>)
    requires Enumerates(cells, KeySet(points, ByCell(groupBy, trunc)))
    requires Leads(agg, aggs) && KindOf(agg) == Some(kind)
    ensures Folded(kind, Mapped(cells, CellValue(points, groupBy, trunc, aggs))) == Folded(kind, Values(points))
  {
    var key, val := ByCell(groupBy, trunc), CellValue(points, groupBy, trunc, aggs);
    forall i | 0 <= i < |cells|
      ensures val(cells[i]) == PartValues(kind, points, ValueOf, key, cells)[i]
    {
      var values := Values(CellPoints(points, groupBy, trunc, cells[i]));
      LeadingValue(agg, aggs, values);
      AggregateOf(kind, agg, values);
    }
    assert Mapped(cells, val) == PartValues(kind, points, ValueOf, key, cells);
    PartitionFold(kind, points, ValueOf, key, cells);
  }

  /** With sum, minimum or maximum leading the aggregations, the summary's value for it
      is that of all raw points, whatever the grouping keys and the granularity. */
  lemma SummaryPreserves(kind: Kind, agg: Aggregator, points: seq<Point>, groupBy: seq<string>, trunc: int -> int,
                         aggs: seq<Aggregator>, series: seq<Series>)
    requires points != [] && SeriesOf(points, groupBy, trunc, aggs, series)
    requires Leads(agg, aggs) && KindOf(agg) == Some(kind)
    ensures var m := SummaryOf(series, aggs).aggregations; agg in m && m[agg] == Total(kind, Values(points))
  {
    var cells := SomeOrder(KeySet(points, ByCell(groupBy, trunc)));
    LeadingValue(agg, aggs, []);
    SummaryFolds(kind, agg, points, groupBy, trunc, aggs, series, cells);
    CellsFold(kind, agg, points, groupBy, trunc, aggs, cells);
    FoldedTotal(kind, Mapped(cells, CellValue(points, groupBy, trunc, aggs)), Values(points));
  }

  lemma FoldedTotal(kind: Kind, v: seq<real>, w: seq<real>)
    requires Folded(kind, v) == Folded(kind, w)
    ensures Total(kind, v) == Total(kind, w)
  {
  }

  // ----- The same where another aggregation leads

  lemma {:induction false} SumOfSizes(values: seq<real>, points: seq<Point>, key: Point -> Cell, cells: seq<Cell>)
    requires |values| == |cells|
    requires forall i :: 0 <= i < |cells| ==> values[i] == |Select(points, key, cells[i])| as real
    ensures Total(Sum, values) == PartSizes(points, key, cells) as real
  {
    if cells != [] {
      SumOfSizes(values[1..], points, key, cells[1..]);
      TotalCons(values);
    }
  }

  lemma TotalCons(values: seq<real>)
    requires values != []
    ensures Total(Sum, values) == values[0] + Total(Sum, values[1..])
  {
  }

  lemma CountValue(aggs: seq<Aggregator>, values: seq<real>)
    requires Leads(AggCount, aggs)
    ensures BucketValue(aggs, values) == |values| as real
  {
    LeadingValue(AggCount, aggs, values);
  }

  /** Counted cells add up to the number of points. */
  lemma CountedCells(points: seq<Point>, groupBy: seq<string>, trunc: int -> int, aggs: seq<Aggregator>,
                     cells: seq<Cell>)
    requires Enumerates(cells, KeySet(points, ByCell(groupBy, trunc))) && Leads(AggCount, aggs)
    ensures Total(Sum, Mapped(cells, CellValue(points, groupBy, trunc, aggs))) == |points| as real
  {
    var key, val := ByCell(groupBy, trunc), CellValue(points, groupBy, trunc, aggs);
    forall i | 0 <= i < |cells|
      ensures Mapped(cells, val)[i] == |Select(points, key, cells[i])| as real
    {
      CountValue(aggs, Values(CellPoints(points, groupBy, trunc, cells[i])));
    }
    SumOfSizes(Mapped(cells, val), points, key, cells);
    PartitionFold(Sum, points, ValueOf, key, cells);
  }

  /** With counting in the lead, the sum in the summary is the number of raw points. */
  lemma CountLeads(points: seq<Point>, groupBy: seq<string>, trunc: int -> int, aggs: seq<Aggregator>,
                   series: seq<Series>)
    requires points != [] && SeriesOf(points, groupBy, trunc, aggs, series)
    requires Leads(AggCount, aggs) && AggSum in aggs
    ensures var m := SummaryOf(series, aggs).aggregations; AggSum in m && m[AggSum] == |points| as real
  {
    var cells := SomeOrder(KeySet(points, ByCell(groupBy, trunc)));
    SummaryFolds(Sum, AggSum, points, groupBy, trunc, aggs, series, cells);
    CountedCells(points, groupBy, trunc, aggs, cells);
  }

  /** Aggregations that stay within the range of the values. */
  predicate StaysInRange(agg: Aggregator) {
    agg in [AggAvg, AggMin, AggMax, AggP95, AggP99]
  }

  lemma AggregateInRange(agg: Aggregator, values: seq<real>)
    requires values != [] && StaysInRange(agg)
    ensures Total(Min, values) <= Aggregate(agg, values) <= Total(Max, values)
  {
    ExtremesBound(values);
    match agg
    case AggAvg => MeanBounds(values);
    case AggP95 => PercentileInRange(values, 0.95);
    case AggP99 => PercentileInRange(values, 0.99);
    case _ =>
  }

  /** Every cell of the points holds some point, and only raw values. */
  lemma CellOccurs(points: seq<Point>, groupBy: seq<string>, trunc: int -> int, c: Cell)
    requires c in KeySet(points, ByCell(groupBy, trunc))
    ensures CellPoints(points, groupBy, trunc, c) != []
    ensures forall x :: x in Values(CellPoints(points, groupBy, trunc, c)) ==> x in Values(points)
  {
    SelectNothing(points, ByCell(groupBy, trunc), c);
    SelectMember(points, ByCell(groupBy, trunc), c);
    var part := CellPoints(points, groupBy, trunc, c);
    forall x | x in Values(part)
      ensures x in Values(points)
    {
      var i :| 0 <= i < |part| && part[i].value == x;
      assert part[i] in points;
      var j :| 0 <= j < |points| && points[j] == part[i];
      assert Values(points)[j] == x;
    }
  }

  /** The value of a cell, under an aggregation that stays in range, is within the range of the raw values. */
  lemma CellInRange(lead: Aggregator, points: seq<Point>, groupBy: seq<string>, trunc: int -> int,
                    aggs: seq<Aggregator>, c: Cell)
    requires points != [] && c in KeySet(points, ByCell(groupBy, trunc)) && Leads(lead, aggs) && StaysInRange(lead)
    ensures Total(Min, Values(points)) <= CellValue(points, groupBy, trunc, aggs)(c) <= Total(Max, Values(points))
  {
    var values := Values(CellPoints(points, groupBy, trunc, c));
    CellOccurs(points, groupBy, trunc, c);
    LeadingValue(lead, aggs, values);
    AggregateInRange(lead, values);
    ExtremesBound(values);
    ExtremesBound(Values(points));
  }

  /** A fold to an extreme that bounds all values reaches it exactly if one of the values does. */
  lemma ReachesIff(kind: Kind, cells: seq<Cell>, val: Cell -> real, x: real)
    requires cells != [] && kind != Sum
    requires forall i :: 0 <= i < |cells| ==> if kind == Min then x <= val(cells[i]) else val(cells[i]) <= x
    ensures Total(kind, Mapped(cells, val)) == x <==> exists c :: c in cells && val(c) == x
  {
    var values := Mapped(cells, val);
    ExtremesBoundAll(values);
    var j :| 0 <= j < |values| && values[j] == Total(kind, values);
    assert val(cells[j]) == values[j];
    if c :| c in cells && val(c) == x {
      var i :| 0 <= i < |cells| && cells[i] == c;
      assert values[i] == x;
    }
  }

  /** The leading value of some cell is `x`. */
  ghost predicate SomeCellValue(points: seq<Point>, groupBy: seq<string>, trunc: int -> int, aggs: seq<Aggregator>,
                                x: real)
  {
    exists c :: c in KeySet(points, ByCell(groupBy, trunc)) && CellValue(points, groupBy, trunc, aggs)(c) == x
  }

  /** With an average, extreme or percentile in the lead, the minimum or maximum in the summary
      is the raw one exactly if the leading value of some cell is. */
  lemma ExtremeSurvivesIff(kind: Kind, agg: Aggregator, lead: Aggregator, points: seq<Point>, groupBy: seq<string>,
                           trunc: int -> int, aggs: seq<Aggregator>, series: seq<Series>)
    requires points != [] && SeriesOf(points, groupBy, trunc, aggs, series)
    requires Leads(lead, aggs) && StaysInRange(lead) && agg in aggs && KindOf(agg) == Some(kind) && kind != Sum
    ensures var m, x := SummaryOf(series, aggs).aggregations, Total(kind, Values(points));
            agg in m && (m[agg] == x <==> SomeCellValue(points, groupBy, trunc, aggs, x))
  {
    var key, val := ByCell(groupBy, trunc), CellValue(points, groupBy, trunc, aggs);
    var cells := SomeOrder(KeySet(points, key));
    var x := Total(kind, Values(points));
    SummaryFolds(kind, agg, points, groupBy, trunc, aggs, series, cells);
    FirstKeyOccurs(points, key);
    forall i | 0 <= i < |cells|
      ensures if kind == Min then x <= val(cells[i]) else val(cells[i]) <= x
    {
      CellInRange(lead, points, groupBy, trunc, aggs, cells[i]);
    }
    ReachesIff(kind, cells, val, x);
  }

  /** An average or opposite extreme takes an extreme value exactly if all values do. */
  lemma ConstantIff(kind: Kind, lead: Aggregator, values: seq<real>, x: real)
    requires values != [] && kind != Sum && lead in [AggAvg, AggMin, AggMax] && KindOf(lead) != Some(kind)
    requires forall i :: 0 <= i < |values| ==> if kind == Min then x <= values[i] else values[i] <= x
    ensures Aggregate(lead, values) == x <==> forall i :: 0 <= i < |values| ==> values[i] == x
  {
    ExtremesBoundAll(values);
    if lead == AggAvg {
      MeanReachesIff(values, x, kind == Min);
    }
  }

  predicate CellIs(points: seq<Point>, groupBy: seq<string>, trunc: int -> int, c: Cell, x: real) {
    var values := Values(CellPoints(points, groupBy, trunc, c));
    forall i :: 0 <= i < |values| ==> values[i] == x
  }

  /** All points of some group and bucket have the value `x`. */
  ghost predicate SomeConstantCell(points: seq<Point>, groupBy: seq<string>, trunc: int -> int, x: real) {
    exists c :: c in KeySet(points, ByCell(groupBy, trunc)) && CellIs(points, groupBy, trunc, c, x)
  }

  lemma ExtremeCellIff(kind: Kind, lead: Aggregator, points: seq<Point>, groupBy: seq<string>, trunc: int -> int,
                       aggs: seq<Aggregator>, c: Cell)
    requires c in KeySet(points, ByCell(groupBy, trunc)) && points != [] && Leads(lead, aggs)
    requires kind != Sum && lead in [AggAvg, AggMin, AggMax] && KindOf(lead) != Some(kind)
    ensures var x := Total(kind, Values(points));
            CellValue(points, groupBy, trunc, aggs)(c) == x <==> CellIs(points, groupBy, trunc, c, x)
  {
    var values := Values(CellPoints(points, groupBy, trunc, c));
    CellOccurs(points, groupBy, trunc, c);
    LeadingValue(lead, aggs, values);
    ExtremesBound(Values(points));
    assert forall i :: 0 <= i < |values| ==> values[i] in values;
    ConstantIff(kind, lead, values, Total(kind, Values(points)));
  }

  lemma ConstantCellIff(kind: Kind, lead: Aggregator, points: seq<Point>, groupBy: seq<string>, trunc: int -> int,
                        aggs: seq<Aggregator>, x: real)
    requires points != [] && Leads(lead, aggs) && x == Total(kind, Values(points))
    requires kind != Sum && lead in [AggAvg, AggMin, AggMax] && KindOf(lead) != Some(kind)
    ensures SomeCellValue(points, groupBy, trunc, aggs, x) <==> SomeConstantCell(points, groupBy, trunc, x)
  {
    forall c | c in KeySet(points, ByCell(groupBy, trunc))
      ensures CellValue(points, groupBy, trunc, aggs)(c) == x <==> CellIs(points, groupBy, trunc, c, x)
    {
      ExtremeCellIff(kind, lead, points, groupBy, trunc, aggs, c);
    }
  }

  /** With the average or the opposite extreme in the lead, the raw extreme survives exactly if
      some group and bucket hold nothing but points of that value. */
  lemma ExtremeNeedsConstantCell(kind: Kind, agg: Aggregator, lead: Aggregator, points: seq<Point>,
                                 groupBy: seq<string>, trunc: int -> int, aggs: seq<Aggregator>, series: seq<Series>)
    requires points != [] && SeriesOf(points, groupBy, trunc, aggs, series)
    requires agg in aggs && KindOf(agg) == Some(kind) && kind != Sum
    requires Leads(lead, aggs) && lead in [AggAvg, AggMin, AggMax] && KindOf(lead) != Some(kind)
    ensures var m, x := SummaryOf(series, aggs).aggregations, Total(kind, Values(points));
            agg in m && (m[agg] == x <==> SomeConstantCell(points, groupBy, trunc, x))
  {
    ExtremeSurvivesIff(kind, agg, lead, points, groupBy, trunc, aggs, series);
    ConstantCellIff(kind, lead, points, groupBy, trunc, aggs, Total(kind, Values(points)));
  }

  /** Where no two points share a group and a bucket, the summary holds the raw sum, minimum and
      maximum also under a leading average or percentile. */
  lemma SingletonsPreserve(kind: Kind, agg: Aggregator, lead: Aggregator, points: seq<Point>, groupBy: seq<string>,
                           trunc: int -> int, aggs: seq<Aggregator>, series: seq<Series>)
    requires points != [] && SeriesOf(points, groupBy, trunc, aggs, series)
    requires agg in aggs && KindOf(agg) == Some(kind) && Leads(lead, aggs) && (StaysInRange(lead) || lead == AggSum)
    requires forall c :: |CellPoints(points, groupBy, trunc, c)| <= 1
    ensures var m := SummaryOf(series, aggs).aggregations; agg in m && m[agg] == Total(kind, Values(points))
  {
    var key, val := ByCell(groupBy, trunc), CellValue(points, groupBy, trunc, aggs);
    var cells := SomeOrder(KeySet(points, key));
    SummaryFolds(kind, agg, points, groupBy, trunc, aggs, series, cells);
    forall i | 0 <= i < |cells|
      ensures val(cells[i]) == PartValues(kind, points, ValueOf, key, cells)[i]
    {
      var values := Values(CellPoints(points, groupBy, trunc, cells[i]));
      CellOccurs(points, groupBy, trunc, cells[i]);
      LeadingValue(lead, aggs, values);
      AggregateOfOne(lead, kind, values);
    }
    assert Mapped(cells, val) == PartValues(kind, points, ValueOf, key, cells);
    PartitionFold(kind, points, ValueOf, key, cells);
    FoldedTotal(kind, Mapped(cells, val), Values(points));
  }

  lemma AggregateOfOne(lead: Aggregator, kind: Kind, values: seq<real>)
    requires |values| == 1 && (StaysInRange(lead) || lead == AggSum)
    ensures Aggregate(lead, values) == Total(kind, values)
  {
    TotalOfOne(Sum, values);
    TotalOfOne(Min, values);
    TotalOfOne(Max, values);
    if lead != AggSum {
      AggregateInRange(lead, values);
    }
  }

  lemma TotalOfOne(kind: Kind, values: seq<real>)
    requires |values| == 1
    ensures Total(kind, values) == values[0]
  {
    assert values[1..] == [];
  }

  // ----- What else the summary and the query tell

  lemma {:induction false} SingleParts(cells: seq<Cell>, part: seq<Cell>, g: string, times: seq<int>)
    requires forall i, j :: 0 <= i < j < |cells| ==> cells[i] != cells[j]
    requires part == Select(cells, Group(), g)
    requires forall t :: t in times ==> t in KeySet(part, Bucket())
    ensures PartSizes(part, Bucket(), times) == |times|
  {
    if times != [] {
      SelectNothing(part, Bucket(), times[0]);
      SelectOnce(cells, (g, times[0]));
      SingleParts(cells, part, g, times[1..]);
    }
  }

  /** A series has one point per cell of its group. */
  lemma SeriesSize(s: Series, points: seq<Point>, groupBy: seq<string>, trunc: int -> int, aggs: seq<Aggregator>,
                   cells: seq<Cell>)
    requires Enumerates(cells, KeySet(points, ByCell(groupBy, trunc)))
    requires SeriesBuilt(s, Select(points, ByGroup(groupBy), s.name), trunc, aggs)
    ensures |s.points| == |Select(cells, Group(), s.name)|
  {
    var part, times := Select(cells, Group(), s.name), Times(s.points);
    BucketsOfCells(points, groupBy, trunc, cells, s.name);
    PartitionFold(Sum, part, CellValue(points, groupBy, trunc, aggs), Bucket(), times);
    SingleParts(cells, part, s.name, times);
  }

  lemma {:induction false} PointCountIs(series: seq<Series>, cells: seq<Cell>)
    requires forall i :: 0 <= i < |series| ==> |series[i].points| == |Select(cells, Group(), series[i].name)|
    ensures PointCount(series) == PartSizes(cells, Group(), Names(series))
  {
    if series != [] {
      PointCountIs(series[1..], cells);
      assert Names(series)[1..] == Names(series[1..]);
    }
  }

  /** The summary counts the groups that occur and the cells that occur. */
  lemma SummaryCounts(points: seq<Point>, groupBy: seq<string>, trunc: int -> int, aggs: seq<Aggregator>,
                      series: seq<Series>)
    requires SeriesOf(points, groupBy, trunc, aggs, series)
    ensures SummaryOf(series, aggs).totalSeries == |KeySet(points, ByGroup(groupBy))|
    ensures SummaryOf(series, aggs).totalDataPoints == |KeySet(points, ByCell(groupBy, trunc))|
  {
    var cells := SomeOrder(KeySet(points, ByCell(groupBy, trunc)));
    EnumerationSize(cells, KeySet(points, ByCell(groupBy, trunc)));
    EnumerationSize(Names(series), KeySet(points, ByGroup(groupBy)));
    forall i | 0 <= i < |series|
      ensures |series[i].points| == |Select(cells, Group(), series[i].name)|
    {
      SeriesSize(series[i], points, groupBy, trunc, aggs, cells);
    }
    PointCountIs(series, cells);
    GroupsOfCells(points, groupBy, trunc, cells);
    PartitionFold(Sum, cells, CellValue(points, groupBy, trunc, aggs), Group(), Names(series));
  }

  function Averages(series: seq<Series>): (r: seq<real>)
    ensures |r| == |series| && forall i :: 0 <= i < |r| ==> r[i] == series[i].statistics.avg
  {
    seq(|series|, i requires 0 <= i < |series| => series[i].statistics.avg)
  }

  /** The summary's average shares out the sum of the averages of the series evenly, however many points they have. */
  lemma SummaryAverage(series: seq<Series>, aggs: seq<Aggregator>, n: nat)
    requires n == |series| > 0 && AggAvg in aggs
    ensures var m := SummaryOf(series, aggs).aggregations;
            AggAvg in m && Multiple(n, m[AggAvg]) == Total(Sum, Averages(series))
  {
    SeriesValuesAre(AggAvg, series, Averages(series));
    SummaryMapAt(series, aggs, AggAvg);
    AverageOf(Averages(series), n);
  }

  lemma AverageOf(values: seq<real>, n: nat)
    requires n == |values| > 0
    ensures Multiple(n, Aggregate(AggAvg, values)) == Total(Sum, values)
  {
  }

  /** Only what is asked for, and known to the series, is in the summary. */
  lemma {:induction false} SummaryHolds(series: seq<Series>, aggs: seq<Aggregator>, agg: Aggregator)
    ensures agg in SummaryMap(series, aggs) <==>
              agg in aggs && series != [] && (agg.AggSum? || agg.AggAvg? || agg.AggMin? || agg.AggMax?)
  {
    if aggs != [] {
      var front, last := aggs[..|aggs| - 1], aggs[|aggs| - 1];
      SummaryHolds(series, front, agg);
      SeriesValuesSome(last, series);
      assert aggs == front + [last];
    }
  }

  lemma {:induction false} SeriesValuesSome(agg: Aggregator, series: seq<Series>)
    ensures SeriesValues(agg, series) != [] <==>
              series != [] && (agg.AggSum? || agg.AggAvg? || agg.AggMin? || agg.AggMax?)
  {
    if series != [] {
      SeriesValuesSome(agg, series[..|series| - 1]);
    }
  }

  /** A bucket whose query names no known aggregation has the value zero. */
  lemma {:induction false} NoLeader(aggs: seq<Aggregator>, values: seq<real>)
    requires forall agg :: agg in aggs ==> agg.AggOther?
    ensures BucketValue(aggs, values) == 0.0
  {
    if aggs != [] {
      NoLeader(aggs[1..], values);
    }
  }

  /** Which queries are refused, and what one that names no aggregation asks for. */
  lemma QueryRefusals(startTime: int, endTime: int, granularity: string, aggs: seq<Aggregator>)
    ensures RefusalOf(startTime, endTime, granularity) == Some(InvalidTimeRange) <==>
              startTime == 0 || endTime == 0 || endTime < startTime
    ensures RefusalOf(startTime, endTime, granularity).None? <==>
              startTime != 0 && endTime != 0 && startTime <= endTime &&
              (|| granularity == "minute" || granularity == "hour" || granularity == "day" || granularity == "week"
               || granularity == "month" || granularity == "quarter" || granularity == "year")
    ensures Asked(aggs) != [] && (aggs == [] ==> Leads(AggAvg, Asked(aggs))) && (aggs != [] ==> Asked(aggs) == aggs)
  {
  }

  // ----- Conservation of points

  function CountTotal(points: seq<Point>): int {
    if points == [] then 0 else points[0].count + CountTotal(points[1..])
  }

  function SeriesCounts(series: seq<Series>): int {
    if series == [] then 0 else CountTotal(series[0].points) + SeriesCounts(series[1..])
  }

  lemma {:induction false} CountsAreSizes(points: seq<Point>, trunc: int -> int, aggs: seq<Aggregator>, r: seq<Point>)
    requires forall i :: 0 <= i < |r| ==> r[i] == BucketPoint(points, trunc, aggs, r[i].timestamp)
    ensures CountTotal(r) == PartSizes(points, ByBucket(trunc), Times(r))
  {
    if r != [] {
      CountsAreSizes(points, trunc, aggs, r[1..]);
      assert Times(r)[1..] == Times(r[1..]);
    }
  }

  lemma {:induction false} SeriesCountsAreSizes(points: seq<Point>, groupBy: seq<string>, trunc: int -> int,
                                                aggs: seq<Aggregator>, series: seq<Series>)
    requires forall i :: 0 <= i < |series| ==>
               SeriesBuilt(series[i], Select(points, ByGroup(groupBy), series[i].name), trunc, aggs)
    ensures SeriesCounts(series) == PartSizes(points, ByGroup(groupBy), Names(series))
  {
    if series != [] {
      var s := series[0];
      var part := Select(points, ByGroup(groupBy), s.name);
      SeriesCountsAreSizes(points, groupBy, trunc, aggs, series[1..]);
      assert Names(series)[1..] == Names(series[1..]);
      CountsAreSizes(part, trunc, aggs, s.points);
      PartitionFold(Sum, part, ValueOf, ByBucket(trunc), Times(s.points));
    }
  }

  /** Every point has its bucket, a bucket has points, and what stands for them bears no metadata. */
  lemma BucketsTell(points: seq<Point>, trunc: int -> int, aggs: seq<Aggregator>, r: seq<Point>)
    requires Bucketed(points, trunc, aggs, r)
    ensures forall p :: p in points ==> exists i :: 0 <= i < |r| && r[i].timestamp == trunc(p.timestamp)
    ensures forall i :: 0 <= i < |r| ==>
              && r[i].count > 0 && r[i].metadata == map[]
              && exists p :: p in points && trunc(p.timestamp) == r[i].timestamp
  {
    forall p | p in points
      ensures exists i :: 0 <= i < |r| && r[i].timestamp == trunc(p.timestamp)
    {
      assert ByBucket(trunc)(p) in Times(r);
    }
    forall i | 0 <= i < |r|
      ensures r[i].count > 0 && r[i].metadata == map[]
      ensures exists p :: p in points && trunc(p.timestamp) == r[i].timestamp
    {
      assert Times(r)[i] in Times(r);
      SelectNothing(points, ByBucket(trunc), r[i].timestamp);
    }
  }

  /** Bucket counts over all series add up to the number of raw points, and every
      series runs strictly forward in time. */
  lemma PointsConserved(points: seq<Point>, groupBy: seq<string>, trunc: int -> int, aggs: seq<Aggregator>,
                        series: seq<Series>)
    requires SeriesOf(points, groupBy, trunc, aggs, series)
    ensures SeriesCounts(series) == |points|
    ensures forall s :: s in series ==> StrictlyIncreasing(Times(s.points))
  {
    SeriesCountsAreSizes(points, groupBy, trunc, aggs, series);
    PartitionFold(Sum, points, ValueOf, ByGroup(groupBy), Names(series));
  }
}
