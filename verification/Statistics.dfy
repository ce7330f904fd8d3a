/** Series statistics of analytics/engine.go over the reals: sums, extremes and
    interpolated percentiles. */
module Statistics {
  import opened Sorting
  import opened Wrappers

  // ----- Folding with sum, minimum or maximum

  datatype Kind = Sum | Min | Max

  function Combine(kind: Kind, x: real, y: real): real {
    match kind
    case Sum => x + y
    case Min => if y < x then y else x
    case Max => if y > x then y else x
  }

  /** Nothing on one side leaves the other side. */
  function Merge(kind: Kind, x: Option<real>, y: Option<real>): Option<real> {
    if x == None then y
    else if y == None then x
    else Some(Combine(kind, x.value, y.value))
  }

  function Folded(kind: Kind, values: seq<real>): (r: Option<real>)
    ensures r == None <==> values == []
  {
    if values == [] then None else Merge(kind, Some(values[0]), Folded(kind, values[1..]))
  }

  /** The aggregators return zero for no values. */
  function Total(kind: Kind, values: seq<real>): real {
    if values == [] then 0.0 else Folded(kind, values).value
  }

  lemma {:induction false} FoldedSnoc(kind: Kind, values: seq<real>, x: real)
    ensures Folded(kind, values + [x]) == Merge(kind, Folded(kind, values), Some(x))
  {
    if values == [] {
      assert values + [x] == [x];
    } else {
      FoldedSnoc(kind, values[1..], x);
      assert (values + [x])[1..] == values[1..] + [x];
    }
  }

  method SumValues(values: seq<real>) returns (sum: real)
    ensures sum == Total(Sum, values)
  {
    sum := 0.0;
    for i := 0 to |values|
      invariant sum == Total(Sum, values[..i])
    {
      FoldedSnoc(Sum, values[..i], values[i]);
      assert values[..i + 1] == values[..i] + [values[i]];
      sum := sum + values[i];
    }
    assert values[..|values|] == values;
  }

  method MinValue(values: seq<real>) returns (min: real)
    ensures min == Total(Min, values)
  {
    if values == [] {
      return 0.0;
    }
    min := values[0];
    for i := 1 to |values|
      invariant Some(min) == Folded(Min, values[..i])
    {
      FoldedSnoc(Min, values[..i], values[i]);
      assert values[..i + 1] == values[..i] + [values[i]];
      if values[i] < min {
        min := values[i];
      }
    }
    assert values[..|values|] == values;
  }

  method MaxValue(values: seq<real>) returns (max: real)
    ensures max == Total(Max, values)
  {
    if values == [] {
      return 0.0;
    }
    max := values[0];
    for i := 1 to |values|
      invariant Some(max) == Folded(Max, values[..i])
    {
      FoldedSnoc(Max, values[..i], values[i]);
      assert values[..i + 1] == values[..i] + [values[i]];
      if values[i] > max {
        max := values[i];
      }
    }
    assert values[..|values|] == values;
  }

  /** The minimum and maximum are values of the sequence that bound all the others. */
  lemma {:induction false} ExtremesBound(values: seq<real>)
    requires values != []
    ensures Total(Min, values) in values && Total(Max, values) in values
    ensures forall x :: x in values ==> Total(Min, values) <= x <= Total(Max, values)
  {
    if |values| > 1 {
      ExtremesBound(values[1..]);
      assert values == [values[0]] + values[1..];
    } else {
      assert values[1..] == [];
    }
  }

  lemma ExtremesBoundAll(values: seq<real>)
    requires values != []
    ensures forall i :: 0 <= i < |values| ==> Total(Min, values) <= values[i] <= Total(Max, values)
    ensures exists i :: 0 <= i < |values| && values[i] == Total(Min, values)
    ensures exists i :: 0 <= i < |values| && values[i] == Total(Max, values)
  {
    ExtremesBound(values);
    assert forall i :: 0 <= i < |values| ==> values[i] in values;
  }

  function Multiple(n: nat, x: real): real { n as real * x }

  /** How far the sum is from `|values|` times a bound of the values: not at all exactly if all are that bound. */
  lemma {:induction false} SumBound(values: seq<real>, x: real, below: bool)
    requires forall i :: 0 <= i < |values| ==> if below then x <= values[i] else values[i] <= x
    ensures var s, t := Total(Sum, values), Multiple(|values|, x);
            (if below then t <= s else s <= t) && (s == t <==> forall i :: 0 <= i < |values| ==> values[i] == x)
  {
    if values != [] {
      var rest := values[1..];
      SumBound(rest, x, below);
      assert Multiple(|values|, x) == x + Multiple(|rest|, x);
      assert Total(Sum, values) == values[0] + Total(Sum, rest);
      assert forall i :: 0 < i < |values| ==> values[i] == rest[i - 1];
    }
  }

  lemma QuotientCompares(n: nat, s: real, x: real)
    requires n > 0
    ensures (s / n as real == x <==> s == Multiple(n, x)) && (s / n as real <= x <==> s <= Multiple(n, x))
  {
    assert s / n as real * n as real == s;
  }

  /** The mean lies between the extremes. */
  lemma MeanBounds(values: seq<real>)
    requires values != []
    ensures Total(Min, values) <= Total(Sum, values) / |values| as real <= Total(Max, values)
  {
    ExtremesBoundAll(values);
    SumBound(values, Total(Min, values), true);
    SumBound(values, Total(Max, values), false);
    QuotientCompares(|values|, Total(Sum, values), Total(Min, values));
    QuotientCompares(|values|, Total(Sum, values), Total(Max, values));
  }

  /** The mean is a bound of the values exactly if all values are that bound. */
  lemma MeanReachesIff(values: seq<real>, x: real, below: bool)
    requires values != []
    requires forall i :: 0 <= i < |values| ==> if below then x <= values[i] else values[i] <= x
    ensures Total(Sum, values) / |values| as real == x <==> forall i :: 0 <= i < |values| ==> values[i] == x
  {
    SumBound(values, x, below);
    QuotientCompares(|values|, Total(Sum, values), x);
  }

  // ----- Percentiles

  predicate Lt(x: real, y: real) { x < y }

  function Insert(x: real, s: seq<real>): (r: seq<real>)
    ensures Permutation(r, [x] + s)
  {
    if s == [] || x <= s[0] then [x] + s
    else
      assert [x] + s == [x] + ([s[0]] + s[1..]);
      [s[0]] + Insert(x, s[1..])
  }

  lemma SortedCons(x: real, s: seq<real>)
    requires Sorted(Lt, s) && forall y :: y in s ==> x <= y
    ensures Sorted(Lt, [x] + s)
  {
    var r := [x] + s;
    forall i, j | 0 <= i < j < |r|
      ensures !Lt(r[j], r[i])
    {
      if i == 0 {
        assert r[j] == s[j - 1] && s[j - 1] in s;
      } else {
        assert !Lt(s[j - 1], s[i - 1]);
      }
    }
  }

  lemma {:induction false} InsertSorted(x: real, s: seq<real>)
    requires Sorted(Lt, s)
    ensures Sorted(Lt, Insert(x, s))
  {
    forall y | y in s
      ensures s[0] <= y
    {
      var i :| 0 <= i < |s| && s[i] == y;
      assert i == 0 || !Lt(s[i], s[0]);
    }
    if s == [] || x <= s[0] {
      SortedCons(x, s);
    } else {
      InsertSorted(x, s[1..]);
      PermutationMembers(Insert(x, s[1..]), [x] + s[1..]);
      SortedCons(s[0], Insert(x, s[1..]));
    }
  }

  /** The values in increasing order. */
  function Ordered(values: seq<real>): (r: seq<real>)
    ensures Permutation(r, values) && |r| == |values|
  {
    if values == [] then []
    else
      var r := Insert(values[0], Ordered(values[1..]));
      assert [values[0]] + values[1..] == values;
      PermutationMembers(r, values);
      r
  }

  lemma {:induction false} OrderedSorted(values: seq<real>)
    ensures Sorted(Lt, Ordered(values))
  {
    if values != [] {
      OrderedSorted(values[1..]);
      InsertSorted(values[0], Ordered(values[1..]));
    }
  }

  lemma OrderedUnique(s: seq<real>, values: seq<real>)
    requires Sorted(Lt, s) && Permutation(s, values)
    ensures s == Ordered(values)
  {
    OrderedSorted(values);
    SortedUnique(Lt, s, Ordered(values));
  }

  function Ceil(x: real): int { -((-x).Floor) }

  lemma CeilOrFloor(x: real)
    ensures if x == x.Floor as real then Ceil(x) == x.Floor else Ceil(x) == x.Floor + 1
  {
  }

  /** The part `f` of the way from `x` to `y`. */
  function Between(x: real, y: real, f: real): real {
    x + (y - x) * f
  }

  lemma ProductNonnegative(d: real, f: real)
    requires d >= 0.0 && f >= 0.0
    ensures d * f >= 0.0
  {
  }

  lemma BetweenBounds(x: real, y: real, f: real, g: real)
    requires x <= y && 0.0 <= f <= g <= 1.0
    ensures x <= Between(x, y, f) <= Between(x, y, g) <= y
  {
    var d := y - x;
    ProductNonnegative(d, f);
    ProductNonnegative(d, g - f);
    ProductNonnegative(d, 1.0 - g);
    assert d * (g - f) == d * g - d * f;
    assert d * (1.0 - g) == d - d * g;
  }

  /** Linear interpolation between neighbours of a fractional position. */
  function Interpolated(s: seq<real>, index: real): real
    requires s != [] && 0.0 <= index <= (|s| - 1) as real
  {
    CeilOrFloor(index);
    var lower, upper := index.Floor, Ceil(index);
    if lower == upper then s[lower]
    else Between(s[lower], s[upper], index - lower as real)
  }

  /** The fractional position of quantile `p` among `n` ordered values. */
  function Position(n: nat, p: real): (x: real)
    requires n > 0 && 0.0 <= p <= 1.0
    ensures 0.0 <= x <= (n - 1) as real
  {
    BetweenBounds(0.0, (n - 1) as real, p, p);
    p * (n - 1) as real
  }

  function Percentile(values: seq<real>, p: real): real
    requires 0.0 <= p <= 1.0
  {
    if values == [] then 0.0 else Interpolated(Ordered(values), Position(|values|, p))
  }

  method SortedCopy(values: seq<real>) returns (sorted: seq<real>)
    ensures sorted == Ordered(values)
  {
    var a := new real[|values|](i requires 0 <= i < |values| => values[i]);
    assert a[..] == values;
    ExchangeSort(a, Lt);
    sorted := a[..];
    OrderedUnique(sorted, values);
  }

  method Interpolate(sorted: seq<real>, index: real) returns (r: real)
    requires sorted != [] && 0.0 <= index <= (|sorted| - 1) as real
    ensures r == Interpolated(sorted, index)
  {
    CeilOrFloor(index);
    var lower, upper := index.Floor, Ceil(index);
    if lower == upper {
      return sorted[lower];
    }
    return Between(sorted[lower], sorted[upper], index - lower as real);
  }

  method PercentileOf(values: seq<real>, p: real) returns (r: real)
    requires 0.0 <= p <= 1.0
    ensures r == Percentile(values, p)
  {
    if values == [] {
      return 0.0;
    }
    var sorted := SortedCopy(values);
    r := Interpolate(sorted, Position(|values|, p));
  }

  /** Only the multiset of the values matters, not the order in which they come. */
  lemma PercentileOfMultiset(v: seq<real>, w: seq<real>, p: real)
    requires Permutation(v, w) && 0.0 <= p <= 1.0
    ensures Percentile(v, p) == Percentile(w, p)
  {
    PermutationMembers(v, w);
    OrderedSorted(v);
    OrderedUnique(Ordered(v), w);
  }

  /** Between two neighbouring positions the interpolation stays between their values. */
  lemma CellBounds(s: seq<real>, x: real)
    requires s != [] && 0.0 <= x <= (|s| - 1) as real && Sorted(Lt, s)
    ensures 0 <= x.Floor <= Ceil(x) < |s| && s[x.Floor] <= Interpolated(s, x) <= s[Ceil(x)]
  {
    CeilOrFloor(x);
    var l, u := x.Floor, Ceil(x);
    if l != u {
      assert !Lt(s[u], s[l]);
      BetweenBounds(s[l], s[u], x - l as real, x - l as real);
    }
  }

  /** Interpolation is monotone within a cell and across cells. */
  lemma InterpolatedMonotone(s: seq<real>, x: real, y: real)
    requires s != [] && 0.0 <= x <= y <= (|s| - 1) as real && Sorted(Lt, s)
    ensures Interpolated(s, x) <= Interpolated(s, y)
  {
    CeilOrFloor(x);
    CeilOrFloor(y);
    CellBounds(s, x);
    CellBounds(s, y);
    var l := x.Floor;
    if l == y.Floor && Ceil(x) != l && Ceil(y) != l {
      assert !Lt(s[l + 1], s[l]);
      BetweenBounds(s[l], s[l + 1], x - l as real, y - l as real);
    } else if Ceil(x) <= y.Floor {
      assert Ceil(x) == y.Floor || !Lt(s[y.Floor], s[Ceil(x)]);
    }
  }

  lemma PercentileMonotone(values: seq<real>, p: real, q: real)
    requires 0.0 <= p <= q <= 1.0
    ensures Percentile(values, p) <= Percentile(values, q)
  {
    if values != [] {
      OrderedSorted(values);
      BetweenBounds(0.0, (|values| - 1) as real, p, q);
      InterpolatedMonotone(Ordered(values), Position(|values|, p), Position(|values|, q));
    }
  }

  /** The percentiles at 0 and 1 are the minimum and the maximum. */
  lemma PercentileEnds(values: seq<real>)
    requires values != []
    ensures Percentile(values, 0.0) == Total(Min, values)
    ensures Percentile(values, 1.0) == Total(Max, values)
  {
    var s := Ordered(values);
    OrderedSorted(values);
    PermutationMembers(s, values);
    ExtremesBound(values);
    assert s[0] in values && s[|s| - 1] in values;
    var i :| 0 <= i < |s| && s[i] == Total(Min, values);
    var j :| 0 <= j < |s| && s[j] == Total(Max, values);
    assert i == 0 || !Lt(s[i], s[0]);
    assert j == |s| - 1 || !Lt(s[|s| - 1], s[j]);
    assert Position(|s|, 0.0) == 0.0 && Position(|s|, 1.0) == (|s| - 1) as real;
    CellBounds(s, 0.0);
    CellBounds(s, (|s| - 1) as real);
  }

  lemma PercentileInRange(values: seq<real>, p: real)
    requires values != [] && 0.0 <= p <= 1.0
    ensures Total(Min, values) <= Percentile(values, p) <= Total(Max, values)
  {
    PercentileEnds(values);
    PercentileMonotone(values, 0.0, p);
    PercentileMonotone(values, p, 1.0);
  }

  // ----- What percentiles are

  /** `t` holds the values in increasing order. */
  ghost predicate Ranks(t: seq<real>, values: seq<real>) {
    Sorted(Lt, t) && Permutation(t, values)
  }

  /** The point that divides the gap between two values as `f` to `1 - f`. */
  function Divided(x: real, y: real, f: real): real {
    (1.0 - f) * x + f * y
  }

  lemma DividedBetween(x: real, y: real, f: real)
    ensures Between(x, y, f) == Divided(x, y, f)
    ensures f == 0.0 ==> Divided(x, y, f) == x
    ensures f == 1.0 ==> Divided(x, y, f) == y
  {
    assert (y - x) * f == f * y - f * x;
  }

  lemma FloorOf(k: int, f: real)
    requires 0.0 <= f < 1.0
    ensures (k as real + f).Floor == k
    ensures Ceil(k as real + f) == if f == 0.0 then k else k + 1
  {
    CeilOrFloor(k as real + f);
  }

  /** Between two positions the interpolation divides the gap of the neighbours. */
  lemma InterpolatedAt(s: seq<real>, k: nat, f: real)
    requires k + 1 < |s| && 0.0 <= f <= 1.0
    ensures Interpolated(s, k as real + f) == Divided(s[k], s[k + 1], f)
  {
    DividedBetween(s[k], s[k + 1], f);
    if f == 1.0 {
      FloorOf(k + 1, 0.0);
      assert k as real + f == (k + 1) as real + 0.0;
    } else {
      FloorOf(k, f);
    }
  }

  /** The quantile with `k` whole gaps and the part `f` of the next below it, among `n` values. */
  predicate Splits(n: nat, p: real, k: nat, f: real) {
    k + 1 < n && 0.0 <= f <= 1.0 && p * (n - 1) as real == k as real + f
  }

  lemma RankedPercentile(values: seq<real>, t: seq<real>, p: real, x: real)
    requires Ranks(t, values) && 0.0 <= p <= 1.0 && t != [] && x == Position(|t|, p)
    ensures Percentile(values, p) == Interpolated(t, x)
  {
    OrderedUnique(t, values);
  }

  /** A percentile divides the gap between two neighbours in rank, in the ratio in which the quantile divides the
      gap between theirs; at the quantile of a rank it is the value of that rank. */
  lemma PercentileInterpolates(values: seq<real>, t: seq<real>, p: real, k: nat, f: real)
    requires Ranks(t, values) && 0.0 <= p <= 1.0 && Splits(|t|, p, k, f)
    ensures Percentile(values, p) == Divided(t[k], t[k + 1], f)
    ensures f == 0.0 ==> Percentile(values, p) == t[k]
    ensures f == 1.0 ==> Percentile(values, p) == t[k + 1]
  {
    var x := Position(|t|, p);
    assert x == k as real + f;
    RankedPercentile(values, t, p, x);
    InterpolatedAt(t, k, f);
    DividedBetween(t[k], t[k + 1], f);
  }

  lemma PercentileOfOne(values: seq<real>, t: seq<real>, p: real)
    requires Ranks(t, values) && |t| == 1 && 0.0 <= p <= 1.0
    ensures Percentile(values, p) == t[0]
  {
    var x := Position(|t|, p);
    RankedPercentile(values, t, p, x);
    CellBounds(t, x);
  }

  /** Every quantile among two or more values lies in some gap, so that the law above tells every percentile. */
  lemma SomeSplit(n: nat, p: real) returns (k: nat, f: real)
    requires n > 1 && 0.0 <= p <= 1.0
    ensures Splits(n, p, k, f)
  {
    BetweenBounds(0.0, (n - 1) as real, p, p);
    var x := p * (n - 1) as real;
    if x == (n - 1) as real {
      k, f := n - 2, 1.0;
    } else {
      k, f := x.Floor, x - x.Floor as real;
    }
  }

  /** The median splits the ranks in the middle. */
  lemma OddSplit(n: nat, m: nat)
    requires n == 2 * m + 1 && m > 0
    ensures Splits(n, 0.5, m - 1, 1.0)
  {
    assert (n - 1) as real == 2.0 * m as real;
  }

  lemma EvenSplit(n: nat, m: nat)
    requires n == 2 * m && m > 0
    ensures Splits(n, 0.5, m - 1, 0.5)
  {
    assert (n - 1) as real == 2.0 * m as real - 1.0;
  }

  lemma DividedHalf(x: real, y: real)
    ensures Divided(x, y, 0.5) == (x + y) / 2.0
  {
  }

  /** The percentile at a rank is the value of that rank. */
  lemma PercentileAtRank(values: seq<real>, t: seq<real>, p: real, k: nat)
    requires Ranks(t, values) && 0.0 <= p <= 1.0 && 0 < k < |t| && Splits(|t|, p, k - 1, 1.0)
    ensures Percentile(values, p) == t[k]
  {
    PercentileInterpolates(values, t, p, k - 1, 1.0);
  }

  lemma PercentileHalfway(values: seq<real>, t: seq<real>, p: real, k: nat)
    requires Ranks(t, values) && 0.0 <= p <= 1.0 && Splits(|t|, p, k, 0.5)
    ensures Percentile(values, p) == (t[k] + t[k + 1]) / 2.0
  {
    PercentileInterpolates(values, t, p, k, 0.5);
    DividedHalf(t[k], t[k + 1]);
  }

  /** The median: the middle value of an odd number, the mean of the two middle values of an even number. */
  lemma MedianOfOdd(values: seq<real>, t: seq<real>, m: nat)
    requires Ranks(t, values) && |t| == 2 * m + 1
    ensures Percentile(values, 0.5) == t[m]
  {
    if m == 0 {
      PercentileOfOne(values, t, 0.5);
    } else {
      OddSplit(|t|, m);
      PercentileAtRank(values, t, 0.5, m);
    }
  }

  lemma MedianOfEven(values: seq<real>, t: seq<real>, m: nat)
    requires Ranks(t, values) && |t| == 2 * m && m > 0
    ensures Percentile(values, 0.5) == (t[m - 1] + t[m]) / 2.0
  {
    EvenSplit(|t|, m);
    PercentileHalfway(values, t, 0.5, m - 1);
  }
}
