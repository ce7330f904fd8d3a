/** What the selections of ha/loadbalance.go pick among the backends, algorithm by algorithm. */
module SelectionLaws {
  import opened LoadBalanceModel
  import opened Wrappers

  // ----- Who is selectable

  predicate Selectable(v: View, minScore: int) {
    v.isActive && minScore <= v.healthScore && (v.maxConnections == 0 || v.connections < v.maxConnections)
  }

  /** The backends selected from are the selectable ones, in the order of the list. */
  lemma FitsInOrder(vs: seq<View>, minScore: int)
    ensures forall v :: v in Fit(vs, minScore) <==> v in vs && Selectable(v, minScore)
    ensures vs == [] ==> Fit(vs, minScore) == []
    ensures forall i {:trigger vs[..i]} :: 0 <= i < |vs| ==>
              Fit(vs[..i + 1], minScore) == Fit(vs[..i], minScore) + if Selectable(vs[i], minScore) then [vs[i]] else []
  {
    forall i {:trigger vs[..i]} | 0 <= i < |vs|
      ensures Fit(vs[..i + 1], minScore) == Fit(vs[..i], minScore) + if Selectable(vs[i], minScore) then [vs[i]] else []
    {
      assert vs[..i + 1][..i] == vs[..i];
    }
  }

  // ----- Single selections

  ghost predicate Source(random: int -> int) {
    forall n :: n > 0 ==> 0 <= random(n) < n
  }

  /** By least connections: the first backend with the fewest, if no count is negative. */
  lemma LeastSelected(vs: seq<View>, counter: nat, random: int -> int)
    requires vs != [] && Source(random) && forall i :: 0 <= i < |vs| ==> vs[i].connections >= 0
    ensures var p := Pick(LeastConnections, vs, counter, random);
            && p.Some?
            && (forall i :: 0 <= i < |vs| ==> vs[p.value].connections <= vs[i].connections)
            && (forall i :: 0 <= i < p.value ==> vs[p.value].connections < vs[i].connections)
  {
    LeastPickFirst(vs);
  }

  lemma {:induction false} LeastPickFirst(vs: seq<View>)
    requires vs != [] && forall i :: 0 <= i < |vs| ==> vs[i].connections >= 0
    ensures IsLeast(vs, LeastPick(vs))
    ensures forall i :: 0 <= i < LeastPick(vs) ==> vs[LeastPick(vs)].connections < vs[i].connections
  {
    var n := |vs| - 1;
    if n > 0 {
      LeastPickFirst(vs[..n]);
      assert forall i :: 0 <= i < n ==> vs[..n][i] == vs[i];
    }
  }

  /** And in general one with the fewest, exactly unless -1 is the least count but not that of the last backend. */
  lemma LeastSelectedIff(vs: seq<View>, counter: nat, random: int -> int)
    requires vs != [] && Source(random)
    ensures var p := Pick(LeastConnections, vs, counter, random);
            p.Some? && ((forall i :: 0 <= i < |vs| ==> vs[p.value].connections <= vs[i].connections) <==> !Mistaken(vs))
  {
    LeastPickIff(vs);
  }

  /** By health: the first backend of the highest positive score; none if no score is positive. */
  lemma BestSelected(vs: seq<View>, counter: nat, random: int -> int)
    requires vs != [] && Source(random)
    ensures var p := Pick(HealthBased, vs, counter, random);
            && (p.None? <==> forall i :: 0 <= i < |vs| ==> vs[i].healthScore <= 0)
            && (p.Some? ==>
                  && vs[p.value].healthScore > 0
                  && (forall i :: 0 <= i < |vs| ==> vs[i].healthScore <= vs[p.value].healthScore)
                  && (forall i :: 0 <= i < p.value ==> vs[i].healthScore < vs[p.value].healthScore))
  {
    HealthPickIsBest(vs);
  }

  /** The random source that draws `d` wherever the bound allows it. */
  function Draws(d: int): int -> int {
    n => if 0 <= d < n then d else 0
  }

  lemma DrawsAreSources()
    ensures forall d :: Source(Draws(d))
  {
  }

  /** The draws below `bound` with which backend `k` is selected. */
  function DrawsFor(algorithm: Algorithm, vs: seq<View>, counter: nat, bound: nat, k: nat): set<int>
    requires vs != []
  {
    DrawsAreSources();
    set d | 0 <= d < bound && Pick(algorithm, vs, counter, Draws(d)) == Some(k)
  }

  /** The sum of the weights, from the front. */
  function WeightSum(vs: seq<View>): int {
    if vs == [] then 0 else vs[0].weight + WeightSum(vs[1..])
  }

  lemma {:induction false} TotalOfTail(vs: seq<View>, n: nat)
    requires vs != [] && n < |vs|
    ensures Total(vs, n + 1) == vs[0].weight + Total(vs[1..], n)
  {
    if n > 0 {
      TotalOfTail(vs, n - 1);
    }
  }

  lemma {:induction false} TotalIsSum(vs: seq<View>)
    ensures Total(vs, |vs|) == WeightSum(vs)
  {
    if vs != [] {
      TotalOfTail(vs, |vs| - 1);
      TotalIsSum(vs[1..]);
    }
  }

  lemma DrawnPick(vs: seq<View>, counter: nat, d: nat)
    requires vs != [] && Total(vs, |vs|) > d
    ensures Source(Draws(d)) && Pick(Weighted, vs, counter, Draws(d)) == Some(WeightedFrom(vs, d, 0))
  {
    DrawsAreSources();
  }

  /** By weight: of the draws below the sum of the weights exactly as many select a backend as its weight says, whatever
      the counter, if no weight is negative. */
  lemma WeightsSelected(vs: seq<View>, counter: nat, k: nat)
    requires k < |vs| && WeightSum(vs) > 0 && forall i :: 0 <= i < |vs| ==> vs[i].weight >= 0
    ensures |DrawsFor(Weighted, vs, counter, WeightSum(vs), k)| == vs[k].weight
  {
    TotalIsSum(vs);
    ShareIsStretch(vs, k);
    DrawsAreSources();
    forall d
      ensures d in DrawsFor(Weighted, vs, counter, WeightSum(vs), k) <==> d in Share(vs, k)
    {
      if 0 <= d < WeightSum(vs) {
        DrawnPick(vs, counter, d);
      }
    }
    assert DrawsFor(Weighted, vs, counter, WeightSum(vs), k) == Share(vs, k);
  }

  /** At random: of the draws below the number of backends exactly one selects each. */
  lemma RandomSelected(vs: seq<View>, counter: nat, k: nat)
    requires k < |vs|
    ensures DrawsFor(Random, vs, counter, |vs|, k) == {k}
  {
    DrawsAreSources();
    forall d
      ensures d in DrawsFor(Random, vs, counter, |vs|, k) <==> d == k
    {
    }
  }

  /** A selection by least connections, by health or at random leaves the counter alone, and so does one by weight if
      there is any. */
  lemma CounterStays(algorithm: Algorithm, vs: seq<View>, counter: nat)
    requires algorithm.LeastConnections? || algorithm.HealthBased? || algorithm.Random? ||
             (algorithm.Weighted? && WeightSum(vs) != 0)
    ensures NextCounter(algorithm, vs, counter) == counter
  {
    TotalIsSum(vs);
  }

  // ----- Successive selections

  /** The counter after `k` selections among the same backends. */
  function CounterAfter(algorithm: Algorithm, vs: seq<View>, counter: nat, k: nat): nat {
    if k == 0 then counter else NextCounter(algorithm, vs, CounterAfter(algorithm, vs, counter, k - 1))
  }

  /** The backend picked by the `k`-th of successive selections. */
  function PickedAt(algorithm: Algorithm, vs: seq<View>, counter: nat, random: int -> int, k: nat): Option<nat>
    requires vs != [] && Source(random)
  {
    Pick(algorithm, vs, CounterAfter(algorithm, vs, counter, k), random)
  }

  /** The algorithms that take the backends in turn: round robin, any unknown one, and by weight if all weight is
      nil. */
  predicate TakesTurns(algorithm: Algorithm, vs: seq<View>) {
    algorithm.RoundRobin? || algorithm.Other? || (algorithm.Weighted? && WeightSum(vs) == 0)
  }

  lemma {:induction false} TurnCounter(algorithm: Algorithm, vs: seq<View>, counter: nat, k: nat)
    requires TakesTurns(algorithm, vs)
    ensures CounterAfter(algorithm, vs, counter, k) == Counter(counter, k, WRAP)
  {
    if k > 0 {
      TurnCounter(algorithm, vs, counter, k - 1);
      TotalIsSum(vs);
    }
  }

  lemma PickedInTurn(algorithm: Algorithm, vs: seq<View>, counter: nat, random: int -> int, k: nat)
    requires TakesTurns(algorithm, vs) && vs != [] && Source(random)
    ensures PickedAt(algorithm, vs, counter, random, k) == Some(Turn(counter, k, |vs|, WRAP))
  {
    TurnCounter(algorithm, vs, counter, k);
    TotalIsSum(vs);
  }

  /** One of as many successive selections as there are backends picks `b`. */
  ghost predicate IsPicked(algorithm: Algorithm, vs: seq<View>, counter: nat, random: int -> int, b: nat)
    requires vs != [] && Source(random)
  {
    exists k: nat :: k < |vs| && PickedAt(algorithm, vs, counter, random, k) == Some(b)
  }

  /** They pick each of them, and none twice. */
  ghost predicate EachOnce(algorithm: Algorithm, vs: seq<View>, counter: nat, random: int -> int)
    requires vs != [] && Source(random)
  {
    && (forall b: nat :: b < |vs| ==> IsPicked(algorithm, vs, counter, random, b))
    && (forall i: nat, j: nat :: i < j < |vs| ==>
          PickedAt(algorithm, vs, counter, random, i) != PickedAt(algorithm, vs, counter, random, j))
  }

  lemma EachOnceIff(algorithm: Algorithm, vs: seq<View>, counter: nat, random: int -> int, n: nat, w: nat)
    requires vs != [] && Source(random) && n == |vs| && w > 0
    requires forall k: nat :: PickedAt(algorithm, vs, counter, random, k) == Some(Turn(counter, k, n, w))
    ensures EachOnce(algorithm, vs, counter, random) <==> FairWindow(counter, n, w)
  {
    if FairWindow(counter, n, w) {
      forall b: nat | b < n
        ensures IsPicked(algorithm, vs, counter, random, b)
      {
        FairWindowCovers(counter, n, w, b);
        var k: nat :| k < n && Turn(counter, k, n, w) == b;
        assert PickedAt(algorithm, vs, counter, random, k) == Some(b);
      }
      forall i: nat, j: nat | i < j < n
        ensures PickedAt(algorithm, vs, counter, random, i) != PickedAt(algorithm, vs, counter, random, j)
      {
        assert Turn(counter, i, n, w) != Turn(counter, j, n, w);
      }
    } else {
      var i: nat, j: nat :| i < j < n && Turn(counter, i, n, w) == Turn(counter, j, n, w);
      assert PickedAt(algorithm, vs, counter, random, i) == PickedAt(algorithm, vs, counter, random, j);
    }
  }

  /** In turn: as many successive selections as there are backends pick each of them once, exactly if the 64-bit counter
      does not wrap among them or its range is a multiple of their number. */
  lemma TurnsSelected(algorithm: Algorithm, vs: seq<View>, counter: nat, random: int -> int)
    requires TakesTurns(algorithm, vs) && 0 < |vs| <= WRAP && counter < WRAP && Source(random)
    ensures EachOnce(algorithm, vs, counter, random) <==> counter + |vs| <= WRAP || WRAP % |vs| == 0
    ensures WRAP == 0x1_0000_0000_0000_0000
  {
    forall k: nat
      ensures PickedAt(algorithm, vs, counter, random, k) == Some(Turn(counter, k, |vs|, WRAP))
    {
      PickedInTurn(algorithm, vs, counter, random, k);
    }
    EachOnceIff(algorithm, vs, counter, random, |vs|, WRAP);
    FairWindowIff(counter, |vs|, WRAP);
  }
}
