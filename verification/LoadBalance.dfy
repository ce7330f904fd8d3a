/** Selection of backends: ha/loadbalance.go. */
module LoadBalanceModel {
  import opened Wrappers

  datatype View = View(
    id: string, weight: int, maxConnections: int, connections: int, healthScore: int, isActive: bool)

  /** Everything else, IP hashing included, falls back to round robin. */
  datatype Algorithm = RoundRobin | Weighted | LeastConnections | HealthBased | Random | Other

  /** The round-robin counter is a 64-bit unsigned integer. */
  const WRAP := 0x1_0000_0000_0000_0000

  predicate Healthy(v: View, minScore: int) {
    v.isActive && v.healthScore >= minScore && (v.maxConnections == 0 || v.connections < v.maxConnections)
  }

  /** The healthy ones, in order. */
  function Fit(vs: seq<View>, minScore: int): (r: seq<View>)
    ensures forall v :: v in r <==> v in vs && Healthy(v, minScore)
  {
    if vs == [] then []
    else
      var earlier, last := Fit(vs[..|vs| - 1], minScore), vs[|vs| - 1];
      assert vs == vs[..|vs| - 1] + [last];
      if Healthy(last, minScore) then earlier + [last] else earlier
  }

  // ----- Weighted selection

  /** The weight of the first `n` backends. */
  function Total(vs: seq<View>, n: nat): int
    requires n <= |vs|
  {
    if n == 0 then 0 else Total(vs, n - 1) + vs[n - 1].weight
  }

  /** The first backend, from position `i` on, whose running weight exceeds the draw; the first of all if none does. */
  function WeightedFrom(vs: seq<View>, draw: int, i: nat): (r: nat)
    requires vs != [] && i <= |vs|
    ensures r < |vs|
    decreases |vs| - i
  {
    if i == |vs| then 0 else if draw < Total(vs, i + 1) then i else WeightedFrom(vs, draw, i + 1)
  }

  ghost predicate NonNegative(vs: seq<View>) {
    forall i :: 0 <= i < |vs| ==> vs[i].weight >= 0
  }

  lemma {:induction false} TotalMonotone(vs: seq<View>, m: nat, n: nat)
    requires NonNegative(vs) && m <= n <= |vs|
    ensures 0 <= Total(vs, m) <= Total(vs, n)
    decreases n
  {
    if m < n {
      TotalMonotone(vs, m, n - 1);
    } else if n > 0 {
      TotalMonotone(vs, n - 1, n - 1);
    }
  }

  /** A draw selects the backend in whose stretch of the running total it falls. */
  lemma {:induction false} WeightedStretch(vs: seq<View>, draw: int, i: nat, k: nat)
    requires vs != [] && NonNegative(vs) && i <= k < |vs| && Total(vs, i) <= draw < Total(vs, |vs|)
    ensures WeightedFrom(vs, draw, i) == k <==> Total(vs, k) <= draw < Total(vs, k + 1)
    decreases |vs| - i
  {
    if draw < Total(vs, i + 1) {
      if k > i {
        TotalMonotone(vs, i + 1, k);
      }
    } else {
      if k == i {
        WeightedAfter(vs, draw, i + 1);
      } else {
        WeightedStretch(vs, draw, i + 1, k);
      }
    }
  }

  lemma {:induction false} WeightedAfter(vs: seq<View>, draw: int, i: nat)
    requires vs != [] && i <= |vs| && draw < Total(vs, |vs|) && Total(vs, i) <= draw
    ensures WeightedFrom(vs, draw, i) >= i
    decreases |vs| - i
  {
    if i < |vs| && draw >= Total(vs, i + 1) {
      WeightedAfter(vs, draw, i + 1);
    }
  }

  /** The draws that select backend `k`. */
  function Share(vs: seq<View>, k: nat): set<int>
    requires vs != []
  {
    set draw: int | 0 <= draw < Total(vs, |vs|) && WeightedFrom(vs, draw, 0) == k
  }

  function Interval(lo: int, hi: int): (s: set<int>)
    requires lo <= hi
    ensures |s| == hi - lo && forall x :: x in s <==> lo <= x < hi
    decreases hi - lo
  {
    if lo == hi then {} else Interval(lo, hi - 1) + {hi - 1}
  }

  /** Of all draws below the total, exactly as many select a backend as its weight says; and this
      holds of all backends exactly if no weight is negative. */
  lemma ExactShares(vs: seq<View>)
    requires vs != [] && Total(vs, |vs|) > 0
    ensures (forall k :: 0 <= k < |vs| ==> |Share(vs, k)| == vs[k].weight) <==> NonNegative(vs)
  {
    if NonNegative(vs) {
      forall k | 0 <= k < |vs|
        ensures |Share(vs, k)| == vs[k].weight
      {
        ShareIsStretch(vs, k);
      }
    }
  }

  lemma ShareIsStretch(vs: seq<View>, k: nat)
    requires k < |vs| && NonNegative(vs)
    ensures |Share(vs, k)| == vs[k].weight
    ensures forall draw :: draw in Share(vs, k) <==> Total(vs, k) <= draw < Total(vs, k + 1)
  {
    TotalMonotone(vs, 0, k);
    TotalMonotone(vs, k, k + 1);
    TotalMonotone(vs, k + 1, |vs|);
    var stretch := Interval(Total(vs, k), Total(vs, k + 1));
    forall draw
      ensures draw in Share(vs, k) <==> draw in stretch
    {
      if 0 <= draw < Total(vs, |vs|) {
        WeightedStretch(vs, draw, 0, k);
      }
    }
    assert Share(vs, k) == stretch;
  }

  // ----- Round robin

  /** Adding one to an unsigned counter that wraps at `w`. */
  function Successor(c: nat, w: nat): nat {
    if c + 1 == w then 0 else c + 1
  }

  /** The counter after `k` selections. */
  function Counter(c: nat, k: nat, w: nat): nat
    requires w > 0
  {
    if k == 0 then c else Successor(Counter(c, k - 1, w), w)
  }

  /** The backend, of `n`, that the `k`-th selection from counter `c` on picks. */
  function Turn(c: nat, k: nat, n: nat, w: nat): nat
    requires n > 0 && w > 0
  {
    Counter(c, k, w) % n
  }

  /** The next `n` selections pick no backend twice. */
  ghost predicate FairWindow(c: nat, n: nat, w: nat)
    requires n > 0 && w > 0
  {
    forall i, j :: 0 <= i < j < n ==> Turn(c, i, n, w) != Turn(c, j, n, w)
  }

  /** A window of selections wraps at most once. */
  lemma {:induction false} CounterIs(c: nat, k: nat, w: nat)
    requires c < w && k <= w
    ensures Counter(c, k, w) == if c + k < w then c + k else c + k - w
  {
    if k > 0 {
      CounterIs(c, k - 1, w);
    }
  }

  lemma SmallMod(x: nat, n: nat)
    requires x < n
    ensures x % n == x && n % n == 0
  {
  }

  lemma MultipleIsBig(n: nat, d: int)
    ensures d >= 1 ==> n * d >= n
    ensures d <= -1 ==> n * d <= 0 - n
  {
    if d >= 1 {
      assert n * d == n + n * (d - 1) && n * (d - 1) >= 0;
    } else if d <= -1 {
      assert n * d == 0 - n + n * (d + 1) && n * (d + 1) <= 0;
    }
  }

  lemma MultiplePlus(n: nat, q: nat, r: nat)
    requires n > 0 && r < n
    ensures (n * q + r) % n == r
  {
    var x := n * q + r;
    var d := q - x / n;
    assert n * d == x % n - r by {
      assert x == n * (x / n) + x % n;
      assert n * d == n * q - n * (x / n);
    }
    MultipleIsBig(n, d);
  }

  /** Numbers less than `n` apart leave different remainders. */
  lemma CloseApart(x: nat, y: nat, n: nat)
    requires x < y < x + n
    ensures x % n != y % n
  {
    var d := y / n - x / n;
    assert n * d == (y - y % n) - (x - x % n) by {
      assert x == n * (x / n) + x % n && y == n * (y / n) + y % n;
      assert n * d == n * (y / n) - n * (x / n);
    }
    MultipleIsBig(n, d);
  }

  lemma ModPlus(x: nat, y: nat, n: nat)
    requires n > 0 && y % n == 0
    ensures (x + y) % n == x % n
  {
    var q := x / n + y / n;
    assert x + y == n * q + x % n by {
      assert x == n * (x / n) + x % n && y == n * (y / n);
      assert n * q == n * (x / n) + n * (y / n);
    }
    MultiplePlus(n, q, x % n);
  }

  /** If the range of the counter is a multiple of `n`, wrapping does not matter. */
  lemma TurnWithoutWrap(c: nat, k: nat, n: nat, w: nat)
    requires c < w && k < n <= w && (c + k < w || w % n == 0)
    ensures Turn(c, k, n, w) == (c + k) % n
  {
    CounterIs(c, k, w);
    if c + k >= w {
      ModPlus(c + k - w, w, n);
    }
  }

  /** Two selections around an uneven wrap that pick the same backend. */
  lemma WrapCollides(c: nat, n: nat, w: nat) returns (i: nat, j: nat)
    requires c < w && 0 < n <= w && c + n > w && w % n != 0
    ensures i < j < n && Turn(c, i, n, w) == Turn(c, j, n, w)
  {
    var left, r, q := w - c, w % n, w / n;
    assert w == n * q + r;
    if r <= left {
      i, j := left - r, left;
      MultiplePlus(n, q, 0);
    } else {
      i, j := 0, r;
      MultiplePlus(n, q, r - left);
      SmallMod(r - left, n);
    }
    CounterIs(c, i, w);
    CounterIs(c, j, w);
  }

  /** `n` consecutive selections pick no backend twice exactly if the counter does not wrap
      among them or its range is a multiple of `n`. */
  lemma FairWindowIff(c: nat, n: nat, w: nat)
    requires c < w && 0 < n <= w
    ensures FairWindow(c, n, w) <==> c + n <= w || w % n == 0
  {
    if c + n <= w || w % n == 0 {
      forall i, j | 0 <= i < j < n
        ensures Turn(c, i, n, w) != Turn(c, j, n, w)
      {
        TurnWithoutWrap(c, i, n, w);
        TurnWithoutWrap(c, j, n, w);
        CloseApart(c + i, c + j, n);
      }
    } else {
      var i, j := WrapCollides(c, n, w);
    }
  }

  /** Picking none twice, the `n` selections pick every backend. */
  lemma FairWindowCovers(c: nat, n: nat, w: nat, b: nat)
    requires w > 0 && n > 0 && FairWindow(c, n, w) && b < n
    ensures exists k :: 0 <= k < n && Turn(c, k, n, w) == b
  {
    var turns := seq(n, k requires 0 <= k < n => Turn(c, k, n, w));
    DistinctCovers(turns, Interval(0, n), b);
    var k :| 0 <= k < n && turns[k] == b;
  }

  lemma {:induction false} DistinctCovers(s: seq<int>, all: set<int>, b: int)
    requires forall i, j :: 0 <= i < j < |s| ==> s[i] != s[j]
    requires (forall x :: x in s ==> x in all) && |s| == |all| && b in all
    ensures b in s
  {
    if s == [] {
      assert false;
    } else if s[|s| - 1] != b {
      var n := |s| - 1;
      DistinctCovers(s[..n], all - {s[n]}, b);
      assert b in s[..n];
    }
  }

  // ----- Least connections and best health

  /** The running minimum starts at -1, which a real count of -1 is mistaken for. */
  function LeastPick(vs: seq<View>): (r: nat)
    requires vs != []
    ensures r < |vs|
  {
    var n := |vs| - 1;
    if n == 0 then 0
    else
      var p := LeastPick(vs[..n]);
      if vs[p].connections == -1 || vs[n].connections < vs[p].connections then n else p
  }

  ghost predicate IsLeast(vs: seq<View>, p: nat)
    requires p < |vs|
  {
    forall i :: 0 <= i < |vs| ==> vs[p].connections <= vs[i].connections
  }

  /** -1 is the least count, but not that of the last backend.  Releasing a backend that has no
      connection makes a count of -1. */
  ghost predicate Mistaken(vs: seq<View>)
    requires vs != []
  {
    && (forall i :: 0 <= i < |vs| ==> vs[i].connections >= -1)
    && (exists i :: 0 <= i < |vs| && vs[i].connections == -1)
    && vs[|vs| - 1].connections != -1
  }

  /** The pick has the fewest connections exactly if the sentinel is not mistaken for a count. */
  lemma LeastPickIff(vs: seq<View>)
    requires vs != []
    ensures IsLeast(vs, LeastPick(vs)) <==> !Mistaken(vs)
  {
    LeastPickFacts(vs);
    var p := LeastPick(vs);
    if Mistaken(vs) {
      var i :| 0 <= i < |vs| && vs[i].connections == -1;
      assert vs[p].connections != -1;
    }
  }

  lemma {:induction false} LeastPickFacts(vs: seq<View>)
    requires vs != []
    ensures vs[LeastPick(vs)].connections == -1 ==> LeastPick(vs) == |vs| - 1
    ensures IsLeast(vs, LeastPick(vs)) || Mistaken(vs)
  {
    var n := |vs| - 1;
    if n > 0 {
      var init := vs[..n];
      LeastPickFacts(init);
      var p := LeastPick(init);
      assert forall i :: 0 <= i < n ==> init[i] == vs[i];
      if IsLeast(init, p) {
        assert forall i :: 0 <= i < n ==> vs[p].connections <= vs[i].connections;
        if vs[p].connections == -1 && vs[n].connections > -1 {
          assert Mistaken(vs);
        }
      } else {
        var i :| 0 <= i < n && init[i].connections == -1;
        assert vs[i].connections == -1;
      }
    }
  }

  /** The first backend with the highest positive score. */
  function HealthPick(vs: seq<View>): (r: Option<nat>)
    ensures r.Some? ==> r.value < |vs|
  {
    if vs == [] then None
    else
      var n := |vs| - 1;
      var p := HealthPick(vs[..n]);
      if vs[n].healthScore > BestScore(vs, p) then Some(n) else p
  }

  function BestScore(vs: seq<View>, p: Option<nat>): int
    requires p.Some? ==> p.value < |vs|
  {
    if p.None? then 0 else vs[p.value].healthScore
  }

  /** A backend is picked unless no score is positive, and then it is the first of the best. */
  lemma {:induction false} HealthPickIsBest(vs: seq<View>)
    ensures HealthPick(vs).None? <==> forall i :: 0 <= i < |vs| ==> vs[i].healthScore <= 0
    ensures HealthPick(vs).Some? ==>
              var p := HealthPick(vs).value;
              && (forall i :: 0 <= i < |vs| ==> vs[i].healthScore <= vs[p].healthScore)
              && (forall i :: 0 <= i < p ==> vs[i].healthScore < vs[p].healthScore)
              && vs[p].healthScore > 0
  {
    if vs != [] {
      var init := vs[..|vs| - 1];
      HealthPickIsBest(init);
      assert forall i :: 0 <= i < |init| ==> init[i] == vs[i];
    }
  }

  // ----- One selection

  predicate UsesCounter(algorithm: Algorithm, vs: seq<View>) {
    match algorithm
    case Weighted => Total(vs, |vs|) == 0
    case LeastConnections | HealthBased | Random => false
    case RoundRobin | Other => true
  }

  function NextCounter(algorithm: Algorithm, vs: seq<View>, counter: nat): nat {
    if UsesCounter(algorithm, vs) then Successor(counter, WRAP) else counter
  }

  /** What is selected among the healthy backends, from the counter and the random source. */
  function Pick(algorithm: Algorithm, vs: seq<View>, counter: nat, random: int -> int): (r: Option<nat>)
    requires vs != [] && forall n :: n > 0 ==> 0 <= random(n) < n
    ensures r.Some? ==> r.value < |vs|
  {
    if UsesCounter(algorithm, vs) then Some(counter % |vs|)
    else
      match algorithm
      case Weighted => Some(WeightedFrom(vs, random(Total(vs, |vs|)), 0))
      case LeastConnections => Some(LeastPick(vs))
      case HealthBased => HealthPick(vs)
      case _ => Some(random(|vs|))
  }

  /** Among healthy backends one is always selected, unless by health with no positive score. */
  lemma PickFails(algorithm: Algorithm, vs: seq<View>, counter: nat, random: int -> int)
    requires vs != [] && forall n :: n > 0 ==> 0 <= random(n) < n
    ensures Pick(algorithm, vs, counter, random).None? <==>
            algorithm.HealthBased? && forall i :: 0 <= i < |vs| ==> vs[i].healthScore <= 0
  {
    HealthPickIsBest(vs);
  }
}

/** The load balancer as the source has it. */
module LoadBalance {
  import opened LoadBalanceModel
  import opened Wrappers

  class Backend {
    const id: string
    const weight: int
    const maxConnections: int
    var currentConns: int
    var healthScore: int
    var isActive: bool

    constructor (id: string, weight: int, maxConnections: int, healthScore: int, isActive: bool)
      ensures Look() == View(id, weight, maxConnections, 0, healthScore, isActive)
    {
      this.id, this.weight, this.maxConnections := id, weight, maxConnections;
      this.healthScore, this.isActive, currentConns := healthScore, isActive, 0;
    }

    function Look(): View
      reads this
    {
      View(id, weight, maxConnections, currentConns, healthScore, isActive)
    }

    method DecrementConnections() returns (r: int)
      modifies this`currentConns
      ensures r == currentConns == old(currentConns) - 1
    {
      currentConns := currentConns - 1;
      r := currentConns;
    }

    method CanAcceptConnections() returns (r: bool)
      ensures r == (maxConnections == 0 || currentConns < maxConnections)
    {
      if maxConnections == 0 {
        return true;
      }
      return currentConns < maxConnections;
    }
  }

  function Looks(bs: seq<Backend>): (vs: seq<View>)
    reads bs
    ensures |vs| == |bs| && forall i :: 0 <= i < |bs| ==> vs[i] == bs[i].Look()
  {
    seq(|bs|, i requires 0 <= i < |bs| reads bs => bs[i].Look())
  }

  /** The backends that look healthy, in order. */
  function FitOf(bs: seq<Backend>, vs: seq<View>, minScore: int): (r: seq<Backend>)
    requires |bs| == |vs|
    ensures |r| == |Fit(vs, minScore)| && forall b :: b in r ==> b in bs
  {
    if bs == [] then []
    else
      var n := |bs| - 1;
      var earlier := FitOf(bs[..n], vs[..n], minScore);
      if Healthy(vs[n], minScore) then earlier + [bs[n]] else earlier
  }

  lemma FitOfNext(bs: seq<Backend>, vs: seq<View>, minScore: int, i: nat)
    requires |bs| == |vs| && i < |bs|
    ensures FitOf(bs[..i + 1], vs[..i + 1], minScore)
            == FitOf(bs[..i], vs[..i], minScore) + if Healthy(vs[i], minScore) then [bs[i]] else []
  {
    assert bs[..i + 1][..i] == bs[..i] && vs[..i + 1][..i] == vs[..i];
  }

  /** They look as the healthy ones of the looks do. */
  lemma {:induction false} FitOfLooks(bs: seq<Backend>, vs: seq<View>, minScore: int)
    requires vs == Looks(bs)
    ensures Looks(FitOf(bs, vs, minScore)) == Fit(vs, minScore)
    ensures forall b :: b in FitOf(bs, vs, minScore) ==> Healthy(b.Look(), minScore)
  {
    if bs != [] {
      var n := |bs| - 1;
      assert Looks(bs[..n]) == vs[..n];
      FitOfLooks(bs[..n], vs[..n], minScore);
    }
  }

  /** The list without its first member of the given ID. */
  function Without(bs: seq<Backend>, id: string): seq<Backend> {
    if bs == [] then [] else if bs[0].id == id then bs[1..] else [bs[0]] + Without(bs[1..], id)
  }

  lemma {:induction false} WithoutAt(bs: seq<Backend>, id: string, i: nat)
    requires i < |bs| && bs[i].id == id && forall j :: 0 <= j < i ==> bs[j].id != id
    ensures Without(bs, id) == bs[..i] + bs[i + 1..]
  {
    if i > 0 {
      WithoutAt(bs[1..], id, i - 1);
    }
  }

  lemma WithoutKeeps(bs: seq<Backend>, id: string, i: nat)
    requires i < |bs| && bs[i].id == id && forall j, k :: 0 <= j < k < |bs| ==> bs[j].id != bs[k].id
    ensures var r := bs[..i] + bs[i + 1..];
            && r == Without(bs, id)
            && (forall b :: b in r <==> b in bs && b.id != id)
  {
    WithoutAt(bs, id, i);
    var r := bs[..i] + bs[i + 1..];
    assert bs == bs[..i] + [bs[i]] + bs[i + 1..];
    forall b | b in r
      ensures b.id != id
    {
      var j :| 0 <= j < |r| && r[j] == b;
      assert b == bs[if j < i then j else j + 1];
    }
  }

  lemma WithoutKeepsApart(bs: seq<Backend>, i: nat)
    requires i < |bs| && forall j, k :: 0 <= j < k < |bs| ==> bs[j].id != bs[k].id
    ensures var r := bs[..i] + bs[i + 1..];
            forall j, k :: 0 <= j < k < |r| ==> r[j].id != r[k].id
  {
    var r := bs[..i] + bs[i + 1..];
    forall j, k | 0 <= j < k < |r|
      ensures r[j].id != r[k].id
    {
      var j', k' := if j < i then j else j + 1, if k < i then k else k + 1;
      assert r[j] == bs[j'] && r[k] == bs[k'];
    }
  }

  datatype Error = BackendNil | BackendExists | BackendNotFound | NoHealthyBackends

  class LoadBalancer {
    const stickySession: bool
    const minHealthScore: int
    var backends: map<string, Backend>
    var backendList: seq<Backend>
    var algorithm: Algorithm
    var roundRobinIdx: nat
    var sessionCache: map<string, Backend>

    constructor (algorithm: Algorithm, stickySession: bool, minHealthScore: int)
      ensures Valid() && backends == map[] && backendList == [] && sessionCache == map[] && roundRobinIdx == 0
      ensures this.algorithm == algorithm && this.stickySession == stickySession
      ensures this.minHealthScore == minHealthScore
    {
      this.algorithm, this.stickySession, this.minHealthScore := algorithm, stickySession, minHealthScore;
      backends, backendList, sessionCache, roundRobinIdx := map[], [], map[], 0;
    }

    /** The map and the list hold the same backends, each under its own ID, and cached sessions
        belong to registered backends. */
    ghost predicate Valid()
      reads this
    {
      && (forall b :: b in backendList ==> b.id in backends && backends[b.id] == b)
      && (forall id :: id in backends ==> backends[id].id == id && backends[id] in backendList)
      && (forall i, j :: 0 <= i < j < |backendList| ==> backendList[i].id != backendList[j].id)
      && (forall s :: s in sessionCache ==> sessionCache[s] in backendList)
      && roundRobinIdx < WRAP
    }

    method AddBackend(backend: Backend?) returns (err: Option<Error>)
      requires Valid()
      modifies this`backends, this`backendList
      ensures Valid()
      ensures err == if backend == null then Some(BackendNil)
                     else if backend.id in old(backends) then Some(BackendExists) else None
      ensures if err.Some? then backends == old(backends) && backendList == old(backendList)
              else backends == old(backends)[backend.id := backend] && backendList == old(backendList) + [backend]
    {
      if backend == null {
        return Some(BackendNil);
      }
      if backend.id in backends {
        return Some(BackendExists);
      }
      assert forall i :: 0 <= i < |backendList| ==> backendList[i] in backendList;
      backends := backends[backend.id := backend];
      backendList := backendList + [backend];
      return None;
    }

    method RemoveBackend(backendId: string) returns (err: Option<Error>)
      requires Valid()
      modifies this`backends, this`backendList, this`sessionCache
      ensures Valid()
      ensures err == if backendId in old(backends) then None else Some(BackendNotFound)
      ensures if err.Some? then
                backends == old(backends) && backendList == old(backendList) && sessionCache == old(sessionCache)
              else
                && backends == old(backends) - {backendId} && backendList == Without(old(backendList), backendId)
                && sessionCache ==
                   map s | s in old(sessionCache) && old(sessionCache)[s].id != backendId :: old(sessionCache)[s]
    {
      if backendId !in backends {
        return Some(BackendNotFound);
      }
      RemoveFromList(backendId);
      backends := backends - {backendId};
      sessionCache := map s | s in sessionCache && sessionCache[s].id != backendId :: sessionCache[s];
      return None;
    }

    method RemoveFromList(backendId: string)
      requires Valid() && backendId in backends
      modifies this`backendList
      ensures backendList == Without(old(backendList), backendId)
      ensures forall b :: b in backendList <==> b in old(backendList) && b.id != backendId
      ensures forall i, j :: 0 <= i < j < |backendList| ==> backendList[i].id != backendList[j].id
    {
      assert backends[backendId] in backendList;
      var i := 0;
      while backendList[i].id != backendId
        invariant i < |backendList| && backendList == old(backendList)
        invariant forall j :: 0 <= j < i ==> backendList[j].id != backendId
        invariant exists j :: i <= j < |backendList| && backendList[j].id == backendId
        decreases |backendList| - i
      {
        i := i + 1;
      }
      WithoutKeeps(backendList, backendId, i);
      WithoutKeepsApart(backendList, i);
      backendList := backendList[..i] + backendList[i + 1..];
    }

    method GetHealthyBackends() returns (healthy: seq<Backend>)
      ensures healthy == FitOf(backendList, Looks(backendList), minHealthScore)
      ensures Looks(healthy) == Fit(Looks(backendList), minHealthScore)
      ensures forall b :: b in healthy ==> Healthy(b.Look(), minHealthScore)
    {
      healthy := [];
      ghost var vs := Looks(backendList);
      for i := 0 to |backendList|
        invariant healthy == FitOf(backendList[..i], vs[..i], minHealthScore)
      {
        var backend := backendList[i];
        FitOfNext(backendList, vs, minHealthScore, i);
        var accepts := backend.CanAcceptConnections();
        if backend.isActive && backend.healthScore >= minHealthScore && accepts {
          healthy := healthy + [backend];
        }
      }
      assert backendList[..|backendList|] == backendList && vs[..|vs|] == vs;
      FitOfLooks(backendList, vs, minHealthScore);
    }

    method SelectRoundRobin(bs: seq<Backend>) returns (r: Backend)
      requires bs != [] && roundRobinIdx < WRAP
      modifies this`roundRobinIdx
      ensures r == bs[old(roundRobinIdx) % |bs|] && roundRobinIdx == Successor(old(roundRobinIdx), WRAP)
    {
      var idx := roundRobinIdx;
      roundRobinIdx := Successor(roundRobinIdx, WRAP);
      r := bs[idx % |bs|];
    }

    /** The library's generator refuses a negative bound. */
    method SelectWeighted(bs: seq<Backend>, random: int -> int) returns (r: Backend)
      requires bs != [] && roundRobinIdx < WRAP
      requires Total(Looks(bs), |bs|) >= 0 && forall n :: n > 0 ==> 0 <= random(n) < n
      modifies this`roundRobinIdx
      ensures r == bs[Pick(Weighted, old(Looks(bs)), old(roundRobinIdx), random).value]
      ensures roundRobinIdx == NextCounter(Weighted, old(Looks(bs)), old(roundRobinIdx))
    {
      var totalWeight := 0;
      for i := 0 to |bs|
        invariant totalWeight == Total(Looks(bs), i)
      {
        totalWeight := totalWeight + bs[i].weight;
      }
      if totalWeight == 0 {
        r := SelectRoundRobin(bs);
        return;
      }
      var draw := random(totalWeight);
      var currentWeight := 0;
      for i := 0 to |bs|
        invariant currentWeight == Total(Looks(bs), i)
        invariant WeightedFrom(Looks(bs), draw, 0) == WeightedFrom(Looks(bs), draw, i)
      {
        currentWeight := currentWeight + bs[i].weight;
        if draw < currentWeight {
          return bs[i];
        }
      }
      return bs[0];
    }

    method SelectLeastConnections(bs: seq<Backend>) returns (r: Backend)
      requires bs != []
      ensures r == bs[LeastPick(Looks(bs))]
    {
      var minConns := -1;
      r := bs[0];
      ghost var vs := Looks(bs);
      for i := 0 to |bs|
        invariant i == 0 ==> minConns == -1
        invariant i > 0 ==> r == bs[LeastPick(vs[..i])] && minConns == vs[LeastPick(vs[..i])].connections
      {
        assert i > 0 ==> vs[..i + 1][..i] == vs[..i];
        var conns := bs[i].currentConns;
        if minConns == -1 || conns < minConns {
          minConns, r := conns, bs[i];
        }
      }
      assert vs[..|bs|] == vs;
    }

    method SelectHealthBased(bs: seq<Backend>) returns (r: Backend?)
      ensures r == if HealthPick(Looks(bs)).None? then null else bs[HealthPick(Looks(bs)).value]
    {
      var maxScore := 0;
      r := null;
      for i := 0 to |bs|
        invariant var p := HealthPick(Looks(bs)[..i]);
                  r == (if p.None? then null else bs[p.value]) && maxScore == BestScore(Looks(bs), p)
      {
        assert Looks(bs)[..i + 1][..i] == Looks(bs)[..i];
        if bs[i].healthScore > maxScore {
          maxScore, r := bs[i].healthScore, bs[i];
        }
      }
      assert Looks(bs)[..|bs|] == Looks(bs);
    }

    /** The switch over the algorithms. */
    method SelectAmong(bs: seq<Backend>, random: int -> int) returns (r: Backend?)
      requires bs != [] && roundRobinIdx < WRAP
      requires (algorithm.Weighted? ==> Total(Looks(bs), |bs|) >= 0) && forall n :: n > 0 ==> 0 <= random(n) < n
      modifies this`roundRobinIdx
      ensures roundRobinIdx < WRAP
      ensures var p := Pick(algorithm, old(Looks(bs)), old(roundRobinIdx), random);
              r == (if p.None? then null else bs[p.value]) && (r != null ==> r in bs)
      ensures roundRobinIdx == NextCounter(algorithm, old(Looks(bs)), old(roundRobinIdx))
    {
      match algorithm
      case RoundRobin => r := SelectRoundRobin(bs);
      case Weighted => r := SelectWeighted(bs, random);
      case LeastConnections => r := SelectLeastConnections(bs);
      case HealthBased => r := SelectHealthBased(bs);
      case Random => r := bs[random(|bs|)];
      case Other => r := SelectRoundRobin(bs);
    }

    /** A cached session whose backend is still fit; its connection limit is not looked at. */
    ghost predicate StickyHit(session: Option<string>)
      reads this, sessionCache.Values
    {
      && stickySession && session.Some? && session.value in sessionCache
      && sessionCache[session.value].isActive && sessionCache[session.value].healthScore >= minHealthScore
    }

    /** The cache after a miss. */
    function WithoutSession(session: Option<string>): map<string, Backend>
      reads this`sessionCache
    {
      if stickySession && session.Some? then sessionCache - {session.value} else sessionCache
    }

    /** Looks up the session's backend and forgets one that is not fit. */
    method StickyBackend(session: Option<string>) returns (hit: Backend?)
      requires Valid()
      modifies this`sessionCache
      ensures Valid()
      ensures if old(StickyHit(session)) then
                hit == old(sessionCache)[session.value] && sessionCache == old(sessionCache)
              else hit == null && sessionCache == old(WithoutSession(session))
    {
      if stickySession && session.Some? {
        if session.value in sessionCache {
          var backend := sessionCache[session.value];
          if backend.isActive && backend.healthScore >= minHealthScore {
            return backend;
          }
          sessionCache := sessionCache - {session.value};
        }
      }
      return null;
    }

    /** No error and no backend is a possible answer.  `all` is how the backends look, and
        `healthy` are the healthy ones.  What is returned is healthy, except that a sticky hit may
        be at its connection limit. */
    method SelectBackend(session: Option<string>, random: int -> int)
      returns (r: Backend?, err: Option<Error>, ghost all: seq<View>, ghost healthy: seq<Backend>)
      requires Valid() && forall n :: n > 0 ==> 0 <= random(n) < n
      requires var vs := Fit(Looks(backendList), minHealthScore); algorithm.Weighted? ==> Total(vs, |vs|) >= 0
      modifies this`roundRobinIdx, this`sessionCache
      ensures Valid()
      ensures all == old(Looks(backendList)) && healthy == FitOf(backendList, all, minHealthScore)
      ensures old(StickyHit(session)) ==>
                && err.None? && r == old(sessionCache)[session.value]
                && sessionCache == old(sessionCache) && roundRobinIdx == old(roundRobinIdx)
      ensures !old(StickyHit(session)) && healthy == [] ==>
                err == Some(NoHealthyBackends) && r == null && roundRobinIdx == old(roundRobinIdx)
      ensures !old(StickyHit(session)) && healthy != [] ==>
                var vs := Fit(all, minHealthScore);
                var p := Pick(algorithm, vs, old(roundRobinIdx), random);
                && err.None? && r == (if p.None? then null else healthy[p.value])
                && roundRobinIdx == NextCounter(algorithm, vs, old(roundRobinIdx))
      ensures !old(StickyHit(session)) ==>
                var kept := old(WithoutSession(session));
                sessionCache == if stickySession && session.Some? && r != null then kept[session.value := r] else kept
      ensures r != null ==>
                (Healthy(r.Look(), minHealthScore) <==>
                 !old(StickyHit(session)) || r.maxConnections == 0 || r.currentConns < r.maxConnections)
    {
      all := Looks(backendList);
      healthy := FitOf(backendList, all, minHealthScore);
      r := StickyBackend(session);
      err := None;
      if r == null {
        r, err := SelectFresh(random, all);
        Remember(session, r);
      }
    }

    /** Selects among the healthy backends, if there are any. */
    method SelectFresh(random: int -> int, ghost all: seq<View>) returns (r: Backend?, err: Option<Error>)
      requires Valid() && all == Looks(backendList)
      requires var vs := Fit(all, minHealthScore); algorithm.Weighted? ==> Total(vs, |vs|) >= 0
      requires forall n :: n > 0 ==> 0 <= random(n) < n
      modifies this`roundRobinIdx
      ensures Valid() && (r != null ==> r in backendList && Healthy(r.Look(), minHealthScore))
      ensures Fit(all, minHealthScore) == [] ==>
                err == Some(NoHealthyBackends) && r == null && roundRobinIdx == old(roundRobinIdx)
      ensures Fit(all, minHealthScore) != [] ==>
                var p := Pick(algorithm, Fit(all, minHealthScore), old(roundRobinIdx), random);
                && err.None? && r == (if p.None? then null else FitOf(backendList, all, minHealthScore)[p.value])
                && roundRobinIdx == NextCounter(algorithm, Fit(all, minHealthScore), old(roundRobinIdx))
    {
      var fit := GetHealthyBackends();
      if |fit| == 0 {
        return null, Some(NoHealthyBackends);
      }
      r := SelectAmong(fit, random);
      return r, None;
    }

    method Remember(session: Option<string>, r: Backend?)
      requires Valid() && (r != null ==> r in backendList)
      modifies this`sessionCache
      ensures Valid()
      ensures sessionCache ==
              if stickySession && session.Some? && r != null then old(sessionCache)[session.value := r]
              else old(sessionCache)
    {
      if stickySession && session.Some? && r != null {
        sessionCache := sessionCache[session.value := r];
      }
    }

    method ReleaseBackend(backendId: string) returns (err: Option<Error>)
      requires Valid()
      modifies backends.Values`currentConns
      ensures err == if backendId in backends then None else Some(BackendNotFound)
      ensures forall id :: id in backends ==>
                backends[id].currentConns == old(backends[id].currentConns) - if id == backendId then 1 else 0
    {
      if backendId !in backends {
        return Some(BackendNotFound);
      }
      var n := backends[backendId].DecrementConnections();
      return None;
    }
  }

  /** Sessions stick: one that is remembered with a backend that is active and of sufficient health is given that again,
      whatever the algorithm, and no turn is used up. */
  method SelectKnown(lb: LoadBalancer, session: string, random: int -> int) returns (r: Backend?)
    requires lb.Valid() && lb.stickySession && session in lb.sessionCache && forall n :: n > 0 ==> 0 <= random(n) < n
    requires lb.sessionCache[session].isActive && lb.minHealthScore <= lb.sessionCache[session].healthScore
    requires var vs := LoadBalanceModel.Fit(Looks(lb.backendList), lb.minHealthScore);
             lb.algorithm.Weighted? ==> Total(vs, |vs|) >= 0
    modifies lb`roundRobinIdx, lb`sessionCache
    ensures r == old(lb.sessionCache)[session]
    ensures lb.sessionCache == old(lb.sessionCache) && lb.roundRobinIdx == old(lb.roundRobinIdx)
  {
    var err;
    ghost var all, healthy;
    r, err, all, healthy := lb.SelectBackend(Some(session), random);
  }

  /** What a selection leaves of the sessions: its own is remembered with the backend it was given and with no other,
      and forgotten if it was given none; the others stay as they are. */
  method SelectForSession(lb: LoadBalancer, session: Option<string>, random: int -> int) returns (r: Backend?)
    requires lb.Valid() && forall n :: n > 0 ==> 0 <= random(n) < n
    requires var vs := LoadBalanceModel.Fit(Looks(lb.backendList), lb.minHealthScore);
             lb.algorithm.Weighted? ==> Total(vs, |vs|) >= 0
    modifies lb`roundRobinIdx, lb`sessionCache
    ensures lb.stickySession && session.Some? ==>
              && (session.value in lb.sessionCache <==> r != null)
              && (r != null ==> lb.sessionCache[session.value] == r)
    ensures forall s :: !lb.stickySession || session != Some(s) ==>
              && (s in lb.sessionCache <==> s in old(lb.sessionCache))
              && (s in lb.sessionCache ==> lb.sessionCache[s] == old(lb.sessionCache)[s])
  {
    var err;
    ghost var all, healthy;
    r, err, all, healthy := lb.SelectBackend(session, random);
  }
}
