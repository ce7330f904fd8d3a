/** What the operations of ha/failover.go leave unchanged, and who is active and who fails after them. */
module FailoverLaws {
  import opened FailoverModel
  import opened Wrappers

  // ----- One visit of a sweep

  /** A standby node fit to take over: healthy enough, and of a priority that the search admits. */
  predicate Fit(n: Node) {
    n.state == Standby && n.health >= 70 && n.priority >= 0
  }

  /** `id` is fit, and no fit node has a higher priority. */
  ghost predicate BestFit(nodes: map<string, Node>, id: string) {
    id in nodes && Fit(nodes[id]) && forall x :: x in nodes && Fit(nodes[x]) ==> nodes[x].priority <= nodes[id].priority
  }

  predicate TimedOut(config: Config, c: Cluster, id: string, now: int)
    requires id in c.nodes
  {
    c.nodes[id].heartbeat + config.heartbeatTimeout < now
  }

  predicate Weak(score: Option<int>) {
    score.Some? && score.value < 50
  }

  function StateOf(c: Cluster, x: string): State
    requires x in c.nodes
  {
    c.nodes[x].state
  }

  /** The active node `from` failed and the best fit node took over; all others kept their state. */
  ghost predicate TookOver(c: Cluster, c': Cluster, from: string) {
    && c'.nodes.Keys == c.nodes.Keys && c.active == Some(from) && c'.active.Some? && c'.active.value != from
    && BestFit(c.nodes, c'.active.value)
    && forall x :: x in c.nodes ==>
         StateOf(c', x) == if x == from then Failed else if x == c'.active.value then Active else StateOf(c, x)
  }

  /** Nobody became active or failed, except that `id` did if `fails`. */
  ghost predicate Unmoved(c: Cluster, c': Cluster, id: string, fails: bool) {
    && c'.nodes.Keys == c.nodes.Keys && c'.active == c.active
    && forall x :: x in c.nodes ==> StateOf(c', x) == if x == id && fails then Failed else StateOf(c, x)
  }

  /** The nodes are what they were but for their states and the health that `id` may be given. */
  ghost predicate SameBut(c: Cluster, c': Cluster, id: string, score: Option<int>) {
    && c'.nodes.Keys == c.nodes.Keys
    && forall x :: x in c.nodes ==>
         c'.nodes[x] == c.nodes[x].(state := StateOf(c', x),
                                    health := if x == id && score.Some? then score.value else c.nodes[x].health)
  }

  /** The policy lets an automatic failover happen, and there is a fit node to take over. */
  ghost predicate CanMove(config: Config, nodes: map<string, Node>) {
    && config.policy != Manual
    && (config.policy == QuorumBased ==> |set x | x in nodes && nodes[x].health >= 70| >= config.quorumSize)
    && exists x :: x in nodes && Fit(nodes[x])
  }

  lemma RefusedIff(config: Config, c: Cluster, candidate: Option<string>)
    requires IsCandidate(c.nodes, candidate)
    ensures Refused(config, c, candidate) <==> !CanMove(config, c.nodes)
  {
    assert Healthy(c.nodes) == set x | x in c.nodes && c.nodes[x].health >= 70;
  }

  lemma FailoverMoves(config: Config, c: Cluster, from: string, reason: string, candidate: Option<string>)
    requires OneActive(c) && c.active == Some(from) && IsCandidate(c.nodes, candidate)
    ensures var c' := FailoverTo(config, c, from, reason, candidate);
            && SameBut(c, c', from, None)
            && if CanMove(config, c.nodes) then TookOver(c, c', from) else Unmoved(c, c', from, false)
  {
    RefusedIff(config, c, candidate);
  }

  lemma HeartbeatMoves(config: Config, c: Cluster, id: string, now: int, candidate: Option<string>)
    requires OneActive(c) && id in c.nodes && IsCandidate(c.nodes, candidate)
    ensures var c' := HeartbeatCheck(config, c, id, now, candidate);
            && SameBut(c, c', id, None)
            && if c.active == Some(id) && TimedOut(config, c, id, now) && CanMove(config, c.nodes)
               then TookOver(c, c', id)
               else Unmoved(c, c', id, TimedOut(config, c, id, now) && c.active != Some(id))
  {
    if Expired(config, c.nodes[id], now) && c.nodes[id].state == Active {
      FailoverMoves(config, c, id, "heartbeat timeout", candidate);
    }
  }

  /** A score changes nobody's fitness but its own node's, and an active node is not fit anyway. */
  lemma ScoredMoves(c: Cluster, id: string, score: int, c': Cluster)
    requires id in c.nodes && c.nodes[id].state == Active
    ensures TookOver(Scored(c, id, score), c', id) ==> TookOver(c, c', id)
  {
    var c1 := Scored(c, id, score);
    if TookOver(c1, c', id) {
      forall x | x in c.nodes
        ensures Fit(c1.nodes[x]) <==> Fit(c.nodes[x])
        ensures c1.nodes[x].priority == c.nodes[x].priority && StateOf(c1, x) == StateOf(c, x)
      {
      }
    }
  }

  lemma WeakMoves(config: Config, c: Cluster, id: string, score: int, candidate: Option<string>)
    requires OneActive(c) && c.active == Some(id) && IsCandidate(Scored(c, id, score).nodes, candidate)
    ensures var c1 := Scored(c, id, score);
            var c' := FailoverTo(config, c1, id, "low health score", candidate);
            && SameBut(c, c', id, Some(score))
            && if CanMove(config, c1.nodes) then TookOver(c, c', id) else Unmoved(c, c', id, false)
  {
    var c1 := Scored(c, id, score);
    ScoredSound(c, id, score);
    FailoverMoves(config, c1, id, "low health score", candidate);
    ScoredMoves(c, id, score, FailoverTo(config, c1, id, "low health score", candidate));
  }

  lemma HealthMoves(config: Config, c: Cluster, id: string, score: Option<int>, candidate: Option<string>)
    requires OneActive(c) && id in c.nodes
    requires IsCandidate((if score.Some? then Scored(c, id, score.value) else c).nodes, candidate)
    ensures var c' := HealthCheck(config, c, id, score, candidate);
            && SameBut(c, c', id, score)
            && if c.active == Some(id) && Weak(score) && CanMove(config, Scored(c, id, score.value).nodes)
               then TookOver(c, c', id)
               else Unmoved(c, c', id, false)
  {
    if Weak(score) && c.nodes[id].state == Active {
      WeakMoves(config, c, id, score.value, candidate);
    }
  }

  /** The active node is visited and has to hand over: its heartbeat is too old or its score too low, and a failover is
      possible, in the second case with the score written. */
  ghost predicate MustMove(config: Config, c: Cluster, id: string, now: int, score: Option<int>)
    requires id in c.nodes
  {
    && c.active == Some(id)
    && (|| (TimedOut(config, c, id, now) && CanMove(config, c.nodes))
        || (Weak(score) && CanMove(config, Scored(c, id, score.value).nodes)))
  }

  /** What a visit does to the states of nodes: it hands over from the visited node to the best fit one if it must,
      fails the visited node if its heartbeat is too old and it is not active, and does nothing else. */
  ghost predicate Visited(config: Config, c: Cluster, id: string, now: int, score: Option<int>, c': Cluster)
    requires id in c.nodes
  {
    if MustMove(config, c, id, now, score) then TookOver(c, c', id)
    else Unmoved(c, c', id, TimedOut(config, c, id, now) && c.active != Some(id))
  }

  lemma SameNodes(c: Cluster, c1: Cluster, id: string)
    requires SameBut(c, c1, id, None) && Unmoved(c, c1, id, false)
    ensures c1.nodes == c.nodes
  {
    forall x | x in c.nodes
      ensures c1.nodes[x] == c.nodes[x]
    {
      assert StateOf(c1, x) == StateOf(c, x);
    }
  }

  lemma HalvesKeep(c: Cluster, c1: Cluster, c': Cluster, id: string, score: Option<int>)
    requires SameBut(c, c1, id, None) && SameBut(c1, c', id, score)
    ensures SameBut(c, c', id, score)
  {
  }

  /** Where the first half moved nobody away from `id`, the second sees the same nodes. */
  lemma HalvesMove(config: Config, c: Cluster, id: string, now: int, score: Option<int>, c1: Cluster, c': Cluster)
    requires OneActive(c) && id in c.nodes && c.active == Some(id) && id in c1.nodes
    requires SameBut(c, c1, id, None) && Unmoved(c, c1, id, false)
    requires if Weak(score) && CanMove(config, Scored(c1, id, score.value).nodes)
             then TookOver(c1, c', id) else Unmoved(c1, c', id, false)
    ensures if Weak(score) && CanMove(config, Scored(c, id, score.value).nodes)
            then TookOver(c, c', id) else Unmoved(c, c', id, false)
  {
    SameNodes(c, c1, id);
  }

  /** The law of a visit, for every node and both halves. */
  lemma VisitMoves(config: Config, c: Cluster, id: string, now: int, score: Option<int>, c': Cluster)
    requires OneActive(c) && Visit(config, c, id, now, score, c')
    ensures SameBut(c, c', id, score) && Visited(config, c, id, now, score, c')
  {
    var first, second :|
      && IsCandidate(c.nodes, first)
      && var c1 := HeartbeatCheck(config, c, id, now, first);
      && id in c1.nodes
      && IsCandidate((if score.Some? then Scored(c1, id, score.value) else c1).nodes, second)
      && c' == HealthCheck(config, c1, id, score, second);
    var c1 := HeartbeatCheck(config, c, id, now, first);
    HeartbeatSound(config, c, id, now, first);
    HeartbeatMoves(config, c, id, now, first);
    HealthMoves(config, c1, id, score, second);
    HalvesKeep(c, c1, c', id, score);
    HalvesVisited(config, c, id, now, score, c1, c');
  }

  lemma HalvesVisited(config: Config, c: Cluster, id: string, now: int, score: Option<int>, c1: Cluster, c': Cluster)
    requires OneActive(c) && OneActive(c1) && id in c.nodes && id in c1.nodes && SameBut(c, c1, id, None)
    requires if c.active == Some(id) && TimedOut(config, c, id, now) && CanMove(config, c.nodes)
             then TookOver(c, c1, id)
             else Unmoved(c, c1, id, TimedOut(config, c, id, now) && c.active != Some(id))
    requires if c1.active == Some(id) && Weak(score) && CanMove(config, Scored(c1, id, score.value).nodes)
             then TookOver(c1, c', id) else Unmoved(c1, c', id, false)
    ensures Visited(config, c, id, now, score, c')
  {
    if TookOver(c, c1, id) {
      assert c1.active != Some(id);
    } else if c.active == Some(id) {
      HalvesMove(config, c, id, now, score, c1, c');
    }
  }

  // ----- A whole sweep

  /** At iteration `k` node `x` was handed over from, for a score that is too low. */
  ghost predicate HandedOver(checker: Option<map<string, int>>, order: seq<string>, trace: seq<Cluster>, x: string,
                             k: nat)
    requires |trace| == |order| + 1 && k < |order|
  {
    order[k] == x && Weak(ScoreOf(checker, x)) && TookOver(trace[k], trace[k + 1], x)
  }

  /** At iteration `k` node `x` was chosen to take over. */
  ghost predicate Chosen(order: seq<string>, trace: seq<Cluster>, x: string, k: nat)
    requires |trace| == |order| + 1 && k < |order|
  {
    TookOver(trace[k], trace[k + 1], order[k]) && trace[k + 1].active == Some(x)
  }

  lemma SweepVisit(config: Config, now: int, checker: Option<map<string, int>>, order: seq<string>, trace: seq<Cluster>,
                   k: nat)
    requires Sweep(config, now, checker, order, trace) && k < |order| && OneActive(trace[0])
    ensures OneActive(trace[k]) && order[k] in trace[k].nodes
    ensures SameBut(trace[k], trace[k + 1], order[k], ScoreOf(checker, order[k]))
    ensures Visited(config, trace[k], order[k], now, ScoreOf(checker, order[k]), trace[k + 1])
    ensures trace[k].nodes.Keys == trace[0].nodes.Keys
    ensures forall x :: x in trace[0].nodes ==> trace[k].nodes[x].heartbeat == trace[0].nodes[x].heartbeat
  {
    SweepSound(config, now, checker, order, trace, 0, k);
    assert VisitAt(config, now, checker, order, trace, k);
    VisitMoves(config, trace[k], order[k], now, ScoreOf(checker, order[k]), trace[k + 1]);
  }

  /** Why node `x` may be Failed after the first `i` iterations. */
  ghost predicate MayFail(config: Config, now: int, checker: Option<map<string, int>>, order: seq<string>,
                          trace: seq<Cluster>, x: string, i: nat)
    requires |trace| == |order| + 1 && i <= |order| && x in trace[0].nodes
  {
    || StateOf(trace[0], x) == Failed
    || TimedOut(config, trace[0], x, now)
    || exists k: nat :: k < i && HandedOver(checker, order, trace, x, k)
  }

  /** The converse of `SweepFailsExpired`: a node that is Failed after a sweep, in whatever order, was Failed before,
      or its heartbeat was too old, or it was the active node at its visit, its score was too low, and another took
      over. */
  lemma {:induction false} SweepFailsOnly(config: Config, now: int, checker: Option<map<string, int>>,
                                          order: seq<string>, trace: seq<Cluster>, x: string, i: nat)
    requires Sweep(config, now, checker, order, trace) && OneActive(trace[0]) && x in trace[0].nodes && i <= |order|
    ensures x in trace[i].nodes
    ensures StateOf(trace[i], x) == Failed ==> MayFail(config, now, checker, order, trace, x, i)
    decreases i
  {
    if i > 0 {
      var h := i - 1;
      SweepFailsOnly(config, now, checker, order, trace, x, h);
      SweepVisit(config, now, checker, order, trace, h);
      if StateOf(trace[i], x) == Failed && StateOf(trace[h], x) != Failed && !TimedOut(config, trace[0], x, now) {
        assert HandedOver(checker, order, trace, x, h);
      }
    }
  }

  /** A standby node whose heartbeat is recent is still Standby after a sweep, unless a failover chose it. */
  lemma {:induction false} SweepKeepsStandby(config: Config, now: int, checker: Option<map<string, int>>,
                                             order: seq<string>, trace: seq<Cluster>, x: string, i: nat)
    requires Sweep(config, now, checker, order, trace) && OneActive(trace[0]) && x in trace[0].nodes && i <= |order|
    requires StateOf(trace[0], x) == Standby && !TimedOut(config, trace[0], x, now)
    ensures x in trace[i].nodes
    ensures StateOf(trace[i], x) == Standby || exists k: nat :: k < i && Chosen(order, trace, x, k)
    decreases i
  {
    if i > 0 {
      var h := i - 1;
      SweepKeepsStandby(config, now, checker, order, trace, x, h);
      SweepVisit(config, now, checker, order, trace, h);
      if StateOf(trace[h], x) == Standby && StateOf(trace[i], x) != Standby {
        assert Chosen(order, trace, x, h);
      }
    }
  }

  // ----- Other operations

  /** A heartbeat is all that its node needs not to time out until the timeout has passed; nothing else changes. */
  lemma BeatMoves(config: Config, c: Cluster, id: string, now: int)
    requires id in c.nodes
    ensures var c' := Beat(c, id, now);
            && c'.nodes.Keys == c.nodes.Keys && c'.active == c.active && c'.events == c.events
            && (forall x :: x in c.nodes ==>
                  c'.nodes[x] == if x == id then c.nodes[x].(heartbeat := now) else c.nodes[x])
            && forall later :: TimedOut(config, c', id, later) <==> later > now + config.heartbeatTimeout
  {
  }

  /** A standby node that gives a heartbeat in time before a sweep does not fail in it. */
  lemma BeatInTime(config: Config, c: Cluster, x: string, at: int, now: int, checker: Option<map<string, int>>,
                   order: seq<string>, trace: seq<Cluster>)
    requires OneActive(c) && x in c.nodes && StateOf(c, x) == Standby && now <= at + config.heartbeatTimeout
    requires Sweep(config, now, checker, order, trace) && trace[0] == Beat(c, x, at)
    ensures x in trace[|order|].nodes
    ensures StateOf(trace[|order|], x) == Standby || exists k: nat :: k < |order| && Chosen(order, trace, x, k)
  {
    BeatMoves(config, c, x, at);
    SweepKeepsStandby(config, now, checker, order, trace, x, |order|);
  }

  /** A new node becomes active if there is no active node or it has a higher priority, which the active node then makes
      way for; otherwise it waits. No other node is touched. */
  lemma AddMoves(c: Cluster, n: Node)
    requires OneActive(c) && n.id !in c.nodes
    ensures var c' := Add(c, n);
            && c'.nodes.Keys == c.nodes.Keys + {n.id} && c'.events == c.events
            && (c'.active == Some(n.id) <==>
                  forall x :: x in c.nodes && StateOf(c, x) == Active ==> c.nodes[x].priority < n.priority)
            && (c'.active != Some(n.id) ==> c'.active == c.active)
            && c'.nodes[n.id] == n.(state := if c'.active == Some(n.id) then Active else Standby)
            && forall x :: x in c.nodes ==>
                 c'.nodes[x] == if StateOf(c, x) == Active && c'.active == Some(n.id)
                                then c.nodes[x].(state := Standby) else c.nodes[x]
  {
  }

  function AddAll(ns: seq<Node>): Cluster {
    if ns == [] then EMPTY else Add(AddAll(ns[..|ns| - 1]), ns[|ns| - 1])
  }

  /** `k` is the first of highest priority. */
  predicate FirstHighest(ns: seq<Node>, k: nat) {
    && k < |ns|
    && (forall i :: 0 <= i < |ns| ==> ns[i].priority <= ns[k].priority)
    && (forall i :: 0 <= i < k ==> ns[i].priority < ns[k].priority)
  }

  ghost predicate DistinctIds(ns: seq<Node>) {
    forall i, j :: 0 <= i < j < |ns| ==> ns[i].id != ns[j].id
  }

  /** Exactly the nodes of the list are registered, with their priorities. */
  ghost predicate Registered(c: Cluster, ns: seq<Node>) {
    && (forall i :: 0 <= i < |ns| ==> ns[i].id in c.nodes && c.nodes[ns[i].id].priority == ns[i].priority)
    && forall x :: x in c.nodes ==> exists i :: 0 <= i < |ns| && ns[i].id == x
  }

  lemma AddRegisters(c: Cluster, n: Node, ns: seq<Node>)
    requires Registered(c, ns) && DistinctIds(ns + [n])
    ensures n.id !in c.nodes && Registered(Add(c, n), ns + [n])
  {
    var all := ns + [n];
    assert all[|ns|] == n;
    forall i | 0 <= i < |ns|
      ensures ns[i].id != n.id
    {
      assert all[i] == ns[i];
    }
    forall x | x in Add(c, n).nodes
      ensures exists i :: 0 <= i < |all| && all[i].id == x
    {
      if x != n.id {
        var i :| 0 <= i < |ns| && ns[i].id == x;
        assert all[i].id == x;
      }
    }
    forall i | 0 <= i < |ns|
      ensures Add(c, n).nodes[all[i].id].priority == all[i].priority
    {
      assert all[i] == ns[i];
    }
  }

  /** The active node is the one at position `k`, the first of highest priority. */
  ghost predicate Elects(c: Cluster, ns: seq<Node>, k: nat) {
    Registered(c, ns) && FirstHighest(ns, k) && c.active == Some(ns[k].id)
  }

  lemma AddElects(c: Cluster, n: Node, ns: seq<Node>, k: nat)
    requires Elects(c, ns, k) && DistinctIds(ns + [n])
    ensures Elects(Add(c, n), ns + [n], if ns[k].priority < n.priority then |ns| else k)
  {
    AddRegisters(c, n, ns);
    assert c.nodes[ns[k].id].priority == ns[k].priority;
    NextHighest(ns, n, k);
  }

  lemma NextHighest(ns: seq<Node>, n: Node, k: nat)
    requires FirstHighest(ns, k)
    ensures FirstHighest(ns + [n], if ns[k].priority < n.priority then |ns| else k)
  {
  }

  lemma {:induction false} SomeElected(ns: seq<Node>) returns (k: nat)
    requires ns != [] && DistinctIds(ns)
    ensures Elects(AddAll(ns), ns, k)
  {
    var h := |ns| - 1;
    assert ns == ns[..h] + [ns[h]];
    if h == 0 {
      k := 0;
      AddRegisters(EMPTY, ns[0], []);
      assert [] + [ns[0]] == ns;
    } else {
      var j := SomeElected(ns[..h]);
      AddElects(AddAll(ns[..h]), ns[h], ns[..h], j);
      k := if ns[..h][j].priority < ns[h].priority then h else j;
    }
  }

  /** Of nodes that just register, the first of highest priority is active. */
  lemma AddsElectHighest(ns: seq<Node>, k: nat)
    requires DistinctIds(ns) && FirstHighest(ns, k)
    ensures AddAll(ns).active == Some(ns[k].id)
  {
    var j := SomeElected(ns);
    assert j == k;
  }

  /** A removal takes the node away, unless it is active and no failover is possible; an active node hands over to the
      best fit one first. No other node is touched. */
  lemma RemoveMoves(config: Config, c: Cluster, id: string, candidate: Option<string>)
    requires OneActive(c) && id in c.nodes && (c.active == Some(id) ==> IsCandidate(c.nodes, candidate))
    ensures var c' := Remove(config, c, id, candidate);
            && (id in c'.nodes <==> c.active == Some(id) && !CanMove(config, c.nodes))
            && c'.nodes.Keys == (if id in c'.nodes then c.nodes.Keys else c.nodes.Keys - {id})
            && (c.active != Some(id) || id in c'.nodes ==> c'.active == c.active)
            && (c.active == Some(id) && id !in c'.nodes ==> c'.active.Some? && BestFit(c.nodes, c'.active.value))
            && forall x :: x in c'.nodes ==>
                 c'.nodes[x] == c.nodes[x].(state := if c'.active == Some(x) then Active else StateOf(c, x))
  {
    if c.active == Some(id) {
      FailoverMoves(config, c, id, "node removed", candidate);
      RefusedIff(config, c, candidate);
      var c1 := FailoverTo(config, c, id, "node removed", candidate);
      if CanMove(config, c.nodes) {
        forall x | x in c.nodes && x != id
          ensures c1.nodes[x] == c.nodes[x].(state := if c1.active == Some(x) then Active else StateOf(c, x))
        {
          assert StateOf(c1, x) == if x == c1.active.value then Active else StateOf(c, x);
        }
      }
    }
  }

  /** A manual failover to a healthy standby node makes it active and the active node standby; any other is refused. */
  lemma ManualMoves(c: Cluster, to: string, reason: string)
    requires OneActive(c)
    ensures var c' := ManualFailover(c, to, reason);
            && c'.nodes.Keys == c.nodes.Keys
            && (c' != c <==> to in c.nodes && StateOf(c, to) == Standby && c.nodes[to].health >= 70)
            && (c' != c ==> c'.active == Some(to))
            && forall x :: x in c.nodes ==>
                 c'.nodes[x] == if c' == c then c.nodes[x]
                                else if x == to then c.nodes[x].(state := Active)
                                else if StateOf(c, x) == Active then c.nodes[x].(state := Standby)
                                else c.nodes[x]
  {
    var c' := ManualFailover(c, to, reason);
    if to in c.nodes && StateOf(c, to) == Standby && c.nodes[to].health >= 70 {
      assert |c'.events| > |c.events|;
    }
  }

  /** Failing over by hand and back again restores all nodes, if the node that was active is healthy. */
  lemma ManualThereAndBack(c: Cluster, a: string, b: string, reason: string, other: string)
    requires OneActive(c) && c.active == Some(a) && c.nodes[a].health >= 70
    requires ManualFailover(c, b, reason) != c
    ensures var back := ManualFailover(ManualFailover(c, b, reason), a, other);
            back.nodes == c.nodes && back.active == c.active
  {
    var there := ManualFailover(c, b, reason);
    ManualMoves(c, b, reason);
    ManualSound(c, b, reason);
    ManualMoves(there, a, other);
    var back := ManualFailover(there, a, other);
    forall x | x in c.nodes
      ensures back.nodes[x] == c.nodes[x]
    {
      assert there.nodes[x].id == c.nodes[x].id;
    }
  }

  // ----- The log

  /** The events from position `n` on that report success. */
  predicate Reports(events: seq<Event>, n: nat, e: Event) {
    exists i :: n <= i < |events| && events[i] == e && e.success
  }

  /** What is reported as a success happened: from the node that was active to the one that is now. */
  ghost predicate Truthful(c: Cluster, c': Cluster) {
    && c.events <= c'.events
    && (forall e :: Reports(c'.events, |c.events|, e) ==>
          && c'.active == Some(e.toNode) && c.active != c'.active
          && e.fromNode == if c.active.Some? then c.active.value else "")
    && (c.active.Some? && c'.active != c.active ==> exists e :: Reports(c'.events, |c.events|, e))
  }

  /** An attempt is logged if there is a fit node to take over, as a success exactly if the policy lets it happen. */
  lemma FailoverLogs(config: Config, c: Cluster, from: string, reason: string, candidate: Option<string>)
    requires IsCandidate(c.nodes, candidate)
    ensures var events := FailoverTo(config, c, from, reason, candidate).events;
            if exists x :: x in c.nodes && Fit(c.nodes[x]) then
              exists to :: BestFit(c.nodes, to) &&
                events == c.events + [Event(from, to, reason, CanMove(config, c.nodes), config.policy)]
            else events == c.events
  {
    RefusedIff(config, c, candidate);
    if candidate.Some? {
      assert BestFit(c.nodes, candidate.value);
    }
  }

  /** The attempts of a visit give their reason, and so does a manual failover, which goes by its own policy. */
  lemma ReasonsGiven(config: Config, c: Cluster, id: string, now: int, score: int, candidate: Option<string>,
                     to: string, reason: string)
    requires id in c.nodes && c.nodes[id].state == Active
    ensures TimedOut(config, c, id, now) ==>
              HeartbeatCheck(config, c, id, now, candidate) == FailoverTo(config, c, id, "heartbeat timeout", candidate)
    ensures score < 50 ==>
              HealthCheck(config, c, id, Some(score), candidate)
              == FailoverTo(config, Scored(c, id, score), id, "low health score", candidate)
    ensures c.active == Some(id) ==>
              Remove(config, c, id, candidate).events == FailoverTo(config, c, id, "node removed", candidate).events
    ensures c.active == Some(id) && ManualFailover(c, to, reason) != c ==>
              ManualFailover(c, to, reason).events == c.events + [Event(id, to, reason, true, Manual)]
  {
  }

  lemma FailoverTruthful(config: Config, c: Cluster, from: string, reason: string, candidate: Option<string>)
    requires OneActive(c) && c.active == Some(from) && IsCandidate(c.nodes, candidate)
    ensures Truthful(c, FailoverTo(config, c, from, reason, candidate))
  {
    var c' := FailoverTo(config, c, from, reason, candidate);
    if candidate.Some? && !Forbidden(config, c.nodes) {
      assert Reports(c'.events, |c.events|, c'.events[|c.events|]);
    }
  }

  lemma TruthfulTrans(c: Cluster, c1: Cluster, c2: Cluster)
    requires Truthful(c, c1) && Truthful(c1, c2) && (c1.active == c.active || c2.active == c1.active)
    ensures Truthful(c, c2)
  {
    forall e | Reports(c2.events, |c.events|, e)
      ensures Reports(c1.events, |c.events|, e) || Reports(c2.events, |c1.events|, e)
    {
      var i :| |c.events| <= i < |c2.events| && c2.events[i] == e;
      if i < |c1.events| {
        assert c1.events[i] == e;
      }
    }
    if e :| Reports(c1.events, |c.events|, e) {
      var i :| |c.events| <= i < |c1.events| && c1.events[i] == e;
      assert c2.events[i] == e;
      assert Reports(c2.events, |c.events|, e);
    }
    if e :| Reports(c2.events, |c1.events|, e) {
      assert Reports(c2.events, |c.events|, e);
    }
  }

  lemma VisitTruthful(config: Config, c: Cluster, id: string, now: int, score: Option<int>, c': Cluster)
    requires OneActive(c) && Visit(config, c, id, now, score, c')
    ensures Truthful(c, c')
  {
    var first, second :|
      && IsCandidate(c.nodes, first)
      && var c1 := HeartbeatCheck(config, c, id, now, first);
      && id in c1.nodes
      && IsCandidate((if score.Some? then Scored(c1, id, score.value) else c1).nodes, second)
      && c' == HealthCheck(config, c1, id, score, second);
    var c1 := HeartbeatCheck(config, c, id, now, first);
    HeartbeatSound(config, c, id, now, first);
    HeartbeatMoves(config, c, id, now, first);
    HealthMoves(config, c1, id, score, second);
    HeartbeatTruthful(config, c, id, now, first);
    HealthTruthful(config, c1, id, score, second);
    TruthfulTrans(c, c1, c');
  }

  lemma HeartbeatTruthful(config: Config, c: Cluster, id: string, now: int, candidate: Option<string>)
    requires OneActive(c) && id in c.nodes && IsCandidate(c.nodes, candidate)
    ensures Truthful(c, HeartbeatCheck(config, c, id, now, candidate))
  {
    if Expired(config, c.nodes[id], now) && c.nodes[id].state == Active {
      FailoverTruthful(config, c, id, "heartbeat timeout", candidate);
    }
  }

  lemma HealthTruthful(config: Config, c: Cluster, id: string, score: Option<int>, candidate: Option<string>)
    requires OneActive(c) && id in c.nodes
    requires IsCandidate((if score.Some? then Scored(c, id, score.value) else c).nodes, candidate)
    ensures Truthful(c, HealthCheck(config, c, id, score, candidate))
  {
    if score.Some? {
      var c1 := Scored(c, id, score.value);
      ScoredSound(c, id, score.value);
      if score.value < 50 && c1.nodes[id].state == Active {
        FailoverTruthful(config, c1, id, "low health score", candidate);
      }
    }
  }

  /** The log tells the truth, and all of it: an operation reports a success exactly if it makes another node active
      than the one that was, and then from that node to the new one; registering a node is not logged. */
  lemma NextTruthful(config: Config, c: Cluster, op: Op, c': Cluster)
    requires OneActive(c) && Next(config, c, op, c')
    ensures if op.AddNode? then c'.events == c.events else Truthful(c, c')
  {
    match op
    case AddNode(n) =>
    case RemoveNode(id) =>
      var candidate :|
        (c.active == Some(id) ==> IsCandidate(c.nodes, candidate)) && c' == Remove(config, c, id, candidate);
      if c.active == Some(id) {
        FailoverTruthful(config, c, id, "node removed", candidate);
      }
    case CheckNode(id, now, score) =>
      VisitTruthful(config, c, id, now, score, c');
    case PerformManualFailover(to, reason) =>
      if c' != c {
        assert Reports(c'.events, |c.events|, c'.events[|c.events|]);
      }
    case UpdateHeartbeat(id, now) =>
  }
}
