/** The failover manager of ha/failover.go as a state machine over cluster states.  The
    order in which Go ranges over the node map is left open: candidates and sweeps are
    relations.  The clock and the health checker's scores are parameters. */
module FailoverModel {
  import opened Wrappers

  datatype State = Active | Standby | FailingOver | Failed | Recovering | Unknown

  datatype Policy = Automatic | Manual | QuorumBased

  datatype Config = Config(policy: Policy, heartbeatTimeout: int, quorumSize: int)

  datatype Node = Node(id: string, priority: int, state: State, health: int, heartbeat: int)

  datatype Event = Event(fromNode: string, toNode: string, reason: string, success: bool, policy: Policy)

  datatype Cluster = Cluster(nodes: map<string, Node>, active: Option<string>, events: seq<Event>)

  // ----- Candidates and quorum

  /** Standby nodes that are healthy enough to take over; the search starts at -1. */
  predicate Eligible(n: Node) {
    n.state == Standby && n.health >= 70 && n.priority > -1
  }

  /** What the candidate search may return: an eligible node of highest priority. */
  ghost predicate IsCandidate(nodes: map<string, Node>, candidate: Option<string>) {
    match candidate
    case None => forall id :: id in nodes ==> !Eligible(nodes[id])
    case Some(best) =>
      && best in nodes && Eligible(nodes[best])
      && forall id :: id in nodes && Eligible(nodes[id]) ==> nodes[id].priority <= nodes[best].priority
  }

  /** A search has an outcome in every state. */
  lemma {:induction false} SomeCandidate(nodes: map<string, Node>) returns (candidate: Option<string>)
    ensures IsCandidate(nodes, candidate)
    decreases nodes.Keys
  {
    if nodes == map[] {
      candidate := None;
    } else {
      var id :| id in nodes;
      var rest := nodes - {id};
      assert rest.Keys == nodes.Keys - {id};
      assert forall x :: x in nodes ==> x == id || (x in rest && rest[x] == nodes[x]);
      candidate := SomeCandidate(rest);
      if Eligible(nodes[id]) && (candidate == None || nodes[id].priority > nodes[candidate.value].priority) {
        candidate := Some(id);
      }
    }
  }

  function Healthy(nodes: map<string, Node>): set<string> {
    set id | id in nodes && nodes[id].health >= 70
  }

  function HealthyAmong(nodes: map<string, Node>, ids: seq<string>): set<string>
    requires forall id :: id in ids ==> id in nodes
  {
    set id | id in ids && nodes[id].health >= 70
  }

  /** The number of healthy nodes among the listed ones. */
  function HealthyCount(nodes: map<string, Node>, ids: seq<string>): nat
    requires forall id :: id in ids ==> id in nodes
  {
    if ids == [] then 0
    else
      var last := ids[|ids| - 1];
      HealthyCount(nodes, ids[..|ids| - 1]) + if nodes[last].health >= 70 then 1 else 0
  }

  lemma AmongSnoc(nodes: map<string, Node>, ids: seq<string>, front: seq<string>, last: string)
    requires ids == front + [last] && forall id :: id in ids ==> id in nodes
    ensures HealthyAmong(nodes, ids)
         == if nodes[last].health >= 70 then HealthyAmong(nodes, front) + {last} else HealthyAmong(nodes, front)
  {
    assert last in ids && forall id :: id in ids <==> id in front || id == last;
  }

  lemma {:induction false} HealthyCountIsSize(nodes: map<string, Node>, ids: seq<string>)
    requires (forall id :: id in ids ==> id in nodes) && forall i, j :: 0 <= i < j < |ids| ==> ids[i] != ids[j]
    ensures HealthyCount(nodes, ids) == |HealthyAmong(nodes, ids)|
  {
    if ids != [] {
      var front, last := ids[..|ids| - 1], ids[|ids| - 1];
      HealthyCountIsSize(nodes, front);
      AmongSnoc(nodes, ids, front, last);
      assert last !in front;
    }
  }

  predicate Quorum(config: Config, nodes: map<string, Node>) {
    |Healthy(nodes)| >= config.quorumSize
  }

  /** The policy forbids an automatic failover in this state. */
  predicate Forbidden(config: Config, nodes: map<string, Node>) {
    config.policy == Manual || (config.policy == QuorumBased && !Quorum(config, nodes))
  }

  // ----- Transitions

  function WithState(nodes: map<string, Node>, id: string, state: State): (r: map<string, Node>)
    ensures r.Keys == nodes.Keys
  {
    if id in nodes then nodes[id := nodes[id].(state := state)] else nodes
  }

  function Demoted(c: Cluster): (r: map<string, Node>)
    ensures r.Keys == c.nodes.Keys
  {
    if c.active.Some? then WithState(c.nodes, c.active.value, Standby) else c.nodes
  }

  /** Automatic failover away from `from`, to the candidate found. */
  function FailoverTo(config: Config, c: Cluster, from: string, reason: string, candidate: Option<string>): Cluster {
    if candidate == None then c
    else
      var event := Event(from, candidate.value, reason, true, config.policy);
      if Forbidden(config, c.nodes) then c.(events := c.events + [event.(success := false)])
      else
        Cluster(
          WithState(WithState(Demoted(c), candidate.value, Active), from, Failed),
          candidate,
          c.events + [event])
  }

  predicate Refused(config: Config, c: Cluster, candidate: Option<string>) {
    candidate == None || Forbidden(config, c.nodes)
  }

  function Add(c: Cluster, n: Node): Cluster {
    if n.id in c.nodes then c
    else if c.active == None || (c.active.value in c.nodes && n.priority > c.nodes[c.active.value].priority) then
      c.(nodes := Demoted(c)[n.id := n.(state := Active)], active := Some(n.id))
    else c.(nodes := c.nodes[n.id := n.(state := Standby)])
  }

  function Remove(config: Config, c: Cluster, id: string, candidate: Option<string>): Cluster {
    if id !in c.nodes then c
    else if c.active == Some(id) then
      var c1 := FailoverTo(config, c, id, "node removed", candidate);
      if Refused(config, c, candidate) then c1 else c1.(nodes := c1.nodes - {id})
    else c.(nodes := c.nodes - {id})
  }

  function ManualFailover(c: Cluster, to: string, reason: string): Cluster {
    if to !in c.nodes || c.nodes[to].state != Standby || c.nodes[to].health < 70 then c
    else
      var from := if c.active.Some? then c.active.value else "";
      Cluster(WithState(Demoted(c), to, Active), Some(to), c.events + [Event(from, to, reason, true, Manual)])
  }

  predicate Expired(config: Config, n: Node, now: int) {
    now - n.heartbeat > config.heartbeatTimeout
  }

  function HeartbeatCheck(config: Config, c: Cluster, id: string, now: int, candidate: Option<string>): Cluster
    requires id in c.nodes
  {
    if !Expired(config, c.nodes[id], now) then c
    else if c.nodes[id].state == Active then FailoverTo(config, c, id, "heartbeat timeout", candidate)
    else c.(nodes := WithState(c.nodes, id, Failed))
  }

  function Scored(c: Cluster, id: string, score: int): (r: Cluster)
    requires id in c.nodes
    ensures r.nodes.Keys == c.nodes.Keys
  {
    c.(nodes := c.nodes[id := c.nodes[id].(health := score)])
  }

  /** The second half of a visit, when a health checker gives a score. */
  function HealthCheck(config: Config, c: Cluster, id: string, score: Option<int>, candidate: Option<string>): Cluster
    requires id in c.nodes
  {
    if score == None then c
    else
      var c1 := Scored(c, id, score.value);
      if score.value < 50 && c1.nodes[id].state == Active
      then FailoverTo(config, c1, id, "low health score", candidate)
      else c1
  }

  /** One iteration of the sweep; each failover attempt searches for its own candidate. */
  ghost predicate Visit(config: Config, c: Cluster, id: string, now: int, score: Option<int>, c': Cluster) {
    id in c.nodes &&
    exists first, second ::
      && IsCandidate(c.nodes, first)
      && var c1 := HeartbeatCheck(config, c, id, now, first);
      && id in c1.nodes
      && IsCandidate((if score.Some? then Scored(c1, id, score.value) else c1).nodes, second)
      && c' == HealthCheck(config, c1, id, score, second)
  }

  // ----- Exactly one active node

  /** With nodes registered exactly one of them is Active, and it is the active node. */
  ghost predicate OneActive(c: Cluster) {
    && (forall id :: id in c.nodes ==> c.nodes[id].id == id)
    && (c.active == None <==> c.nodes == map[])
    && (c.active.Some? ==> c.active.value in c.nodes)
    && (forall id :: id in c.nodes ==> (c.nodes[id].state == Active <==> c.active == Some(id)))
  }

  // ----- Failed is final, and counts successes

  /** Nodes registered and not failed. */
  function Usable(c: Cluster): set<string> {
    set id | id in c.nodes && c.nodes[id].state != Failed
  }

  /** Successful automatic failovers: the manager's own policy is never Manual for them. */
  function Successes(events: seq<Event>): nat {
    if events == [] then 0
    else
      var last := events[|events| - 1];
      Successes(events[..|events| - 1]) + if last.success && last.policy != Manual then 1 else 0
  }

  lemma SuccessesSnoc(events: seq<Event>, e: Event)
    ensures Successes(events + [e]) == Successes(events) + (if e.success && e.policy != Manual then 1 else 0)
  {
    assert (events + [e])[..|events + [e]| - 1] == events;
  }

  /** Where both states have a node, its failure persists. */
  ghost predicate FailuresPersist(c: Cluster, c': Cluster) {
    forall id :: id in c.nodes && id in c'.nodes && c.nodes[id].state == Failed ==> c'.nodes[id].state == Failed
  }

  /** No node becomes usable, and each success costs one. */
  ghost predicate Pays(c: Cluster, c': Cluster) {
    Usable(c') <= Usable(c) && Successes(c'.events) + |Usable(c')| <= Successes(c.events) + |Usable(c)|
  }

  /** The active node stays in place or fails. */
  ghost predicate MovesByFailing(c: Cluster, c': Cluster) {
    c'.active == c.active || (c.active.Some? && c.active.value in c'.nodes && c'.nodes[c.active.value].state == Failed)
  }

  /** What every check of the sweep does to the cluster at most. */
  ghost predicate Sound(c: Cluster, c': Cluster) {
    && OneActive(c')
    && c'.nodes.Keys == c.nodes.Keys
    && (forall id :: id in c.nodes ==> c'.nodes[id].heartbeat == c.nodes[id].heartbeat)
    && MovesByFailing(c, c')
    && FailuresPersist(c, c')
    && Pays(c, c')
  }

  lemma SoundTrans(c: Cluster, c1: Cluster, c2: Cluster)
    requires Sound(c, c1) && Sound(c1, c2)
    ensures Sound(c, c2)
  {
  }

  lemma UsableShrinks(c: Cluster, c': Cluster, id: string)
    requires Usable(c') <= Usable(c) && id in Usable(c) && id !in Usable(c')
    ensures |Usable(c')| < |Usable(c)|
  {
    assert Usable(c') <= Usable(c) - {id};
    SubsetSize(Usable(c'), Usable(c) - {id});
  }

  lemma {:induction false} SubsetSize(a: set<string>, b: set<string>)
    requires a <= b
    ensures |a| <= |b|
  {
    if a != {} {
      var x :| x in a;
      SubsetSize(a - {x}, b - {x});
    }
  }

  /** A failover away from the active node takes that node out of the usable ones. */
  lemma FailoverSound(config: Config, c: Cluster, from: string, reason: string, candidate: Option<string>)
    requires OneActive(c) && c.active == Some(from) && IsCandidate(c.nodes, candidate)
    ensures Sound(c, FailoverTo(config, c, from, reason, candidate))
    ensures
      var c' := FailoverTo(config, c, from, reason, candidate);
      if Refused(config, c, candidate) then c'.nodes == c.nodes && c'.active == c.active
      else c'.nodes[from].state == Failed && c'.active == candidate
  {
    var c' := FailoverTo(config, c, from, reason, candidate);
    if candidate != None {
      SuccessesSnoc(c.events, c'.events[|c.events|]);
      if !Forbidden(config, c.nodes) {
        UsableShrinks(c, c', from);
      }
    }
  }

  lemma HeartbeatSound(config: Config, c: Cluster, id: string, now: int, candidate: Option<string>)
    requires OneActive(c) && id in c.nodes && IsCandidate(c.nodes, candidate)
    ensures Sound(c, HeartbeatCheck(config, c, id, now, candidate))
    ensures
      var c' := HeartbeatCheck(config, c, id, now, candidate);
      Expired(config, c.nodes[id], now) ==>
        c'.nodes[id].state == Failed || (c'.active == Some(id) && c'.nodes == c.nodes && Refused(config, c, candidate))
  {
    var c' := HeartbeatCheck(config, c, id, now, candidate);
    if Expired(config, c.nodes[id], now) {
      if c.nodes[id].state == Active {
        FailoverSound(config, c, id, "heartbeat timeout", candidate);
      } else {
        assert Usable(c') <= Usable(c);
        SubsetSize(Usable(c'), Usable(c));
      }
    }
  }

  lemma ScoredSound(c: Cluster, id: string, score: int)
    requires OneActive(c) && id in c.nodes
    ensures Sound(c, Scored(c, id, score))
  {
    assert Usable(Scored(c, id, score)) == Usable(c);
  }

  lemma HealthSound(config: Config, c: Cluster, id: string, score: Option<int>, candidate: Option<string>)
    requires OneActive(c) && id in c.nodes
    requires IsCandidate((if score.Some? then Scored(c, id, score.value) else c).nodes, candidate)
    ensures Sound(c, HealthCheck(config, c, id, score, candidate))
  {
    if score.Some? {
      var c1 := Scored(c, id, score.value);
      ScoredSound(c, id, score.value);
      if score.value < 50 && c1.nodes[id].state == Active {
        FailoverSound(config, c1, id, "low health score", candidate);
        SoundTrans(c, c1, FailoverTo(config, c1, id, "low health score", candidate));
      }
    }
  }

  /** After its visit an expired node has failed, or it is the active node and the
      failover away from it was refused. */
  lemma VisitSound(config: Config, c: Cluster, id: string, now: int, score: Option<int>, c': Cluster)
    requires OneActive(c) && Visit(config, c, id, now, score, c')
    ensures Sound(c, c')
    ensures Expired(config, c.nodes[id], now) ==>
              c'.nodes[id].state == Failed || (c.active == Some(id) && RefusedAt(config, c))
  {
    var first, second :|
      && IsCandidate(c.nodes, first)
      && var c1 := HeartbeatCheck(config, c, id, now, first);
      && id in c1.nodes
      && IsCandidate((if score.Some? then Scored(c1, id, score.value) else c1).nodes, second)
      && c' == HealthCheck(config, c1, id, score, second);
    var c1 := HeartbeatCheck(config, c, id, now, first);
    HeartbeatSound(config, c, id, now, first);
    HealthSound(config, c1, id, score, second);
    SoundTrans(c, c1, c');
  }

  /** A failover in this state is refused: nobody can take over, or the policy forbids it. */
  ghost predicate RefusedAt(config: Config, c: Cluster) {
    Forbidden(config, c.nodes) || forall id :: id in c.nodes ==> !Eligible(c.nodes[id])
  }

  // ----- Sweeps

  /** Without a checker there is no score; a node unknown to the checker scores 0. */
  function ScoreOf(checker: Option<map<string, int>>, id: string): Option<int> {
    if checker == None then None
    else Some(if id in checker.value then checker.value[id] else 0)
  }

  /** Iteration `k` of a sweep in the given order; `trace` holds the states between. */
  ghost predicate VisitAt(config: Config, now: int, checker: Option<map<string, int>>, order: seq<string>,
                          trace: seq<Cluster>, k: nat)
    requires |trace| == |order| + 1 && k < |order|
  {
    Visit(config, trace[k], order[k], now, ScoreOf(checker, order[k]), trace[k + 1])
  }

  /** A sweep visits every node once, in some order. */
  ghost predicate Sweep(config: Config, now: int, checker: Option<map<string, int>>, order: seq<string>,
                        trace: seq<Cluster>)
  {
    && |trace| == |order| + 1
    && (forall id :: id in order <==> id in trace[0].nodes)
    && (forall i, j :: 0 <= i < j < |order| ==> order[i] != order[j])
    && (forall k: nat :: k < |order| ==> VisitAt(config, now, checker, order, trace, k))
  }

  /** The first `|trace| - 1` iterations of a sweep. */
  ghost predicate SweepPrefix(config: Config, now: int, checker: Option<map<string, int>>, order: seq<string>,
                              trace: seq<Cluster>)
  {
    && 1 <= |trace| <= |order| + 1
    && forall k: nat, l: nat :: l < |trace| && l == k + 1 ==>
         Visit(config, trace[k], order[k], now, ScoreOf(checker, order[k]), trace[l])
  }

  lemma SweepStep(config: Config, now: int, checker: Option<map<string, int>>, order: seq<string>,
                  trace: seq<Cluster>, c: Cluster)
    requires SweepPrefix(config, now, checker, order, trace) && |trace| <= |order|
    requires Visit(config, trace[|trace| - 1], order[|trace| - 1], now, ScoreOf(checker, order[|trace| - 1]), c)
    ensures SweepPrefix(config, now, checker, order, trace + [c])
  {
  }

  lemma SweepDone(config: Config, now: int, checker: Option<map<string, int>>, order: seq<string>, trace: seq<Cluster>)
    requires SweepPrefix(config, now, checker, order, trace) && |trace| == |order| + 1
    requires forall id :: id in order <==> id in trace[0].nodes
    requires forall i, j :: 0 <= i < j < |order| ==> order[i] != order[j]
    ensures Sweep(config, now, checker, order, trace)
  {
    forall k: nat | k < |order|
      ensures VisitAt(config, now, checker, order, trace, k)
    {
      assert trace[k + 1] == trace[k + 1];
    }
  }

  lemma {:induction false} SweepSound(config: Config, now: int, checker: Option<map<string, int>>, order: seq<string>,
                                      trace: seq<Cluster>, lo: nat, hi: nat)
    requires Sweep(config, now, checker, order, trace) && lo <= hi < |trace| && OneActive(trace[lo])
    ensures Sound(trace[lo], trace[hi])
    decreases hi
  {
    if lo < hi {
      SweepSound(config, now, checker, order, trace, lo, hi - 1);
      assert VisitAt(config, now, checker, order, trace, hi - 1);
      VisitSound(config, trace[hi - 1], order[hi - 1], now, ScoreOf(checker, order[hi - 1]), trace[hi]);
      SoundTrans(trace[lo], trace[hi - 1], trace[hi]);
    }
  }

  ghost predicate FailedOrRefused(config: Config, order: seq<string>, trace: seq<Cluster>, id: string)
    requires |trace| == |order| + 1
  {
    var last := trace[|order|];
    && id in last.nodes
    && (last.nodes[id].state == Failed ||
        (last.active == Some(id) && exists k :: 0 <= k < |order| && order[k] == id && RefusedAt(config, trace[k])))
  }

  lemma AfterVisit(config: Config, now: int, checker: Option<map<string, int>>, order: seq<string>,
                   trace: seq<Cluster>, k: nat)
    requires Sweep(config, now, checker, order, trace) && k < |order| && OneActive(trace[k])
    requires order[k] in trace[k].nodes && Expired(config, trace[k].nodes[order[k]], now)
    ensures FailedOrRefused(config, order, trace, order[k])
  {
    var id := order[k];
    assert VisitAt(config, now, checker, order, trace, k);
    VisitSound(config, trace[k], id, now, ScoreOf(checker, id), trace[k + 1]);
    if trace[k + 1].nodes[id].state == Failed {
      SweepSound(config, now, checker, order, trace, k + 1, |order|);
    } else {
      SweepSound(config, now, checker, order, trace, k, |order|);
    }
  }

  /** After a sweep in any order every expired node has failed, except possibly the
      active one, and then the failover away from it was refused at its visit. */
  lemma SweepFailsExpired(config: Config, now: int, checker: Option<map<string, int>>, order: seq<string>,
                          trace: seq<Cluster>, id: string)
    requires Sweep(config, now, checker, order, trace) && OneActive(trace[0])
    requires id in trace[0].nodes && Expired(config, trace[0].nodes[id], now)
    ensures FailedOrRefused(config, order, trace, id)
  {
    var k :| 0 <= k < |order| && order[k] == id;
    SweepSound(config, now, checker, order, trace, 0, k);
    AfterVisit(config, now, checker, order, trace, k);
  }

  // ----- Runs

  datatype Op =
    | AddNode(node: Node)
    | RemoveNode(id: string)
    | CheckNode(id: string, now: int, score: Option<int>)
    | PerformManualFailover(to: string, reason: string)
    | UpdateHeartbeat(id: string, now: int)

  function Beat(c: Cluster, id: string, now: int): Cluster {
    if id in c.nodes then c.(nodes := c.nodes[id := c.nodes[id].(heartbeat := now)]) else c
  }

  /** One operation; a sweep is a succession of `CheckNode` steps. */
  ghost predicate Next(config: Config, c: Cluster, op: Op, c': Cluster) {
    match op
    case AddNode(n) => c' == Add(c, n)
    case RemoveNode(id) =>
      exists candidate ::
        (c.active == Some(id) ==> IsCandidate(c.nodes, candidate)) && c' == Remove(config, c, id, candidate)
    case CheckNode(id, now, score) => Visit(config, c, id, now, score, c')
    case PerformManualFailover(to, reason) => c' == ManualFailover(c, to, reason)
    case UpdateHeartbeat(id, now) => c' == Beat(c, id, now)
  }

  /** Whether the operation registers a node. */
  predicate Registers(c: Cluster, op: Op) {
    op.AddNode? && op.node.id !in c.nodes
  }

  const EMPTY := Cluster(map[], None, [])

  /** Step `k` of a run. */
  ghost predicate NextAt(config: Config, states: seq<Cluster>, ops: seq<Op>, k: nat)
    requires |states| == |ops| + 1 && k < |ops|
  {
    Next(config, states[k], ops[k], states[k + 1])
  }

  ghost predicate IsRun(config: Config, states: seq<Cluster>, ops: seq<Op>) {
    && |states| == |ops| + 1
    && states[0] == EMPTY
    && forall k: nat :: k < |ops| ==> NextAt(config, states, ops, k)
  }

  function Registrations(states: seq<Cluster>, ops: seq<Op>, i: nat): nat
    requires |states| == |ops| + 1 && i <= |ops|
  {
    if i == 0 then 0
    else Registrations(states, ops, i - 1) + (if Registers(states[i - 1], ops[i - 1]) then 1 else 0)
  }

  lemma AddSound(c: Cluster, n: Node)
    requires OneActive(c)
    ensures OneActive(Add(c, n)) && FailuresPersist(c, Add(c, n)) && Add(c, n).events == c.events
    ensures Usable(Add(c, n)) == if n.id in c.nodes then Usable(c) else Usable(c) + {n.id}
  {
  }

  lemma RemoveSound(config: Config, c: Cluster, id: string, candidate: Option<string>)
    requires OneActive(c) && (c.active == Some(id) ==> IsCandidate(c.nodes, candidate))
    ensures OneActive(Remove(config, c, id, candidate))
    ensures FailuresPersist(c, Remove(config, c, id, candidate)) && Pays(c, Remove(config, c, id, candidate))
  {
    var c' := Remove(config, c, id, candidate);
    if id in c.nodes {
      if c.active == Some(id) {
        FailoverSound(config, c, id, "node removed", candidate);
        assert c'.active.value in c'.nodes;
        assert Usable(c') <= Usable(FailoverTo(config, c, id, "node removed", candidate));
        SubsetSize(Usable(c'), Usable(FailoverTo(config, c, id, "node removed", candidate)));
      } else {
        assert c.active.value in c'.nodes;
        SubsetSize(Usable(c'), Usable(c));
      }
    }
  }

  lemma ManualSound(c: Cluster, to: string, reason: string)
    requires OneActive(c)
    ensures var c' := ManualFailover(c, to, reason);
            OneActive(c') && c'.nodes.Keys == c.nodes.Keys && FailuresPersist(c, c') && Pays(c, c')
  {
    var c' := ManualFailover(c, to, reason);
    if c' != c {
      SuccessesSnoc(c.events, c'.events[|c.events|]);
      assert Usable(c') == Usable(c);
    }
  }

  /** One operation keeps exactly one active node, makes no failed node usable, and
      spends a usable node on every success. */
  lemma NextSound(config: Config, c: Cluster, op: Op, c': Cluster)
    requires OneActive(c) && Next(config, c, op, c')
    ensures OneActive(c') && FailuresPersist(c, c')
    ensures Successes(c'.events) + |Usable(c')|
         <= Successes(c.events) + |Usable(c)| + (if Registers(c, op) then 1 else 0)
  {
    match op
    case AddNode(n) =>
      AddSound(c, n);
    case RemoveNode(id) =>
      var candidate :|
        (c.active == Some(id) ==> IsCandidate(c.nodes, candidate)) && c' == Remove(config, c, id, candidate);
      RemoveSound(config, c, id, candidate);
    case CheckNode(id, now, score) =>
      VisitSound(config, c, id, now, score, c');
    case PerformManualFailover(to, reason) =>
      ManualSound(c, to, reason);
    case UpdateHeartbeat(id, now) =>
      assert Usable(c') == Usable(c);
  }

  /** One active node, and no more successes and usable nodes than `registered`. */
  ghost predicate Accounted(c: Cluster, registered: nat) {
    OneActive(c) && Successes(c.events) + |Usable(c)| <= registered
  }

  lemma NextAccounted(config: Config, c: Cluster, op: Op, c': Cluster, registered: nat)
    requires Accounted(c, registered) && Next(config, c, op, c')
    ensures Accounted(c', registered + if Registers(c, op) then 1 else 0)
  {
    NextSound(config, c, op, c');
  }

  lemma {:induction false} RunAccounted(config: Config, states: seq<Cluster>, ops: seq<Op>, i: nat)
    requires IsRun(config, states, ops) && i <= |ops|
    ensures Accounted(states[i], Registrations(states, ops, i))
  {
    if i > 0 {
      RunAccounted(config, states, ops, i - 1);
      assert NextAt(config, states, ops, i - 1);
      NextAccounted(config, states[i - 1], ops[i - 1], states[i], Registrations(states, ops, i - 1));
    }
  }

  lemma RunSound(config: Config, states: seq<Cluster>, ops: seq<Op>, i: nat)
    requires IsRun(config, states, ops) && i <= |ops|
    ensures OneActive(states[i])
    ensures Successes(states[i].events) + |Usable(states[i])| <= Registrations(states, ops, i)
  {
    RunAccounted(config, states, ops, i);
  }

  /** In every reachable state with nodes exactly one node is Active, and it is the
      active node; and successful automatic failovers number fewer than registrations. */
  lemma RunSafe(config: Config, states: seq<Cluster>, ops: seq<Op>, i: nat)
    requires IsRun(config, states, ops) && i <= |ops|
    ensures OneActive(states[i])
    ensures Registrations(states, ops, i) > 0 ==> Successes(states[i].events) <= Registrations(states, ops, i) - 1
    ensures Registrations(states, ops, i) == 0 ==> Successes(states[i].events) == 0
  {
    RunSound(config, states, ops, i);
    StaysPopulated(config, states, ops, i);
    if states[i].active.Some? {
      assert states[i].active.value in Usable(states[i]);
    }
  }

  /** The last node cannot be removed. */
  lemma {:induction false} StaysPopulated(config: Config, states: seq<Cluster>, ops: seq<Op>, i: nat)
    requires IsRun(config, states, ops) && i <= |ops|
    ensures states[i].nodes == map[] <==> Registrations(states, ops, i) == 0
  {
    if i > 0 {
      StaysPopulated(config, states, ops, i - 1);
      RunSound(config, states, ops, i - 1);
      assert NextAt(config, states, ops, i - 1);
      NextPopulated(config, states[i - 1], ops[i - 1], states[i]);
    }
  }

  lemma NextPopulated(config: Config, c: Cluster, op: Op, c': Cluster)
    requires OneActive(c) && Next(config, c, op, c')
    ensures c'.nodes == map[] <==> c.nodes == map[] && !Registers(c, op)
  {
    match op
    case AddNode(n) =>
    case RemoveNode(id) =>
      var candidate :|
        (c.active == Some(id) ==> IsCandidate(c.nodes, candidate)) && c' == Remove(config, c, id, candidate);
      if id in c.nodes {
        RemoveSound(config, c, id, candidate);
        if c.active == Some(id) {
          FailoverSound(config, c, id, "node removed", candidate);
          assert c'.active.Some? && c'.active.value in c'.nodes;
        } else {
          assert c.active.value in c'.nodes;
        }
      }
    case CheckNode(id, now, score) =>
      VisitSound(config, c, id, now, score, c');
      assert id in c'.nodes;
    case PerformManualFailover(to, reason) =>
      ManualSound(c, to, reason);
    case UpdateHeartbeat(id, now) =>
  }

  /** Failed is final: while a node stays registered it never leaves that state. */
  lemma {:induction false} FailedIsFinal(config: Config, states: seq<Cluster>, ops: seq<Op>, i: nat, j: nat, id: string)
    requires IsRun(config, states, ops) && i <= j <= |ops|
    requires forall k :: i <= k <= j ==> id in states[k].nodes
    requires states[i].nodes[id].state == Failed
    ensures states[j].nodes[id].state == Failed
    decreases j
  {
    if i < j {
      FailedIsFinal(config, states, ops, i, j - 1, id);
      RunSound(config, states, ops, j - 1);
      assert NextAt(config, states, ops, j - 1);
      NextSound(config, states[j - 1], ops[j - 1], states[j]);
    }
  }
}

/** The manager as the source has it: the registry and the active field share node objects, whose
    states are updated in place. */
module Failover {
  import M = FailoverModel
  import opened FailoverModel
  import opened MapOrder
  import opened Wrappers

  class NodeObject {
    const id: string
    const priority: int
    var state: State
    var healthScore: int
    var lastHeartbeat: int

    constructor (id: string, priority: int, healthScore: int, lastHeartbeat: int)
      ensures View() == M.Node(id, priority, Unknown, healthScore, lastHeartbeat)
    {
      this.id, this.priority, state := id, priority, Unknown;
      this.healthScore, this.lastHeartbeat := healthScore, lastHeartbeat;
    }

    function View(): M.Node
      reads this
    {
      M.Node(id, priority, state, healthScore, lastHeartbeat)
    }

    method UpdateHeartbeat(now: int)
      modifies this`lastHeartbeat
      ensures View() == old(View()).(heartbeat := now)
    {
      lastHeartbeat := now;
    }
  }

  class FailoverManager {
    const config: Config
    var nodes: map<string, NodeObject>
    var activeNode: NodeObject?
    var events: seq<Event>

    constructor (config: Config)
      ensures this.config == config && Valid() && Abs() == EMPTY
    {
      this.config := config;
      nodes, activeNode, events := map[], null, [];
    }

    /** Nodes are registered under their own ID, and the active one is registered. */
    ghost predicate Valid()
      reads this, nodes.Values
    {
      && (forall id :: id in nodes ==> nodes[id].id == id)
      && (activeNode != null ==> Holds(activeNode))
    }

    /** The object is the one registered under its ID. */
    ghost predicate Holds(node: NodeObject)
      reads this
    {
      node.id in nodes && nodes[node.id] == node
    }

    function Views(): (r: map<string, M.Node>)
      reads this, nodes.Values
      ensures r.Keys == nodes.Keys
    {
      map id | id in nodes :: nodes[id].View()
    }

    function Abs(): Cluster
      reads this, nodes.Values
      reads if activeNode == null then {} else {activeNode}
    {
      Cluster(Views(), if activeNode == null then None else Some(activeNode.id), events)
    }

    method GetNode(id: string) returns (node: NodeObject?)
      requires Valid()
      ensures node == if id in nodes then nodes[id] else null
    {
      node := if id in nodes then nodes[id] else null;
    }

    method SetState(node: NodeObject, state: State)
      requires Valid() && Holds(node)
      modifies node`state
      ensures Valid() && Views() == WithState(old(Views()), node.id, state)
    {
      node.state := state;
    }

    /** Demotes the active node, if any, and makes `node` the active one. */
    method SwitchActive(node: NodeObject)
      requires Valid() && Holds(node)
      modifies this`activeNode, nodes.Values
      ensures Valid() && activeNode == node
      ensures Views() == WithState(Demoted(old(Abs())), node.id, Active)
    {
      if activeNode != null {
        SetState(activeNode, Standby);
      }
      SetState(node, Active);
      activeNode := node;
    }

    method Register(node: NodeObject, state: State)
      requires Valid() && node.id !in nodes
      modifies this`nodes, node`state
      ensures Valid() && nodes == old(nodes)[node.id := node] && node.state == state
      ensures Views() == old(Views())[node.id := old(node.View()).(state := state)]
    {
      node.state := state;
      nodes := nodes[node.id := node];
    }

    /** Makes a new node the active one. */
    method Promote(node: NodeObject)
      requires Valid() && node.id !in nodes
      modifies this`nodes, this`activeNode, node`state, nodes.Values
      ensures Valid() && nodes == old(nodes)[node.id := node] && activeNode == node
      ensures Views() == Demoted(old(Abs()))[node.id := old(node.View()).(state := Active)]
    {
      if activeNode != null {
        SetState(activeNode, Standby);
      }
      Register(node, Active);
      activeNode := node;
    }

    method AddNode(node: NodeObject) returns (added: bool)
      requires Valid()
      modifies this`nodes, this`activeNode, node`state, nodes.Values
      ensures Valid() && added == (node.id !in old(nodes))
      ensures nodes == if added then old(nodes)[node.id := node] else old(nodes)
      ensures Abs() == Add(old(Abs()), old(node.View()))
    {
      if node.id in nodes {
        return false;
      }
      if activeNode == null || node.priority > activeNode.priority {
        Promote(node);
      } else {
        Register(node, Standby);
      }
      return true;
    }

    /** The scan keeps the first node of strictly highest priority so far. */
    method SelectFailoverCandidate() returns (candidate: NodeObject?)
      requires Valid()
      ensures candidate != null ==> Holds(candidate)
      ensures IsCandidate(Views(), if candidate == null then None else Some(candidate.id))
    {
      candidate := null;
      var highestPriority := -1;
      var order := Ordering(nodes.Keys);
      for i := 0 to |order|
        invariant candidate == null ==> highestPriority == -1
        invariant candidate != null ==>
          Holds(candidate) && Eligible(candidate.View()) && candidate.priority == highestPriority
        invariant forall j :: 0 <= j < i && Eligible(nodes[order[j]].View()) ==>
          candidate != null && nodes[order[j]].priority <= highestPriority
      {
        var node := nodes[order[i]];
        if node.state == Standby && node.healthScore >= 70 {
          if node.priority > highestPriority {
            highestPriority, candidate := node.priority, node;
          }
        }
      }
    }

    method CheckQuorum() returns (reached: bool)
      requires Valid()
      ensures reached == Quorum(config, Views())
    {
      var healthyNodes := 0;
      var order := Ordering(nodes.Keys);
      ghost var views := Views();
      for i := 0 to |order|
        invariant healthyNodes == HealthyCount(views, order[..i])
      {
        assert order[..i + 1][..i] == order[..i];
        if nodes[order[i]].healthScore >= 70 {
          healthyNodes := healthyNodes + 1;
        }
      }
      assert order[..|order|] == order;
      HealthyCountIsSize(views, order);
      assert HealthyAmong(views, order) == Healthy(views);
      reached := healthyNodes >= config.quorumSize;
    }

    /** The guards of an automatic failover. */
    method IsForbidden() returns (forbidden: bool)
      requires Valid()
      ensures forbidden == Forbidden(config, Views())
    {
      if config.policy == Manual {
        return true;
      }
      if config.policy == QuorumBased {
        var reached := CheckQuorum();
        return !reached;
      }
      return false;
    }

    method PerformFailoverUnsafe(from: string, reason: string) returns (done: bool, ghost candidate: Option<string>)
      requires Valid() && activeNode != null && activeNode.id == from
      modifies this`activeNode, this`events, nodes.Values
      ensures Valid() && IsCandidate(old(Views()), candidate)
      ensures Abs() == FailoverTo(config, old(Abs()), from, reason, candidate)
      ensures done == !Refused(config, old(Abs()), candidate)
    {
      var node := SelectFailoverCandidate();
      if node == null {
        return false, None;
      }
      candidate := Some(node.id);
      var event := Event(from, node.id, reason, true, config.policy);
      var forbidden := IsForbidden();
      if forbidden {
        Record(event.(success := false));
        return false, candidate;
      }
      Execute(node, from, event);
      return true, candidate;
    }

    method Record(event: Event)
      requires Valid()
      modifies this`events
      ensures Valid() && Abs() == old(Abs()).(events := old(events) + [event])
    {
      events := events + [event];
    }

    /** Carries out an automatic failover that nothing forbids. */
    method Execute(node: NodeObject, from: string, event: Event)
      requires Valid() && Holds(node) && from in nodes
      modifies this`activeNode, this`events, nodes.Values
      ensures Valid()
      ensures Abs() == Cluster(
                         WithState(WithState(Demoted(old(Abs())), node.id, Active), from, Failed),
                         Some(node.id),
                         old(events) + [event])
    {
      SwitchActive(node);
      SetState(nodes[from], Failed);
      events := events + [event];
    }

    method RemoveNode(nodeID: string) returns (removed: bool, ghost candidate: Option<string>)
      requires Valid() && (activeNode != null ==> activeNode.state == Active)
      modifies this, nodes.Values
      ensures Valid() && (old(Abs()).active == Some(nodeID) ==> IsCandidate(old(Views()), candidate))
      ensures Abs() == Remove(config, old(Abs()), nodeID, candidate)
      ensures removed <==> nodeID in old(nodes) && nodeID !in nodes
    {
      candidate := None;
      if nodeID !in nodes {
        return false, candidate;
      }
      if activeNode != null && activeNode.id == nodeID {
        var done;
        done, candidate := PerformFailoverUnsafe(nodeID, "node removed");
        if !done {
          return false, candidate;
        }
      }
      Unregister(nodeID);
      return true, candidate;
    }

    method Unregister(nodeID: string)
      requires Valid() && nodeID in nodes && (activeNode != null ==> activeNode.id != nodeID)
      modifies this`nodes
      ensures Valid() && nodes == old(nodes) - {nodeID} && Views() == old(Views()) - {nodeID}
    {
      nodes := nodes - {nodeID};
    }

    method PerformManualFailover(toNodeID: string, reason: string) returns (done: bool)
      requires Valid()
      modifies this`activeNode, this`events, nodes.Values
      ensures Valid() && Abs() == ManualFailover(old(Abs()), toNodeID, reason)
      ensures done <==>
                && toNodeID in nodes && old(nodes[toNodeID].state) == Standby
                && old(nodes[toNodeID].healthScore) >= 70
    {
      if toNodeID !in nodes {
        return false;
      }
      var target := nodes[toNodeID];
      if target.state != Standby || target.healthScore < 70 {
        return false;
      }
      var from := "";
      if activeNode != null {
        from := activeNode.id;
      }
      SwitchActive(target);
      events := events + [Event(from, toNodeID, reason, true, Manual)];
      return true;
    }

    method CheckHeartbeat(id: string, now: int) returns (ghost candidate: Option<string>)
      requires Valid() && OneActive(Abs()) && id in nodes
      modifies this`activeNode, this`events, nodes.Values
      ensures Valid() && IsCandidate(old(Views()), candidate)
      ensures Abs() == HeartbeatCheck(config, old(Abs()), id, now, candidate)
    {
      var node := nodes[id];
      candidate := SomeCandidate(Views());
      if now - node.lastHeartbeat > config.heartbeatTimeout {
        if node.state == Active {
          var done;
          done, candidate := PerformFailoverUnsafe(id, "heartbeat timeout");
        } else {
          SetState(node, Failed);
        }
      }
    }

    method SetScore(node: NodeObject, score: int)
      requires Valid() && Holds(node)
      modifies node`healthScore
      ensures Valid() && Abs() == Scored(old(Abs()), node.id, score)
    {
      node.healthScore := score;
    }

    method CheckScore(id: string, score: Option<int>) returns (ghost candidate: Option<string>)
      requires Valid() && OneActive(Abs()) && id in nodes
      modifies this`activeNode, this`events, nodes.Values
      ensures Valid()
      ensures
        var c := old(Abs());
        IsCandidate((if score.Some? then Scored(c, id, score.value) else c).nodes, candidate)
      ensures Abs() == HealthCheck(config, old(Abs()), id, score, candidate)
    {
      if score.Some? {
        SetScore(nodes[id], score.value);
      }
      candidate := SomeCandidate(Views());
      if score.Some? && score.value < 50 && nodes[id].state == Active {
        var done;
        done, candidate := PerformFailoverUnsafe(id, "low health score");
      }
    }

    method CheckNode(id: string, now: int, score: Option<int>)
      requires Valid() && OneActive(Abs()) && id in nodes
      modifies this`activeNode, this`events, nodes.Values
      ensures Valid() && Visit(config, old(Abs()), id, now, score, Abs())
      ensures OneActive(Abs()) && Abs().nodes.Keys == old(Abs()).nodes.Keys
    {
      ghost var c := Abs();
      ghost var first := CheckHeartbeat(id, now);
      HeartbeatSound(config, c, id, now, first);
      ghost var second := CheckScore(id, score);
      VisitSound(config, c, id, now, score, Abs());
    }

    /** One iteration of the sweep. */
    method VisitNext(now: int, checker: Option<map<string, int>>, ids: seq<string>, i: nat, ghost trace: seq<Cluster>)
      returns (ghost trace': seq<Cluster>)
      requires Valid() && OneActive(Abs()) && i < |ids| && |trace| == i + 1 && ids[i] in nodes
      requires SweepPrefix(config, now, checker, ids, trace) && trace[i] == Abs()
      modifies this`activeNode, this`events, nodes.Values
      ensures Valid() && OneActive(Abs())
      ensures trace' == trace + [Abs()] && SweepPrefix(config, now, checker, ids, trace')
    {
      CheckNode(ids[i], now, ScoreOf(checker, ids[i]));
      SweepStep(config, now, checker, ids, trace, Abs());
      trace' := trace + [Abs()];
    }

    /** The sweep, in whatever order Go ranges over the nodes. */
    method CheckNodesHealth(now: int, checker: Option<map<string, int>>)
      returns (ghost order: seq<string>, ghost trace: seq<Cluster>)
      requires Valid() && OneActive(Abs())
      modifies this`activeNode, this`events, nodes.Values
      ensures Valid() && OneActive(Abs())
      ensures Sweep(config, now, checker, order, trace) && trace[0] == old(Abs()) && trace[|order|] == Abs()
    {
      var ids := Ordering(nodes.Keys);
      order, trace := ids, [Abs()];
      for i := 0 to |ids|
        invariant Valid() && OneActive(Abs())
        invariant |trace| == i + 1 && trace[0] == old(Abs()) && trace[i] == Abs()
        invariant SweepPrefix(config, now, checker, ids, trace)
      {
        trace := VisitNext(now, checker, ids, i, trace);
      }
      SweepDone(config, now, checker, ids, trace);
    }
  }

  /** A heartbeat of a node obtained from the manager. */
  method Heartbeat(fm: FailoverManager, id: string, now: int)
    requires fm.Valid()
    modifies fm.nodes.Values
    ensures fm.Valid() && fm.Abs() == Beat(old(fm.Abs()), id, now)
  {
    var node := fm.GetNode(id);
    if node != null {
      node.UpdateHeartbeat(now);
    }
  }
}
