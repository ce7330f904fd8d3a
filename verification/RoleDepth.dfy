/** What storing a role does to the roles below it, which authz/rbac.go does not validate again:
    the paths of the new graph in terms of the old one, and when every role still collects the
    permissions of all its ancestors. */
module RoleDepth {
  import opened Graph
  import opened RoleGraph

  // ----- Paths after a role is stored

  /** `id` occurs in `p` at most at the end. */
  ghost predicate OnlyLast(p: seq<string>, id: string)
    requires p != []
  {
    id !in p[..|p| - 1]
  }

  /** A path of the old graph from `a` to `x` that does not leave `id`. */
  ghost predicate OldPath(g: Graph, id: string, a: string, x: string, p: seq<string>) {
    Joins(g, p, a, x) && OnlyLast(p, id)
  }

  /** Once `role` is stored, `x` is at most `k` edges above `a`: told from the old graph and the
      role's list of parents alone. */
  ghost predicate RouteWithin(roles: Roles, role: Role, a: string, x: string, k: int) {
    || (exists p :: OldPath(ParentGraph(roles), role.id, a, x, p) && |p| - 1 <= k)
    || (exists p, q :: Detour(roles, role, a, x, p, q) && |p| - 1 + |q| <= k)
  }

  /** A path of the old graph down from `a` to the role, then one up from its new parents to `x`. */
  ghost predicate Detour(roles: Roles, role: Role, a: string, x: string, p: seq<string>, q: seq<string>) {
    OldPath(ParentGraph(roles), role.id, a, role.id, p) && Via(roles, role.parents, x, q)
  }

  /** Two graphs with the same edges out of all nodes but `id` share the paths that do not leave `id`. */
  lemma OldPathTransfers(g: Graph, h: Graph, id: string, a: string, x: string, p: seq<string>)
    requires OldPath(g, id, a, x, p) && forall y :: y != id && y in g ==> y in h && h[y] == g[y]
    ensures OldPath(h, id, a, x, p)
  {
    forall i, j | 0 <= i < j < |p| && j == i + 1
      ensures Edge(h, p[i], p[j])
    {
      assert Edge(g, p[i], p[j]) && p[i] in p[..|p| - 1];
    }
  }

  /** A path that leaves `id` into a closed set without `id` does so once. */
  lemma LeavesOnce(h: Graph, id: string, s: set<string>, r: seq<string>, i: nat)
    requires IsPath(h, r) && i < |r| - 1 && r[i] == id
    requires id in h && (forall y :: y in h[id] ==> y in s) && Closed(h, s) && id !in s
    ensures OnlyLast(r[..i + 1], id)
    ensures forall k :: i < k < |r| ==> r[k] in s
  {
    forall k | i < k < |r|
      ensures r[k] in s
    {
      assert Edge(h, r[i], r[i + 1]);
      PathStaysInside(h, s, r, i + 1, k);
    }
    forall k | 0 <= k < i
      ensures r[k] != id
    {
      if r[k] == id {
        assert Edge(h, r[k], r[k + 1]);
        PathStaysInside(h, s, r, k + 1, i);
      }
    }
  }

  /** A new path that leaves the role does so once, and is then among the role's old ancestors. */
  lemma SplitPath(roles: Roles, max: int, role: Role, a: string, x: string, r: seq<string>, i: nat)
    requires Validate(roles, max, role).Accepted?
    requires Joins(ParentGraph(roles[role.id := role]), r, a, x) && i < |r| - 1 && r[i] == role.id
    ensures Detour(roles, role, a, x, r[..i + 1], r[i + 1..])
  {
    var s := AcceptedAncestors(roles, max, role);
    ClosedStored(roles, role, s);
    var g, h := ParentGraph(roles), ParentGraph(roles[role.id := role]);
    LeavesOnce(h, role.id, s, r, i);
    PathSlice(h, r, 0, i + 1);
    OldPathTransfers(h, g, role.id, a, role.id, r[..i + 1]);
    PathSlice(h, r, i + 1, |r|);
    PathTransfers(h, g, r[i + 1..|r|]);
    assert r[i + 1..|r|] == r[i + 1..];
    assert Edge(h, r[i], r[i + 1]);
  }

  /** The paths of the new graph are the old ones that do not leave the role, and the detours. */
  lemma PathsAfter(roles: Roles, max: int, role: Role, a: string, x: string, k: int)
    requires Validate(roles, max, role).Accepted?
    ensures ReachesWithin(ParentGraph(roles[role.id := role]), a, x, k) <==> RouteWithin(roles, role, a, x, k)
  {
    var g, h := ParentGraph(roles), ParentGraph(roles[role.id := role]);
    if r :| Joins(h, r, a, x) && |r| - 1 <= k {
      if i :| 0 <= i < |r| - 1 && r[i] == role.id {
        SplitPath(roles, max, role, a, x, r, i);
      } else {
        OldPathTransfers(h, g, role.id, a, x, r);
      }
    }
    if p :| OldPath(g, role.id, a, x, p) && |p| - 1 <= k {
      OldPathTransfers(g, h, role.id, a, x, p);
      JoinsWithin(h, p, a, x, k);
    }
    if p, q :| Detour(roles, role, a, x, p, q) && |p| - 1 + |q| <= k {
      DetourJoins(roles, max, role, a, x, p, q);
      JoinsWithin(h, p + q, a, x, k);
    }
  }

  lemma DetourJoins(roles: Roles, max: int, role: Role, a: string, x: string, p: seq<string>, q: seq<string>)
    requires Validate(roles, max, role).Accepted? && Detour(roles, role, a, x, p, q)
    ensures Joins(ParentGraph(roles[role.id := role]), p + q, a, x)
  {
    var h := ParentGraph(roles[role.id := role]);
    var s := AcceptedAncestors(roles, max, role);
    ViaStored(roles, role, s, x, q);
    OldPathTransfers(ParentGraph(roles), h, role.id, a, role.id, p);
    PathConcat(h, p, role.id, q);
  }

  // ----- Collection after a role is stored

  /** Some role at most `k` edges above `id` carries the permission. */
  ghost predicate GrantedWithin(roles: Roles, k: int, id: string, perm: string) {
    exists x :: ReachesWithin(ParentGraph(roles), id, x, k) && x in roles && perm in roles[x].permissions
  }

  /** A stored role collects its closure exactly if whatever is granted above it at any distance
      is also granted within the bound. */
  lemma CollectsWithin(roles: Roles, max: int, id: string)
    requires id in roles && roles[id].id == id
    ensures CollectsClosure(roles, max, id) <==>
            forall perm, k :: GrantedWithin(roles, k, id, perm) ==> GrantedWithin(roles, max, id, perm)
  {
    forall perm
      ensures perm in Collect(roles, max, roles[id], 0) <==> GrantedWithin(roles, max, id, perm)
      ensures Inherited(roles, id, perm) <==> exists k :: GrantedWithin(roles, k, id, perm)
    {
      CollectExact(roles, max, roles[id], perm);
      InheritedSome(roles, id, perm);
    }
  }

  lemma InheritedSome(roles: Roles, id: string, perm: string)
    ensures Inherited(roles, id, perm) <==> exists k :: GrantedWithin(roles, k, id, perm)
  {
    var g := ParentGraph(roles);
    if x :| Reaches(g, id, x) && x in roles && perm in roles[x].permissions {
      var p :| Joins(g, p, id, x);
      JoinsWithin(g, p, id, x, |p| - 1);
      assert GrantedWithin(roles, |p| - 1, id, perm);
    }
    if k :| GrantedWithin(roles, k, id, perm) {
      var x :| ReachesWithin(g, id, x, k) && x in roles && perm in roles[x].permissions;
      var p :| Joins(g, p, id, x) && |p| - 1 <= k;
      assert Reaches(g, id, x);
    }
  }

  /** From a role that does not lead to the stored one the paths stay the same. */
  lemma SamePaths(roles: Roles, max: int, role: Role, d: string, x: string, p: seq<string>)
    requires !Reaches(ParentGraph(roles), d, role.id) && Validate(roles, max, role).Accepted?
    ensures Joins(ParentGraph(roles[role.id := role]), p, d, x) <==> Joins(ParentGraph(roles), p, d, x)
    ensures Joins(ParentGraph(roles), p, d, x) ==> x != role.id
  {
    var g, h := ParentGraph(roles), ParentGraph(roles[role.id := role]);
    if Joins(g, p, d, x) {
      Untouched(g, role.id, d, x, p);
      OldPathTransfers(g, h, role.id, d, x, p);
    } else if Joins(h, p, d, x) {
      if i :| 0 <= i < |p| - 1 && p[i] == role.id {
        SplitPath(roles, max, role, d, x, p, i);
      } else {
        OldPathTransfers(h, g, role.id, d, x, p);
      }
    }
  }

  lemma SameReach(roles: Roles, max: int, role: Role, d: string, x: string, k: int)
    requires !Reaches(ParentGraph(roles), d, role.id) && Validate(roles, max, role).Accepted?
    ensures ReachesWithin(ParentGraph(roles[role.id := role]), d, x, k) <==> ReachesWithin(ParentGraph(roles), d, x, k)
    ensures ReachesWithin(ParentGraph(roles), d, x, k) ==> x != role.id
  {
    var g, h := ParentGraph(roles), ParentGraph(roles[role.id := role]);
    if p :| Joins(g, p, d, x) && |p| - 1 <= k {
      SamePaths(roles, max, role, d, x, p);
      JoinsWithin(h, p, d, x, k);
    }
    if p :| Joins(h, p, d, x) && |p| - 1 <= k {
      SamePaths(roles, max, role, d, x, p);
      JoinsWithin(g, p, d, x, k);
    }
  }

  /** A role that does not lead to the stored one collects its closure exactly if it did before. */
  lemma OthersUnaffected(roles: Roles, max: int, role: Role, d: string)
    requires d in roles && roles[d].id == d && d != role.id && !Reaches(ParentGraph(roles), d, role.id)
    requires Validate(roles, max, role).Accepted?
    ensures CollectsClosure(roles[role.id := role], max, d) <==> CollectsClosure(roles, max, d)
  {
    var stored := roles[role.id := role];
    forall perm, k
      ensures GrantedWithin(stored, k, d, perm) <==> GrantedWithin(roles, k, d, perm)
    {
      forall x
        ensures ReachesWithin(ParentGraph(stored), d, x, k) <==> ReachesWithin(ParentGraph(roles), d, x, k)
        ensures ReachesWithin(ParentGraph(roles), d, x, k) ==> x != role.id
      {
        SameReach(roles, max, role, d, x, k);
      }
    }
    CollectsWithin(roles, max, d);
    CollectsWithin(stored, max, d);
  }

  lemma Untouched(g: Graph, id: string, d: string, x: string, p: seq<string>)
    requires Joins(g, p, d, x) && !Reaches(g, d, id)
    ensures id !in p && x != id
  {
    if i :| 0 <= i < |p| && p[i] == id {
      PathSlice(g, p, 0, i + 1);
      assert Joins(g, p[..i + 1], d, id);
    }
  }

  /** The permission is granted above `d` within `k` edges once `role` is stored, told from the
      old graph and the role. */
  ghost predicate GrantedAfter(roles: Roles, role: Role, d: string, perm: string, k: int) {
    var stored := roles[role.id := role];
    exists x :: RouteWithin(roles, role, d, x, k) && x in stored && perm in stored[x].permissions
  }

  /** The step law of agreement.  Once an accepted role is stored, role `d` collects its closure
      exactly if what the old graph and the role grant above it is all granted within the bound. */
  lemma AgreementAfterIff(roles: Roles, max: int, role: Role, d: string)
    requires Validate(roles, max, role).Accepted?
    requires var stored := roles[role.id := role]; d in stored && stored[d].id == d
    ensures CollectsClosure(roles[role.id := role], max, d) <==>
            forall perm, k :: GrantedAfter(roles, role, d, perm, k) ==> GrantedAfter(roles, role, d, perm, max)
  {
    var stored := roles[role.id := role];
    CollectsWithin(stored, max, d);
    forall perm, k
      ensures GrantedWithin(stored, k, d, perm) <==> GrantedAfter(roles, role, d, perm, k)
    {
      forall x
        ensures ReachesWithin(ParentGraph(stored), d, x, k) <==> RouteWithin(roles, role, d, x, k)
      {
        PathsAfter(roles, max, role, d, x, k);
      }
    }
  }

  /** The permission is granted above `d` within `k` edges along paths that do not leave `id`. */
  ghost predicate GrantedWithout(roles: Roles, id: string, d: string, perm: string, k: int) {
    exists x, p ::
      && OldPath(ParentGraph(roles), id, d, x, p) && |p| - 1 <= k
      && x in roles && x != id && perm in roles[x].permissions
  }

  /** The law of deletion: another role `d` collects its closure afterwards exactly if what is
      granted above it past the deleted role is all granted within the bound. */
  lemma AgreementWithoutIff(roles: Roles, max: int, id: string, d: string)
    requires d in roles && d != id && roles[d].id == d
    ensures CollectsClosure(roles - {id}, max, d) <==>
            forall perm, k :: GrantedWithout(roles, id, d, perm, k) ==> GrantedWithout(roles, id, d, perm, max)
  {
    var left := roles - {id};
    var g, h := ParentGraph(roles), ParentGraph(left);
    CollectsWithin(left, max, d);
    forall perm, k
      ensures GrantedWithin(left, k, d, perm) <==> GrantedWithout(roles, id, d, perm, k)
    {
      if x :| ReachesWithin(h, d, x, k) && x in left && perm in left[x].permissions {
        var p :| Joins(h, p, d, x) && |p| - 1 <= k;
        forall i | 0 <= i < |p| - 1
          ensures p[i] != id
        {
          assert Edge(h, p[i], p[i + 1]);
        }
        OldPathTransfers(h, g, id, d, x, p);
      }
      if x, p :| OldPath(g, id, d, x, p) && |p| - 1 <= k && x in roles && x != id && perm in roles[x].permissions {
        OldPathTransfers(g, h, id, d, x, p);
        JoinsWithin(h, p, d, x, k);
      }
    }
  }

  /** A deletion can break agreement by leaving only a longer way up to a permission.  With bound 1,
      `d` has it from its parent `a`, and from `x` through `b`; once `a` is deleted, what `d`
      collects lacks it. */
  lemma DeletionHides()
    ensures
      var a, x := Role("a", "A", ["p"], [], false), Role("x", "X", ["p"], [], false);
      var b, d := Role("b", "B", [], ["x"], false), Role("d", "D", [], ["a", "b"], false);
      var before := map["a" := a, "b" := b, "d" := d, "x" := x];
      var after := before - {"a"};
      "p" in Collect(before, 1, d, 0) && Inherited(after, "d", "p") && "p" !in Collect(after, 1, d, 0)
  {
    var a, x := Role("a", "A", ["p"], [], false), Role("x", "X", ["p"], [], false);
    var b, d := Role("b", "B", [], ["x"], false), Role("d", "D", [], ["a", "b"], false);
    var before := map["a" := a, "b" := b, "d" := d, "x" := x];
    var after := before - {"a"};
    assert "p" in Collect(before, 1, a, 1);
    assert Joins(ParentGraph(after), ["d", "b", "x"], "d", "x");
    assert CollectFrom(after, 1, ["x"], 1) == {} by {
      assert Collect(after, 1, x, 2) == {};
    }
    assert Collect(after, 1, b, 1) == {};
    assert CollectFrom(after, 1, ["b"], 0) == {};
    assert ["a", "b"][1..] == ["b"];
  }

  // ----- The depth of the graph

  /** No chain of parents, stored or dangling at its end, has more than `max` edges. */
  ghost predicate Shallow(g: Graph, max: int) {
    forall p :: IsPath(g, p) ==> |p| - 1 <= max
  }

  /** No chain up to the role and on from its new parents has more than `max` edges. */
  ghost predicate Fits(roles: Roles, max: int, role: Role) {
    forall a, x, p, q :: Detour(roles, role, a, x, p, q) ==> |p| - 1 + |q| <= max
  }

  /** The step law of depth: storing an accepted role keeps the bound on all chains exactly if the
      chains of the old graph that lead to the role leave room for its new ancestry. */
  lemma ShallowAfterIff(roles: Roles, max: int, role: Role)
    requires Validate(roles, max, role).Accepted? && Shallow(ParentGraph(roles), max)
    ensures Shallow(ParentGraph(roles[role.id := role]), max) <==> Fits(roles, max, role)
  {
    var g, h := ParentGraph(roles), ParentGraph(roles[role.id := role]);
    if Fits(roles, max, role) {
      forall r | IsPath(h, r)
        ensures |r| - 1 <= max
      {
        var a, x := r[0], r[|r| - 1];
        assert Joins(h, r, a, x);
        if i :| 0 <= i < |r| - 1 && r[i] == role.id {
          SplitPath(roles, max, role, a, x, r, i);
          assert |r[..i + 1]| - 1 + |r[i + 1..]| == |r| - 1;
        } else {
          OldPathTransfers(h, g, role.id, a, x, r);
        }
      }
    } else {
      var a, x, p, q :| Detour(roles, role, a, x, p, q) && |p| - 1 + |q| > max;
      DetourJoins(roles, max, role, a, x, p, q);
      assert |p + q| - 1 > max;
    }
  }

  /** Deleting a role shortens chains only. */
  lemma ShallowAfterDelete(roles: Roles, max: int, id: string)
    requires Shallow(ParentGraph(roles), max)
    ensures Shallow(ParentGraph(roles - {id}), max)
  {
    var g, h := ParentGraph(roles), ParentGraph(roles - {id});
    forall p | IsPath(h, p)
      ensures |p| - 1 <= max
    {
      PathTransfers(h, g, p);
    }
  }

  /** In a graph whose chains all fit, every stored role collects its closure. */
  lemma ShallowCollects(roles: Roles, max: int, id: string)
    requires Shallow(ParentGraph(roles), max) && id in roles && roles[id].id == id
    ensures CollectsClosure(roles, max, id)
  {
    CollectsWithin(roles, max, id);
    forall x | Reaches(ParentGraph(roles), id, x)
      ensures ReachesWithin(ParentGraph(roles), id, x, max)
    {
      var p :| Joins(ParentGraph(roles), p, id, x);
      JoinsWithin(ParentGraph(roles), p, id, x, max);
    }
  }
}

/** Runs of the role manager: when all chains stay within the bound, and when all roles collect their closure. */
module RbacDepth {
  import opened RbacModel
  import opened RoleDepth
  import opened RoleGraph
  import opened Wrappers

  /** If the operation stores a role, the role fits below the chains that lead to it. */
  ghost predicate StepFits(c: Config, s: State, op: Op) {
    match op
    case CreateRole(role) => CreateError(c, s, role) == None ==> Fits(s.roles, c.maxDepth, role)
    case UpdateRole(role) => UpdateError(c, s, role) == None ==> Fits(s.roles, c.maxDepth, role)
    case _ => true
  }

  lemma StepShallowIff(c: Config, s: State, op: Op, now: int)
    requires Shallow(ParentGraph(s.roles), c.maxDepth)
    ensures Shallow(ParentGraph(Step(c, s, op, now).roles), c.maxDepth) <==> StepFits(c, s, op)
  {
    match op
    case CreateRole(role) =>
      if CreateError(c, s, role) == None { ShallowAfterIff(s.roles, c.maxDepth, role); }
    case UpdateRole(role) =>
      if UpdateError(c, s, role) == None { ShallowAfterIff(s.roles, c.maxDepth, role); }
    case DeleteRole(id) =>
      ShallowAfterDelete(s.roles, c.maxDepth, id);
    case _ =>
  }

  ghost predicate AllShallow(c: Config, states: seq<State>, n: nat)
    requires n < |states|
  {
    forall i :: 0 <= i <= n ==> Shallow(ParentGraph(states[i].roles), c.maxDepth)
  }

  ghost predicate AllFit(c: Config, states: seq<State>, events: seq<Event>, n: nat)
    requires n <= |events| < |states|
  {
    forall i :: 0 <= i < n ==> StepFits(c, states[i], events[i].op)
  }

  lemma RunStepShallow(c: Config, states: seq<State>, events: seq<Event>, k: nat)
    requires IsRun(c, states, events) && k < |events| && Shallow(ParentGraph(states[k].roles), c.maxDepth)
    ensures Shallow(ParentGraph(states[k + 1].roles), c.maxDepth) <==> StepFits(c, states[k], events[k].op)
  {
    StepShallowIff(c, states[k], events[k].op, events[k].at);
  }

  /** The run law of depth: starting from a graph whose chains all fit, they fit in every state of
      a run exactly if every role fitted when it was stored. */
  lemma {:induction false} RunShallowIff(c: Config, states: seq<State>, events: seq<Event>, n: nat)
    requires IsRun(c, states, events) && n <= |events| && Shallow(ParentGraph(states[0].roles), c.maxDepth)
    ensures AllShallow(c, states, n) <==> AllFit(c, states, events, n)
  {
    if n > 0 {
      var k := n - 1;
      RunShallowIff(c, states, events, k);
      assert AllShallow(c, states, n) <==>
               AllShallow(c, states, k) && Shallow(ParentGraph(states[n].roles), c.maxDepth);
      assert AllFit(c, states, events, n) <==> AllFit(c, states, events, k) && StepFits(c, states[k], events[k].op);
      if AllShallow(c, states, k) {
        RunStepShallow(c, states, events, k);
      }
    }
  }

  /** If every role fitted when it was stored, then in every state of the run every stored role
      collects exactly the permissions of itself and all its ancestors. */
  lemma RunCollects(c: Config, states: seq<State>, events: seq<Event>, n: nat, id: string)
    requires IsRun(c, states, events) && n <= |events|
    requires SoundRoles(states[0].roles) && Shallow(ParentGraph(states[0].roles), c.maxDepth)
    requires AllFit(c, states, events, n) && id in states[n].roles
    ensures CollectsClosure(states[n].roles, c.maxDepth, id)
  {
    RunShallowIff(c, states, events, n);
    RunKeepsAcyclic(c, states, events, n);
    ShallowCollects(states[n].roles, c.maxDepth, id);
  }

  // ----- The run law of agreement

  /** Every stored role collects its closure. */
  ghost predicate Agree(roles: Roles, max: int) {
    forall id :: id in roles ==> CollectsClosure(roles, max, id)
  }

  /** The condition of `AgreementAfterIff` for one role. */
  ghost predicate RoleAgreesAfter(roles: Roles, max: int, role: Role, d: string) {
    forall perm, k :: GrantedAfter(roles, role, d, perm, k) ==> GrantedAfter(roles, role, d, perm, max)
  }

  /** What the old graph and the role grant above each role is all granted within the bound. */
  ghost predicate AgreeAfter(roles: Roles, max: int, role: Role) {
    forall d :: d in roles || d == role.id ==> RoleAgreesAfter(roles, max, role, d)
  }

  /** The condition of `AgreementWithoutIff` for one role. */
  ghost predicate RoleAgreesWithout(roles: Roles, max: int, id: string, d: string) {
    forall perm, k :: GrantedWithout(roles, id, d, perm, k) ==> GrantedWithout(roles, id, d, perm, max)
  }

  /** What is granted above each other role past the deleted one is all granted within the bound. */
  ghost predicate AgreeWithout(roles: Roles, max: int, id: string) {
    forall d :: d in roles && d != id ==> RoleAgreesWithout(roles, max, id, d)
  }

  /** If the operation stores or deletes a role, all roles then collect their closure, told from before. */
  ghost predicate StepAgrees(c: Config, s: State, op: Op) {
    match op
    case CreateRole(role) => CreateError(c, s, role) == None ==> AgreeAfter(s.roles, c.maxDepth, role)
    case UpdateRole(role) => UpdateError(c, s, role) == None ==> AgreeAfter(s.roles, c.maxDepth, role)
    case DeleteRole(id) => DeleteError(s, id) == None ==> AgreeWithout(s.roles, c.maxDepth, id)
    case _ => true
  }

  lemma AgreeAfterIff(roles: Roles, max: int, role: Role)
    requires WellKeyed(roles) && Validate(roles, max, role).Accepted?
    ensures Agree(roles[role.id := role], max) <==> AgreeAfter(roles, max, role)
  {
    var stored := roles[role.id := role];
    forall d | d in stored
      ensures CollectsClosure(stored, max, d) <==> RoleAgreesAfter(roles, max, role, d)
    {
      AgreementAfterIff(roles, max, role, d);
    }
  }

  lemma AgreeWithoutIff(roles: Roles, max: int, id: string)
    requires WellKeyed(roles)
    ensures Agree(roles - {id}, max) <==> AgreeWithout(roles, max, id)
  {
    var left := roles - {id};
    forall d | d in left
      ensures CollectsClosure(left, max, d) <==> RoleAgreesWithout(roles, max, id, d)
    {
      AgreementWithoutIff(roles, max, id, d);
    }
  }

  lemma StepAgreementIff(c: Config, s: State, op: Op, now: int)
    requires SoundRoles(s.roles) && Agree(s.roles, c.maxDepth)
    ensures Agree(Step(c, s, op, now).roles, c.maxDepth) <==> StepAgrees(c, s, op)
  {
    match op
    case CreateRole(role) =>
      if CreateError(c, s, role) == None { AgreeAfterIff(s.roles, c.maxDepth, role); }
    case UpdateRole(role) =>
      if UpdateError(c, s, role) == None { AgreeAfterIff(s.roles, c.maxDepth, role); }
    case DeleteRole(id) =>
      if DeleteError(s, id) == None { AgreeWithoutIff(s.roles, c.maxDepth, id); }
    case _ =>
  }

  ghost predicate AlwaysAgree(c: Config, states: seq<State>, n: nat)
    requires n < |states|
  {
    forall i :: 0 <= i <= n ==> Agree(states[i].roles, c.maxDepth)
  }

  ghost predicate StepsAgree(c: Config, states: seq<State>, events: seq<Event>, n: nat)
    requires n <= |events| < |states|
  {
    forall i :: 0 <= i < n ==> StepAgrees(c, states[i], events[i].op)
  }

  /** One more step of a run. */
  lemma RunStepAgreement(c: Config, states: seq<State>, events: seq<Event>, k: nat)
    requires IsRun(c, states, events) && k < |events| && SoundRoles(states[0].roles)
    requires Agree(states[k].roles, c.maxDepth)
    ensures Agree(states[k + 1].roles, c.maxDepth) <==> StepAgrees(c, states[k], events[k].op)
  {
    RunKeepsAcyclic(c, states, events, k);
    StepAgreementIff(c, states[k], events[k].op, events[k].at);
  }

  /** The run law of agreement: starting from agreement, in every state of a run all stored roles
      collect the permissions of themselves and all their ancestors exactly if each step that stores
      or deletes a role leaves nothing granted beyond the bound alone. */
  lemma {:induction false} RunAgreementIff(c: Config, states: seq<State>, events: seq<Event>, n: nat)
    requires IsRun(c, states, events) && n <= |events|
    requires SoundRoles(states[0].roles) && Agree(states[0].roles, c.maxDepth)
    ensures AlwaysAgree(c, states, n) <==> StepsAgree(c, states, events, n)
  {
    if n > 0 {
      var k := n - 1;
      RunAgreementIff(c, states, events, k);
      assert AlwaysAgree(c, states, n) <==> AlwaysAgree(c, states, k) && Agree(states[n].roles, c.maxDepth);
      assert StepsAgree(c, states, events, n) <==>
               StepsAgree(c, states, events, k) && StepAgrees(c, states[k], events[k].op);
      if AlwaysAgree(c, states, k) {
        RunStepAgreement(c, states, events, k);
      }
    }
  }
}
