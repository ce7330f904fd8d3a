/** Validation in authz/rbac.go meets parents in the order in which they are listed: which roles
    it accepts in every order. */
module RoleListings {
  import opened Graph
  import opened RoleGraph
  import opened Sorting

  /** The same role with its parents listed in some order. */
  ghost predicate Relists(r: Role, r': Role) {
    r' == r.(parents := r'.parents) && Permutation(r'.parents, r.parents)
  }

  /** The same roles, each with its parents listed in some order. */
  ghost predicate AllRelist(roles: Roles, roles': Roles) {
    roles'.Keys == roles.Keys && forall id :: id in roles ==> Relists(roles[id], roles'[id])
  }

  lemma RelistedEdges(roles: Roles, roles': Roles, a: string, b: string)
    requires AllRelist(roles, roles')
    ensures Edge(ParentGraph(roles'), a, b) <==> Edge(ParentGraph(roles), a, b)
  {
    if a in roles {
      PermutationMembers(roles'[a].parents, roles[a].parents);
    }
  }

  /** The order of listing does not change the paths. */
  lemma RelistedPaths(roles: Roles, role: Role, roles': Roles, role': Role, x: string, q: seq<string>)
    requires AllRelist(roles, roles') && Relists(role, role')
    ensures Via(roles', role'.parents, x, q) <==> Via(roles, role.parents, x, q)
  {
    forall a, b
      ensures Edge(ParentGraph(roles'), a, b) <==> Edge(ParentGraph(roles), a, b)
    {
      RelistedEdges(roles, roles', a, b);
    }
    PermutationMembers(role'.parents, role.parents);
  }

  // ----- Listing a chain first

  /** The list with the first `x` moved to its front. */
  function Front(ps: seq<string>, x: string): (r: seq<string>)
    ensures x in ps ==> r != [] && r[0] == x
    ensures Permutation(r, ps)
  {
    if x !in ps then ps
    else if ps[0] == x then ps
    else
      var rest := Front(ps[1..], x);
      assert multiset(ps) == multiset{ps[0]} + multiset(ps[1..]) by {
        assert ps == [ps[0]] + ps[1..];
      }
      assert multiset(rest) == multiset{x} + multiset(rest[1..]) by {
        assert rest == [x] + rest[1..];
      }
      [x, ps[0]] + rest[1..]
  }

  /** What follows the first `id` on the path; the path's last element if nothing does. */
  function Next(q: seq<string>, id: string): string
    requires q != []
  {
    if |q| == 1 then q[0] else if q[0] == id then q[1] else Next(q[1..], id)
  }

  lemma {:induction false} NextAt(q: seq<string>, i: nat)
    requires i + 1 < |q| && forall j :: 0 <= j < i ==> q[j] != q[i]
    ensures Next(q, q[i]) == q[i + 1]
  {
    if i > 0 {
      NextAt(q[1..], i - 1);
    }
  }

  /** Every role on the chain lists its successor first. */
  function ChainFirst(roles: Roles, q: seq<string>): Roles
    requires q != []
  {
    map id | id in roles :: roles[id].(parents := Front(roles[id].parents, Next(q, id)))
  }

  lemma ChainFirstRelists(roles: Roles, q: seq<string>)
    requires q != []
    ensures AllRelist(roles, ChainFirst(roles, q))
  {
  }

  /** A search fails if it fails above the first parent. */
  lemma FailsAbove(roles: Roles, max: int, id: string, ps: seq<string>, visited: set<string>, depth: int)
    requires ps != [] && ps[0] !in visited
    requires depth <= max && ps[0] in roles ==>
               !Check(roles, max, id, roles[ps[0]].parents, visited + {ps[0]}, depth + 1).Accepted?
    ensures !Check(roles, max, id, ps, visited, depth).Accepted?
  {
  }

  /** The search runs up a chain that is listed first and not visited yet, and gives up. */
  lemma {:induction false} ChainTooDeep(roles: Roles, max: int, id: string, ps: seq<string>, visited: set<string>,
                                        depth: int, q: seq<string>, k: nat)
    requires q != [] && Distinct(q) && k < |q| && |q| - k > max - depth
    requires forall i :: k <= i < |q| ==> q[i] !in visited
    requires forall i :: 0 <= i < |q| - 1 ==> Edge(ParentGraph(roles), q[i], q[i + 1])
    requires ps != [] && ps[0] == q[k]
    ensures !Check(ChainFirst(roles, q), max, id, ps, visited, depth).Accepted?
    decreases |q| - k
  {
    var listed, p := ChainFirst(roles, q), q[k];
    if depth <= max && p in roles && k + 1 < |q| {
      NextAt(q, k);
      assert Edge(ParentGraph(roles), q[k], q[k + 1]);
      ChainTooDeep(roles, max, id, listed[p].parents, visited + {p}, depth + 1, q, k + 1);
    }
    FailsAbove(listed, max, id, ps, visited, depth);
  }

  /** A chain longer than the bound makes some listing be refused. */
  lemma DeepChainRefused(roles: Roles, max: int, role: Role, x: string, q: seq<string>)
    requires Acyclic(ParentGraph(roles)) && Via(roles, role.parents, x, q) && |q| > max
    ensures !Validate(ChainFirst(roles, q), max, role.(parents := Front(role.parents, q[0]))).Accepted?
  {
    AcyclicDistinct(ParentGraph(roles), q);
    forall i | 0 <= i < |q| - 1
      ensures Edge(ParentGraph(roles), q[i], q[i + 1])
    {
    }
    var ps := Front(role.parents, q[0]);
    ChainTooDeep(roles, max, role.id, ps, {}, 0, q, 0);
  }

  ghost predicate AcceptedInEveryOrder(roles: Roles, max: int, role: Role) {
    forall roles', role' :: AllRelist(roles, roles') && Relists(role, role') ==> Validate(roles', max, role').Accepted?
  }

  /** Over an acyclic store a role is accepted in whatever order it and the stored roles list their
      parents exactly if its ancestors are all stored, are not itself, and no chain is too long. */
  lemma AcceptedInEveryOrderIff(roles: Roles, max: int, role: Role)
    requires Acyclic(ParentGraph(roles))
    ensures AcceptedInEveryOrder(roles, max, role) <==> SoundAncestry(roles, max, role)
  {
    if SoundAncestry(roles, max, role) {
      forall roles', role' | AllRelist(roles, roles') && Relists(role, role')
        ensures Validate(roles', max, role').Accepted?
      {
        forall x, q | Via(roles', role'.parents, x, q)
          ensures x in roles' && x != role'.id && |q| <= max
        {
          RelistedPaths(roles, role, roles', role', x, q);
        }
        ValidateDecides(roles', max, role');
      }
    } else if AcceptedInEveryOrder(roles, max, role) {
      var x, q :| Via(roles, role.parents, x, q) && !(x in roles && x != role.id && |q| <= max);
      assert AllRelist(roles, roles) && Relists(role, role);
      ValidateDecides(roles, max, role);
      DeepChainRefused(roles, max, role, x, q);
      ChainFirstRelists(roles, q);
      assert Relists(role, role.(parents := Front(role.parents, q[0])));
      assert false;
    }
  }
}
