/** The three walks over the role inheritance graph of authz/rbac.go, as functions,
    and what each of them finds.
      Check     validates inheritance: shared visited set, depth bound
      Collect   gathers permissions:   no visited set, depth bound
      Inherits  looks up a role name:  shared visited set, no depth bound */
module RoleGraph {
  import opened Graph

  datatype Role = Role(id: string, name: string, permissions: seq<string>, parents: seq<string>, isSystem: bool)

  type Roles = map<string, Role>

  function ParentGraph(roles: Roles): Graph {
    map id | id in roles :: roles[id].parents
  }

  /** `q` leads to `x` along parent edges, starting at one of the parents `ps`:
      a path of `|q|` edges from whoever lists `ps`. */
  ghost predicate Via(roles: Roles, ps: seq<string>, x: string, q: seq<string>) {
    IsPath(ParentGraph(roles), q) && q[0] in ps && q[|q| - 1] == x
  }

  lemma ViaCons(roles: Roles, p: string, x: string, q: seq<string>)
    requires p in roles && Via(roles, roles[p].parents, x, q)
    ensures Via(roles, [p], x, [p] + q)
  {
    PathCons(ParentGraph(roles), p, q);
  }

  // ----- Validation

  datatype Verdict = Accepted(visited: set<string>) | Circular | DepthExceeded | NotFound(id: string)

  function Check(roles: Roles, max: int, id: string, parents: seq<string>, visited: set<string>,
                 depth: int): (v: Verdict)
    decreases max - depth, |parents|
  {
    if depth > max then DepthExceeded
    else if parents == [] then Accepted(visited)
    else
      var p := parents[0];
      if p == id then Circular
      else if p in visited then Check(roles, max, id, parents[1..], visited, depth)
      else if p !in roles then NotFound(p)
      else
        match Check(roles, max, id, roles[p].parents, visited + {p}, depth + 1)
        case Accepted(v) => Check(roles, max, id, parents[1..], v, depth)
        case e => e
  }

  function Validate(roles: Roles, max: int, role: Role): Verdict {
    if role.parents == [] then Accepted({}) else Check(roles, max, role.id, role.parents, {}, 0)
  }

  /** What the shared visited set means after a successful check: everything newly
      visited is stored, is not the role under validation, has all its own parents
      visited, and lies within the depth bound. */
  lemma {:induction false} CheckExplores(roles: Roles, max: int, id: string, parents: seq<string>,
                                         visited: set<string>, depth: int)
    requires Check(roles, max, id, parents, visited, depth).Accepted?
    ensures
      var v := Check(roles, max, id, parents, visited, depth).visited;
      && visited <= v
      && (forall p :: p in parents ==> p in v && p != id)
      && (forall x :: x in v && x !in visited ==>
            && x != id && x in roles
            && (forall y :: y in roles[x].parents ==> y in v && y != id)
            && exists q :: Via(roles, parents, x, q) && |q| <= max - depth)
    decreases max - depth, |parents|
  {
    if parents != [] {
      var p, rest := parents[0], parents[1..];
      var v := Check(roles, max, id, parents, visited, depth).visited;
      assert p != id && forall r :: r in parents ==> r == p || r in rest;
      if p in visited {
        CheckExplores(roles, max, id, rest, visited, depth);
        forall x | x in v && x !in visited
          ensures exists q :: Via(roles, parents, x, q) && |q| <= max - depth
        {
          var q :| Via(roles, rest, x, q) && |q| <= max - depth;
          assert Via(roles, parents, x, q);
        }
      } else {
        var v1 := Check(roles, max, id, roles[p].parents, visited + {p}, depth + 1).visited;
        CheckExplores(roles, max, id, roles[p].parents, visited + {p}, depth + 1);
        CheckExplores(roles, max, id, rest, v1, depth);
        forall x | x in v && x !in visited
          ensures exists q :: Via(roles, parents, x, q) && |q| <= max - depth
        {
          if x == p {
            assert Via(roles, parents, x, [p]);
          } else if x in v1 {
            var q :| Via(roles, roles[p].parents, x, q) && |q| <= max - depth - 1;
            ViaCons(roles, p, x, q);
            assert Via(roles, parents, x, [p] + q);
          } else {
            var q :| Via(roles, rest, x, q) && |q| <= max - depth;
            assert Via(roles, parents, x, q);
          }
        }
      }
    }
  }

  /** A rejection always has a reason in the graph: a path back to the role, a
      missing ancestor, or a chain of more than `max` edges. */
  ghost predicate Justified(roles: Roles, id: string, parents: seq<string>, v: Verdict, bound: int) {
    match v
    case Accepted(_) => true
    case Circular => exists q :: Via(roles, parents, id, q)
    case NotFound(n) => n !in roles && exists q :: Via(roles, parents, n, q)
    case DepthExceeded => exists x, q :: Via(roles, parents, x, q) && |q| > bound
  }

  lemma {:induction false} RejectionJustified(roles: Roles, max: int, id: string, parents: seq<string>,
                                              visited: set<string>, depth: int)
    requires depth <= max
    ensures Justified(roles, id, parents, Check(roles, max, id, parents, visited, depth), max - depth)
    decreases max - depth, |parents|
  {
    var r := Check(roles, max, id, parents, visited, depth);
    if parents != [] && !r.Accepted? {
      var p, rest := parents[0], parents[1..];
      assert Via(roles, parents, p, [p]);
      if p != id && (p in visited || p in roles) {
        if p !in visited {
          var r1 := Check(roles, max, id, roles[p].parents, visited + {p}, depth + 1);
          if depth == max {
            assert |[p]| > max - depth;
          } else {
            RejectionJustified(roles, max, id, roles[p].parents, visited + {p}, depth + 1);
            if !r1.Accepted? {
              var x, q :| Via(roles, roles[p].parents, x, q)
                && (r1.Circular? ==> x == id) && (r1.NotFound? ==> x == r1.id)
                && (r1.DepthExceeded? ==> |q| > max - depth - 1);
              ViaCons(roles, p, x, q);
              assert Via(roles, parents, x, [p] + q);
              return;
            }
          }
          if r1.Accepted? {
            RejectionJustified(roles, max, id, rest, r1.visited, depth);
          }
        } else {
          RejectionJustified(roles, max, id, rest, visited, depth);
        }
        if p in visited || Check(roles, max, id, roles[p].parents, visited + {p}, depth + 1).Accepted? {
          var x, q :| Via(roles, rest, x, q)
            && (r.Circular? ==> x == id) && (r.NotFound? ==> x == r.id) && (r.DepthExceeded? ==> |q| > max - depth);
          assert Via(roles, parents, x, q);
        }
      }
    }
  }

  /** Every ancestor is stored, none is the role itself, and no chain is too long. */
  ghost predicate SoundAncestry(roles: Roles, max: int, role: Role) {
    forall x, q :: Via(roles, role.parents, x, q) ==> x in roles && x != role.id && |q| <= max
  }

  /** The validator accepts every role whose ancestry is sound; what it accepts has
      stored ancestors only and does not inherit itself. */
  lemma ValidateDecides(roles: Roles, max: int, role: Role)
    ensures SoundAncestry(roles, max, role) ==> Validate(roles, max, role).Accepted?
    ensures Validate(roles, max, role).Accepted? ==>
              forall x, q :: Via(roles, role.parents, x, q) ==> x in roles && x != role.id
  {
    var v := Validate(roles, max, role);
    if role.parents != [] {
      if v.Accepted? {
        CheckExplores(roles, max, role.id, role.parents, {}, 0);
        forall x, q | Via(roles, role.parents, x, q)
          ensures x in roles && x != role.id
        {
          PathStaysInside(ParentGraph(roles), v.visited, q, 0, |q| - 1);
        }
      } else if max < 0 {
        assert Via(roles, role.parents, role.parents[0], [role.parents[0]]);
      } else {
        RejectionJustified(roles, max, role.id, role.parents, {}, 0);
      }
    }
  }

  /** Beyond the bound the verdict can hang on the order in which parents are listed: with bound 1,
      a role with parents `b` and `a`, where `a` inherits from `b`, is accepted if `b` comes first,
      and too deep if `a` does. */
  lemma ParentOrderDecides()
    ensures
      var roles := map["a" := Role("a", "A", [], ["b"], false), "b" := Role("b", "B", [], [], false)];
      && Validate(roles, 1, Role("r", "R", [], ["b", "a"], false)).Accepted?
      && Validate(roles, 1, Role("r", "R", [], ["a", "b"], false)) == DepthExceeded
  {
    var roles := map["a" := Role("a", "A", [], ["b"], false), "b" := Role("b", "B", [], [], false)];
    var none: set<string> := {};
    assert Check(roles, 1, "r", [], none + {"b"}, 1) == Accepted(none + {"b"});
    assert Check(roles, 1, "r", ["b"], none + {"b"} + {"a"}, 1) == Accepted(none + {"b"} + {"a"}) by {
      assert Check(roles, 1, "r", [], none + {"b"} + {"a"}, 1) == Accepted(none + {"b"} + {"a"});
    }
    assert Check(roles, 1, "r", ["a"], none + {"b"}, 0).Accepted?;
    assert Check(roles, 1, "r", ["b"], none + {"a"}, 1) == DepthExceeded;
    assert ["b", "a"][1..] == ["a"] && ["a", "b"][1..] == ["b"];
  }

  // ----- Acyclicity of the stored graph

  /** An accepted role leaves a closed set of ancestors that excludes it. */
  lemma AcceptedAncestors(roles: Roles, max: int, role: Role) returns (s: set<string>)
    requires Validate(roles, max, role).Accepted?
    ensures role.id !in s && s <= roles.Keys
    ensures forall p :: p in role.parents ==> p in s
    ensures Closed(ParentGraph(roles), s)
    ensures forall x :: x in s ==> exists q :: Via(roles, role.parents, x, q) && |q| <= max
  {
    s := Validate(roles, max, role).visited;
    if role.parents != [] {
      CheckExplores(roles, max, role.id, role.parents, {}, 0);
    }
  }

  /** Storing an accepted role, new or replacing one with the same ID, keeps the
      parent graph acyclic, even when other roles already name its ID. */
  lemma AcceptedKeepsAcyclic(roles: Roles, max: int, role: Role)
    requires Acyclic(ParentGraph(roles)) && Validate(roles, max, role).Accepted?
    ensures Acyclic(ParentGraph(roles[role.id := role]))
  {
    var s := AcceptedAncestors(roles, max, role);
    InsertAcyclic(ParentGraph(roles), role.id, role.parents, s);
    assert ParentGraph(roles[role.id := role]) == ParentGraph(roles)[role.id := role.parents];
  }

  // ----- Collection of permissions

  function Collect(roles: Roles, max: int, role: Role, depth: int): set<string>
    decreases max - depth, |role.parents| + 1
  {
    if depth > max then {}
    else (set p | p in role.permissions) + CollectFrom(roles, max, role.parents, depth)
  }

  function CollectFrom(roles: Roles, max: int, parents: seq<string>, depth: int): set<string>
    requires depth <= max
    decreases max - depth, |parents|
  {
    if parents == [] then {}
    else
      (if parents[0] in roles then Collect(roles, max, roles[parents[0]], depth + 1) else {})
      + CollectFrom(roles, max, parents[1..], depth)
  }

  /** Permission `perm` sits on a role reached from `ps` along at most `k` edges. */
  ghost predicate GrantedVia(roles: Roles, ps: seq<string>, perm: string, k: int) {
    exists x, q :: Grants(roles, ps, perm, k, x, q)
  }

  /** Where a collected permission comes from. */
  lemma CollectSources(roles: Roles, max: int, parents: seq<string>, depth: int, perm: string)
    requires depth <= max && parents != []
    ensures var p := parents[0];
            perm in CollectFrom(roles, max, parents, depth) <==>
              || perm in CollectFrom(roles, max, parents[1..], depth)
              || (p in roles && depth < max &&
                  (perm in roles[p].permissions || perm in CollectFrom(roles, max, roles[p].parents, depth + 1)))
  {
    var p := parents[0];
    if p in roles {
      assert perm in Collect(roles, max, roles[p], depth + 1) <==>
             depth < max &&
               (perm in roles[p].permissions || perm in CollectFrom(roles, max, roles[p].parents, depth + 1));
    }
  }

  ghost predicate Grants(roles: Roles, ps: seq<string>, perm: string, k: int, x: string, q: seq<string>) {
    Via(roles, ps, x, q) && |q| <= k && x in roles && perm in roles[x].permissions
  }

  /** The sources of what is granted. */
  lemma GrantSources(roles: Roles, parents: seq<string>, perm: string, k: int)
    requires parents != [] && k >= 0
    ensures var p := parents[0];
            GrantedVia(roles, parents, perm, k) <==>
              || GrantedVia(roles, parents[1..], perm, k)
              || (p in roles && k > 0 &&
                  (perm in roles[p].permissions || GrantedVia(roles, roles[p].parents, perm, k - 1)))
  {
    var p, rest := parents[0], parents[1..];
    if x, q :| Grants(roles, rest, perm, k, x, q) {
      assert Grants(roles, parents, perm, k, x, q);
    }
    if p in roles && k > 0 {
      if perm in roles[p].permissions {
        assert Grants(roles, parents, perm, k, p, [p]);
      }
      var less := k - 1;
      if x, q :| Grants(roles, roles[p].parents, perm, less, x, q) {
        ViaCons(roles, p, x, q);
        assert Grants(roles, parents, perm, k, x, [p] + q);
      }
    }
    if x, q :| Grants(roles, parents, perm, k, x, q) {
      if q[0] != p {
        assert Grants(roles, rest, perm, k, x, q);
      } else if |q| > 1 {
        PathTail(ParentGraph(roles), q);
        assert Grants(roles, roles[p].parents, perm, k - 1, x, q[1..]);
      }
    }
  }

  lemma {:induction false} CollectFromExact(roles: Roles, max: int, parents: seq<string>, depth: int, perm: string)
    requires depth <= max
    ensures perm in CollectFrom(roles, max, parents, depth) <==> GrantedVia(roles, parents, perm, max - depth)
    decreases max - depth, |parents|
  {
    if parents != [] {
      var p := parents[0];
      CollectSources(roles, max, parents, depth, perm);
      GrantSources(roles, parents, perm, max - depth);
      CollectFromExact(roles, max, parents[1..], depth, perm);
      if depth < max && p in roles {
        CollectFromExact(roles, max, roles[p].parents, depth + 1, perm);
      }
    }
  }

  /** Collection terminates on every graph, cyclic ones too, and gathers exactly the
      permissions of the roles reached along at most `max` parent edges. */
  lemma CollectExact(roles: Roles, max: int, role: Role, perm: string)
    requires role.id in roles && roles[role.id] == role
    ensures perm in Collect(roles, max, role, 0) <==>
              exists x ::
                ReachesWithin(ParentGraph(roles), role.id, x, max) && x in roles && perm in roles[x].permissions
  {
    var g := ParentGraph(roles);
    if max >= 0 {
      CollectFromExact(roles, max, role.parents, 0, perm);
      if perm in role.permissions {
        assert Joins(g, [role.id], role.id, role.id);
      }
      if GrantedVia(roles, role.parents, perm, max) {
        var x, q :| Grants(roles, role.parents, perm, max, x, q);
        PathCons(g, role.id, q);
        assert Joins(g, [role.id] + q, role.id, x);
      }
      if x :| ReachesWithin(g, role.id, x, max) && x in roles && perm in roles[x].permissions {
        var p :| Joins(g, p, role.id, x) && |p| - 1 <= max;
        if |p| > 1 {
          PathTail(g, p);
          assert Grants(roles, role.parents, perm, max, x, p[1..]);
        }
      }
    }
  }

  /** The permissions of a role and of all its ancestors, however distant. */
  ghost predicate Inherited(roles: Roles, id: string, perm: string) {
    exists x :: Reaches(ParentGraph(roles), id, x) && x in roles && perm in roles[x].permissions
  }

  /** Collecting from stored role `id` yields its full closure. */
  ghost predicate CollectsClosure(roles: Roles, max: int, id: string)
    requires id in roles
  {
    forall perm :: perm in Collect(roles, max, roles[id], 0) <==> Inherited(roles, id, perm)
  }

  /** A path among the ancestors of `role` becomes a path from it once it is stored. */
  lemma ViaStored(roles: Roles, role: Role, s: set<string>, x: string, q: seq<string>)
    requires role.id !in s && Closed(ParentGraph(roles), s) && (forall p :: p in role.parents ==> p in s)
    requires Via(roles, role.parents, x, q)
    ensures Joins(ParentGraph(roles[role.id := role]), [role.id] + q, role.id, x)
  {
    var g, h := ParentGraph(roles), ParentGraph(roles[role.id := role]);
    forall y | y in q && y in g
      ensures y in h && h[y] == g[y]
    {
      var i :| 0 <= i < |q| && q[i] == y;
      PathStaysInside(g, s, q, 0, i);
    }
    PathTransfers(g, h, q);
    PathCons(h, role.id, q);
  }

  lemma ClosedStored(roles: Roles, role: Role, s: set<string>)
    requires role.id !in s && Closed(ParentGraph(roles), s)
    ensures Closed(ParentGraph(roles[role.id := role]), s)
  {
    var g, h := ParentGraph(roles), ParentGraph(roles[role.id := role]);
    forall x, y | x in s && x in h && y in h[x]
      ensures y in s
    {
      assert x in g && h[x] == g[x];
    }
  }

  /** A closed set of ancestors, each within `max` edges, bounds every path from `role`. */
  lemma AncestorsBound(roles: Roles, max: int, role: Role, s: set<string>, g: Graph, p: seq<string>, x: string)
    requires g == ParentGraph(roles[role.id := role])
    requires role.id !in s && Closed(ParentGraph(roles), s) && (forall p :: p in role.parents ==> p in s)
    requires forall x :: x in s ==> exists q :: Via(roles, role.parents, x, q) && |q| <= max
    requires Joins(g, p, role.id, x) && |p| > 1
    ensures max >= 1 && x in s && ReachesWithin(g, role.id, x, max)
  {
    assert x in s by {
      ClosedStored(roles, role, s);
      PathTail(g, p);
      PathStaysInside(g, s, p, 1, |p| - 1);
    }
    var q :| Via(roles, role.parents, x, q) && |q| <= max;
    ViaStored(roles, role, s, x, q);
    JoinsWithin(g, [role.id] + q, role.id, x, max);
  }

  /** All ancestors of an accepted role are stored and within the depth bound. */
  lemma AcceptedReach(roles: Roles, max: int, role: Role, g: Graph, x: string)
    requires Validate(roles, max, role).Accepted?
    requires g == ParentGraph(roles[role.id := role]) && Reaches(g, role.id, x)
    ensures x in roles[role.id := role]
    ensures max >= 0 ==> ReachesWithin(g, role.id, x, max)
    ensures max < 0 ==> x == role.id
  {
    var s := AcceptedAncestors(roles, max, role);
    var p :| Joins(g, p, role.id, x);
    if |p| > 1 {
      AncestorsBound(roles, max, role, s, g, p, x);
    }
  }

  /** The walks agree: once an accepted role is stored, collecting from it under the
      depth bound yields its full closure, although the validator skipped what it had
      visited and the collector skips nothing.  With a negative bound nothing is
      collected, so agreement then needs a role without permissions. */
  lemma WalksAgree(roles: Roles, max: int, role: Role)
    requires Validate(roles, max, role).Accepted?
    ensures CollectsClosure(roles[role.id := role], max, role.id) <==> (max >= 0 || role.permissions == [])
  {
    var stored := roles[role.id := role];
    var g := ParentGraph(stored);
    forall x | Reaches(g, role.id, x)
      ensures x in stored && (max >= 0 ==> ReachesWithin(g, role.id, x, max)) && (max < 0 ==> x == role.id)
    {
      AcceptedReach(roles, max, role, g, x);
    }
    if max >= 0 {
      forall perm
        ensures perm in Collect(stored, max, role, 0) <==> Inherited(stored, role.id, perm)
      {
        CollectExact(stored, max, role, perm);
        WithinIsReach(stored, max, role.id, perm);
      }
    } else if role.permissions != [] {
      assert Joins(g, [role.id], role.id, role.id);
      assert Reaches(g, role.id, role.id) && role.permissions[0] in stored[role.id].permissions;
      assert Inherited(stored, role.id, role.permissions[0]);
    }
  }

  lemma WithinIsReach(roles: Roles, max: int, id: string, perm: string)
    requires forall x :: Reaches(ParentGraph(roles), id, x) ==> ReachesWithin(ParentGraph(roles), id, x, max)
    ensures Inherited(roles, id, perm) <==>
              exists x :: ReachesWithin(ParentGraph(roles), id, x, max) && x in roles && perm in roles[x].permissions
  {
    if x :| ReachesWithin(ParentGraph(roles), id, x, max) && x in roles && perm in roles[x].permissions {
      var p :| Joins(ParentGraph(roles), p, id, x) && |p| - 1 <= max;
      assert Reaches(ParentGraph(roles), id, x);
    }
  }

  /** The agreement is about the role just validated: replacing an ancestor later can
      deepen the chains below it.  With bound 1, `c` inherits from `b`, and giving `b`
      the parent `a` is accepted, yet what `c` then collects lacks the permission of `a`.  When
      the roles below stay complete is the subject of module `RoleDepth`. */
  lemma DescendantsAreNotRevalidated()
    ensures
      var a := Role("a", "A", ["p"], [], false);
      var b := Role("b", "B", [], [], false);
      var c := Role("c", "C", [], ["b"], false);
      var b' := b.(parents := ["a"]);
      var before := map["a" := a, "b" := b];
      && Validate(before, 1, c).Accepted?
      && Validate(before["c" := c], 1, b').Accepted?
      && var after := before["c" := c]["b" := b'];
      && Inherited(after, "c", "p")
      && "p" !in Collect(after, 1, c, 0)
  {
    var a := Role("a", "A", ["p"], [], false);
    var b := Role("b", "B", [], [], false);
    var c := Role("c", "C", [], ["b"], false);
    var b' := b.(parents := ["a"]);
    var before := map["a" := a, "b" := b];
    var mid := before["c" := c];
    var after := mid["b" := b'];
    assert Check(before, 1, "c", [], {"b"}, 0).Accepted?;
    assert Check(before, 1, "c", [], {} + {"b"}, 1) == Accepted({} + {"b"});
    assert Check(mid, 1, "b", [], {} + {"a"}, 1) == Accepted({} + {"a"});
    assert Joins(ParentGraph(after), ["c", "b", "a"], "c", "a");
    assert CollectFrom(after, 1, ["a"], 1) == {} by {
      assert Collect(after, 1, a, 2) == {};
      assert CollectFrom(after, 1, [], 1) == {};
    }
    assert Collect(after, 1, b', 1) == {};
    assert CollectFrom(after, 1, ["b"], 0) == {};
  }

  // ----- Lookup of an inherited role by name

  function Inherits(roles: Roles, id: string, target: string, visited: set<string>): (r: (bool, set<string>))
    requires id in roles
    ensures visited <= r.1
    decreases roles.Keys - visited, 0
  {
    if id in visited then (false, visited)
    else InheritsFrom(roles, roles[id].parents, target, visited + {id})
  }

  function InheritsFrom(roles: Roles, parents: seq<string>, target: string,
                        visited: set<string>): (r: (bool, set<string>))
    ensures visited <= r.1
    decreases roles.Keys - visited, |parents|
  {
    if parents == [] then (false, visited)
    else
      var p := parents[0];
      if p !in roles then InheritsFrom(roles, parents[1..], target, visited)
      else if roles[p].name == target then (true, visited)
      else
        var (found, v) := Inherits(roles, p, target, visited);
        if found then (true, v) else InheritsFrom(roles, parents[1..], target, v)
  }

  /** A hit is witnessed by a parent path. */
  lemma {:induction false} InheritsFromSound(roles: Roles, parents: seq<string>, target: string, visited: set<string>)
    requires InheritsFrom(roles, parents, target, visited).0
    ensures exists x, q :: Via(roles, parents, x, q) && x in roles && roles[x].name == target
    decreases roles.Keys - visited, |parents|
  {
    var p, rest := parents[0], parents[1..];
    if p in roles && roles[p].name == target {
      assert Via(roles, parents, p, [p]);
    } else if p in roles && Inherits(roles, p, target, visited).0 {
      InheritsFromSound(roles, roles[p].parents, target, visited + {p});
      var x, q :| Via(roles, roles[p].parents, x, q) && x in roles && roles[x].name == target;
      ViaCons(roles, p, x, q);
      assert Via(roles, parents, x, [p] + q);
    } else {
      var v := if p in roles then Inherits(roles, p, target, visited).1 else visited;
      InheritsFromSound(roles, rest, target, v);
      var x, q :| Via(roles, rest, x, q) && x in roles && roles[x].name == target;
      assert Via(roles, parents, x, q);
    }
  }

  /** All stored parents of `x` are visited and bear another name. */
  ghost predicate Exhausted(roles: Roles, ps: seq<string>, target: string, v: set<string>) {
    forall y :: y in ps && y in roles ==> y in v && roles[y].name != target
  }

  /** A miss has exhausted everything it newly visited. */
  lemma {:induction false} InheritsFromExhausts(roles: Roles, parents: seq<string>, target: string,
                                                visited: set<string>)
    requires !InheritsFrom(roles, parents, target, visited).0
    ensures
      var v := InheritsFrom(roles, parents, target, visited).1;
      && Exhausted(roles, parents, target, v)
      && forall x :: x in v && x !in visited ==> x in roles && Exhausted(roles, roles[x].parents, target, v)
    decreases roles.Keys - visited, |parents|
  {
    if parents != [] {
      var p, rest := parents[0], parents[1..];
      if p !in roles {
        InheritsFromExhausts(roles, rest, target, visited);
      } else {
        var v1 := Inherits(roles, p, target, visited).1;
        if p !in visited {
          InheritsFromExhausts(roles, roles[p].parents, target, visited + {p});
        }
        InheritsFromExhausts(roles, rest, target, v1);
      }
    }
  }

  /** The search is complete on arbitrary graphs, cyclic or with missing parents: it
      succeeds iff a parent path of at least one edge leads to a stored role so named. */
  lemma InheritsExact(roles: Roles, id: string, target: string)
    requires id in roles
    ensures Inherits(roles, id, target, {}).0 <==>
              exists x, q :: Via(roles, roles[id].parents, x, q) && x in roles && roles[x].name == target
  {
    if Inherits(roles, id, target, {}).0 {
      InheritsFromSound(roles, roles[id].parents, target, {} + {id});
    } else {
      InheritsFromExhausts(roles, roles[id].parents, target, {} + {id});
      var v := Inherits(roles, id, target, {}).1;
      forall x, q | Via(roles, roles[id].parents, x, q) && x in roles
        ensures roles[x].name != target
      {
        StaysExhausted(roles, id, target, v, q, |q| - 1);
      }
    }
  }

  lemma {:induction false} StaysExhausted(roles: Roles, id: string, target: string, v: set<string>, q: seq<string>,
                                          k: nat)
    requires id in roles && k < |q| && q[k] in roles
    requires IsPath(ParentGraph(roles), q) && q[0] in roles[id].parents
    requires id in v && forall x :: x in v ==> x in roles && Exhausted(roles, roles[x].parents, target, v)
    ensures q[k] in v && roles[q[k]].name != target
  {
    if k > 0 {
      assert Edge(ParentGraph(roles), q[k - 1], q[k]);
      StaysExhausted(roles, id, target, v, q, k - 1);
    }
  }
}
