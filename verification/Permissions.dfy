/** Registration and deletion of permissions with dependencies (authz/permissions.go). */
module Permissions {
  import opened Graph

  datatype Permission = Permission(id: string, resource: string, action: string, dependsOn: seq<string>)

  datatype Error = Duplicate | UnmetDependency(id: string) | Missing | DependedOn(user: string)

  datatype Outcome = Done | Failed(error: Error)

  type Registry = map<string, Permission>

  function DependencyGraph(r: Registry): Graph {
    map id | id in r :: r[id].dependsOn
  }

  /** Every dependency is registered and the dependency relation is acyclic. */
  ghost predicate Sound(r: Registry) {
    && (forall id, dep :: id in r && dep in r[id].dependsOn ==> dep in r)
    && Acyclic(DependencyGraph(r))
  }

  /** The permission as stored: an empty ID becomes `resource:action`. */
  function Identified(p: Permission): Permission {
    if p.id == "" then p.(id := p.resource + ":" + p.action) else p
  }

  datatype Op = Register(permission: Permission) | Delete(id: string)

  /** One accepted or refused operation; `r1` is the registry afterwards. */
  ghost predicate Next(r: Registry, op: Op, r1: Registry) {
    match op
    case Register(p0) =>
      var p := Identified(p0);
      if p.id in r || exists d :: d in p.dependsOn && d !in r then r1 == r else r1 == r[p.id := p]
    case Delete(id) =>
      if id !in r || exists other :: other in r && id in r[other].dependsOn then r1 == r else r1 == r - {id}
  }

  lemma NextKeepsSound(r: Registry, op: Op, r1: Registry)
    requires Sound(r) && Next(r, op, r1)
    ensures Sound(r1)
  {
    if r1 != r {
      match op
      case Register(p0) =>
        var p := Identified(p0);
        assert Closed(DependencyGraph(r), r.Keys);
        InsertAcyclic(DependencyGraph(r), p.id, p.dependsOn, r.Keys);
        assert DependencyGraph(r1) == DependencyGraph(r)[p.id := p.dependsOn];
      case Delete(id) =>
        SubgraphAcyclic(DependencyGraph(r), DependencyGraph(r1));
    }
  }

  /** The invariant holds in every state reachable from the empty registry, also when
      IDs are deleted and registered again with other dependencies. */
  lemma {:induction false} ReachableIsSound(states: seq<Registry>, ops: seq<Op>, i: nat)
    requires |states| == |ops| + 1 && i < |states| && states[0] == map[]
    requires forall k :: 0 <= k < |ops| ==> Next(states[k], ops[k], states[k + 1])
    ensures Sound(states[i])
  {
    if i > 0 {
      ReachableIsSound(states, ops, i - 1);
      NextKeepsSound(states[i - 1], ops[i - 1], states[i - 1 + 1]);
    } else {
      EdgelessAcyclic(DependencyGraph(states[0]));
    }
  }

  /** Every stored permission has a nonempty ID and is stored under it. */
  ghost predicate Named(r: Registry) {
    forall id :: id in r ==> r[id].id == id && id != ""
  }

  /** So it is in every reachable state: a permission registered without an ID is given resource and action as its
      ID. */
  lemma {:induction false} ReachableIsNamed(states: seq<Registry>, ops: seq<Op>, i: nat)
    requires |states| == |ops| + 1 && i < |states| && states[0] == map[]
    requires forall k :: 0 <= k < |ops| ==> Next(states[k], ops[k], states[k + 1])
    ensures Named(states[i])
    ensures forall id :: id in states[i] ==>
              exists k :: 0 <= k < i && ops[k].Register? && AsGiven(ops[k].permission, states[i][id])
  {
    if i > 0 {
      ReachableIsNamed(states, ops, i - 1);
      var h := i - 1;
      assert Next(states[h], ops[h], states[h + 1]);
      forall id | id in states[i]
        ensures states[i][id].id == id && id != ""
        ensures exists k :: 0 <= k < i && ops[k].Register? && AsGiven(ops[k].permission, states[i][id])
      {
        if id in states[h] && states[h][id] == states[i][id] {
          var k :| 0 <= k < h && ops[k].Register? && AsGiven(ops[k].permission, states[h][id]);
        } else {
          assert ops[h].Register? && AsGiven(ops[h].permission, states[i][id]);
        }
      }
    }
  }

  /** `p` is the permission `given`, with resource and action for an ID if it had none. */
  predicate AsGiven(given: Permission, p: Permission) {
    && p.resource == given.resource && p.action == given.action && p.dependsOn == given.dependsOn
    && p.id == if given.id != "" then given.id else given.resource + ":" + given.action
  }

  class PermissionManager {
    var permissions: Registry

    constructor ()
      ensures permissions == map[]
    {
      permissions := map[];
    }

    method RegisterPermission(permission: Permission) returns (out: Outcome)
      modifies this
      ensures Next(old(permissions), Register(permission), permissions)
      ensures
        var p := Identified(permission);
        match out
        case Done => p.id !in old(permissions) && permissions == old(permissions)[p.id := p]
        case Failed(e) =>
          && permissions == old(permissions)
          && if p.id in permissions then e == Duplicate
             else e.UnmetDependency? && e.id in p.dependsOn && e.id !in permissions
    {
      var p := Identified(permission);
      if p.id in permissions {
        return Failed(Duplicate);
      }
      for i := 0 to |p.dependsOn|
        invariant forall d :: d in p.dependsOn[..i] ==> d in permissions
      {
        if p.dependsOn[i] !in permissions {
          return Failed(UnmetDependency(p.dependsOn[i]));
        }
      }
      permissions := permissions[p.id := p];
      return Done;
    }

    /** The scan of the permissions meets them in an arbitrary order. */
    method DeletePermission(id: string) returns (out: Outcome)
      modifies this
      ensures Next(old(permissions), Delete(id), permissions)
      ensures
        match out
        case Done => id in old(permissions) && permissions == old(permissions) - {id}
        case Failed(e) =>
          && permissions == old(permissions)
          && if id !in permissions then e == Missing
             else e.DependedOn? && e.user in permissions && id in permissions[e.user].dependsOn
    {
      if id !in permissions {
        return Failed(Missing);
      }
      var rest := permissions.Keys;
      while rest != {}
        invariant rest <= permissions.Keys
        invariant forall other :: other in permissions && other !in rest ==> id !in permissions[other].dependsOn
        decreases rest
      {
        var other :| other in rest;
        var deps := permissions[other].dependsOn;
        for i := 0 to |deps|
          invariant id !in deps[..i]
        {
          if deps[i] == id {
            return Failed(DependedOn(other));
          }
        }
        rest := rest - {other};
      }
      permissions := permissions - {id};
      return Done;
    }
  }
}
