/** The role manager of authz/rbac.go: role storage, assignments and the permission
    cache.  `State` and `Step` specify it; class `RBACManager` is the imperative form. */
module RbacModel {
  import opened Graph
  import opened RoleGraph
  import opened Wrappers

  datatype Permission = Permission(id: string, resource: string, action: string, scope: string)
  datatype Assignment = Assignment(roleId: string, expiresAt: Option<int>)
  datatype CacheEntry = CacheEntry(permissions: set<Permission>, expiresAt: int)
  datatype Config = Config(enableCaching: bool, cacheTTL: int, maxDepth: int)
  datatype State = State(
    roles: Roles,
    permissions: map<string, Permission>,
    assignments: map<string, seq<Assignment>>,
    cache: map<string, CacheEntry>)

  /** The repository returns a role under its own ID. */
  predicate WellKeyed(roles: Roles) {
    forall id :: id in roles ==> roles[id].id == id
  }

  predicate Live(a: Assignment, now: int) {
    a.expiresAt == None || now <= a.expiresAt.value
  }

  function AssignmentsOf(s: State, user: string): seq<Assignment> {
    if user in s.assignments then s.assignments[user] else []
  }

  /** IDs of the stored roles among the unexpired assignments, in order. */
  function LiveRoles(roles: Roles, grants: seq<Assignment>, now: int): (ids: seq<string>)
    ensures forall id :: id in ids ==> id in roles
  {
    if grants == [] then []
    else
      var rest := LiveRoles(roles, grants[1..], now);
      if Live(grants[0], now) && grants[0].roleId in roles then [grants[0].roleId] + rest else rest
  }

  function CollectAll(roles: Roles, max: int, ids: seq<string>): set<string>
    requires forall id :: id in ids ==> id in roles
  {
    if ids == [] then {}
    else Collect(roles, max, roles[ids[0]], 0) + CollectAll(roles, max, ids[1..])
  }

  /** What the uncached computation gives `user` at time `now`. */
  function Uncached(c: Config, s: State, user: string, now: int): set<Permission> {
    var ids := CollectAll(s.roles, c.maxDepth, LiveRoles(s.roles, AssignmentsOf(s, user), now));
    set id | id in ids && id in s.permissions :: s.permissions[id]
  }

  predicate CacheHit(c: Config, s: State, user: string, now: int) {
    c.enableCaching && user in s.cache && now <= s.cache[user].expiresAt
  }

  function Answer(c: Config, s: State, user: string, now: int): set<Permission> {
    if CacheHit(c, s, user, now) then s.cache[user].permissions else Uncached(c, s, user, now)
  }

  datatype Op =
    | CreateRole(role: Role)
    | UpdateRole(role: Role)
    | DeleteRole(id: string)
    | AssignRole(user: string, roleId: string, expiresAt: Option<int>)
    | RevokeRole(user: string, roleId: string)
    | CreatePermission(permission: Permission)
    | DeletePermission(id: string)
    | GetAllUserPermissions(user: string)

  datatype Error =
      InvalidRole | RoleExists | RoleNotFound | SystemRole | PermissionNotFound(id: string) | Inheritance(why: Verdict)

  predicate NameTaken(roles: Roles, name: string) {
    exists id :: id in roles && roles[id].name == name
  }

  /** The first listed permission that does not exist. */
  function MissingPermission(known: map<string, Permission>, ids: seq<string>): Option<Error> {
    if ids == [] then None
    else if ids[0] !in known then Some(PermissionNotFound(ids[0]))
    else MissingPermission(known, ids[1..])
  }

  function RoleContentError(c: Config, s: State, role: Role): Option<Error> {
    var missing := MissingPermission(s.permissions, role.permissions);
    if missing.Some? then missing
    else
      var v := Validate(s.roles, c.maxDepth, role);
      if v.Accepted? then None else Some(Inheritance(v))
  }

  function CreateError(c: Config, s: State, role: Role): Option<Error> {
    if role.name == "" then Some(InvalidRole)
    else if NameTaken(s.roles, role.name) then Some(RoleExists)
    else RoleContentError(c, s, role)
  }

  function UpdateError(c: Config, s: State, role: Role): Option<Error> {
    if role.id !in s.roles then Some(RoleNotFound)
    else if s.roles[role.id].isSystem then Some(SystemRole)
    else RoleContentError(c, s, role)
  }

  function DeleteError(s: State, id: string): Option<Error> {
    if id !in s.roles then Some(RoleNotFound)
    else if s.roles[id].isSystem then Some(SystemRole)
    else None
  }

  function WithoutRole(grants: seq<Assignment>, roleId: string): (r: seq<Assignment>)
    ensures forall a :: a in r <==> a in grants && a.roleId != roleId
  {
    if grants == [] then []
    else (if grants[0].roleId == roleId then [] else [grants[0]]) + WithoutRole(grants[1..], roleId)
  }

  /** One operation at one reading of the clock. */
  function Step(c: Config, s: State, op: Op, now: int): State {
    match op
    case CreateRole(role) =>
      if CreateError(c, s, role) == None then s.(roles := s.roles[role.id := role]) else s
    case UpdateRole(role) =>
      if UpdateError(c, s, role) == None then s.(roles := s.roles[role.id := role]) else s
    case DeleteRole(id) =>
      if DeleteError(s, id) == None then s.(roles := s.roles - {id}) else s
    case AssignRole(user, roleId, expiresAt) =>
      if roleId !in s.roles then s
      else s.(cache := s.cache - {user},
              assignments := s.assignments[user := AssignmentsOf(s, user) + [Assignment(roleId, expiresAt)]])
    case RevokeRole(user, roleId) =>
      s.(cache := s.cache - {user},
         assignments := s.assignments[user := WithoutRole(AssignmentsOf(s, user), roleId)])
    case CreatePermission(p) =>
      s.(permissions := s.permissions[p.id := p])
    case DeletePermission(id) =>
      s.(permissions := s.permissions - {id})
    case GetAllUserPermissions(user) =>
      if !c.enableCaching || CacheHit(c, s, user, now) then s
      else s.(cache := s.cache[user := CacheEntry(Uncached(c, s, user, now), now + c.cacheTTL)])
  }

  // ----- Runs

  datatype Event = Event(op: Op, at: int)

  /** `states[i]` is the state before `events[i]`; the clock never goes back. */
  ghost predicate IsRun(c: Config, states: seq<State>, events: seq<Event>) {
    && |states| == |events| + 1
    && states[0].cache == map[]
    && (forall i :: 0 <= i < |events| ==> states[i + 1] == Step(c, states[i], events[i].op, events[i].at))
    && (forall i, j :: 0 <= i <= j < |events| ==> events[i].at <= events[j].at)
  }

  /** The operation changes the assignments of `user`. */
  predicate Reassigns(s: State, op: Op, user: string) {
    || (op.RevokeRole? && op.user == user)
    || (op.AssignRole? && op.user == user && op.roleId in s.roles)
  }

  ghost predicate Undisturbed(states: seq<State>, events: seq<Event>, user: string, lo: nat, hi: nat)
    requires |states| == |events| + 1 && hi <= |events|
  {
    forall k :: lo <= k < hi ==> !Reassigns(states[k], events[k].op, user)
  }

  /** The entry was computed by the query at step `j` and nothing reassigned the user since. */
  ghost predicate ComputedAt(c: Config, states: seq<State>, events: seq<Event>, user: string, e: CacheEntry, j: nat,
                             i: nat)
    requires |states| == |events| + 1 && j < i <= |events|
  {
    && e == CacheEntry(Uncached(c, states[j], user, events[j].at), events[j].at + c.cacheTTL)
    && Undisturbed(states, events, user, j, i)
  }

  /** One step either computes a cache entry or carries it over without reassigning. */
  lemma EntryOrigin(c: Config, s: State, op: Op, now: int, user: string)
    requires user in Step(c, s, op, now).cache
    ensures
      var e := Step(c, s, op, now).cache[user];
      && !Reassigns(s, op, user)
      && (e == CacheEntry(Uncached(c, s, user, now), now + c.cacheTTL) || (user in s.cache && e == s.cache[user]))
  {
  }

  lemma RunEntryOrigin(c: Config, states: seq<State>, events: seq<Event>, h: nat, user: string)
    requires IsRun(c, states, events) && h < |events| && user in states[h + 1].cache
    ensures !Reassigns(states[h], events[h].op, user)
    ensures var e := states[h + 1].cache[user];
            || e == CacheEntry(Uncached(c, states[h], user, events[h].at), events[h].at + c.cacheTTL)
            || (user in states[h].cache && e == states[h].cache[user])
  {
    assert states[h + 1] == Step(c, states[h], events[h].op, events[h].at);
    EntryOrigin(c, states[h], events[h].op, events[h].at, user);
  }

  lemma {:induction false} CacheProvenance(c: Config, states: seq<State>, events: seq<Event>, i: nat, user: string)
    requires IsRun(c, states, events) && i <= |events| && user in states[i].cache
    ensures exists j: nat :: j < i && ComputedAt(c, states, events, user, states[i].cache[user], j, i)
  {
    if i > 0 {
      var h := i - 1;
      RunEntryOrigin(c, states, events, h, user);
      if user in states[h].cache && states[i].cache[user] == states[h].cache[user] {
        CacheProvenance(c, states, events, h, user);
        var j: nat :| j < h && ComputedAt(c, states, events, user, states[h].cache[user], j, h);
        assert ComputedAt(c, states, events, user, states[i].cache[user], j, i);
      } else {
        assert ComputedAt(c, states, events, user, states[i].cache[user], h, i);
      }
    }
  }

  /** Bounded staleness: every answer is what the uncached computation gave at some
      earlier step, at most one TTL ago, with no reassignment of the user since. */
  lemma BoundedStaleness(c: Config, states: seq<State>, events: seq<Event>, i: nat, user: string)
    requires IsRun(c, states, events) && i < |events| && events[i].op == GetAllUserPermissions(user)
    ensures exists j: nat ::
              && j <= i
              && Answer(c, states[i], user, events[i].at) == Uncached(c, states[j], user, events[j].at)
              && (j == i || events[i].at - c.cacheTTL <= events[j].at <= events[i].at)
              && Undisturbed(states, events, user, j, i)
  {
    if CacheHit(c, states[i], user, events[i].at) {
      CacheProvenance(c, states, events, i, user);
      var j: nat :| j < i && ComputedAt(c, states, events, user, states[i].cache[user], j, i);
      assert Undisturbed(states, events, user, j, i);
    } else {
      assert Undisturbed(states, events, user, i, i);
    }
  }

  ghost predicate SoundRoles(roles: Roles) {
    WellKeyed(roles) && Acyclic(ParentGraph(roles))
  }

  lemma StepKeepsSound(c: Config, s: State, op: Op, now: int)
    requires SoundRoles(s.roles)
    ensures SoundRoles(Step(c, s, op, now).roles)
  {
    match op
    case CreateRole(role) =>
      if CreateError(c, s, role) == None { AcceptedKeepsAcyclic(s.roles, c.maxDepth, role); }
    case UpdateRole(role) =>
      if UpdateError(c, s, role) == None { AcceptedKeepsAcyclic(s.roles, c.maxDepth, role); }
    case DeleteRole(id) =>
      SubgraphAcyclic(ParentGraph(s.roles), ParentGraph(s.roles - {id}));
    case _ =>
  }

  ghost predicate SoundStep(states: seq<State>, k: nat)
    requires k + 1 < |states|
  {
    SoundRoles(states[k].roles) ==> SoundRoles(states[k + 1].roles)
  }

  lemma RunSoundStep(c: Config, states: seq<State>, events: seq<Event>, k: nat)
    requires IsRun(c, states, events) && k < |events|
    ensures SoundStep(states, k)
  {
    if SoundRoles(states[k].roles) {
      StepKeepsSound(c, states[k], events[k].op, events[k].at);
    }
  }

  lemma {:induction false} SoundAfter(states: seq<State>, i: nat)
    requires i < |states| && SoundRoles(states[0].roles) && forall k: nat :: k < i ==> SoundStep(states, k)
    ensures SoundRoles(states[i].roles)
  {
    if i > 0 {
      SoundAfter(states, i - 1);
      assert SoundStep(states, i - 1);
    }
  }

  /** Acyclicity of the stored graph survives every run. */
  lemma RunKeepsAcyclic(c: Config, states: seq<State>, events: seq<Event>, i: nat)
    requires IsRun(c, states, events) && i <= |events| && SoundRoles(states[0].roles)
    ensures SoundRoles(states[i].roles)
  {
    forall k: nat | k < i
      ensures SoundStep(states, k)
    {
      RunSoundStep(c, states, events, k);
    }
    SoundAfter(states, i);
  }

  // ----- HasRole

  /** `user` holds, unexpired, a stored role named `target` or one that inherits it. */
  ghost predicate HoldsRole(s: State, user: string, target: string, now: int) {
    exists a, x ::
      && a in AssignmentsOf(s, user) && Live(a, now) && a.roleId in s.roles
      && Reaches(ParentGraph(s.roles), a.roleId, x) && x in s.roles && s.roles[x].name == target
  }

  function HasRoleAmong(roles: Roles, ids: seq<string>, target: string): bool
    requires forall id :: id in ids ==> id in roles
  {
    if ids == [] then false
    else if roles[ids[0]].name == target then true
    else if Inherits(roles, ids[0], target, {}).0 then true
    else HasRoleAmong(roles, ids[1..], target)
  }

  lemma {:induction false} LiveRolesExact(roles: Roles, grants: seq<Assignment>, now: int, id: string)
    ensures id in LiveRoles(roles, grants, now) <==>
              exists a :: a in grants && Live(a, now) && a.roleId == id && id in roles
  {
    if grants != [] {
      LiveRolesExact(roles, grants[1..], now, id);
      assert grants == [grants[0]] + grants[1..];
    }
  }

  /** Permission `id` is granted to `user`: an unexpired assignment names a stored role
      from which a role listing `id` lies at most `maxDepth` parent edges away. */
  ghost predicate Granted(c: Config, s: State, user: string, id: string, now: int) {
    exists a, x ::
      && a in AssignmentsOf(s, user) && Live(a, now) && a.roleId in s.roles
      && ReachesWithin(ParentGraph(s.roles), a.roleId, x, c.maxDepth) && x in s.roles && id in s.roles[x].permissions
  }

  lemma {:induction false} CollectAllMember(roles: Roles, max: int, ids: seq<string>, perm: string)
    requires forall id :: id in ids ==> id in roles
    ensures perm in CollectAll(roles, max, ids) <==> exists id :: id in ids && perm in Collect(roles, max, roles[id], 0)
  {
    if ids != [] {
      CollectAllMember(roles, max, ids[1..], perm);
      assert ids == [ids[0]] + ids[1..];
    }
  }

  /** The uncached computation returns exactly the stored permissions granted to the user. */
  lemma UncachedExact(c: Config, s: State, user: string, now: int, p: Permission)
    requires WellKeyed(s.roles)
    ensures p in Uncached(c, s, user, now) <==>
              exists id :: id in s.permissions && s.permissions[id] == p && Granted(c, s, user, id, now)
  {
    forall id
      ensures id in CollectAll(s.roles, c.maxDepth, LiveRoles(s.roles, AssignmentsOf(s, user), now)) <==>
                Granted(c, s, user, id, now)
    {
      CollectedIsGranted(c, s, user, now, id);
    }
  }

  lemma CollectedIsGranted(c: Config, s: State, user: string, now: int, id: string)
    requires WellKeyed(s.roles)
    ensures id in CollectAll(s.roles, c.maxDepth, LiveRoles(s.roles, AssignmentsOf(s, user), now)) <==>
              Granted(c, s, user, id, now)
  {
    var grants := AssignmentsOf(s, user);
    var live := LiveRoles(s.roles, grants, now);
    CollectAllMember(s.roles, c.maxDepth, live, id);
    if r :| r in live && id in Collect(s.roles, c.maxDepth, s.roles[r], 0) {
      LiveRolesExact(s.roles, grants, now, r);
      CollectExact(s.roles, c.maxDepth, s.roles[r], id);
    }
    if Granted(c, s, user, id, now) {
      var a, x :| a in grants && Live(a, now) && a.roleId in s.roles
        && ReachesWithin(ParentGraph(s.roles), a.roleId, x, c.maxDepth) && x in s.roles && id in s.roles[x].permissions;
      LiveRolesExact(s.roles, grants, now, a.roleId);
      CollectExact(s.roles, c.maxDepth, s.roles[a.roleId], id);
    }
  }

  lemma HoldsByName(roles: Roles, id: string, target: string)
    requires id in roles
    ensures (roles[id].name == target || Inherits(roles, id, target, {}).0) <==>
              exists x :: Reaches(ParentGraph(roles), id, x) && x in roles && roles[x].name == target
  {
    var g := ParentGraph(roles);
    InheritsExact(roles, id, target);
    if roles[id].name == target {
      assert Joins(g, [id], id, id);
      assert Reaches(g, id, id);
    }
    if Inherits(roles, id, target, {}).0 {
      var x, q :| Via(roles, roles[id].parents, x, q) && x in roles && roles[x].name == target;
      PathCons(g, id, q);
      assert Joins(g, [id] + q, id, x);
      assert Reaches(g, id, x);
    }
    if x :| Reaches(g, id, x) && x in roles && roles[x].name == target {
      var p :| Joins(g, p, id, x);
      if |p| > 1 {
        PathTail(g, p);
        assert Via(roles, roles[id].parents, x, p[1..]);
      }
    }
  }

  lemma {:induction false} HasRoleAmongExact(roles: Roles, ids: seq<string>, target: string)
    requires forall id :: id in ids ==> id in roles
    ensures HasRoleAmong(roles, ids, target) <==>
              exists id, x :: id in ids && Reaches(ParentGraph(roles), id, x) && x in roles && roles[x].name == target
  {
    if ids != [] {
      HoldsByName(roles, ids[0], target);
      HasRoleAmongExact(roles, ids[1..], target);
      assert ids == [ids[0]] + ids[1..];
    }
  }

  /** HasRole answers exactly whether the user holds the role, directly or by inheritance. */
  lemma HasRoleExact(s: State, user: string, target: string, now: int)
    ensures HasRoleAmong(s.roles, LiveRoles(s.roles, AssignmentsOf(s, user), now), target)
            <==> HoldsRole(s, user, target, now)
  {
    var grants := AssignmentsOf(s, user);
    var ids := LiveRoles(s.roles, grants, now);
    HasRoleAmongExact(s.roles, ids, target);
    if HasRoleAmong(s.roles, ids, target) {
      var id, x :| id in ids && Reaches(ParentGraph(s.roles), id, x) && x in s.roles && s.roles[x].name == target;
      LiveRolesExact(s.roles, grants, now, id);
    }
    if HoldsRole(s, user, target, now) {
      var a, x :| a in grants && Live(a, now) && a.roleId in s.roles
        && Reaches(ParentGraph(s.roles), a.roleId, x) && x in s.roles && s.roles[x].name == target;
      LiveRolesExact(s.roles, grants, now, a.roleId);
    }
  }
}

/** The manager as the source has it: repositories and cache updated in place, walks
    that write into a set shared by all their recursive calls. */
module Rbac {
  import opened RoleGraph
  import opened RbacModel
  import opened Wrappers

  /** A set of IDs passed by reference through a recursive walk. */
  class IdSet {
    var ids: set<string>

    constructor ()
      ensures ids == {}
    {
      ids := {};
    }
  }

  class RBACManager {
    const config: Config
    var roles: Roles
    var permissions: map<string, Permission>
    var assignments: map<string, seq<Assignment>>
    var cache: map<string, CacheEntry>

    constructor (config: Config, roles: Roles, permissions: map<string, Permission>,
                 assignments: map<string, seq<Assignment>>)
      ensures this.config == config && Abs() == State(roles, permissions, assignments, map[])
    {
      this.config := config;
      this.roles, this.permissions, this.assignments, cache := roles, permissions, assignments, map[];
    }

    function Abs(): State
      reads this
    {
      State(roles, permissions, assignments, cache)
    }

    method CreateRole(role: Role, now: int) returns (err: Option<Error>)
      modifies `roles
      ensures err == CreateError(config, old(Abs()), role)
      ensures Abs() == Step(config, old(Abs()), Op.CreateRole(role), now)
    {
      if role.name == "" {
        return Some(InvalidRole);
      }
      if NameTaken(roles, role.name) {
        return Some(RoleExists);
      }
      err := ValidateContent(role);
      if err == None {
        roles := roles[role.id := role];
      }
    }

    method UpdateRole(role: Role, now: int) returns (err: Option<Error>)
      modifies `roles
      ensures err == UpdateError(config, old(Abs()), role)
      ensures Abs() == Step(config, old(Abs()), Op.UpdateRole(role), now)
    {
      if role.id !in roles {
        return Some(RoleNotFound);
      }
      if roles[role.id].isSystem {
        return Some(SystemRole);
      }
      err := ValidateContent(role);
      if err == None {
        roles := roles[role.id := role];
      }
    }

    method DeleteRole(id: string, now: int) returns (err: Option<Error>)
      modifies `roles
      ensures err == DeleteError(old(Abs()), id)
      ensures Abs() == Step(config, old(Abs()), Op.DeleteRole(id), now)
    {
      if id !in roles {
        return Some(RoleNotFound);
      }
      if roles[id].isSystem {
        return Some(SystemRole);
      }
      roles := roles - {id};
      return None;
    }

    /** The permission loop and the inheritance check shared by creation and update. */
    method ValidateContent(role: Role) returns (err: Option<Error>)
      ensures err == RoleContentError(config, Abs(), role)
    {
      for i := 0 to |role.permissions|
        invariant MissingPermission(permissions, role.permissions)
               == MissingPermission(permissions, role.permissions[i..])
      {
        if role.permissions[i] !in permissions {
          return Some(PermissionNotFound(role.permissions[i]));
        }
      }
      var why := ValidateInheritance(role);
      return if why == None then None else Some(Inheritance(why.value));
    }

    method ValidateInheritance(role: Role) returns (err: Option<Verdict>)
      ensures err == (var v := Validate(roles, config.maxDepth, role); if v.Accepted? then None else Some(v))
    {
      if role.parents == [] {
        return None;
      }
      var visited := new IdSet();
      err := CheckCircularInheritance(role.id, role.parents, visited, 0);
    }

    method CheckCircularInheritance(roleID: string, parents: seq<string>, visited: IdSet, depth: int)
      returns (err: Option<Verdict>)
      modifies visited
      ensures
        var v := Check(roles, config.maxDepth, roleID, parents, old(visited.ids), depth);
        if v.Accepted? then err == None && visited.ids == v.visited else err == Some(v)
      decreases config.maxDepth - depth
    {
      if depth > config.maxDepth {
        return Some(DepthExceeded);
      }
      for i := 0 to |parents|
        invariant Check(roles, config.maxDepth, roleID, parents, old(visited.ids), depth)
               == Check(roles, config.maxDepth, roleID, parents[i..], visited.ids, depth)
      {
        var p := parents[i];
        assert parents[i..][1..] == parents[i + 1..];
        if p == roleID {
          return Some(Circular);
        }
        if p in visited.ids {
          continue;
        }
        visited.ids := visited.ids + {p};
        if p !in roles {
          return Some(NotFound(p));
        }
        err := CheckCircularInheritance(roleID, roles[p].parents, visited, depth + 1);
        if err != None {
          return;
        }
      }
      return None;
    }

    method AssignRole(user: string, roleID: string, expiresAt: Option<int>, now: int) returns (err: Option<Error>)
      modifies `assignments, `cache
      ensures err == if roleID in roles then None else Some(RoleNotFound)
      ensures Abs() == Step(config, old(Abs()), Op.AssignRole(user, roleID, expiresAt), now)
    {
      if roleID !in roles {
        return Some(RoleNotFound);
      }
      InvalidateCache(user);
      assignments := assignments[user := AssignmentsOf(Abs(), user) + [Assignment(roleID, expiresAt)]];
      return None;
    }

    method RevokeRole(user: string, roleID: string, now: int)
      modifies `assignments, `cache
      ensures Abs() == Step(config, old(Abs()), Op.RevokeRole(user, roleID), now)
    {
      InvalidateCache(user);
      assignments := assignments[user := WithoutRole(AssignmentsOf(Abs(), user), roleID)];
    }

    method InvalidateCache(user: string)
      modifies `cache
      ensures cache == old(cache) - {user}
    {
      cache := cache - {user};
    }

    /** Loads an entry unless it has expired; an expired entry is dropped. */
    method GetFromCache(user: string, now: int) returns (found: Option<set<Permission>>)
      requires config.enableCaching
      modifies `cache
      ensures found == if CacheHit(config, old(Abs()), user, now) then Some(old(cache)[user].permissions) else None
      ensures cache == if found == None then old(cache) - {user} else old(cache)
    {
      if user !in cache {
        assert cache == cache - {user};
        return None;
      }
      if now > cache[user].expiresAt {
        cache := cache - {user};
        return None;
      }
      return Some(cache[user].permissions);
    }

    method GetUserRoles(user: string, now: int) returns (ids: seq<string>)
      ensures ids == LiveRoles(roles, AssignmentsOf(Abs(), user), now)
    {
      var grants := AssignmentsOf(Abs(), user);
      ids := [];
      for i := 0 to |grants|
        invariant ids + LiveRoles(roles, grants[i..], now) == LiveRoles(roles, grants, now)
      {
        if Live(grants[i], now) && grants[i].roleId in roles {
          ids := ids + [grants[i].roleId];
        }
      }
    }

    method CollectPermissionIDs(role: Role, found: IdSet, depth: int)
      modifies found
      ensures found.ids == old(found.ids) + Collect(roles, config.maxDepth, role, depth)
      decreases config.maxDepth - depth
    {
      if depth > config.maxDepth {
        return;
      }
      found.ids := found.ids + set p | p in role.permissions;
      ghost var mine := found.ids;
      for i := 0 to |role.parents|
        invariant found.ids + CollectFrom(roles, config.maxDepth, role.parents[i..], depth)
               == mine + CollectFrom(roles, config.maxDepth, role.parents, depth)
      {
        assert role.parents[i..][1..] == role.parents[i + 1..];
        if role.parents[i] !in roles {
          continue;
        }
        CollectPermissionIDs(roles[role.parents[i]], found, depth + 1);
      }
    }

    /** The loop over a user's roles. */
    method CollectRoleIDs(ids: seq<string>) returns (found: set<string>)
      requires forall id :: id in ids ==> id in roles
      ensures found == CollectAll(roles, config.maxDepth, ids)
    {
      var all := new IdSet();
      for i := 0 to |ids|
        invariant all.ids + CollectAll(roles, config.maxDepth, ids[i..]) == CollectAll(roles, config.maxDepth, ids)
      {
        assert ids[i..][1..] == ids[i + 1..];
        CollectPermissionIDs(roles[ids[i]], all, 0);
      }
      found := all.ids;
    }

    method GetAllUserPermissions(user: string, now: int) returns (perms: set<Permission>)
      modifies `cache
      ensures perms == Answer(config, old(Abs()), user, now)
      ensures Abs() == Step(config, old(Abs()), Op.GetAllUserPermissions(user), now)
    {
      if config.enableCaching {
        var cached := GetFromCache(user, now);
        if cached.Some? {
          return cached.value;
        }
      }
      var ids := GetUserRoles(user, now);
      var found := CollectRoleIDs(ids);
      perms := set id | id in found && id in permissions :: permissions[id];
      if config.enableCaching {
        cache := cache[user := CacheEntry(perms, now + config.cacheTTL)];
        assert cache == old(cache)[user := cache[user]];
      }
    }

    method HasRole(user: string, roleName: string, now: int) returns (has: bool)
      ensures has <==> HoldsRole(Abs(), user, roleName, now)
    {
      var ids := GetUserRoles(user, now);
      HasRoleExact(Abs(), user, roleName, now);
      for i := 0 to |ids|
        invariant HasRoleAmong(roles, ids, roleName) == HasRoleAmong(roles, ids[i..], roleName)
      {
        if roles[ids[i]].name == roleName {
          return true;
        }
        var visited := new IdSet();
        var inherited := HasRoleInherited(ids[i], roleName, visited);
        if inherited {
          return true;
        }
      }
      return false;
    }

    /** `id` is the ID of the role the search starts from. */
    method HasRoleInherited(id: string, target: string, visited: IdSet) returns (found: bool)
      requires id in roles
      modifies visited
      ensures (found, visited.ids) == Inherits(roles, id, target, old(visited.ids))
      decreases roles.Keys - visited.ids
    {
      if id in visited.ids {
        return false;
      }
      visited.ids := visited.ids + {id};
      var parents := roles[id].parents;
      for i := 0 to |parents|
        invariant old(visited.ids) + {id} <= visited.ids
        invariant InheritsFrom(roles, parents, target, old(visited.ids) + {id})
               == InheritsFrom(roles, parents[i..], target, visited.ids)
      {
        assert parents[i..][1..] == parents[i + 1..];
        if parents[i] !in roles {
          continue;
        }
        if roles[parents[i]].name == target {
          return true;
        }
        found := HasRoleInherited(parents[i], target, visited);
        if found {
          return;
        }
      }
      return false;
    }
  }
}
