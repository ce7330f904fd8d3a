/** What the operations of authz/rbac.go do to assignments, and what users then hold: told from the
    assignments held at the start and the operations since. */
module RbacAssignments {
  import opened Graph
  import opened RbacModel
  import opened RoleGraph
  import opened Wrappers

  /** The operation takes assignment `a` from `user`. */
  predicate Takes(op: Op, user: string, a: Assignment) {
    op.RevokeRole? && op.user == user && op.roleId == a.roleId
  }

  /** The operation gives assignment `a` to `user`; a role that is not stored is not assigned. */
  predicate Gives(s: State, op: Op, user: string, a: Assignment) {
    op == AssignRole(user, a.roleId, a.expiresAt) && a.roleId in s.roles
  }

  lemma {:induction false} WithoutRoleCount(grants: seq<Assignment>, roleId: string, a: Assignment)
    ensures multiset(WithoutRole(grants, roleId))[a] == if a.roleId == roleId then 0 else multiset(grants)[a]
  {
    if grants != [] {
      var first, rest := grants[0], grants[1..];
      var r := WithoutRole(rest, roleId);
      WithoutRoleCount(rest, roleId, a);
      CountFirst(first, rest, grants, a);
      CountFirst(first, r, [first] + r, a);
      assert WithoutRole(grants, roleId) == if first.roleId == roleId then r else [first] + r;
    }
  }

  lemma CountFirst(first: Assignment, rest: seq<Assignment>, all: seq<Assignment>, a: Assignment)
    requires all == [first] + rest
    ensures multiset(all)[a] == multiset(rest)[a] + if first == a then 1 else 0
  {
    assert multiset(all) == multiset{first} + multiset(rest);
  }

  function Times(s: State, user: string, a: Assignment): nat {
    multiset(AssignmentsOf(s, user))[a]
  }

  lemma TimesAfterRevoke(c: Config, s: State, user: string, roleId: string, now: int, v: string, a: Assignment)
    ensures Times(Step(c, s, RevokeRole(user, roleId), now), v, a)
         == if v == user && a.roleId == roleId then 0 else Times(s, v, a)
  {
    WithoutRoleCount(AssignmentsOf(s, user), roleId, a);
  }

  lemma TimesAfterAssign(c: Config, s: State, user: string, x: Assignment, now: int, v: string, a: Assignment)
    ensures Times(Step(c, s, AssignRole(user, x.roleId, x.expiresAt), now), v, a)
         == Times(s, v, a) + if v == user && a == x && x.roleId in s.roles then 1 else 0
  {
    assert multiset(AssignmentsOf(s, user) + [x]) == multiset(AssignmentsOf(s, user)) + multiset{x};
  }

  lemma AssignmentsStay(c: Config, s: State, op: Op, now: int, user: string)
    requires !op.AssignRole? && !op.RevokeRole?
    ensures AssignmentsOf(Step(c, s, op, now), user) == AssignmentsOf(s, user)
  {
  }

  /** How often a user has an assignment after an operation: as often as before, but once more if it was given, and
      not at all if it was taken. */
  lemma AssignmentsAfter(c: Config, s: State, op: Op, now: int, user: string, a: Assignment)
    ensures Times(Step(c, s, op, now), user, a)
         == (if Takes(op, user, a) then 0 else Times(s, user, a)) + if Gives(s, op, user, a) then 1 else 0
  {
    if op.RevokeRole? {
      TimesAfterRevoke(c, s, op.user, op.roleId, now, user, a);
    } else if op.AssignRole? {
      TimesAfterAssign(c, s, op.user, Assignment(op.roleId, op.expiresAt), now, user, a);
    } else {
      AssignmentsStay(c, s, op, now, user);
    }
  }

  lemma TimesHeld(s: State, user: string, a: Assignment)
    ensures Times(s, user, a) > 0 <==> a in AssignmentsOf(s, user)
  {
  }

  lemma HeldAfter(c: Config, s: State, op: Op, now: int, user: string, a: Assignment)
    ensures a in AssignmentsOf(Step(c, s, op, now), user) <==>
            Gives(s, op, user, a) || (a in AssignmentsOf(s, user) && !Takes(op, user, a))
  {
    AssignmentsAfter(c, s, op, now, user, a);
    TimesHeld(s, user, a);
    TimesHeld(Step(c, s, op, now), user, a);
  }

  // ----- Runs

  /** The user has the assignment from state `j` on: from the start, or by the operation before. */
  ghost predicate HasFrom(states: seq<State>, events: seq<Event>, user: string, a: Assignment, j: nat)
    requires j <= |events| < |states|
  {
    if j == 0 then a in AssignmentsOf(states[0], user) else Gives(states[j - 1], events[j - 1].op, user, a)
  }

  /** No operation between states `j` and `i` takes the assignment. */
  ghost predicate Keeps(events: seq<Event>, user: string, a: Assignment, j: nat, i: nat)
    requires i <= |events|
  {
    forall k :: j <= k < i ==> !Takes(events[k].op, user, a)
  }

  /** Had at the start or given since, and not taken after that. */
  ghost predicate Holds(states: seq<State>, events: seq<Event>, user: string, a: Assignment, i: nat)
    requires i <= |events| < |states|
  {
    exists j: nat :: j <= i && HasFrom(states, events, user, a, j) && Keeps(events, user, a, j, i)
  }

  lemma HoldsNext(states: seq<State>, events: seq<Event>, user: string, a: Assignment, h: nat)
    requires h < |events| < |states|
    ensures Holds(states, events, user, a, h + 1) <==>
            || Gives(states[h], events[h].op, user, a)
            || (Holds(states, events, user, a, h) && !Takes(events[h].op, user, a))
  {
    if Gives(states[h], events[h].op, user, a) {
      assert HasFrom(states, events, user, a, h + 1) && Keeps(events, user, a, h + 1, h + 1);
    }
    if Holds(states, events, user, a, h) && !Takes(events[h].op, user, a) {
      var j: nat :| j <= h && HasFrom(states, events, user, a, j) && Keeps(events, user, a, j, h);
      assert Keeps(events, user, a, j, h + 1);
    }
    if Holds(states, events, user, a, h + 1) {
      var j: nat :| j <= h + 1 && HasFrom(states, events, user, a, j) && Keeps(events, user, a, j, h + 1);
      if j <= h {
        assert Keeps(events, user, a, j, h);
      }
    }
  }

  lemma RunHeldNext(c: Config, states: seq<State>, events: seq<Event>, h: nat, user: string, a: Assignment)
    requires IsRun(c, states, events) && h < |events|
    ensures a in AssignmentsOf(states[h + 1], user) <==>
            || Gives(states[h], events[h].op, user, a)
            || (a in AssignmentsOf(states[h], user) && !Takes(events[h].op, user, a))
  {
    HeldAfter(c, states[h], events[h].op, events[h].at, user, a);
  }

  /** The run law of assignments: a user has an assignment in a state of a run exactly if it had it at the start or was
      given it since, while the role was stored, and no revocation of that role came after. */
  lemma {:induction false} RunAssignments(c: Config, states: seq<State>, events: seq<Event>, i: nat, user: string,
                                          a: Assignment)
    requires IsRun(c, states, events) && i <= |events|
    ensures a in AssignmentsOf(states[i], user) <==> Holds(states, events, user, a, i)
  {
    if i == 0 {
      assert HasFrom(states, events, user, a, 0) ==> Keeps(events, user, a, 0, 0);
    } else {
      RunAssignments(c, states, events, i - 1, user, a);
      RunHeldNext(c, states, events, i - 1, user, a);
      HoldsNext(states, events, user, a, i - 1);
    }
  }

  // ----- What users hold

  /** The assignment has not expired; it is good to the last moment. */
  predicate Unexpired(a: Assignment, now: int) {
    a.expiresAt.Some? ==> now <= a.expiresAt.value
  }

  /** Assignment `a` makes its bearer hold a role named `target`. */
  ghost predicate Confers(roles: Roles, a: Assignment, target: string, now: int) {
    && Unexpired(a, now) && a.roleId in roles
    && exists x :: Reaches(ParentGraph(roles), a.roleId, x) && x in roles && roles[x].name == target
  }

  /** Assignment `a` grants permission `id`. */
  ghost predicate Grants(c: Config, roles: Roles, a: Assignment, id: string, now: int) {
    && Unexpired(a, now) && a.roleId in roles
    && exists x ::
         ReachesWithin(ParentGraph(roles), a.roleId, x, c.maxDepth) && x in roles && id in roles[x].permissions
  }

  lemma HoldsByAssignment(s: State, user: string, target: string, now: int)
    ensures HoldsRole(s, user, target, now) <==>
            exists a :: a in AssignmentsOf(s, user) && Confers(s.roles, a, target, now)
  {
    if HoldsRole(s, user, target, now) {
      var a, x :| a in AssignmentsOf(s, user) && Live(a, now) && a.roleId in s.roles
        && Reaches(ParentGraph(s.roles), a.roleId, x) && x in s.roles && s.roles[x].name == target;
      assert Confers(s.roles, a, target, now);
    }
  }

  lemma GrantedByAssignment(c: Config, s: State, user: string, id: string, now: int)
    ensures Granted(c, s, user, id, now) <==> exists a :: a in AssignmentsOf(s, user) && Grants(c, s.roles, a, id, now)
  {
    if Granted(c, s, user, id, now) {
      var a, x :| a in AssignmentsOf(s, user) && Live(a, now) && a.roleId in s.roles
        && ReachesWithin(ParentGraph(s.roles), a.roleId, x, c.maxDepth) && x in s.roles
        && id in s.roles[x].permissions;
      assert Grants(c, s.roles, a, id, now);
    }
  }

  /** Right after a revocation the user holds what other assignments confer, and other users hold what they held. */
  lemma HoldsAfterRevoke(c: Config, s: State, user: string, roleId: string, now: int, v: string, target: string,
                         later: int)
    ensures HoldsRole(Step(c, s, RevokeRole(user, roleId), now), v, target, later) <==>
            exists a ::
              a in AssignmentsOf(s, v) && (v != user || a.roleId != roleId) && Confers(s.roles, a, target, later)
  {
    var s' := Step(c, s, RevokeRole(user, roleId), now);
    HoldsByAssignment(s', v, target, later);
    forall a
      ensures a in AssignmentsOf(s', v) <==> a in AssignmentsOf(s, v) && (v != user || a.roleId != roleId)
    {
      HeldAfter(c, s, RevokeRole(user, roleId), now, v, a);
    }
  }

  /** Right after an assignment of a stored role the user also holds what that confers until it expires. */
  lemma HoldsAfterAssign(c: Config, s: State, user: string, roleId: string, expiresAt: Option<int>, now: int, v: string,
                         target: string, later: int)
    ensures HoldsRole(Step(c, s, AssignRole(user, roleId, expiresAt), now), v, target, later) <==>
            || HoldsRole(s, v, target, later)
            || (v == user && Confers(s.roles, Assignment(roleId, expiresAt), target, later))
  {
    var op := AssignRole(user, roleId, expiresAt);
    var s' := Step(c, s, op, now);
    HoldsByAssignment(s', v, target, later);
    HoldsByAssignment(s, v, target, later);
    forall a
      ensures a in AssignmentsOf(s', v) <==> Gives(s, op, v, a) || a in AssignmentsOf(s, v)
    {
      HeldAfter(c, s, op, now, v, a);
    }
    assert v == user && roleId in s.roles ==> Gives(s, op, v, Assignment(roleId, expiresAt));
  }

  /** In every state of a run a user holds a role exactly if an assignment had from the start or given since, and not
      taken after that, confers it. */
  lemma RunHoldsRole(c: Config, states: seq<State>, events: seq<Event>, i: nat, user: string, target: string, now: int)
    requires IsRun(c, states, events) && i <= |events|
    ensures HoldsRole(states[i], user, target, now) <==>
            exists a :: Holds(states, events, user, a, i) && Confers(states[i].roles, a, target, now)
  {
    HoldsByAssignment(states[i], user, target, now);
    forall a
      ensures a in AssignmentsOf(states[i], user) <==> Holds(states, events, user, a, i)
    {
      RunAssignments(c, states, events, i, user, a);
    }
  }

  lemma RunGranted(c: Config, states: seq<State>, events: seq<Event>, i: nat, user: string, id: string, now: int)
    requires IsRun(c, states, events) && i <= |events|
    ensures Granted(c, states[i], user, id, now) <==>
            exists a :: Holds(states, events, user, a, i) && Grants(c, states[i].roles, a, id, now)
  {
    GrantedByAssignment(c, states[i], user, id, now);
    forall a
      ensures a in AssignmentsOf(states[i], user) <==> Holds(states, events, user, a, i)
    {
      RunAssignments(c, states, events, i, user, a);
    }
  }

  /** A revocation takes effect at once: the next answer for the user, cached answers notwithstanding, has exactly the
      stored permissions that the user's other assignments grant. */
  lemma AnswerAfterRevoke(c: Config, s: State, user: string, roleId: string, now: int, later: int, p: Permission)
    requires WellKeyed(s.roles)
    ensures p in Answer(c, Step(c, s, RevokeRole(user, roleId), now), user, later) <==>
            exists id, a ::
              && id in s.permissions && s.permissions[id] == p
              && a in AssignmentsOf(s, user) && a.roleId != roleId && Grants(c, s.roles, a, id, later)
  {
    var s' := Step(c, s, RevokeRole(user, roleId), now);
    UncachedExact(c, s', user, later, p);
    forall a
      ensures a in AssignmentsOf(s', user) <==> a in AssignmentsOf(s, user) && a.roleId != roleId
    {
      HeldAfter(c, s, RevokeRole(user, roleId), now, user, a);
    }
    forall id
      ensures Granted(c, s', user, id, later) <==>
              exists a :: a in AssignmentsOf(s, user) && a.roleId != roleId && Grants(c, s.roles, a, id, later)
    {
      GrantedByAssignment(c, s', user, id, later);
    }
  }

  // ----- The cache serves what it keeps

  lemma {:induction false} LiveRolesJoin(roles: Roles, grants: seq<Assignment>, more: seq<Assignment>, now: int)
    ensures LiveRoles(roles, grants + more, now) == LiveRoles(roles, grants, now) + LiveRoles(roles, more, now)
  {
    if grants == [] {
      assert grants + more == more;
    } else {
      assert (grants + more)[1..] == grants[1..] + more;
      LiveRolesJoin(roles, grants[1..], more, now);
    }
  }

  /** The role IDs but for one. */
  function Others(ids: seq<string>, roleId: string): seq<string> {
    if ids == [] then []
    else
      var last := ids[|ids| - 1];
      Others(ids[..|ids| - 1], roleId) + if last == roleId then [] else [last]
  }

  lemma {:induction false} OthersFirst(id: string, ids: seq<string>, roleId: string)
    ensures Others([id] + ids, roleId) == (if id == roleId then [] else [id]) + Others(ids, roleId)
  {
    var all := [id] + ids;
    if ids == [] {
      assert all[..0] == [];
    } else {
      assert all[..|all| - 1] == [id] + ids[..|ids| - 1];
      OthersFirst(id, ids[..|ids| - 1], roleId);
    }
  }

  lemma {:induction false} LiveOthers(roles: Roles, grants: seq<Assignment>, roleId: string, now: int)
    ensures LiveRoles(roles, WithoutRole(grants, roleId), now) == Others(LiveRoles(roles, grants, now), roleId)
  {
    if grants != [] {
      var first, rest := grants[0], grants[1..];
      var kept := if first.roleId == roleId then [] else [first];
      LiveOthers(roles, rest, roleId, now);
      LiveRolesJoin(roles, kept, WithoutRole(rest, roleId), now);
      OthersFirst(first.roleId, LiveRoles(roles, rest, now), roleId);
    }
  }

  /** The stored roles of a user are listed in the order in which they were assigned, as often as they were: a new one
      comes last, and a revocation takes out all listings of its role. */
  lemma ListedAfter(c: Config, s: State, user: string, roleId: string, expiresAt: Option<int>, now: int, later: int)
    ensures var ids := LiveRoles(s.roles, AssignmentsOf(s, user), later);
            var granted := Step(c, s, AssignRole(user, roleId, expiresAt), now);
            var revoked := Step(c, s, RevokeRole(user, roleId), now);
            && LiveRoles(s.roles, AssignmentsOf(granted, user), later)
               == (if roleId in s.roles && Unexpired(Assignment(roleId, expiresAt), later) then ids + [roleId] else ids)
            && LiveRoles(s.roles, AssignmentsOf(revoked, user), later) == Others(ids, roleId)
  {
    var grants, a := AssignmentsOf(s, user), Assignment(roleId, expiresAt);
    LiveRolesJoin(s.roles, grants, [a], later);
    LiveOthers(s.roles, grants, roleId, later);
  }

  /** Between states `j` and `i` the user is neither reassigned nor asked about after the entry has expired. */
  ghost predicate Untouched(states: seq<State>, events: seq<Event>, user: string, j: nat, i: nat, expiry: int)
    requires i <= |events| < |states|
  {
    forall k :: j <= k < i ==> !Reassigns(states[k], events[k].op, user) && events[k].at <= expiry
  }

  /** An entry stays as long as nothing touches it. */
  lemma EntryStays(c: Config, s: State, op: Op, now: int, user: string)
    requires c.enableCaching && user in s.cache && !Reassigns(s, op, user) && now <= s.cache[user].expiresAt
    ensures var s' := Step(c, s, op, now); user in s'.cache && s'.cache[user] == s.cache[user]
  {
  }

  lemma RunEntryStays(c: Config, states: seq<State>, events: seq<Event>, h: nat, user: string)
    requires IsRun(c, states, events) && h < |events| && c.enableCaching && user in states[h].cache
    requires !Reassigns(states[h], events[h].op, user) && events[h].at <= states[h].cache[user].expiresAt
    ensures user in states[h + 1].cache && states[h + 1].cache[user] == states[h].cache[user]
  {
    EntryStays(c, states[h], events[h].op, events[h].at, user);
  }

  lemma {:induction false} EntryStaysThrough(c: Config, states: seq<State>, events: seq<Event>, j: nat, i: nat,
                                             user: string)
    requires IsRun(c, states, events) && j <= i <= |events| && c.enableCaching && user in states[j].cache
    requires Untouched(states, events, user, j, i, states[j].cache[user].expiresAt)
    ensures user in states[i].cache && states[i].cache[user] == states[j].cache[user]
    decreases i
  {
    if j < i {
      EntryStaysThrough(c, states, events, j, i - 1, user);
      RunEntryStays(c, states, events, i - 1, user);
    }
  }

  /** A query leaves an entry that holds its answer. */
  lemma QueryCaches(c: Config, s: State, user: string, now: int)
    requires c.enableCaching && c.cacheTTL >= 0
    ensures var s' := Step(c, s, Op.GetAllUserPermissions(user), now);
            && user in s'.cache && s'.cache[user].permissions == Answer(c, s, user, now)
            && now <= s'.cache[user].expiresAt
            && (!CacheHit(c, s, user, now) ==> s'.cache[user].expiresAt == now + c.cacheTTL)
  {
  }

  lemma RunQueryCaches(c: Config, states: seq<State>, events: seq<Event>, h: nat, user: string)
    requires IsRun(c, states, events) && h < |events| && c.enableCaching && c.cacheTTL >= 0
    requires events[h].op == Op.GetAllUserPermissions(user)
    ensures var at := events[h].at;
            && user in states[h + 1].cache && states[h + 1].cache[user].permissions == Answer(c, states[h], user, at)
            && (!CacheHit(c, states[h], user, at) ==> states[h + 1].cache[user].expiresAt == at + c.cacheTTL)
  {
    QueryCaches(c, states[h], user, events[h].at);
  }

  /** The cache is used: within the lifetime of a computed answer the same answer is given again, whatever happens to
      roles and permissions in between, unless the user is reassigned. */
  lemma CachedAnswerRepeats(c: Config, states: seq<State>, events: seq<Event>, j: nat, i: nat, user: string)
    requires IsRun(c, states, events) && j < i < |events| && c.enableCaching && c.cacheTTL >= 0
    requires events[j].op == Op.GetAllUserPermissions(user) && !CacheHit(c, states[j], user, events[j].at)
    requires Untouched(states, events, user, j + 1, i, events[j].at + c.cacheTTL)
    requires events[i].at <= events[j].at + c.cacheTTL
    ensures Answer(c, states[i], user, events[i].at) == Answer(c, states[j], user, events[j].at)
  {
    RunQueryCaches(c, states, events, j, user);
    EntryStaysThrough(c, states, events, j + 1, i, user);
  }
}
