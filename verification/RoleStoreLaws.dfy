/** What the operations of authz/rbac.go do to the stored roles and permissions, and what every run keeps of them. */
module RoleStoreLaws {
  import opened RbacModel
  import opened RoleGraph
  import opened Wrappers

  // ----- What is accepted

  ghost predicate PermissionsStored(s: State, role: Role) {
    forall i :: 0 <= i < |role.permissions| ==> role.permissions[i] in s.permissions
  }

  predicate ReportsMissing(err: Option<Error>) {
    err.Some? && err.value.PermissionNotFound?
  }

  /** The permissions of the role are stored and its ancestry is accepted. */
  ghost predicate Supported(c: Config, s: State, role: Role) {
    && PermissionsStored(s, role)
    && Validate(s.roles, c.maxDepth, role).Accepted?
  }

  /** A role is created exactly if it has a name that no stored role has and is supported. */
  ghost predicate Creatable(c: Config, s: State, role: Role) {
    role.name != "" && (forall id :: id in s.roles ==> s.roles[id].name != role.name) && Supported(c, s, role)
  }

  /** A role is updated exactly if it is stored, is no system role and is supported. */
  ghost predicate Updatable(c: Config, s: State, role: Role) {
    role.id in s.roles && !s.roles[role.id].isSystem && Supported(c, s, role)
  }

  predicate Deletable(s: State, id: string) {
    id in s.roles && !s.roles[id].isSystem
  }

  /** The first permission that is not stored. */
  lemma {:induction false} MissingIsFirst(known: map<string, Permission>, ids: seq<string>)
    ensures MissingPermission(known, ids).None? <==> forall i :: 0 <= i < |ids| ==> ids[i] in known
    ensures MissingPermission(known, ids).Some? ==>
              exists k :: 0 <= k < |ids| && ids[k] !in known && (forall i :: 0 <= i < k ==> ids[i] in known)
                          && MissingPermission(known, ids) == Some(PermissionNotFound(ids[k]))
  {
    if ids != [] && ids[0] in known {
      var rest := ids[1..];
      MissingIsFirst(known, rest);
      if MissingPermission(known, rest).Some? {
        var k :| 0 <= k < |rest| && rest[k] !in known && (forall i :: 0 <= i < k ==> rest[i] in known)
                 && MissingPermission(known, rest) == Some(PermissionNotFound(rest[k]));
        assert ids[k + 1] == rest[k];
        assert forall i :: 0 < i < k + 1 ==> ids[i] == rest[i - 1];
      } else {
        assert forall i :: 0 < i < |ids| ==> ids[i] == rest[i - 1];
      }
    }
  }

  /** Which role is refused, and why. */
  lemma RefusedRoles(c: Config, s: State, role: Role, id: string)
    ensures CreateError(c, s, role).None? <==> Creatable(c, s, role)
    ensures CreateError(c, s, role) == Some(InvalidRole) <==> role.name == ""
    ensures CreateError(c, s, role) == Some(RoleExists) <==>
              role.name != "" && exists x :: x in s.roles && s.roles[x].name == role.name
    ensures ReportsMissing(CreateError(c, s, role)) <==>
              CreateError(c, s, role) !in [Some(InvalidRole), Some(RoleExists)] && !PermissionsStored(s, role)
    ensures ReportsMissing(UpdateError(c, s, role)) <==>
              UpdateError(c, s, role) !in [Some(RoleNotFound), Some(SystemRole)] && !PermissionsStored(s, role)
    ensures UpdateError(c, s, role).None? <==> Updatable(c, s, role)
    ensures UpdateError(c, s, role) == Some(RoleNotFound) <==> role.id !in s.roles
    ensures UpdateError(c, s, role) == Some(SystemRole) <==> role.id in s.roles && s.roles[role.id].isSystem
    ensures DeleteError(s, id).None? <==> Deletable(s, id)
    ensures DeleteError(s, id) == Some(RoleNotFound) <==> id !in s.roles
    ensures DeleteError(s, id) == Some(SystemRole) <==> id in s.roles && s.roles[id].isSystem
  {
    MissingIsFirst(s.permissions, role.permissions);
    ContentErrors(c, s, role);
  }

  lemma ContentErrors(c: Config, s: State, role: Role)
    ensures RoleContentError(c, s, role).None? <==> Supported(c, s, role)
    ensures ReportsMissing(RoleContentError(c, s, role)) <==> !PermissionsStored(s, role)
    ensures RoleContentError(c, s, role).Some? ==>
              RoleContentError(c, s, role).value.PermissionNotFound? || RoleContentError(c, s, role).value.Inheritance?
  {
    MissingIsFirst(s.permissions, role.permissions);
  }

  // ----- What is stored afterwards

  /** The operation stores `role`. */
  ghost predicate Puts(c: Config, s: State, op: Op, role: Role) {
    (op == Op.CreateRole(role) && Creatable(c, s, role)) || (op == Op.UpdateRole(role) && Updatable(c, s, role))
  }

  /** The operation removes the role with the ID. */
  predicate Drops(s: State, op: Op, id: string) {
    op == Op.DeleteRole(id) && Deletable(s, id)
  }

  /** A role is stored under an ID after an operation exactly if the operation put it there, or it was there before and
      the operation neither removed it nor put another there. */
  lemma RolesAfter(c: Config, s: State, op: Op, now: int, id: string, role: Role)
    ensures var s' := Step(c, s, op, now);
            (id in s'.roles && s'.roles[id] == role) <==>
              || (Puts(c, s, op, role) && role.id == id)
              || (id in s.roles && s.roles[id] == role && !Drops(s, op, id)
                  && forall r :: Puts(c, s, op, r) ==> r.id != id)
  {
    match op
    case CreateRole(r) =>
      RefusedRoles(c, s, r, id);
      assert Puts(c, s, op, r) <==> Creatable(c, s, r);
    case UpdateRole(r) =>
      RefusedRoles(c, s, r, id);
      assert Puts(c, s, op, r) <==> Updatable(c, s, r);
    case DeleteRole(x) =>
    case _ =>
  }

  /** The same for permissions; no operation on roles or users touches them. */
  lemma PermissionsAfter(c: Config, s: State, op: Op, now: int, id: string, p: Permission)
    ensures var s' := Step(c, s, op, now);
            (id in s'.permissions && s'.permissions[id] == p) <==>
              || (op == Op.CreatePermission(p) && p.id == id)
              || (id in s.permissions && s.permissions[id] == p && op != Op.DeletePermission(id)
                  && !(op.CreatePermission? && op.permission.id == id))
  {
  }

  // ----- What runs keep

  ghost predicate NamesUnique(roles: Roles) {
    forall i, j :: i in roles && j in roles && i != j ==> roles[i].name != roles[j].name
  }

  /** Creation keeps names unique; an update does exactly if no other role has the new name, which is not checked. */
  lemma StepKeepsNamesIff(c: Config, s: State, op: Op, now: int)
    requires NamesUnique(s.roles)
    ensures NamesUnique(Step(c, s, op, now).roles) <==>
            (op.UpdateRole? && Updatable(c, s, op.role) ==>
               forall i :: i in s.roles && i != op.role.id ==> s.roles[i].name != op.role.name)
  {
    match op
    case CreateRole(r) =>
      RefusedRoles(c, s, r, "");
    case UpdateRole(r) =>
      RefusedRoles(c, s, r, "");
      if Updatable(c, s, r) {
        UpdateNames(s.roles, r);
      }
    case _ =>
  }

  lemma UpdateNames(roles: Roles, r: Role)
    requires NamesUnique(roles) && r.id in roles
    ensures NamesUnique(roles[r.id := r]) <==> forall i :: i in roles && i != r.id ==> roles[i].name != r.name
  {
    var stored := roles[r.id := r];
    if NamesUnique(stored) {
      forall i | i in roles && i != r.id
        ensures roles[i].name != r.name
      {
        assert stored[i].name != stored[r.id].name;
      }
    }
  }

  /** A system role stays as it is in every run, unless one with its ID is created under another name: updates and
      deletions do not touch it. */
  lemma SystemRoleStays(c: Config, s: State, op: Op, now: int, id: string)
    requires id in s.roles && s.roles[id].isSystem
    ensures var s' := Step(c, s, op, now);
            (id in s'.roles && s'.roles[id] == s.roles[id]) <==>
              !(op.CreateRole? && Creatable(c, s, op.role) && op.role.id == id && op.role != s.roles[id])
  {
    var s' := Step(c, s, op, now);
    RolesAfter(c, s, op, now, id, s.roles[id]);
    if op.CreateRole? && Creatable(c, s, op.role) && op.role.id == id {
      assert Puts(c, s, op, op.role);
    }
  }

  lemma {:induction false} SystemRoleInRuns(c: Config, states: seq<State>, events: seq<Event>, i: nat, id: string)
    requires IsRun(c, states, events) && i <= |events| && id in states[0].roles && states[0].roles[id].isSystem
    requires forall k :: 0 <= k < i && events[k].op.CreateRole? ==> events[k].op.role.id != id
    ensures id in states[i].roles && states[i].roles[id] == states[0].roles[id]
  {
    if i > 0 {
      SystemRoleInRuns(c, states, events, i - 1, id);
      SystemRoleNext(c, states, events, i - 1, id);
    }
  }

  lemma SystemRoleNext(c: Config, states: seq<State>, events: seq<Event>, h: nat, id: string)
    requires IsRun(c, states, events) && h < |events| && id in states[h].roles && states[h].roles[id].isSystem
    requires events[h].op.CreateRole? ==> events[h].op.role.id != id
    ensures id in states[h + 1].roles && states[h + 1].roles[id] == states[h].roles[id]
  {
    SystemRoleStays(c, states[h], events[h].op, events[h].at, id);
  }

  /** Every permission that a stored role lists is stored. */
  ghost predicate PermissionsKnown(s: State) {
    forall id, i :: id in s.roles && 0 <= i < |s.roles[id].permissions| ==> s.roles[id].permissions[i] in s.permissions
  }

  /** Only the deletion of a permission that a stored role lists leaves a role without one of its permissions. */
  lemma StepKeepsKnownIff(c: Config, s: State, op: Op, now: int)
    requires PermissionsKnown(s)
    ensures PermissionsKnown(Step(c, s, op, now)) <==>
            (op.DeletePermission? ==>
               forall id, i :: id in s.roles && 0 <= i < |s.roles[id].permissions| ==>
                 s.roles[id].permissions[i] != op.id)
  {
    match op
    case CreateRole(r) =>
      RefusedRoles(c, s, r, "");
    case UpdateRole(r) =>
      RefusedRoles(c, s, r, "");
    case _ =>
  }
}
