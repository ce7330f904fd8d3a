/** The in-memory store of access control lists and its principal index: authz/acl.go. */
module AclStoreModel {
  import opened AclModel
  import opened ResourceKeys
  import opened Wrappers

  datatype State = State(acls: Lists, byPrincipal: map<string, set<string>>)

  datatype Error = ACLNotFound | ACLAlreadyExists | ACENotFound | ACEAlreadyExists

  datatype Op =
    | CreateACL(resourceId: string, resourceType: string, inheritFrom: string)
    | DeleteACL(resourceId: string, resourceType: string)
    | SetInheritance(resourceId: string, resourceType: string, inheritFrom: string)
    | AddACE(resourceId: string, resourceType: string, ace: ACE)
    | UpdateACE(resourceId: string, resourceType: string, ace: ACE)
    | RemoveACE(resourceId: string, resourceType: string, aceId: string)

  function PrincipalKey(ace: ACE): string {
    ace.principalType + ":" + ace.principal
  }

  /** Go reads a missing set as empty. */
  function KeysAt(index: map<string, set<string>>, k: string): set<string> {
    if k in index then index[k] else {}
  }

  /** The position of the entry with the given ID, or the number of entries if there is none. */
  function Find(entries: seq<ACE>, id: string): (i: nat)
    ensures i <= |entries| && (i < |entries| ==> entries[i].id == id)
    ensures forall j :: 0 <= j < i ==> entries[j].id != id
  {
    if entries == [] || entries[0].id == id then 0 else 1 + Find(entries[1..], id)
  }

  function ErrorOf(s: State, op: Op): Option<Error> {
    var k := AclKey(op.resourceId, op.resourceType);
    match op
    case CreateACL(_, _, _) => if k in s.acls then Some(ACLAlreadyExists) else None
    case DeleteACL(_, _) => None
    case SetInheritance(_, _, _) => if k !in s.acls then Some(ACLNotFound) else None
    case AddACE(_, _, ace) =>
      if k !in s.acls then Some(ACLNotFound)
      else if Find(s.acls[k].entries, ace.id) < |s.acls[k].entries| then Some(ACEAlreadyExists)
      else None
    case UpdateACE(_, _, ace) =>
      if k !in s.acls then Some(ACLNotFound)
      else if Find(s.acls[k].entries, ace.id) == |s.acls[k].entries| then Some(ACENotFound)
      else None
    case RemoveACE(_, _, aceId) =>
      if k !in s.acls then Some(ACLNotFound)
      else if Find(s.acls[k].entries, aceId) == |s.acls[k].entries| then Some(ACENotFound)
      else None
  }

  function Step(s: State, op: Op): State {
    var k := AclKey(op.resourceId, op.resourceType);
    if ErrorOf(s, op).Some? then s
    else
      match op
      case CreateACL(id, t, inheritFrom) => s.(acls := s.acls[k := ACL(id, t, [], inheritFrom)])
      case DeleteACL(_, _) => s.(acls := s.acls - {k})
      case SetInheritance(_, _, inheritFrom) => s.(acls := s.acls[k := s.acls[k].(inheritFrom := inheritFrom)])
      case AddACE(_, _, ace) =>
        State(s.acls[k := s.acls[k].(entries := s.acls[k].entries + [ace])],
              s.byPrincipal[PrincipalKey(ace) := KeysAt(s.byPrincipal, PrincipalKey(ace)) + {k}])
      case UpdateACE(_, _, ace) =>
        var entries := s.acls[k].entries;
        s.(acls := s.acls[k := s.acls[k].(entries := entries[Find(entries, ace.id) := ace])])
      case RemoveACE(_, _, aceId) =>
        var entries := s.acls[k].entries;
        var i := Find(entries, aceId);
        s.(acls := s.acls[k := s.acls[k].(entries := entries[..i] + entries[i + 1..])])
  }

  // ----- The invariant

  ghost predicate UniqueIds(entries: seq<ACE>) {
    forall i, j :: 0 <= i < j < |entries| ==> entries[i].id != entries[j].id
  }

  /** Every list is stored under its own key and has no two entries with the same ID. */
  ghost predicate WellFormed(s: State) {
    forall k :: k in s.acls ==>
        AclKey(s.acls[k].resourceId, s.acls[k].resourceType) == k && UniqueIds(s.acls[k].entries)
  }

  ghost predicate ListCovered(s: State, k: string)
    requires k in s.acls
  {
    forall e :: e in s.acls[k].entries ==> k in KeysAt(s.byPrincipal, PrincipalKey(e))
  }

  /** The index knows every list that has an entry for a principal.  It may know more: it is
      never cleaned up. */
  ghost predicate Covered(s: State) {
    forall k :: k in s.acls ==> ListCovered(s, k)
  }

  lemma StepKeepsWellFormed(s: State, op: Op)
    requires WellFormed(s)
    ensures WellFormed(Step(s, op))
  {
    var k := AclKey(op.resourceId, op.resourceType);
    if ErrorOf(s, op).None? && k in s.acls {
      assert UniqueIds(s.acls[k].entries);
    }
  }

  /** If the operation replaces an entry, its list is already indexed for the new entry's principal. */
  predicate IndexedUpdate(s: State, op: Op) {
    op.UpdateACE? && ErrorOf(s, op).None? ==>
      AclKey(op.resourceId, op.resourceType) in KeysAt(s.byPrincipal, PrincipalKey(op.ace))
  }

  /** Only an update can spoil the index: it is not told about the entry's new principal.  All is
      well exactly if the list was already indexed for that principal. */
  lemma StepKeepsCoveredIff(s: State, op: Op)
    requires Covered(s)
    ensures Covered(Step(s, op)) <==> IndexedUpdate(s, op)
  {
    var k := AclKey(op.resourceId, op.resourceType);
    var s' := Step(s, op);
    if ErrorOf(s, op).None? {
      forall k' | k' in s'.acls && k' != k
        ensures ListCovered(s', k')
      {
        assert ListCovered(s, k');
      }
      if k in s'.acls && k in s.acls {
        assert ListCovered(s, k);
        if op.UpdateACE? {
          var entries := s.acls[k].entries;
          var i := Find(entries, op.ace.id);
          assert s'.acls[k].entries[i] == op.ace;
          assert forall j :: 0 <= j < |entries| && j != i ==> s'.acls[k].entries[j] == entries[j];
        }
      }
    }
  }

  // ----- Which list a request consults

  predicate Owns(acl: ACL, resourceId: string, resourceType: string) {
    acl.resourceId == resourceId && acl.resourceType == resourceType
  }

  /** A list of the resource is stored under the key that a request for it looks up and nowhere
      else, and the list found there is the resource's own exactly if it is of the same type. */
  lemma ConsultedIff(s: State, resourceId: string, resourceType: string)
    requires WellFormed(s)
    ensures var key := AclKey(resourceId, resourceType);
            && (forall k :: k in s.acls && Owns(s.acls[k], resourceId, resourceType) ==> k == key)
            && (key in s.acls ==>
                  (Owns(s.acls[key], resourceId, resourceType) <==> s.acls[key].resourceType == resourceType))
  {
    var key := AclKey(resourceId, resourceType);
    if key in s.acls && s.acls[key].resourceType == resourceType {
      SameTypeKeys(resourceType, s.acls[key].resourceId, resourceType, resourceId);
    }
  }

  /** In particular if the type collides with the type of no stored list. */
  lemma ConsultedApart(s: State, resourceId: string, resourceType: string)
    requires WellFormed(s) && AclKey(resourceId, resourceType) in s.acls
    requires forall k :: k in s.acls ==> !Collide(s.acls[k].resourceType, resourceType)
    ensures Owns(s.acls[AclKey(resourceId, resourceType)], resourceId, resourceType)
  {
    var acl := s.acls[AclKey(resourceId, resourceType)];
    KeyInjective(acl.resourceType, acl.resourceId, resourceType, resourceId);
  }

  // ----- Runs

  function Run(ops: seq<Op>): State {
    if ops == [] then State(map[], map[]) else Step(Run(ops[..|ops| - 1]), ops[|ops| - 1])
  }

  /** Updates in the run leave entries with principals their list is indexed for. */
  ghost predicate IndexedUpdates(ops: seq<Op>) {
    forall i: nat :: i < |ops| ==> IndexedAt(ops, i)
  }

  ghost predicate IndexedAt(ops: seq<Op>, i: nat)
    requires i < |ops|
  {
    IndexedUpdate(Run(ops[..i]), ops[i])
  }

  ghost predicate CoveredAt(ops: seq<Op>, i: nat)
    requires i <= |ops|
  {
    Covered(Run(ops[..i]))
  }

  /** The index is complete in every state of the run. */
  ghost predicate AlwaysCovered(ops: seq<Op>) {
    forall i: nat :: i <= |ops| ==> CoveredAt(ops, i)
  }

  lemma {:induction false} RunWellFormed(ops: seq<Op>)
    ensures WellFormed(Run(ops))
  {
    if ops != [] {
      RunWellFormed(ops[..|ops| - 1]);
      StepKeepsWellFormed(Run(ops[..|ops| - 1]), ops[|ops| - 1]);
    }
  }

  lemma CoveredSnoc(ops: seq<Op>, front: seq<Op>)
    requires ops != [] && front == ops[..|ops| - 1]
    ensures AlwaysCovered(ops) <==> AlwaysCovered(front) && CoveredAt(ops, |ops|)
  {
    forall i: nat | i <= |front|
      ensures CoveredAt(ops, i) <==> CoveredAt(front, i)
    {
      assert front[..i] == ops[..i];
    }
  }

  lemma IndexedSnoc(ops: seq<Op>, front: seq<Op>)
    requires ops != [] && front == ops[..|ops| - 1]
    ensures IndexedUpdates(ops) <==> IndexedUpdates(front) && IndexedAt(ops, |front|)
  {
    forall i: nat | i < |front|
      ensures IndexedAt(ops, i) <==> IndexedAt(front, i)
    {
      assert front[..i] == ops[..i];
    }
  }

  lemma StepAt(ops: seq<Op>, k: nat)
    requires k < |ops| && CoveredAt(ops, k)
    ensures CoveredAt(ops, k + 1) <==> IndexedAt(ops, k)
  {
    assert ops[..k + 1][..k] == ops[..k];
    StepKeepsCoveredIff(Run(ops[..k]), ops[k]);
  }

  /** The run law of the index: it is complete in every state exactly if every update in the run leaves
      its entry with a principal that the list is indexed for. */
  lemma {:induction false} RunCoveredIff(ops: seq<Op>)
    ensures AlwaysCovered(ops) <==> IndexedUpdates(ops)
  {
    if ops == [] {
      assert CoveredAt(ops, 0);
    } else {
      var n := |ops| - 1;
      var front := ops[..n];
      RunCoveredIff(front);
      CoveredSnoc(ops, front);
      IndexedSnoc(ops, front);
      if AlwaysCovered(ops) || (AlwaysCovered(front) && IndexedAt(ops, n)) {
        assert CoveredAt(front, n) && front[..n] == ops[..n];
        StepAt(ops, n);
      }
    }
  }

  // ----- The access of a principal

  datatype Summary = Summary(ace: ACE, resourceId: string, resourceType: string)

  predicate Names(e: ACE, principal: string, principalType: string) {
    e.principal == principal && e.principalType == principalType
  }

  /** `x` is about an entry for the principal in one of the lists under `keys`. */
  predicate Summarises(s: State, keys: set<string>, principal: string, principalType: string, x: Summary) {
    var k := AclKey(x.resourceId, x.resourceType);
    k in keys && k in s.acls && ListSummary(s.acls[k], principal, principalType, x)
  }

  predicate ListSummary(acl: ACL, principal: string, principalType: string, x: Summary) {
    && x.resourceId == acl.resourceId && x.resourceType == acl.resourceType
    && x.ace in acl.entries && Names(x.ace, principal, principalType)
  }

  /** Going through the index finds just what a scan of all lists would find for the principal. */
  ghost predicate IndexExact(s: State, principal: string, principalType: string) {
    forall x :: Summarises(s, KeysAt(s.byPrincipal, principalType + ":" + principal), principal, principalType, x) <==>
                Summarises(s, s.acls.Keys, principal, principalType, x)
  }

  ghost predicate LookupsExact(s: State) {
    forall principal, principalType :: IndexExact(s, principal, principalType)
  }

  /** Lookups through the index are exact for every principal if and only if the index is complete. */
  lemma PrincipalAccessExact(s: State)
    requires WellFormed(s)
    ensures Covered(s) <==> LookupsExact(s)
  {
    if !Covered(s) {
      var k :| k in s.acls && !ListCovered(s, k);
      var e :| e in s.acls[k].entries && k !in KeysAt(s.byPrincipal, PrincipalKey(e));
      var x := Summary(e, s.acls[k].resourceId, s.acls[k].resourceType);
      assert Summarises(s, s.acls.Keys, e.principal, e.principalType, x);
      assert !IndexExact(s, e.principal, e.principalType);
    }
  }

  ghost predicate LookupsExactAt(ops: seq<Op>, i: nat)
    requires i <= |ops|
  {
    LookupsExact(Run(ops[..i]))
  }

  /** Lookups are exact in every state of a run if and only if its updates are indexed. */
  lemma RunLookupsExactIff(ops: seq<Op>)
    ensures (forall i: nat :: i <= |ops| ==> LookupsExactAt(ops, i)) <==> IndexedUpdates(ops)
  {
    forall i: nat | i <= |ops|
      ensures LookupsExactAt(ops, i) <==> CoveredAt(ops, i)
    {
      RunWellFormed(ops[..i]);
      PrincipalAccessExact(Run(ops[..i]));
    }
    RunCoveredIff(ops);
  }
}

/** The store and the service as the source has them. */
module AclStore {
  import opened AclModel
  import opened AclStoreModel
  import opened MapOrder
  import opened Sorting
  import opened Wrappers

  class MemoryACLStore {
    var acls: Lists
    var byPrincipal: map<string, set<string>>

    constructor ()
      ensures Abs() == Run([])
    {
      acls, byPrincipal := map[], map[];
    }

    function Abs(): State
      reads this
    {
      State(acls, byPrincipal)
    }

    method CreateACL(acl: ACL) returns (err: Option<Error>)
      requires acl.entries == []
      modifies this
      ensures var op := Op.CreateACL(acl.resourceId, acl.resourceType, acl.inheritFrom);
              err == ErrorOf(old(Abs()), op) && Abs() == Step(old(Abs()), op)
    {
      var key := AclKey(acl.resourceId, acl.resourceType);
      if key in acls {
        return Some(ACLAlreadyExists);
      }
      acls := acls[key := acl];
      return None;
    }

    method GetACL(resourceId: string, resourceType: string) returns (acl: Option<ACL>)
      ensures var key := AclKey(resourceId, resourceType);
              acl == if key in acls then Some(acls[key]) else None
    {
      var key := AclKey(resourceId, resourceType);
      return if key in acls then Some(acls[key]) else None;
    }

    method UpdateACL(acl: ACL) returns (err: Option<Error>)
      modifies this`acls
      ensures var key := AclKey(acl.resourceId, acl.resourceType);
              if key in old(acls) then err.None? && acls == old(acls)[key := acl]
              else err == Some(ACLNotFound) && acls == old(acls)
    {
      var key := AclKey(acl.resourceId, acl.resourceType);
      if key !in acls {
        return Some(ACLNotFound);
      }
      acls := acls[key := acl];
      return None;
    }

    method DeleteACL(resourceId: string, resourceType: string)
      modifies this
      ensures Abs() == Step(old(Abs()), Op.DeleteACL(resourceId, resourceType))
    {
      acls := acls - {AclKey(resourceId, resourceType)};
    }

    /** The loop that looks for an entry by ID. */
    static method IndexOf(entries: seq<ACE>, id: string) returns (i: nat)
      ensures i == Find(entries, id)
    {
      i := 0;
      while i < |entries| && entries[i].id != id
        invariant i <= |entries| && forall j :: 0 <= j < i ==> entries[j].id != id
      {
        i := i + 1;
      }
    }

    method AddACE(resourceId: string, resourceType: string, ace: ACE) returns (err: Option<Error>)
      modifies this
      ensures var op := Op.AddACE(resourceId, resourceType, ace);
              err == ErrorOf(old(Abs()), op) && Abs() == Step(old(Abs()), op)
    {
      var key := AclKey(resourceId, resourceType);
      if key !in acls {
        return Some(ACLNotFound);
      }
      var acl := acls[key];
      var i := IndexOf(acl.entries, ace.id);
      if i < |acl.entries| {
        return Some(ACEAlreadyExists);
      }
      acls := acls[key := acl.(entries := acl.entries + [ace])];
      IndexACE(ace, key);
      return None;
    }

    method UpdateACE(resourceId: string, resourceType: string, ace: ACE) returns (err: Option<Error>)
      modifies this
      ensures var op := Op.UpdateACE(resourceId, resourceType, ace);
              err == ErrorOf(old(Abs()), op) && Abs() == Step(old(Abs()), op)
    {
      var key := AclKey(resourceId, resourceType);
      if key !in acls {
        return Some(ACLNotFound);
      }
      var acl := acls[key];
      var i := IndexOf(acl.entries, ace.id);
      if i < |acl.entries| {
        acls := acls[key := acl.(entries := acl.entries[i := ace])];
        return None;
      }
      return Some(ACENotFound);
    }

    method RemoveACE(resourceId: string, resourceType: string, aceId: string) returns (err: Option<Error>)
      modifies this
      ensures var op := Op.RemoveACE(resourceId, resourceType, aceId);
              err == ErrorOf(old(Abs()), op) && Abs() == Step(old(Abs()), op)
    {
      var key := AclKey(resourceId, resourceType);
      if key !in acls {
        return Some(ACLNotFound);
      }
      var acl := acls[key];
      var i := IndexOf(acl.entries, aceId);
      if i < |acl.entries| {
        acls := acls[key := acl.(entries := acl.entries[..i] + acl.entries[i + 1..])];
        return None;
      }
      return Some(ACENotFound);
    }

    method IndexACE(ace: ACE, aclKey: string)
      modifies this`byPrincipal
      ensures var k := PrincipalKey(ace);
              byPrincipal == old(byPrincipal)[k := KeysAt(old(byPrincipal), k) + {aclKey}]
    {
      var principalKey := PrincipalKey(ace);
      if principalKey !in byPrincipal {
        byPrincipal := byPrincipal[principalKey := {}];
      }
      byPrincipal := byPrincipal[principalKey := byPrincipal[principalKey] + {aclKey}];
    }

    /** The lists found through the index, each once. */
    method GetACLsByPrincipal(principal: string, principalType: string) returns (r: seq<ACL>)
      requires WellFormed(Abs())
      ensures forall acl :: acl in r <==>
                exists k :: k in KeysAt(byPrincipal, principalType + ":" + principal) && k in acls && acls[k] == acl
      ensures forall i, j :: 0 <= i < j < |r| ==>
                AclKey(r[i].resourceId, r[i].resourceType) != AclKey(r[j].resourceId, r[j].resourceType)
    {
      var order := Ordering(KeysAt(byPrincipal, principalType + ":" + principal));
      r := [];
      for i := 0 to |order|
        invariant forall acl :: acl in r <==> exists k :: k in order[..i] && k in acls && acls[k] == acl
        invariant forall x, y :: 0 <= x < y < |r| ==>
                    AclKey(r[x].resourceId, r[x].resourceType) != AclKey(r[y].resourceId, r[y].resourceType)
      {
        assert order[..i + 1] == order[..i] + [order[i]];
        assert forall x :: 0 <= x < |r| ==> r[x] in r;
        if order[i] in acls {
          r := r + [acls[order[i]]];
        }
      }
      assert order[..|order|] == order;
    }
  }

  class ACLService {
    const store: MemoryACLStore

    constructor (store: MemoryACLStore)
      ensures this.store == store
    {
      this.store := store;
    }

    method SetInheritance(resourceId: string, resourceType: string, inheritFrom: string) returns (err: Option<Error>)
      requires WellFormed(store.Abs())
      modifies store
      ensures var op := Op.SetInheritance(resourceId, resourceType, inheritFrom);
              err == ErrorOf(old(store.Abs()), op) && store.Abs() == Step(old(store.Abs()), op)
    {
      var acl := store.GetACL(resourceId, resourceType);
      if acl.None? {
        return Some(ACLNotFound);
      }
      err := store.UpdateACL(acl.value.(inheritFrom := inheritFrom));
    }

    /** The parent chain has at most `n` links. */
    method CollectACEs(acl: ACL, ghost n: nat) returns (aces: seq<ACE>)
      requires Ends(store.acls, acl, n)
      ensures aces == Collected(store.acls, acl, n)
      decreases n
    {
      aces := acl.entries;
      if acl.inheritFrom != "" {
        var parent := store.GetACL(acl.inheritFrom, acl.resourceType);
        if parent.Some? {
          var parentACEs := CollectACEs(parent.value, n - 1);
          aces := AppendInherited(aces, parentACEs);
        }
      }
    }

    /** The loop that marks the parent's entries. */
    static method AppendInherited(own: seq<ACE>, parentACEs: seq<ACE>) returns (aces: seq<ACE>)
      ensures aces == own + Marked(parentACEs)
    {
      aces := own;
      for i := 0 to |parentACEs|
        invariant aces == own + Marked(parentACEs[..i])
      {
        assert parentACEs[..i + 1][..i] == parentACEs[..i];
        aces := aces + [parentACEs[i].(inherited := true)];
      }
      assert parentACEs[..|parentACEs|] == parentACEs;
    }

    static method SortACEsByPriority(aces: seq<ACE>) returns (r: seq<ACE>)
      ensures Arrangement(r, aces) && (Sorted(HigherPriority, aces) ==> r == aces)
    {
      var result := new ACE[|aces|](i requires 0 <= i < |aces| => aces[i]);
      assert result[..] == aces;
      ExchangeSort(result, HigherPriority);
      r := result[..];
    }

    static method AceMatchesPrincipal(ace: ACE, principal: string, principalType: string, roles: seq<string>)
      returns (r: bool)
      ensures r == MatchesPrincipal(ace, principal, principalType, roles)
    {
      if ace.principal == principal && ace.principalType == principalType {
        return true;
      }
      if ace.principalType == ROLE {
        for i := 0 to |roles|
          invariant ace.principal !in roles[..i]
        {
          if ace.principal == roles[i] {
            return true;
          }
        }
      }
      return false;
    }

    static method AceMatchesPermission(ace: ACE, permission: string) returns (r: bool)
      ensures r == MatchesPermission(ace, permission)
    {
      for i := 0 to |ace.permissions|
        invariant forall j :: 0 <= j < i ==> !Covers(ace.permissions[j], permission)
      {
        var p := ace.permissions[i];
        if p == "*" || p == permission || MatchesWildcard(p, permission) {
          return true;
        }
      }
      return false;
    }

    method CheckAccess(req: Request, now: int, ghost n: nat) returns (decision: Decision)
      requires var k := AclKey(req.resourceId, req.resourceType);
               k in store.acls ==> Ends(store.acls, store.acls[k], n)
      ensures var k := AclKey(req.resourceId, req.resourceType);
              if k !in store.acls then decision == NOACL
              else Decides(decision, Collected(store.acls, store.acls[k], n), req, now)
    {
      var acl := store.GetACL(req.resourceId, req.resourceType);
      if acl.None? {
        return NOACL;
      }
      var allACEs := CollectACEs(acl.value, n);
      var sortedACEs := SortACEsByPriority(allACEs);
      for i := 0 to |sortedACEs|
        invariant FirstMatch(sortedACEs, req, now) == FirstMatch(sortedACEs[i..], req, now)
      {
        var ace := sortedACEs[i];
        assert sortedACEs[i..][1..] == sortedACEs[i + 1..];
        if ace.expiresAt.Some? && now > ace.expiresAt.value {
          continue;
        }
        var applies := AceMatchesPrincipal(ace, req.principal, req.principalType, req.roles);
        if !applies {
          continue;
        }
        applies := AceMatchesPermission(ace, req.permission);
        if !applies {
          continue;
        }
        if ace.access == DENY {
          return Decision(false, "explicit deny", Some(ace));
        }
        return Decision(true, "explicit allow", Some(ace));
      }
      return Decision(false, "no matching ACE found", None);
    }

    static method EntriesFor(acl: ACL, principal: string, principalType: string) returns (r: seq<Summary>)
      requires UniqueIds(acl.entries)
      ensures forall x :: x in r <==> ListSummary(acl, principal, principalType, x)
      ensures forall i, j :: 0 <= i < j < |r| ==> r[i] != r[j]
    {
      r := [];
      for i := 0 to |acl.entries|
        invariant forall x :: x in r <==> ListSummary(acl, principal, principalType, x) && x.ace in acl.entries[..i]
        invariant forall j, k :: 0 <= j < k < |r| ==> r[j] != r[k]
      {
        var ace := acl.entries[i];
        assert acl.entries[..i + 1] == acl.entries[..i] + [ace];
        assert ace !in acl.entries[..i];
        if ace.principal == principal && ace.principalType == principalType {
          assert forall j :: 0 <= j < |r| ==> r[j] in r;
          r := r + [Summary(ace, acl.resourceId, acl.resourceType)];
        }
      }
      assert acl.entries[..|acl.entries|] == acl.entries;
    }

    /** Every entry for the principal in the lists found through the index, each once. */
    method GetPrincipalAccess(principal: string, principalType: string) returns (r: seq<Summary>)
      requires WellFormed(store.Abs())
      ensures forall x :: x in r <==>
                var keys := KeysAt(store.byPrincipal, principalType + ":" + principal);
                Summarises(store.Abs(), keys, principal, principalType, x)
      ensures forall i, j :: 0 <= i < j < |r| ==> r[i] != r[j]
    {
      var found := store.GetACLsByPrincipal(principal, principalType);
      r := [];
      for i := 0 to |found|
        invariant forall x :: x in r <==> exists j :: 0 <= j < i && ListSummary(found[j], principal, principalType, x)
        invariant forall j, k :: 0 <= j < k < |r| ==> r[j] != r[k]
      {
        assert found[i] in found;
        var more := EntriesFor(found[i], principal, principalType);
        assert forall j :: 0 <= j < i ==>
                 AclKey(found[j].resourceId, found[j].resourceType) !=
                 AclKey(found[i].resourceId, found[i].resourceType);
        assert forall j :: 0 <= j < |r| ==> r[j] in r;
        assert forall j :: 0 <= j < |more| ==> more[j] in more;
        r := r + more;
      }
      ghost var keys := KeysAt(store.byPrincipal, principalType + ":" + principal);
      forall x
        ensures x in r <==> Summarises(store.Abs(), keys, principal, principalType, x)
      {
        if x in r {
          var j :| 0 <= j < |found| && ListSummary(found[j], principal, principalType, x);
          assert found[j] in found;
        }
        var k := AclKey(x.resourceId, x.resourceType);
        if Summarises(store.Abs(), keys, principal, principalType, x) {
          assert store.acls[k] in found;
          var j :| 0 <= j < |found| && found[j] == store.acls[k];
        }
      }
    }
  }
}
