/** Access as authz/acl.go decides it, told from the lists and the inheritance between them; and what the operations on
    lists and entries do. */
module AclLaws {
  import opened AclModel
  import opened AclStoreModel
  import opened Graph
  import opened ResourceKeys
  import opened Wrappers

  // ----- Which entries apply

  /** The permission is the pattern itself or extends what precedes its final star. */
  ghost predicate Matched(pattern: string, permission: string) {
    pattern == permission || exists prefix, rest :: pattern == prefix + "*" && permission == prefix + rest
  }

  /** The entry is for the requesting principal or a role of it, has not expired and has a matching pattern. */
  ghost predicate Applies(e: ACE, req: Request, now: int) {
    && ((e.principal == req.principal && e.principalType == req.principalType) ||
        (e.principalType == "role" && exists i :: 0 <= i < |req.roles| && req.roles[i] == e.principal))
    && (e.expiresAt.Some? ==> now <= e.expiresAt.value)
    && exists i :: 0 <= i < |e.permissions| && Matched(e.permissions[i], req.permission)
  }

  lemma MatchingEntries(e: ACE, req: Request, now: int)
    ensures Matches(e, req, now) <==> Applies(e, req, now)
  {
    forall i | 0 <= i < |e.permissions|
      ensures Covers(e.permissions[i], req.permission) <==> Matched(e.permissions[i], req.permission)
    {
      CoversExactly(e.permissions[i], req.permission);
    }
  }

  // ----- Which lists are consulted

  /** The list under `x` is the one under `k`, or one that it inherits from, directly or not. */
  ghost predicate Inherits(lists: Lists, k: string, x: string) {
    x in lists && Reaches(InheritanceGraph(lists), k, x)
  }

  lemma ParentEdge(lists: Lists, k: string)
    requires k in lists
    ensures var p := ParentOf(lists, lists[k]);
            var up := Key(lists[k].resourceType, lists[k].inheritFrom);
            && (p.Some? <==> lists[k].inheritFrom != "" && up in lists)
            && (p.Some? ==> p.value == lists[up] && Edge(InheritanceGraph(lists), k, up))
            && (forall y :: Edge(InheritanceGraph(lists), k, y) ==> y == up && lists[k].inheritFrom != "")
  {
  }

  /** The key of an ancestor. */
  lemma {:induction false} AncestorReached(lists: Lists, k: string, n: nat) returns (x: string)
    requires k in lists && Ancestor(lists, lists[k], n).Some?
    ensures Inherits(lists, k, x) && lists[x] == Ancestor(lists, lists[k], n).value
    decreases n
  {
    var g := InheritanceGraph(lists);
    if n == 0 {
      x := k;
      assert Joins(g, [k], k, k);
    } else {
      ParentEdge(lists, k);
      var up := Key(lists[k].resourceType, lists[k].inheritFrom);
      x := AncestorReached(lists, up, n - 1);
      var p :| Joins(g, p, up, x);
      PathCons(g, k, p);
      assert Joins(g, [k] + p, k, x);
    }
  }

  lemma {:induction false} ReachedAncestor(lists: Lists, k: string, x: string, p: seq<string>)
    requires k in lists && x in lists && Joins(InheritanceGraph(lists), p, k, x)
    ensures Ancestor(lists, lists[k], |p| - 1) == Some(lists[x])
    decreases |p|
  {
    var g := InheritanceGraph(lists);
    ParentEdge(lists, k);
    if |p| > 1 {
      assert Edge(g, p[0], p[1]);
      assert p[1] in lists by {
        if |p| > 2 {
          assert Edge(g, p[1], p[2]);
        }
      }
      PathTail(g, p);
      ReachedAncestor(lists, p[1], x, p[1..]);
    }
  }

  /** `e` is an entry of the list under `k` or of one that it inherits from. */
  ghost predicate Borne(lists: Lists, k: string, e: ACE) {
    exists x :: Inherits(lists, k, x) && e in lists[x].entries
  }

  lemma BorneIff(lists: Lists, k: string, e: ACE)
    requires k in lists
    ensures Bears(lists, lists[k], e) <==> Borne(lists, k, e)
  {
    if Bears(lists, lists[k], e) {
      var n: nat :| BearsAt(lists, lists[k], e, n);
      var x := AncestorReached(lists, k, n);
    }
    if x :| Inherits(lists, k, x) && e in lists[x].entries {
      var p :| Joins(InheritanceGraph(lists), p, k, x);
      ReachedAncestor(lists, k, x, p);
      assert BearsAt(lists, lists[k], e, |p| - 1);
    }
  }

  /** What is collected from a list: its own entries as they are, and those of the lists it inherits from, each marked
      as inherited. */
  lemma {:induction false} CollectedMarks(lists: Lists, acl: ACL, n: nat, e: ACE)
    requires Ends(lists, acl, n)
    ensures e in Collected(lists, acl, n) <==> e in acl.entries || (e.inherited && BearsAbove(lists, acl, e))
    decreases n
  {
    var p := ParentOf(lists, acl);
    if p.Some? {
      var all := Collected(lists, p.value, n - 1);
      MarkedMembers(all, e);
      forall f
        ensures f in all <==> f in p.value.entries || (f.inherited && BearsAbove(lists, p.value, f))
      {
        CollectedMarks(lists, p.value, n - 1, f);
      }
      AboveParent(lists, acl, p.value, e);
    } else if k: nat :| k > 0 && Ancestor(lists, acl, k).Some? {
      assert false;
    }
  }

  /** But for its mark, `e` is an entry of a list further up. */
  ghost predicate BearsAbove(lists: Lists, acl: ACL, e: ACE) {
    exists k: nat, f :: k > 0 && BearsAt(lists, acl, f, k) && Same(f, e)
  }

  lemma MarkedMembers(aces: seq<ACE>, e: ACE)
    ensures e in Marked(aces) <==> e.inherited && exists f :: f in aces && Same(f, e)
  {
    forall i | 0 <= i < |aces|
      ensures Marked(aces)[i] == e <==> e.inherited && Same(aces[i], e)
    {
      assert Marked(aces)[i] == aces[i].(inherited := true);
    }
    if e.inherited && exists f :: f in aces && Same(f, e) {
      var f :| f in aces && Same(f, e);
      var i :| 0 <= i < |aces| && aces[i] == f;
      assert Marked(aces)[i] == e;
    }
  }

  lemma AboveParent(lists: Lists, acl: ACL, p: ACL, e: ACE)
    requires ParentOf(lists, acl) == Some(p)
    ensures BearsAbove(lists, acl, e) <==> (exists f :: f in p.entries && Same(f, e)) || BearsAbove(lists, p, e)
  {
    if k: nat, f :| k > 0 && BearsAt(lists, acl, f, k) && Same(f, e) {
      assert BearsAt(lists, p, f, k - 1);
    }
    if f :| f in p.entries && Same(f, e) {
      assert BearsAt(lists, acl, f, 1);
    }
    if k: nat, f :| k > 0 && BearsAt(lists, p, f, k) && Same(f, e) {
      assert BearsAt(lists, acl, f, k + 1);
    }
  }

  // ----- The decision

  /** Among the entries of the list and of those it inherits from, `e` applies and none that applies ranks higher. */
  ghost predicate Decisive(lists: Lists, k: string, req: Request, now: int, e: ACE) {
    && Borne(lists, k, e) && Applies(e, req, now)
    && forall f :: Borne(lists, k, f) && Applies(f, req, now) ==> f.priority <= e.priority
  }

  lemma DecisiveIff(lists: Lists, k: string, req: Request, now: int, e: ACE)
    requires k in lists
    ensures TopBorne(lists, lists[k], req, now, e) <==> Decisive(lists, k, req, now, e)
  {
    forall f
      ensures Bears(lists, lists[k], f) <==> Borne(lists, k, f)
      ensures Matches(f, req, now) <==> Applies(f, req, now)
    {
      BorneIff(lists, k, f);
      MatchingEntries(f, req, now);
    }
  }

  /** What a request is answered, whatever the order of ties: access is allowed only on the word of a decisive entry
      that does not deny, and refused only on that of one that denies or because no entry applies. */
  lemma DecisionTold(lists: Lists, k: string, n: nat, req: Request, now: int, d: Decision)
    requires k in lists && Ends(lists, lists[k], n) && Decides(d, Collected(lists, lists[k], n), req, now)
    ensures d.matched.None? <==> forall e :: Borne(lists, k, e) ==> !Applies(e, req, now)
    ensures d.matched.Some? ==> exists e ::
              Decisive(lists, k, req, now, e) && Same(d.matched.value, e) && (d.allowed <==> e.access != "deny")
    ensures d.matched.None? ==> !d.allowed
    ensures d.reason == if d.matched.None? then "no matching ACE found"
                        else if d.allowed then "explicit allow" else "explicit deny"
  {
    var acl := lists[k];
    DecisionCorrect(lists, acl, n, req, now, d);
    forall e
      ensures Bears(lists, acl, e) <==> Borne(lists, k, e)
      ensures Matches(e, req, now) <==> Applies(e, req, now)
      ensures TopBorne(lists, acl, req, now, e) <==> Decisive(lists, k, req, now, e)
    {
      BorneIff(lists, k, e);
      MatchingEntries(e, req, now);
      DecisiveIff(lists, k, req, now, e);
    }
    if d.matched.Some? {
      var e :| TopBorne(lists, acl, req, now, e) && Same(d.matched.value, e);
      assert e.access == d.matched.value.access;
    }
  }

  /** Where the decisive entries agree, access is allowed exactly if there is one and it does not deny. */
  lemma AccessIff(lists: Lists, k: string, n: nat, req: Request, now: int, d: Decision)
    requires k in lists && Ends(lists, lists[k], n) && Decides(d, Collected(lists, lists[k], n), req, now)
    requires forall e, f :: Decisive(lists, k, req, now, e) && Decisive(lists, k, req, now, f) ==>
               (e.access == "deny" <==> f.access == "deny")
    ensures d.allowed <==> exists e :: Decisive(lists, k, req, now, e) && e.access != "deny"
  {
    DecisionTold(lists, k, n, req, now, d);
  }

  // ----- What operations do to lists and entries

  ghost predicate HasEntry(s: State, k: string, id: string) {
    k in s.acls && exists i :: 0 <= i < |s.acls[k].entries| && s.acls[k].entries[i].id == id
  }

  predicate Listed(s: State, k: string, e: ACE) {
    k in s.acls && e in s.acls[k].entries
  }

  function Target(op: Op): string {
    Key(op.resourceType, op.resourceId)
  }

  /** Why an operation is refused: there is a list already, or none, an entry already, or none. */
  lemma RefusedOps(s: State, op: Op)
    ensures ErrorOf(s, op) == Some(ACLAlreadyExists) <==> op.CreateACL? && Target(op) in s.acls
    ensures ErrorOf(s, op) == Some(ACLNotFound) <==> !op.CreateACL? && !op.DeleteACL? && Target(op) !in s.acls
    ensures ErrorOf(s, op) == Some(ACEAlreadyExists) <==> op.AddACE? && HasEntry(s, Target(op), op.ace.id)
    ensures ErrorOf(s, op) == Some(ACENotFound) <==>
              Target(op) in s.acls && ((op.UpdateACE? && !HasEntry(s, Target(op), op.ace.id)) ||
                                       (op.RemoveACE? && !HasEntry(s, Target(op), op.aceId)))
  {
    if Target(op) in s.acls {
      var entries := s.acls[Target(op)].entries;
      if op.AddACE? || op.UpdateACE? {
        FindIff(entries, op.ace.id);
      } else if op.RemoveACE? {
        FindIff(entries, op.aceId);
      }
    }
  }

  lemma FindIff(entries: seq<ACE>, id: string)
    ensures Find(entries, id) < |entries| <==> exists i :: 0 <= i < |entries| && entries[i].id == id
  {
  }

  /** Whether there is a list after an operation, and what it inherits from. */
  lemma ListsAfter(s: State, op: Op, k: string)
    ensures var s' := Step(s, op);
            && (k in s'.acls <==>
                (op.CreateACL? && Target(op) == k) || (k in s.acls && !(op.DeleteACL? && Target(op) == k)))
            && (k in s'.acls ==>
                  var l := s'.acls[k];
                  if k in s.acls then
                    && l.resourceId == s.acls[k].resourceId && l.resourceType == s.acls[k].resourceType
                    && l.inheritFrom == if op.SetInheritance? && Target(op) == k then op.inheritFrom
                                        else s.acls[k].inheritFrom
                  else l == ACL(op.resourceId, op.resourceType, [], op.inheritFrom))
  {
  }

  /** The operation puts the entry into the list under `k`. */
  ghost predicate Gives(s: State, op: Op, k: string, e: ACE) {
    Target(op) == k && k in s.acls &&
    ((op.AddACE? && op.ace == e && !HasEntry(s, k, e.id)) || (op.UpdateACE? && op.ace == e && HasEntry(s, k, e.id)))
  }

  /** The operation takes the entry from the list under `k`. */
  predicate Takes(op: Op, k: string, e: ACE) {
    Target(op) == k &&
    (op.DeleteACL? || (op.UpdateACE? && op.ace.id == e.id) || (op.RemoveACE? && op.aceId == e.id))
  }

  /** An entry is in a list after an operation exactly if the operation put it there, or it was there before and was
      not taken: by its removal, by an update under its ID, or with the whole list. */
  lemma EntriesAfter(s: State, op: Op, k: string, e: ACE)
    requires WellFormed(s)
    ensures Listed(Step(s, op), k, e) <==> Gives(s, op, k, e) || (Listed(s, k, e) && !Takes(op, k, e))
  {
    if k == Target(op) && k in s.acls {
      var entries := s.acls[k].entries;
      match op
      case AddACE(_, _, ace) =>
        FindIff(entries, ace.id);
      case UpdateACE(_, _, ace) =>
        FindIff(entries, ace.id);
        ReplacedEntries(entries, ace, e);
      case RemoveACE(_, _, aceId) =>
        FindIff(entries, aceId);
        RemovedEntries(entries, aceId, e);
      case _ =>
    }
  }

  lemma ReplacedEntries(entries: seq<ACE>, ace: ACE, e: ACE)
    requires UniqueIds(entries)
    ensures var i := Find(entries, ace.id);
            i < |entries| ==> (e in entries[i := ace] <==> e == ace || (e in entries && e.id != ace.id))
  {
    var i := Find(entries, ace.id);
    if i < |entries| {
      var r := entries[i := ace];
      assert r[i] == ace;
      if e in entries && e.id != ace.id {
        var j :| 0 <= j < |entries| && entries[j] == e;
        assert r[j] == e;
      }
    }
  }

  lemma RemovedEntries(entries: seq<ACE>, id: string, e: ACE)
    requires UniqueIds(entries)
    ensures var i := Find(entries, id);
            i < |entries| ==> (e in entries[..i] + entries[i + 1..] <==> e in entries && e.id != id)
  {
    var i := Find(entries, id);
    if i < |entries| {
      assert entries == entries[..i] + [entries[i]] + entries[i + 1..];
    }
  }
}
