/** Access control lists: authz/acl.go. */
module AclModel {
  import opened Graph
  import opened ResourceKeys
  import opened Sorting
  import opened Wrappers

  datatype ACE = ACE(
    id: string, principal: string, principalType: string, permissions: seq<string>,
    access: string, priority: int, inherited: bool, expiresAt: Option<int>)

  /** `inheritFrom` is empty where nothing is inherited. */
  datatype ACL = ACL(resourceId: string, resourceType: string, entries: seq<ACE>, inheritFrom: string)

  datatype Request = Request(
    resourceId: string, resourceType: string, principal: string, principalType: string,
    permission: string, roles: seq<string>)

  datatype Decision = Decision(allowed: bool, reason: string, matched: Option<ACE>)

  const ROLE := "role"
  const DENY := "deny"

  type Lists = map<string, ACL>

  function AclKey(resourceId: string, resourceType: string): string {
    Key(resourceType, resourceId)
  }

  // ----- Matching

  predicate MatchesWildcard(pattern: string, permission: string) {
    pattern == "*" ||
    (pattern != [] && pattern[|pattern| - 1] == '*' && pattern[..|pattern| - 1] <= permission)
  }

  predicate MatchesPermission(ace: ACE, permission: string) {
    exists i :: 0 <= i < |ace.permissions| && Covers(ace.permissions[i], permission)
  }

  predicate Covers(p: string, permission: string) {
    p == "*" || p == permission || MatchesWildcard(p, permission)
  }

  predicate MatchesPrincipal(ace: ACE, principal: string, principalType: string, roles: seq<string>) {
    || (ace.principal == principal && ace.principalType == principalType)
    || (ace.principalType == ROLE && ace.principal in roles)
  }

  predicate Expired(ace: ACE, now: int) {
    ace.expiresAt.Some? && ace.expiresAt.value < now
  }

  predicate Matches(ace: ACE, req: Request, now: int) {
    && !Expired(ace, now)
    && MatchesPrincipal(ace, req.principal, req.principalType, req.roles)
    && MatchesPermission(ace, req.permission)
  }

  /** A pattern covers exactly the permissions that extend its part before a final star, and itself. */
  lemma CoversExactly(p: string, permission: string)
    ensures Covers(p, permission) <==>
            p == permission || exists prefix, rest :: p == prefix + "*" && permission == prefix + rest
  {
    if Covers(p, permission) && p != permission {
      var prefix := p[..|p| - 1];
      assert p == prefix + "*" && permission == prefix + permission[|prefix|..];
    }
    forall prefix, rest | p == prefix + "*" && permission == prefix + rest
      ensures Covers(p, permission)
    {
      assert p[..|p| - 1] == prefix;
    }
  }

  // ----- Inheritance

  function ParentOf(lists: Lists, acl: ACL): Option<ACL> {
    var k := AclKey(acl.inheritFrom, acl.resourceType);
    if acl.inheritFrom != "" && k in lists then Some(lists[k]) else None
  }

  /** The chain of parents from `acl` has at most `n` links. */
  predicate Ends(lists: Lists, acl: ACL, n: nat)
    decreases n
  {
    var parent := ParentOf(lists, acl);
    parent.None? || (n > 0 && Ends(lists, parent.value, n - 1))
  }

  function InheritanceGraph(lists: Lists): map<string, seq<string>> {
    map k | k in lists ::
        if lists[k].inheritFrom == "" then [] else [AclKey(lists[k].inheritFrom, lists[k].resourceType)]
  }

  lemma {:induction false} DistinctFits(p: seq<string>, s: set<string>)
    requires Distinct(p) && forall x :: x in p ==> x in s
    ensures |p| <= |s|
  {
    if p != [] {
      var n := |p| - 1;
      DistinctFits(p[..n], s - {p[n]});
    }
  }

  /** The chain that continues the path `p` from `k` ends within the `n` lists not on `p`. */
  lemma {:induction false} ChainEnds(lists: Lists, p: seq<string>, at: string, n: nat)
    requires Acyclic(InheritanceGraph(lists)) && IsPath(InheritanceGraph(lists), p) && at == p[|p| - 1]
    requires (forall x :: x in p ==> x in lists) && |p| + n == |lists.Keys|
    ensures Ends(lists, lists[at], n)
    decreases n
  {
    var g := InheritanceGraph(lists);
    var last := lists[at];
    var k := AclKey(last.inheritFrom, last.resourceType);
    if ParentOf(lists, last).Some? {
      var q := p + [k];
      assert IsPath(g, q) by {
        forall i, j | 0 <= i < j < |q| && j == i + 1
          ensures Edge(g, q[i], q[j])
        {
          assert j == |p| || Edge(g, p[i], p[j]);
        }
      }
      AcyclicDistinct(g, q);
      DistinctFits(q, lists.Keys);
      ChainEnds(lists, q, k, n - 1);
    }
  }

  /** Without inheritance cycles every chain ends, in fewer links than there are lists. */
  lemma AcyclicEnds(lists: Lists, k: string, n: nat)
    requires Acyclic(InheritanceGraph(lists)) && k in lists && n + 1 == |lists.Keys|
    ensures Ends(lists, lists[k], n)
  {
    ChainEnds(lists, [k], k, n);
  }

  function Marked(aces: seq<ACE>): (r: seq<ACE>)
    ensures |r| == |aces| && forall i :: 0 <= i < |r| ==> r[i] == aces[i].(inherited := true)
  {
    if aces == [] then [] else Marked(aces[..|aces| - 1]) + [aces[|aces| - 1].(inherited := true)]
  }

  function Collected(lists: Lists, acl: ACL, n: nat): seq<ACE>
    requires Ends(lists, acl, n)
    decreases n
  {
    acl.entries +
    if ParentOf(lists, acl).None? then [] else Marked(Collected(lists, ParentOf(lists, acl).value, n - 1))
  }

  /** The list `k` links up the chain; 0 is the list itself. */
  function Ancestor(lists: Lists, acl: ACL, k: nat): Option<ACL>
    decreases k
  {
    if k == 0 then Some(acl)
    else if ParentOf(lists, acl).None? then None
    else Ancestor(lists, ParentOf(lists, acl).value, k - 1)
  }

  /** `e` is an entry of the list itself or of one it inherits from. */
  ghost predicate Bears(lists: Lists, acl: ACL, e: ACE) {
    exists k: nat :: BearsAt(lists, acl, e, k)
  }

  ghost predicate BearsAt(lists: Lists, acl: ACL, e: ACE, k: nat) {
    Ancestor(lists, acl, k).Some? && e in Ancestor(lists, acl, k).value.entries
  }

  /** Equal but for the inherited flag. */
  predicate Same(e: ACE, f: ACE) {
    e.(inherited := false) == f.(inherited := false)
  }

  lemma BearsParents(lists: Lists, acl: ACL, f: ACE)
    requires ParentOf(lists, acl).Some? && Bears(lists, ParentOf(lists, acl).value, f)
    ensures Bears(lists, acl, f)
  {
    var k: nat :| BearsAt(lists, ParentOf(lists, acl).value, f, k);
    assert BearsAt(lists, acl, f, k + 1);
  }

  lemma {:induction false} CollectedAreBorne(lists: Lists, acl: ACL, n: nat, e: ACE)
    requires Ends(lists, acl, n) && e in Collected(lists, acl, n)
    ensures exists f :: Bears(lists, acl, f) && Same(e, f)
    decreases n
  {
    if e in acl.entries {
      assert BearsAt(lists, acl, e, 0) && Same(e, e);
    } else {
      var parent := ParentOf(lists, acl).value;
      var all := Collected(lists, parent, n - 1);
      assert e in Marked(all);
      var i :| 0 <= i < |all| && Marked(all)[i] == e;
      CollectedAreBorne(lists, parent, n - 1, all[i]);
      var f :| Bears(lists, parent, f) && Same(all[i], f);
      BearsParents(lists, acl, f);
    }
  }

  lemma {:induction false} BorneAreCollected(lists: Lists, acl: ACL, n: nat, f: ACE, k: nat)
    requires Ends(lists, acl, n) && BearsAt(lists, acl, f, k)
    ensures exists e :: e in Collected(lists, acl, n) && Same(e, f)
    decreases n
  {
    if k == 0 {
      assert f in Collected(lists, acl, n);
    } else {
      var parent := ParentOf(lists, acl).value;
      BorneAreCollected(lists, parent, n - 1, f, k - 1);
      var all := Collected(lists, parent, n - 1);
      var e :| e in all && Same(e, f);
      var i :| 0 <= i < |all| && all[i] == e;
      assert Marked(all)[i] in Collected(lists, acl, n);
      assert Same(Marked(all)[i], f);
    }
  }

  // ----- Decisions

  predicate HigherPriority(x: ACE, y: ACE) {
    x.priority > y.priority
  }

  function Verdict(e: ACE): Decision {
    if e.access == DENY then Decision(false, "explicit deny", Some(e)) else Decision(true, "explicit allow", Some(e))
  }

  const NOMATCH := Decision(false, "no matching ACE found", None)
  const NOACL := Decision(false, "no ACL found for resource", None)

  function FirstMatch(s: seq<ACE>, req: Request, now: int): Decision {
    if s == [] then NOMATCH
    else if Matches(s[0], req, now) then Verdict(s[0])
    else FirstMatch(s[1..], req, now)
  }

  /** An order in which sorting by priority may leave the entries `all`. */
  ghost predicate Arrangement(s: seq<ACE>, all: seq<ACE>) {
    Sorted(HigherPriority, s) && Permutation(s, all)
  }

  /** `e` is a match that no match outranks. */
  ghost predicate Top(all: seq<ACE>, req: Request, now: int, e: ACE) {
    && e in all && Matches(e, req, now)
    && forall f :: f in all && Matches(f, req, now) ==> f.priority <= e.priority
  }

  lemma {:induction false} FirstMatchIsTop(s: seq<ACE>, req: Request, now: int)
    requires Sorted(HigherPriority, s)
    ensures var d := FirstMatch(s, req, now);
            if d.matched.None? then d == NOMATCH && forall e :: e in s ==> !Matches(e, req, now)
            else Top(s, req, now, d.matched.value) && d == Verdict(d.matched.value)
  {
    if s != [] {
      var rest := s[1..];
      FirstMatchIsTop(rest, req, now);
      assert forall e :: e in s <==> e == s[0] || e in rest;
      assert forall i :: 0 < i < |s| ==> !HigherPriority(s[i], s[0]);
      assert forall e :: e in rest ==> e.priority <= s[0].priority;
    }
  }

  lemma TopOfPermutation(s: seq<ACE>, t: seq<ACE>, req: Request, now: int, e: ACE)
    requires Permutation(s, t)
    ensures Top(s, req, now, e) <==> Top(t, req, now, e)
  {
    PermutationMembers(s, t);
  }

  // ----- Any top match can come first

  /** `e` placed ahead of everything it is not outranked by. */
  function Ahead(e: ACE, s: seq<ACE>): (r: seq<ACE>) {
    if s != [] && s[0].priority > e.priority then [s[0]] + Ahead(e, s[1..]) else [e] + s
  }

  lemma {:induction false} AheadPermutes(e: ACE, s: seq<ACE>)
    ensures Permutation(Ahead(e, s), [e] + s)
  {
    if s != [] && s[0].priority > e.priority {
      AheadPermutes(e, s[1..]);
      assert [e] + s == [e] + [s[0]] + s[1..];
    }
  }

  lemma {:induction false} AheadSorted(e: ACE, s: seq<ACE>)
    requires Sorted(HigherPriority, s)
    ensures Sorted(HigherPriority, Ahead(e, s))
  {
    if s != [] {
      var rest, r := s[1..], Ahead(e, s);
      assert forall i :: 0 < i < |s| ==> !HigherPriority(s[i], s[0]);
      if s[0].priority > e.priority {
        AheadSorted(e, rest);
        AheadPermutes(e, rest);
        PermutationMembers(Ahead(e, rest), [e] + rest);
        forall j | 0 < j < |r|
          ensures !HigherPriority(r[j], s[0])
        {
          assert r[j] == Ahead(e, rest)[j - 1] && r[j] in [e] + rest;
        }
        SortedCons(s[0], Ahead(e, rest));
      } else {
        SortedCons(e, s);
      }
    }
  }

  lemma SortedCons(e: ACE, s: seq<ACE>)
    requires Sorted(HigherPriority, s) && forall j :: 0 < j < |s| + 1 ==> !HigherPriority(([e] + s)[j], e)
    ensures Sorted(HigherPriority, [e] + s)
  {
  }

  function Arranged(all: seq<ACE>): seq<ACE> {
    if all == [] then [] else Ahead(all[0], Arranged(all[1..]))
  }

  lemma {:induction false} ArrangedIsArrangement(all: seq<ACE>)
    ensures Arrangement(Arranged(all), all)
  {
    if all != [] {
      ArrangedIsArrangement(all[1..]);
      AheadSorted(all[0], Arranged(all[1..]));
      AheadPermutes(all[0], Arranged(all[1..]));
      assert all == [all[0]] + all[1..];
      assert multiset([all[0]] + Arranged(all[1..])) == multiset(all);
    }
  }

  lemma {:induction false} AheadMatchesFirst(e: ACE, s: seq<ACE>, req: Request, now: int)
    requires Matches(e, req, now) && forall f :: f in s && Matches(f, req, now) ==> f.priority <= e.priority
    ensures FirstMatch(Ahead(e, s), req, now) == Verdict(e)
  {
    if s != [] && s[0].priority > e.priority {
      AheadMatchesFirst(e, s[1..], req, now);
      assert Ahead(e, s)[1..] == Ahead(e, s[1..]);
    }
  }

  /** Every top match decides in some arrangement. */
  lemma TopDecidesSomewhere(all: seq<ACE>, req: Request, now: int, e: ACE) returns (s: seq<ACE>)
    requires Top(all, req, now, e)
    ensures Arrangement(s, all) && FirstMatch(s, req, now) == Verdict(e)
  {
    var i :| 0 <= i < |all| && all[i] == e;
    var others := all[..i] + all[i + 1..];
    assert all == all[..i] + [e] + all[i + 1..];
    var arranged := Arranged(others);
    ArrangedIsArrangement(others);
    PermutationMembers(arranged, others);
    AheadSorted(e, arranged);
    AheadPermutes(e, arranged);
    assert multiset([e] + arranged) == multiset{e} + multiset(others) == multiset(all);
    AheadMatchesFirst(e, arranged, req, now);
    s := Ahead(e, arranged);
  }

  ghost predicate TopsAgree(all: seq<ACE>, req: Request, now: int) {
    forall e, f :: Top(all, req, now, e) && Top(all, req, now, f) ==> (e.access == DENY <==> f.access == DENY)
  }

  ghost predicate OrderIrrelevant(all: seq<ACE>, req: Request, now: int) {
    forall s, t :: Arrangement(s, all) && Arrangement(t, all) ==>
      FirstMatch(s, req, now).allowed == FirstMatch(t, req, now).allowed
  }

  /** The verdict is independent of how ties are ordered exactly when the top matches agree. */
  lemma OrderIrrelevantIff(all: seq<ACE>, req: Request, now: int)
    ensures OrderIrrelevant(all, req, now) <==> TopsAgree(all, req, now)
  {
    if TopsAgree(all, req, now) {
      forall s, t | Arrangement(s, all) && Arrangement(t, all)
        ensures FirstMatch(s, req, now).allowed == FirstMatch(t, req, now).allowed
      {
        FirstMatchIsTop(s, req, now);
        FirstMatchIsTop(t, req, now);
        PermutationMembers(s, all);
        PermutationMembers(t, all);
        var d, c := FirstMatch(s, req, now).matched, FirstMatch(t, req, now).matched;
        assert d.Some? ==> Top(all, req, now, d.value);
        assert c.Some? ==> Top(all, req, now, c.value);
      }
    } else {
      var e, f :| Top(all, req, now, e) && Top(all, req, now, f) && !(e.access == DENY <==> f.access == DENY);
      var s := TopDecidesSomewhere(all, req, now, e);
      var t := TopDecidesSomewhere(all, req, now, f);
      assert FirstMatch(s, req, now).allowed != FirstMatch(t, req, now).allowed;
    }
  }

  /** `d` answers a request on the collected entries; entries already in order stay so. */
  ghost predicate Decides(d: Decision, all: seq<ACE>, req: Request, now: int) {
    exists s :: Arrangement(s, all) && (Sorted(HigherPriority, all) ==> s == all) && d == FirstMatch(s, req, now)
  }

  /** `e` is a matching entry, own or inherited, that no other such entry outranks. */
  ghost predicate TopBorne(lists: Lists, acl: ACL, req: Request, now: int, e: ACE) {
    && Bears(lists, acl, e) && Matches(e, req, now)
    && forall f :: Bears(lists, acl, f) && Matches(f, req, now) ==> f.priority <= e.priority
  }

  /** Apart from the flag, the top matches among the collected entries are those among the own and inherited ones. */
  lemma TopsAreBorne(lists: Lists, acl: ACL, n: nat, req: Request, now: int, e: ACE)
    requires Ends(lists, acl, n) && Top(Collected(lists, acl, n), req, now, e)
    ensures exists f :: TopBorne(lists, acl, req, now, f) && Same(e, f)
  {
    CollectedAreBorne(lists, acl, n, e);
    var f :| Bears(lists, acl, f) && Same(e, f);
    forall g | Bears(lists, acl, g) && Matches(g, req, now)
      ensures g.priority <= f.priority
    {
      var k: nat :| BearsAt(lists, acl, g, k);
      BorneAreCollected(lists, acl, n, g, k);
    }
    assert TopBorne(lists, acl, req, now, f);
  }

  /** The decision rests on a top match among the collected entries, or on there being none. */
  lemma DecidesByTop(d: Decision, all: seq<ACE>, req: Request, now: int)
    requires Decides(d, all, req, now)
    ensures d.matched.None? ==> d == NOMATCH && forall e :: e in all ==> !Matches(e, req, now)
    ensures d.matched.Some? ==> d == Verdict(d.matched.value) && Top(all, req, now, d.matched.value)
  {
    var s :| Arrangement(s, all) && d == FirstMatch(s, req, now);
    FirstMatchIsTop(s, req, now);
    PermutationMembers(s, all);
    if d.matched.Some? {
      TopOfPermutation(s, all, req, now, d.matched.value);
    }
  }

  lemma MatchesAreCollected(lists: Lists, acl: ACL, n: nat, req: Request, now: int, f: ACE)
    requires Ends(lists, acl, n) && Bears(lists, acl, f) && Matches(f, req, now)
    ensures exists e :: e in Collected(lists, acl, n) && Matches(e, req, now)
  {
    var k: nat :| BearsAt(lists, acl, f, k);
    BorneAreCollected(lists, acl, n, f, k);
    var e :| e in Collected(lists, acl, n) && Same(e, f);
    assert Matches(e, req, now);
  }

  /** The decision rests on a top match among all own and inherited entries, or on there being
      no match at all. */
  lemma DecisionCorrect(lists: Lists, acl: ACL, n: nat, req: Request, now: int, d: Decision)
    requires Ends(lists, acl, n) && Decides(d, Collected(lists, acl, n), req, now)
    ensures d.matched.None? ==> d == NOMATCH && forall e :: Bears(lists, acl, e) ==> !Matches(e, req, now)
    ensures d.matched.Some? ==> d == Verdict(d.matched.value)
    ensures d.matched.Some? ==> exists e :: TopBorne(lists, acl, req, now, e) && Same(d.matched.value, e)
  {
    DecidesByTop(d, Collected(lists, acl, n), req, now);
    if d.matched.Some? {
      TopsAreBorne(lists, acl, n, req, now, d.matched.value);
    } else {
      forall e | Bears(lists, acl, e)
        ensures !Matches(e, req, now)
      {
        if Matches(e, req, now) {
          MatchesAreCollected(lists, acl, n, req, now, e);
        }
      }
    }
  }

  /** Evaluation refines its specification: when the top matches agree, access is allowed exactly
      if one of them, own or inherited, allows it. */
  lemma AllowedIff(lists: Lists, acl: ACL, n: nat, req: Request, now: int, d: Decision)
    requires Ends(lists, acl, n) && Decides(d, Collected(lists, acl, n), req, now)
    requires forall e, f :: TopBorne(lists, acl, req, now, e) && TopBorne(lists, acl, req, now, f) ==>
               (e.access == DENY <==> f.access == DENY)
    ensures d.allowed <==> exists e :: TopBorne(lists, acl, req, now, e) && e.access != DENY
  {
    DecisionCorrect(lists, acl, n, req, now, d);
    if d.matched.Some? {
      var e :| TopBorne(lists, acl, req, now, e) && Same(d.matched.value, e);
      assert e.access == d.matched.value.access;
    }
  }
}
