/** Which changes the store of audit/tracker.go holds and finds after a run, and what a query selects from them. */
module ChangeStoreLaws {
  import opened ChangeStoreModel
  import opened ChangeQuery
  import opened ResourceKeys
  import opened Sorting
  import opened Wrappers

  // ----- Which changes are there

  predicate Live(s: State, c: Change) {
    c.id in s.changes && s.changes[c.id] == c
  }

  /** The operation removes the change: by its ID, or with all changes under the key of its resource. */
  predicate Removes(op: Op, c: Change) {
    || (op.Delete? && op.id == c.id)
    || (op.DeleteByResource? && Key(op.resourceType, op.resourceId) == Key(c.resourceType, c.resourceId))
  }

  lemma LiveAfter(s: State, used: set<string>, op: Op, s': State, used': set<string>, c: Change)
    requires Indexed(s, used) && Next(s, used, op, s', used')
    ensures Live(s', c) <==> op == Op.Store(c) || (Live(s, c) && !Removes(op, c))
  {
    if op.DeleteByResource? {
      var k := Key(op.resourceType, op.resourceId);
      assert c.id in IdsAt(s.byResource, k) <==> c.id in s.changes && KeyOf(s.changes[c.id]) == k;
    }
  }

  /** Stored before state `i` and not removed since. */
  ghost predicate Holds(ops: seq<Op>, c: Change, i: nat)
    requires i <= |ops|
  {
    exists j: nat :: j < i && ops[j] == Op.Store(c) && forall k :: j < k < i ==> !Removes(ops[k], c)
  }

  lemma HoldsNext(ops: seq<Op>, c: Change, h: nat)
    requires h < |ops|
    ensures Holds(ops, c, h + 1) <==> ops[h] == Op.Store(c) || (Holds(ops, c, h) && !Removes(ops[h], c))
  {
    if Holds(ops, c, h) && !Removes(ops[h], c) {
      var j: nat :| j < h && ops[j] == Op.Store(c) && forall k :: j < k < h ==> !Removes(ops[k], c);
      assert forall k :: j < k < h + 1 ==> !Removes(ops[k], c);
    }
    if Holds(ops, c, h + 1) {
      var j: nat :| j < h + 1 && ops[j] == Op.Store(c) && forall k :: j < k < h + 1 ==> !Removes(ops[k], c);
      assert j < h ==> !Removes(ops[h], c);
    }
  }

  lemma RunNext(states: seq<State>, used: seq<set<string>>, ops: seq<Op>, h: nat)
    requires IsRun(states, used, ops) && h < |ops|
    ensures Indexed(states[h], used[h]) && Next(states[h], used[h], ops[h], states[h + 1], used[h + 1])
  {
    RunIndexed(states, used, ops, h);
  }

  /** The run law of the store: it holds a change exactly if that was stored and neither it nor its resource was deleted
      since. */
  lemma {:induction false} RunLive(states: seq<State>, used: seq<set<string>>, ops: seq<Op>, i: nat, c: Change)
    requires IsRun(states, used, ops) && i <= |ops|
    ensures Live(states[i], c) <==> Holds(ops, c, i)
  {
    if i > 0 {
      var h := i - 1;
      RunLive(states, used, ops, h, c);
      RunNext(states, used, ops, h);
      LiveAfter(states[h], used[h], ops[h], states[h + 1], used[h + 1], c);
      HoldsNext(ops, c, h);
    }
  }

  /** What the three lookups lead to in every state of a run: the changes stored and not deleted since, those under the
      key, those of the user, and all of them. */
  lemma RunLookups(states: seq<State>, used: seq<set<string>>, ops: seq<Op>, i: nat, c: Change, t: string, id: string,
                   u: string)
    requires IsRun(states, used, ops) && i <= |ops|
    ensures var s := states[i];
            && (c in Looked(s.changes, IdsAt(s.byResource, Key(t, id))) <==>
                  Holds(ops, c, i) && Key(c.resourceType, c.resourceId) == Key(t, id))
            && (c in Looked(s.changes, IdsAt(s.byUser, u)) <==> Holds(ops, c, i) && c.changedBy == u && u != "")
            && (c in s.byTime <==> Holds(ops, c, i))
  {
    var s := states[i];
    RunIndexed(states, used, ops, i);
    RunLive(states, used, ops, i, c);
    assert Live(s, c) ==> (c.id in IdsAt(s.byResource, Key(t, id)) <==> KeyOf(c) == Key(t, id));
    assert u != "" && Live(s, c) ==> (c.id in IdsAt(s.byUser, u) <==> c.changedBy == u);
    assert u == "" ==> IdsAt(s.byUser, u) == {};
  }

  // ----- The order of the time index

  /** The entries of the list come in the order in which the first `i` operations stored them. */
  ghost predicate InOrder(byTime: seq<Change>, ops: seq<Op>, i: nat)
    requires i <= |ops|
  {
    forall x, y, a, b ::
      (0 <= x < y < |byTime| && 0 <= a < i && 0 <= b < i &&
       ops[a] == Op.Store(byTime[x]) && ops[b] == Op.Store(byTime[y])) ==> a < b
  }

  lemma {:induction false} StoredAreUsed(states: seq<State>, used: seq<set<string>>, ops: seq<Op>, i: nat)
    requires IsRun(states, used, ops) && i <= |ops|
    ensures forall a :: 0 <= a < i && ops[a].Store? ==> ops[a].change.id in used[i]
  {
    if i > 0 {
      StoredAreUsed(states, used, ops, i - 1);
      RunNext(states, used, ops, i - 1);
    }
  }

  lemma AppendInOrder(byTime: seq<Change>, ops: seq<Op>, i: nat, c: Change)
    requires i < |ops| && InOrder(byTime, ops, i) && ops[i] == Op.Store(c)
    requires forall a :: 0 <= a < i && ops[a].Store? ==> ops[a].change.id != c.id
    requires forall x :: 0 <= x < |byTime| ==> byTime[x].id != c.id
    ensures InOrder(byTime + [c], ops, i + 1)
  {
  }

  lemma DropInOrder(byTime: seq<Change>, ops: seq<Op>, i: nat, k: nat)
    requires i < |ops| && InOrder(byTime, ops, i) && k < |byTime| && !ops[i].Store?
    ensures InOrder(byTime[..k] + byTime[k + 1..], ops, i + 1)
  {
    var r := byTime[..k] + byTime[k + 1..];
    forall x, y, a, b | 0 <= x < y < |r| && 0 <= a < i + 1 && 0 <= b < i + 1
                        && ops[a] == Op.Store(r[x]) && ops[b] == Op.Store(r[y])
      ensures a < b
    {
      var x', y' := if x < k then x else x + 1, if y < k then y else y + 1;
      assert r[x] == byTime[x'] && r[y] == byTime[y'];
    }
  }

  lemma {:induction false} FirstBearer(byTime: seq<Change>, id: string) returns (k: nat)
    ensures k <= |byTime| && (forall j :: 0 <= j < k ==> byTime[j].id != id)
    ensures k < |byTime| ==> byTime[k].id == id
  {
    k := 0;
    if byTime != [] && byTime[0].id != id {
      k := FirstBearer(byTime[1..], id);
      assert forall j :: 0 < j < k + 1 ==> byTime[j] == byTime[1..][j - 1];
      k := k + 1;
    }
  }

  lemma StoreInOrder(s: State, u: set<string>, ops: seq<Op>, h: nat, c: Change)
    requires h < |ops| && Lists(s.byTime, s.changes) && s.changes.Keys <= u && c.id !in u
    requires InOrder(s.byTime, ops, h) && ops[h] == Op.Store(c)
    requires forall a :: 0 <= a < h && ops[a].Store? ==> ops[a].change.id in u
    ensures InOrder(s.byTime + [c], ops, h + 1)
  {
    forall x | 0 <= x < |s.byTime|
      ensures s.byTime[x].id != c.id
    {
      assert s.byTime[x] in s.byTime;
    }
    AppendInOrder(s.byTime, ops, h, c);
  }

  lemma WithoutFirstDrops(byTime: seq<Change>, id: string) returns (k: nat)
    ensures k <= |byTime|
    ensures WithoutFirst(byTime, id) == if k < |byTime| then byTime[..k] + byTime[k + 1..] else byTime
  {
    k := FirstBearer(byTime, id);
    WithoutFirstAt(byTime, id, k);
  }

  lemma KeepInOrder(byTime: seq<Change>, ops: seq<Op>, i: nat)
    requires i < |ops| && InOrder(byTime, ops, i) && !ops[i].Store?
    ensures InOrder(byTime, ops, i + 1)
  {
  }

  lemma DeleteInOrder(byTime: seq<Change>, ops: seq<Op>, h: nat, id: string)
    requires h < |ops| && InOrder(byTime, ops, h) && !ops[h].Store?
    ensures InOrder(WithoutFirst(byTime, id), ops, h + 1) && InOrder(byTime, ops, h + 1)
  {
    KeepInOrder(byTime, ops, h);
    var k := WithoutFirstDrops(byTime, id);
    if k < |byTime| {
      DropInOrder(byTime, ops, h, k);
    }
  }

  lemma NextInOrder(states: seq<State>, used: seq<set<string>>, ops: seq<Op>, h: nat)
    requires IsRun(states, used, ops) && h < |ops| && InOrder(states[h].byTime, ops, h) && !ops[h].DeleteByResource?
    ensures InOrder(states[h + 1].byTime, ops, h + 1)
  {
    RunNext(states, used, ops, h);
    var s := states[h];
    if ops[h].Store? {
      StoredAreUsed(states, used, ops, h);
      StoreInOrder(s, used[h], ops, h, ops[h].change);
    } else {
      DeleteInOrder(s.byTime, ops, h, ops[h].id);
    }
  }

  /** As long as no resource is deleted as a whole, the time index lists the live changes in the order in which they
      were stored; such a deletion rebuilds it in an arbitrary order. */
  lemma {:induction false} RunInOrder(states: seq<State>, used: seq<set<string>>, ops: seq<Op>, i: nat)
    requires IsRun(states, used, ops) && i <= |ops|
    requires forall k :: 0 <= k < i ==> !ops[k].DeleteByResource?
    ensures InOrder(states[i].byTime, ops, i)
  {
    if i > 0 {
      RunInOrder(states, used, ops, i - 1);
      NextInOrder(states, used, ops, i - 1);
    }
  }

  // ----- What a query selects

  /** The change has the type asked for, lies within the times asked for, ends included, and concerns a field asked for;
      what is not set is not asked. */
  ghost predicate Wanted(o: Options, c: Change) {
    && (o.changeType.Some? ==> c.changeType == o.changeType.value)
    && (o.startTime == 0 || c.changedAt >= o.startTime)
    && (o.endTime == 0 || c.changedAt <= o.endTime)
    && (o.fields == [] || exists d, f :: d in c.fieldDiffs && f in o.fields && d.field == f)
  }

  lemma AdmittedWanted(o: Options, c: Change)
    ensures Admits(o, c) <==> Wanted(o, c)
  {
    if Wanted(o, c) && o.fields != [] {
      var d, f :| d in c.fieldDiffs && f in o.fields && d.field == f;
      var i :| 0 <= i < |c.fieldDiffs| && c.fieldDiffs[i] == d;
    }
  }

  lemma {:induction false} WantedCount(o: Options, s: seq<Change>, c: Change)
    ensures multiset(Kept(o, s))[c] == if Wanted(o, c) then multiset(s)[c] else 0
  {
    if s != [] {
      var front, last := s[..|s| - 1], s[|s| - 1];
      WantedCount(o, front, c);
      AdmittedWanted(o, last);
      assert multiset(s) == multiset(front) + multiset{last} by {
        assert s == front + [last];
      }
    }
  }

  /** `x` has to come before `y`: newest first if no order is asked for; ties and unknown orders leave it open. */
  predicate Precedes(o: Options, x: Change, y: Change) {
    if o.orderBy == "" then x.changedAt > y.changedAt
    else if o.orderBy == "changed_at" then if o.descending then x.changedAt > y.changedAt else x.changedAt < y.changedAt
    else if o.orderBy == "resource_type" then
      if o.descending then Below(y.resourceType, x.resourceType) else Below(x.resourceType, y.resourceType)
    else if o.orderBy == "change_type" then
      if o.descending then Rank(x.changeType) > Rank(y.changeType) else Rank(x.changeType) < Rank(y.changeType)
    else false
  }

  /** The alphabetical rank of the name of a type. */
  function Rank(t: ChangeType): nat {
    match t
    case Create => 0
    case Delete => 1
    case Restore => 2
    case Update => 3
  }

  lemma NamesRanked(t: ChangeType, u: ChangeType)
    ensures Below(Name(t), Name(u)) <==> Rank(t) < Rank(u)
  {
    BelowFirst(Name(t), Name(u));
  }

  lemma BelowFirst(s: string, t: string)
    requires s != "" && t != "" && (s[0] == t[0] ==> s == t)
    ensures Below(s, t) <==> s[0] < t[0]
  {
    if s == t {
      BelowAsymmetric(s, t);
    }
  }

  /** The strings agree before position `k`, where the first is smaller. */
  predicate SmallerAt(s: string, t: string, k: nat) {
    k < |s| && k < |t| && s[..k] == t[..k] && s[k] < t[k]
  }

  lemma SmallerLater(s: string, t: string, k: nat)
    requires s != "" && t != "" && s[0] == t[0]
    ensures SmallerAt(s[1..], t[1..], k) <==> SmallerAt(s, t, k + 1)
  {
    if k < |s| - 1 && k < |t| - 1 {
      assert s[..k + 1] == [s[0]] + s[1..][..k] && t[..k + 1] == [t[0]] + t[1..][..k];
      assert s[..k + 1][1..] == s[1..][..k] && t[..k + 1][1..] == t[1..][..k];
    }
  }

  /** One string is below another if it is a proper prefix of it, or smaller where they first differ. */
  lemma {:induction false} BelowMeaning(s: string, t: string)
    ensures Below(s, t) <==> s < t || exists k: nat :: SmallerAt(s, t, k)
  {
    if s != "" && t != "" {
      if s[0] == t[0] {
        BelowMeaning(s[1..], t[1..]);
        assert s < t <==> s[1..] < t[1..] by {
          assert s == [s[0]] + s[1..] && t == [t[0]] + t[1..];
        }
        if k: nat :| SmallerAt(s, t, k) {
          assert k > 0;
          SmallerLater(s, t, k - 1);
        }
        if k: nat :| SmallerAt(s[1..], t[1..], k) {
          SmallerLater(s, t, k);
        }
      } else {
        assert s[0] < t[0] ==> SmallerAt(s, t, 0);
        if k: nat :| SmallerAt(s, t, k) {
          assert k > 0 ==> s[..k][0] == t[..k][0];
        }
      }
    }
  }

  lemma OrderPrecedes(o: Options, x: Change, y: Change)
    ensures OrderOf(o)(x, y) <==> Precedes(o, x, y)
  {
    NamesRanked(x.changeType, y.changeType);
    NamesRanked(y.changeType, x.changeType);
  }

  /** `r` lists just the wanted changes of `s`, as often as `s` does, none before one that has to precede it. */
  ghost predicate Answers(o: Options, s: seq<Change>, r: seq<Change>) {
    && (forall c :: multiset(r)[c] == if Wanted(o, c) then multiset(s)[c] else 0)
    && forall i, j :: 0 <= i < j < |r| ==> !Precedes(o, r[j], r[i])
  }

  lemma ArrangedAnswers(o: Options, s: seq<Change>, sorted: seq<Change>)
    requires Arranges(o, Kept(o, s), sorted)
    ensures Answers(o, s, sorted)
  {
    forall c
      ensures multiset(sorted)[c] == if Wanted(o, c) then multiset(s)[c] else 0
    {
      WantedCount(o, s, c);
    }
    forall i, j | 0 <= i < j < |sorted|
      ensures !Precedes(o, sorted[j], sorted[i])
    {
      OrderPrecedes(o, sorted[j], sorted[i]);
    }
  }

  /** The part of a list from the offset on and up to the limit; an offset past the end is ignored. */
  function Part(all: seq<Change>, offset: int, limit: int): seq<Change> {
    var t := if 0 < offset < |all| then all[offset..] else all;
    if limit > 0 && |t| > limit then t[..limit] else t
  }

  /** What a query returns: such a part of a list of just the wanted changes in the order asked for. */
  lemma QueryAnswers(o: Options, s: seq<Change>, r: seq<Change>)
    requires Selects(Some(o), s, r)
    ensures exists all :: Answers(o, s, all) && r == Part(all, o.offset, o.limit)
  {
    var sorted :| Arranges(o, Kept(o, s), sorted) && r == Page(sorted, o.offset, o.limit);
    ArrangedAnswers(o, s, sorted);
    assert Page(sorted, o.offset, o.limit) == Part(sorted, o.offset, o.limit);
  }

  /** Without options everything found is returned as it is. */
  lemma PlainQuery(s: seq<Change>, r: seq<Change>)
    ensures Selects(None, s, r) <==> r == s
  {
  }
}
