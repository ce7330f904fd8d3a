/** The in-memory change store of audit/tracker.go: a main map and three indexes. */
module ChangeStoreModel {
  import opened MapOrder
  import opened ResourceKeys
  import opened Wrappers

  /** A field value; Go's nil is a value of its own. */
  datatype Value = Nil | Data(content: string)

  type Fields = map<string, Value>

  datatype ChangeType = Create | Update | Delete | Restore

  datatype FieldDiff = FieldDiff(field: string, oldValue: Value, newValue: Value, kind: string)

  datatype Change = Change(
    id: string, resourceType: string, resourceId: string, changeType: ChangeType, fieldDiffs: seq<FieldDiff>,
    oldSnapshot: Option<Fields>, newSnapshot: Option<Fields>, changedBy: string, changedAt: int)

  datatype State = State(
    changes: map<string, Change>,
    byResource: map<string, set<string>>,
    byUser: map<string, set<string>>,
    byTime: seq<Change>)

  function KeyOf(c: Change): string {
    Key(c.resourceType, c.resourceId)
  }

  /** Go reads a missing set as empty. */
  function IdsAt(index: map<string, set<string>>, k: string): set<string> {
    if k in index then index[k] else {}
  }

  function Stored(s: State, c: Change): State {
    State(
      s.changes[c.id := c],
      s.byResource[KeyOf(c) := IdsAt(s.byResource, KeyOf(c)) + {c.id}],
      if c.changedBy == "" then s.byUser else s.byUser[c.changedBy := IdsAt(s.byUser, c.changedBy) + {c.id}],
      s.byTime + [c])
  }

  /** The time index without the first entry that has the given ID. */
  function WithoutFirst(byTime: seq<Change>, id: string): seq<Change> {
    if byTime == [] then []
    else if byTime[0].id == id then byTime[1..]
    else [byTime[0]] + WithoutFirst(byTime[1..], id)
  }

  /** With position `i` the first bearer of the ID, or past the end if there is none. */
  lemma {:induction false} WithoutFirstAt(byTime: seq<Change>, id: string, i: nat)
    requires i <= |byTime| && forall j :: 0 <= j < i ==> byTime[j].id != id
    requires i < |byTime| ==> byTime[i].id == id
    ensures WithoutFirst(byTime, id) == if i < |byTime| then byTime[..i] + byTime[i + 1..] else byTime
  {
    if i > 0 {
      WithoutFirstAt(byTime[1..], id, i - 1);
    }
  }

  function Dropped(index: map<string, set<string>>, k: string, id: string): map<string, set<string>> {
    if k in index then index[k := index[k] - {id}] else index
  }

  function Deleted(s: State, id: string): State {
    if id !in s.changes then s
    else
      var c := s.changes[id];
      State(
        s.changes - {id},
        Dropped(s.byResource, KeyOf(c), id),
        if c.changedBy == "" then s.byUser else Dropped(s.byUser, c.changedBy, id),
        WithoutFirst(s.byTime, id))
  }

  /** `byTime` lists each live change once. */
  ghost predicate Lists(byTime: seq<Change>, changes: map<string, Change>) {
    && (forall c :: c in byTime <==> c.id in changes && changes[c.id] == c)
    && (forall i, j :: 0 <= i < j < |byTime| ==> byTime[i].id != byTime[j].id)
  }

  /** Listing the changes in any order of their keys. */
  lemma OrderedLists(order: seq<string>, byTime: seq<Change>, changes: map<string, Change>)
    requires Enumerates(order, changes.Keys) && forall id :: id in changes ==> changes[id].id == id
    requires |byTime| == |order| && forall j :: 0 <= j < |order| ==> byTime[j] == changes[order[j]]
    ensures Lists(byTime, changes)
  {
    forall c
      ensures c in byTime <==> c.id in changes && changes[c.id] == c
    {
      if c in byTime {
        var j :| 0 <= j < |byTime| && byTime[j] == c;
        assert order[j] in order;
      }
      if c.id in changes && changes[c.id] == c {
        assert c.id in order;
        var j :| 0 <= j < |order| && order[j] == c.id;
        assert byTime[j] == c;
      }
    }
    forall i, j | 0 <= i < j < |byTime|
      ensures byTime[i].id != byTime[j].id
    {
      assert order[i] in order && order[j] in order;
    }
  }

  /** Deleting a resource: the time index is rebuilt in arbitrary order, and the user
      index is left as it is. */
  ghost predicate DeletedResource(s: State, k: string, s': State) {
    if k !in s.byResource then s' == s
    else
      && s'.changes == s.changes - s.byResource[k]
      && s'.byResource == s.byResource - {k}
      && s'.byUser == s.byUser
      && Lists(s'.byTime, s'.changes)
  }

  // ----- The index invariant

  /** The resource index is exact. */
  ghost predicate ResourcesIndexed(changes: map<string, Change>, byResource: map<string, set<string>>) {
    forall k, id :: id in IdsAt(byResource, k) <==> id in changes && KeyOf(changes[id]) == k
  }

  /** The user index is right about live changes.  It may keep stale IDs, but only used
      ones, which no later change can bear. */
  ghost predicate UsersIndexed(changes: map<string, Change>, byUser: map<string, set<string>>, used: set<string>) {
    && "" !in byUser
    && (forall u, id :: id in IdsAt(byUser, u) ==> id in used)
    && (forall u, id :: u != "" && id in changes ==> (id in IdsAt(byUser, u) <==> changes[id].changedBy == u))
  }

  /** `used` holds every ID ever stored. */
  ghost predicate Indexed(s: State, used: set<string>) {
    && s.changes.Keys <= used
    && (forall id :: id in s.changes ==> s.changes[id].id == id)
    && ResourcesIndexed(s.changes, s.byResource)
    && UsersIndexed(s.changes, s.byUser, used)
    && Lists(s.byTime, s.changes)
  }

  lemma StoreKeepsUsers(s: State, used: set<string>, c: Change)
    requires s.changes.Keys <= used && UsersIndexed(s.changes, s.byUser, used) && c.id !in used
    ensures UsersIndexed(Stored(s, c).changes, Stored(s, c).byUser, used + {c.id})
  {
    var s' := Stored(s, c);
    forall u, id | id in IdsAt(s'.byUser, u)
      ensures id in used + {c.id}
    {
      assert id in IdsAt(s.byUser, u) || id == c.id;
    }
    forall u, id | u != "" && id in s'.changes
      ensures id in IdsAt(s'.byUser, u) <==> s'.changes[id].changedBy == u
    {
      if id == c.id {
        assert id !in IdsAt(s.byUser, u);
      } else {
        assert id in IdsAt(s.byUser, u) <==> s.changes[id].changedBy == u;
      }
    }
  }

  lemma StoreKeepsIndexed(s: State, used: set<string>, c: Change)
    requires Indexed(s, used) && c.id !in used
    ensures Indexed(Stored(s, c), used + {c.id})
  {
    StoreKeepsUsers(s, used, c);
    var s' := Stored(s, c);
    forall k, id
      ensures id in IdsAt(s'.byResource, k) <==> id in s'.changes && KeyOf(s'.changes[id]) == k
    {
      assert id in IdsAt(s.byResource, k) <==> id in s.changes && KeyOf(s.changes[id]) == k;
    }
  }

  lemma {:induction false} WithoutFirstLists(byTime: seq<Change>, id: string)
    requires forall i, j :: 0 <= i < j < |byTime| ==> byTime[i].id != byTime[j].id
    ensures forall c :: c in WithoutFirst(byTime, id) <==> c in byTime && c.id != id
    ensures forall i, j :: 0 <= i < j < |WithoutFirst(byTime, id)| ==>
              WithoutFirst(byTime, id)[i].id != WithoutFirst(byTime, id)[j].id
  {
    if byTime != [] {
      var rest := byTime[1..];
      WithoutFirstLists(rest, id);
      assert forall c :: c in byTime <==> c == byTime[0] || c in rest;
      assert forall c :: c in rest ==> c.id != byTime[0].id;
      if byTime[0].id != id {
        var r, all := WithoutFirst(rest, id), WithoutFirst(byTime, id);
        assert all == [byTime[0]] + r;
        forall i, j | 0 <= i < j < |all|
          ensures all[i].id != all[j].id
        {
          assert all[j] == r[j - 1] && r[j - 1] in r;
        }
      }
    }
  }

  lemma DeleteKeepsUsers(s: State, used: set<string>, id: string)
    requires UsersIndexed(s.changes, s.byUser, used)
    ensures UsersIndexed(Deleted(s, id).changes, Deleted(s, id).byUser, used)
  {
    var s' := Deleted(s, id);
    forall u, i | i in IdsAt(s'.byUser, u)
      ensures i in used
    {
      assert i in IdsAt(s.byUser, u);
    }
    forall u, i | u != "" && i in s'.changes
      ensures i in IdsAt(s'.byUser, u) <==> s'.changes[i].changedBy == u
    {
      assert i in IdsAt(s.byUser, u) <==> s.changes[i].changedBy == u;
    }
  }

  lemma DeleteKeepsIndexed(s: State, used: set<string>, id: string)
    requires Indexed(s, used)
    ensures Indexed(Deleted(s, id), used)
  {
    if id in s.changes {
      var s' := Deleted(s, id);
      DeleteKeepsUsers(s, used, id);
      WithoutFirstLists(s.byTime, id);
      forall k, i
        ensures i in IdsAt(s'.byResource, k) <==> i in s'.changes && KeyOf(s'.changes[i]) == k
      {
        assert i in IdsAt(s.byResource, k) <==> i in s.changes && KeyOf(s.changes[i]) == k;
      }
    }
  }

  lemma DeleteResourceKeepsIndexed(s: State, used: set<string>, k: string, s': State)
    requires Indexed(s, used) && DeletedResource(s, k, s')
    ensures Indexed(s', used)
  {
    if k in s.byResource {
      assert s.byResource[k] == IdsAt(s.byResource, k);
      forall k', i
        ensures i in IdsAt(s'.byResource, k') <==> i in s'.changes && KeyOf(s'.changes[i]) == k'
      {
        assert i in IdsAt(s.byResource, k') <==> i in s.changes && KeyOf(s.changes[i]) == k';
        assert i in IdsAt(s.byResource, k) <==> i in s.changes && KeyOf(s.changes[i]) == k;
      }
    }
  }

  // ----- Runs

  datatype Op = Store(change: Change) | Delete(id: string) | DeleteByResource(resourceType: string, resourceId: string)

  /** One operation; only IDs never stored before may be stored. */
  ghost predicate Next(s: State, used: set<string>, op: Op, s': State, used': set<string>) {
    match op
    case Store(c) => c.id !in used && s' == Stored(s, c) && used' == used + {c.id}
    case Delete(id) => s' == Deleted(s, id) && used' == used
    case DeleteByResource(t, id) => DeletedResource(s, Key(t, id), s') && used' == used
  }

  const EMPTY := State(map[], map[], map[], [])

  ghost predicate IsRun(states: seq<State>, used: seq<set<string>>, ops: seq<Op>) {
    && |states| == |used| == |ops| + 1
    && states[0] == EMPTY && used[0] == {}
    && forall i, j :: 0 <= i < j < |states| && j == i + 1 ==> Next(states[i], used[i], ops[i], states[j], used[j])
  }

  /** The indexes are right in every reachable state. */
  lemma {:induction false} RunIndexed(states: seq<State>, used: seq<set<string>>, ops: seq<Op>, i: nat)
    requires IsRun(states, used, ops) && i <= |ops|
    ensures Indexed(states[i], used[i])
  {
    if i > 0 {
      RunIndexed(states, used, ops, i - 1);
      var s, u := states[i - 1], used[i - 1];
      assert Next(s, u, ops[i - 1], states[i], used[i]);
      match ops[i - 1]
      case Store(c) => StoreKeepsIndexed(s, u, c);
      case Delete(id) => DeleteKeepsIndexed(s, u, id);
      case DeleteByResource(t, id) => DeleteResourceKeepsIndexed(s, u, Key(t, id), states[i]);
    }
  }

  // ----- What the queries return

  /** `r` lists each change of the set once, in some order. */
  ghost predicate Enumeration(r: seq<Change>, all: set<Change>) {
    (forall c :: c in r <==> c in all) && forall i, j :: 0 <= i < j < |r| ==> r[i] != r[j]
  }

  /** A full scan of the live changes. */
  function ScanResource(changes: map<string, Change>, t: string, id: string): set<Change> {
    set i | i in changes && changes[i].resourceType == t && changes[i].resourceId == id :: changes[i]
  }

  function ScanUser(changes: map<string, Change>, u: string): set<Change> {
    set i | i in changes && changes[i].changedBy == u :: changes[i]
  }

  /** What the lookups through the indexes collect. */
  function Looked(changes: map<string, Change>, ids: set<string>): set<Change> {
    set i | i in ids && i in changes :: changes[i]
  }

  /** Looking up a resource finds exactly what a full scan finds, exactly if no live change of
      another type shares its key. */
  lemma ResourceLookupIff(s: State, used: set<string>, t: string, id: string)
    requires Indexed(s, used)
    ensures Looked(s.changes, IdsAt(s.byResource, Key(t, id))) == ScanResource(s.changes, t, id) <==>
            forall i :: i in s.changes && KeyOf(s.changes[i]) == Key(t, id) ==> s.changes[i].resourceType == t
  {
    var found, scan := Looked(s.changes, IdsAt(s.byResource, Key(t, id))), ScanResource(s.changes, t, id);
    forall i | i in s.changes && KeyOf(s.changes[i]) == Key(t, id)
      ensures s.changes[i] in found
      ensures s.changes[i] in scan <==> s.changes[i].resourceType == t
    {
      var c := s.changes[i];
      if c.resourceType == t {
        SameTypeKeys(c.resourceType, c.resourceId, t, id);
      }
    }
  }

  /** In particular if the type collides with no type of a live change. */
  lemma ResourceLookupExact(s: State, used: set<string>, t: string, id: string)
    requires Indexed(s, used) && forall i :: i in s.changes ==> !Collide(s.changes[i].resourceType, t)
    ensures Looked(s.changes, IdsAt(s.byResource, Key(t, id))) == ScanResource(s.changes, t, id)
  {
    forall i | i in s.changes && KeyOf(s.changes[i]) == Key(t, id)
      ensures s.changes[i].resourceType == t
    {
      KeyInjective(s.changes[i].resourceType, s.changes[i].resourceId, t, id);
    }
    ResourceLookupIff(s, used, t, id);
  }

  /** With colons in types two resources can share a key, and a lookup finds both. */
  lemma ColonsCollide(c: Change)
    requires c.resourceType == "a:b" && c.resourceId == "c"
    ensures var s := Stored(EMPTY, c);
            Looked(s.changes, IdsAt(s.byResource, Key("a", "b:c"))) == {c} && ScanResource(s.changes, "a", "b:c") == {}
  {
    assert KeyOf(c) == Key("a", "b:c");
    var s := Stored(EMPTY, c);
    assert Looked(s.changes, {c.id}) == {c} by {
      assert s.changes[c.id] == c;
    }
  }

  /** Looking up a user finds exactly what a full scan finds, stale IDs notwithstanding;
      for the empty user, who is not indexed, iff no live change is anonymous. */
  lemma UserLookupExact(s: State, used: set<string>, u: string)
    requires Indexed(s, used)
    ensures Looked(s.changes, IdsAt(s.byUser, u)) == ScanUser(s.changes, u) <==>
              u != "" || ScanUser(s.changes, "") == {}
  {
  }
}

/** The store as the source has it. */
module ChangeStore {
  import opened ChangeStoreModel
  import opened ChangeQuery
  import opened MapOrder
  import opened ResourceKeys
  import opened Wrappers

  class MemoryChangeStore {
    var changes: map<string, Change>
    var byResource: map<string, set<string>>
    var byUser: map<string, set<string>>
    var byTime: seq<Change>

    constructor ()
      ensures Abs() == EMPTY
    {
      changes, byResource, byUser, byTime := map[], map[], map[], [];
    }

    function Abs(): State
      reads this
    {
      State(changes, byResource, byUser, byTime)
    }

    method Store(change: Change)
      modifies this
      ensures Abs() == Stored(old(Abs()), change)
    {
      changes := changes[change.id := change];
      byResource := Add(byResource, Key(change.resourceType, change.resourceId), change.id);
      if change.changedBy != "" {
        byUser := Add(byUser, change.changedBy, change.id);
      }
      byTime := byTime + [change];
    }

    /** Adds an ID to an index, making the set first where the key is new. */
    static method Add(index: map<string, set<string>>, k: string, id: string) returns (r: map<string, set<string>>)
      ensures r == index[k := IdsAt(index, k) + {id}]
    {
      r := index;
      if k !in r {
        r := r[k := {}];
      }
      r := r[k := r[k] + {id}];
    }

    method Delete(id: string)
      modifies this
      ensures Abs() == Deleted(old(Abs()), id)
    {
      if id !in changes {
        return;
      }
      var change := changes[id];
      changes := changes - {id};
      var resourceKey := Key(change.resourceType, change.resourceId);
      if resourceKey in byResource {
        byResource := byResource[resourceKey := byResource[resourceKey] - {id}];
      }
      if change.changedBy != "" {
        if change.changedBy in byUser {
          byUser := byUser[change.changedBy := byUser[change.changedBy] - {id}];
        }
      }
      RemoveFromTime(id);
    }

    method RemoveFromTime(id: string)
      modifies `byTime
      ensures byTime == WithoutFirst(old(byTime), id)
    {
      for i := 0 to |byTime|
        invariant byTime == old(byTime) && forall j :: 0 <= j < i ==> byTime[j].id != id
      {
        if byTime[i].id == id {
          WithoutFirstAt(byTime, id, i);
          byTime := byTime[..i] + byTime[i + 1..];
          return;
        }
      }
      WithoutFirstAt(byTime, id, |byTime|);
    }

    method DeleteByResource(resourceType: string, resourceId: string)
      requires forall id :: id in changes ==> changes[id].id == id
      modifies this
      ensures DeletedResource(old(Abs()), Key(resourceType, resourceId), Abs())
    {
      var resourceKey := Key(resourceType, resourceId);
      if resourceKey !in byResource {
        return;
      }
      changes := changes - byResource[resourceKey];
      byResource := byResource - {resourceKey};
      var order := Ordering(changes.Keys);
      byTime := [];
      for i := 0 to |order|
        modifies `byTime
        invariant |byTime| == i && forall j :: 0 <= j < i ==> byTime[j] == changes[order[j]]
      {
        byTime := byTime + [changes[order[i]]];
      }
      OrderedLists(order, byTime, changes);
    }

    method Get(id: string) returns (change: Option<Change>)
      ensures change == if id in changes then Some(changes[id]) else None
    {
      return if id in changes then Some(changes[id]) else None;
    }

    method GetByResource(resourceType: string, resourceId: string, opts: Option<Options>) returns (r: seq<Change>)
      requires forall id :: id in changes ==> changes[id].id == id
      ensures exists found ::
                && Enumeration(found, Looked(changes, IdsAt(byResource, Key(resourceType, resourceId))))
                && Selects(opts, found, r)
    {
      var found := LookUp(IdsAt(byResource, Key(resourceType, resourceId)));
      r := ApplyQueryOptions(found, opts);
    }

    method GetByUser(userId: string, opts: Option<Options>) returns (r: seq<Change>)
      requires forall id :: id in changes ==> changes[id].id == id
      ensures exists found :: Enumeration(found, Looked(changes, IdsAt(byUser, userId))) && Selects(opts, found, r)
    {
      var found := LookUp(IdsAt(byUser, userId));
      r := ApplyQueryOptions(found, opts);
    }

    method List(opts: Option<Options>) returns (r: seq<Change>)
      ensures Selects(opts, byTime, r)
    {
      r := ApplyQueryOptions(byTime, opts);
    }

    /** The loop over an index entry; IDs no longer stored are skipped. */
    method LookUp(ids: set<string>) returns (r: seq<Change>)
      requires forall id :: id in changes ==> changes[id].id == id
      ensures Enumeration(r, Looked(changes, ids))
    {
      var order := Ordering(ids);
      r := [];
      for i := 0 to |order|
        invariant forall c :: c in r <==> c.id in changes && changes[c.id] == c && c.id in order[..i]
        invariant forall j, k :: 0 <= j < k < |r| ==> r[j] != r[k]
      {
        if order[i] in changes {
          r := r + [changes[order[i]]];
        }
      }
      assert order[..|order|] == order;
    }
  }
}
