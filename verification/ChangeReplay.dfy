/** Recording, replaying and reverting changes: the tracker of audit/tracker.go. */
module ChangeReplayModel {
  import opened ChangeStoreModel
  import opened ChangeQuery
  import opened ResourceKeys
  import opened Sorting
  import opened Wrappers

  // ----- States and diffs

  /** Ranging over Go's nil map is ranging over an empty one. */
  function Plain(s: Option<Fields>): Fields {
    if s.None? then map[] else s.value
  }

  /** A field's value, nil where it is absent. */
  function View(s: Option<Fields>, f: string): Value {
    if f in Plain(s) then Plain(s)[f] else Nil
  }

  /** The same state, up to identifying absent fields with nil. */
  ghost predicate Alike(s: Option<Fields>, t: Option<Fields>) {
    forall f :: View(s, f) == View(t, f)
  }

  predicate Differs(before: Fields, after: Fields, f: string) {
    || (f in before) != (f in after)
    || (f in before && before[f] != after[f])
  }

  function DiffOf(before: Fields, after: Fields, f: string): FieldDiff {
    FieldDiff(f, View(Some(before), f), View(Some(after), f),
              if f !in before then "added" else if f !in after then "removed" else "modified")
  }

  /** `diffs` has one entry per field that differs, in some order. */
  ghost predicate IsDiff(diffs: seq<FieldDiff>, before: Option<Fields>, after: Option<Fields>) {
    && (forall d :: d in diffs <==>
          Differs(Plain(before), Plain(after), d.field) && d == DiffOf(Plain(before), Plain(after), d.field))
    && (forall i, j :: 0 <= i < j < |diffs| ==> diffs[i].field != diffs[j].field)
  }

  function Applied(state: Fields, diffs: seq<FieldDiff>): Fields {
    if diffs == [] then state
    else
      var d := diffs[|diffs| - 1];
      Applied(state, diffs[..|diffs| - 1])[d.field := d.newValue]
  }

  lemma {:induction false} AppliedElsewhere(state: Fields, diffs: seq<FieldDiff>, f: string)
    requires forall i :: 0 <= i < |diffs| ==> diffs[i].field != f
    ensures View(Some(Applied(state, diffs)), f) == View(Some(state), f)
  {
    if diffs != [] {
      AppliedElsewhere(state, diffs[..|diffs| - 1], f);
    }
  }

  lemma {:induction false} AppliedAt(state: Fields, diffs: seq<FieldDiff>, k: nat)
    requires k < |diffs| && forall i, j :: 0 <= i < j < |diffs| ==> diffs[i].field != diffs[j].field
    ensures View(Some(Applied(state, diffs)), diffs[k].field) == diffs[k].newValue
  {
    var n := |diffs| - 1;
    if k < n {
      AppliedAt(state, diffs[..n], k);
      assert diffs[k].field != diffs[n].field;
    }
  }

  /** Applying a diff takes the fields it lists to their new values and leaves the others alone. */
  lemma DiffAppliesAt(state: Option<Fields>, before: Option<Fields>, after: Option<Fields>, diffs: seq<FieldDiff>,
                      f: string)
    requires IsDiff(diffs, before, after)
    ensures View(Some(Applied(Plain(state), diffs)), f) ==
            if Differs(Plain(before), Plain(after), f) then View(after, f) else View(state, f)
  {
    var d := DiffOf(Plain(before), Plain(after), f);
    assert d.field == f;
    if Differs(Plain(before), Plain(after), f) {
      assert d in diffs;
      var k :| 0 <= k < |diffs| && diffs[k] == d;
      AppliedAt(Plain(state), diffs, k);
    } else {
      assert forall i :: 0 <= i < |diffs| ==> diffs[i] in diffs;
      AppliedElsewhere(Plain(state), diffs, f);
    }
  }

  /** Applying the diff of two states to anything like the first gives something like the second. */
  lemma DiffApplies(state: Option<Fields>, before: Option<Fields>, after: Option<Fields>, diffs: seq<FieldDiff>)
    requires IsDiff(diffs, before, after) && Alike(state, before)
    ensures Alike(Some(Applied(Plain(state), diffs)), after)
  {
    forall f
      ensures View(Some(Applied(Plain(state), diffs)), f) == View(after, f)
    {
      DiffAppliesAt(state, before, after, diffs, f);
      assert View(state, f) == View(before, f);
    }
  }

  lemma NoDiffs(before: Option<Fields>, after: Option<Fields>, diffs: seq<FieldDiff>)
    requires IsDiff(diffs, before, after)
    ensures diffs == [] <==> Plain(before) == Plain(after)
  {
    if diffs == [] {
      forall f
        ensures !Differs(Plain(before), Plain(after), f)
      {
        assert DiffOf(Plain(before), Plain(after), f).field == f;
        assert DiffOf(Plain(before), Plain(after), f) !in diffs;
      }
      assert forall f :: f in Plain(before) ==> !Differs(Plain(before), Plain(after), f);
      assert forall f :: f in Plain(after) ==> !Differs(Plain(before), Plain(after), f);
    } else {
      assert diffs[0] in diffs;
    }
  }

  // ----- Replay

  function Replayed(state: Option<Fields>, c: Change): Option<Fields> {
    match c.changeType
    case Create => c.newSnapshot
    case Update => Some(Applied(Plain(state), c.fieldDiffs))
    case Delete => None
    case Restore => c.newSnapshot
  }

  function Replay(h: seq<Change>): Option<Fields> {
    if h == [] then None else Replayed(Replay(h[..|h| - 1]), h[|h| - 1])
  }

  datatype Found = SnapshotNotFound | Snapshot(state: Option<Fields>)

  function UpTo(at: int): Options {
    Options(None, 0, at, [], 0, 0, "changed_at", false)
  }

  /** What replaying the part of `h` up to `at` answers. */
  function AnswerAt(h: seq<Change>, at: int): Found {
    var past := Kept(UpTo(at), h);
    if past == [] then SnapshotNotFound else Snapshot(Replay(past))
  }

  ghost predicate Chronological(h: seq<Change>) {
    forall i, j :: 0 <= i < j < |h| ==> h[i].changedAt < h[j].changedAt
  }

  lemma {:induction false} KeptCount(o: Options, s: seq<Change>, c: Change)
    ensures multiset(Kept(o, s))[c] == if Admits(o, c) then multiset(s)[c] else 0
  {
    if s != [] {
      var n := |s| - 1;
      KeptCount(o, s[..n], c);
      assert multiset(s) == multiset(s[..n]) + multiset{s[n]} by {
        assert s == s[..n] + [s[n]];
      }
    }
  }

  lemma KeptPermutes(o: Options, s: seq<Change>, t: seq<Change>)
    requires Permutation(s, t)
    ensures Permutation(Kept(o, s), Kept(o, t))
  {
    forall c
      ensures multiset(Kept(o, s))[c] == multiset(Kept(o, t))[c]
    {
      KeptCount(o, s, c);
      KeptCount(o, t, c);
    }
  }

  lemma {:induction false} KeptChronological(o: Options, h: seq<Change>)
    requires Chronological(h)
    ensures Chronological(Kept(o, h))
  {
    if h != [] {
      var n := |h| - 1;
      KeptChronological(o, h[..n]);
      KeptMembers(o, h[..n]);
      assert forall i :: 0 <= i < |Kept(o, h[..n])| ==> Kept(o, h[..n])[i] in h[..n];
    }
  }

  lemma {:induction false} DistinctCount(s: seq<Change>, c: Change)
    requires forall i, j :: 0 <= i < j < |s| ==> s[i] != s[j]
    ensures multiset(s)[c] == if c in s then 1 else 0
  {
    if s != [] {
      var n := |s| - 1;
      DistinctCount(s[..n], c);
      assert s == s[..n] + [s[n]];
    }
  }

  lemma DistinctPermutation(s: seq<Change>, t: seq<Change>)
    requires forall i, j :: 0 <= i < j < |s| ==> s[i] != s[j]
    requires forall i, j :: 0 <= i < j < |t| ==> t[i] != t[j]
    requires forall c :: c in s <==> c in t
    ensures Permutation(s, t)
  {
    forall c
      ensures multiset(s)[c] == multiset(t)[c]
    {
      DistinctCount(s, c);
      DistinctCount(t, c);
    }
  }

  /** However the index yields the changes, sorting and filtering them recovers the history. */
  lemma SelectionIsHistory(h: seq<Change>, found: seq<Change>, r: seq<Change>, at: int)
    requires Chronological(h) && Permutation(found, h) && Selects(Some(UpTo(at)), found, r)
    ensures r == Kept(UpTo(at), h)
  {
    var o := UpTo(at);
    var sorted :| Arranges(o, Kept(o, found), sorted) && r == Page(sorted, 0, 0);
    KeptPermutes(o, found, h);
    KeptChronological(o, h);
    KeptMembers(o, h);
    OrderIsWeak("changed_at", false);
    var less := OrderOf(o);
    PermutationMembers(sorted, Kept(o, h));
    assert TiesEqual(less, sorted) by {
      forall x, y | x in sorted && y in sorted && !less(x, y) && !less(y, x)
        ensures x == y
      {
        assert x in h && y in h;
      }
    }
    SortedUnique(less, sorted, Kept(o, h));
  }

  // ----- Requests and what they record

  datatype Request = Request(
    resourceType: string, resourceId: string, changeType: Option<ChangeType>,
    oldState: Option<Fields>, newState: Option<Fields>, changedBy: string)

  datatype Outcome = Logged(change: Change) | NoChange | InvalidChangeType

  /** `c` is the record of a creation, update or deletion. */
  ghost predicate Records(c: Change, kind: ChangeType, req: Request, id: string, now: int) {
    var before := if kind.Create? then None else req.oldState;
    var after := if kind.Delete? then None else req.newState;
    && c == Change(id, req.resourceType, req.resourceId, kind, c.fieldDiffs, before, after, req.changedBy, now)
    && IsDiff(c.fieldDiffs, before, after)
  }

  /** The outcome of a request; a restoration is recorded as a creation. */
  ghost predicate Tracks(kind: ChangeType, req: Request, id: string, now: int, out: Outcome) {
    match kind
    case Create => out.Logged? && Records(out.change, Create, req, id, now)
    case Restore => out.Logged? && Records(out.change, Create, req, id, now)
    case Delete => out.Logged? && Records(out.change, ChangeType.Delete, req, id, now)
    case Update =>
      if req.oldState.None? && req.newState.None? then out == InvalidChangeType
      else if Plain(req.oldState) == Plain(req.newState) then out == NoChange
      else out.Logged? && Records(out.change, Update, req, id, now)
  }

  // ----- Runs over many resources

  datatype Step = Step(kind: ChangeType, req: Request, id: string, at: int, out: Outcome)

  predicate Concerns(step: Step, t: string, id: string) {
    step.req.resourceType == t && step.req.resourceId == id
  }

  /** The state a resource is in after a run; no state at first. */
  function Latest(steps: seq<Step>, t: string, id: string): Option<Fields> {
    if steps == [] then None
    else
      var last := steps[|steps| - 1];
      if !Concerns(last, t, id) then Latest(steps[..|steps| - 1], t, id)
      else if last.kind.Delete? then None
      else last.req.newState
  }

  /** The changes recorded for a resource, oldest first. */
  function History(steps: seq<Step>, t: string, id: string): seq<Change> {
    if steps == [] then []
    else
      var last := steps[|steps| - 1];
      var earlier := History(steps[..|steps| - 1], t, id);
      if Concerns(last, t, id) && last.out.Logged? then earlier + [last.out.change] else earlier
  }

  /** The store after a run. */
  function StoreAfter(steps: seq<Step>): State {
    if steps == [] then EMPTY
    else
      var last := steps[|steps| - 1];
      if last.out.Logged? then Stored(StoreAfter(steps[..|steps| - 1]), last.out.change)
      else StoreAfter(steps[..|steps| - 1])
  }

  /** Updates and deletions name the state the resource is in. */
  predicate Honest(kind: ChangeType, req: Request, current: Option<Fields>) {
    kind.Update? || kind.Delete? ==> Plain(req.oldState) == Plain(current)
  }

  /** Every request is honest and answered as the tracker answers it; clock readings increase and IDs are fresh. */
  ghost predicate Truthful(steps: seq<Step>) {
    steps == [] ||
    var init, last := steps[..|steps| - 1], steps[|steps| - 1];
    && Truthful(init)
    && Honest(last.kind, last.req, Latest(init, last.req.resourceType, last.req.resourceId))
    && Tracks(last.kind, last.req, last.id, last.at, last.out)
    && forall s :: s in init ==> s.at < last.at && s.id != last.id
  }

  /** Replaying the whole history of a resource gives its state. */
  lemma {:induction false} ReplayIsLatest(steps: seq<Step>, t: string, id: string)
    requires Truthful(steps)
    ensures Alike(Replay(History(steps, t, id)), Latest(steps, t, id))
  {
    if steps != [] {
      var init, last := steps[..|steps| - 1], steps[|steps| - 1];
      ReplayIsLatest(init, t, id);
      if Concerns(last, t, id) {
        var h := History(init, t, id);
        assert last.out.Logged? ==> (h + [last.out.change])[..|h|] == h;
        if last.kind.Update? && last.out.Logged? {
          assert Alike(Replay(h), last.req.oldState) by {
            assert forall f :: View(Latest(init, t, id), f) == View(last.req.oldState, f);
          }
          DiffApplies(Replay(h), last.req.oldState, last.req.newState, last.out.change.fieldDiffs);
        } else if last.kind.Update? {
          assert forall f :: View(Latest(init, t, id), f) == View(last.req.newState, f);
        }
      }
    }
  }

  /** The requests made up to a moment; the zero time stands for no limit. */
  function Before(steps: seq<Step>, at: int): seq<Step> {
    if steps == [] || at == 0 || steps[|steps| - 1].at <= at then steps
    else Before(steps[..|steps| - 1], at)
  }

  ghost predicate Recorded(steps: seq<Step>, c: Change) {
    exists s :: s in steps && s.out == Logged(c) && s.at == c.changedAt
  }

  lemma {:induction false} HistoryMembers(steps: seq<Step>, t: string, id: string)
    requires Truthful(steps)
    ensures forall c :: c in History(steps, t, id) ==> Recorded(steps, c)
  {
    if steps != [] {
      var init, last := steps[..|steps| - 1], steps[|steps| - 1];
      HistoryMembers(init, t, id);
      forall c | c in History(steps, t, id)
        ensures Recorded(steps, c)
      {
        if c in History(init, t, id) {
          var s :| s in init && s.out == Logged(c) && s.at == c.changedAt;
          assert s in steps;
        } else {
          assert last in steps && last.out == Logged(c);
        }
      }
    }
  }

  lemma {:induction false} HistoryChronological(steps: seq<Step>, t: string, id: string)
    requires Truthful(steps)
    ensures Chronological(History(steps, t, id))
  {
    if steps != [] {
      var init, last := steps[..|steps| - 1], steps[|steps| - 1];
      HistoryChronological(init, t, id);
      HistoryMembers(init, t, id);
      var h := History(init, t, id);
      forall c | c in h
        ensures c.changedAt < last.at
      {
        assert Recorded(init, c);
      }
      assert forall i :: 0 <= i < |h| ==> h[i] in h;
    }
  }

  lemma {:induction false} KeptAll(o: Options, h: seq<Change>)
    requires forall c :: c in h ==> Admits(o, c)
    ensures Kept(o, h) == h
  {
    if h != [] {
      KeptAll(o, h[..|h| - 1]);
      assert h == h[..|h| - 1] + [h[|h| - 1]];
    }
  }

  lemma HistoryAllBefore(steps: seq<Step>, t: string, id: string, at: int)
    requires Truthful(steps) && (steps == [] || at == 0 || steps[|steps| - 1].at <= at)
    ensures Kept(UpTo(at), History(steps, t, id)) == History(steps, t, id)
  {
    HistoryMembers(steps, t, id);
    var h := History(steps, t, id);
    forall c | c in h
      ensures Admits(UpTo(at), c)
    {
      assert Recorded(steps, c);
      assert forall s :: s in steps ==> at == 0 || s.at <= at;
    }
    KeptAll(UpTo(at), h);
  }

  lemma {:induction false} TruthfulBefore(steps: seq<Step>, at: int)
    requires Truthful(steps)
    ensures Truthful(Before(steps, at))
  {
    if steps != [] && at != 0 && steps[|steps| - 1].at > at {
      TruthfulBefore(steps[..|steps| - 1], at);
    }
  }

  /** The history up to a moment is the history of the run up to that moment. */
  lemma {:induction false} HistoryBefore(steps: seq<Step>, t: string, id: string, at: int)
    requires Truthful(steps)
    ensures Kept(UpTo(at), History(steps, t, id)) == History(Before(steps, at), t, id)
  {
    if steps == [] || at == 0 || steps[|steps| - 1].at <= at {
      HistoryAllBefore(steps, t, id, at);
    } else {
      var init, last := steps[..|steps| - 1], steps[|steps| - 1];
      HistoryBefore(init, t, id, at);
      if Concerns(last, t, id) && last.out.Logged? {
        KeptAppend(UpTo(at), History(init, t, id), last.out.change);
      }
    }
  }

  // ----- The store behind a run

  /** The IDs used by a run. */
  function Used(steps: seq<Step>): set<string> {
    set s | s in steps :: s.id
  }

  /** No change of another type was recorded under the key of the resource. */
  ghost predicate Unshared(steps: seq<Step>, t: string, id: string) {
    forall s :: s in steps && s.out.Logged? && Key(s.req.resourceType, s.req.resourceId) == Key(t, id) ==>
      s.req.resourceType == t
  }

  /** In particular if the type collides with none of the types used. */
  lemma ApartUnshared(steps: seq<Step>, t: string, id: string)
    requires forall s :: s in steps ==> !Collide(s.req.resourceType, t)
    ensures Unshared(steps, t, id)
  {
    forall s | s in steps && Key(s.req.resourceType, s.req.resourceId) == Key(t, id)
      ensures s.req.resourceType == t
    {
      KeyInjective(s.req.resourceType, s.req.resourceId, t, id);
    }
  }

  lemma {:induction false} StoreIndexed(steps: seq<Step>)
    requires Truthful(steps)
    ensures Indexed(StoreAfter(steps), Used(steps))
  {
    if steps != [] {
      var init, last := steps[..|steps| - 1], steps[|steps| - 1];
      StoreIndexed(init);
      assert steps == init + [last];
      assert Used(steps) == Used(init) + {last.id};
      if last.out.Logged? {
        assert last.out.change.id == last.id;
        StoreKeepsIndexed(StoreAfter(init), Used(init), last.out.change);
      }
    }
  }

  lemma {:induction false} StoreHoldsHistory(steps: seq<Step>)
    requires Truthful(steps)
    ensures forall c: Change :: c.id in StoreAfter(steps).changes && StoreAfter(steps).changes[c.id] == c <==>
                        c in History(steps, c.resourceType, c.resourceId)
  {
    if steps != [] {
      var init, last := steps[..|steps| - 1], steps[|steps| - 1];
      StoreHoldsHistory(init);
      StoreIndexed(init);
      assert last.id !in Used(init);
    }
  }

  ghost predicate WasLogged(steps: seq<Step>, c: Change) {
    exists s :: s in steps && s.out == Logged(c)
  }

  /** The histories of all resources together are the changes recorded. */
  lemma {:induction false} HistoryIffLogged(steps: seq<Step>, c: Change)
    requires Truthful(steps)
    ensures c in History(steps, c.resourceType, c.resourceId) <==> WasLogged(steps, c)
  {
    if steps != [] {
      var init, last := steps[..|steps| - 1], steps[|steps| - 1];
      HistoryIffLogged(init, c);
      assert steps == init + [last];
      assert last.out == Logged(c) ==> Concerns(last, c.resourceType, c.resourceId);
      assert WasLogged(steps, c) <==> WasLogged(init, c) || last.out == Logged(c);
    }
  }

  /** The store holds just the changes that were recorded. */
  lemma StoreHoldsLogged(steps: seq<Step>)
    requires Truthful(steps)
    ensures forall c: Change :: c.id in StoreAfter(steps).changes && StoreAfter(steps).changes[c.id] == c <==>
              WasLogged(steps, c)
  {
    StoreHoldsHistory(steps);
    forall c: Change
      ensures c in History(steps, c.resourceType, c.resourceId) <==> WasLogged(steps, c)
    {
      HistoryIffLogged(steps, c);
    }
  }

  /** A recorded change is about the resource of its request. */
  lemma {:induction false} LoggedResource(steps: seq<Step>, s: Step)
    requires Truthful(steps) && s in steps && s.out.Logged?
    ensures s.out.change.resourceType == s.req.resourceType && s.out.change.resourceId == s.req.resourceId
  {
    var init, last := steps[..|steps| - 1], steps[|steps| - 1];
    if s in init {
      LoggedResource(init, s);
    } else {
      assert s == last;
    }
  }

  lemma {:induction false} HistoryResource(steps: seq<Step>, t: string, id: string, c: Change)
    requires Truthful(steps) && c in History(steps, t, id)
    ensures c.resourceType == t && c.resourceId == id && exists s :: s in steps && Concerns(s, t, id)
  {
    var init, last := steps[..|steps| - 1], steps[|steps| - 1];
    if c in History(init, t, id) {
      HistoryResource(init, t, id, c);
      var s :| s in init && Concerns(s, t, id);
      assert s in steps;
    } else {
      assert last in steps;
    }
  }

  /** A scan of the store for a resource finds its history. */
  lemma ScanIsHistory(steps: seq<Step>, t: string, id: string)
    requires Truthful(steps)
    ensures forall c :: c in ScanResource(StoreAfter(steps).changes, t, id) <==> c in History(steps, t, id)
  {
    StoreIndexed(steps);
    StoreHoldsHistory(steps);
    forall c | c in History(steps, t, id)
      ensures c in ScanResource(StoreAfter(steps).changes, t, id)
    {
      HistoryResource(steps, t, id, c);
    }
  }

  /** What the store's resource index finds is the history of the resource, exactly if no change
      of another type was recorded under its key. */
  lemma LookupIsHistoryIff(steps: seq<Step>, t: string, id: string)
    requires Truthful(steps)
    ensures ListsLooked(StoreAfter(steps), t, id, History(steps, t, id)) <==> Unshared(steps, t, id)
  {
    var s := StoreAfter(steps);
    StoreIndexed(steps);
    StoreHoldsLogged(steps);
    forall i | i in s.changes
      ensures exists e ::
                && e in steps && e.out == Logged(s.changes[i]) && s.changes[i].resourceType == e.req.resourceType
                && KeyOf(s.changes[i]) == Key(e.req.resourceType, e.req.resourceId)
    {
      var e :| e in steps && e.out == Logged(s.changes[i]);
      LoggedResource(steps, e);
    }
    forall e | e in steps && e.out.Logged?
      ensures e.out.change.id in s.changes && s.changes[e.out.change.id] == e.out.change
      ensures KeyOf(e.out.change) == Key(e.req.resourceType, e.req.resourceId)
      ensures e.out.change.resourceType == e.req.resourceType
    {
      LoggedResource(steps, e);
    }
    ResourceLookupIff(s, Used(steps), t, id);
    ScanIsHistory(steps, t, id);
  }

  /** `h` has the changes that the resource index leads to. */
  ghost predicate ListsLooked(s: State, t: string, id: string, h: seq<Change>) {
    forall c :: c in h <==> c in Looked(s.changes, IdsAt(s.byResource, Key(t, id)))
  }

  /** Replay correctness.  If its key is not shared, what the store finds for a resource is its history, which has one
      chronological order, and replaying it up to any moment gives the state the resource was in
      then, up to identifying absent fields with nil. */
  lemma ReplayCorrect(steps: seq<Step>, t: string, id: string, at: int)
    requires Truthful(steps) && Unshared(steps, t, id)
    ensures var s, h := StoreAfter(steps), History(steps, t, id);
            && Chronological(h)
            && ListsLooked(s, t, id, h)
            && var truth := Latest(Before(steps, at), t, id);
               match AnswerAt(h, at)
               case SnapshotNotFound => Alike(None, truth)
               case Snapshot(state) => Alike(state, truth)
  {
    HistoryChronological(steps, t, id);
    LookupIsHistoryIff(steps, t, id);
    TruthfulBefore(steps, at);
    HistoryBefore(steps, t, id, at);
    ReplayIsLatest(Before(steps, at), t, id);
  }

  // ----- Reverting

  function RevertKind(c: Change): ChangeType {
    if c.changeType.Delete? then Create else if c.changeType.Create? then ChangeType.Delete else Update
  }

  function RevertRequest(c: Change, changedBy: string): Request {
    var oldState := if c.changeType.Delete? then None else c.newSnapshot;
    var newState := if c.changeType.Create? then None else c.oldSnapshot;
    Request(c.resourceType, c.resourceId, None, oldState, newState, changedBy)
  }

  /** The last change of a resource tells the state before it and the state since. */
  lemma {:induction false} LastChange(steps: seq<Step>, t: string, id: string)
    requires Truthful(steps) && History(steps, t, id) != []
    ensures var h := History(steps, t, id);
            var c, past := h[|h| - 1], h[..|h| - 1];
            && c.resourceType == t && c.resourceId == id && !c.changeType.Restore?
            && Plain(c.newSnapshot) == Plain(Latest(steps, t, id))
            && (c.changeType.Create? || Alike(c.oldSnapshot, Replay(past)))
            && (c.changeType.Update? ==> Plain(c.oldSnapshot) != Plain(c.newSnapshot))
  {
    var init, last := steps[..|steps| - 1], steps[|steps| - 1];
    if Concerns(last, t, id) && last.out.Logged? {
      var h := History(steps, t, id);
      assert h[..|h| - 1] == History(init, t, id);
      ReplayIsLatest(init, t, id);
      if !last.kind.Create? && !last.kind.Restore? {
        assert forall f :: View(Latest(init, t, id), f) == View(last.req.oldState, f);
      }
    } else {
      LastChange(init, t, id);
    }
  }

  /** Reverting the latest change always records a change, keeps the run truthful, and brings
      back the state before that change, unless it was a creation over a state that already
      held something: that revert deletes, and what the creation overwrote stays lost. */
  lemma RevertRestores(steps: seq<Step>, t: string, id: string, step: Step, changedBy: string, at: int)
    requires Truthful(steps) && History(steps, t, id) != []
    requires forall s :: s in steps ==> s.at < step.at && s.id != step.id
    requires at == 0 || step.at <= at
    requires var h := History(steps, t, id);
             var c := h[|h| - 1];
             && step.kind == RevertKind(c) && step.req == RevertRequest(c, changedBy)
             && Tracks(step.kind, step.req, step.id, step.at, step.out)
    ensures var h := History(steps, t, id);
            var c, past := h[|h| - 1], h[..|h| - 1];
            && step.out.Logged? && Truthful(steps + [step])
            && History(steps + [step], t, id) == h + [step.out.change]
            && AnswerAt(h + [step.out.change], at).Snapshot?
            && (Alike(AnswerAt(h + [step.out.change], at).state, Replay(past)) <==>
                !c.changeType.Create? || Alike(Replay(past), None))
  {
    var h := History(steps, t, id);
    var c, past := h[|h| - 1], h[..|h| - 1];
    LastChange(steps, t, id);
    var run := steps + [step];
    assert run[..|run| - 1] == steps;
    assert Truthful(run);
    var h' := h + [step.out.change];
    assert h'[..|h'| - 1] == h;
    HistoryAllBefore(run, t, id, at);
    ReplayIsLatest(run, t, id);
    assert Latest(run, t, id) == if c.changeType.Create? then None else c.oldSnapshot;
  }

  /** Reverting any recorded update, however old, gives the fields it changed the values they
      had before it and leaves every other field as it is now. */
  lemma RevertUpdateFieldwise(h: seq<Change>, c: Change, r: Change, changedBy: string, id: string, now: int, f: string)
    requires c.changeType.Update? && Records(r, Update, RevertRequest(c, changedBy), id, now)
    ensures View(Replay(h + [r]), f) ==
            if Differs(Plain(c.oldSnapshot), Plain(c.newSnapshot), f) then View(c.oldSnapshot, f)
            else View(Replay(h), f)
  {
    assert (h + [r])[..|h|] == h;
    DiffAppliesAt(Replay(h), c.newSnapshot, c.oldSnapshot, r.fieldDiffs, f);
  }
}

/** The tracker as the source has it. */
module ChangeTracking {
  import opened ChangeStoreModel
  import opened ChangeQuery
  import opened ResourceKeys
  import opened ChangeReplayModel
  import opened ChangeStore
  import opened MapOrder
  import opened Wrappers

  class ChangeTracker {
    const store: MemoryChangeStore

    constructor (store: MemoryChangeStore)
      ensures this.store == store
    {
      this.store := store;
    }

    /** `h` has the changes that the store finds for a resource. */
    ghost predicate ListsResource(h: seq<Change>, resourceType: string, resourceId: string)
      reads store
    {
      ListsLooked(store.Abs(), resourceType, resourceId, h)
    }

    static method GenerateCreateDiffs(state: Option<Fields>) returns (diffs: seq<FieldDiff>)
      ensures IsDiff(diffs, None, state)
    {
      var order := Ordering(Plain(state).Keys);
      diffs := [];
      for i := 0 to |order|
        invariant |diffs| == i
        invariant forall j :: 0 <= j < i ==> diffs[j] == DiffOf(map[], Plain(state), order[j])
      {
        diffs := diffs + [FieldDiff(order[i], Nil, Plain(state)[order[i]], "added")];
      }
      ListedDiff(diffs, order, None, state);
    }

    static method GenerateDeleteDiffs(state: Option<Fields>) returns (diffs: seq<FieldDiff>)
      ensures IsDiff(diffs, state, None)
    {
      var order := Ordering(Plain(state).Keys);
      diffs := [];
      for i := 0 to |order|
        invariant |diffs| == i
        invariant forall j :: 0 <= j < i ==> diffs[j] == DiffOf(Plain(state), map[], order[j])
      {
        diffs := diffs + [FieldDiff(order[i], Plain(state)[order[i]], Nil, "removed")];
      }
      ListedDiff(diffs, order, state, None);
    }

    static lemma ListedDiff(diffs: seq<FieldDiff>, order: seq<string>, before: Option<Fields>, after: Option<Fields>)
      requires |diffs| == |order| && forall j :: 0 <= j < |order| ==>
                 diffs[j] == DiffOf(Plain(before), Plain(after), order[j])
      requires forall i, j :: 0 <= i < j < |order| ==> order[i] != order[j]
      requires forall f :: f in order <==> Differs(Plain(before), Plain(after), f)
      ensures IsDiff(diffs, before, after)
    {
      forall d: FieldDiff |
        Differs(Plain(before), Plain(after), d.field) && d == DiffOf(Plain(before), Plain(after), d.field)
        ensures d in diffs
      {
        var j :| 0 <= j < |order| && order[j] == d.field;
        assert diffs[j] == d;
      }
      forall d | d in diffs
        ensures Differs(Plain(before), Plain(after), d.field) && d == DiffOf(Plain(before), Plain(after), d.field)
      {
        var j :| 0 <= j < |diffs| && diffs[j] == d;
        assert order[j] in order;
      }
    }

    static method Diff(oldState: Option<Fields>, newState: Option<Fields>) returns (diffs: seq<FieldDiff>)
      ensures IsDiff(diffs, oldState, newState)
    {
      if oldState.None? {
        diffs := GenerateCreateDiffs(newState);
        return;
      }
      if newState.None? {
        diffs := GenerateDeleteDiffs(oldState);
        return;
      }
      var before, after := oldState.value, newState.value;
      var order := Ordering(before.Keys + after.Keys);
      diffs := [];
      ghost var listed := [];
      for i := 0 to |order|
        invariant |diffs| == |listed| && forall j :: 0 <= j < |diffs| ==> diffs[j] == DiffOf(before, after, listed[j])
        invariant forall f :: f in listed <==> f in order[..i] && Differs(before, after, f)
        invariant forall j, k :: 0 <= j < k < |listed| ==> listed[j] != listed[k]
      {
        var field := order[i];
        assert field in order && field !in order[..i];
        assert order[..i + 1] == order[..i] + [field];
        if field !in before && field in after {
          diffs := diffs + [FieldDiff(field, Nil, after[field], "added")];
          listed := listed + [field];
        } else if field in before && field !in after {
          diffs := diffs + [FieldDiff(field, before[field], Nil, "removed")];
          listed := listed + [field];
        } else if before[field] != after[field] {
          diffs := diffs + [FieldDiff(field, before[field], after[field], "modified")];
          listed := listed + [field];
        }
      }
      assert order[..|order|] == order;
      ListedDiff(diffs, listed, oldState, newState);
    }

    method TrackCreate(req: Request, id: string, now: int) returns (out: Outcome)
      modifies store
      ensures Tracks(Create, req, id, now, out) && store.Abs() == Stored(old(store.Abs()), out.change)
    {
      var diffs := GenerateCreateDiffs(req.newState);
      var change := Change(id, req.resourceType, req.resourceId, Create, diffs, None, req.newState, req.changedBy, now);
      store.Store(change);
      out := Logged(change);
    }

    method TrackUpdate(req: Request, id: string, now: int) returns (out: Outcome)
      modifies store
      ensures Tracks(Update, req, id, now, out)
      ensures store.Abs() == if out.Logged? then Stored(old(store.Abs()), out.change) else old(store.Abs())
    {
      if req.oldState.None? && req.newState.None? {
        return InvalidChangeType;
      }
      var diffs := Diff(req.oldState, req.newState);
      NoDiffs(req.oldState, req.newState, diffs);
      if |diffs| == 0 {
        return NoChange;
      }
      var change := Change(id, req.resourceType, req.resourceId, Update, diffs, req.oldState, req.newState,
        req.changedBy, now);
      store.Store(change);
      out := Logged(change);
    }

    method TrackDelete(req: Request, id: string, now: int) returns (out: Outcome)
      modifies store
      ensures Tracks(ChangeType.Delete, req, id, now, out) && store.Abs() == Stored(old(store.Abs()), out.change)
    {
      var diffs := GenerateDeleteDiffs(req.oldState);
      var change := Change(id, req.resourceType, req.resourceId, ChangeType.Delete, diffs, req.oldState, None,
        req.changedBy, now);
      store.Store(change);
      out := Logged(change);
    }

    /** A change type outside the four is refused. */
    method Track(req: Request, id: string, now: int) returns (out: Outcome)
      modifies store
      ensures if req.changeType.None? then out == InvalidChangeType else Tracks(req.changeType.value, req, id, now, out)
      ensures store.Abs() == if out.Logged? then Stored(old(store.Abs()), out.change) else old(store.Abs())
    {
      match req.changeType
      case Some(Create) => out := TrackCreate(req, id, now);
      case Some(Update) => out := TrackUpdate(req, id, now);
      case Some(Delete) => out := TrackDelete(req, id, now);
      case Some(Restore) => out := TrackCreate(req, id, now);
      case None => out := InvalidChangeType;
    }

    /** None if the change is unknown. */
    method Revert(changeId: string, changedBy: string, id: string, now: int) returns (out: Option<Outcome>)
      modifies store
      ensures out.None? <==> changeId !in old(store.changes)
      ensures out.Some? ==>
                var c := old(store.changes)[changeId];
                Tracks(RevertKind(c), RevertRequest(c, changedBy), id, now, out.value)
      ensures store.Abs() ==
              if out.Some? && out.value.Logged? then Stored(old(store.Abs()), out.value.change) else old(store.Abs())
    {
      var found := store.Get(changeId);
      if found.None? {
        return None;
      }
      var change := found.value;
      var r;
      if change.changeType == ChangeType.Delete {
        r := TrackCreate(Request(change.resourceType, change.resourceId, None, None, change.oldSnapshot, changedBy),
          id, now);
      } else if change.changeType == Create {
        r := TrackDelete(Request(change.resourceType, change.resourceId, None, change.newSnapshot, None, changedBy),
          id, now);
      } else {
        r := TrackUpdate(
          Request(change.resourceType, change.resourceId, None, change.newSnapshot, change.oldSnapshot, changedBy),
          id, now);
      }
      out := Some(r);
    }

    /** For every list `h` of the resource's changes, oldest first, the answer is that of replaying `h`. */
    method GetChangeAt(resourceType: string, resourceId: string, at: int) returns (r: Found)
      requires forall id :: id in store.changes ==> store.changes[id].id == id
      ensures forall h :: Chronological(h) && ListsResource(h, resourceType, resourceId) ==> r == AnswerAt(h, at)
    {
      var opts := Options(None, 0, at, [], 0, 0, "changed_at", false);
      var changes := store.GetByResource(resourceType, resourceId, Some(opts));
      ghost var all := Looked(store.changes, IdsAt(store.byResource, Key(resourceType, resourceId)));
      ghost var found :| Enumeration(found, all) && Selects(Some(opts), found, changes);
      forall h | Chronological(h) && ListsResource(h, resourceType, resourceId)
        ensures changes == Kept(UpTo(at), h)
      {
        DistinctPermutation(found, h);
        SelectionIsHistory(h, found, changes, at);
      }
      if |changes| == 0 {
        return SnapshotNotFound;
      }
      var state: Option<Fields> := None;
      for i := 0 to |changes|
        invariant state == Replay(changes[..i])
      {
        var change := changes[i];
        assert changes[..i + 1][..i] == changes[..i];
        match change.changeType
        case Create => state := change.newSnapshot;
        case Update =>
          var updated := ApplyDiffs(Plain(state), change.fieldDiffs);
          state := Some(updated);
        case Delete => state := None;
        case Restore => state := change.newSnapshot;
      }
      assert changes[..|changes|] == changes;
      r := Snapshot(state);
    }

    static method ApplyDiffs(state: Fields, diffs: seq<FieldDiff>) returns (r: Fields)
      ensures r == Applied(state, diffs)
    {
      r := state;
      for i := 0 to |diffs|
        invariant r == Applied(state, diffs[..i])
      {
        assert diffs[..i + 1][..i] == diffs[..i];
        r := r[diffs[i].field := diffs[i].newValue];
      }
      assert diffs[..|diffs|] == diffs;
    }
  }
}
