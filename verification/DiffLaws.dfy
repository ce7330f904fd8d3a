/** What the entries of a diff and the records of a run say about the states before and after: audit/tracker.go. */
module DiffLaws {
  import opened ChangeQuery
  import opened ChangeReplayModel
  import opened ChangeStoreModel
  import opened Wrappers

  // ----- Single entries

  /** The values and the kind of an entry, told from the two states. */
  ghost predicate Tells(d: FieldDiff, before: Fields, after: Fields) {
    && d.oldValue == (if d.field in before then before[d.field] else Nil)
    && d.newValue == (if d.field in after then after[d.field] else Nil)
    && (d.kind == "added" <==> d.field !in before && d.field in after)
    && (d.kind == "removed" <==> d.field in before && d.field !in after)
    && (d.kind == "modified" <==> d.field in before && d.field in after && before[d.field] != after[d.field])
    && d.kind in ["added", "removed", "modified"]
  }

  /** Every entry of a diff tells the old and the new value of its field, and by its kind in which of the states the
      field is. */
  lemma EntriesTell(diffs: seq<FieldDiff>, before: Option<Fields>, after: Option<Fields>, d: FieldDiff)
    requires IsDiff(diffs, before, after) && d in diffs
    ensures Tells(d, Plain(before), Plain(after))
  {
  }

  /** A field has an entry exactly if it is in one state only or has another value in each, and it has one at most. */
  lemma EntryIff(diffs: seq<FieldDiff>, before: Option<Fields>, after: Option<Fields>, f: string)
    requires IsDiff(diffs, before, after)
    ensures var b, a := Plain(before), Plain(after);
            (exists d :: d in diffs && d.field == f) <==>
              (f in b && f !in a) || (f !in b && f in a) || (f in b && f in a && b[f] != a[f])
    ensures forall d, e :: d in diffs && e in diffs && d.field == e.field ==> d == e
  {
    var d := DiffOf(Plain(before), Plain(after), f);
    assert d.field == f;
    assert d in diffs <==> Differs(Plain(before), Plain(after), f);
  }

  // ----- Undoing and redoing, exactly

  /** Takes an entry back: a field that was added goes, any other gets its old value. */
  function Undone(state: Fields, d: FieldDiff): Fields {
    if d.kind == "added" then state - {d.field} else state[d.field := d.oldValue]
  }

  function UndoneAll(state: Fields, diffs: seq<FieldDiff>): Fields {
    if diffs == [] then state else Undone(UndoneAll(state, diffs[..|diffs| - 1]), diffs[|diffs| - 1])
  }

  function Redone(state: Fields, d: FieldDiff): Fields {
    if d.kind == "removed" then state - {d.field} else state[d.field := d.newValue]
  }

  function RedoneAll(state: Fields, diffs: seq<FieldDiff>): Fields {
    if diffs == [] then state else Redone(RedoneAll(state, diffs[..|diffs| - 1]), diffs[|diffs| - 1])
  }

  /** `x` agrees with `goal` on the fields listed and with `start` on the others. */
  ghost predicate Between(x: Fields, start: Fields, goal: Fields, diffs: seq<FieldDiff>) {
    forall f :: (f in x <==> if Listed(diffs, f) then f in goal else f in start) &&
                (f in x ==>
                   x[f] == if Listed(diffs, f) && f in goal then goal[f] else if f in start then start[f] else Nil)
  }

  ghost predicate Listed(diffs: seq<FieldDiff>, f: string) {
    exists i :: 0 <= i < |diffs| && diffs[i].field == f
  }

  lemma ListedSnoc(diffs: seq<FieldDiff>, f: string)
    requires diffs != []
    ensures Listed(diffs, f) <==> Listed(diffs[..|diffs| - 1], f) || diffs[|diffs| - 1].field == f
  {
    var n := |diffs| - 1;
    if Listed(diffs, f) && diffs[n].field != f {
      var i :| 0 <= i < |diffs| && diffs[i].field == f;
      assert diffs[..n][i].field == f;
    }
    if Listed(diffs[..n], f) {
      var i :| 0 <= i < n && diffs[..n][i].field == f;
      assert diffs[i].field == f;
    }
  }

  lemma {:induction false} UndoneBetween(diffs: seq<FieldDiff>, before: Fields, after: Fields)
    requires forall i :: 0 <= i < |diffs| ==> Tells(diffs[i], before, after)
    ensures Between(UndoneAll(after, diffs), after, before, diffs)
  {
    if diffs != [] {
      UndoneBetween(diffs[..|diffs| - 1], before, after);
      forall f
        ensures Listed(diffs, f) <==> Listed(diffs[..|diffs| - 1], f) || diffs[|diffs| - 1].field == f
      {
        ListedSnoc(diffs, f);
      }
    }
  }

  lemma {:induction false} RedoneBetween(diffs: seq<FieldDiff>, before: Fields, after: Fields)
    requires forall i :: 0 <= i < |diffs| ==> Tells(diffs[i], before, after)
    ensures Between(RedoneAll(before, diffs), before, after, diffs)
  {
    if diffs != [] {
      RedoneBetween(diffs[..|diffs| - 1], before, after);
      forall f
        ensures Listed(diffs, f) <==> Listed(diffs[..|diffs| - 1], f) || diffs[|diffs| - 1].field == f
      {
        ListedSnoc(diffs, f);
      }
    }
  }

  lemma UnlistedSame(diffs: seq<FieldDiff>, before: Option<Fields>, after: Option<Fields>, f: string)
    requires IsDiff(diffs, before, after) && !Listed(diffs, f)
    ensures f in Plain(before) <==> f in Plain(after)
    ensures f in Plain(before) ==> Plain(before)[f] == Plain(after)[f]
  {
    EntryIff(diffs, before, after, f);
  }

  lemma AllTell(diffs: seq<FieldDiff>, before: Option<Fields>, after: Option<Fields>)
    requires IsDiff(diffs, before, after)
    ensures forall i :: 0 <= i < |diffs| ==> Tells(diffs[i], Plain(before), Plain(after))
  {
    forall i | 0 <= i < |diffs|
      ensures Tells(diffs[i], Plain(before), Plain(after))
    {
      EntriesTell(diffs, before, after, diffs[i]);
    }
  }

  lemma BetweenIsGoal(x: Fields, start: Fields, goal: Fields, diffs: seq<FieldDiff>)
    requires Between(x, start, goal, diffs)
    requires forall f :: !Listed(diffs, f) ==>
               (f in start <==> f in goal) && (f in start ==> start[f] == goal[f])
    ensures x == goal
  {
    assert forall f :: f in x <==> f in goal;
    assert forall f :: f in goal ==> x[f] == goal[f];
  }

  /** Taking back all entries of a diff, in whatever order they are listed, leads from the later state to the earlier
      one exactly, absent fields included. */
  lemma DiffUndoes(diffs: seq<FieldDiff>, before: Option<Fields>, after: Option<Fields>)
    requires IsDiff(diffs, before, after)
    ensures UndoneAll(Plain(after), diffs) == Plain(before)
  {
    AllTell(diffs, before, after);
    UndoneBetween(diffs, Plain(before), Plain(after));
    forall f | !Listed(diffs, f)
      ensures f in Plain(after) <==> f in Plain(before)
      ensures f in Plain(after) ==> Plain(after)[f] == Plain(before)[f]
    {
      UnlistedSame(diffs, before, after, f);
    }
    BetweenIsGoal(UndoneAll(Plain(after), diffs), Plain(after), Plain(before), diffs);
  }

  /** And carrying them out leads from the earlier to the later. */
  lemma DiffRedoes(diffs: seq<FieldDiff>, before: Option<Fields>, after: Option<Fields>)
    requires IsDiff(diffs, before, after)
    ensures RedoneAll(Plain(before), diffs) == Plain(after)
  {
    AllTell(diffs, before, after);
    RedoneBetween(diffs, Plain(before), Plain(after));
    forall f | !Listed(diffs, f)
      ensures f in Plain(before) <==> f in Plain(after)
      ensures f in Plain(before) ==> Plain(before)[f] == Plain(after)[f]
    {
      UnlistedSame(diffs, before, after, f);
    }
    BetweenIsGoal(RedoneAll(Plain(before), diffs), Plain(before), Plain(after), diffs);
  }

  // ----- Old values alone

  /** Writes the old values, as replay writes the new ones. */
  function Unapplied(state: Fields, diffs: seq<FieldDiff>): Fields {
    if diffs == [] then state
    else
      var d := diffs[|diffs| - 1];
      Unapplied(state, diffs[..|diffs| - 1])[d.field := d.oldValue]
  }

  lemma {:induction false} UnappliedView(state: Fields, diffs: seq<FieldDiff>, before: Fields, after: Fields, f: string)
    requires forall i :: 0 <= i < |diffs| ==> Tells(diffs[i], before, after)
    ensures View(Some(Unapplied(state, diffs)), f)
         == if Listed(diffs, f) then View(Some(before), f) else View(Some(state), f)
  {
    if diffs != [] {
      UnappliedView(state, diffs[..|diffs| - 1], before, after, f);
      ListedSnoc(diffs, f);
    }
  }

  /** The reverse of `DiffApplies`: writing the old values into anything like the later state gives something like the
      earlier one. */
  lemma DiffUnapplies(state: Option<Fields>, before: Option<Fields>, after: Option<Fields>, diffs: seq<FieldDiff>)
    requires IsDiff(diffs, before, after) && Alike(state, after)
    ensures Alike(Some(Unapplied(Plain(state), diffs)), before)
  {
    AllTell(diffs, before, after);
    forall f
      ensures View(Some(Unapplied(Plain(state), diffs)), f) == View(before, f)
    {
      UnappliedView(Plain(state), diffs, Plain(before), Plain(after), f);
      assert View(state, f) == View(after, f);
      if !Listed(diffs, f) {
        UnlistedSame(diffs, before, after, f);
      }
    }
  }

  // ----- Runs

  /** In a run, writing the old values of a resource's last change into its state gives its state before that change,
      exactly if the change is no creation over a state that already held something. */
  lemma LastChangeUndoes(steps: seq<Step>, t: string, id: string)
    requires ChangeReplayModel.Truthful(steps) && History(steps, t, id) != []
    ensures var h := History(steps, t, id);
            var c, past := h[|h| - 1], h[..|h| - 1];
            Alike(Some(Unapplied(Plain(Replay(h)), c.fieldDiffs)), Replay(past)) <==>
              !c.changeType.Create? || Alike(Replay(past), None)
  {
    var h := History(steps, t, id);
    var c, past := h[|h| - 1], h[..|h| - 1];
    LastChange(steps, t, id);
    LastRecord(steps, t, id);
    ReplayIsLatest(steps, t, id);
    assert Alike(Replay(h), c.newSnapshot) by {
      assert forall f :: View(Latest(steps, t, id), f) == View(c.newSnapshot, f);
    }
    DiffUnapplies(Replay(h), c.oldSnapshot, c.newSnapshot, c.fieldDiffs);
    if c.changeType.Create? {
      assert Alike(c.oldSnapshot, None);
    }
  }

  lemma {:induction false} LastRecord(steps: seq<Step>, t: string, id: string)
    requires ChangeReplayModel.Truthful(steps) && History(steps, t, id) != []
    ensures var h := History(steps, t, id);
            var c := h[|h| - 1];
            IsDiff(c.fieldDiffs, c.oldSnapshot, c.newSnapshot) && (c.changeType.Create? ==> c.oldSnapshot.None?)
  {
    var init, last := steps[..|steps| - 1], steps[|steps| - 1];
    if !(Concerns(last, t, id) && last.out.Logged?) {
      LastRecord(init, t, id);
    }
  }

  /** What a recorded change says about its request. */
  ghost predicate SaysWhat(s: Step) {
    s.out.Logged? ==>
      var c := s.out.change;
      && c.id == s.id && c.changedAt == s.at && c.changedBy == s.req.changedBy
      && c.resourceType == s.req.resourceType && c.resourceId == s.req.resourceId
      && (c.changeType.Create? <==> s.kind.Create? || s.kind.Restore?)
      && (c.changeType.Update? <==> s.kind.Update?)
      && (c.changeType.Delete? <==> s.kind.Delete?)
      && c.oldSnapshot == (if s.kind.Create? || s.kind.Restore? then None else s.req.oldState)
      && c.newSnapshot == (if s.kind.Delete? then None else s.req.newState)
  }

  /** Every request of a run but an update that changes nothing is recorded, under its own ID, time, user and resource,
      with the states it named; a restoration is recorded as a creation. */
  lemma {:induction false} RunRecords(steps: seq<Step>, s: Step)
    requires ChangeReplayModel.Truthful(steps) && s in steps
    ensures SaysWhat(s)
    ensures s.out.Logged? <==> !(s.kind.Update? && Plain(s.req.oldState) == Plain(s.req.newState))
    ensures s.out.InvalidChangeType? <==> s.kind.Update? && s.req.oldState.None? && s.req.newState.None?
  {
    var init, last := steps[..|steps| - 1], steps[|steps| - 1];
    if s in init {
      RunRecords(init, s);
    } else {
      assert s == last;
      RecordSays(last);
    }
  }

  lemma RecordSays(s: Step)
    requires Tracks(s.kind, s.req, s.id, s.at, s.out)
    ensures SaysWhat(s)
    ensures s.out.Logged? <==> !(s.kind.Update? && Plain(s.req.oldState) == Plain(s.req.newState))
    ensures s.out.InvalidChangeType? <==> s.kind.Update? && s.req.oldState.None? && s.req.newState.None?
  {
  }

  /** Asked for a moment, there is no snapshot exactly if there is no change up to it; the zero time sets no limit. */
  lemma FoundIff(h: seq<Change>, at: int)
    ensures AnswerAt(h, at).SnapshotNotFound? <==> forall c :: c in h ==> at != 0 && c.changedAt > at
  {
    KeptMembers(UpTo(at), h);
    var past := Kept(UpTo(at), h);
    if past != [] {
      assert past[0] in past;
    }
  }

  // ----- Replays and reversals

  /** What came before a creation, restoration or deletion does not matter: replay starts over from its snapshot, or
      from nothing. */
  lemma {:induction false} ReplayStartsOver(past: seq<Change>, c: Change, later: seq<Change>)
    requires !c.changeType.Update?
    ensures Replay(past + [c] + later) == Replay([c] + later)
    ensures Replay(past + [c]) == if c.changeType.Delete? then None else c.newSnapshot
  {
    var all := past + [c];
    assert all[..|past|] == past;
    if later == [] {
      assert all + later == all && [c] + later == [c];
    } else {
      var init, last := later[..|later| - 1], later[|later| - 1];
      ReplayStartsOver(past, c, init);
      assert (all + later)[..|all| + |init|] == all + init;
      assert ([c] + later)[..1 + |init|] == [c] + init;
    }
  }

  /** The record of a reversal is made by who asked for it and turns the reversed record around; reversing it in turn
      asks for what the first record did. */
  lemma ReverseTwice(c: Change, kind: ChangeType, req: Request, id: string, now: int, u: string, r: Change, v: string,
                     id': string, now': int)
    requires Records(c, kind, req, id, now)
    requires Records(r, RevertKind(c), RevertRequest(c, u), id', now') && !kind.Restore?
    ensures r.changedBy == u && r.resourceType == c.resourceType && r.resourceId == c.resourceId
    ensures r.oldSnapshot == c.newSnapshot && r.newSnapshot == c.oldSnapshot
    ensures RevertKind(r) == kind
    ensures var again := RevertRequest(r, v);
            && again.oldState == c.oldSnapshot && again.newState == c.newSnapshot && again.changedBy == v
            && again.resourceType == c.resourceType && again.resourceId == c.resourceId
  {
  }
}
