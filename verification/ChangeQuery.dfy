/** Filtering, ordering and paging of changes: audit/tracker.go, applyQueryOptions and sortChanges. */
module ChangeQuery {
  import opened ChangeStoreModel
  import opened Sorting
  import opened Wrappers

  /** Time zero stands for Go's zero time, which switches a time filter off. */
  datatype Options = Options(
    changeType: Option<ChangeType>, startTime: int, endTime: int, fields: seq<string>,
    limit: int, offset: int, orderBy: string, descending: bool)

  predicate Admits(o: Options, c: Change) {
    && (o.changeType.Some? ==> c.changeType == o.changeType.value)
    && (o.startTime != 0 ==> o.startTime <= c.changedAt)
    && (o.endTime != 0 ==> c.changedAt <= o.endTime)
    && (o.fields != [] ==> exists i :: 0 <= i < |c.fieldDiffs| && c.fieldDiffs[i].field in o.fields)
  }

  function Kept(o: Options, s: seq<Change>): seq<Change> {
    if s == [] then []
    else
      var kept, last := Kept(o, s[..|s| - 1]), s[|s| - 1];
      if Admits(o, last) then kept + [last] else kept
  }

  lemma KeptAppend(o: Options, s: seq<Change>, c: Change)
    ensures Kept(o, s + [c]) == if Admits(o, c) then Kept(o, s) + [c] else Kept(o, s)
  {
    assert (s + [c])[..|s|] == s;
  }

  lemma {:induction false} KeptMembers(o: Options, s: seq<Change>)
    ensures forall c :: c in Kept(o, s) <==> c in s && Admits(o, c)
  {
    if s != [] {
      KeptMembers(o, s[..|s| - 1]);
      assert s == s[..|s| - 1] + [s[|s| - 1]];
    }
  }

  // ----- Orders

  /** Lexicographic order, as Go compares strings. */
  predicate Below(s: string, t: string) {
    t != [] && (s == [] || s[0] < t[0] || (s[0] == t[0] && Below(s[1..], t[1..])))
  }

  lemma {:induction false} BelowAsymmetric(s: string, t: string)
    ensures !(Below(s, t) && Below(t, s))
  {
    if s != [] && t != [] {
      BelowAsymmetric(s[1..], t[1..]);
    }
  }

  lemma {:induction false} BelowCotransitive(s: string, m: string, t: string)
    ensures Below(s, t) ==> Below(s, m) || Below(m, t)
  {
    if s != [] && m != [] && t != [] {
      BelowCotransitive(s[1..], m[1..], t[1..]);
    }
  }

  function Name(t: ChangeType): string {
    match t
    case Create => "create"
    case Update => "update"
    case Delete => "delete"
    case Restore => "restore"
  }

  predicate Ascends(orderBy: string, x: Change, y: Change) {
    if orderBy == "changed_at" then x.changedAt < y.changedAt
    else if orderBy == "resource_type" then Below(x.resourceType, y.resourceType)
    else if orderBy == "change_type" then Below(Name(x.changeType), Name(y.changeType))
    else false
  }

  function Order(orderBy: string, descending: bool): (Change, Change) -> bool {
    (x, y) => if descending then Ascends(orderBy, y, x) else Ascends(orderBy, x, y)
  }

  lemma OrderIsWeak(orderBy: string, descending: bool)
    ensures StrictWeakOrder(Order(orderBy, descending))
  {
    forall x: Change, y: Change
      ensures !(Ascends(orderBy, x, y) && Ascends(orderBy, y, x))
    {
      BelowAsymmetric(x.resourceType, y.resourceType);
      BelowAsymmetric(Name(x.changeType), Name(y.changeType));
    }
    forall x: Change, y: Change, z: Change
      ensures Ascends(orderBy, x, z) ==> Ascends(orderBy, x, y) || Ascends(orderBy, y, z)
    {
      BelowCotransitive(x.resourceType, y.resourceType, z.resourceType);
      BelowCotransitive(Name(x.changeType), Name(y.changeType), Name(z.changeType));
    }
  }

  /** The order the options ask for; newest first by default. */
  function OrderOf(o: Options): (Change, Change) -> bool {
    if o.orderBy != "" then Order(o.orderBy, o.descending) else Order("changed_at", true)
  }

  // ----- Pages

  /** An offset past the end is ignored. */
  function Page(s: seq<Change>, offset: int, limit: int): seq<Change> {
    var t := if 0 < offset < |s| then s[offset..] else s;
    if 0 < limit < |t| then t[..limit] else t
  }

  /** The page a reader expects: `limit` entries (all, if 0) from `offset` on. */
  function Slice(s: seq<Change>, offset: nat, limit: nat): seq<Change> {
    var t := if offset <= |s| then s[offset..] else [];
    if 0 < limit < |t| then t[..limit] else t
  }

  /** A page is the expected slice exactly when its offset lies inside the list; past the end
      the first page comes back instead of an empty one. */
  lemma PageIsSlice(s: seq<Change>, offset: nat, limit: nat)
    ensures Page(s, offset, limit) == Slice(s, offset, limit) <==> offset < |s| || s == []
  {
  }

  // ----- The query

  /** `r` is what the options select from `s`: a page of the admitted changes in the order asked
      for.  Ties fall in any order, unless nothing is out of order at all. */
  ghost predicate Selects(o: Option<Options>, s: seq<Change>, r: seq<Change>) {
    if o.None? then r == s
    else exists sorted ::
           Arranges(o.value, Kept(o.value, s), sorted) && r == Page(sorted, o.value.offset, o.value.limit)
  }

  ghost predicate Arranges(o: Options, kept: seq<Change>, sorted: seq<Change>) {
    && Sorted(OrderOf(o), sorted)
    && Permutation(sorted, kept)
    && (Sorted(OrderOf(o), kept) ==> sorted == kept)
  }

  method SortChanges(changes: seq<Change>, orderBy: string, descending: bool) returns (r: seq<Change>)
    ensures Sorted(Order(orderBy, descending), r) && Permutation(r, changes)
    ensures Sorted(Order(orderBy, descending), changes) ==> r == changes
  {
    var result := new Change[|changes|](i requires 0 <= i < |changes| => changes[i]);
    assert result[..] == changes;
    OrderIsWeak(orderBy, descending);
    ExchangeSort(result, Order(orderBy, descending));
    r := result[..];
  }

  method ApplyQueryOptions(changes: seq<Change>, opts: Option<Options>) returns (r: seq<Change>)
    ensures Selects(opts, changes, r)
  {
    if opts.None? {
      return changes;
    }
    var o := opts.value;
    r := [];
    for i := 0 to |changes|
      invariant r == Kept(o, changes[..i])
    {
      var change := changes[i];
      KeptAppend(o, changes[..i], change);
      assert changes[..i + 1] == changes[..i] + [change];
      if o.changeType.Some? && change.changeType != o.changeType.value {
        continue;
      }
      if o.startTime != 0 && change.changedAt < o.startTime {
        continue;
      }
      if o.endTime != 0 && o.endTime < change.changedAt {
        continue;
      }
      if o.fields != [] {
        var fieldChanged := false;
        for d := 0 to |change.fieldDiffs|
          invariant fieldChanged <==> exists e :: 0 <= e < d && change.fieldDiffs[e].field in o.fields
        {
          if change.fieldDiffs[d].field in o.fields {
            fieldChanged := true;
            break;
          }
        }
        if !fieldChanged {
          continue;
        }
      }
      r := r + [change];
    }
    assert changes[..|changes|] == changes;
    if o.orderBy != "" {
      r := SortChanges(r, o.orderBy, o.descending);
    } else {
      r := SortChanges(r, "changed_at", true);
    }
    ghost var sorted := r;
    assert Arranges(o, Kept(o, changes), sorted);
    if 0 < o.offset < |r| {
      r := r[o.offset..];
    }
    if 0 < o.limit < |r| {
      r := r[..o.limit];
    }
  }
}
