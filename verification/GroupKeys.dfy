/** When two points fall into one group: the keys that analytics/engine.go builds from their fields. */
module GroupKeys {
  import opened Aggregation
  import opened Splitting

  const BAR := '|'

  /** The values of the fields that the point has, in the order of the fields. */
  function Held(groupBy: seq<string>, p: Point): seq<string> {
    if groupBy == [] then []
    else if groupBy[0] in p.metadata then [p.metadata[groupBy[0]]] + Held(groupBy[1..], p)
    else Held(groupBy[1..], p)
  }

  /** The pieces between bars of all the values. */
  function Pieces(values: seq<string>): seq<string> {
    if values == [] then [] else Split(values[0], BAR) + Pieces(values[1..])
  }

  lemma {:induction false} FieldValuesJoin(groupBy: seq<string>, p: Point)
    ensures var held := Held(groupBy, p); FieldValues(groupBy, p) == if held == [] then "" else Join(held, BAR) + "|"
  {
    if groupBy != [] {
      FieldValuesJoin(groupBy[1..], p);
    }
  }

  lemma {:induction false} PiecesOfJoin(values: seq<string>)
    requires values != []
    ensures Pieces(values) == Split(Join(values, BAR), BAR)
  {
    if |values| == 1 {
      assert Pieces(values[1..]) == [];
    } else {
      PiecesOfJoin(values[1..]);
      SplitConcat(Join(values, BAR), values[0], Join(values[1..], BAR), BAR);
    }
  }

  lemma {:induction false} PiecesOfPlain(values: seq<string>)
    requires forall v :: v in values ==> BAR !in v
    ensures Pieces(values) == values
  {
    if values != [] {
      SplitWhole(values[0], BAR);
      PiecesOfPlain(values[1..]);
    }
  }

  /** Two points share a group exactly if their fields' values, split at bars, are the same pieces;
      which field a value is from does not matter. */
  lemma GroupsShareIff(groupBy: seq<string>, p: Point, q: Point)
    ensures GroupKey(groupBy, p) == GroupKey(groupBy, q) <==> Pieces(Held(groupBy, p)) == Pieces(Held(groupBy, q))
  {
    var v, w := Held(groupBy, p), Held(groupBy, q);
    KeyOf(groupBy, p);
    KeyOf(groupBy, q);
    if v != [] && w != [] {
      PiecesOfJoin(v);
      PiecesOfJoin(w);
      JoinSplit(Join(v, BAR), BAR);
      JoinSplit(Join(w, BAR), BAR);
      assert (Join(v, BAR) + "|")[..|Join(v, BAR)|] == Join(v, BAR);
      assert (Join(w, BAR) + "|")[..|Join(w, BAR)|] == Join(w, BAR);
    }
  }

  /** A point without any of the fields is in the group "default", which no other point is in. */
  lemma KeyOf(groupBy: seq<string>, p: Point)
    ensures var held := Held(groupBy, p);
            && GroupKey(groupBy, p) == (if held == [] then "default" else Join(held, BAR) + "|")
            && (held == [] <==> GroupKey(groupBy, p) == "default")
            && (held == [] <==> Pieces(held) == [])
  {
    FieldValuesJoin(groupBy, p);
    var held := Held(groupBy, p);
    if held != [] {
      var key := Join(held, BAR) + "|";
      assert key[|key| - 1] == '|' && "default"[|"default"| - 1] == 't';
    }
  }

  /** Where no value holds a bar, the points share a group exactly if they hold the same values in
      the same order; and if they also have the same fields, exactly if they agree on each. */
  lemma PlainGroupsShareIff(groupBy: seq<string>, p: Point, q: Point)
    requires forall v :: v in Held(groupBy, p) || v in Held(groupBy, q) ==> BAR !in v
    ensures GroupKey(groupBy, p) == GroupKey(groupBy, q) <==> Held(groupBy, p) == Held(groupBy, q)
    ensures (forall f :: f in groupBy ==> (f in p.metadata <==> f in q.metadata)) ==>
              (GroupKey(groupBy, p) == GroupKey(groupBy, q) <==>
                 forall f :: f in groupBy && f in p.metadata ==> p.metadata[f] == q.metadata[f])
  {
    GroupsShareIff(groupBy, p, q);
    PiecesOfPlain(Held(groupBy, p));
    PiecesOfPlain(Held(groupBy, q));
    if forall f :: f in groupBy ==> (f in p.metadata <==> f in q.metadata) {
      HeldSame(groupBy, p, q);
    }
  }

  lemma {:induction false} HeldSame(groupBy: seq<string>, p: Point, q: Point)
    requires forall f :: f in groupBy ==> (f in p.metadata <==> f in q.metadata)
    ensures Held(groupBy, p) == Held(groupBy, q) <==>
              forall f :: f in groupBy && f in p.metadata ==> p.metadata[f] == q.metadata[f]
  {
    if groupBy != [] {
      var first, rest := groupBy[0], groupBy[1..];
      HeldSame(rest, p, q);
      assert forall f :: f in groupBy <==> f == first || f in rest;
      if first in p.metadata {
        assert Held(groupBy, p)[0] == p.metadata[first] && Held(groupBy, p)[1..] == Held(rest, p);
        assert Held(groupBy, q)[0] == q.metadata[first] && Held(groupBy, q)[1..] == Held(rest, q);
      }
    }
  }

  /** A value of one field and the same value of another make one group. */
  lemma MissingFieldsShare(a: string, b: string, x: string, p: Point, q: Point)
    requires a != b && p.metadata == map[a := x] && q.metadata == map[b := x]
    ensures GroupKey([a, b], p) == GroupKey([a, b], q)
  {
    assert Held([a, b], p) == [x] by {
      assert [a, b][1..] == [b] && Held([b], p) == [];
    }
    assert Held([a, b], q) == [x] by {
      assert [a, b][1..] == [b] && Held([b], q) == [x];
    }
    GroupsShareIff([a, b], p, q);
  }
}
