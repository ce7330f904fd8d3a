/** Folding the parts of a partition: sums, minima and maxima of parts, of which the query
    pipeline (analytics/engine.go) takes sums, minima and maxima again. */
module PartFolds {
  import opened Grouping
  import opened MapOrder
  import opened Statistics
  import opened Wrappers

  function Mapped<T>(xs: seq<T>, val: T -> real): (r: seq<real>)
    ensures |r| == |xs| && forall i :: 0 <= i < |r| ==> r[i] == val(xs[i])
  {
    seq(|xs|, i requires 0 <= i < |xs| => val(xs[i]))
  }

  lemma MergeLaws(kind: Kind, x: Option<real>, y: Option<real>, z: Option<real>)
    ensures Merge(kind, x, y) == Merge(kind, y, x)
    ensures Merge(kind, Merge(kind, x, y), z) == Merge(kind, x, Merge(kind, y, z))
  {
  }

  /** A value merged into either of two parts is merged into the whole. */
  lemma MergePush(kind: Kind, a: Option<real>, s: Option<real>, r: Option<real>)
    ensures Merge(kind, Merge(kind, a, s), r) == Merge(kind, a, Merge(kind, s, r))
    ensures Merge(kind, s, Merge(kind, a, r)) == Merge(kind, a, Merge(kind, s, r))
  {
    MergeLaws(kind, a, s, r);
    MergeLaws(kind, s, a, r);
  }

  lemma FoldedCons<T>(kind: Kind, x: T, xs: seq<T>, val: T -> real)
    ensures Folded(kind, Mapped([x] + xs, val)) == Merge(kind, Some(val(x)), Folded(kind, Mapped(xs, val)))
  {
    assert Mapped([x] + xs, val)[1..] == Mapped(xs, val);
  }

  /** Folding everything is folding one part and the rest, and merging. */
  lemma {:induction false} FoldSplits<T(!new), K(!new)>(kind: Kind, xs: seq<T>, val: T -> real, key: T -> K, k: K)
    ensures Folded(kind, Mapped(xs, val)) == Merge(kind, Folded(kind, Mapped(Select(xs, key, k), val)),
                                                         Folded(kind, Mapped(Reject(xs, key, k), val)))
    ensures |xs| == |Select(xs, key, k)| + |Reject(xs, key, k)|
  {
    if xs != [] {
      var x, rest := xs[0], xs[1..];
      var s, r := Select(rest, key, k), Reject(rest, key, k);
      FoldSplits(kind, rest, val, key, k);
      assert xs == [x] + rest;
      FoldedCons(kind, x, rest, val);
      MergePush(kind, Some(val(x)), Folded(kind, Mapped(s, val)), Folded(kind, Mapped(r, val)));
      if key(x) == k {
        assert Select(xs, key, k) == [x] + s && Reject(xs, key, k) == r;
        FoldedCons(kind, x, s, val);
      } else {
        assert Select(xs, key, k) == s && Reject(xs, key, k) == [x] + r;
        FoldedCons(kind, x, r, val);
      }
    }
  }

  lemma {:induction false} SelectOfReject<T(!new), K(!new)>(xs: seq<T>, key: T -> K, k: K, k1: K)
    requires k != k1
    ensures Select(Reject(xs, key, k), key, k1) == Select(xs, key, k1)
  {
    if xs != [] {
      SelectOfReject(xs[1..], key, k, k1);
      var r := Reject(xs[1..], key, k);
      assert ([xs[0]] + r)[1..] == r;
      assert [] + r == r;
    }
  }

  /** One folded value per part. */
  function PartValues<T(!new), K(==,!new)>(kind: Kind, xs: seq<T>, val: T -> real, key: T -> K, ks: seq<K>)
    : (r: seq<real>)
    ensures |r| == |ks|
    ensures forall i :: 0 <= i < |ks| ==> r[i] == Total(kind, Mapped(Select(xs, key, ks[i]), val))
  {
    seq(|ks|, i requires 0 <= i < |ks| => Total(kind, Mapped(Select(xs, key, ks[i]), val)))
  }

  function PartSizes<T(!new), K(==,!new)>(xs: seq<T>, key: T -> K, ks: seq<K>): nat {
    if ks == [] then 0 else |Select(xs, key, ks[0])| + PartSizes(xs, key, ks[1..])
  }

  /** Without the elements of the first listed key, the rest of the list still does. */
  lemma RestOfKeys<T(!new), K(!new)>(ks: seq<K>, xs: seq<T>, key: T -> K)
    requires ks != [] && Enumerates(ks, KeySet(xs, key))
    ensures Enumerates(ks[1..], KeySet(Reject(xs, key, ks[0]), key))
    ensures forall i :: 0 < i < |ks| ==> Select(Reject(xs, key, ks[0]), key, ks[i]) == Select(xs, key, ks[i])
  {
    var rest := Reject(xs, key, ks[0]);
    SelectMember(xs, key, ks[0]);
    assert ks == [ks[0]] + ks[1..] && ks[0] !in ks[1..];
    forall k
      ensures k in ks[1..] <==> k in KeySet(rest, key)
    {
      if k in ks[1..] {
        assert k in ks;
        var x :| x in xs && key(x) == k;
        assert x in rest;
      }
      if k in KeySet(rest, key) {
        assert k in ks;
      }
    }
    forall i | 0 < i < |ks|
      ensures Select(rest, key, ks[i]) == Select(xs, key, ks[i])
    {
      SelectOfReject(xs, key, ks[0], ks[i]);
    }
  }

  lemma FirstKeyOccurs<T(!new), K(!new)>(xs: seq<T>, key: T -> K)
    ensures xs != [] ==> key(xs[0]) in KeySet(xs, key)
  {
  }

  /** Folding the parts and then folding the results folds everything, in whatever
      order the parts are met; and the parts hold every element once. */
  lemma {:induction false} PartitionFold<T(!new), K(!new)>(kind: Kind, xs: seq<T>, val: T -> real, key: T -> K,
                                                           ks: seq<K>)
    requires Enumerates(ks, KeySet(xs, key))
    ensures Folded(kind, PartValues(kind, xs, val, key, ks)) == Folded(kind, Mapped(xs, val))
    ensures PartSizes(xs, key, ks) == |xs|
    decreases |ks|
  {
    if ks == [] {
      FirstKeyOccurs(xs, key);
    } else {
      var rest := Reject(xs, key, ks[0]);
      RestOfKeys(ks, xs, key);
      FoldSplits(kind, xs, val, key, ks[0]);
      SelectNothing(xs, key, ks[0]);
      PartitionFold(kind, rest, val, key, ks[1..]);
      assert PartValues(kind, xs, val, key, ks)[1..] == PartValues(kind, rest, val, key, ks[1..]);
      SizesOfReject(xs, rest, key, ks[1..]);
    }
  }

  lemma {:induction false} SizesOfReject<T(!new), K(!new)>(xs: seq<T>, rest: seq<T>, key: T -> K, ks: seq<K>)
    requires forall i :: 0 <= i < |ks| ==> Select(rest, key, ks[i]) == Select(xs, key, ks[i])
    ensures PartSizes(xs, key, ks) == PartSizes(rest, key, ks)
  {
    if ks != [] {
      SizesOfReject(xs, rest, key, ks[1..]);
    }
  }
}
