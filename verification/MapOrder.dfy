/** Ranging over a Go map: an arbitrary order of its keys. */
module MapOrder {

  /** `ks` lists every member of `all` once: an order in which Go may range over a map with those keys. */
  ghost predicate Enumerates<K(!new)>(ks: seq<K>, all: set<K>) {
    (forall k :: k in ks <==> k in all) && forall i, j :: 0 <= i < j < |ks| ==> ks[i] != ks[j]
  }

  lemma {:induction false} EnumerationSize<K(!new)>(ks: seq<K>, all: set<K>)
    requires Enumerates(ks, all)
    ensures |ks| == |all|
  {
    if ks != [] {
      var n := |ks| - 1;
      assert ks == ks[..n] + [ks[n]];
      EnumerationSize(ks[..n], all - {ks[n]});
    }
  }

  /** Every finite set can be listed. */
  lemma {:induction false} SomeOrder<K(!new)>(all: set<K>) returns (ks: seq<K>)
    ensures Enumerates(ks, all)
  {
    if all == {} {
      return [];
    }
    var k :| k in all;
    var rest := SomeOrder(all - {k});
    ks := rest + [k];
  }

  /** Picks an iteration order. */
  method Ordering<K(==,!new)>(all: set<K>) returns (ks: seq<K>)
    ensures Enumerates(ks, all)
  {
    ks := [];
    var rest := all;
    while rest != {}
      invariant forall k :: k in all <==> k in rest || k in ks
      invariant forall k :: k in ks ==> k !in rest
      invariant forall i, j :: 0 <= i < j < |ks| ==> ks[i] != ks[j]
      decreases rest
    {
      var k :| k in rest;
      ks, rest := ks + [k], rest - {k};
    }
  }
}
