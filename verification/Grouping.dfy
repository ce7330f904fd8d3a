/** Grouping by a key: appending to the entries of a map in a loop, as the query pipeline
    (analytics/engine.go) and the batch processor (inference/batch.go) do. */
module Grouping {

  /** The elements with key `k`, in order. */
  function Select<T, K(==)>(xs: seq<T>, key: T -> K, k: K): seq<T> {
    if xs == [] then []
    else (if key(xs[0]) == k then [xs[0]] else []) + Select(xs[1..], key, k)
  }

  /** The elements with another key than `k`, in order. */
  function Reject<T, K(==)>(xs: seq<T>, key: T -> K, k: K): seq<T> {
    if xs == [] then []
    else (if key(xs[0]) == k then [] else [xs[0]]) + Reject(xs[1..], key, k)
  }

  /** The keys that occur. */
  function KeySet<T(==), K(==)>(xs: seq<T>, key: T -> K): set<K> {
    set x | x in xs :: key(x)
  }

  /** `m` holds under each occurring key exactly the elements with that key. */
  ghost predicate Partitions<T, K(!new)>(xs: seq<T>, key: T -> K, m: map<K, seq<T>>) {
    m.Keys == KeySet(xs, key) && forall k :: k in m ==> m[k] == Select(xs, key, k)
  }

  lemma {:induction false} SelectSnoc<T, K>(xs: seq<T>, x: T, key: T -> K, k: K)
    ensures Select(xs + [x], key, k) == Select(xs, key, k) + (if key(x) == k then [x] else [])
  {
    if xs == [] {
      assert xs + [x] == [x];
    } else {
      SelectSnoc(xs[1..], x, key, k);
      assert (xs + [x])[1..] == xs[1..] + [x];
    }
  }

  lemma {:induction false} SelectMember<T(!new), K>(xs: seq<T>, key: T -> K, k: K)
    ensures forall x :: x in Select(xs, key, k) <==> x in xs && key(x) == k
    ensures forall x :: x in Reject(xs, key, k) <==> x in xs && key(x) != k
  {
    if xs != [] {
      SelectMember(xs[1..], key, k);
    }
  }

  lemma {:induction false} SelectCount<T, K>(xs: seq<T>, key: T -> K, k: K, x: T)
    ensures multiset(Select(xs, key, k))[x] == if key(x) == k then multiset(xs)[x] else 0
  {
    if xs != [] {
      SelectCount(xs[1..], key, k, x);
      assert xs == [xs[0]] + xs[1..];
    }
  }

  lemma {:induction false} SelectNothing<T, K>(xs: seq<T>, key: T -> K, k: K)
    ensures Select(xs, key, k) == [] <==> k !in KeySet(xs, key)
  {
    if xs != [] {
      SelectNothing(xs[1..], key, k);
      assert xs == [xs[0]] + xs[1..];
      assert key(xs[0]) in KeySet(xs, key);
    }
  }

  method GroupBy<T(==), K(==,!new)>(xs: seq<T>, key: T -> K) returns (m: map<K, seq<T>>)
    ensures Partitions(xs, key, m)
  {
    m := map[];
    for i := 0 to |xs|
      invariant Partitions(xs[..i], key, m)
    {
      var x := xs[i];
      ghost var before := xs[..i];
      assert xs[..i + 1] == before + [x];
      forall k
        ensures Select(xs[..i + 1], key, k) == Select(before, key, k) + (if key(x) == k then [x] else [])
      {
        SelectSnoc(before, x, key, k);
      }
      SelectNothing(before, key, key(x));
      m := m[key(x) := (if key(x) in m then m[key(x)] else []) + [x]];
    }
    assert xs[..|xs|] == xs;
  }
}
