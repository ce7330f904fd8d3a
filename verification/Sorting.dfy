/** The in-place exchange sort that several of the engines use, each with its own
    comparison: `less(x, y)` means that `x` goes strictly before `y`. */
module Sorting {

  ghost predicate StrictWeakOrder<T(!new)>(less: (T, T) -> bool) {
    && (forall x, y :: less(x, y) ==> !less(y, x))
    && (forall x, y, z {:trigger less(x, y), less(x, z)} :: less(x, z) ==> less(x, y) || less(y, z))
  }

  ghost predicate Sorted<T(!new)>(less: (T, T) -> bool, s: seq<T>) {
    forall i, j :: 0 <= i < j < |s| ==> !less(s[j], s[i])
  }

  ghost predicate Permutation<T>(s: seq<T>, t: seq<T>) {
    multiset(s) == multiset(t)
  }

  lemma PermutationMembers<T>(s: seq<T>, t: seq<T>)
    requires Permutation(s, t)
    ensures |s| == |t| && forall x :: x in s <==> x in t
  {
    assert |multiset(s)| == |multiset(t)|;
    forall x
      ensures x in s <==> x in t
    {
      assert x in s <==> x in multiset(s);
      assert x in t <==> x in multiset(t);
    }
  }

  function Swapped<T>(s: seq<T>, i: nat, j: nat): (r: seq<T>)
    requires i < j < |s|
    ensures Permutation(r, s)
  {
    s[i := s[j]][j := s[i]]
  }

  /** Nothing after a position below `i` goes before it. */
  ghost predicate Settled<T(!new)>(less: (T, T) -> bool, s: seq<T>, i: nat) {
    forall p, q :: 0 <= p < i && p < q < |s| ==> !less(s[q], s[p])
  }

  /** Nothing strictly between positions `i` and `j` goes before position `i`. */
  ghost predicate LeastSoFar<T(!new)>(less: (T, T) -> bool, s: seq<T>, i: nat, j: nat) {
    forall q :: i < q < j && q < |s| ==> !less(s[q], s[i])
  }

  lemma SwapKeeps<T(!new)>(less: (T, T) -> bool, s: seq<T>, i: nat, j: nat)
    requires i < j < |s| && StrictWeakOrder(less) && less(s[j], s[i])
    requires Settled(less, s, i) && LeastSoFar(less, s, i, j)
    ensures Settled(less, Swapped(s, i, j), i) && LeastSoFar(less, Swapped(s, i, j), i, j + 1)
  {
    var r := Swapped(s, i, j);
    forall p, q | 0 <= p < i && p < q < |r|
      ensures !less(r[q], r[p])
    {
      assert r[p] == s[p];
      assert r[q] == if q == i then s[j] else if q == j then s[i] else s[q];
    }
    forall q | i < q < j + 1
      ensures !less(r[q], r[i])
    {
      assert r[i] == s[j] && (q < j ==> r[q] == s[q] && !less(s[q], s[i]));
    }
  }

  method ExchangeSort<T(!new)>(a: array<T>, less: (T, T) -> bool)
    requires StrictWeakOrder(less)
    modifies a
    ensures Sorted(less, a[..]) && Permutation(a[..], old(a[..]))
    ensures Sorted(less, old(a[..])) ==> a[..] == old(a[..])
  {
    for i := 0 to a.Length
      invariant Permutation(a[..], old(a[..])) && Settled(less, a[..], i)
      invariant Sorted(less, old(a[..])) ==> a[..] == old(a[..])
    {
      for j := i + 1 to a.Length
        invariant Permutation(a[..], old(a[..])) && Settled(less, a[..], i) && LeastSoFar(less, a[..], i, j)
        invariant Sorted(less, old(a[..])) ==> a[..] == old(a[..])
      {
        if less(a[j], a[i]) {
          ghost var s := a[..];
          SwapKeeps(less, s, i, j);
          a[i], a[j] := a[j], a[i];
          assert a[..] == Swapped(s, i, j);
        }
      }
    }
  }

  /** Elements that tie under `less` are the same element. */
  ghost predicate TiesEqual<T(!new)>(less: (T, T) -> bool, s: seq<T>) {
    forall x, y :: x in s && y in s && !less(x, y) && !less(y, x) ==> x == y
  }

  lemma SortedHead<T(!new)>(less: (T, T) -> bool, s: seq<T>, t: seq<T>)
    requires StrictWeakOrder(less) && TiesEqual(less, s) && s != [] && t != []
    requires Sorted(less, s) && Sorted(less, t) && forall x :: x in s <==> x in t
    ensures s[0] == t[0]
  {
    assert s[0] in t && t[0] in s;
    var i :| 0 <= i < |t| && t[i] == s[0];
    var j :| 0 <= j < |s| && s[j] == t[0];
    assert i == 0 || !less(t[i], t[0]);
    assert j == 0 || !less(s[j], s[0]);
  }

  lemma PermutationTails<T>(s: seq<T>, t: seq<T>)
    requires Permutation(s, t) && s != [] && t != [] && s[0] == t[0]
    ensures Permutation(s[1..], t[1..]) && forall x :: x in s[1..] ==> x in s
  {
    assert s == [s[0]] + s[1..] && t == [t[0]] + t[1..];
    assert multiset(s[1..]) == multiset(s) - multiset{s[0]};
    assert multiset(t[1..]) == multiset(t) - multiset{t[0]};
  }

  /** Without ties there is only one sorted arrangement. */
  lemma {:induction false} SortedUnique<T(!new)>(less: (T, T) -> bool, s: seq<T>, t: seq<T>)
    requires StrictWeakOrder(less) && TiesEqual(less, s)
    requires Sorted(less, s) && Sorted(less, t) && Permutation(s, t)
    ensures s == t
  {
    PermutationMembers(s, t);
    if s != [] {
      SortedHead(less, s, t);
      PermutationTails(s, t);
      SortedUnique(less, s[1..], t[1..]);
    }
  }
}
