/** Directed graphs given by adjacency lists.  A listed successor need not be a
    node of the graph itself: role parents and permission dependencies can dangle. */
module Graph {

  type Graph = map<string, seq<string>>

  ghost predicate Edge(g: Graph, a: string, b: string) {
    a in g && b in g[a]
  }

  /** Consecutive elements of `p` are joined by edges of `g`. */
  ghost predicate IsPath(g: Graph, p: seq<string>) {
    && |p| >= 1
    && forall i, j :: 0 <= i < j < |p| && j == i + 1 ==> Edge(g, p[i], p[j])
  }

  /** `p` is a path of `g` from `a` to `b`; it has `|p| - 1` edges. */
  ghost predicate Joins(g: Graph, p: seq<string>, a: string, b: string) {
    IsPath(g, p) && p[0] == a && p[|p| - 1] == b
  }

  ghost predicate Reaches(g: Graph, a: string, b: string) {
    exists p :: Joins(g, p, a, b)
  }

  ghost predicate ReachesWithin(g: Graph, a: string, b: string, k: int) {
    exists p :: Joins(g, p, a, b) && |p| - 1 <= k
  }

  lemma JoinsWithin(g: Graph, p: seq<string>, a: string, b: string, k: int)
    requires Joins(g, p, a, b) && |p| - 1 <= k
    ensures ReachesWithin(g, a, b, k)
  {
  }

  /** No path with at least one edge returns to where it started. */
  ghost predicate Acyclic(g: Graph) {
    forall p :: IsPath(g, p) && |p| >= 2 ==> p[0] != p[|p| - 1]
  }

  /** `s` contains every successor of each of its members that is a node. */
  ghost predicate Closed(g: Graph, s: set<string>) {
    forall x, y :: x in s && x in g && y in g[x] ==> y in s
  }

  lemma PathCons(g: Graph, a: string, p: seq<string>)
    requires IsPath(g, p) && Edge(g, a, p[0])
    ensures IsPath(g, [a] + p)
  {
    var q := [a] + p;
    forall i, j | 0 <= i < j < |q| && j == i + 1
      ensures Edge(g, q[i], q[j])
    {
      if i > 0 {
        assert q[i] == p[i - 1] && q[j] == p[i];
      }
    }
  }

  lemma PathTail(g: Graph, p: seq<string>)
    requires IsPath(g, p) && |p| >= 2
    ensures IsPath(g, p[1..]) && Edge(g, p[0], p[1])
  {
    var q := p[1..];
    forall i, j | 0 <= i < j < |q| && j == i + 1
      ensures Edge(g, q[i], q[j])
    {
      assert q[i] == p[i + 1] && q[j] == p[j + 1];
    }
  }

  lemma PathConcat(g: Graph, p: seq<string>, b: string, q: seq<string>)
    requires IsPath(g, p) && p[|p| - 1] == b && IsPath(g, [b] + q)
    ensures IsPath(g, p + q)
  {
    var r := p + q;
    forall i, j | 0 <= i < j < |r| && j == i + 1
      ensures Edge(g, r[i], r[j])
    {
      if j < |p| {
        assert Edge(g, p[i], p[j]);
      } else {
        var k := i - (|p| - 1);
        assert Edge(g, ([b] + q)[k], ([b] + q)[k + 1]);
      }
    }
  }

  lemma PathSlice(g: Graph, p: seq<string>, lo: nat, hi: nat)
    requires IsPath(g, p) && lo < hi <= |p|
    ensures IsPath(g, p[lo..hi])
  {
    var r := p[lo..hi];
    forall i, j | 0 <= i < j < |r| && j == i + 1
      ensures Edge(g, r[i], r[j])
    {
      assert Edge(g, p[lo + i], p[lo + j]);
    }
  }

  ghost predicate Distinct(p: seq<string>) {
    forall i, j :: 0 <= i < j < |p| ==> p[i] != p[j]
  }

  /** Paths of an acyclic graph repeat no node. */
  lemma AcyclicDistinct(g: Graph, p: seq<string>)
    requires Acyclic(g) && IsPath(g, p)
    ensures Distinct(p)
  {
    forall i, j | 0 <= i < j < |p|
      ensures p[i] != p[j]
    {
      PathSlice(g, p, i, j + 1);
    }
  }

  /** A path that enters a closed set never leaves it. */
  lemma {:induction false} PathStaysInside(g: Graph, s: set<string>, p: seq<string>, lo: nat, hi: nat)
    requires IsPath(g, p) && Closed(g, s)
    requires lo <= hi < |p| && p[lo] in s
    ensures p[hi] in s
    decreases hi
  {
    if lo < hi {
      PathStaysInside(g, s, p, lo, hi - 1);
      assert Edge(g, p[hi - 1], p[hi]);
    }
  }

  /** Two graphs with the same edges out of every node of `p` have `p` in common. */
  lemma PathTransfers(g: Graph, h: Graph, p: seq<string>)
    requires IsPath(g, p)
    requires forall x :: x in p && x in g ==> x in h && h[x] == g[x]
    ensures IsPath(h, p)
  {
    forall i, j | 0 <= i < j < |p| && j == i + 1
      ensures Edge(h, p[i], p[j])
    {
      assert Edge(g, p[i], p[j]) && p[i] in p;
    }
  }

  lemma EdgelessAcyclic(g: Graph)
    requires g == map[]
    ensures Acyclic(g)
  {
    forall p: seq<string> | |p| >= 2
      ensures !IsPath(g, p)
    {
      assert !Edge(g, p[0], p[1]);
    }
  }

  /** Removing nodes (with their outgoing edges) keeps a graph acyclic. */
  lemma SubgraphAcyclic(g: Graph, h: Graph)
    requires Acyclic(g)
    requires forall x :: x in h ==> x in g && h[x] == g[x]
    ensures Acyclic(h)
  {
    forall p | IsPath(h, p) && |p| >= 2
      ensures p[0] != p[|p| - 1]
    {
      forall i, j | 0 <= i < j < |p| && j == i + 1
        ensures Edge(g, p[i], p[j])
      {
        assert Edge(h, p[i], p[j]);
      }
      assert IsPath(g, p);
    }
  }

  /** Giving `a` the successors `out` keeps the graph acyclic when some closed set
      holds all of `out` but not `a`. */
  lemma InsertAcyclic(g: Graph, a: string, out: seq<string>, s: set<string>)
    requires Acyclic(g)
    requires a !in s && (forall y :: y in out ==> y in s) && Closed(g, s)
    ensures Acyclic(g[a := out])
  {
    var h := g[a := out];
    assert Closed(h, s);
    forall p | IsPath(h, p) && |p| >= 2
      ensures p[0] != p[|p| - 1]
    {
      if a !in p {
        PathTransfers(h, g, p);
      } else if p[0] == p[|p| - 1] {
        var j :| 0 <= j < |p| && p[j] == a;
        if j == |p| - 1 { j := 0; }
        assert Edge(h, p[j], p[j + 1]);
        PathStaysInside(h, s, p, j + 1, |p| - 1);
        PathStaysInside(h, s, p, 0, j);
        assert false;
      }
    }
  }
}
