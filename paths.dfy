/** Directed paths of the graph, as both searches follow them: from a vertex,
    each entry of its adjacency list leads to the vertex that the lookup by id
    (ObterVertice) finds for the entry's target id. Vertices are named by their
    position in the vertex list. */
module Paths {
  import opened Header
  import opened Vertices

  /** Entry `k` of vertex `i`'s adjacency list leads to vertex `j`. */
  predicate EdgeLeads(vs: seq<Vertice>, i: nat, k: nat, j: nat)
  {
    i < |vs| && k < |vs[i].adj| && Find(vs, vs[i].adj[k].id) == Some(j)
  }

  /** Some entry of vertex `i`'s adjacency list leads to vertex `j`. */
  ghost predicate Step(vs: seq<Vertice>, i: nat, j: nat)
  {
    exists k :: EdgeLeads(vs, i, k, j)
  }

  /** A non-empty walk of positions along edges. */
  ghost predicate IsPath(vs: seq<Vertice>, p: seq<nat>)
  {
    && |p| >= 1
    && (forall t :: 0 <= t < |p| ==> p[t] < |vs|)
    && (forall t :: 0 <= t < |p| - 1 ==> Step(vs, p[t], p[t + 1]))
  }

  /** No position repeats. */
  ghost predicate Distinct(p: seq<nat>)
  {
    forall t, u :: 0 <= t < u < |p| ==> p[t] != p[u]
  }

  /** The sum of the values of the listed vertices. */
  function SumValores(vs: seq<Vertice>, p: seq<nat>): int
    requires forall t :: 0 <= t < |p| ==> p[t] < |vs|
  {
    if p == [] then 0 else vs[p[0]].valor + SumValores(vs, p[1..])
  }

  lemma {:induction false} SumValoresAppend(vs: seq<Vertice>, a: seq<nat>, b: seq<nat>)
    requires forall t :: 0 <= t < |a| ==> a[t] < |vs|
    requires forall t :: 0 <= t < |b| ==> b[t] < |vs|
    ensures SumValores(vs, a + b) == SumValores(vs, a) + SumValores(vs, b)
  {
    if a == [] {
      assert a + b == b;
    } else {
      assert (a + b)[0] == a[0];
      assert (a + b)[1..] == a[1..] + b;
      SumValoresAppend(vs, a[1..], b);
    }
  }

  /** Prefixing a step to a path gives a path. */
  lemma PrependStep(vs: seq<Vertice>, i: nat, k: nat, p: seq<nat>)
    requires IsPath(vs, p) && EdgeLeads(vs, i, k, p[0])
    ensures IsPath(vs, [i] + p)
    ensures SumValores(vs, [i] + p) == vs[i].valor + SumValores(vs, p)
  {
    var q := [i] + p;
    assert q[1..] == p;
    forall t | 0 <= t < |q| - 1
      ensures Step(vs, q[t], q[t + 1])
    {
      if t == 0 {
        assert EdgeLeads(vs, q[0], k, q[1]);
      } else {
        assert q[t] == p[t - 1] && q[t + 1] == p[t];
      }
    }
  }

  /** Both searches terminate because the set of vertices they may still
      enter shrinks; these two facts about set sizes carry that argument. */
  lemma CardRemove(s: set<int>, x: int)
    requires x in s
    ensures |s - {x}| < |s|
  {
    assert s == (s - {x}) + {x};
  }

  lemma CardSubset(a: set<int>, b: set<int>)
    requires a <= b
    ensures |a| <= |b|
  {
    assert b == a + (b - a);
  }
}
