/** The maximum-sum path search (soma.c): a backtracking depth-first search
    from every vertex that flags the vertices of the current path through
    their `visitado` field, passes the path's sum by value, and keeps in a
    result record the best sum seen (strictly greater replaces) together with
    the vertex that ended that path. `MaxSearch`/`MaxEdges`/`Sweep` are the
    recursion and the outer loop written as functions; the methods are proved
    equal to them. */
module Soma {
  import opened Header
  import opened Vertices
  import opened Paths
  import opened Grafos

  /** The best sum so far and the vertex (by position) that ended its path;
      None while no path has beaten the initial sum. */
  datatype Best = Best(soma: int, caminho: Option<nat>)

  /** Resultado: the best sum, the vertex ending its path and the graph
      searched. */
  class Resultado {
    var soma: int
    var caminho: Option<nat>
    const grafo: Grafo

    constructor (soma0: int, caminho0: Option<nat>, g: Grafo)
      ensures soma == soma0 && caminho == caminho0 && grafo == g
    {
      soma := soma0;
      caminho := caminho0;
      grafo := g;
    }

    /** The pair the search compares and updates. */
    function Atual(): Best
      reads this
    {
      Best(soma, caminho)
    }
  }

  /** The record after offering it a path ending at `caminho` with sum `s`:
      replaced only by a strictly greater sum, so ties keep the earlier path. */
  function Atualizar(b: Best, s: int, caminho: Option<nat>): (r: Best)
    ensures r.soma >= b.soma && r.soma >= s
    ensures s > b.soma ==> r == Best(s, caminho)
    ensures s <= b.soma ==> r == b
  {
    if s > b.soma then Best(s, caminho) else b
  }

  /** AtualizarResultado: -1 for a NULL record, otherwise 0 after offering it
      the path. */
  method AtualizarResultado(res: Resultado?, somaAtual: int, caminhoAtual: Option<nat>) returns (code: int)
    modifies res
    ensures res == null ==> code == -1
    ensures res != null ==> code == 0 && res.Atual() == Atualizar(old(res.Atual()), somaAtual, caminhoAtual)
  {
    if res == null {
      return -1;
    }
    if somaAtual > res.soma {
      res.soma := somaAtual;
      res.caminho := caminhoAtual;
    }
    return 0;
  }

  /** The list with vertex `i`'s flag set to `f`, everything else as it was. */
  function Mark(gs: seq<Vertice>, i: nat, f: bool): (r: seq<Vertice>)
    requires i < |gs|
    ensures |r| == |gs| && r[i].visitado == f
  {
    gs[i := gs[i].(visitado := f)]
  }

  /** Positions of vertices whose flag is clear. */
  function Unflagged(gs: seq<Vertice>): set<int>
  {
    set i | 0 <= i < |gs| && !gs[i].visitado
  }

  lemma UnflaggedMark(gs: seq<Vertice>, i: nat)
    requires i < |gs|
    ensures Unflagged(Mark(gs, i, true)) == Unflagged(gs) - {i}
  {
  }

  /** BuscarCaminhoMaximo as a function, on the list `gs` as it is when the
      search enters vertex `vi` with the path sum `s` so far: flag `vi`, add its
      value, offer the path to the record, try every edge in list order, and
      (in the method) clear the flag again. */
  function MaxSearch(gs: seq<Vertice>, vi: nat, s: int, b: Best): (r: Best)
    requires vi < |gs|
    ensures r.soma >= b.soma && (r.soma == b.soma ==> r == b)
    decreases |Unflagged(gs) - {vi}|, 1, 0
  {
    var s1 := s + gs[vi].valor;
    UnflaggedMark(gs, vi);
    MaxEdges(Mark(gs, vi, true), vi, s1, 0, Atualizar(b, s1, Some(vi)))
  }

  /** The loop over vertex `vi`'s edges from position `k` on: an edge is
      followed when its target id is in the graph and that vertex is not
      flagged; every child starts from the same sum `s`. */
  function MaxEdges(gs: seq<Vertice>, vi: nat, s: int, k: nat, b: Best): (r: Best)
    requires vi < |gs| && k <= |gs[vi].adj|
    ensures r.soma >= b.soma && (r.soma == b.soma ==> r == b)
    decreases |Unflagged(gs)|, 0, |gs[vi].adj| - k
  {
    if k == |gs[vi].adj| then b
    else
      var w := Find(gs, gs[vi].adj[k].id);
      if w.Some? && !gs[w.value].visitado then
        CardRemove(Unflagged(gs), w.value);
        MaxEdges(gs, vi, s, k + 1, MaxSearch(gs, w.value, s, b))
      else MaxEdges(gs, vi, s, k + 1, b)
  }

  /** The list with the flags of positions below `i` cleared. */
  function ClearedUpTo(gs: seq<Vertice>, i: nat): (r: seq<Vertice>)
    ensures |r| == |gs|
    ensures forall j :: 0 <= j < |gs| ==> r[j] == if j < i then gs[j].(visitado := false) else gs[j]
  {
    seq(|gs|, j requires 0 <= j < |gs| => if j < i then gs[j].(visitado := false) else gs[j])
  }

  /** CaminhoSomaMaxima's loop from vertex position `i` on: a search from each
      vertex in list order, each one leaving that vertex's flag cleared. */
  function Sweep(gs: seq<Vertice>, i: nat, b: Best): (r: Best)
    requires i <= |gs|
    ensures r.soma >= b.soma && (r.soma == b.soma ==> r == b)
    decreases |gs| - i
  {
    if i == |gs| then b
    else Sweep(Mark(gs, i, false), i + 1, MaxSearch(gs, i, 0, b))
  }

  lemma MarkSame(gs: seq<Vertice>, i: nat)
    requires i < |gs|
    ensures Mark(gs, i, gs[i].visitado) == gs
  {
  }

  lemma MarkTwice(gs: seq<Vertice>, i: nat, f: bool, h: bool)
    requires i < |gs|
    ensures Mark(Mark(gs, i, f), i, h) == Mark(gs, i, h)
  {
  }

  /** One step of MaxSearch and of the edge loop, as the method takes them. */
  lemma MaxSearchUnfold(gs: seq<Vertice>, vi: nat, s: int, b: Best)
    requires vi < |gs|
    ensures var s1 := s + gs[vi].valor;
      MaxSearch(gs, vi, s, b) == MaxEdges(Mark(gs, vi, true), vi, s1, 0, Atualizar(b, s1, Some(vi)))
  {
  }

  lemma MaxEdgesFollow(gs: seq<Vertice>, vi: nat, s: int, k: nat, b: Best, w: nat)
    requires vi < |gs| && k < |gs[vi].adj|
    requires Find(gs, gs[vi].adj[k].id) == Some(w) && !gs[w].visitado
    ensures MaxEdges(gs, vi, s, k, b) == MaxEdges(gs, vi, s, k + 1, MaxSearch(gs, w, s, b))
  {
  }

  lemma MaxEdgesSkip(gs: seq<Vertice>, vi: nat, s: int, k: nat, b: Best)
    requires vi < |gs| && k < |gs[vi].adj|
    requires var w := Find(gs, gs[vi].adj[k].id); w.None? || gs[w.value].visitado
    ensures MaxEdges(gs, vi, s, k, b) == MaxEdges(gs, vi, s, k + 1, b)
  {
  }

  /** Entering an unflagged vertex from a flagged one leaves fewer vertices to
      enter. */
  lemma RankDecreases(gs: seq<Vertice>, i: nat, w: nat)
    requires i < |gs| && w < |gs| && w != i && !gs[w].visitado
    ensures |Unflagged(Mark(gs, i, true)) - {w}| < |Unflagged(gs) - {i}|
  {
    UnflaggedMark(gs, i);
    CardRemove(Unflagged(gs) - {i}, w);
  }

  /** BuscarCaminhoMaximo: -1 for a NULL vertex; otherwise the search from
      vertex `v` of the record's graph, which leaves the record as MaxSearch
      says and the vertex list as it was except that `v` is unflagged. */
  method BuscarCaminhoMaximo(v: Option<nat>, somaAtual: int, res: Resultado) returns (code: int)
    requires v.Some? ==> v.value < |res.grafo.verts|
    modifies res, res.grafo`verts
    ensures v.None? ==> code == -1 && res.Atual() == old(res.Atual()) && res.grafo.verts == old(res.grafo.verts)
    ensures v.Some? ==> (code == 0
      && res.grafo.verts == Mark(old(res.grafo.verts), v.value, false)
      && res.Atual() == MaxSearch(old(res.grafo.verts), v.value, somaAtual, old(res.Atual())))
    decreases if v.Some? && v.value < |res.grafo.verts| then |Unflagged(res.grafo.verts) - {v.value}| else 0
  {
    if v.None? {
      return -1;
    }
    var i := v.value;
    ghost var g0, b0 := res.grafo.verts, res.Atual();
    MaxSearchUnfold(g0, i, somaAtual, b0);
    res.grafo.verts := res.grafo.verts[i := res.grafo.verts[i].(visitado := true)];
    ghost var g1 := res.grafo.verts;
    assert g1 == Mark(g0, i, true);
    var soma := somaAtual + res.grafo.verts[i].valor;
    var _ := AtualizarResultado(res, soma, Some(i));
    ghost var r0 := MaxEdges(g1, i, soma, 0, res.Atual());
    var adj := res.grafo.verts[i].adj;
    var k := 0;
    while k < |adj|
      invariant 0 <= k <= |adj| && adj == g1[i].adj
      invariant res.grafo.verts == g1
      invariant MaxEdges(g1, i, soma, k, res.Atual()) == r0
      decreases |adj| - k
    {
      ghost var cur := res.Atual();
      var w := OndeEstaVerticeGrafo(res.grafo, adj[k].id);
      assert res.grafo.verts == g1 && res.Atual() == cur;
      assert w == Find(g1, g1[i].adj[k].id);
      ghost var next := cur;
      if w.Some? && !res.grafo.verts[w.value].visitado {
        RankDecreases(g0, i, w.value);
        var _ := BuscarCaminhoMaximo(w, soma, res);
        MarkSame(g1, w.value);
        next := MaxSearch(g1, w.value, soma, cur);
        MaxEdgesFollow(g1, i, soma, k, cur, w.value);
      } else {
        MaxEdgesSkip(g1, i, soma, k, cur);
      }
      assert res.grafo.verts == g1 && res.Atual() == next;
      assert MaxEdges(g1, i, soma, k + 1, next) == r0;
      k := k + 1;
    }
    assert res.Atual() == r0;
    res.grafo.verts := res.grafo.verts[i := res.grafo.verts[i].(visitado := false)];
    MarkTwice(g0, i, true, false);
    assert res.grafo.verts == Mark(g0, i, false);
    return 0;
  }

  /** CaminhoSomaMaxima: a record starting at sum 0 and no vertex, then a
      search from every vertex in list order. The graph is not NULL (the C
      code dereferences it). */
  method CaminhoSomaMaxima(g: Grafo) returns (res: Resultado)
    modifies g`verts
    ensures fresh(res) && res.grafo == g
    ensures res.Atual() == Sweep(old(g.verts), 0, Best(0, None))
    ensures g.verts == ClearedUpTo(old(g.verts), |old(g.verts)|)
  {
    res := new Resultado(0, None, g);
    ghost var g0 := g.verts;
    assert ClearedUpTo(g0, 0) == g0;
    var v := 0;
    while v < |g.verts|
      invariant 0 <= v <= |g.verts| == |g0|
      invariant res.grafo == g
      invariant g.verts == ClearedUpTo(g0, v)
      invariant Sweep(g.verts, v, res.Atual()) == Sweep(g0, 0, Best(0, None))
      decreases |g.verts| - v
    {
      var _ := BuscarCaminhoMaximo(Some(v), 0, res);
      assert Mark(ClearedUpTo(g0, v), v, false) == ClearedUpTo(g0, v + 1);
      v := v + 1;
    }
  }

  // ---------------------------------------------------------------------
  // What the search finds. The flags only steer the search: the edge
  // relation, paths and their sums depend on ids, values and adjacency
  // lists alone.

  lemma MarkKeeps(gs: seq<Vertice>, i: nat, f: bool)
    requires i < |gs|
    ensures forall j :: 0 <= j < |gs| ==>
      Mark(gs, i, f)[j].id == gs[j].id && Mark(gs, i, f)[j].valor == gs[j].valor && Mark(gs, i, f)[j].adj == gs[j].adj
    ensures forall j :: 0 <= j < |gs| && j != i ==> Mark(gs, i, f)[j] == gs[j]
  {
  }

  /** Setting a flag changes no edge, no path and no path sum. */
  lemma PathMark(gs: seq<Vertice>, i: nat, f: bool, p: seq<nat>)
    requires i < |gs|
    ensures forall a: nat, k: nat, c: nat :: EdgeLeads(Mark(gs, i, f), a, k, c) <==> EdgeLeads(gs, a, k, c)
    ensures IsPath(Mark(gs, i, f), p) <==> IsPath(gs, p)
    ensures IsPath(gs, p) ==> SumValores(Mark(gs, i, f), p) == SumValores(gs, p)
  {
    var m := Mark(gs, i, f);
    MarkKeeps(gs, i, f);
    forall id: int
      ensures Find(m, id) == Find(gs, id)
    {
      FindSameIds(m, gs, id);
    }
    if IsPath(gs, p) {
      SumSameValues(m, gs, p);
    }
  }

  lemma {:induction false} SumSameValues(vs: seq<Vertice>, ws: seq<Vertice>, p: seq<nat>)
    requires |vs| == |ws| && forall j :: 0 <= j < |vs| ==> vs[j].valor == ws[j].valor
    requires forall t :: 0 <= t < |p| ==> p[t] < |vs|
    ensures SumValores(vs, p) == SumValores(ws, p)
  {
    if p != [] {
      SumSameValues(vs, ws, p[1..]);
    }
  }

  /** The paths a search entering `vi` may walk: simple paths from `vi`
      through vertices whose flags are clear (the flag of `vi` itself does not
      matter, the search sets it on entry). */
  ghost predicate OpenPath(gs: seq<Vertice>, vi: nat, p: seq<nat>)
  {
    IsPath(gs, p) && p[0] == vi && Distinct(p) && forall t :: 1 <= t < |p| ==> !gs[p[t]].visitado
  }

  /** The paths the edge loop of `vi` may walk from entry `k` of its list: a
      simple path of unflagged vertices whose first vertex that entry leads
      to. */
  ghost predicate EdgeOpen(gs: seq<Vertice>, vi: nat, k: nat, q: seq<nat>)
  {
    && IsPath(gs, q) && EdgeLeads(gs, vi, k, q[0]) && Distinct(q)
    && forall t :: 0 <= t < |q| ==> !gs[q[t]].visitado
  }

  /** An open path from `vi` is an edge out of `vi` followed by a path the
      edge loop may walk, with `vi` flagged. */
  lemma OpenSplit(gs: seq<Vertice>, vi: nat, p: seq<nat>) returns (k: nat)
    requires vi < |gs| && OpenPath(gs, vi, p) && |p| > 1
    ensures EdgeOpen(Mark(gs, vi, true), vi, k, p[1..])
    ensures SumValores(gs, p) == gs[vi].valor + SumValores(Mark(gs, vi, true), p[1..])
  {
    var q := p[1..];
    assert Step(gs, p[0], p[1]);
    k :| EdgeLeads(gs, vi, k, q[0]);
    PathTail(gs, p);
    PathMark(gs, vi, true, q);
    OpenTail(gs, vi, p);
  }

  lemma PathTail(vs: seq<Vertice>, p: seq<nat>)
    requires IsPath(vs, p) && |p| > 1
    ensures IsPath(vs, p[1..])
  {
    var q := p[1..];
    forall t | 0 <= t < |q| - 1
      ensures Step(vs, q[t], q[t + 1])
    {
      assert q[t] == p[t + 1] && q[t + 1] == p[t + 2];
    }
  }

  /** Past its first vertex, an open path from `vi` avoids `vi` and runs
      through unflagged vertices, also once `vi` is flagged. */
  lemma OpenTail(gs: seq<Vertice>, vi: nat, p: seq<nat>)
    requires vi < |gs| && OpenPath(gs, vi, p) && |p| > 1
    ensures Distinct(p[1..])
    ensures forall t :: 0 <= t < |p| - 1 ==> !Mark(gs, vi, true)[p[1..][t]].visitado
  {
    var q := p[1..];
    MarkKeeps(gs, vi, true);
    forall t | 0 <= t < |q|
      ensures !Mark(gs, vi, true)[q[t]].visitado
    {
      assert q[t] == p[t + 1] && p[0] != p[t + 1];
    }
    forall t, u | 0 <= t < u < |q|
      ensures q[t] != q[u]
    {
      assert q[t] == p[t + 1] && q[u] == p[u + 1];
    }
  }

  /** The converse: an edge out of a flagged `vi` followed by a path the edge
      loop may walk is an open path from `vi` in the list before the flag was
      set. */
  lemma OpenJoin(gs: seq<Vertice>, vi: nat, k: nat, q: seq<nat>)
    requires vi < |gs| && EdgeOpen(Mark(gs, vi, true), vi, k, q)
    ensures OpenPath(gs, vi, [vi] + q)
    ensures SumValores(gs, [vi] + q) == gs[vi].valor + SumValores(Mark(gs, vi, true), q)
  {
    var m := Mark(gs, vi, true);
    PathMark(gs, vi, true, q);
    MarkKeeps(gs, vi, true);
    PrependStep(gs, vi, k, q);
    var p := [vi] + q;
    assert p[1..] == q;
    forall t, u | 0 <= t < u < |p|
      ensures p[t] != p[u]
    {
      if t == 0 {
        assert !m[q[u - 1]].visitado;
      } else {
        assert p[t] == q[t - 1] && p[u] == q[u - 1];
      }
    }
    forall t | 1 <= t < |p|
      ensures !gs[p[t]].visitado
    {
      assert p[t] == q[t - 1] && !m[q[t - 1]].visitado;
    }
  }

  /** No open path from `vi` beats the search: the record it leaves holds at
      least the starting sum plus the path's sum. */
  lemma {:induction false} MaxSearchBound(gs: seq<Vertice>, vi: nat, s: int, b: Best, p: seq<nat>)
    requires vi < |gs| && OpenPath(gs, vi, p)
    ensures MaxSearch(gs, vi, s, b).soma >= s + SumValores(gs, p)
    decreases |Unflagged(gs) - {vi}|, 1, 0
  {
    var s1 := s + gs[vi].valor;
    var b1 := Atualizar(b, s1, Some(vi));
    MaxSearchUnfold(gs, vi, s, b);
    UnflaggedMark(gs, vi);
    if |p| == 1 {
      assert p == [vi] && p[1..] == [];
    } else {
      var k := OpenSplit(gs, vi, p);
      MaxEdgesBound(Mark(gs, vi, true), vi, s1, 0, b1, k, p[1..]);
    }
  }

  /** No path the edge loop may walk from entry `k` on beats it. */
  lemma {:induction false} MaxEdgesBound(gs: seq<Vertice>, vi: nat, s: int, k0: nat, b: Best, k: nat, q: seq<nat>)
    requires vi < |gs| && k0 <= k && EdgeOpen(gs, vi, k, q)
    ensures MaxEdges(gs, vi, s, k0, b).soma >= s + SumValores(gs, q)
    decreases |Unflagged(gs)|, 0, k - k0
  {
    var w := Find(gs, gs[vi].adj[k0].id);
    if w.Some? && !gs[w.value].visitado {
      MaxEdgesFollow(gs, vi, s, k0, b, w.value);
      var m := MaxSearch(gs, w.value, s, b);
      if k0 == k {
        CardRemove(Unflagged(gs), q[0]);
        MaxSearchBound(gs, q[0], s, b, q);
      } else {
        MaxEdgesBound(gs, vi, s, k0 + 1, m, k, q);
      }
    } else {
      MaxEdgesSkip(gs, vi, s, k0, b);
      MaxEdgesBound(gs, vi, s, k0 + 1, b, k, q);
    }
  }

  /** The record holds the sum of an open path from `vi` and names its last
      vertex. */
  ghost predicate Attained(gs: seq<Vertice>, vi: nat, s: int, r: Best)
  {
    exists p :: OpenPath(gs, vi, p) && r.soma == s + SumValores(gs, p) && r.caminho == Some(p[|p| - 1])
  }

  /** The record holds the sum of a path the edge loop may walk from entry
      `k0` on and names its last vertex. */
  ghost predicate EdgeAttained(gs: seq<Vertice>, vi: nat, s: int, k0: nat, r: Best)
  {
    exists k, q :: k0 <= k && EdgeOpen(gs, vi, k, q) && r.soma == s + SumValores(gs, q) && r.caminho == Some(q[|q| - 1])
  }

  /** Whatever the search puts in the record is a path it may walk: the
      record is either left as it was or names the end of an open path from
      `vi` whose sum it holds. */
  lemma {:induction false} MaxSearchAttain(gs: seq<Vertice>, vi: nat, s: int, b: Best)
    requires vi < |gs|
    ensures var r := MaxSearch(gs, vi, s, b); r == b || Attained(gs, vi, s, r)
    decreases |Unflagged(gs) - {vi}|, 1, 0
  {
    var s1 := s + gs[vi].valor;
    var b1 := Atualizar(b, s1, Some(vi));
    var m := Mark(gs, vi, true);
    MaxSearchUnfold(gs, vi, s, b);
    UnflaggedMark(gs, vi);
    MaxEdgesAttain(m, vi, s1, 0, b1);
    var r := MaxSearch(gs, vi, s, b);
    if r != b1 {
      AttainedJoin(gs, vi, s, r);
    } else if b1 != b {
      AttainedSelf(gs, vi, s);
    }
  }

  /** The one-vertex path `[vi]` is open and attains the sum of `vi`. */
  lemma AttainedSelf(gs: seq<Vertice>, vi: nat, s: int)
    requires vi < |gs|
    ensures Attained(gs, vi, s, Best(s + gs[vi].valor, Some(vi)))
  {
    assert OpenPath(gs, vi, [vi]) && SumValores(gs, [vi]) == gs[vi].valor;
  }

  /** A record attained by the edge loop of a flagged `vi` is attained by the
      search entering `vi`. */
  lemma AttainedJoin(gs: seq<Vertice>, vi: nat, s: int, r: Best)
    requires vi < |gs| && EdgeAttained(Mark(gs, vi, true), vi, s + gs[vi].valor, 0, r)
    ensures Attained(gs, vi, s, r)
  {
    var m := Mark(gs, vi, true);
    var k, q :| 0 <= k && EdgeOpen(m, vi, k, q) && r.soma == s + gs[vi].valor + SumValores(m, q) && r.caminho == Some(q[|q| - 1]);
    JoinWitness(gs, vi, s, k, q, r);
  }

  lemma JoinWitness(gs: seq<Vertice>, vi: nat, s: int, k: nat, q: seq<nat>, r: Best)
    requires vi < |gs| && EdgeOpen(Mark(gs, vi, true), vi, k, q)
    requires r.soma == s + gs[vi].valor + SumValores(Mark(gs, vi, true), q) && r.caminho == Some(q[|q| - 1])
    ensures Attained(gs, vi, s, r)
  {
    OpenJoin(gs, vi, k, q);
    var p := [vi] + q;
    assert p[|p| - 1] == q[|q| - 1];
  }

  lemma {:induction false} MaxEdgesAttain(gs: seq<Vertice>, vi: nat, s: int, k0: nat, b: Best)
    requires vi < |gs| && k0 <= |gs[vi].adj|
    ensures var r := MaxEdges(gs, vi, s, k0, b); r == b || EdgeAttained(gs, vi, s, k0, r)
    decreases |Unflagged(gs)|, 0, |gs[vi].adj| - k0
  {
    if k0 < |gs[vi].adj| {
      var r := MaxEdges(gs, vi, s, k0, b);
      var w := Find(gs, gs[vi].adj[k0].id);
      if w.Some? && !gs[w.value].visitado {
        MaxEdgesFollow(gs, vi, s, k0, b, w.value);
        var m := MaxSearch(gs, w.value, s, b);
        MaxEdgesAttain(gs, vi, s, k0 + 1, m);
        if r == m {
          CardRemove(Unflagged(gs), w.value);
          MaxSearchAttain(gs, w.value, s, b);
          if m != b {
            var p :| OpenPath(gs, w.value, p) && m.soma == s + SumValores(gs, p) && m.caminho == Some(p[|p| - 1]);
            assert EdgeOpen(gs, vi, k0, p);
          }
        } else {
          var k, q :| k0 + 1 <= k && EdgeOpen(gs, vi, k, q) && r.soma == s + SumValores(gs, q) && r.caminho == Some(q[|q| - 1]);
          assert k0 <= k;
        }
      } else {
        MaxEdgesSkip(gs, vi, s, k0, b);
        MaxEdgesAttain(gs, vi, s, k0 + 1, b);
      }
    }
  }

  // ---------------------------------------------------------------------
  // The whole sweep, on a graph whose flags are all clear (as CriarVertice
  // leaves every vertex, and as CaminhoSomaMaxima leaves the graph).

  predicate AllClear(gs: seq<Vertice>)
  {
    forall j :: 0 <= j < |gs| ==> !gs[j].visitado
  }

  /** A path without repeated vertices. */
  ghost predicate Simple(gs: seq<Vertice>, p: seq<nat>)
  {
    IsPath(gs, p) && Distinct(p)
  }

  /** The record holds the sum of simple path `p` and names its last vertex. */
  ghost predicate BestPath(gs: seq<Vertice>, p: seq<nat>, r: Best)
  {
    Simple(gs, p) && r.soma == SumValores(gs, p) && r.caminho == Some(p[|p| - 1])
  }

  lemma {:induction false} SweepBound(gs: seq<Vertice>, i: nat, b: Best, p: seq<nat>)
    requires AllClear(gs) && i <= |gs| && Simple(gs, p) && i <= p[0]
    ensures Sweep(gs, i, b).soma >= SumValores(gs, p)
    decreases |gs| - i
  {
    MarkSame(gs, i);
    var m := MaxSearch(gs, i, 0, b);
    if p[0] == i {
      MaxSearchBound(gs, i, 0, b, p);
    } else {
      SweepBound(gs, i + 1, m, p);
    }
  }

  lemma {:induction false} SweepAttain(gs: seq<Vertice>, i: nat, b: Best)
    requires AllClear(gs) && i <= |gs|
    ensures var r := Sweep(gs, i, b); r == b || exists p :: BestPath(gs, p, r)
    decreases |gs| - i
  {
    if i < |gs| {
      MarkSame(gs, i);
      var m := MaxSearch(gs, i, 0, b);
      SweepAttain(gs, i + 1, m);
      var r := Sweep(gs, i, b);
      if r == m {
        MaxSearchAttain(gs, i, 0, b);
        if m != b {
          var p :| OpenPath(gs, i, p) && m.soma == 0 + SumValores(gs, p) && m.caminho == Some(p[|p| - 1]);
          assert BestPath(gs, p, r);
        }
      }
    }
  }

  /** CaminhoSomaMaxima on a graph whose flags are clear: the sum is the
      largest sum of a simple path, or 0 when no simple path has a positive
      sum; in the first case `caminho` names the last vertex of a simple path
      with that sum, in the second it stays NULL. */
  lemma SomaMaximaCorrect(gs: seq<Vertice>)
    requires AllClear(gs)
    ensures var r := Sweep(gs, 0, Best(0, None));
      && r.soma >= 0
      && (forall p :: Simple(gs, p) ==> r.soma >= SumValores(gs, p))
      && (r.caminho.Some? ==> exists p :: BestPath(gs, p, r))
      && (r.caminho.None? <==> r.soma == 0)
      && (r.caminho.None? <==> forall p :: Simple(gs, p) ==> SumValores(gs, p) <= 0)
  {
    var r := Sweep(gs, 0, Best(0, None));
    forall p | Simple(gs, p)
      ensures r.soma >= SumValores(gs, p)
    {
      SweepBound(gs, 0, Best(0, None), p);
    }
    SweepAttain(gs, 0, Best(0, None));
    if r.caminho.Some? {
      var p :| BestPath(gs, p, r);
      assert r.soma > 0;
    }
  }

  /** CaminhoSomaMaxima clears every flag and changes nothing else, so a graph
      whose flags were clear is left exactly as it was. */
  lemma ClearedAll(gs: seq<Vertice>)
    ensures AllClear(ClearedUpTo(gs, |gs|))
    ensures forall j :: 0 <= j < |gs| ==> ClearedUpTo(gs, |gs|)[j] == gs[j].(visitado := false)
    ensures AllClear(gs) ==> ClearedUpTo(gs, |gs|) == gs
  {
  }
}
