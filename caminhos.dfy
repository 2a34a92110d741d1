/** Reachability by depth-first search (caminhos.c). The search marks vertex
    ids in a boolean array indexed by id, adds the value of every vertex it
    enters to a running sum, and stops at the first vertex whose id is the
    destination. `Dfs`/`DfsEdges` are the recursion written as functions; the
    methods are proved equal to them. Where the C would index the flags out of
    range or follow an edge to a vertex that is not in the list, the functions
    stop with a fault; the methods require only that their own run does not
    fault. */
module Caminhos {
  import opened Header
  import opened Vertices
  import opened Paths
  import opened Grafos

  /** A sufficient condition for a fault-free search from any vertex: every
      vertex id indexes an array of `n` flags, and every edge leads to a vertex
      of the list. */
  predicate Searchable(vs: seq<Vertice>, n: int)
  {
    && (forall i :: 0 <= i < |vs| ==> 0 <= vs[i].id < n)
    && (forall i, k :: 0 <= i < |vs| && 0 <= k < |vs[i].adj| ==> HasId(vs, vs[i].adj[k].id))
  }

  /** Ids not yet marked. */
  function Unmarked(marks: seq<bool>): set<int>
  {
    set i | 0 <= i < |marks| && !marks[i]
  }

  /** Marks only get set, never cleared, and the array keeps its size. */
  predicate Grows(m0: seq<bool>, m1: seq<bool>)
  {
    |m0| == |m1| && forall i :: 0 <= i < |m0| && m0[i] ==> m1[i]
  }

  /** The flags of a freshly cleared array. */
  function Falses(n: nat): (m: seq<bool>)
    ensures |m| == n && forall i :: 0 <= i < n ==> !m[i]
  {
    seq(n, _ => false)
  }

  /** The state a search leaves behind: whether it reached the destination,
      the flags, the running sum, the vertices it entered in order, the chain
      of calls that was active when the destination was reached, and whether
      the C would have indexed the flags out of range or dereferenced a NULL
      vertex on the way. */
  datatype Outcome = Outcome(found: bool, marks: seq<bool>, soma: int, entered: seq<nat>, trail: seq<nat>, fault: bool)

  /** The outcome of a run that went wrong: the C's behaviour from here on is
      undefined. */
  function Faulted(marks: seq<bool>, soma: int): Outcome
  {
    Outcome(false, marks, soma, [], [], true)
  }

  lemma UnmarkedMark(marks: seq<bool>, id: int)
    requires 0 <= id < |marks|
    ensures Unmarked(marks[id := true]) == Unmarked(marks) - {id}
  {
  }

  lemma UnmarkedShrinks(m0: seq<bool>, m1: seq<bool>)
    requires Grows(m0, m1)
    ensures Unmarked(m1) <= Unmarked(m0)
    ensures |Unmarked(m1)| <= |Unmarked(m0)|
  {
    CardSubset(Unmarked(m1), Unmarked(m0));
  }

  /** Entering an unmarked vertex after marking the caller strictly shrinks
      the measure the recursion decreases. */
  lemma Descends(m0: seq<bool>, id: int, now: seq<bool>, t: int)
    requires 0 <= id < |m0| && Grows(m0[id := true], now)
    requires 0 <= t < |now| && !now[t]
    ensures |Unmarked(now) - {t}| < |Unmarked(m0) - {id}|
  {
    UnmarkedMark(m0, id);
    UnmarkedShrinks(m0[id := true], now);
    CardRemove(Unmarked(now), t);
  }

  /** BuscarProfundidade as a function: mark the vertex, add its value, stop
      if it is the destination, otherwise try its edges in list order. A run
      that does not fault has marked the vertex's id, which lies in range. */
  function Dfs(vs: seq<Vertice>, vi: nat, dest: int, marks: seq<bool>, soma: int): (o: Outcome)
    requires vi < |vs|
    ensures Grows(marks, o.marks) && (o.fault ==> !o.found)
    ensures !o.fault ==> 0 <= vs[vi].id < |marks| && o.marks[vs[vi].id]
    decreases |Unmarked(marks) - {vs[vi].id}|, 1, 0
  {
    var id := vs[vi].id;
    if !(0 <= id < |marks|) then Faulted(marks, soma)
    else
      var m1 := marks[id := true];
      var s1 := soma + vs[vi].valor;
      if id == dest then Outcome(true, m1, s1, [vi], [vi], false)
      else
        UnmarkedMark(marks, id);
        var e := DfsEdges(vs, vi, dest, 0, m1, s1);
        Outcome(e.found, e.marks, e.soma, [vi] + e.entered, if e.found then [vi] + e.trail else [], e.fault)
  }

  /** The loop over vertex `vi`'s edges from position `k` on: an edge whose
      target id is unmarked is followed, and the first success ends the loop.
      Reading the flag of an out-of-range target id, or following an edge to
      an id no vertex has, is a fault. */
  function DfsEdges(vs: seq<Vertice>, vi: nat, dest: int, k: nat, marks: seq<bool>, soma: int): (o: Outcome)
    requires vi < |vs| && k <= |vs[vi].adj|
    ensures Grows(marks, o.marks) && (o.fault ==> !o.found)
    decreases |Unmarked(marks)|, 0, |vs[vi].adj| - k
  {
    if k == |vs[vi].adj| then Outcome(false, marks, soma, [], [], false)
    else
      var t := vs[vi].adj[k].id;
      var w := Find(vs, t);
      if !(0 <= t < |marks|) then Faulted(marks, soma)
      else if marks[t] then DfsEdges(vs, vi, dest, k + 1, marks, soma)
      else if w.None? then Faulted(marks, soma)
      else
        CardRemove(Unmarked(marks), t);
        var c := Dfs(vs, w.value, dest, marks, soma);
        if c.found || c.fault then c
        else
          UnmarkedShrinks(marks, c.marks);
          var rest := DfsEdges(vs, vi, dest, k + 1, c.marks, c.soma);
          Outcome(rest.found, rest.marks, rest.soma, c.entered + rest.entered, rest.trail, rest.fault)
  }

  /** What the C code can observe of an outcome: the answer, the flags, the
      sum, and whether its behaviour was defined. */
  function Observed(o: Outcome): (bool, seq<bool>, int, bool)
  {
    (o.found, o.marks, o.soma, o.fault)
  }

  /** Two outcomes agree on everything the C code can observe. */
  predicate SameRun(a: Outcome, b: Outcome)
  {
    Observed(a) == Observed(b)
  }

  /** Dfs taken one step from an id in range, with every component of the
      outcome spelled out. */
  lemma DfsUnfold(vs: seq<Vertice>, vi: nat, dest: int, marks: seq<bool>, soma: int)
    requires vi < |vs| && 0 <= vs[vi].id < |marks|
    ensures var id := vs[vi].id;
      var m1 := marks[id := true];
      var s1 := soma + vs[vi].valor;
      var e := DfsEdges(vs, vi, dest, 0, m1, s1);
      Dfs(vs, vi, dest, marks, soma) ==
        if id == dest then Outcome(true, m1, s1, [vi], [vi], false)
        else Outcome(e.found, e.marks, e.soma, [vi] + e.entered, if e.found then [vi] + e.trail else [], e.fault)
  {
  }

  /** One iteration of the edge loop over a target that is in range, unmarked
      and present, with every component spelled out. */
  lemma DfsEdgesUnfold(vs: seq<Vertice>, vi: nat, dest: int, k: nat, marks: seq<bool>, soma: int)
    requires vi < |vs| && k < |vs[vi].adj|
    requires var t := vs[vi].adj[k].id; 0 <= t < |marks| && !marks[t] && HasId(vs, t)
    ensures var t := vs[vi].adj[k].id;
      var c := Dfs(vs, Find(vs, t).value, dest, marks, soma);
      var rest := DfsEdges(vs, vi, dest, k + 1, c.marks, c.soma);
      DfsEdges(vs, vi, dest, k, marks, soma) ==
        if c.found || c.fault then c
        else Outcome(rest.found, rest.marks, rest.soma, c.entered + rest.entered, rest.trail, rest.fault)
  {
  }

  /** Dfs from an id out of range faults at once. */
  lemma DfsFault(vs: seq<Vertice>, vi: nat, dest: int, marks: seq<bool>, soma: int)
    requires vi < |vs| && !(0 <= vs[vi].id < |marks|)
    ensures Dfs(vs, vi, dest, marks, soma).fault
  {
  }

  /** The edge loop faults on an out-of-range target id, on an unmarked target
      no vertex has, and when the search along an edge faults. */
  lemma EdgesFault(vs: seq<Vertice>, vi: nat, dest: int, k: nat, marks: seq<bool>, soma: int)
    requires vi < |vs| && k < |vs[vi].adj|
    requires var t := vs[vi].adj[k].id;
      || !(0 <= t < |marks|)
      || (!marks[t] && !HasId(vs, t))
      || (!marks[t] && Dfs(vs, Find(vs, t).value, dest, marks, soma).fault)
    ensures DfsEdges(vs, vi, dest, k, marks, soma).fault
  {
  }

  /** Dfs on the destination: it stops there. */
  lemma DfsHit(vs: seq<Vertice>, vi: nat, dest: int, marks: seq<bool>, soma: int)
    requires vi < |vs| && 0 <= vs[vi].id < |marks| && vs[vi].id == dest
    ensures Dfs(vs, vi, dest, marks, soma) == Outcome(true, marks[dest := true], soma + vs[vi].valor, [vi], [vi], false)
  {
  }

  /** Dfs elsewhere: it enters `vi` and runs the edge loop. */
  lemma DfsEnter(vs: seq<Vertice>, vi: nat, dest: int, marks: seq<bool>, soma: int)
    requires vi < |vs| && 0 <= vs[vi].id < |marks| && vs[vi].id != dest
    ensures var e := DfsEdges(vs, vi, dest, 0, marks[vs[vi].id := true], soma + vs[vi].valor);
      var o := Dfs(vs, vi, dest, marks, soma);
      SameRun(o, e) && o.entered == [vi] + e.entered && (e.found ==> o.trail == [vi] + e.trail)
  {
    DfsUnfold(vs, vi, dest, marks, soma);
  }

  /** The edge loop skips an edge whose target id is marked. */
  lemma EdgesSkip(vs: seq<Vertice>, vi: nat, dest: int, k: nat, marks: seq<bool>, soma: int)
    requires vi < |vs| && k < |vs[vi].adj|
    requires var t := vs[vi].adj[k].id; 0 <= t < |marks| && marks[t]
    ensures DfsEdges(vs, vi, dest, k, marks, soma) == DfsEdges(vs, vi, dest, k + 1, marks, soma)
  {
  }

  /** The edge loop stops with the outcome of a successful search along an
      edge. */
  lemma EdgesStop(vs: seq<Vertice>, vi: nat, dest: int, k: nat, marks: seq<bool>, soma: int)
    requires vi < |vs| && k < |vs[vi].adj|
    requires var t := vs[vi].adj[k].id;
      0 <= t < |marks| && !marks[t] && HasId(vs, t) && Dfs(vs, Find(vs, t).value, dest, marks, soma).found
    ensures DfsEdges(vs, vi, dest, k, marks, soma) == Dfs(vs, Find(vs, vs[vi].adj[k].id).value, dest, marks, soma)
  {
    DfsEdgesUnfold(vs, vi, dest, k, marks, soma);
  }

  /** After a failed, fault-free search along an edge, the loop goes on from
      the flags and sum that search left. */
  lemma EdgesFollow(vs: seq<Vertice>, vi: nat, dest: int, k: nat, marks: seq<bool>, soma: int)
    requires vi < |vs| && k < |vs[vi].adj|
    requires var t := vs[vi].adj[k].id;
      && 0 <= t < |marks| && !marks[t] && HasId(vs, t)
      && var c := Dfs(vs, Find(vs, t).value, dest, marks, soma); !c.found && !c.fault
    ensures var c := Dfs(vs, Find(vs, vs[vi].adj[k].id).value, dest, marks, soma);
      var rest := DfsEdges(vs, vi, dest, k + 1, c.marks, c.soma);
      var o := DfsEdges(vs, vi, dest, k, marks, soma);
      SameRun(o, rest) && o.entered == c.entered + rest.entered && o.trail == rest.trail
  {
    DfsEdgesUnfold(vs, vi, dest, k, marks, soma);
  }

  /** DfsUnfold restricted to what the C code can observe of a run that does
      not fault. */
  lemma DfsObserved(vs: seq<Vertice>, vi: nat, dest: int, marks: seq<bool>, soma: int)
    requires vi < |vs| && 0 <= vs[vi].id < |marks| && vs[vi].id != dest
    ensures SameRun(Dfs(vs, vi, dest, marks, soma), DfsEdges(vs, vi, dest, 0, marks[vs[vi].id := true], soma + vs[vi].valor))
  {
    DfsUnfold(vs, vi, dest, marks, soma);
  }

  /** A fault-free step of the edge loop reads a flag in range. */
  lemma EdgesInRange(vs: seq<Vertice>, vi: nat, dest: int, k: nat, marks: seq<bool>, soma: int)
    requires vi < |vs| && k < |vs[vi].adj| && !DfsEdges(vs, vi, dest, k, marks, soma).fault
    ensures 0 <= vs[vi].adj[k].id < |marks|
  {
  }

  /** One step of the edge loop along an unmarked edge, against the outcome
      `e` the whole loop must reproduce: the target exists, its search does
      not fault, and either it succeeds with `e`'s observation or the loop
      goes on from the flags and sum it left. */
  lemma EdgesObserved(vs: seq<Vertice>, vi: nat, dest: int, k: nat, marks: seq<bool>, soma: int, e: Outcome)
    requires vi < |vs| && k < |vs[vi].adj| && !e.fault
    requires SameRun(DfsEdges(vs, vi, dest, k, marks, soma), e)
    requires var t := vs[vi].adj[k].id; 0 <= t < |marks| && !marks[t]
    ensures var t := vs[vi].adj[k].id;
      HasId(vs, t) &&
      var c := Dfs(vs, Find(vs, t).value, dest, marks, soma);
      !c.fault && if c.found then SameRun(c, e) else SameRun(DfsEdges(vs, vi, dest, k + 1, c.marks, c.soma), e)
  {
    DfsEdgesUnfold(vs, vi, dest, k, marks, soma);
  }

  /** One step of the edge loop past a marked edge, against `e`. */
  lemma EdgesPassed(vs: seq<Vertice>, vi: nat, dest: int, k: nat, marks: seq<bool>, soma: int, e: Outcome)
    requires vi < |vs| && k < |vs[vi].adj|
    requires SameRun(DfsEdges(vs, vi, dest, k, marks, soma), e)
    requires var t := vs[vi].adj[k].id; 0 <= t < |marks| && marks[t]
    ensures SameRun(DfsEdges(vs, vi, dest, k + 1, marks, soma), e)
  {
    EdgesSkip(vs, vi, dest, k, marks, soma);
  }

  /** BuscarProfundidade: depth-first search from vertex `v`, with the flags
      in `visitado` and the running sum threaded through. The C is defined
      only on runs that index the flags in range and enter existing vertices,
      so that is all it asks of the caller. */
  method BuscarProfundidade(g: Grafo, v: nat, idDestino: int, visitado: array<bool>, soma0: int)
    returns (found: bool, soma: int)
    requires v < |g.verts| && !Dfs(g.verts, v, idDestino, visitado[..], soma0).fault
    modifies visitado
    ensures Observed(Dfs(g.verts, v, idDestino, old(visitado[..]), soma0)) == (found, visitado[..], soma, false)
    decreases |Unmarked(visitado[..]) - {g.verts[v].id}|, 1
  {
    ghost var m0 := visitado[..];
    var id := g.verts[v].id;
    visitado[id] := true;
    soma := soma0 + g.verts[v].valor;
    if id == idDestino {
      DfsHit(g.verts, v, idDestino, m0, soma0);
      return true, soma;
    }
    assert visitado[..] == m0[id := true];
    DfsObserved(g.verts, v, idDestino, m0, soma0);
    UnmarkedMark(m0, id);
    found, soma := PercorrerAdjacentes(g, v, idDestino, visitado, soma);
  }

  /** The loop of BuscarProfundidade over the adjacency list of `v`, once `v`
      is marked: each edge whose target is unmarked is searched, and the first
      success ends the loop. */
  method PercorrerAdjacentes(g: Grafo, v: nat, idDestino: int, visitado: array<bool>, soma0: int)
    returns (found: bool, soma: int)
    requires v < |g.verts| && !DfsEdges(g.verts, v, idDestino, 0, visitado[..], soma0).fault
    modifies visitado
    ensures Observed(DfsEdges(g.verts, v, idDestino, 0, old(visitado[..]), soma0)) == (found, visitado[..], soma, false)
    decreases |Unmarked(visitado[..])|, 0
  {
    ghost var m1 := visitado[..];
    ghost var vs := g.verts;
    ghost var e0 := DfsEdges(vs, v, idDestino, 0, m1, soma0);
    soma := soma0;
    var adjacente := g.verts[v].adj;
    var k := 0;
    while k < |adjacente|
      invariant 0 <= k <= |adjacente| && g.verts == vs
      invariant |Unmarked(visitado[..])| <= |Unmarked(m1)|
      invariant !e0.fault && SameRun(DfsEdges(vs, v, idDestino, k, visitado[..], soma), e0)
      decreases |adjacente| - k
    {
      ghost var cur, somaCur := visitado[..], soma;
      EdgesInRange(vs, v, idDestino, k, cur, somaCur);
      var verticeAdjacente := OndeEstaVerticeGrafo(g, adjacente[k].id);
      if !visitado[adjacente[k].id] {
        EdgesObserved(vs, v, idDestino, k, cur, somaCur, e0);
        CardRemove(Unmarked(cur), adjacente[k].id);
        var achou;
        achou, soma := BuscarProfundidade(g, verticeAdjacente.value, idDestino, visitado, soma);
        ghost var c := Dfs(vs, verticeAdjacente.value, idDestino, cur, somaCur);
        assert visitado[..] == c.marks && soma == c.soma;
        UnmarkedShrinks(cur, c.marks);
        if achou {
          return true, soma;
        }
      } else {
        EdgesPassed(vs, v, idDestino, k, cur, somaCur, e0);
      }
      k := k + 1;
    }
    return false, soma;
  }

  /** The search CalcularSomaCaminho runs once both endpoints exist: from the
      origin, over `n` cleared flags, with the sum starting at zero. */
  function Busca(vs: seq<Vertice>, n: nat, idOrigem: int, idDestino: int): Outcome
    requires HasId(vs, idOrigem)
  {
    Dfs(vs, Find(vs, idOrigem).value, idDestino, Falses(n), 0)
  }

  /** The answer of CalcularSomaCaminho once both endpoints exist: the running
      sum if the destination was reached, -1 otherwise. */
  function SomaCaminho(vs: seq<Vertice>, n: nat, idOrigem: int, idDestino: int): int
    requires HasId(vs, idOrigem)
  {
    var o := Busca(vs, n, idOrigem, idDestino);
    if o.found then o.soma else -1
  }

  /** CalcularSomaCaminho: -1 when the graph is NULL or an endpoint is
      missing; otherwise a search over an array of `totVertices` cleared
      flags, answering the sum on success and -1 on failure. Once both
      endpoints exist, the caller must size the array (`totVertices >= 0`) so
      that this particular search stays in range and enters only existing
      vertices; the rest of the graph may hold any ids and dangling edges. */
  method CalcularSomaCaminho(g: Grafo?, idOrigem: int, idDestino: int) returns (r: int)
    requires g != null && HasId(g.verts, idOrigem) && HasId(g.verts, idDestino) ==>
      g.totVertices >= 0 && !Busca(g.verts, g.totVertices, idOrigem, idDestino).fault
    ensures !(g != null && HasId(g.verts, idOrigem) && HasId(g.verts, idDestino)) ==> r == -1
    ensures g != null && HasId(g.verts, idOrigem) && HasId(g.verts, idDestino) ==>
      g.totVertices >= 0 && r == SomaCaminho(g.verts, g.totVertices, idOrigem, idDestino)
  {
    var verticeOrigem := OndeEstaVerticeGrafo(g, idOrigem);
    var verticeDestino := OndeEstaVerticeGrafo(g, idDestino);
    if verticeOrigem.None? || verticeDestino.None? {
      return -1;
    }
    var numVertices := g.totVertices;
    var visitado := new bool[numVertices];
    for i := 0 to numVertices
      invariant forall j :: 0 <= j < i ==> !visitado[j]
    {
      visitado[i] := false;
    }
    assert visitado[..] == Falses(numVertices);
    var soma := 0;
    var achou;
    achou, soma := BuscarProfundidade(g, verticeOrigem.value, idDestino, visitado, soma);
    if !achou {
      return -1;
    }
    return soma;
  }

  /** Ids of the listed vertices. */
  function IdsOf(vs: seq<Vertice>, p: seq<nat>): set<int>
    requires forall t :: 0 <= t < |p| ==> p[t] < |vs|
  {
    set t | 0 <= t < |p| :: vs[p[t]].id
  }

  /** Ids already marked. */
  function Marked(marks: seq<bool>): set<int>
  {
    set i | 0 <= i < |marks| && marks[i]
  }

  /** Every listed position is a position of `vs`. */
  predicate Positions(vs: seq<Vertice>, p: seq<nat>)
  {
    forall t :: 0 <= t < |p| ==> p[t] < |vs|
  }

  /** No two listed vertices share an id. */
  ghost predicate DistinctIds(vs: seq<Vertice>, p: seq<nat>)
    requires Positions(vs, p)
  {
    forall t, u :: 0 <= t < u < |p| ==> vs[p[t]].id != vs[p[u]].id
  }

  /** Every listed vertex's id was unmarked in `marks`. */
  ghost predicate FreshIn(vs: seq<Vertice>, p: seq<nat>, marks: seq<bool>)
    requires Positions(vs, p)
  {
    forall t :: 0 <= t < |p| ==> 0 <= vs[p[t]].id < |marks| && !marks[vs[p[t]].id]
  }

  lemma IdsOfAppend(vs: seq<Vertice>, a: seq<nat>, b: seq<nat>)
    requires Positions(vs, a) && Positions(vs, b)
    ensures Positions(vs, a + b)
    ensures IdsOf(vs, a + b) == IdsOf(vs, a) + IdsOf(vs, b)
  {
    var ab := a + b;
    forall x | x in IdsOf(vs, a + b)
      ensures x in IdsOf(vs, a) + IdsOf(vs, b)
    {
      var t :| 0 <= t < |ab| && vs[ab[t]].id == x;
      if t < |a| {
        assert ab[t] == a[t];
      } else {
        assert ab[t] == b[t - |a|];
      }
    }
    forall x | x in IdsOf(vs, a) + IdsOf(vs, b)
      ensures x in IdsOf(vs, a + b)
    {
      if x in IdsOf(vs, a) {
        var t :| 0 <= t < |a| && vs[a[t]].id == x;
        assert ab[t] == a[t];
      } else {
        var t :| 0 <= t < |b| && vs[b[t]].id == x;
        assert ab[|a| + t] == b[t];
      }
    }
  }

  /** Gluing two id-disjoint lists with distinct ids gives distinct ids. */
  lemma DistinctAppend(vs: seq<Vertice>, a: seq<nat>, b: seq<nat>)
    requires Positions(vs, a) && Positions(vs, b)
    requires DistinctIds(vs, a) && DistinctIds(vs, b)
    requires IdsOf(vs, a) !! IdsOf(vs, b)
    ensures Positions(vs, a + b) && DistinctIds(vs, a + b)
  {
    var ab := a + b;
    forall t, u | 0 <= t < u < |ab|
      ensures vs[ab[t]].id != vs[ab[u]].id
    {
      if u < |a| {
        assert ab[t] == a[t] && ab[u] == a[u];
      } else if t >= |a| {
        assert ab[t] == b[t - |a|] && ab[u] == b[u - |a|];
      } else {
        assert ab[t] == a[t] && ab[u] == b[u - |a|];
        assert vs[a[t]].id in IdsOf(vs, a);
        assert vs[b[u - |a|]].id in IdsOf(vs, b);
      }
    }
  }

  lemma SumValoresCons(vs: seq<Vertice>, i: nat, p: seq<nat>)
    requires i < |vs| && Positions(vs, p)
    ensures Positions(vs, [i] + p)
    ensures SumValores(vs, [i] + p) == vs[i].valor + SumValores(vs, p)
  {
    assert ([i] + p)[1..] == p;
  }

  /** What a run of the edge loop did, starting from `marks` and `soma`:
      it entered only vertices whose ids were unmarked, each id at most once;
      the flags set afterwards are exactly the old ones plus the ids entered;
      and the sum grew by the value of every vertex entered. */
  ghost predicate EdgesAccount(vs: seq<Vertice>, marks: seq<bool>, soma: int, o: Outcome)
  {
    && Positions(vs, o.entered)
    && Marked(o.marks) == Marked(marks) + IdsOf(vs, o.entered)
    && FreshIn(vs, o.entered, marks)
    && DistinctIds(vs, o.entered)
    && o.soma == soma + SumValores(vs, o.entered)
  }

  /** The same for a search from `vi`, which enters `vi` first whether or not
      its id was marked. */
  ghost predicate DfsAccounts(vs: seq<Vertice>, vi: nat, marks: seq<bool>, soma: int, o: Outcome)
  {
    && |o.entered| >= 1 && o.entered[0] == vi
    && Positions(vs, o.entered)
    && Marked(o.marks) == Marked(marks) + IdsOf(vs, o.entered)
    && FreshIn(vs, o.entered[1..], marks)
    && DistinctIds(vs, o.entered)
    && o.soma == soma + SumValores(vs, o.entered)
  }

  lemma AccountHit(vs: seq<Vertice>, vi: nat, marks: seq<bool>, soma: int)
    requires vi < |vs| && 0 <= vs[vi].id < |marks|
    ensures DfsAccounts(vs, vi, marks, soma,
      Outcome(true, marks[vs[vi].id := true], soma + vs[vi].valor, [vi], [vi], false))
  {
    var id := vs[vi].id;
    assert Marked(marks[id := true]) == Marked(marks) + {id};
    assert IdsOf(vs, [vi]) == {id} by {
      assert [vi][0] == vi;
      assert id in IdsOf(vs, [vi]);
    }
    SumValoresCons(vs, vi, []);
    assert [vi] + [] == [vi];
    assert [vi][1..] == [];
  }

  lemma AccountEnter(vs: seq<Vertice>, vi: nat, marks: seq<bool>, soma: int, e: Outcome, o: Outcome)
    requires vi < |vs| && 0 <= vs[vi].id < |marks|
    requires EdgesAccount(vs, marks[vs[vi].id := true], soma + vs[vi].valor, e)
    requires o.entered == [vi] + e.entered && o.marks == e.marks && o.soma == e.soma
    ensures DfsAccounts(vs, vi, marks, soma, o)
  {
    EnterMarks(vs, vi, marks, e.marks, e.entered);
    EnterFresh(vs, vi, marks, e.entered);
    SumValoresCons(vs, vi, e.entered);
    assert o.entered[1..] == e.entered;
  }

  lemma EnterMarks(vs: seq<Vertice>, vi: nat, marks: seq<bool>, after: seq<bool>, p: seq<nat>)
    requires vi < |vs| && 0 <= vs[vi].id < |marks| && Positions(vs, p)
    requires Marked(after) == Marked(marks[vs[vi].id := true]) + IdsOf(vs, p)
    ensures Positions(vs, [vi] + p)
    ensures Marked(after) == Marked(marks) + IdsOf(vs, [vi] + p)
  {
    var id := vs[vi].id;
    assert Marked(marks[id := true]) == Marked(marks) + {id};
    assert IdsOf(vs, [vi]) == {id} by {
      assert [vi][0] == vi;
      assert id in IdsOf(vs, [vi]);
    }
    IdsOfAppend(vs, [vi], p);
  }

  lemma EnterFresh(vs: seq<Vertice>, vi: nat, marks: seq<bool>, p: seq<nat>)
    requires vi < |vs| && 0 <= vs[vi].id < |marks| && Positions(vs, p)
    requires FreshIn(vs, p, marks[vs[vi].id := true]) && DistinctIds(vs, p)
    ensures Positions(vs, [vi] + p)
    ensures FreshIn(vs, ([vi] + p)[1..], marks) && DistinctIds(vs, [vi] + p)
  {
    var q := [vi] + p;
    assert q[1..] == p;
    forall t, u | 0 <= t < u < |q|
      ensures vs[q[t]].id != vs[q[u]].id
    {
      assert q[u] == p[u - 1];
      if t > 0 {
        assert q[t] == p[t - 1];
      }
    }
  }

  lemma AccountEmpty(vs: seq<Vertice>, marks: seq<bool>, soma: int)
    ensures EdgesAccount(vs, marks, soma, Outcome(false, marks, soma, [], [], false))
  {
    assert IdsOf(vs, []) == {};
  }

  lemma AccountFound(vs: seq<Vertice>, w: nat, marks: seq<bool>, soma: int, c: Outcome)
    requires w < |vs| && 0 <= vs[w].id < |marks| && !marks[vs[w].id]
    requires DfsAccounts(vs, w, marks, soma, c)
    ensures EdgesAccount(vs, marks, soma, c)
  {
    assert c.entered == [w] + c.entered[1..];
    forall u | 0 <= u < |c.entered|
      ensures 0 <= vs[c.entered[u]].id < |marks| && !marks[vs[c.entered[u]].id]
    {
      if u > 0 {
        assert c.entered[u] == c.entered[1..][u - 1];
      }
    }
  }

  lemma AccountFollow(vs: seq<Vertice>, marks: seq<bool>, soma: int, c: Outcome, rest: Outcome, o: Outcome)
    requires |c.marks| == |marks|
    requires EdgesAccount(vs, marks, soma, c)
    requires EdgesAccount(vs, c.marks, c.soma, rest)
    requires o.entered == c.entered + rest.entered && o.marks == rest.marks && o.soma == rest.soma
    ensures EdgesAccount(vs, marks, soma, o)
  {
    IdsOfAppend(vs, c.entered, rest.entered);
    assert IdsOf(vs, c.entered) !! IdsOf(vs, rest.entered) by {
      forall x | x in IdsOf(vs, rest.entered)
        ensures x !in Marked(c.marks)
      {
        var u :| 0 <= u < |rest.entered| && vs[rest.entered[u]].id == x;
      }
    }
    DistinctAppend(vs, c.entered, rest.entered);
    SumValoresAppend(vs, c.entered, rest.entered);
    forall u | 0 <= u < |o.entered|
      ensures 0 <= vs[o.entered[u]].id < |marks| && !marks[vs[o.entered[u]].id]
    {
      if u < |c.entered| {
        assert o.entered[u] == c.entered[u];
      } else {
        var x := vs[o.entered[u]].id;
        assert o.entered[u] == rest.entered[u - |c.entered|];
        assert x !in Marked(c.marks);
        assert x !in Marked(marks);
      }
    }
  }

  /** What one fault-free search does to the flags and to the sum (see
      DfsAccounts). */
  lemma {:induction false} DfsAccount(vs: seq<Vertice>, vi: nat, dest: int, marks: seq<bool>, soma: int)
    requires vi < |vs|
    ensures var o := Dfs(vs, vi, dest, marks, soma);
      !o.fault ==> DfsAccounts(vs, vi, marks, soma, o)
    decreases |Unmarked(marks) - {vs[vi].id}|, 1, 0
  {
    var id := vs[vi].id;
    if !(0 <= id < |marks|) {
      DfsFault(vs, vi, dest, marks, soma);
    } else if id == dest {
      DfsHit(vs, vi, dest, marks, soma);
      AccountHit(vs, vi, marks, soma);
    } else {
      var m1 := marks[id := true];
      var s1 := soma + vs[vi].valor;
      UnmarkedMark(marks, id);
      var e := DfsEdges(vs, vi, dest, 0, m1, s1);
      DfsEdgesAccount(vs, vi, dest, 0, m1, s1);
      DfsEnter(vs, vi, dest, marks, soma);
      if !e.fault {
        AccountEnter(vs, vi, marks, soma, e, Dfs(vs, vi, dest, marks, soma));
      }
    }
  }

  lemma {:induction false} DfsEdgesAccount(vs: seq<Vertice>, vi: nat, dest: int, k: nat, marks: seq<bool>, soma: int)
    requires vi < |vs| && k <= |vs[vi].adj|
    ensures var o := DfsEdges(vs, vi, dest, k, marks, soma);
      !o.fault ==> EdgesAccount(vs, marks, soma, o)
    decreases |Unmarked(marks)|, 0, |vs[vi].adj| - k
  {
    if k == |vs[vi].adj| {
      AccountEmpty(vs, marks, soma);
    } else {
      var t := vs[vi].adj[k].id;
      if !(0 <= t < |marks|) || (!marks[t] && !HasId(vs, t)) {
        EdgesFault(vs, vi, dest, k, marks, soma);
      } else if marks[t] {
        EdgesSkip(vs, vi, dest, k, marks, soma);
        DfsEdgesAccount(vs, vi, dest, k + 1, marks, soma);
      } else {
        var w := Find(vs, t).value;
        CardRemove(Unmarked(marks), t);
        DfsAccount(vs, w, dest, marks, soma);
        var c := Dfs(vs, w, dest, marks, soma);
        if c.fault {
          EdgesFault(vs, vi, dest, k, marks, soma);
        } else {
          AccountFound(vs, w, marks, soma, c);
          if c.found {
            EdgesStop(vs, vi, dest, k, marks, soma);
          } else {
            UnmarkedShrinks(marks, c.marks);
            EdgesFollow(vs, vi, dest, k, marks, soma);
            DfsEdgesAccount(vs, vi, dest, k + 1, c.marks, c.soma);
            var rest := DfsEdges(vs, vi, dest, k + 1, c.marks, c.soma);
            if !rest.fault {
              AccountFollow(vs, marks, soma, c, rest, DfsEdges(vs, vi, dest, k, marks, soma));
            }
          }
        }
      }
    }
  }

  /** A search from `vi` that succeeded stopped on a simple path: it starts at
      `vi`, follows edges, ends on a vertex whose id is the destination, and
      every vertex after the first had an unmarked id when the search began. */
  ghost predicate TrailFrom(vs: seq<Vertice>, vi: nat, dest: int, marks: seq<bool>, p: seq<nat>)
  {
    && IsPath(vs, p) && p[0] == vi && vs[p[|p| - 1]].id == dest
    && Positions(vs, p) && FreshIn(vs, p[1..], marks) && DistinctIds(vs, p)
  }

  /** The same for the edge loop from position `k`: the path starts at a
      target of one of the remaining edges and all its ids were unmarked. */
  ghost predicate EdgesTrail(vs: seq<Vertice>, vi: nat, k: nat, dest: int, marks: seq<bool>, p: seq<nat>)
  {
    && IsPath(vs, p) && (exists j :: k <= j && EdgeLeads(vs, vi, j, p[0])) && vs[p[|p| - 1]].id == dest
    && Positions(vs, p) && FreshIn(vs, p, marks) && DistinctIds(vs, p)
  }

  lemma TrailHit(vs: seq<Vertice>, vi: nat, dest: int, marks: seq<bool>)
    requires vi < |vs| && vs[vi].id == dest
    ensures TrailFrom(vs, vi, dest, marks, [vi])
  {
    assert [vi][1..] == [];
  }

  lemma TrailEnter(vs: seq<Vertice>, vi: nat, dest: int, marks: seq<bool>, p: seq<nat>)
    requires vi < |vs| && 0 <= vs[vi].id < |marks|
    requires EdgesTrail(vs, vi, 0, dest, marks[vs[vi].id := true], p)
    ensures TrailFrom(vs, vi, dest, marks, [vi] + p)
  {
    var id := vs[vi].id;
    var j :| 0 <= j && EdgeLeads(vs, vi, j, p[0]);
    PrependStep(vs, vi, j, p);
    var q := [vi] + p;
    assert q[1..] == p;
    assert q[|q| - 1] == p[|p| - 1];
    assert IdsOf(vs, [vi]) == {id} by {
      assert [vi][0] == vi;
      assert id in IdsOf(vs, [vi]);
    }
    assert id !in IdsOf(vs, p);
    DistinctAppend(vs, [vi], p);
  }

  lemma TrailFollow(vs: seq<Vertice>, vi: nat, k: nat, w: nat, dest: int, marks: seq<bool>, p: seq<nat>)
    requires EdgeLeads(vs, vi, k, w) && 0 <= vs[w].id < |marks| && !marks[vs[w].id]
    requires TrailFrom(vs, w, dest, marks, p)
    ensures EdgesTrail(vs, vi, k, dest, marks, p)
  {
    forall u | 0 <= u < |p|
      ensures 0 <= vs[p[u]].id < |marks| && !marks[vs[p[u]].id]
    {
      if u > 0 {
        assert p[u] == p[1..][u - 1];
      }
    }
  }

  lemma TrailLater(vs: seq<Vertice>, vi: nat, k: nat, dest: int, m0: seq<bool>, m1: seq<bool>, p: seq<nat>)
    requires Grows(m0, m1)
    requires EdgesTrail(vs, vi, k + 1, dest, m1, p)
    ensures EdgesTrail(vs, vi, k, dest, m0, p)
  {
  }

  /** Soundness of one search: when it succeeds, its trail is a simple path
      from `vi` to a vertex with the destination id through vertices whose ids
      were unmarked. */
  lemma {:induction false} DfsTrail(vs: seq<Vertice>, vi: nat, dest: int, marks: seq<bool>, soma: int)
    requires vi < |vs|
    ensures var o := Dfs(vs, vi, dest, marks, soma);
      o.found ==> TrailFrom(vs, vi, dest, marks, o.trail)
    decreases |Unmarked(marks) - {vs[vi].id}|, 1, 0
  {
    var id := vs[vi].id;
    if !(0 <= id < |marks|) {
      DfsFault(vs, vi, dest, marks, soma);
    } else if id == dest {
      DfsHit(vs, vi, dest, marks, soma);
      TrailHit(vs, vi, dest, marks);
    } else {
      var m1 := marks[id := true];
      var s1 := soma + vs[vi].valor;
      UnmarkedMark(marks, id);
      DfsEnter(vs, vi, dest, marks, soma);
      DfsEdgesTrail(vs, vi, dest, 0, m1, s1);
      var e := DfsEdges(vs, vi, dest, 0, m1, s1);
      if e.found {
        TrailEnter(vs, vi, dest, marks, e.trail);
      }
    }
  }

  lemma {:induction false} DfsEdgesTrail(vs: seq<Vertice>, vi: nat, dest: int, k: nat, marks: seq<bool>, soma: int)
    requires vi < |vs| && k <= |vs[vi].adj|
    ensures var o := DfsEdges(vs, vi, dest, k, marks, soma);
      o.found ==> EdgesTrail(vs, vi, k, dest, marks, o.trail)
    decreases |Unmarked(marks)|, 0, |vs[vi].adj| - k
  {
    if k < |vs[vi].adj| {
      var t := vs[vi].adj[k].id;
      if !(0 <= t < |marks|) || (!marks[t] && !HasId(vs, t)) {
        EdgesFault(vs, vi, dest, k, marks, soma);
      } else if marks[t] {
        EdgesSkip(vs, vi, dest, k, marks, soma);
        DfsEdgesTrail(vs, vi, dest, k + 1, marks, soma);
        var o := DfsEdges(vs, vi, dest, k + 1, marks, soma);
        if o.found {
          TrailLater(vs, vi, k, dest, marks, marks, o.trail);
        }
      } else {
        var w := Find(vs, t).value;
        CardRemove(Unmarked(marks), t);
        DfsTrail(vs, w, dest, marks, soma);
        var c := Dfs(vs, w, dest, marks, soma);
        if c.fault {
          EdgesFault(vs, vi, dest, k, marks, soma);
        } else if c.found {
          EdgesStop(vs, vi, dest, k, marks, soma);
          assert EdgeLeads(vs, vi, k, w);
          TrailFollow(vs, vi, k, w, dest, marks, c.trail);
        } else {
          EdgesFollow(vs, vi, dest, k, marks, soma);
          UnmarkedShrinks(marks, c.marks);
          DfsEdgesTrail(vs, vi, dest, k + 1, c.marks, c.soma);
          var rest := DfsEdges(vs, vi, dest, k + 1, c.marks, c.soma);
          if rest.found {
            TrailLater(vs, vi, k, dest, marks, c.marks, rest.trail);
          }
        }
      }
    }
  }

  /** After a failed search, none of the vertices it entered has the
      destination id, and every edge leaving them targets a marked id. */
  ghost predicate Closed(vs: seq<Vertice>, dest: int, p: seq<nat>, m: seq<bool>)
  {
    && Positions(vs, p)
    && (forall t :: 0 <= t < |p| ==> vs[p[t]].id != dest)
    && (forall t, j :: 0 <= t < |p| && 0 <= j < |vs[p[t]].adj| ==>
          0 <= vs[p[t]].adj[j].id < |m| && m[vs[p[t]].adj[j].id])
  }

  /** Every edge of `vi` from position `k` on targets a marked id. */
  ghost predicate EdgesDone(vs: seq<Vertice>, vi: nat, k: nat, m: seq<bool>)
    requires vi < |vs|
  {
    forall j :: k <= j < |vs[vi].adj| ==> 0 <= vs[vi].adj[j].id < |m| && m[vs[vi].adj[j].id]
  }

  lemma ClosedEnter(vs: seq<Vertice>, vi: nat, dest: int, p: seq<nat>, m: seq<bool>)
    requires vi < |vs| && vs[vi].id != dest
    requires Closed(vs, dest, p, m) && EdgesDone(vs, vi, 0, m)
    ensures Closed(vs, dest, [vi] + p, m)
  {
    var q := [vi] + p;
    forall t | 0 <= t < |q|
      ensures q[t] < |vs| && vs[q[t]].id != dest
    {
      if t > 0 {
        assert q[t] == p[t - 1];
      }
    }
    forall t, j | 0 <= t < |q| && 0 <= j < |vs[q[t]].adj|
      ensures 0 <= vs[q[t]].adj[j].id < |m| && m[vs[q[t]].adj[j].id]
    {
      if t > 0 {
        assert q[t] == p[t - 1];
      }
    }
  }

  lemma ClosedFollow(vs: seq<Vertice>, dest: int, a: seq<nat>, ma: seq<bool>, b: seq<nat>, mb: seq<bool>)
    requires Closed(vs, dest, a, ma) && Grows(ma, mb) && Closed(vs, dest, b, mb)
    ensures Closed(vs, dest, a + b, mb)
  {
    var q := a + b;
    forall t | 0 <= t < |q|
      ensures q[t] < |vs| && vs[q[t]].id != dest
    {
      if t < |a| {
        assert q[t] == a[t];
      } else {
        assert q[t] == b[t - |a|];
      }
    }
    forall t, j | 0 <= t < |q| && 0 <= j < |vs[q[t]].adj|
      ensures 0 <= vs[q[t]].adj[j].id < |mb| && mb[vs[q[t]].adj[j].id]
    {
      if t < |a| {
        assert q[t] == a[t];
      } else {
        assert q[t] == b[t - |a|];
      }
    }
  }

  /** Completeness of one failed, fault-free search, in local form: the
      vertices it entered are closed under edges, up to the marks. */
  lemma {:induction false} DfsClosed(vs: seq<Vertice>, vi: nat, dest: int, marks: seq<bool>, soma: int)
    requires vi < |vs|
    ensures var o := Dfs(vs, vi, dest, marks, soma);
      !o.found && !o.fault ==> Closed(vs, dest, o.entered, o.marks)
    decreases |Unmarked(marks) - {vs[vi].id}|, 1, 0
  {
    var id := vs[vi].id;
    if !(0 <= id < |marks|) {
      DfsFault(vs, vi, dest, marks, soma);
    } else if id == dest {
      DfsHit(vs, vi, dest, marks, soma);
    } else {
      var m1 := marks[id := true];
      var s1 := soma + vs[vi].valor;
      UnmarkedMark(marks, id);
      DfsEnter(vs, vi, dest, marks, soma);
      DfsEdgesClosed(vs, vi, dest, 0, m1, s1);
      var e := DfsEdges(vs, vi, dest, 0, m1, s1);
      var o := Dfs(vs, vi, dest, marks, soma);
      if !e.found && !e.fault {
        ClosedEnter(vs, vi, dest, e.entered, e.marks);
        assert o.entered == [vi] + e.entered && o.marks == e.marks;
      }
    }
  }

  lemma {:induction false} DfsEdgesClosed(vs: seq<Vertice>, vi: nat, dest: int, k: nat, marks: seq<bool>, soma: int)
    requires vi < |vs| && k <= |vs[vi].adj|
    ensures var o := DfsEdges(vs, vi, dest, k, marks, soma);
      !o.found && !o.fault ==> Closed(vs, dest, o.entered, o.marks) && EdgesDone(vs, vi, k, o.marks)
    decreases |Unmarked(marks)|, 0, |vs[vi].adj| - k
  {
    if k < |vs[vi].adj| {
      var t := vs[vi].adj[k].id;
      if !(0 <= t < |marks|) || (!marks[t] && !HasId(vs, t)) {
        EdgesFault(vs, vi, dest, k, marks, soma);
      } else if marks[t] {
        EdgesSkip(vs, vi, dest, k, marks, soma);
        DfsEdgesClosed(vs, vi, dest, k + 1, marks, soma);
      } else {
        var w := Find(vs, t).value;
        CardRemove(Unmarked(marks), t);
        DfsClosed(vs, w, dest, marks, soma);
        var c := Dfs(vs, w, dest, marks, soma);
        if c.fault {
          EdgesFault(vs, vi, dest, k, marks, soma);
        } else if c.found {
          EdgesStop(vs, vi, dest, k, marks, soma);
        } else {
          EdgesFollow(vs, vi, dest, k, marks, soma);
          UnmarkedShrinks(marks, c.marks);
          DfsEdgesClosed(vs, vi, dest, k + 1, c.marks, c.soma);
          var rest := DfsEdges(vs, vi, dest, k + 1, c.marks, c.soma);
          if !rest.found && !rest.fault {
            ClosedFollow(vs, dest, c.entered, c.marks, rest.entered, rest.marks);
          }
        }
      }
    } else {
      assert Positions(vs, []);
    }
  }

  /** Every vertex of a path from an entered vertex through initially
      unmarked ids was entered too, once ids are unique. */
  lemma {:induction false} EnteredAlong(vs: seq<Vertice>, dest: int, marks: seq<bool>, o: Outcome, p: seq<nat>, t: nat)
    requires UniqueIds(vs) && Closed(vs, dest, o.entered, o.marks)
    requires Marked(o.marks) == Marked(marks) + IdsOf(vs, o.entered)
    requires IsPath(vs, p) && p[0] in o.entered
    requires forall u :: 1 <= u < |p| && 0 <= vs[p[u]].id < |marks| ==> !marks[vs[p[u]].id]
    requires t < |p|
    ensures p[t] in o.entered
  {
    if t > 0 {
      EnteredAlong(vs, dest, marks, o, p, t - 1);
      var a :| 0 <= a < |o.entered| && o.entered[a] == p[t - 1];
      assert Step(vs, p[t - 1], p[t]);
      var j: nat :| EdgeLeads(vs, p[t - 1], j, p[t]);
      var x := vs[p[t]].id;
      assert vs[o.entered[a]].adj[j].id == x;
      assert x in Marked(o.marks);
      assert x !in Marked(marks);
      assert x in IdsOf(vs, o.entered);
      var b :| 0 <= b < |o.entered| && vs[o.entered[b]].id == x;
      assert o.entered[b] == p[t];
    }
  }

  /** Completeness of one search: with unique ids, if a path leads from `vi`
      to a vertex with the destination id and no id along it after `vi` is
      marked, a search that does not fault succeeds. */
  lemma DfsComplete(vs: seq<Vertice>, vi: nat, dest: int, marks: seq<bool>, soma: int, p: seq<nat>)
    requires vi < |vs| && UniqueIds(vs)
    requires IsPath(vs, p) && p[0] == vi && vs[p[|p| - 1]].id == dest
    requires forall u :: 1 <= u < |p| && 0 <= vs[p[u]].id < |marks| ==> !marks[vs[p[u]].id]
    ensures var o := Dfs(vs, vi, dest, marks, soma); !o.fault ==> o.found
  {
    var o := Dfs(vs, vi, dest, marks, soma);
    if !o.found && !o.fault {
      DfsAccount(vs, vi, dest, marks, soma);
      DfsClosed(vs, vi, dest, marks, soma);
      assert p[0] == o.entered[0];
      EnteredAlong(vs, dest, marks, o, p, |p| - 1);
      assert false;
    }
  }

  /** Some path leads from vertex `a` to a vertex with id `dest`. */
  ghost predicate Reaches(vs: seq<Vertice>, a: nat, dest: int)
  {
    exists p :: IsPath(vs, p) && p[0] == a && vs[p[|p| - 1]].id == dest
  }

  lemma DistinctFromIds(vs: seq<Vertice>, p: seq<nat>)
    requires Positions(vs, p) && DistinctIds(vs, p)
    ensures Distinct(p)
  {
  }

  /** The search answers whether the destination can be reached from the
      origin: a success stops on a simple path from the origin to a vertex
      with the destination id, and with unique ids any such path makes a
      fault-free search succeed. */
  lemma BuscaReaches(vs: seq<Vertice>, n: nat, idOrigem: int, idDestino: int)
    requires HasId(vs, idOrigem)
    ensures var b := Busca(vs, n, idOrigem, idDestino);
      b.found ==> (IsPath(vs, b.trail) && b.trail[0] == Find(vs, idOrigem).value
        && vs[b.trail[|b.trail| - 1]].id == idDestino && Distinct(b.trail))
    ensures UniqueIds(vs) && !Busca(vs, n, idOrigem, idDestino).fault ==>
      (Busca(vs, n, idOrigem, idDestino).found <==> Reaches(vs, Find(vs, idOrigem).value, idDestino))
  {
    var vi := Find(vs, idOrigem).value;
    var b := Busca(vs, n, idOrigem, idDestino);
    DfsTrail(vs, vi, idDestino, Falses(n), 0);
    if b.found {
      DistinctFromIds(vs, b.trail);
    }
    if UniqueIds(vs) && Reaches(vs, vi, idDestino) {
      var p :| IsPath(vs, p) && p[0] == vi && vs[p[|p| - 1]].id == idDestino;
      DfsComplete(vs, vi, idDestino, Falses(n), 0, p);
    }
  }

  /** What CalcularSomaCaminho answers: -1 when the destination is not
      reached, and otherwise the sum of the values of every vertex the search
      entered, starting with the origin and with no id entered twice. */
  lemma SomaCaminhoEntered(vs: seq<Vertice>, n: nat, idOrigem: int, idDestino: int)
    requires HasId(vs, idOrigem)
    ensures var b := Busca(vs, n, idOrigem, idDestino);
      !b.fault ==>
        && Positions(vs, b.entered) && |b.entered| >= 1 && b.entered[0] == Find(vs, idOrigem).value
        && DistinctIds(vs, b.entered)
        && SomaCaminho(vs, n, idOrigem, idDestino) == if b.found then SumValores(vs, b.entered) else -1
  {
    DfsAccount(vs, Find(vs, idOrigem).value, idDestino, Falses(n), 0);
  }

  /** From a vertex to itself the search faults exactly when the id does not
      index the flags, and otherwise answers that vertex's value. */
  lemma SomaCaminhoSelf(vs: seq<Vertice>, n: nat, id: int)
    requires HasId(vs, id)
    ensures Busca(vs, n, id, id).fault <==> !(0 <= id < n)
    ensures 0 <= id < n ==> SomaCaminho(vs, n, id, id) == vs[Find(vs, id).value].valor
  {
    if 0 <= id < n {
      DfsHit(vs, Find(vs, id).value, id, Falses(n), 0);
    } else {
      DfsFault(vs, Find(vs, id).value, id, Falses(n), 0);
    }
  }

  /** The sum along the path the search stopped on, as CalcularSomaCaminho is
      documented to answer, -1 when the destination is not reached. */
  function SomaCaminhoCorrigida(vs: seq<Vertice>, n: nat, idOrigem: int, idDestino: int): int
    requires HasId(vs, idOrigem)
  {
    var b := Busca(vs, n, idOrigem, idDestino);
    DfsTrail(vs, Find(vs, idOrigem).value, idDestino, Falses(n), 0);
    if b.found then SumValores(vs, b.trail) else -1
  }

  /** The corrected answer is the sum of the values along a simple path from
      the origin to the destination; it is -1 when no path exists, and with
      unique ids a fault-free search finds a path whenever one exists. */
  lemma SomaCaminhoCorrigidaPath(vs: seq<Vertice>, n: nat, idOrigem: int, idDestino: int)
    requires HasId(vs, idOrigem)
    ensures var b := Busca(vs, n, idOrigem, idDestino);
      b.found ==> (IsPath(vs, b.trail) && b.trail[0] == Find(vs, idOrigem).value
        && vs[b.trail[|b.trail| - 1]].id == idDestino && Distinct(b.trail)
        && SomaCaminhoCorrigida(vs, n, idOrigem, idDestino) == SumValores(vs, b.trail))
    ensures !Reaches(vs, Find(vs, idOrigem).value, idDestino) ==>
      SomaCaminhoCorrigida(vs, n, idOrigem, idDestino) == -1
    ensures UniqueIds(vs) && !Busca(vs, n, idOrigem, idDestino).fault && Reaches(vs, Find(vs, idOrigem).value, idDestino) ==>
      Busca(vs, n, idOrigem, idDestino).found
  {
    BuscaReaches(vs, n, idOrigem, idDestino);
  }

  /** Three vertices 0, 1, 2 with values 1, 10, 100 and edges 0->1 and 0->2:
      vertex 1 is a dead end that the search enters before it tries 0->2. */
  function Exemplo(): seq<Vertice>
  {
    [ Vertice(0, 1, false, [Adjacente(1, 10, 11), Adjacente(2, 100, 101)]),
      Vertice(1, 10, false, []),
      Vertice(2, 100, false, []) ]
  }

  /** The example, vertex by vertex. */
  predicate ExemploAt(vs: seq<Vertice>)
  {
    && |vs| == 3
    && vs[0] == Vertice(0, 1, false, [Adjacente(1, 10, 11), Adjacente(2, 100, 101)])
    && vs[1] == Vertice(1, 10, false, [])
    && vs[2] == Vertice(2, 100, false, [])
  }

  lemma ExemploIsAt()
    ensures ExemploAt(Exemplo())
  {
  }

  lemma ExemploFind(vs: seq<Vertice>)
    requires ExemploAt(vs)
    ensures Find(vs, 0) == Some(0) && Find(vs, 1) == Some(1) && Find(vs, 2) == Some(2)
  {
    assert vs[1..][0] == vs[1];
    assert vs[1..][1..][0] == vs[2];
  }

  /** The run from 0 to 2 on the example, step by step. */
  lemma ExemploRun(vs: seq<Vertice>, m: seq<bool>)
    requires ExemploAt(vs) && m == Falses(3)
    ensures HasId(vs, 0)
    ensures Busca(vs, 3, 0, 2).found && Busca(vs, 3, 0, 2).soma == 111
    ensures Busca(vs, 3, 0, 2).trail == [0, 2]
  {
    ExemploFind(vs);
    var m1 := m[0 := true];
    var m2 := m1[1 := true];
    var m3 := m2[2 := true];
    DfsUnfold(vs, 2, 2, m2, 11);
    var hit := Dfs(vs, 2, 2, m2, 11);
    assert hit.found && hit.soma == 111 && hit.trail == [2];
    DfsUnfold(vs, 1, 2, m1, 1);
    var dead := Dfs(vs, 1, 2, m1, 1);
    assert !dead.found && dead.marks == m2 && dead.soma == 11;
    DfsEdgesUnfold(vs, 0, 2, 1, m2, 11);
    assert DfsEdges(vs, 0, 2, 1, m2, 11) == hit;
    DfsEdgesUnfold(vs, 0, 2, 0, m1, 1);
    var e := DfsEdges(vs, 0, 2, 0, m1, 1);
    assert e.found && e.soma == 111 && e.trail == [2];
    DfsUnfold(vs, 0, 2, m, 0);
  }

  /** The answer from 0 to 2 counts the dead end 1: it is 111, while the only
      path 0->2 sums to 101, which is what the corrected answer gives. */
  lemma SomaCaminhoIncluiBecos()
    ensures HasId(Exemplo(), 0) && !Busca(Exemplo(), 3, 0, 2).fault
    ensures SomaCaminho(Exemplo(), 3, 0, 2) == 111
    ensures SomaCaminhoCorrigida(Exemplo(), 3, 0, 2) == 101
  {
    var vs := Exemplo();
    ExemploIsAt();
    ExemploRun(vs, Falses(3));
    assert SumValores(vs, [0, 2]) == 101 by {
      assert [0, 2][1..] == [2];
      assert [2][1..] == [];
    }
  }

  /** On a graph where every id indexes the flags and every edge leads to a
      vertex of the list, no search faults. */
  lemma {:induction false} SearchableSafe(vs: seq<Vertice>, vi: nat, dest: int, marks: seq<bool>, soma: int)
    requires vi < |vs| && Searchable(vs, |marks|)
    ensures !Dfs(vs, vi, dest, marks, soma).fault
    decreases |Unmarked(marks) - {vs[vi].id}|, 1, 0
  {
    var id := vs[vi].id;
    if id == dest {
      DfsHit(vs, vi, dest, marks, soma);
    } else {
      UnmarkedMark(marks, id);
      SearchableEdgesSafe(vs, vi, dest, 0, marks[id := true], soma + vs[vi].valor);
      DfsEnter(vs, vi, dest, marks, soma);
    }
  }

  lemma {:induction false} SearchableEdgesSafe(vs: seq<Vertice>, vi: nat, dest: int, k: nat, marks: seq<bool>, soma: int)
    requires vi < |vs| && Searchable(vs, |marks|) && k <= |vs[vi].adj|
    ensures !DfsEdges(vs, vi, dest, k, marks, soma).fault
    decreases |Unmarked(marks)|, 0, |vs[vi].adj| - k
  {
    if k < |vs[vi].adj| {
      var t := vs[vi].adj[k].id;
      if marks[t] {
        EdgesSkip(vs, vi, dest, k, marks, soma);
        SearchableEdgesSafe(vs, vi, dest, k + 1, marks, soma);
      } else {
        var w := Find(vs, t).value;
        CardRemove(Unmarked(marks), t);
        SearchableSafe(vs, w, dest, marks, soma);
        var c := Dfs(vs, w, dest, marks, soma);
        if c.found {
          EdgesStop(vs, vi, dest, k, marks, soma);
        } else {
          UnmarkedShrinks(marks, c.marks);
          EdgesFollow(vs, vi, dest, k, marks, soma);
          SearchableEdgesSafe(vs, vi, dest, k + 1, c.marks, c.soma);
        }
      }
    }
  }

  /** Vertex 0 (value 5, no edges) and vertex 1, whose only edge leads to the
      absent id 9, over two flags: the graph is not Searchable, yet the search
      from 0 to 0 never touches the dangling edge and answers 5. */
  lemma BuscaIgnoraArestaPendente()
    ensures var vs := [Vertice(0, 5, false, []), Vertice(1, 0, false, [Adjacente(9, 0, 0)])];
      && HasId(vs, 0) && !Searchable(vs, 2)
      && !Busca(vs, 2, 0, 0).fault && SomaCaminho(vs, 2, 0, 0) == 5
  {
    var vs := [Vertice(0, 5, false, []), Vertice(1, 0, false, [Adjacente(9, 0, 0)])];
    assert vs[0].id == 0;
    assert !HasId(vs, 9);
    assert vs[1].adj[0].id == 9;
    SomaCaminhoSelf(vs, 2, 0);
  }
}
