/** The graph wrapper (grafo.c): the head of the vertex list plus a running
    vertex count and a declared bound. Each operation takes a possibly-NULL
    graph, as the C functions do, and reports failures through result codes. */
module Grafos {
  import opened Header
  import opened Vertices
  import Adjacentes

  class Grafo {
    /** inicioGrafo: the vertex list, in link order. */
    var verts: seq<Vertice>
    /** Incremented on every successful vertex insertion, never decremented. */
    var numVertices: int
    /** Declared bound; no operation checks it. */
    var totVertices: int

    /** The list stays strictly ascending, and since deletions never decrement
        the counter, the counter bounds the number of vertices from above. */
    ghost predicate Valid()
      reads this
    {
      Ascending(verts) && |verts| <= numVertices
    }

    /** CriarGrafo: an empty graph with bound `tot`. */
    constructor CriarGrafo(tot: int)
      ensures Valid()
      ensures verts == [] && numVertices == 0 && totVertices == tot
    {
      verts := [];
      numVertices := 0;
      totVertices := tot;
    }
  }

  /** ExisteVerticeGrafo: false for a NULL graph, else ExisteVertice. */
  method ExisteVerticeGrafo(g: Grafo?, idVertice: int) returns (b: bool)
    ensures b <==> g != null && HasId(g.verts, idVertice)
  {
    if g == null {
      return false;
    }
    b := ExisteVertice(g.verts, idVertice);
  }

  /** OndeEstaVerticeGrafo: NULL for a NULL graph, else ObterVertice. */
  method OndeEstaVerticeGrafo(g: Grafo?, idVertice: int) returns (r: Option<nat>)
    ensures g == null ==> r == None
    ensures g != null ==> r == Find(g.verts, idVertice)
    ensures r.Some? <==> g != null && HasId(g.verts, idVertice)
  {
    if g == null {
      return None;
    }
    r := ObterVertice(g.verts, idVertice);
  }

  /** InserirVerticeGrafo. Result codes: 0 for a NULL vertex, -1 for a NULL
      graph, -2 for a duplicate id, 1 on success. The bound `totVertices` is
      not consulted. */
  method InserirVerticeGrafo(g: Grafo?, v: Option<Vertice>) returns (res: int)
    requires g != null ==> g.Valid()
    modifies g
    ensures g != null ==> g.Valid() && g.totVertices == old(g.totVertices)
    ensures v.None? ==> res == 0
    ensures v.Some? && g == null ==> res == -1
    ensures v.Some? && g != null && HasId(old(g.verts), v.value.id) ==> res == -2
    ensures v.Some? && g != null && !HasId(old(g.verts), v.value.id) ==> res == 1
    ensures res == 1 ==> (g != null && v.Some?
      && g.verts == Inserted(old(g.verts), v.value)
      && g.numVertices == old(g.numVertices) + 1)
    ensures res != 1 && g != null ==>
      (g.verts == old(g.verts) && g.numVertices == old(g.numVertices))
  {
    res := 1;
    if v.None? {
      return 0;
    }
    if g == null {
      return -1;
    }
    var existe := ExisteVerticeGrafo(g, v.value.id);
    if existe {
      return -2;
    }
    ghost var antes := g.verts;
    var novos, ok := InserirVertice(g.verts, v.value);
    assert ok && novos == Inserted(antes, v.value) && Ascending(novos);
    assert |novos| == |antes| + 1;
    g.verts := novos;
    // The C hands its int code to a bool flag parameter; the flag's
    // value is what the code ends up holding.
    res := if ok then 1 else 0;
    if res == 1 {
      g.numVertices := g.numVertices + 1;
    }
  }

  /** The vertex list after linking an edge origin->destination at the end of
      the origin's adjacency list, with the destination's value and the sum of
      both values snapshotted into it. */
  function WithEdge(vs: seq<Vertice>, o: nat, d: nat): (r: seq<Vertice>)
    requires o < |vs| && d < |vs|
    ensures |r| == |vs|
    ensures forall i :: 0 <= i < |vs| && i != o ==> r[i] == vs[i]
    ensures r[o].id == vs[o].id && r[o].valor == vs[o].valor && r[o].visitado == vs[o].visitado
    ensures r[o].adj == vs[o].adj + [Adjacente(vs[d].id, vs[d].valor, vs[o].valor + vs[d].valor)]
  {
    vs[o := vs[o].(adj := vs[o].adj + Adjacentes.CriarAdjacente(vs[d].id, vs[d].valor, vs[o].valor + vs[d].valor))]
  }

  /** InserirAdjGrafo: a directed edge from `idOrigem` to `idDestino`, added
      only when both exist; only the origin's list changes. */
  method InserirAdjGrafo(g: Grafo?, idOrigem: int, idDestino: int) returns (res: bool)
    requires g != null ==> g.Valid()
    modifies g
    ensures g != null ==> (g.Valid()
      && g.numVertices == old(g.numVertices) && g.totVertices == old(g.totVertices))
    ensures res <==> g != null && HasId(old(g.verts), idOrigem) && HasId(old(g.verts), idDestino)
    ensures !res && g != null ==> g.verts == old(g.verts)
    ensures res ==> (g != null &&
      g.verts == WithEdge(old(g.verts), Find(old(g.verts), idOrigem).value, Find(old(g.verts), idDestino).value))
  {
    res := false;
    if g == null {
      return;
    }
    var vertOrigem := OndeEstaVerticeGrafo(g, idOrigem);
    if vertOrigem == None {
      return;
    }
    var vertDestino := OndeEstaVerticeGrafo(g, idDestino);
    if vertDestino.None? {
      return;
    }
    var o, d := vertOrigem.value, vertDestino.value;
    var valorAdj := g.verts[d].valor;
    var peso := g.verts[o].valor + g.verts[d].valor;
    var lista := Adjacentes.InserirAdjacente(g.verts[o].adj, idDestino, valorAdj, peso);
    g.verts := g.verts[o := g.verts[o].(adj := lista)];
    res := true;
  }

  /** EliminarAdjGrafo: when both endpoints exist, unlink the first
      origin->destination edge; the flag says whether one was unlinked. */
  method EliminarAdjGrafo(g: Grafo?, idOrigem: int, idDestino: int) returns (res: bool)
    requires g != null ==> g.Valid()
    modifies g
    ensures g != null ==> (g.Valid()
      && g.numVertices == old(g.numVertices) && g.totVertices == old(g.totVertices))
    ensures res <==> (g != null && HasId(old(g.verts), idOrigem) && HasId(old(g.verts), idDestino)
      && Adjacentes.HasEdgeTo(old(g.verts)[Find(old(g.verts), idOrigem).value].adj, idDestino))
    ensures g != null && HasId(old(g.verts), idOrigem) && HasId(old(g.verts), idDestino) ==>
      var o := Find(old(g.verts), idOrigem).value;
      g.verts == old(g.verts)[o := old(g.verts)[o].(adj := Adjacentes.RemoveFirst(old(g.verts)[o].adj, idDestino))]
    ensures !res && g != null ==> g.verts == old(g.verts)
  {
    res := false;
    if g == null {
      return;
    }
    var vertOrigem := OndeEstaVerticeGrafo(g, idOrigem);
    if vertOrigem == None {
      return;
    }
    var vertDestino := OndeEstaVerticeGrafo(g, idDestino);
    if vertDestino.None? {
      return;
    }
    var o := vertOrigem.value;
    var lista;
    lista, res := Adjacentes.EliminarAdjacente(g.verts[o].adj, idDestino, res);
    g.verts := g.verts[o := g.verts[o].(adj := lista)];
  }

  /** EliminarVerticeGrafo: delegates to EliminarVertice; `numVertices` is left
      as it was. The id must be present in a non-empty graph (the C search
      loop has no end-of-list guard). */
  method EliminarVerticeGrafo(g: Grafo?, idVertice: int) returns (res: bool)
    requires g != null ==> g.Valid() && (g.verts != [] ==> HasId(g.verts, idVertice))
    modifies g
    ensures g == null ==> !res
    ensures g != null ==> (g.Valid()
      && g.numVertices == old(g.numVertices) && g.totVertices == old(g.totVertices)
      && g.verts == Removed(old(g.verts), idVertice)
      && (res <==> old(g.verts) != [] && !HeadKept(old(g.verts), idVertice)))
    ensures res ==> (g != null && |g.verts| == |old(g.verts)| - 1 && !HasId(g.verts, idVertice))
  {
    res := false;
    if g == null {
      return;
    }
    var novos;
    novos, res := EliminarVertice(g.verts, idVertice, res);
    RemovedAscending(g.verts, idVertice);
    g.verts := novos;
  }
}
