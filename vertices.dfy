/** The vertex collection (vertices.c): a singly linked list of vertices kept in
    ascending id order, modelled as a sequence in link order. A pointer to a
    vertex of the list is its position in the sequence. */
module Vertices {
  import opened Header
  import Adjacentes

  /** A new vertex with the given id and value, unmarked, with an empty
      adjacency list and no successor. */
  function CriarVertice(id: int, valor: int): (v: Vertice)
    ensures v.id == id && v.valor == valor
    ensures !v.visitado && v.adj == []
  {
    Vertice(id, valor, false, [])
  }

  /** Some vertex of `vs` has id `id`. */
  predicate HasId(vs: seq<Vertice>, id: int)
  {
    exists i :: 0 <= i < |vs| && vs[i].id == id
  }

  /** Strictly ascending ids, hence no duplicate id: the collection's invariant. */
  predicate Ascending(vs: seq<Vertice>)
  {
    forall i, j :: 0 <= i < j < |vs| ==> vs[i].id < vs[j].id
  }

  /** No two positions hold the same id. */
  predicate UniqueIds(vs: seq<Vertice>)
  {
    forall i, j :: 0 <= i < |vs| && 0 <= j < |vs| && vs[i].id == vs[j].id ==> i == j
  }

  lemma AscendingIsUnique(vs: seq<Vertice>)
    requires Ascending(vs)
    ensures UniqueIds(vs)
  {
  }

  /** The position of the first vertex with id `id`, or None (NULL). */
  function Find(vs: seq<Vertice>, id: int): (r: Option<nat>)
    ensures r.Some? <==> HasId(vs, id)
    ensures r.Some? ==> r.value < |vs| && vs[r.value].id == id
    ensures r.Some? ==> forall j :: 0 <= j < r.value ==> vs[j].id != id
  {
    if vs == [] then None
    else if vs[0].id == id then Some(0)
    else
      match Find(vs[1..], id)
      case None => None
      case Some(k) => Some(k + 1)
  }

  /** Under unique ids, the vertex with id `id` is found at its own position. */
  lemma FindUnique(vs: seq<Vertice>, i: nat)
    requires UniqueIds(vs) && i < |vs|
    ensures Find(vs, vs[i].id) == Some(i)
  {
  }

  /** Find depends only on the ids, in order. */
  lemma {:induction false} FindSameIds(vs: seq<Vertice>, ws: seq<Vertice>, id: int)
    requires |vs| == |ws|
    requires forall i :: 0 <= i < |vs| ==> vs[i].id == ws[i].id
    ensures Find(vs, id) == Find(ws, id)
  {
    if vs != [] && vs[0].id != id {
      FindSameIds(vs[1..], ws[1..], id);
    }
  }

  /** Position of the first vertex whose id is not below `id` (|vs| when none). */
  function InsertPos(vs: seq<Vertice>, id: int): (k: nat)
    ensures k <= |vs|
    ensures forall j :: 0 <= j < k ==> vs[j].id < id
    ensures k < |vs| ==> vs[k].id >= id
  {
    if vs == [] then 0
    else if vs[0].id >= id then 0
    else 1 + InsertPos(vs[1..], id)
  }

  /** The list with `nv` linked in before the first vertex whose id is not below its own. */
  function Inserted(vs: seq<Vertice>, nv: Vertice): seq<Vertice>
  {
    var k := InsertPos(vs, nv.id);
    vs[..k] + [nv] + vs[k..]
  }

  /** InsertPos is the only position with its two defining properties. */
  lemma {:induction false} InsertPosUnique(vs: seq<Vertice>, id: int, k: nat)
    requires k <= |vs|
    requires forall j :: 0 <= j < k ==> vs[j].id < id
    requires k < |vs| ==> vs[k].id >= id
    ensures k == InsertPos(vs, id)
  {
    if k > 0 {
      assert vs[0].id < id;
      InsertPosUnique(vs[1..], id, k - 1);
    }
  }

  /** Insertion adds exactly the new vertex, at position InsertPos. */
  lemma InsertedContents(vs: seq<Vertice>, nv: Vertice)
    ensures |Inserted(vs, nv)| == |vs| + 1
    ensures Inserted(vs, nv)[InsertPos(vs, nv.id)] == nv
    ensures multiset(Inserted(vs, nv)) == multiset(vs) + multiset{nv}
  {
    var k := InsertPos(vs, nv.id);
    var a, b := vs[..k], vs[k..];
    assert Inserted(vs, nv) == a + [nv] + b;
    assert vs == a + b;
    assert multiset(a + [nv] + b) == multiset(a) + multiset{nv} + multiset(b);
  }

  /** Inserting a fresh id keeps the list strictly ascending. */
  lemma InsertedAscending(vs: seq<Vertice>, nv: Vertice)
    requires Ascending(vs) && !HasId(vs, nv.id)
    ensures Ascending(Inserted(vs, nv))
  {
    var k := InsertPos(vs, nv.id);
    var r := Inserted(vs, nv);
    assert forall i :: 0 <= i < k ==> r[i] == vs[i];
    assert r[k] == nv;
    assert forall i :: k < i < |r| ==> r[i] == vs[i - 1];
    forall i | k <= i < |vs|
      ensures vs[i].id > nv.id
    {
      assert vs[k].id >= nv.id && vs[k].id != nv.id;
    }
  }

  /** In EliminarVertice, the head vertex is kept when it is the target and its
      adjacency list is empty (the edge purge then reports failure). */
  predicate HeadKept(vs: seq<Vertice>, id: int)
  {
    vs != [] && vs[0].id == id && vs[0].adj == []
  }

  /** The list EliminarVertice returns. */
  function Removed(vs: seq<Vertice>, id: int): seq<Vertice>
    requires vs != [] ==> HasId(vs, id)
  {
    if vs == [] || HeadKept(vs, id) then vs
    else
      var k := Find(vs, id).value;
      vs[..k] + vs[k + 1..]
  }

  /** Deletion unlinks exactly one vertex, the one found for the id, and keeps
      the others in order. */
  lemma RemovedContents(vs: seq<Vertice>, id: int)
    requires vs != [] && HasId(vs, id) && !HeadKept(vs, id)
    ensures |Removed(vs, id)| == |vs| - 1
    ensures var k := Find(vs, id).value;
      forall i :: 0 <= i < |vs| - 1 ==> Removed(vs, id)[i] == if i < k then vs[i] else vs[i + 1]
    ensures multiset(Removed(vs, id)) + multiset{vs[Find(vs, id).value]} == multiset(vs)
  {
    var k := Find(vs, id).value;
    assert Removed(vs, id) == vs[..k] + vs[k + 1..];
    DeleteAt(vs, k);
  }

  lemma DeleteAt(s: seq<Vertice>, k: nat)
    requires k < |s|
    ensures var r := s[..k] + s[k + 1..];
      && |r| == |s| - 1
      && (forall i :: 0 <= i < |r| ==> r[i] == if i < k then s[i] else s[i + 1])
      && multiset(r) + multiset{s[k]} == multiset(s)
  {
    assert s == s[..k] + [s[k]] + s[k + 1..];
  }

  /** Deletion keeps the list ascending, and a real deletion leaves no vertex
      with the id. */
  lemma RemovedAscending(vs: seq<Vertice>, id: int)
    requires vs != [] ==> HasId(vs, id)
    requires Ascending(vs)
    ensures Ascending(Removed(vs, id))
    ensures vs != [] && !HeadKept(vs, id) ==> !HasId(Removed(vs, id), id)
  {
    if vs != [] && !HeadKept(vs, id) {
      RemovedContents(vs, id);
      var k := Find(vs, id).value;
      var r := Removed(vs, id);
      forall i | 0 <= i < |r|
        ensures r[i].id != id
      {
        if i >= k {
          assert vs[k].id < vs[i + 1].id;
        }
      }
    }
  }

  /** ExisteVertice: linear scan for the id. */
  method ExisteVertice(inicio: seq<Vertice>, idVertice: int) returns (b: bool)
    ensures b <==> HasId(inicio, idVertice)
  {
    if inicio == [] {
      return false;
    }
    var aux := 0;
    while aux < |inicio|
      invariant 0 <= aux <= |inicio|
      invariant forall j :: 0 <= j < aux ==> inicio[j].id != idVertice
    {
      if inicio[aux].id == idVertice {
        return true;
      }
      aux := aux + 1;
    }
    return false;
  }

  /** ObterVertice: the first vertex with the id, or NULL. */
  method ObterVertice(inicio: seq<Vertice>, idVertice: int) returns (r: Option<nat>)
    ensures r == Find(inicio, idVertice)
    ensures r.None? <==> !HasId(inicio, idVertice)
  {
    if inicio == [] {
      return None;
    }
    var aux := 0;
    while aux < |inicio|
      invariant 0 <= aux <= |inicio|
      invariant forall j :: 0 <= j < aux ==> inicio[j].id != idVertice
    {
      if inicio[aux].id == idVertice {
        return Some(aux);
      }
      aux := aux + 1;
    }
    return None;
  }

  /** InserirVertice: reject a duplicate id, otherwise link the new vertex in
      before the first vertex with a larger id. */
  method InserirVertice(vertices: seq<Vertice>, novoVertice: Vertice) returns (r: seq<Vertice>, res: bool)
    ensures res <==> !HasId(vertices, novoVertice.id)
    ensures vertices == [] ==> r == [novoVertice]
    ensures res ==> r == Inserted(vertices, novoVertice)
    ensures !res ==> r == vertices
    ensures Ascending(vertices) ==> Ascending(r)
  {
    res := false;
    if vertices == [] {
      res := true;
      return [novoVertice], res;
    }
    var existe := ExisteVertice(vertices, novoVertice.id);
    if existe {
      return vertices, res;
    }
    var aux := 0;
    while aux < |vertices| && vertices[aux].id < novoVertice.id
      invariant 0 <= aux <= |vertices|
      invariant forall j :: 0 <= j < aux ==> vertices[j].id < novoVertice.id
    {
      aux := aux + 1;
    }
    res := true;
    if aux == 0 {
      r := [novoVertice] + vertices;
    } else {
      r := vertices[..aux] + [novoVertice] + vertices[aux..];
    }
    InsertPosUnique(vertices, novoVertice.id, aux);
    assert r == Inserted(vertices, novoVertice);
    InsertedContents(vertices, novoVertice);
    if Ascending(vertices) {
      InsertedAscending(vertices, novoVertice);
    }
  }

  /** EliminarVertice. The search loop has no end-of-list guard, so the id must
      be present in a non-empty list. Deleting the head first empties its
      adjacency list and gives up when that reports failure (empty list);
      deleting any other vertex just unlinks it. An empty list returns at once
      without writing `*res`, so `res0` passes through. */
  method EliminarVertice(vertices: seq<Vertice>, idVertice: int, res0: bool) returns (r: seq<Vertice>, res: bool)
    requires vertices != [] ==> HasId(vertices, idVertice)
    ensures r == Removed(vertices, idVertice)
    ensures vertices == [] ==> res == res0
    ensures vertices != [] ==> (res <==> !HeadKept(vertices, idVertice))
    ensures vertices != [] && res ==> |r| == |vertices| - 1
    ensures vertices == [] || !res ==> r == vertices
  {
    res := res0;
    if vertices == [] {
      return [], res;
    }
    var aux := 0;
    while vertices[aux].id != idVertice
      invariant 0 <= aux <= Find(vertices, idVertice).value
      decreases |vertices| - aux
    {
      aux := aux + 1;
    }
    assert Find(vertices, idVertice) == Some(aux);
    if aux == 0 {
      var vazia;
      vazia, res := Adjacentes.EliminaTodosAdjacentes(vertices[0].adj);
      if !res {
        return vertices, res;
      }
      r := vertices[1..];
    } else {
      r := vertices[..aux] + vertices[aux + 1..];
    }
    res := true;
  }

  /** EliminarAdjTodosVertices: in every vertex, unlink the first edge that
      targets `idVertice`. The flag ends true exactly when the list is non-empty. */
  method EliminarAdjTodosVertices(vertices: seq<Vertice>, idVertice: int) returns (r: seq<Vertice>, res: bool)
    ensures res <==> vertices != []
    ensures |r| == |vertices|
    ensures forall i :: 0 <= i < |r| ==>
      r[i] == vertices[i].(adj := Adjacentes.RemoveFirst(vertices[i].adj, idVertice))
    ensures forall i :: 0 <= i < |r| ==>
      !Adjacentes.HasEdgeTo(vertices[i].adj, idVertice) ==> r[i] == vertices[i]
    ensures Ascending(vertices) ==> Ascending(r)
  {
    res := false;
    if vertices == [] {
      return [], res;
    }
    r := vertices;
    var aux := 0;
    while aux < |r|
      invariant 0 <= aux <= |r| == |vertices|
      invariant forall i :: 0 <= i < aux ==>
        r[i] == vertices[i].(adj := Adjacentes.RemoveFirst(vertices[i].adj, idVertice))
      invariant forall i :: aux <= i < |r| ==> r[i] == vertices[i]
    {
      var novaLista;
      novaLista, res := Adjacentes.EliminarAdjacente(r[aux].adj, idVertice, res);
      r := r[aux := r[aux].(adj := novaLista)];
      aux := aux + 1;
    }
    res := true;
  }
}
