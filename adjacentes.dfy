/** Adjacency lists (adjacentes.c): singly linked lists of outgoing edges,
    modelled as sequences in link order. Each operation takes the list head and
    returns the new head, as the C functions do. */
module Adjacentes {
  import opened Header

  /** A new node holding exactly the given fields and no successor, i.e. a
      one-element list. */
  function CriarAdjacente(id: int, valor: int, peso: int): (node: seq<Adjacente>)
    ensures |node| == 1
    ensures node[0].id == id && node[0].valor == valor && node[0].peso == peso
  {
    [Adjacente(id, valor, peso)]
  }

  /** Some edge of `l` targets `id`. */
  predicate HasEdgeTo(l: seq<Adjacente>, id: int)
  {
    exists j :: 0 <= j < |l| && l[j].id == id
  }

  /** Position of the first edge of `l` that targets `id`, or |l| when none does. */
  function FirstEdgeTo(l: seq<Adjacente>, id: int): (k: nat)
    ensures k <= |l|
    ensures k < |l| ==> l[k].id == id
    ensures forall j :: 0 <= j < k ==> l[j].id != id
    ensures k < |l| <==> HasEdgeTo(l, id)
  {
    if l == [] then 0
    else if l[0].id == id then 0
    else 1 + FirstEdgeTo(l[1..], id)
  }

  /** `l` with its first edge to `id` unlinked, or `l` itself when there is none. */
  function RemoveFirst(l: seq<Adjacente>, id: int): (r: seq<Adjacente>)
    ensures |r| == if HasEdgeTo(l, id) then |l| - 1 else |l|
    ensures !HasEdgeTo(l, id) ==> r == l
    ensures HasEdgeTo(l, id) ==> multiset(r) + multiset{l[FirstEdgeTo(l, id)]} == multiset(l)
  {
    var k := FirstEdgeTo(l, id);
    if k < |l| then
      assert l == l[..k] + [l[k]] + l[k + 1..];
      l[..k] + l[k + 1..]
    else l
  }

  /** RemoveFirst read as list surgery: skip nodes that do not match, drop the
      first one that does, keep everything after it, later matches included. */
  lemma {:induction false} RemoveFirstUnfolds(l: seq<Adjacente>, id: int)
    ensures RemoveFirst(l, id) ==
      if l == [] then []
      else if l[0].id == id then l[1..]
      else [l[0]] + RemoveFirst(l[1..], id)
  {
    if l != [] && l[0].id != id {
      var k := FirstEdgeTo(l[1..], id);
      assert FirstEdgeTo(l, id) == 1 + k;
      if k < |l[1..]| {
        assert l[..1 + k] == [l[0]] + l[1..][..k];
        assert l[1 + k + 1..] == l[1..][k + 1..];
      } else {
        assert !HasEdgeTo(l, id);
        assert !HasEdgeTo(l[1..], id);
        assert l == [l[0]] + l[1..];
      }
    }
  }

  /** EliminarAdjacente: unlink the first edge targeting `idAdj`. The C code
      writes `*res` only when it removes a node, so the flag's incoming value
      `res0` is returned unchanged otherwise. */
  method EliminarAdjacente(listaAdj: seq<Adjacente>, idAdj: int, res0: bool)
    returns (r: seq<Adjacente>, res: bool)
    ensures r == RemoveFirst(listaAdj, idAdj)
    ensures HasEdgeTo(listaAdj, idAdj) ==> res && |r| == |listaAdj| - 1
    ensures !HasEdgeTo(listaAdj, idAdj) ==> r == listaAdj && res == res0
    ensures HasEdgeTo(listaAdj, idAdj) ==>
      var k := FirstEdgeTo(listaAdj, idAdj);
      r == listaAdj[..k] + listaAdj[k + 1..]
  {
    res := res0;
    if listaAdj == [] {
      return listaAdj, res;
    }
    var aux := 0;
    while aux < |listaAdj| && listaAdj[aux].id != idAdj
      invariant 0 <= aux <= |listaAdj|
      invariant forall j :: 0 <= j < aux ==> listaAdj[j].id != idAdj
    {
      aux := aux + 1;
    }
    if aux == |listaAdj| {
      return listaAdj, res;
    }
    if aux == 0 {
      r := listaAdj[1..];
    } else {
      r := listaAdj[..aux] + listaAdj[aux + 1..];
    }
    res := true;
  }

  /** EliminaTodosAdjacentes: free every node. The flag reports whether the
      list was non-empty on entry. */
  method EliminaTodosAdjacentes(listaAdj: seq<Adjacente>) returns (r: seq<Adjacente>, res: bool)
    ensures r == []
    ensures res <==> listaAdj != []
  {
    res := false;
    if listaAdj == [] {
      return [], res;
    }
    // The freeing walk: each turn releases the head node and moves on to the
    // next; with no heap in the model, what remains is the walk itself.
    var resto := listaAdj;
    while resto != []
      invariant resto == listaAdj[|listaAdj| - |resto|..]
      decreases |resto|
    {
      resto := resto[1..];
    }
    r := resto;
    res := true;
  }

  /** InserirAdjacente: walk to the last node and link a new node after it. */
  method InserirAdjacente(listaAdj: seq<Adjacente>, idDestino: int, valor: int, peso: int)
    returns (r: seq<Adjacente>)
    ensures r == listaAdj + CriarAdjacente(idDestino, valor, peso)
    ensures |r| == |listaAdj| + 1 && r[..|listaAdj|] == listaAdj
  {
    var novo := CriarAdjacente(idDestino, valor, peso);
    if listaAdj == [] {
      return novo;
    }
    // The search for the tail: `aux` follows the links until the node with
    // no successor, which is position |listaAdj| - 1 when the loop exits.
    var aux := 0;
    while aux + 1 < |listaAdj|
      invariant 0 <= aux < |listaAdj|
    {
      aux := aux + 1;
    }
    assert aux == |listaAdj| - 1;
    r := listaAdj[..aux + 1] + novo;
  }
}
