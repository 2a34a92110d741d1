/** Value types shared by the graph library (header.h): an entry of an
    adjacency list, a vertex owning its adjacency list, and an optional value
    standing for a pointer that may be NULL. */
module Header {

  /** `None` plays the role of a NULL pointer. */
  datatype Option<+T> = None | Some(value: T)

  /** One node of an adjacency list: the id of the target vertex, the target's
      value and the edge weight. Value and weight are snapshots taken when the
      edge was inserted. The `proximo` link is the position in the list. */
  datatype Adjacente = Adjacente(id: int, valor: int, peso: int)

  /** A vertex of the graph. `adj` is its adjacency list in list order and
      `visitado` the marker used by the maximum-path search. The `proxVertice`
      link is the position in the vertex list. */
  datatype Vertice = Vertice(id: int, valor: int, visitado: bool, adj: seq<Adjacente>)
}
