# A verified model of a small C graph library

The library keeps a directed graph with an integer value on every vertex:

- a singly linked list of vertices, kept in ascending id order;
- for each vertex, a singly linked list of outgoing edges (`Adjacente`);
- a `Grafo` record holding the list head, a vertex counter and a declared bound.

Two searches run on top of it:

- `CalcularSomaCaminho` asks whether one vertex can be reached from another by a depth-first search. The search marks vertex ids in a boolean array and keeps a running sum.
- `CaminhoSomaMaxima` looks for the simple path with the largest sum of vertex values. It runs a backtracking depth-first search from every vertex, flags the vertices of the current path in their `visitado` field, and keeps the best sum in a `Resultado` record.

The model is written in Dafny, one module per C file:

| module | file | C source |
|---|---|---|
| `Header` | `header.dfy` | `header.h` |
| `Adjacentes` | `adjacentes.dfy` | `adjacentes.c` |
| `Vertices` | `vertices.dfy` | `vertices.c` |
| `Grafos` | `grafo.dfy` | `grafo.c` |
| `Paths` | `paths.dfy` | paths, simple paths and path sums; shared by both searches |
| `Caminhos` | `caminhos.dfy` | `caminhos.c` |
| `Soma` | `soma.dfy` | `soma.c` |

How the C constructs map to Dafny:

- Linked lists are sequences in link order. A pointer to a list node is its position, and `Option` stands for a pointer that may be NULL.
- `Grafo` and `Resultado` are classes whose methods update their fields.
- `visitado` in `CalcularSomaCaminho` is an `array<bool>`. The edge loop of `BuscarProfundidade` is a method of its own, `PercorrerAdjacentes`, and the two call each other.
- Where the C would read or write a flag outside the array, or follow an edge to an id that no vertex has (a NULL dereference), the search functions stop with a `fault`. The methods require only that their own run does not fault.
- An out-parameter `*res` becomes a returned value. Where the C code writes `*res` only on some paths, the caller's incoming value is a parameter, `res0`.

Each recursive search has a function beside it:

- `Dfs`/`DfsEdges` for `BuscarProfundidade`;
- `MaxSearch`/`MaxEdges` for `BuscarCaminhoMaximo`;
- `Sweep` for the outer loop of `CaminhoSomaMaxima`.

The methods are proved to compute exactly these functions. What the searches find is then proved about the functions, in terms of paths of the graph.

## Model

| member | source | states |
|---|---|---|
| Adjacentes.CriarAdjacente | adjacentes.c:26-35 | the new node is a one-element list holding exactly the given id, valor and peso |
| Adjacentes.RemoveFirst | adjacentes.c:72-87 | unlinking removes one node exactly when some edge targets the id: the length drops by one and the multiset loses exactly the first matching edge; otherwise the list is returned as it was |
| Adjacentes.RemoveFirstUnfolds | adjacentes.c:72-87 | the removal walks the list: non-matching nodes are kept, the first match is dropped, and everything after it is kept, including later duplicates |
| Adjacentes.EliminarAdjacente | adjacentes.c:69-91 | the result is the list without its first edge to `idAdj`, with every other edge in order; `*res` becomes true and the length drops by one exactly when such an edge existed; otherwise the list and the incoming `*res` are unchanged (also for an empty list) |
| Adjacentes.EliminaTodosAdjacentes | adjacentes.c:108-123 | the result is always the empty list, and `*res` is true if and only if the list was non-empty |
| Adjacentes.InserirAdjacente | adjacentes.c:142-161 | the new edge is appended at the tail: the old edges keep their order as a prefix, and the length grows by one |
| Vertices.CriarVertice | vertices.c:41-51 | the vertex has the given id and valor, is not flagged, and has no edges |
| Vertices.Find | vertices.c:143-151 | the lookup succeeds if and only if some vertex has the id; it then gives a position holding that id, with no earlier vertex having it |
| Vertices.ExisteVertice | vertices.c:119-127 | true if and only if some vertex of the list has the id |
| Vertices.ObterVertice | vertices.c:143-151 | the first vertex with the id, or NULL exactly when no vertex has it |
| Vertices.InserirVertice | vertices.c:71-103 | `*res` is true if and only if the id was absent; an empty list becomes the one-vertex list; a duplicate id leaves the list unchanged; otherwise the vertex is linked in before the first vertex whose id is not smaller; an ascending list stays ascending |
| Vertices.InsertPosUnique | vertices.c:86-91 | the insertion point is the only position where every earlier id is smaller and the next id, if any, is not |
| Vertices.InsertedContents | vertices.c:86-100 | insertion adds exactly the new vertex, at the insertion point: the length grows by one and the multiset of vertices gains exactly that vertex |
| Vertices.InsertedAscending | vertices.c:86-100 | inserting an absent id into a strictly ascending list keeps it strictly ascending |
| Vertices.AscendingIsUnique | vertices.c:71-103 | a strictly ascending list never holds two vertices with the same id |
| Vertices.EliminarVertice | vertices.c:170-193 | an empty list is returned unchanged with the incoming `*res`; removing the head fails, leaving the list unchanged with `*res` false, exactly when the head has no edges; every other removal succeeds, unlinking the vertex and shortening the list by one |
| Vertices.RemovedContents | vertices.c:175-191 | a successful removal unlinks exactly the vertex found for the id and keeps all the others, in their order; the multiset loses exactly that vertex |
| Vertices.RemovedAscending | vertices.c:170-193 | removal keeps the list strictly ascending, and after a successful removal no vertex has the id |
| Vertices.EliminarAdjTodosVertices | vertices.c:212-222 | every vertex keeps its id, value and flag, and its edge list loses only its first edge to the id; lists without such an edge are unchanged; the list length and its ascending order are kept; `*res` is true if and only if the list is non-empty |
| Grafos.Grafo.CriarGrafo | grafo.c:23-31 | the new graph has no vertices, the counter is 0 and the bound is `tot` |
| Grafos.ExisteVerticeGrafo | grafo.c:158-161 | false for a NULL graph; otherwise true if and only if the graph has a vertex with the id |
| Grafos.OndeEstaVerticeGrafo | grafo.c:140-143 | NULL for a NULL graph; otherwise the position ObterVertice gives |
| Grafos.InserirVerticeGrafo | grafo.c:51-70 | the code is 0 for a NULL vertex, -1 for a NULL graph, -2 for a duplicate id and 1 otherwise; on success the vertex is inserted in order and the counter grows by one; on any other code the graph is unchanged; the bound is never consulted; the graph invariant is kept |
| Grafos.WithEdge | grafo.c:94-97 | only the origin changes: its edge list gains one edge at the tail, holding the destination's id and value and the sum of both values as weight |
| Grafos.InserirAdjGrafo | grafo.c:87-99 | `*res` is true if and only if both endpoints exist; in that case only the origin's list changes, by appending the new edge, and no reverse edge is added; otherwise nothing changes |
| Grafos.EliminarAdjGrafo | grafo.c:116-125 | `*res` is true if and only if both endpoints exist and the origin has an edge to the destination; in that case only that first edge is unlinked; otherwise nothing changes |
| Grafos.EliminarVerticeGrafo | grafo.c:177-181 | the vertex list becomes the one EliminarVertice returns, the counter is never decremented, and a successful removal leaves no vertex with the id |
| Caminhos.Dfs | caminhos.c:29-54 | a search only ever sets flags, never clears them; a search that faults never succeeds; one that does not fault started from an id inside the flag array and marked it |
| Caminhos.BuscarProfundidade | caminhos.c:29-54 | whenever the search from `v` does not fault, the answer, the flags left in `visitado` and the final sum are exactly those of the recursive search Dfs |
| Caminhos.PercorrerAdjacentes | caminhos.c:39-53 | whenever the loop over `v`'s edges does not fault, its answer, flags and sum are exactly those of DfsEdges: the first successful branch ends it, marked targets are skipped |
| Caminhos.SearchableSafe | caminhos.c:29-54 | on a graph whose ids all fit the flag array and whose edges all lead to vertices of the list, no search faults |
| Caminhos.BuscaIgnoraArestaPendente | caminhos.c:39-47 | an edge to a missing vertex that the search never follows does no harm: vertex 0 (value 5) and vertex 1 with an edge to the absent id 9, over two flags, answer 5 from 0 to 0 without fault |
| Caminhos.DfsAccount | caminhos.c:30-46 | a search that does not fault enters its start vertex first and then only vertices whose ids were unmarked, each id at most once; the flags set afterwards are exactly the old ones plus the ids entered; the sum grows by the value of every vertex entered |
| Caminhos.DfsTrail | caminhos.c:35-53 | a successful search stopped on a path of edges from the start vertex to a vertex with the destination id, all of whose later ids were unmarked and pairwise distinct |
| Caminhos.DfsClosed | caminhos.c:40-53 | after a failed search that did not fault, no vertex it entered has the destination id, and every edge leaving those vertices leads to a marked id |
| Caminhos.DfsComplete | caminhos.c:35-53 | with unique ids, if some path from the start vertex reaches the destination id and no in-range id along it after the start is marked, a search that does not fault succeeds |
| Caminhos.CalcularSomaCaminho | caminhos.c:75-101 | -1 when the graph is NULL or an endpoint is missing; otherwise it searches from the origin over `totVertices` cleared flags, starting from sum 0, and answers the sum on success and -1 on failure |
| Caminhos.BuscaReaches | caminhos.c:75-101 | the query succeeds only along a simple path from the origin to the destination; with unique ids, a search that does not fault succeeds if and only if the destination can be reached |
| Caminhos.SomaCaminhoEntered | caminhos.c:89-100 | when the search does not fault, the answer is -1 on failure and otherwise the sum of the values of every vertex the search entered, starting with the origin, with no id entered twice |
| Caminhos.SomaCaminhoSelf | caminhos.c:31-37 | from a vertex to itself, the search faults exactly when the id lies outside the flag array, and otherwise answers that vertex's value |
| Caminhos.SomaCaminhoCorrigidaPath | caminhos.c:60-74 | the corrected answer is the sum of the values along a simple path from the origin to the destination; it is -1 when no path exists; with unique ids, a search that does not fault finds a path whenever one exists |
| Caminhos.SomaCaminhoIncluiBecos | caminhos.c:29-54 | on a three-vertex graph with a dead end, the answer as written is 111 while the sum along the path found is 101 |
| Soma.Resultado.constructor | soma.c:98-100 | the record starts with the given sum, path end and graph |
| Soma.Atualizar | soma.c:27-34 | the record is replaced by the offered sum and path end only when that sum is strictly greater, so ties keep the earlier path; the best sum never decreases and is at least the offered sum |
| Soma.AtualizarResultado | soma.c:27-34 | -1 for a NULL record; otherwise 0, with the record updated as Atualizar says |
| Soma.MaxSearch | soma.c:55-76 | the best sum never decreases over a search, and a search that does not raise it leaves the record as it was |
| Soma.MaxEdges | soma.c:64-72 | the same for the loop over a vertex's edges |
| Soma.Sweep | soma.c:101-104 | the same for the loop over all vertices |
| Soma.BuscarCaminhoMaximo | soma.c:55-76 | -1 for a NULL vertex, leaving everything unchanged; otherwise 0, with the record as MaxSearch gives it and the vertex list as before, except that the start vertex's flag is cleared |
| Soma.CaminhoSomaMaxima | soma.c:93-107 | the record starts at sum 0 with no path end and ends as Sweep gives it; every flag ends cleared, and nothing else in the vertex list changes |
| Soma.RankDecreases | soma.c:67-69 | entering an unflagged vertex from a flagged one leaves fewer unflagged vertices, so the recursion ends |
| Soma.PathMark | soma.c:60-74 | setting or clearing a flag changes no edge, no path and no path sum: the flags only steer the search |
| Soma.MaxSearchBound | soma.c:55-76 | no simple path from the start vertex through unflagged vertices beats the search: the record ends at least at the starting sum plus that path's sum |
| Soma.MaxEdgesBound | soma.c:64-72 | the same bound for the paths the edge loop may still follow |
| Soma.MaxSearchAttain | soma.c:55-76 | the search either leaves the record as it was, or leaves in it the sum of a simple path from the start vertex through unflagged vertices, naming that path's last vertex |
| Soma.MaxEdgesAttain | soma.c:64-72 | the same for the edge loop, for a path through one of the remaining edges |
| Soma.AttainedSelf | soma.c:61-63 | the start vertex alone is a path whose sum the record may take |
| Soma.SweepBound | soma.c:101-104 | with every flag clear, no simple path starting at or after the current vertex beats the sweep |
| Soma.SweepAttain | soma.c:101-104 | with every flag clear, the sweep either leaves the record as it was, or leaves in it the sum of some simple path, naming that path's last vertex |
| Soma.SomaMaximaCorrect | soma.c:93-107 | with every flag clear, the final sum is the largest sum of any simple path, or 0 when none is positive; it is at least 0; the path end stays NULL exactly when the sum is 0, and otherwise names the last vertex of a simple path with that sum |
| Soma.ClearedAll | soma.c:101-104 | after the sweep every flag is clear and nothing else changed, so a graph whose flags were clear is left exactly as it was |

## Left out

- Console output is not modelled. This covers `MostrarGrafo`, `MostrarGrafoLA`, `MostrarSomaMaxima` and the messages `CalcularSomaCaminho` prints. `MostrarSomaMaxima` walks the vertex list from the recorded vertex, in list order, so it does not print a path anyway.
- `main.c` is not part of this model: its grid setup, its printing and the commented-out file loader.
- Memory management is not modelled. This covers `malloc`/`free`, the allocation-failure branches, `DestruirAdjacente` and `DestruirVertice`. Allocation is taken to succeed.
- Pointer identity is not modelled. A vertex is a position in the vertex sequence. Updating a node in place is a sequence update, and list splicing is sequence concatenation.
- `Resultado.caminho` is a position in the vertex list, not a pointer; `Resultado.grafo` refers to the one graph being searched.
- Integers are unbounded. The C sums of values and the edge weights can overflow 32 bits; the model does not wrap them.
- Vertices.EliminarVertice: requires the id to be present in a non-empty list. The C search loop has no end-of-list guard and dereferences NULL when the id is absent.
- Grafos.EliminarVerticeGrafo: the C function has no `return` statement. The model returns the `*res` flag and does not model the missing return value.
- Grafos.InserirVerticeGrafo: the C passes its `int*` code to `InserirVertice`, which expects a `bool*`. The model takes the flag value the code ends up holding.
- Caminhos.BuscarProfundidade: requires that its own run does not fault. The run must not index the flag array outside its bounds, and must not follow an unmarked edge to an id that no vertex has. In the C these are an out-of-bounds access and a NULL dereference, whose behaviour is undefined, so the model says nothing about them. Ids and dangling edges that the run never touches are not constrained.
- Caminhos.PercorrerAdjacentes: requires, in the same way, that the rest of its edge loop does not fault.
- Caminhos.CalcularSomaCaminho: once both endpoints exist, requires `totVertices >= 0` and that this particular search does not fault. A negative size makes the C `malloc` call meaningless.
- Caminhos.CalcularSomaCaminho: the answer -1 is ambiguous. A successful search whose running sum is -1 answers the same as a failure; the model reproduces this.
- Soma.BuscarCaminhoMaximo: requires a non-NULL record and a vertex of the record's graph. The C dereferences `res->grafo` as soon as the vertex has an edge.
- Soma.CaminhoSomaMaxima: requires a non-NULL graph, as the C dereferences it.
- Soma.SomaMaximaCorrect: assumes every flag is clear at the start, as `CriarVertice` leaves every vertex. With flags already set, the result is still exactly `Sweep`, but no theorem about paths is stated for that case.
- Soma.SomaMaximaCorrect: on ties, the C keeps the path found first in search order. The theorem states only that the recorded vertex ends some simple path with the maximal sum, not that it is the first one found. `Atualizar` states the strict comparison that makes ties keep the earlier path.

## Findings

| source | as written | input that shows it | evidently intended | confidence | as-written member | corrected member |
|---|---|---|---|---|---|---|
| caminhos.c:89-100 | `CalcularSomaCaminho` returns the running sum of `BuscarProfundidade`, which adds the value of every vertex the search enters, dead ends included | vertices 0, 1, 2 with values 1, 10, 100 and edges 0->1, 0->2; the query from 0 to 2 answers 111 | the sum of the values along the path found (0, 2), which is 101, as the function's documentation says (caminhos.c:60-74) | not executed | Caminhos.SomaCaminhoIncluiBecos | Caminhos.SomaCaminhoCorrigidaPath |
