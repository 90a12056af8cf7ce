# MaxTSP in Dafny

A model of MaxTSP, a breadth-first branch-and-bound search for the most
expensive round trip through a complete or partial undirected graph. The
program reads n and the strict upper triangle of an n-by-n cost matrix. It
turns every positive cost into two directed edges, one per direction. It then
explores partial paths that start at vertex 0, breadth first.

Each partial path (a "state") carries:

- the edge it was reached by;
- its path, an array of n vertex ids padded with -1;
- the cost of its edges before the last one.

Processing a state other than the start state does the following:

- it counts the state;
- it adds the cost of the state's edge;
- if the current vertex has an edge back to vertex 0, it offers the closed
  cycle as a candidate for the best cost and saves the path when the candidate
  is strictly greater.

The start state has no edge: it is not counted, gets no edge cost and offers
no candidate. Every state, the start state included, then enqueues one child
for every out-edge into a vertex not yet on the path.

With the BOUND switch, a child is enqueued only when a depth-first search over
the vertices off the path finds a vertex with an edge back to 0. Pruning
skips only states that could never offer a candidate, so it never changes the
computed best cost or the printed best path; only the printed visit count can
shrink. The model proves this by showing that the pruned run is the unpruned
run with those states removed. The driver then continues with
the head of the queue until the queue is empty.

The model has seven modules:

| module | file | contents |
|---|---|---|
| `Wrappers` | `wrappers.dfy` | `Option` |
| `Lists` | `lists.dfy` | The singly linked list of `graph.c`: real `Node` objects whose `next` fields are rewritten in place, with a ghost spine and contents. It is used as the FIFO queue of states and as the depth-first stack. |
| `Graphs` | `graphs.dfy` | The graph as a value: vertex ids in creation order and the global edge list. A vertex's `edge_out` and `edge_in` lists are the out- and in-edges of that list, in order. |
| `Paths` | `paths.dfy` | The -1 padded path arrays, `initPath` and `searchArray`. Also the counting facts (used prefix, pigeonhole) that bound the depth of the search. |
| `Oracle` | `oracle.dfy` | `edgeToZero` and the pruning test `subGraphReturnsToZero`. The test is an imperative depth-first search over a `visited` array and a linked stack. It is proved equal to reachability of vertex 0's in-neighbours by walks that avoid the path. |
| `Build` | `build.dfy` | The graph construction in `main`, and what the built edge list contains. |
| `Search` | `search.dfy` | The globals as a `Solver` object, and `MaxTSP` itself. The driver is specified by the ghost list of the states it processes. That list is the breadth-first order: the start state, then the children of every processed state in turn. The best cost is the running maximum of the candidates over that list, and the best path is the one recorded by the first state reaching it. |

The program is meant to find the most expensive Hamiltonian cycle, one that
visits every vertex once. Where that intent and the code differ, the model
follows the code:

- A candidate is offered at every state other than the start state, not only
  at states whose path holds all n vertices. A state whose current vertex has
  an edge back to 0 offers its accumulated cost plus that edge's cost. For
  n = 3 with costs 10 for {0,1} and 1 for {0,2} and {1,2}:
  - the state with path [0, 1] offers 10 + 10 = 20, which is 0 → 1 → 0;
  - the Hamiltonian cycles are worth 12.

  `Search.Solver.Visit` models this as written, and `Search.CandidateIsCycle`
  shows that such a candidate is the cost of the cycle it closes.
- The best path need not list every vertex. `saveCurrentBestPath` copies
  the used prefix of the state's path and writes a single 0 after it when
  there is room. Later entries keep older values. In the example above, the
  best path is [0, 1, 0].
- The states are processed in order of depth, so no state saved before the
  best one wrote past its used prefix. The best path therefore shows the
  best state's used prefix, a 0, and after that entries that no save wrote.
  The source prints all n entries, so those unwritten entries are
  uninitialised memory whenever the best path is shorter than n - 1
  vertices. For n = 4 with a single edge {0, 1} of cost 5, the source prints
  [0, 1, 0, ?]. The model starts the array at zeros, so `Search.Solve`
  returns the used prefix followed by zeros, here [0, 1, 0, 0].

## Model

| member | source | states |
|---|---|---|
| `Lists.Node.constructor` | graph.c:24-35 | A new node holds the given data and links to nothing. |
| `Lists.List.constructor` | graph.c:9-19 | A new list is empty, with no head and size 0, and is well linked. |
| `Lists.Enqueue` | graph.c:95-109 | A null list or node changes nothing. Otherwise the node's data joins the back of the contents, the size grows by one, and the list stays well linked with a valid tail. |
| `Lists.Dequeue` | graph.c:132-146 | The result is absent exactly when the list is null or empty. Otherwise it is the front element, the contents lose their first element, and the size drops by one. |
| `Lists.Push` | graph.c:189-198 | The node's data becomes the first element, the size grows by one, and the tail pointer is untouched. |
| `Lists.Pop` | graph.c:203-210 | On a non-empty stack, returns the first element and removes it, and the size drops by one. |
| `Lists.FifoOrder` | graph.c:95-146 | Enqueueing a sequence onto a new list and dequeueing until it is empty gives the sequence back in the same order. |
| `Lists.LifoOrder` | graph.c:189-210 | Pushing a sequence onto a new stack and popping until it is empty gives the sequence reversed. |
| `Graphs.OutOfMembers` | graph.c:69-73 | An edge is in a vertex's out-list exactly when it is in the edge list and leaves that vertex. |
| `Graphs.InOfMembers` | graph.c:69-73 | An edge is in a vertex's in-list exactly when it is in the edge list and enters that vertex. |
| `Graphs.InitGraph` | graph.c:79-89 | The new graph has no vertices and no edges, and every adjacency list is empty. |
| `Graphs.InitVertex` | graph.c:40-54 | The vertex id joins the end of the vertex list, and the edges are unchanged. |
| `Graphs.InitVertexLists` | graph.c:48-49 | Adding a vertex changes no adjacency list. A fresh id, not used by any edge, starts with empty in- and out-lists. |
| `Graphs.InitEdge` | MaxTSP.c:230-234 | Each `initEdge` call in main, followed by the enqueue of the new edge onto the graph's edge list: the edge joins the end of the edge list, and the vertices are unchanged. |
| `Graphs.InitEdgeLists` | graph.c:72-73 | The edge joins the end of its source's out-list and its destination's in-list. Every other vertex's lists are unchanged. |
| `Graphs.VertexSearch` | graph.c:152-165 | None exactly when the id is absent. Otherwise the index of the first vertex with that id. |
| `Graphs.EdgeSearch` | graph.c:171-183 | True exactly when some edge has the same source and destination. |
| `Paths.FirstFree` | MaxTSP.c:43-48 | The first -1 at or after the start index, or the length when there is none. |
| `Paths.SearchArray` | MaxTSP.c:74-80 | True exactly when the value occurs in the array. |
| `Paths.InitPath` | MaxTSP.c:26-52 | Without a parent, the path is 0 followed by -1s. With a parent, it is the parent's path with the edge's destination written into the first -1 from index 1 on; nothing is written when there is none. The edge and the cost are stored as given. |
| `Paths.RootPathWellFormed` | MaxTSP.c:50 | The start path is well formed, with one used slot. |
| `Paths.Pigeonhole` | MaxTSP.c:173 | A full path of n distinct ids below n contains every vertex, so a full path has no child. |
| `Paths.ExtendAppends` | MaxTSP.c:41-48 | Extending a well-formed path by a vertex not on it keeps it well formed. The used prefix grows by exactly that vertex, and the path was not full. |
| `Oracle.FirstFrom` | MaxTSP.c:62-67 | None exactly when no edge leaves the id. Otherwise the first edge in list order that leaves it. |
| `Oracle.EdgeToZero` | MaxTSP.c:59-69 | Returns the first in-edge of vertex 0 whose source is the id, or none. |
| `Oracle.ClosingEdgeIsEdge` | MaxTSP.c:59-69 | A found closing edge is an edge of the graph from the id to 0. |
| `Oracle.ReachesSelf` | MaxTSP.c:107-108 | The start vertex of the search is reached from itself. |
| `Oracle.ReachesStep` | MaxTSP.c:115-120 | Following an edge to a vertex off the path extends reachability. |
| `Oracle.ReachesInRange` | MaxTSP.c:117 | Every reached vertex is a valid id. |
| `Oracle.WalkStaysIn` | MaxTSP.c:110-124 | A walk that starts in a set closed under edges to off-path vertices ends in that set. |
| `Oracle.VisitNeighbour` | MaxTSP.c:117-120 | The neighbour is pushed exactly when it is unvisited and off the path, even if it is already on the stack. The stack gains exactly that vertex on top or is unchanged. |
| `Oracle.PushEach` | MaxTSP.c:115-123 | After the inner loop over an out-list, the stack is the old stack under the unvisited, off-path destinations of the list, newest first. |
| `Oracle.PushedMembers` | MaxTSP.c:115-123 | A vertex is among those pushed for the first k edges exactly when one of those edges leads to it and it is unvisited and off the path. |
| `Oracle.PushedOut` | MaxTSP.c:115-123 | The vertices pushed for a vertex's out-list are exactly its unvisited, off-path out-neighbours; every off-path out-neighbour is visited or pushed. |
| `Oracle.PushUnvisited` | MaxTSP.c:115-123 | The stack becomes the unvisited, off-path out-neighbours of the vertex, in reverse out-list order, on top of the old stack. Each of them is an out-neighbour; every off-path out-neighbour ends up visited or on the stack. |
| `Oracle.ReachedAreVisited` | MaxTSP.c:110-124 | When the visited set contains the start and is closed under edges to off-path vertices, every reached vertex is visited. |
| `Oracle.VisitTop` | MaxTSP.c:111-123 | One turn of the search pops the top vertex, marks it visited and changes no other visited entry, and pushes its unvisited off-path out-neighbours on the rest of the stack. It keeps the invariant (visited vertices and stacked vertices are reachable, unexplored edges lead to the stack) and strictly decreases the termination measure. |
| `Oracle.Explore` | MaxTSP.c:110-124 | Runs until the stack is empty while keeping the search invariant. |
| `Oracle.ScanVisited` | MaxTSP.c:125-134 | True exactly when some visited vertex has an edge back to 0. |
| `Oracle.SubGraphReturnsToZero` | MaxTSP.c:100-136 | True exactly when some vertex reachable from the given one, by walks that avoid the path, has an edge back to 0. |
| `Build.BuildGraph` | MaxTSP.c:211-239 | The graph has vertices 0..n-1 in order, and exactly the edges read row by row. |
| `Build.AddRow` | MaxTSP.c:224-238 | One row of the triangle appends the edge pairs of that row in column order. |
| `Build.PairEdgesMembers` | MaxTSP.c:225-235 | A cell adds exactly the two directed edges between its row and column, with its cost, when that cost is positive. |
| `Build.RowEdgesSound` | MaxTSP.c:224-238 | Every edge a row adds joins its row index to a larger column read in that row, with positive cost. |
| `Build.RowEdgesComplete` | MaxTSP.c:224-238 | Every positive cell of a row adds its edges. |
| `Build.RowEdgesMembers` | MaxTSP.c:224-238 | Both directions of row membership. |
| `Build.MatrixEdgesSound` | MaxTSP.c:223-239 | Every edge of the first rows was read for a pair whose smaller id is one of those rows. |
| `Build.MatrixEdgesComplete` | MaxTSP.c:223-239 | Every positive cell of the first rows adds its edges. |
| `Build.MatrixEdgesMembers` | MaxTSP.c:223-239 | Both directions of matrix membership. |
| `Build.BuiltEdges` | MaxTSP.c:223-239 | An edge is in the built graph exactly when it joins two distinct ids below n and carries their positive cost. |
| `Build.BuiltSymmetric` | MaxTSP.c:230-234 | The built graph has an edge exactly when it has the reverse edge with the same cost. |
| `Build.BuiltWellFormed` | MaxTSP.c:223-239 | Every built edge joins ids below n with a positive cost. |
| `Build.RowEdgesRange` | MaxTSP.c:224-238 | A row's edges join the row index to a larger id below the column bound. |
| `Build.MatrixEdgesRange` | MaxTSP.c:223-239 | The edges of the first rows have their smaller id among those rows. |
| `Build.RowEdgesDistinct` | MaxTSP.c:224-238 | A row never adds two edges with the same source and destination. |
| `Build.MatrixEdgesDistinct` | MaxTSP.c:223-239 | The rows never add two edges with the same source and destination. |
| `Build.BuiltNoParallelEdges` | MaxTSP.c:223-239 | The built edge list holds each ordered pair at most once. |
| `Search.ArcCostOf` | MaxTSP.c:153 | Without parallel edges, the cost found between an edge's endpoints is that edge's cost. |
| `Search.EndsFixCosts` | MaxTSP.c:153 | Without parallel edges, every edge of the graph costs what its endpoints determine, so a path's cost is a function of its vertices. |
| `Search.ChildOk` | MaxTSP.c:172-180 | A child through an edge to a vertex off the path is a well-shaped queued state one vertex deeper. It keeps the parent's used prefix, and its accumulated cost is the cost of the edges along its path. |
| `Search.ChildrenFromMembers` | MaxTSP.c:170-183 | A state is a child exactly when it is built from an out-edge that the rule admits. |
| `Search.ChildrenFromLength` | MaxTSP.c:170-183 | There are at most as many children as out-edges. |
| `Search.ChildrenRules` | MaxTSP.c:170-183 | Every child comes through an out-edge of the current vertex into a vertex off the path, and carries the parent's accumulated cost. Its path is the parent's plus that vertex. Every admitted out-edge yields a child. |
| `Search.FullPathNoChildren` | MaxTSP.c:173 | A state whose path holds n vertices has no children. |
| `Search.SumWCons` | MaxTSP.c:188 | Taking the head off the queue removes exactly the head's weight. |
| `Search.SumWChildren` | MaxTSP.c:170-183 | The children of a state weigh at most one child-level weight per out-edge. |
| `Search.ChildrenWeigh` | MaxTSP.c:170-183 | A state's children together weigh strictly less than the state. |
| `Search.PendingQueue` | MaxTSP.c:180-189 | Enqueueing a state's children keeps every queued state well shaped. Queue plus children weigh less than the state plus the old queue, which is why the search ends. |
| `Search.AllOkCons` | MaxTSP.c:146-189 | A well-shaped state in front of well-shaped processed states keeps them all well shaped. |
| `Search.HeadStep` | MaxTSP.c:185-189 | Processing the queue head first, then the rest, lists the whole queue followed by all children: breadth-first order. |
| `Search.QueueStep` | MaxTSP.c:180-189 | After a state, the rest processed lists the old queue and then the children of everything processed. |
| `Search.BestStep` | MaxTSP.c:155-160 | After a state then the rest, the best cost is the running maximum and bounds every candidate. The best path is unchanged with the cost, or else comes from the first state reaching it. The best-path array is what the successive saves leave. |
| `Search.CandidateIsCycle` | MaxTSP.c:153-158 | The candidate a state offers is the cost of the cycle it closes: the edges along its path, then an existing edge from its last vertex back to 0. |
| `Search.ConcatIsFlatten` | MaxTSP.c:170-183 | The children of a run of states are the concatenation of each state's children. |
| `Search.ChildListsDeeper` | MaxTSP.c:41-48 | Every child lies one level deeper than its parent. |
| `Search.NotOwnChildren` | MaxTSP.c:170-189 | A nonempty run of states is never exactly the children of its own states. |
| `Search.FlattenedRunOrdered` | MaxTSP.c:180-188 | A run whose states after the first are the children of all its states, in order, comes in order of depth. |
| `Search.BreadthFirst` | MaxTSP.c:180-188 | The FIFO queue processes the states in order of depth: breadth first. |
| `Search.SettledKeepsPath` | MaxTSP.c:157-159 | The best cost never falls, the best-path array keeps its length, and once the best cost settles no later state saves. |
| `Search.SavedBeyond` | MaxTSP.c:89-98 | In a run in order of depth, the entries of the best-path array past the depth of the state that first reaches the final best cost are those it started with. |
| `Search.BestShown` | MaxTSP.c:89-98 | From a zero-filled array, a run in order of depth leaves the best-path array showing the best state's used prefix followed by zeros. |
| `Search.Solver.constructor` | MaxTSP.c:208-219 | The set-up in main: the graph built from the triangle, without parallel edges, best cost -1, an empty queue, an n-entry best path of zeros and a zero count. |
| `Search.Solver.SaveCurrentBestPath` | MaxTSP.c:89-98 | The best path holds the used prefix of the path and then a 0 when there is room. Later entries keep their values. |
| `Search.Solver.Append` | MaxTSP.c:180 | The state joins the back of the queue. |
| `Search.Solver.EnqueueChild` | MaxTSP.c:172-181 | The child for an edge is appended exactly when its destination is off the path and, with pruning, the oracle admits it. |
| `Search.Solver.EnqueueChildren` | MaxTSP.c:170-183 | The queue grows by exactly the children for the out-edges, in their order. |
| `Search.SaveRecords` | MaxTSP.c:89-98 | Saving a path copies the path's used prefix, writes a 0 after it, and leaves every entry past that 0 unchanged. |
| `Search.Solver.Visit` | MaxTSP.c:147-164 | A non-start state is counted, its edge cost added, and its candidate replaces the best cost only when strictly greater, and the best-path array is then the save of its path. Otherwise the best cost and path are unchanged. The start state is not counted. |
| `Search.Solver.ProcessState` | MaxTSP.c:146-183 | One visit, with the same best-cost, best-path and count promises, followed by enqueueing exactly the state's children. |
| `Search.Solver.Take` | MaxTSP.c:188 | Returns and removes the head of the queue, which is well shaped; the queue loses exactly its weight. |
| `Search.Solver.MaxTsp` | MaxTSP.c:146-192 | The search ends with an empty queue. It processes, in order: the state, the queue as it was, and the children of every processed state, each of whose accumulated cost is the cost of its path. It counts every processed state but the start state. The best cost is the running maximum of the candidates and bounds all of them. A changed best cost is the cycle cost of the first state reaching it, whose path was saved; the best-path array is what the successive saves leave. |
| `Search.Solver.Continue` | MaxTSP.c:185-189 | The tail call: the states processed are the queue followed by the children of every processed state, with the same count, best-cost and best-path promises. |
| `Search.Solve` | MaxTSP.c:208-245 | The run from the start state processes it first and then the children of every processed state, in order of depth. The computed cost is the maximum of -1 and every candidate, and the count excludes the start state. The path is the array the successive saves leave over zeros. With no candidate, the path is n zeros. Otherwise the cost is the cycle cost of the first state reaching it, and the path is that state's used prefix followed by zeros. |
| `Search.KeptExtend` | MaxTSP.c:173-180 | A child path passes every pruning test of its ancestry exactly when its parent's path does and its new vertex passes the test against the parent's path. |
| `Search.CandidateKept` | MaxTSP.c:100-136 | A state that offers a candidate passes every pruning test of its ancestry: its own path, from the vertex at any depth on, is a walk that avoids the earlier vertices and ends at a vertex with an edge back to 0. |
| `Search.ChildKept` | MaxTSP.c:173-180 | The child for one out-edge in the unpruned search passes the tests exactly when the pruned search enqueues it from a parent that passes them. |
| `Search.ChildrenFromKept` | MaxTSP.c:170-183 | Of a state's children in the unpruned search, those passing the tests are exactly its children in the pruned search, and none when the state itself fails them. |
| `Search.ChildrenKept` | MaxTSP.c:170-183 | The same for the children of a well-shaped state. |
| `Search.ConcatKept` | MaxTSP.c:170-189 | The children of a run in the unpruned search that pass the tests are the pruned children of the run's states that pass them. |
| `Search.KeptOnlyBest` | MaxTSP.c:154-160 | Dropping the states that fail the tests changes neither the best cost nor the best-path array. |
| `Search.RunUnique` | MaxTSP.c:180-189 | Two breadth-first runs from the same state are equal. |
| `Search.PruningKeepsBest` | MaxTSP.c:174-179 | The pruned run is the unpruned run restricted to the states that pass the tests, and both give the same best cost and best-path array. |
| `Search.PruningAgrees` | MaxTSP.c:174-179 | With and without the BOUND switch the program computes the same best cost and prints the same best path; only the printed visit count can differ, and the pruned run processes no more states. |

## Left out

- Reading the input: fopen, fscanf and stdin. The triangle of costs is a
  parameter, and a short or malformed input is excluded by the `Triangle`
  precondition.
- Printing: printGraph, printArr and the commented-out traces. The program
  prints the best path with the ids as stored.
- malloc failure (perror and exit) and free. Memory is not modelled.
- `n` is at least 1. With n = 0 the source writes `path[0]` of a zero-size
  allocation (MaxTSP.c:50). It then dereferences the NULL that
  `vertexSearch` returns for vertex 0 in a graph without vertices
  (MaxTSP.c:163 and 170).
- `Search.Solver.constructor`: the best-path array starts as zeros. In the
  source it is uninitialised memory. `printArr` prints all n entries, so it
  reads uninitialised entries whenever no candidate was found, and also
  whenever the best state's path is shorter than n - 1 vertices: no save
  writes past the 0 after the used prefix. For n = 4 with a single edge
  {0, 1} of cost 5, the source prints [0, 1, 0, ?]. `Search.Solve` states
  the zero-filled result, [0, 1, 0, 0].
- `initEdge` and main's enqueue of the new edge onto the graph's edge list
  are modelled as one step, `Graphs.InitEdge`. A vertex's `edge_out` and
  `edge_in` lists are not stored. They are derived from the edge list as
  `EdgeOut` and `EdgeIn`, and `Graphs.InitEdgeLists` proves that they grow
  as the two enqueues in `initEdge` make them grow.
- `Lists.List.constructor`: the tail pointer starts as null. In the source it
  is uninitialised, and only `enqueue` on a non-empty list reads it.
- `Lists.Pop`: requires a non-empty stack. The source dereferences a null head
  otherwise, and it only pops while the stack is non-empty.
- The `visited` field of a vertex, the `connected_to_start` list and the
  `math.h` include are never used by the search, and are not modelled.
- The vertices, edges and paths are values, not pointers. A vertex is its id,
  and `vertexSearch` returns the index of the id. Pointer identity of edges
  (`edgeSearch` compares vertex pointers) becomes equality of ids.
- `Search.Solver.Visit`: the NULL result of `vertexSearch` cannot happen,
  since ids 0..n-1 are all present. This is not modelled as a failure.
- The BOUND compile-time switch is the `pruning` flag. The search is proved
  for both values, and `Search.PruningAgrees` relates the two runs.
- Integer overflow: costs, sums and the `visited_node_count` counter are
  unbounded integers, so C `int` wrap-around is not modelled. On a complete
  graph the unpruned search processes more than 2^31 states once n >= 14, so
  the printed count of the source wraps there while `Search.Solve` does not.
- `Search.Solve`: returns the best cost, which main computes but never prints;
  main prints only the best path and the visit count (MaxTSP.c:242-245).
- The flags that the source returns as 1/0 are booleans.
- `Search.Solver.MaxTsp`: requires every queued state to be well shaped. The
  driver itself establishes this for everything it enqueues.
- `Search.Solver.MaxTsp`: does not state that the queue nodes it allocates
  are fresh.
- The tail call `MaxTSP(dequeue(q))` is modelled as mutual recursion between
  `Search.Solver.MaxTsp` and `Search.Solver.Continue`. A weight that strictly
  decreases bounds the recursion. The source's call-stack growth is not
  modelled.
