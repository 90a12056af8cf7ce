/**
 * The graph store of graph.c. Vertices are known by their integer id and edges
 * are value triples; the graph keeps its vertex list and its edge list in
 * insertion order. A vertex's `edge_out` and `edge_in` lists are not stored
 * separately: every edge the program creates is registered in its endpoints'
 * lists and appended to the graph's edge list in the same order, so each
 * adjacency list is the subsequence of the edge list with that source
 * (respectively destination).
 */
module Graphs {
  import opened Wrappers

  /** edge_t: source id, destination id and cost. */
  datatype Edge = Edge(src: int, dest: int, val: int)

  /** graph_t: vertex ids and edges, both in insertion order. */
  datatype Graph = Graph(vertexes: seq<int>, edges: seq<Edge>)

  /** The edges of `es` leaving `v`, in order. */
  function OutOf(es: seq<Edge>, v: int): (r: seq<Edge>)
    ensures |r| <= |es|
  {
    if es == [] then [] else OutOf(es[..|es| - 1], v) + (if es[|es| - 1].src == v then [es[|es| - 1]] else [])
  }

  /** The edges of `es` arriving at `v`, in order. */
  function InOf(es: seq<Edge>, v: int): (r: seq<Edge>)
    ensures |r| <= |es|
  {
    if es == [] then [] else InOf(es[..|es| - 1], v) + (if es[|es| - 1].dest == v then [es[|es| - 1]] else [])
  }

  /** The out-list of `v` holds exactly the edges of `es` whose source is `v`. */
  lemma {:induction false} OutOfMembers(es: seq<Edge>, v: int)
    ensures forall e {:trigger e in OutOf(es, v)} {:trigger e in es} :: e in OutOf(es, v) <==> e in es && e.src == v
    decreases |es|
  {
    if es != [] {
      OutOfMembers(es[..|es| - 1], v);
      assert es == es[..|es| - 1] + [es[|es| - 1]];
    }
  }

  /** The in-list of `v` holds exactly the edges of `es` whose destination is `v`. */
  lemma {:induction false} InOfMembers(es: seq<Edge>, v: int)
    ensures forall e {:trigger e in InOf(es, v)} {:trigger e in es} :: e in InOf(es, v) <==> e in es && e.dest == v
    decreases |es|
  {
    if es != [] {
      InOfMembers(es[..|es| - 1], v);
      assert es == es[..|es| - 1] + [es[|es| - 1]];
    }
  }

  /** The `edge_out` list of vertex `v`. */
  function EdgeOut(g: Graph, v: int): seq<Edge>
  {
    OutOf(g.edges, v)
  }

  /** The `edge_in` list of vertex `v`. */
  function EdgeIn(g: Graph, v: int): seq<Edge>
  {
    InOf(g.edges, v)
  }

  /** Some edge of `g` goes from `a` to `b`. */
  ghost predicate Arc(g: Graph, a: int, b: int)
  {
    exists e {:trigger e in g.edges} :: e in g.edges && e.src == a && e.dest == b
  }

  /** Every edge joins two of the ids 0..n-1 and has a positive cost. */
  ghost predicate WellFormed(g: Graph, n: int)
  {
    forall e {:trigger e in g.edges} :: e in g.edges ==> 0 <= e.src < n && 0 <= e.dest < n && e.val > 0
  }

  /** initGraph: no vertices and no edges, so every adjacency list is empty. */
  function InitGraph(): (g: Graph)
    ensures g.vertexes == [] && g.edges == []
    ensures forall v :: EdgeOut(g, v) == [] && EdgeIn(g, v) == []
  {
    Graph([], [])
  }

  /**
   * initVertex followed by its enqueue onto `g->vertexes`: the id joins the
   * end of the vertex list and the edge list stays as it was.
   */
  function InitVertex(g: Graph, id: int): (r: Graph)
    ensures r.vertexes == g.vertexes + [id] && r.edges == g.edges
  {
    Graph(g.vertexes + [id], g.edges)
  }

  /**
   * A new vertex changes no adjacency list; in particular a new id that no
   * edge mentions starts with both lists empty.
   */
  lemma InitVertexLists(g: Graph, id: int)
    ensures forall v :: EdgeOut(InitVertex(g, id), v) == EdgeOut(g, v) && EdgeIn(InitVertex(g, id), v) == EdgeIn(g, v)
    ensures (forall e {:trigger e in g.edges} :: e in g.edges ==> e.src != id && e.dest != id) ==>
              EdgeOut(InitVertex(g, id), id) == [] && EdgeIn(InitVertex(g, id), id) == []
  {
    var r := InitVertex(g, id);
    OutOfMembers(r.edges, id);
    InOfMembers(r.edges, id);
    assert EdgeOut(r, id) != [] ==> EdgeOut(r, id)[0] in EdgeOut(r, id);
    assert EdgeIn(r, id) != [] ==> EdgeIn(r, id)[0] in EdgeIn(r, id);
  }

  /**
   * initEdge followed by its enqueue onto `g->edges`: the new edge joins the
   * end of the edge list and the vertex list stays as it was.
   */
  function InitEdge(g: Graph, src: int, dest: int, val: int): (r: Graph)
    ensures r.vertexes == g.vertexes
    ensures r.edges == g.edges + [Edge(src, dest, val)]
  {
    Graph(g.vertexes, g.edges + [Edge(src, dest, val)])
  }

  /**
   * initEdge registers the new edge at the end of the out-list of `src` and
   * at the end of the in-list of `dest`, and every other adjacency list is
   * unchanged.
   */
  lemma InitEdgeLists(g: Graph, src: int, dest: int, val: int)
    ensures EdgeOut(InitEdge(g, src, dest, val), src) == EdgeOut(g, src) + [Edge(src, dest, val)]
    ensures EdgeIn(InitEdge(g, src, dest, val), dest) == EdgeIn(g, dest) + [Edge(src, dest, val)]
    ensures forall v :: v != src ==> EdgeOut(InitEdge(g, src, dest, val), v) == EdgeOut(g, v)
    ensures forall v :: v != dest ==> EdgeIn(InitEdge(g, src, dest, val), v) == EdgeIn(g, v)
  {
    var r := InitEdge(g, src, dest, val);
    assert r.edges[..|r.edges| - 1] == g.edges;
  }

  /**
   * vertexSearch: the position of the first vertex with id `id`, or None
   * when there is none.
   */
  method VertexSearch(g: Graph, id: int) returns (r: Option<nat>)
    ensures r.None? <==> id !in g.vertexes
    ensures r.Some? ==>
              r.value < |g.vertexes| && g.vertexes[r.value] == id && id !in g.vertexes[..r.value]
  {
    var k := 0;
    while k < |g.vertexes|
      invariant 0 <= k <= |g.vertexes|
      invariant id !in g.vertexes[..k]
    {
      if g.vertexes[k] == id {
        return Some(k);
      }
      k := k + 1;
    }
    assert g.vertexes[..k] == g.vertexes;
    return None;
  }

  /** edgeSearch: whether some edge has the same source and destination as `e`. */
  method EdgeSearch(g: Graph, e: Edge) returns (found: bool)
    ensures found <==> exists k :: 0 <= k < |g.edges| && g.edges[k].src == e.src && g.edges[k].dest == e.dest
  {
    var k := 0;
    while k < |g.edges|
      invariant 0 <= k <= |g.edges|
      invariant forall j :: 0 <= j < k ==> !(g.edges[j].src == e.src && g.edges[j].dest == e.dest)
    {
      if g.edges[k].src == e.src && g.edges[k].dest == e.dest {
        return true;
      }
      k := k + 1;
    }
    return false;
  }
}
