/**
 * The two graph queries of MaxTSP.c that the search asks: edgeToZero, the
 * edge that closes a cycle back to vertex 0, and subGraphReturnsToZero, the
 * pruning oracle, a depth-first traversal with an explicit stack.
 */
module Oracle {
  import opened Wrappers
  import opened Graphs
  import opened Lists
  import opened Paths

  /** The first edge of `es` whose source is `id`, if any. */
  function FirstFrom(es: seq<Edge>, id: int): (r: Option<Edge>)
    ensures r.None? <==> forall k :: 0 <= k < |es| ==> es[k].src != id
    ensures r.Some? ==>
              exists k :: 0 <= k < |es| && es[k] == r.value && r.value.src == id &&
                          forall j :: 0 <= j < k ==> es[j].src != id
  {
    if es == [] then None
    else if es[0].src == id then
      assert es[0].src == id;
      Some(es[0])
    else
      var r := FirstFrom(es[1..], id);
      assert r.Some? ==> exists k :: 1 <= k < |es| && es[k] == r.value && r.value.src == id &&
                                     forall j :: 0 <= j < k ==> es[j].src != id
      by {
        if r.Some? {
          var k :| 0 <= k < |es[1..]| && es[1..][k] == r.value && r.value.src == id &&
                   forall j :: 0 <= j < k ==> es[1..][j].src != id;
          assert es[k + 1] == r.value;
          assert forall j :: 1 <= j < k + 1 ==> es[1..][j - 1] == es[j];
        }
      }
      r
  }

  /**
   * The closing edge of vertex `id`: the first edge, in the order of vertex
   * 0's incoming list, whose source is `id`.
   */
  function ClosingEdge(g: Graph, id: int): Option<Edge>
  {
    FirstFrom(EdgeIn(g, 0), id)
  }

  /**
   * edgeToZero: scan vertex 0's incoming list for the first edge whose source
   * is `id`; None when there is none.
   */
  method EdgeToZero(g: Graph, id: int) returns (e: Option<Edge>)
    ensures e == ClosingEdge(g, id)
  {
    var ins := EdgeIn(g, 0);
    var k := 0;
    while k < |ins|
      invariant 0 <= k <= |ins|
      invariant FirstFrom(ins, id) == FirstFrom(ins[k..], id)
    {
      if ins[k].src == id {
        return Some(ins[k]);
      }
      assert ins[k..][1..] == ins[k + 1..];
      k := k + 1;
    }
    return None;
  }

  /** The closing edge, when there is one, is an edge of the graph into 0 from `id`. */
  lemma ClosingEdgeIsEdge(g: Graph, id: int)
    requires ClosingEdge(g, id).Some?
    ensures ClosingEdge(g, id).value in g.edges
    ensures ClosingEdge(g, id).value.src == id && ClosingEdge(g, id).value.dest == 0
  {
    var k :| 0 <= k < |EdgeIn(g, 0)| && EdgeIn(g, 0)[k] == ClosingEdge(g, id).value;
    assert EdgeIn(g, 0)[k] in EdgeIn(g, 0);
    InOfMembers(g.edges, 0);
  }

  /**
   * A walk that starts anywhere and then moves along edges of `g` into
   * vertices that are not on `path`.
   */
  ghost predicate IsWalk(g: Graph, path: seq<int>, w: seq<int>)
  {
    && |w| >= 1
    && (forall i :: 1 <= i < |w| ==> w[i] !in path)
    && forall i, j {:trigger w[i], w[j]} :: 0 <= i && j == i + 1 && j < |w| ==> Arc(g, w[i], w[j])
  }

  /** `u` is reached from `v`: `v` itself, or the end of a walk from `v`. */
  ghost predicate Reaches(g: Graph, path: seq<int>, v: int, u: int)
  {
    exists w {:trigger IsWalk(g, path, w)} :: IsWalk(g, path, w) && w[0] == v && w[|w| - 1] == u
  }

  /** Some vertex reached from `v` has an edge back to vertex 0. */
  ghost predicate ReturnsToZero(g: Graph, path: seq<int>, v: int)
  {
    exists u :: Reaches(g, path, v, u) && ClosingEdge(g, u).Some?
  }

  /** Every vertex reaches itself. */
  lemma ReachesSelf(g: Graph, path: seq<int>, v: int)
    ensures Reaches(g, path, v, v)
  {
    assert IsWalk(g, path, [v]);
  }

  /** One more edge into a vertex off the path extends what is reached. */
  lemma ReachesStep(g: Graph, path: seq<int>, v: int, x: int, y: int)
    requires Reaches(g, path, v, x)
    requires y !in path && Arc(g, x, y)
    ensures Reaches(g, path, v, y)
  {
    var w :| IsWalk(g, path, w) && w[0] == v && w[|w| - 1] == x;
    var w' := w + [y];
    assert forall i :: 0 <= i < |w| ==> w'[i] == w[i];
    assert IsWalk(g, path, w');
  }

  /** In a well-formed graph everything reached from a vertex 0..n-1 is one too. */
  lemma ReachesInRange(g: Graph, n: int, path: seq<int>, v: int, u: int)
    requires WellFormed(g, n) && 0 <= v < n
    requires Reaches(g, path, v, u)
    ensures 0 <= u < n
  {
    var w :| IsWalk(g, path, w) && w[0] == v && w[|w| - 1] == u;
    if |w| > 1 {
      assert Arc(g, w[|w| - 2], w[|w| - 1]);
    }
  }

  /**
   * A set that contains the start of a walk and is closed under edges into
   * vertices off the path contains the walk's end.
   */
  lemma {:induction false} WalkStaysIn(g: Graph, path: seq<int>, seen: set<int>, w: seq<int>)
    requires IsWalk(g, path, w) && w[0] in seen
    requires forall a, b :: a in seen && Arc(g, a, b) && b !in path ==> b in seen
    ensures w[|w| - 1] in seen
    decreases |w|
  {
    if |w| > 1 {
      var w' := w[..|w| - 1];
      assert forall i :: 0 <= i < |w'| ==> w'[i] == w[i];
      assert IsWalk(g, path, w');
      WalkStaysIn(g, path, seen, w');
      assert Arc(g, w[|w| - 2], w[|w| - 1]);
    }
  }

  /** Whether the inner loop of subGraphReturnsToZero pushes `y`. */
  predicate Pushes(y: int, visited: seq<bool>, path: seq<int>)
  {
    0 <= y < |visited| && !visited[y] && y !in path
  }

  /**
   * The ids the inner loop of subGraphReturnsToZero pushes for the first `k`
   * out-edges `outs`, newest first: the destinations that are neither
   * visited nor on `path`, in reverse edge order. An id already on the stack
   * is pushed again.
   */
  ghost function Pushed(outs: seq<Edge>, k: int, visited: seq<bool>, path: seq<int>): seq<int>
    requires k <= |outs|
  {
    if k <= 0 then []
    else (if Pushes(outs[k - 1].dest, visited, path) then [outs[k - 1].dest] else []) + Pushed(outs, k - 1, visited, path)
  }

  /** An id is pushed exactly when one of the first `k` edges leads to it and it is neither visited nor on `path`. */
  lemma {:induction false} PushedMembers(outs: seq<Edge>, k: int, visited: seq<bool>, path: seq<int>, u: int)
    requires k <= |outs|
    ensures u in Pushed(outs, k, visited, path) <==>
              exists j :: 0 <= j < k && outs[j].dest == u && Pushes(u, visited, path)
    decreases k
  {
    if k > 0 {
      PushedMembers(outs, k - 1, visited, path, u);
    }
  }

  /**
   * The ids pushed for the out-edges of `x` are unvisited out-neighbours of
   * `x` off `path`, and every such neighbour is pushed.
   */
  lemma PushedOut(g: Graph, n: int, x: int, visited: seq<bool>, path: seq<int>)
    requires WellFormed(g, n) && |visited| == n
    ensures forall u :: u in Pushed(EdgeOut(g, x), |EdgeOut(g, x)|, visited, path) ==>
              0 <= u < n && !visited[u] && u !in path && Arc(g, x, u)
    ensures forall b :: Arc(g, x, b) && b !in path ==>
              (0 <= b < n && visited[b]) || b in Pushed(EdgeOut(g, x), |EdgeOut(g, x)|, visited, path)
  {
    var outs := EdgeOut(g, x);
    OutOfMembers(g.edges, x);
    forall u | u in Pushed(outs, |outs|, visited, path)
      ensures 0 <= u < n && !visited[u] && u !in path && Arc(g, x, u)
    {
      PushedMembers(outs, |outs|, visited, path, u);
      var j :| 0 <= j < |outs| && outs[j].dest == u && Pushes(u, visited, path);
      assert outs[j] in outs;
    }
    forall b | Arc(g, x, b) && b !in path
      ensures (0 <= b < n && visited[b]) || b in Pushed(outs, |outs|, visited, path)
    {
      var e :| e in g.edges && e.src == x && e.dest == b;
      assert e in outs;
      var j :| 0 <= j < |outs| && outs[j] == e;
      PushedMembers(outs, |outs|, visited, path, b);
    }
  }

  /**
   * One step of the inner loop of subGraphReturnsToZero: the out-neighbour
   * `y` of `x` is pushed exactly when it is neither visited nor on `path`,
   * even when it is already on the stack.
   */
  method VisitNeighbour(n: int, path: seq<int>, y: int, visited: array<bool>, stack: List<int>) returns (ghost pushed: bool)
    requires visited.Length == n && 0 <= y < n
    requires stack.Valid() && visited !in stack.Repr
    modifies stack.Repr
    ensures stack.Valid() && old(stack.Repr) <= stack.Repr && fresh(stack.Repr - old(stack.Repr))
    ensures stack.contents == (if pushed then [y] else []) + old(stack.contents)
    ensures pushed <==> !visited[y] && y !in path
    ensures y in path || visited[y] || pushed || y in old(stack.contents)
  {
    var onPath := SearchArray(path, y);
    pushed := false;
    if !visited[y] && !onPath {
      var nd := new Node(y);
      Push(stack, nd);
      pushed := true;
    }
  }

  /**
   * The inner loop of subGraphReturnsToZero over the out-list `outs`: push
   * each destination that is neither visited nor on `path`, in list order.
   */
  method PushEach(n: int, path: seq<int>, outs: seq<Edge>, visited: array<bool>, stack: List<int>)
    requires visited.Length == n && forall j :: 0 <= j < |outs| ==> 0 <= outs[j].dest < n
    requires stack.Valid() && visited !in stack.Repr
    modifies stack.Repr
    ensures stack.Valid() && old(stack.Repr) <= stack.Repr && fresh(stack.Repr - old(stack.Repr))
    ensures stack.contents == Pushed(outs, |outs|, visited[..], path) + old(stack.contents)
  {
    for k := 0 to |outs|
      invariant stack.Valid() && old(stack.Repr) <= stack.Repr && fresh(stack.Repr - old(stack.Repr))
      invariant stack.contents == Pushed(outs, k, visited[..], path) + old(stack.contents)
    {
      ghost var p := VisitNeighbour(n, path, outs[k].dest, visited, stack);
    }
  }

  /**
   * The inner loop of subGraphReturnsToZero for vertex `x`. The pushed ids,
   * newest first, are `pushed`: the unvisited out-neighbours of `x` off the
   * path, in reverse out-list order; afterwards every neighbour of `x` off the
   * path is visited or on the stack.
   */
  method PushUnvisited(g: Graph, n: int, path: seq<int>, x: int, visited: array<bool>, stack: List<int>) returns (ghost pushed: seq<int>)
    requires WellFormed(g, n) && visited.Length == n
    requires stack.Valid() && visited !in stack.Repr
    modifies stack.Repr
    ensures stack.Valid() && fresh(stack.Repr - old(stack.Repr))
    ensures pushed == Pushed(EdgeOut(g, x), |EdgeOut(g, x)|, visited[..], path)
    ensures stack.contents == pushed + old(stack.contents)
    ensures forall u :: u in pushed ==> 0 <= u < n && !visited[u] && u !in path && Arc(g, x, u)
    ensures forall b :: Arc(g, x, b) && b !in path ==> (0 <= b < n && visited[b]) || b in stack.contents
  {
    var outs := EdgeOut(g, x);
    OutOfMembers(g.edges, x);
    assert forall j :: 0 <= j < |outs| ==> outs[j] in outs;
    PushEach(n, path, outs, visited, stack);
    pushed := Pushed(outs, |outs|, visited[..], path);
    PushedOut(g, n, x, visited[..], path);
  }

  /**
   * When the traversal stops, with `v` visited and every edge out of a
   * visited vertex into a vertex off the path leading to a visited vertex,
   * every vertex reached from `v` is visited.
   */
  lemma ReachedAreVisited(g: Graph, n: int, path: seq<int>, v: int, visited: seq<bool>)
    requires WellFormed(g, n) && |visited| == n && 0 <= v < n && visited[v]
    requires forall a, b :: 0 <= a < n && visited[a] && Arc(g, a, b) && b !in path ==>
               0 <= b < n && visited[b]
    ensures forall u :: Reaches(g, path, v, u) ==> 0 <= u < n && visited[u]
  {
    var seen := set i | 0 <= i < n && visited[i];
    forall u | Reaches(g, path, v, u)
      ensures 0 <= u < n && visited[u]
    {
      var w :| IsWalk(g, path, w) && w[0] == v && w[|w| - 1] == u;
      WalkStaysIn(g, path, seen, w);
    }
  }

  /**
   * What the traversal keeps true: stacked and visited vertices are reached
   * from `v`; `v` is visited or stacked; and every edge from a visited vertex
   * into a vertex off the path leads to a visited or a stacked vertex.
   */
  ghost predicate DfsInv(g: Graph, n: int, path: seq<int>, v: int, visited: seq<bool>, stack: seq<int>)
  {
    && |visited| == n && 0 <= v < n
    && (forall u :: u in stack ==> 0 <= u < n && Reaches(g, path, v, u))
    && (forall u :: 0 <= u < n && visited[u] ==> Reaches(g, path, v, u))
    && (visited[v] || v in stack)
    && forall a, b :: 0 <= a < n && visited[a] && Arc(g, a, b) && b !in path ==>
         (0 <= b < n && visited[b]) || b in stack
  }

  /** The vertices not yet visited. */
  ghost function Unvisited(visited: seq<bool>): set<int>
  {
    set i | 0 <= i < |visited| && !visited[i]
  }

  /** 0 when the top of the stack is a vertex not yet visited, 1 otherwise. */
  ghost function TopFlag(visited: seq<bool>, stack: seq<int>): int
  {
    if |stack| > 0 && 0 <= stack[0] < |visited| && !visited[stack[0]] then 0 else 1
  }

  /**
   * One step of the traversal makes progress: fewer unvisited vertices, or as
   * many and an unvisited vertex newly on top, or else a shorter stack.
   */
  ghost predicate Progress(visited: seq<bool>, stack: seq<int>, visited': seq<bool>, stack': seq<int>)
  {
    || Unvisited(visited') < Unvisited(visited)
    || (&& Unvisited(visited') == Unvisited(visited)
        && (TopFlag(visited', stack') < TopFlag(visited, stack)
            || (TopFlag(visited', stack') == TopFlag(visited, stack) && |stack'| < |stack|)))
  }

  /**
   * One round of the outer loop of subGraphReturnsToZero: pop the vertex `x`
   * on top, mark it visited and push its unvisited out-neighbours off the
   * path.
   */
  method VisitTop(g: Graph, n: int, path: seq<int>, v: int, visited: array<bool>, stack: List<int>) returns (x: int)
    requires WellFormed(g, n) && visited.Length == n
    requires stack.Valid() && visited !in stack.Repr && stack.size > 0
    requires DfsInv(g, n, path, v, visited[..], stack.contents)
    modifies visited, stack.Repr
    ensures stack.Valid() && fresh(stack.Repr - old(stack.Repr)) && visited !in stack.Repr
    ensures x == old(stack.contents[0]) && 0 <= x < n
    ensures visited[..] == old(visited[..])[x := true]
    ensures stack.contents == Pushed(EdgeOut(g, x), |EdgeOut(g, x)|, visited[..], path) + old(stack.contents[1..])
    ensures DfsInv(g, n, path, v, visited[..], stack.contents)
    ensures Progress(old(visited[..]), old(stack.contents), visited[..], stack.contents)
  {
    ghost var vis := visited[..];
    ghost var st := stack.contents;
    assert st[0] in st;
    ghost var below := st[1..];
    assert forall u :: u in below ==> u in st;
    x := Pop(stack);
    ghost var firstVisit := !visited[x];
    if !visited[x] {
      visited[x] := true;
    }
    ghost var vis' := visited[..];
    assert forall u :: 0 <= u < n && u != x ==> vis'[u] == vis[u];
    ghost var pushed := PushUnvisited(g, n, path, x, visited, stack);
    assert visited[..] == vis';
    forall u | u in pushed
      ensures Reaches(g, path, v, u)
    {
      ReachesStep(g, path, v, x, u);
    }
    assert stack.contents == pushed + below;
    if firstVisit {
      assert Unvisited(vis') < Unvisited(vis) by {
        assert x in Unvisited(vis) && x !in Unvisited(vis');
      }
    } else {
      assert Unvisited(vis') == Unvisited(vis);
      if pushed != [] {
        assert pushed[0] in pushed;
      }
    }
  }

  /**
   * The outer loop of subGraphReturnsToZero: visit the top of the stack
   * until the stack is empty.
   */
  method Explore(g: Graph, n: int, path: seq<int>, v: int, visited: array<bool>, stack: List<int>)
    requires WellFormed(g, n) && visited.Length == n
    requires stack.Valid() && visited !in stack.Repr
    requires DfsInv(g, n, path, v, visited[..], stack.contents)
    modifies visited, stack.Repr
    ensures stack.Valid() && stack.contents == []
    ensures DfsInv(g, n, path, v, visited[..], [])
  {
    while stack.size > 0
      invariant stack.Valid() && fresh(stack.Repr - old(stack.Repr)) && visited !in stack.Repr
      invariant DfsInv(g, n, path, v, visited[..], stack.contents)
      decreases Unvisited(visited[..]), TopFlag(visited[..], stack.contents), stack.size
    {
      var top := VisitTop(g, n, path, v, visited, stack);
    }
  }

  /**
   * The final loop of subGraphReturnsToZero: whether some visited vertex has
   * an edge back to vertex 0.
   */
  method ScanVisited(g: Graph, visited: array<bool>) returns (r: bool)
    ensures r <==> exists u :: 0 <= u < visited.Length && visited[u] && ClosingEdge(g, u).Some?
  {
    for i := 0 to visited.Length
      invariant forall j :: 0 <= j < i && visited[j] ==> ClosingEdge(g, j).None?
    {
      if visited[i] {
        var e := EdgeToZero(g, i);
        if e.Some? {
          return true;
        }
      }
    }
    return false;
  }

  /**
   * subGraphReturnsToZero: a depth-first traversal from `v` with an explicit
   * stack; a popped vertex is marked visited, and each of its out-neighbours
   * that is neither visited nor on `path` is pushed. Then the visited
   * vertices are scanned for one with an edge back to vertex 0. The result is
   * exactly whether some vertex reached from `v` has such an edge. The source
   * returns 1 or 0.
   */
  method SubGraphReturnsToZero(g: Graph, n: int, v: int, path: seq<int>) returns (r: bool)
    requires WellFormed(g, n) && 0 <= v < n
    ensures r <==> ReturnsToZero(g, path, v)
  {
    var visited := new bool[n](_ => false);
    var stack := new List<int>();
    var first := new Node(v);
    Push(stack, first);
    ReachesSelf(g, path, v);
    assert stack.contents == [v];
    Explore(g, n, path, v, visited, stack);
    ReachedAreVisited(g, n, path, v, visited[..]);
    r := ScanVisited(g, visited);
    if r {
      var u :| 0 <= u < n && visited[u] && ClosingEdge(g, u).Some?;
      assert Reaches(g, path, v, u);
    }
  }
}
