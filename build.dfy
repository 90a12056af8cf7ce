/**
 * The graph construction in main of MaxTSP.c. The program reads n and then
 * the strict upper triangle of an n-by-n cost matrix, row by row. Row i holds
 * the n - 1 - i costs of the pairs (i, j) with i < j, so the cost of that pair
 * is upper[i][j - i - 1]. Every positive cost adds the two directed edges
 * i -> j and j -> i with that cost; a cost of zero or less adds nothing.
 */
module Build {
  import opened Graphs

  /** The shape of an upper triangle with n rows. */
  ghost predicate Triangle(n: nat, upper: seq<seq<int>>)
  {
    |upper| == n && forall i :: 0 <= i < n ==> |upper[i]| == n - 1 - i
  }

  /** The cost read for the unordered pair {a, b} of distinct ids 0..n-1. */
  function Cost(n: nat, upper: seq<seq<int>>, a: int, b: int): int
    requires Triangle(n, upper) && 0 <= a < n && 0 <= b < n && a != b
  {
    if a < b then upper[a][b - a - 1] else upper[b][a - b - 1]
  }

  /** The edges added for the pair (i, j) with cost c. */
  function PairEdges(i: int, j: int, c: int): seq<Edge>
  {
    if c > 0 then [Edge(i, j, c), Edge(j, i, c)] else []
  }

  /** The edges added by row i for the pairs (i, j') with i < j' < j, in order. */
  function RowEdges(n: nat, upper: seq<seq<int>>, i: nat, j: nat): seq<Edge>
    requires Triangle(n, upper) && i < n && j <= n
    decreases j
  {
    if j <= i + 1 then []
    else RowEdges(n, upper, i, j - 1) + PairEdges(i, j - 1, upper[i][j - 1 - i - 1])
  }

  /** The edges added by the rows before row i, in order. */
  function MatrixEdges(n: nat, upper: seq<seq<int>>, i: nat): seq<Edge>
    requires Triangle(n, upper) && i <= n
  {
    if i == 0 then [] else MatrixEdges(n, upper, i - 1) + RowEdges(n, upper, i - 1, n)
  }

  /** The smaller and the larger endpoint of an edge. */
  function Low(e: Edge): int { if e.src < e.dest then e.src else e.dest }
  function High(e: Edge): int { if e.src < e.dest then e.dest else e.src }

  /**
   * The graph-building part of main: vertices 0..n-1 created in id order,
   * then the rows of the triangle in order.
   */
  method BuildGraph(n: nat, upper: seq<seq<int>>) returns (g: Graph)
    requires Triangle(n, upper)
    ensures g.vertexes == seq(n, i => i)
    ensures g.edges == MatrixEdges(n, upper, n)
  {
    g := InitGraph();
    for i := 0 to n
      invariant g.vertexes == seq(i, k => k) && g.edges == []
    {
      g := InitVertex(g, i);
    }
    for i := 0 to n
      invariant g.vertexes == seq(n, k => k)
      invariant g.edges == MatrixEdges(n, upper, i)
    {
      g := AddRow(g, n, upper, i);
    }
  }

  /**
   * The inner loop of the graph building: for each j > i, in order, the two
   * edges of the pair (i, j) when its cost is positive. Each endpoint is
   * looked up by id before the edges are created.
   */
  method AddRow(g: Graph, n: nat, upper: seq<seq<int>>, i: nat) returns (r: Graph)
    requires Triangle(n, upper) && i < n && g.vertexes == seq(n, k => k)
    ensures r.vertexes == g.vertexes
    ensures r.edges == g.edges + RowEdges(n, upper, i, n)
  {
    r := g;
    for j := i to n
      invariant r.vertexes == g.vertexes
      invariant r.edges == g.edges + RowEdges(n, upper, i, j)
    {
      ghost var before := r.edges;
      if i != j {
        var c := upper[i][j - i - 1];
        assert RowEdges(n, upper, i, j + 1) == RowEdges(n, upper, i, j) + PairEdges(i, j, c);
        if c > 0 {
          var vi := VertexSearch(r, i);
          var vj := VertexSearch(r, j);
          assert r.vertexes[i] == i && r.vertexes[j] == j;
          var a, b := r.vertexes[vi.value], r.vertexes[vj.value];
          r := InitEdge(r, a, b, c);
          r := InitEdge(r, b, a, c);
          assert r.edges == before + PairEdges(i, j, c);
        }
      }
    }
  }

  /**
   * `e` is one of the two directed edges read for the pair of its endpoints:
   * they are distinct ids 0..n-1 and the cost read for them is positive and
   * is the edge's cost.
   */
  ghost predicate ReadEdge(n: nat, upper: seq<seq<int>>, e: Edge)
    requires Triangle(n, upper)
  {
    0 <= Low(e) < High(e) < n && e.val == upper[Low(e)][High(e) - Low(e) - 1] && e.val > 0
  }

  /** The pair (i, k) adds exactly the edges read for it. */
  lemma PairEdgesMembers(n: nat, upper: seq<seq<int>>, i: nat, k: nat, e: Edge)
    requires Triangle(n, upper) && i < k < n
    ensures e in PairEdges(i, k, upper[i][k - i - 1]) <==> ReadEdge(n, upper, e) && Low(e) == i && High(e) == k
  {
    var c := upper[i][k - i - 1];
    if ReadEdge(n, upper, e) && Low(e) == i && High(e) == k {
      if e.src < e.dest {
        assert e == Edge(i, k, c);
      } else {
        assert e == Edge(k, i, c);
      }
    }
  }

  /** Every edge row i adds up to j was read for a pair (i, k) with k below j. */
  lemma {:induction false} RowEdgesSound(n: nat, upper: seq<seq<int>>, i: nat, j: nat, e: Edge)
    requires Triangle(n, upper) && i < n && j <= n
    ensures e in RowEdges(n, upper, i, j) ==> ReadEdge(n, upper, e) && Low(e) == i && High(e) < j
    decreases j
  {
    if j > i + 1 {
      RowEdgesSound(n, upper, i, j - 1, e);
      PairEdgesMembers(n, upper, i, j - 1, e);
      var front := RowEdges(n, upper, i, j - 1);
      var pair := PairEdges(i, j - 1, upper[i][j - 1 - i - 1]);
      assert e in front + pair ==> e in front || e in pair;
    }
  }

  /** Every edge read for a pair (i, k) with k below j is added by row i up to j. */
  lemma {:induction false} RowEdgesComplete(n: nat, upper: seq<seq<int>>, i: nat, j: nat, e: Edge)
    requires Triangle(n, upper) && i < n && j <= n
    requires ReadEdge(n, upper, e) && Low(e) == i && High(e) < j
    ensures e in RowEdges(n, upper, i, j)
    decreases j
  {
    var front := RowEdges(n, upper, i, j - 1);
    var pair := PairEdges(i, j - 1, upper[i][j - 1 - i - 1]);
    if High(e) < j - 1 {
      RowEdgesComplete(n, upper, i, j - 1, e);
      InFront(front, pair, e);
    } else {
      PairEdgesMembers(n, upper, i, j - 1, e);
      InBack(front, pair, e);
    }
  }

  /** An edge of either part is an edge of the concatenation. */
  lemma InFront(front: seq<Edge>, back: seq<Edge>, e: Edge)
    requires e in front
    ensures e in front + back
  {
  }

  lemma InBack(front: seq<Edge>, back: seq<Edge>, e: Edge)
    requires e in back
    ensures e in front + back
  {
  }

  /** Row i adds, up to j, exactly the edges read for pairs (i, k) with k below j. */
  lemma RowEdgesMembers(n: nat, upper: seq<seq<int>>, i: nat, j: nat, e: Edge)
    requires Triangle(n, upper) && i < n && j <= n
    ensures e in RowEdges(n, upper, i, j) <==> ReadEdge(n, upper, e) && Low(e) == i && High(e) < j
  {
    RowEdgesSound(n, upper, i, j, e);
    if ReadEdge(n, upper, e) && Low(e) == i && High(e) < j {
      RowEdgesComplete(n, upper, i, j, e);
    }
  }

  /** Every edge the rows before i add was read for a pair whose smaller id is below i. */
  lemma {:induction false} MatrixEdgesSound(n: nat, upper: seq<seq<int>>, i: nat, e: Edge)
    requires Triangle(n, upper) && i <= n
    ensures e in MatrixEdges(n, upper, i) ==> ReadEdge(n, upper, e) && Low(e) < i
    decreases i
  {
    if i > 0 {
      MatrixEdgesSound(n, upper, i - 1, e);
      RowEdgesSound(n, upper, i - 1, n, e);
      var front := MatrixEdges(n, upper, i - 1);
      var row := RowEdges(n, upper, i - 1, n);
      assert e in front + row ==> e in front || e in row;
    }
  }

  /** Every edge read for a pair whose smaller id is below i is added by the rows before i. */
  lemma {:induction false} MatrixEdgesComplete(n: nat, upper: seq<seq<int>>, i: nat, e: Edge)
    requires Triangle(n, upper) && i <= n && ReadEdge(n, upper, e) && Low(e) < i
    ensures e in MatrixEdges(n, upper, i)
    decreases i
  {
    var front := MatrixEdges(n, upper, i - 1);
    var row := RowEdges(n, upper, i - 1, n);
    assert MatrixEdges(n, upper, i) == front + row;
    if Low(e) < i - 1 {
      MatrixEdgesComplete(n, upper, i - 1, e);
      InFront(front, row, e);
    } else {
      RowEdgesComplete(n, upper, i - 1, n, e);
      InBack(front, row, e);
    }
  }

  /** The rows before i add exactly the edges read for pairs whose smaller id is below i. */
  lemma MatrixEdgesMembers(n: nat, upper: seq<seq<int>>, i: nat, e: Edge)
    requires Triangle(n, upper) && i <= n
    ensures e in MatrixEdges(n, upper, i) <==> ReadEdge(n, upper, e) && Low(e) < i
  {
    MatrixEdgesSound(n, upper, i, e);
    if ReadEdge(n, upper, e) && Low(e) < i {
      MatrixEdgesComplete(n, upper, i, e);
    }
  }

  /**
   * An edge is in the built graph exactly when it joins two distinct ids
   * 0..n-1 and carries the positive cost read for that pair.
   */
  lemma BuiltEdges(n: nat, upper: seq<seq<int>>, e: Edge)
    requires Triangle(n, upper)
    ensures e in MatrixEdges(n, upper, n) <==>
              && 0 <= e.src < n && 0 <= e.dest < n && e.src != e.dest
              && e.val == Cost(n, upper, e.src, e.dest) && e.val > 0
  {
    MatrixEdgesMembers(n, upper, n, e);
  }

  /** The built graph is symmetric: every edge has its reverse with the same cost. */
  lemma BuiltSymmetric(n: nat, upper: seq<seq<int>>, a: int, b: int, c: int)
    requires Triangle(n, upper)
    ensures Edge(a, b, c) in MatrixEdges(n, upper, n) <==> Edge(b, a, c) in MatrixEdges(n, upper, n)
  {
    BuiltEdges(n, upper, Edge(a, b, c));
    BuiltEdges(n, upper, Edge(b, a, c));
  }

  /** The built graph joins ids 0..n-1 by edges of positive cost. */
  lemma BuiltWellFormed(n: nat, upper: seq<seq<int>>)
    requires Triangle(n, upper)
    ensures WellFormed(Graph(seq(n, i => i), MatrixEdges(n, upper, n)), n)
  {
    forall e | e in MatrixEdges(n, upper, n)
      ensures 0 <= e.src < n && 0 <= e.dest < n && e.val > 0
    {
      BuiltEdges(n, upper, e);
    }
  }

  /** No two edges of `es` join the same ordered pair of ids. */
  ghost predicate NoParallelEdges(es: seq<Edge>)
  {
    forall k, l :: 0 <= k < l < |es| ==> es[k].src != es[l].src || es[k].dest != es[l].dest
  }

  /** The endpoint by which two blocks of the edge list are told apart. */
  function Rank(e: Edge, byLow: bool): int
  {
    if byLow then Low(e) else High(e)
  }

  /**
   * Two lists with no parallel edges concatenate to such a list when every
   * edge of the first ranks below every edge of the second: parallel edges
   * have the same endpoints, hence the same rank.
   */
  lemma JoinNoParallel(front: seq<Edge>, back: seq<Edge>, byLow: bool, bound: int)
    requires NoParallelEdges(front) && NoParallelEdges(back)
    requires forall x :: x in front ==> Rank(x, byLow) < bound
    requires forall y :: y in back ==> bound <= Rank(y, byLow)
    ensures NoParallelEdges(front + back)
  {
    var es := front + back;
    forall k, l | 0 <= k < l < |es|
      ensures es[k].src != es[l].src || es[k].dest != es[l].dest
    {
      if l >= |front| && k < |front| {
        assert es[k] in front && es[l] in back;
      }
    }
  }

  /** Row i's edges up to j join i to a larger id below j. */
  lemma RowEdgesRange(n: nat, upper: seq<seq<int>>, i: nat, j: nat)
    requires Triangle(n, upper) && i < n && j <= n
    ensures forall e :: e in RowEdges(n, upper, i, j) ==> Low(e) == i && i < High(e) < j
  {
    forall e | e in RowEdges(n, upper, i, j)
      ensures Low(e) == i && i < High(e) < j
    {
      RowEdgesSound(n, upper, i, j, e);
    }
  }

  /** The rows before i add edges whose smaller id is below i. */
  lemma MatrixEdgesRange(n: nat, upper: seq<seq<int>>, i: nat)
    requires Triangle(n, upper) && i <= n
    ensures forall e :: e in MatrixEdges(n, upper, i) ==> Low(e) < i
  {
    forall e | e in MatrixEdges(n, upper, i)
      ensures Low(e) < i
    {
      MatrixEdgesSound(n, upper, i, e);
    }
  }

  /** Row i's edges up to j never join the same ordered pair twice. */
  lemma {:induction false} RowEdgesDistinct(n: nat, upper: seq<seq<int>>, i: nat, j: nat)
    requires Triangle(n, upper) && i < n && j <= n
    ensures NoParallelEdges(RowEdges(n, upper, i, j))
    decreases j
  {
    if j > i + 1 {
      RowEdgesDistinct(n, upper, i, j - 1);
      RowEdgesRange(n, upper, i, j - 1);
      var front := RowEdges(n, upper, i, j - 1);
      var pair := PairEdges(i, j - 1, upper[i][j - 1 - i - 1]);
      JoinNoParallel(front, pair, false, j - 1);
      assert RowEdges(n, upper, i, j) == front + pair;
    }
  }

  /** The edges of the rows before i never join the same ordered pair twice. */
  lemma {:induction false} MatrixEdgesDistinct(n: nat, upper: seq<seq<int>>, i: nat)
    requires Triangle(n, upper) && i <= n
    ensures NoParallelEdges(MatrixEdges(n, upper, i))
    decreases i
  {
    if i > 0 {
      MatrixEdgesDistinct(n, upper, i - 1);
      RowEdgesDistinct(n, upper, i - 1, n);
      MatrixEdgesRange(n, upper, i - 1);
      RowEdgesRange(n, upper, i - 1, n);
      var front := MatrixEdges(n, upper, i - 1);
      var row := RowEdges(n, upper, i - 1, n);
      JoinNoParallel(front, row, true, i - 1);
      assert MatrixEdges(n, upper, i) == front + row;
    }
  }

  /**
   * Each positive pair contributes exactly two edges: the built edge list
   * never joins the same ordered pair twice.
   */
  lemma BuiltNoParallelEdges(n: nat, upper: seq<seq<int>>)
    requires Triangle(n, upper)
    ensures NoParallelEdges(MatrixEdges(n, upper, n))
  {
    MatrixEdgesDistinct(n, upper, n);
  }
}
