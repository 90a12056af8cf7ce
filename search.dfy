/**
 * The search driver of MaxTSP.c. The program's globals (the graph, the FIFO
 * queue of pending states, the best cost and path found so far and the count
 * of processed states) are the fields of a Solver object. The driver takes a
 * state, counts its edge, offers its closing cycle as a candidate, and
 * enqueues one child per out-edge into a vertex not yet on the path (and,
 * with pruning on, from which vertex 0 can still be reached); then it goes on
 * with the state at the head of the queue until the queue is empty.
 */
module Search {
  import opened Wrappers
  import opened Graphs
  import opened Lists
  import opened Paths
  import opened Oracle
  import opened Build

  /** The vertex a state stands on: the end of its edge, or 0 for the start state. */
  function Current(p: PathState): int
  {
    if p.inEdge.Some? then p.inEdge.value.dest else 0
  }

  /** A state's cost once its own edge is counted. */
  function Accumulated(p: PathState): int
  {
    if p.inEdge.Some? then p.cost + p.inEdge.value.val else p.cost
  }

  /**
   * The value of the cycle a state closes: its accumulated cost plus the
   * closing edge back to 0. The start state and a state without a closing
   * edge offer nothing.
   */
  function Candidate(g: Graph, p: PathState): Option<int>
  {
    if p.inEdge.None? then None
    else
      match ClosingEdge(g, Current(p))
      case None => None
      case Some(e) => Some(Accumulated(p) + e.val)
  }

  /** The best cost after a candidate is offered: replaced only by a strictly greater value. */
  function Improve(best: int, c: Option<int>): int
  {
    if c.Some? && c.value > best then c.value else best
  }

  /** The cost of the first edge of `es` from `a` to `b`; 0 when there is none. */
  ghost function ArcCost(es: seq<Edge>, a: int, b: int): int
  {
    if es == [] then 0
    else if es[0].src == a && es[0].dest == b then es[0].val
    else ArcCost(es[1..], a, b)
  }

  /** Without parallel edges, the cost of an edge is the cost between its endpoints. */
  lemma {:induction false} ArcCostOf(es: seq<Edge>, e: Edge)
    requires NoParallelEdges(es) && e in es
    ensures ArcCost(es, e.src, e.dest) == e.val
    decreases |es|
  {
    if es[0] != e {
      var l :| 0 <= l < |es| && es[l] == e;
      assert l > 0;
      assert forall k, m :: 0 <= k < m < |es[1..]| ==> es[1..][k] == es[k + 1] && es[1..][m] == es[m + 1];
      assert es[1..][l - 1] == e;
      ArcCostOf(es[1..], e);
    }
  }

  /** Every edge costs what the first edge between its endpoints costs. */
  ghost predicate CostsByEnds(g: Graph)
  {
    forall e {:trigger e in g.edges} :: e in g.edges ==> ArcCost(g.edges, e.src, e.dest) == e.val
  }

  /** Without parallel edges, every edge costs what the only edge between its endpoints costs. */
  lemma EndsFixCosts(g: Graph)
    requires NoParallelEdges(g.edges)
    ensures CostsByEnds(g)
  {
    forall e | e in g.edges
      ensures ArcCost(g.edges, e.src, e.dest) == e.val
    {
      ArcCostOf(g.edges, e);
    }
  }

  /** The summed edge costs between consecutive vertices of `vs`. */
  ghost function TrailCost(g: Graph, vs: seq<int>): int
  {
    if |vs| <= 1 then 0 else TrailCost(g, vs[..|vs| - 1]) + ArcCost(g.edges, vs[|vs| - 2], vs[|vs| - 1])
  }

  /** The cost of the edges along the used prefix of a path. */
  ghost function PathCost(g: Graph, path: seq<int>): int
  {
    TrailCost(g, path[..Depth(path)])
  }

  /**
   * The cost of the cycle a path closes: its edges, then the edge from its
   * last vertex back to 0 (an empty path closes nothing).
   */
  ghost function CycleCost(g: Graph, path: seq<int>): int
  {
    PathCost(g, path) + if Depth(path) >= 1 then ArcCost(g.edges, path[Depth(path) - 1], 0) else 0
  }

  /**
   * What printArr shows for a best path that recorded `path` into an array
   * of zeros: the used prefix of `path`, then zeros.
   */
  function Shown(path: seq<int>): seq<int>
  {
    path[..Depth(path)] + seq(|path| - Depth(path), _ => 0)
  }

  /** Consecutive vertices on the used prefix of the path are joined by edges. */
  ghost predicate IsTrail(g: Graph, path: seq<int>)
    requires |path| >= 1
  {
    forall i, j {:trigger path[i], path[j]} :: 0 <= i && j == i + 1 && j < Depth(path) ==> Arc(g, path[i], path[j])
  }

  /**
   * A state ready to be expanded from vertex `cur` with accumulated cost
   * `acc`: a well-formed path that is a trail of the graph ending at `cur`.
   */
  ghost predicate Expandable(g: Graph, n: int, path: seq<int>, cur: int, acc: int)
  {
    && WellFormedPath(path, n)
    && IsTrail(g, path)
    && Depth(path) >= 1 && cur == path[Depth(path) - 1]
    && acc >= 0
  }

  /**
   * The shape every state has: expandable from its current vertex, with an
   * accumulated cost that is the cost of the edges along its path, and,
   * unless it is the start state, reached by an edge of the graph from the
   * vertex before the last one on its path.
   */
  ghost predicate StateOk(g: Graph, n: int, p: PathState)
  {
    && Expandable(g, n, p.path, Current(p), p.cost)
    && Accumulated(p) == PathCost(g, p.path)
    && (p.inEdge.Some? ==>
          && p.inEdge.value in g.edges
          && Depth(p.path) >= 2
          && p.inEdge.value.src == p.path[Depth(p.path) - 2])
  }

  /** A state in the queue: well shaped and not the start state. */
  ghost predicate Queued(g: Graph, n: int, p: PathState)
  {
    StateOk(g, n, p) && p.inEdge.Some?
  }

  /** Whether the driver enqueues a child for edge `e`. */
  ghost predicate Admits(g: Graph, path: seq<int>, e: Edge, pruning: bool)
  {
    e.dest !in path && (pruning ==> ReturnsToZero(g, path, e.dest))
  }

  /** The children for the out-edges `outs`, in order. */
  ghost function ChildrenFrom(g: Graph, path: seq<int>, acc: int, outs: seq<Edge>, pruning: bool): seq<PathState>
  {
    if outs == [] then []
    else
      var e := outs[|outs| - 1];
      ChildrenFrom(g, path, acc, outs[..|outs| - 1], pruning) +
      (if Admits(g, path, e, pruning) then [PathState(Some(e), Extend(path, e.dest), acc)] else [])
  }

  /** The children the driver enqueues for state `p`, in order. */
  ghost function Children(g: Graph, p: PathState, pruning: bool): seq<PathState>
  {
    ChildrenFrom(g, p.path, Accumulated(p), EdgeOut(g, Current(p)), pruning)
  }

  /** The children of the states `ps`, in the order the driver enqueues them. */
  ghost function ConcatChildren(g: Graph, ps: seq<PathState>, pruning: bool): seq<PathState>
  {
    if ps == [] then [] else Children(g, ps[0], pruning) + ConcatChildren(g, ps[1..], pruning)
  }

  /** The best cost after the states `ps` are processed in order, starting from `best`. */
  ghost function BestOver(g: Graph, best: int, ps: seq<PathState>): int
    decreases |ps|
  {
    if ps == [] then best else BestOver(g, Improve(best, Candidate(g, ps[0])), ps[1..])
  }

  /** `best` records `path`: the used prefix, then a 0 if there is room. */
  ghost predicate Records(best: seq<int>, path: seq<int>)
  {
    && |best| == |path|
    && (forall i :: 0 <= i < Depth(path) ==> best[i] == path[i])
    && (Depth(path) < |path| ==> best[Depth(path)] == 0)
  }

  /**
   * The best-path array once saveCurrentBestPath has copied `path` over
   * `best`: the used prefix of `path`, then a 0 if there is room, then the
   * entries of `best` beyond it.
   */
  ghost function Save(best: seq<int>, path: seq<int>): seq<int>
  {
    seq(|best|, k requires 0 <= k < |best| =>
      if k < Depth(path) && k < |path| then path[k] else if k == Depth(path) then 0 else best[k])
  }

  /**
   * Saving a path records it, the used prefix then a 0, and keeps every
   * entry beyond that 0.
   */
  lemma SaveRecords(best: seq<int>, path: seq<int>)
    requires |best| == |path|
    ensures Records(Save(best, path), path)
    ensures forall i :: Depth(path) < i < |best| ==> Save(best, path)[i] == best[i]
  {
  }

  /**
   * The best-path array after the states `ps` are processed in order,
   * starting from best cost `best` and array `bp`: each strict improvement
   * saves the improving state's path.
   */
  ghost function SavedOver(g: Graph, best: int, bp: seq<int>, ps: seq<PathState>): seq<int>
    decreases |ps|
  {
    if ps == [] then bp
    else
      var best' := Improve(best, Candidate(g, ps[0]));
      SavedOver(g, best', if best' != best then Save(bp, ps[0].path) else bp, ps[1..])
  }

  /** The child rule, one edge at a time. */
  lemma ChildOk(g: Graph, n: int, path: seq<int>, cur: int, acc: int, e: Edge)
    requires WellFormed(g, n) && CostsByEnds(g)
    requires Expandable(g, n, path, cur, acc) && acc == PathCost(g, path)
    requires e in g.edges && e.src == cur && e.dest !in path
    ensures Queued(g, n, PathState(Some(e), Extend(path, e.dest), acc))
    ensures Depth(Extend(path, e.dest)) == Depth(path) + 1
    ensures Used(Extend(path, e.dest)) == Used(path) + 1
    ensures Extend(path, e.dest)[..Depth(path)] == path[..Depth(path)]
  {
    var c := Extend(path, e.dest);
    var d := Depth(path);
    ExtendAppends(path, n, e.dest);
    assert c[d] == e.dest && c[d - 1] == path[d - 1];
    forall i, j {:trigger c[i], c[j]} | 0 <= i && j == i + 1 && j < Depth(c)
      ensures Arc(g, c[i], c[j])
    {
      if j < d {
        assert c[i] == path[i] && c[j] == path[j];
      } else {
        assert c[i] == e.src && c[j] == e.dest;
      }
    }
    assert c[..d + 1] == path[..d] + [e.dest];
    assert (path[..d] + [e.dest])[..d] == path[..d];
    assert ArcCost(g.edges, e.src, e.dest) == e.val;
  }

  /**
   * Every child comes from an admitted out-edge of `outs`, carries the
   * parent's accumulated cost and the parent's path extended by the edge's
   * destination; and every admitted out-edge gives a child.
   */
  lemma {:induction false} ChildrenFromMembers(g: Graph, path: seq<int>, acc: int, outs: seq<Edge>, pruning: bool, c: PathState)
    ensures c in ChildrenFrom(g, path, acc, outs, pruning) <==>
              exists e :: e in outs && Admits(g, path, e, pruning) && c == PathState(Some(e), Extend(path, e.dest), acc)
    decreases |outs|
  {
    if outs != [] {
      var front := outs[..|outs| - 1];
      var e := outs[|outs| - 1];
      ChildrenFromMembers(g, path, acc, front, pruning, c);
      assert outs == front + [e];
      assert forall e' :: e' in outs <==> e' in front || e' == e;
    }
  }

  /** At most one child per out-edge. */
  lemma {:induction false} ChildrenFromLength(g: Graph, path: seq<int>, acc: int, outs: seq<Edge>, pruning: bool)
    ensures |ChildrenFrom(g, path, acc, outs, pruning)| <= |outs|
    decreases |outs|
  {
    if outs != [] {
      ChildrenFromLength(g, path, acc, outs[..|outs| - 1], pruning);
    }
  }

  /**
   * The child rules of the driver: each child is reached by an out-edge of
   * the parent's vertex into a vertex not on the parent's path (approved by
   * the oracle when pruning is on); it stores the parent's accumulated cost;
   * its path is the parent's with that vertex appended, one entry longer;
   * and it is itself a queued state. Conversely every such edge has a child.
   */
  lemma ChildrenRules(g: Graph, n: int, p: PathState, pruning: bool)
    requires WellFormed(g, n) && CostsByEnds(g) && StateOk(g, n, p)
    ensures forall c :: c in Children(g, p, pruning) ==>
              && c.inEdge.Some? && c.inEdge.value in EdgeOut(g, Current(p))
              && Admits(g, p.path, c.inEdge.value, pruning)
              && c.cost == Accumulated(p)
              && c.path == Extend(p.path, c.inEdge.value.dest)
              && Depth(c.path) == Depth(p.path) + 1
              && Used(c.path) == Used(p.path) + 1
              && c.path[..Depth(p.path)] == p.path[..Depth(p.path)]
              && c.path[Depth(p.path)] == c.inEdge.value.dest
              && Queued(g, n, c)
    ensures forall e :: e in EdgeOut(g, Current(p)) && Admits(g, p.path, e, pruning) ==>
              PathState(Some(e), Extend(p.path, e.dest), Accumulated(p)) in Children(g, p, pruning)
    ensures |Children(g, p, pruning)| <= |EdgeOut(g, Current(p))|
  {
    var outs := EdgeOut(g, Current(p));
    var acc := Accumulated(p);
    OutOfMembers(g.edges, Current(p));
    assert Expandable(g, n, p.path, Current(p), acc);
    forall c | c in Children(g, p, pruning)
      ensures && c.inEdge.Some? && c.inEdge.value in outs
              && Admits(g, p.path, c.inEdge.value, pruning)
              && c.cost == acc
              && c.path == Extend(p.path, c.inEdge.value.dest)
              && Depth(c.path) == Depth(p.path) + 1
              && Used(c.path) == Used(p.path) + 1
              && c.path[..Depth(p.path)] == p.path[..Depth(p.path)]
              && c.path[Depth(p.path)] == c.inEdge.value.dest
              && Queued(g, n, c)
    {
      ChildrenFromMembers(g, p.path, acc, outs, pruning, c);
      var e :| e in outs && Admits(g, p.path, e, pruning) && c == PathState(Some(e), Extend(p.path, e.dest), acc);
      ChildOk(g, n, p.path, Current(p), acc, e);
      ExtendAppends(p.path, n, e.dest);
    }
    forall e | e in outs && Admits(g, p.path, e, pruning)
      ensures PathState(Some(e), Extend(p.path, e.dest), acc) in Children(g, p, pruning)
    {
      ChildrenFromMembers(g, p.path, acc, outs, pruning, PathState(Some(e), Extend(p.path, e.dest), acc));
    }
    ChildrenFromLength(g, p.path, acc, outs, pruning);
  }

  /** A state whose path holds all n vertices has no children. */
  lemma FullPathNoChildren(g: Graph, n: int, p: PathState, pruning: bool)
    requires WellFormed(g, n) && StateOk(g, n, p) && Depth(p.path) == n
    ensures Children(g, p, pruning) == []
  {
    forall e | e in EdgeOut(g, Current(p))
      ensures 0 <= e.dest < n
    {
      OutOfMembers(g.edges, Current(p));
    }
    SumWChildren(|g.edges|, n, g, p.path, Accumulated(p), EdgeOut(g, Current(p)), pruning);
  }

  /**
   * The weight of a state at depth d, for a graph with E edges: larger than
   * the combined weight of any E states one level deeper. Full paths weigh 1.
   */
  function W(E: nat, n: int, d: int): nat
    decreases n - d
  {
    if d >= n then 1 else E * W(E, n, d + 1) + 1
  }

  /** The combined weight of a sequence of states. */
  ghost function SumW(E: nat, n: int, ps: seq<PathState>): nat
  {
    if ps == [] then 0 else SumW(E, n, ps[..|ps| - 1]) + W(E, n, Depth(ps[|ps| - 1].path))
  }

  /** Weight adds up over concatenation. */
  lemma {:induction false} SumWAppend(E: nat, n: int, a: seq<PathState>, b: seq<PathState>)
    ensures SumW(E, n, a + b) == SumW(E, n, a) + SumW(E, n, b)
    decreases |b|
  {
    if b == [] {
      assert a + b == a;
    } else {
      assert (a + b)[..|a + b| - 1] == a + b[..|b| - 1];
      assert (a + b)[|a + b| - 1] == b[|b| - 1];
      SumWAppend(E, n, a, b[..|b| - 1]);
    }
  }

  /** Arithmetic steps kept out of the larger proofs. */
  lemma MulStep(a: nat, w: nat)
    ensures (a + 1) * w == a * w + w
  {
  }

  lemma MulMono(a: nat, b: nat, w: nat)
    requires a <= b
    ensures a * w <= b * w
  {
  }

  /** k states all at depth d weigh k times the weight of one. */
  lemma {:induction false} SumWChildren(E: nat, n: int, g: Graph, path: seq<int>, acc: int, outs: seq<Edge>, pruning: bool)
    requires WellFormedPath(path, n)
    requires forall e {:trigger e in outs} :: e in outs ==> 0 <= e.dest < n
    ensures SumW(E, n, ChildrenFrom(g, path, acc, outs, pruning)) <= |outs| * W(E, n, Depth(path) + 1)
    ensures ChildrenFrom(g, path, acc, outs, pruning) != [] ==> Depth(path) < n
    decreases |outs|
  {
    if outs != [] {
      var front := outs[..|outs| - 1];
      var e := outs[|outs| - 1];
      assert forall e' :: e' in front ==> e' in outs;
      SumWChildren(E, n, g, path, acc, front, pruning);
      var rest := ChildrenFrom(g, path, acc, front, pruning);
      assert e in outs;
      if Admits(g, path, e, pruning) {
        ExtendAppends(path, n, e.dest);
        var c := PathState(Some(e), Extend(path, e.dest), acc);
        assert ChildrenFrom(g, path, acc, outs, pruning) == rest + [c];
        assert SumW(E, n, rest + [c]) == SumW(E, n, rest) + W(E, n, Depth(path) + 1);
      } else {
        assert ChildrenFrom(g, path, acc, outs, pruning) == rest;
      }
      MulStep(|front|, W(E, n, Depth(path) + 1));
    }
  }

  /** Processing a state removes more weight than its children add. */
  lemma ChildrenWeigh(g: Graph, n: int, p: PathState, pruning: bool)
    requires WellFormed(g, n) && StateOk(g, n, p)
    ensures SumW(|g.edges|, n, Children(g, p, pruning)) < W(|g.edges|, n, Depth(p.path))
  {
    var E := |g.edges|;
    var outs := EdgeOut(g, Current(p));
    forall e | e in outs
      ensures 0 <= e.dest < n
    {
      OutOfMembers(g.edges, Current(p));
    }
    SumWChildren(E, n, g, p.path, Accumulated(p), outs, pruning);
    var d := Depth(p.path);
    if d < n {
      MulMono(|outs|, E, W(E, n, d + 1));
    }
  }

  /** The weight of a state followed by a queue. */
  lemma SumWCons(E: nat, n: int, s: PathState, rest: seq<PathState>)
    ensures SumW(E, n, [s] + rest) == W(E, n, Depth(s.path)) + SumW(E, n, rest)
  {
    SumWAppend(E, n, [s], rest);
    assert [s][..0] == [];
  }

  /** Every state of `ps` is well shaped. */
  ghost predicate AllOk(g: Graph, n: int, ps: seq<PathState>)
  {
    forall i :: 0 <= i < |ps| ==> StateOk(g, n, ps[i])
  }

  /** Every state of `ps` may wait in the queue. */
  ghost predicate AllQueued(g: Graph, n: int, ps: seq<PathState>)
  {
    forall i :: 0 <= i < |ps| ==> Queued(g, n, ps[i])
  }

  /** No candidate offered by a state of `ps` exceeds `best`. */
  ghost predicate Bounded(g: Graph, ps: seq<PathState>, best: int)
  {
    forall i :: 0 <= i < |ps| && Candidate(g, ps[i]).Some? ==> Candidate(g, ps[i]).value <= best
  }

  /**
   * State i of `ps` is the first whose candidate reaches `best`, and
   * `bestPath` records its path.
   */
  ghost predicate FirstReaches(g: Graph, ps: seq<PathState>, best: int, bestPath: seq<int>, i: int)
  {
    && 0 <= i < |ps|
    && Candidate(g, ps[i]) == Some(best)
    && Records(bestPath, ps[i].path)
    && forall j :: 0 <= j < i && Candidate(g, ps[j]).Some? ==> Candidate(g, ps[j]).value < best
  }

  /**
   * Once a state is processed, the queue (the old queue followed by the
   * state's children) holds only queued states and weighs less than the
   * state and the old queue together.
   */
  lemma PendingQueue(g: Graph, n: int, pruning: bool, p: PathState, queue0: seq<PathState>)
    requires WellFormed(g, n) && CostsByEnds(g) && StateOk(g, n, p) && AllQueued(g, n, queue0)
    ensures AllQueued(g, n, queue0 + Children(g, p, pruning))
    ensures SumW(|g.edges|, n, queue0 + Children(g, p, pruning)) < W(|g.edges|, n, Depth(p.path)) + SumW(|g.edges|, n, queue0)
  {
    ChildrenRules(g, n, p, pruning);
    var pending := queue0 + Children(g, p, pruning);
    forall i | 0 <= i < |pending|
      ensures Queued(g, n, pending[i])
    {
      if i >= |queue0| {
        assert pending[i] in Children(g, p, pruning);
      }
    }
    ChildrenWeigh(g, n, p, pruning);
    SumWAppend(|g.edges|, n, queue0, Children(g, p, pruning));
  }

  /** A well-shaped state followed by well-shaped states. */
  lemma AllOkCons(g: Graph, n: int, p: PathState, rest: seq<PathState>)
    requires StateOk(g, n, p) && AllOk(g, n, rest)
    ensures AllOk(g, n, [p] + rest)
  {
    assert forall i :: 1 <= i < |[p] + rest| ==> ([p] + rest)[i] == rest[i - 1];
  }

  /**
   * The states processed after the head `s` of the queue, when the run from
   * `s` processes `processed` and every state it processes was enqueued
   * behind the rest of the queue: the queue followed by every child, in
   * order.
   */
  lemma HeadStep(g: Graph, pruning: bool, queue: seq<PathState>, s: PathState, processed: seq<PathState>)
    requires |queue| >= 1 && s == queue[0]
    requires |processed| >= 1 && processed[0] == s
    requires processed[1..] == queue[1..] + ConcatChildren(g, processed, pruning)
    ensures processed == queue + ConcatChildren(g, processed, pruning)
  {
    assert processed == [s] + processed[1..];
    assert queue == [s] + queue[1..];
  }

  /**
   * A run that processes `p` and then `rest`, where `rest` is the queue
   * left after `p` (the old queue followed by the children of `p`) followed
   * by every child of `rest`: the states after `p` are the old queue
   * followed by every child of the whole run.
   */
  lemma QueueStep(g: Graph, pruning: bool, p: PathState, queue0: seq<PathState>, rest: seq<PathState>)
    requires rest == (queue0 + Children(g, p, pruning)) + ConcatChildren(g, rest, pruning)
    ensures ([p] + rest)[1..] == queue0 + ConcatChildren(g, [p] + rest, pruning)
  {
    var ps := [p] + rest;
    assert ps[1..] == rest && ps[0] == p;
    assert ConcatChildren(g, ps, pruning) == Children(g, p, pruning) + ConcatChildren(g, rest, pruning);
  }

  /**
   * Processing the states `ps` in order takes best cost `best0` and
   * best-path array `path0` to `best` and `bp`: `best` is the fold of the
   * candidates over the run and bounds every one of them; unless it is
   * still `best0`, it is first reached by a state whose path `bp` records;
   * and `bp` is the array each strict improvement saved into.
   */
  ghost predicate BestAfter(g: Graph, best0: int, path0: seq<int>, ps: seq<PathState>, best: int, bp: seq<int>)
  {
    && best == BestOver(g, best0, ps) && best >= best0
    && Bounded(g, ps, best)
    && (best == best0 ==> bp == path0)
    && (best != best0 ==> exists i :: FirstReaches(g, ps, best, bp, i))
    && bp == SavedOver(g, best0, path0, ps)
  }

  /**
   * The best cost through a run that processes `p` and then `rest`: if
   * offering the candidate of `p` turns `best0` into `best1`, saving its
   * path on a strict improvement, and the rest of the run takes `best1` to
   * `best`, then the whole run takes `best0` to `best`.
   */
  lemma BestStep(g: Graph, p: PathState, best0: int, path0: seq<int>, best1: int, path1: seq<int>,
                 rest: seq<PathState>, best: int, bestPath: seq<int>)
    requires best1 == Improve(best0, Candidate(g, p))
    requires best1 != best0 ==> Records(path1, p.path)
    requires path1 == (if best1 != best0 then Save(path0, p.path) else path0)
    requires BestAfter(g, best1, path1, rest, best, bestPath)
    ensures BestAfter(g, best0, path0, [p] + rest, best, bestPath)
  {
    var ps := [p] + rest;
    assert ps[1..] == rest && ps[0] == p;
    assert forall i :: 1 <= i < |ps| ==> ps[i] == rest[i - 1];
    if best != best1 {
      var k :| FirstReaches(g, rest, best, bestPath, k);
      assert FirstReaches(g, ps, best, bestPath, k + 1);
    } else if best != best0 {
      assert FirstReaches(g, ps, best, bestPath, 0);
    }
  }

  /**
   * The candidate a state offers is the cost of the cycle it closes: the
   * edges along its path, then the edge from its vertex back to 0.
   */
  lemma CandidateIsCycle(g: Graph, n: int, p: PathState)
    requires CostsByEnds(g) && StateOk(g, n, p) && Candidate(g, p).Some?
    ensures Candidate(g, p).value == CycleCost(g, p.path)
    ensures Arc(g, p.path[Depth(p.path) - 1], 0)
  {
    ClosingEdgeIsEdge(g, Current(p));
    assert ClosingEdge(g, Current(p)).value in g.edges;
  }

  /** The states of `ps` come in order of depth. */
  ghost predicate DepthOrdered(ps: seq<PathState>)
  {
    forall i, j :: 0 <= i < j < |ps| ==> Depth(ps[i].path) <= Depth(ps[j].path)
  }

  /** The runs of `ss`, one after the other. */
  ghost function Flatten(ss: seq<seq<PathState>>): seq<PathState>
  {
    if ss == [] then [] else ss[0] + Flatten(ss[1..])
  }

  /** Flattening two lists of runs, one after the other. */
  lemma {:induction false} FlattenAppend(a: seq<seq<PathState>>, b: seq<seq<PathState>>)
    ensures Flatten(a + b) == Flatten(a) + Flatten(b)
    decreases |a|
  {
    if a == [] {
      assert a + b == b;
    } else {
      assert (a + b)[0] == a[0] && (a + b)[1..] == a[1..] + b;
      FlattenAppend(a[1..], b);
    }
  }

  /** The first k + 1 runs: the first k, then run k. */
  lemma FlattenSnoc(ss: seq<seq<PathState>>, k: int)
    requires 0 <= k < |ss|
    ensures Flatten(ss[..k + 1]) == Flatten(ss[..k]) + ss[k]
  {
    assert ss[..k + 1] == ss[..k] + [ss[k]];
    FlattenAppend(ss[..k], [ss[k]]);
    assert Flatten([ss[k]]) == ss[k] + Flatten([]);
  }

  /** A state in none of the runs is not in their flattening. */
  lemma {:induction false} NotFlattened(ss: seq<seq<PathState>>, c: PathState)
    requires forall j :: 0 <= j < |ss| ==> c !in ss[j]
    ensures c !in Flatten(ss)
    decreases |ss|
  {
    if ss != [] {
      assert forall j :: 0 <= j < |ss[1..]| ==> ss[1..][j] == ss[j + 1];
      NotFlattened(ss[1..], c);
    }
  }

  /** The children of each state of `ps`, state by state. */
  ghost function ChildLists(g: Graph, ps: seq<PathState>, pruning: bool): (kids: seq<seq<PathState>>)
    ensures |kids| == |ps|
  {
    seq(|ps|, i requires 0 <= i < |ps| => Children(g, ps[i], pruning))
  }

  /** The children of a run of states are its child lists flattened. */
  lemma {:induction false} ConcatIsFlatten(g: Graph, ps: seq<PathState>, pruning: bool)
    ensures ConcatChildren(g, ps, pruning) == Flatten(ChildLists(g, ps, pruning))
    decreases |ps|
  {
    if ps != [] {
      assert ChildLists(g, ps, pruning)[1..] == ChildLists(g, ps[1..], pruning);
      ConcatIsFlatten(g, ps[1..], pruning);
    }
  }

  /** Every state of `kids[i]` lies one level deeper than state i of `ps`. */
  ghost predicate OneDeeper(ps: seq<PathState>, kids: seq<seq<PathState>>)
  {
    && |kids| == |ps|
    && forall i, j :: 0 <= i < |ps| && 0 <= j < |kids[i]| ==> Depth(kids[i][j].path) == Depth(ps[i].path) + 1
  }

  /** Children lie one level deeper than their parents. */
  lemma ChildListsDeeper(g: Graph, n: int, ps: seq<PathState>, pruning: bool)
    requires WellFormed(g, n) && CostsByEnds(g) && AllOk(g, n, ps)
    ensures OneDeeper(ps, ChildLists(g, ps, pruning))
  {
    forall i | 0 <= i < |ps|
      ensures forall j :: 0 <= j < |Children(g, ps[i], pruning)| ==>
                Depth(Children(g, ps[i], pruning)[j].path) == Depth(ps[i].path) + 1
    {
      ChildrenRules(g, n, ps[i], pruning);
      assert forall j :: 0 <= j < |Children(g, ps[i], pruning)| ==> Children(g, ps[i], pruning)[j] in Children(g, ps[i], pruning);
    }
  }

  /** The index of a state of least depth. */
  lemma {:induction false} Shallowest(ps: seq<PathState>) returns (k: int)
    requires ps != []
    ensures 0 <= k < |ps| && forall j :: 0 <= j < |ps| ==> Depth(ps[k].path) <= Depth(ps[j].path)
    decreases |ps|
  {
    if |ps| == 1 {
      k := 0;
    } else {
      var k' := Shallowest(ps[1..]);
      assert forall j :: 1 <= j < |ps| ==> ps[j] == ps[1..][j - 1];
      k := if Depth(ps[0].path) <= Depth(ps[k' + 1].path) then 0 else k' + 1;
    }
  }

  /**
   * A nonempty run of states is never exactly its own children: a
   * shallowest state is a child of none of them, since children lie one
   * level deeper than their parent.
   */
  lemma NotOwnChildren(ps: seq<PathState>, kids: seq<seq<PathState>>)
    requires OneDeeper(ps, kids) && ps != []
    ensures ps != Flatten(kids)
  {
    var k := Shallowest(ps);
    forall j | 0 <= j < |kids|
      ensures ps[k] !in kids[j]
    {
      assert forall m :: 0 <= m < |kids[j]| ==> Depth(kids[j][m].path) > Depth(ps[k].path);
    }
    NotFlattened(kids, ps[k]);
  }

  /**
   * In a run whose states after the first are the children of all its
   * states, the first 1 + |C| states are the first state and the children C
   * of the first k states, and the rest are the children of the others.
   */
  lemma RunPrefix(ps: seq<PathState>, kids: seq<seq<PathState>>, k: int)
    requires |ps| >= 1 && |kids| == |ps| && ps[1..] == Flatten(kids) && 0 <= k <= |ps|
    ensures 1 + |Flatten(kids[..k])| <= |ps|
    ensures ps[..1 + |Flatten(kids[..k])|] == [ps[0]] + Flatten(kids[..k])
    ensures ps[1 + |Flatten(kids[..k])|..] == Flatten(kids[k..])
  {
    assert kids == kids[..k] + kids[k..];
    FlattenAppend(kids[..k], kids[k..]);
    var known := 1 + |Flatten(kids[..k])|;
    assert ps[..known] == [ps[0]] + ps[1..][..known - 1];
    assert ps[known..] == ps[1..][known - 1..];
  }

  /**
   * The breadth-first invariant after the first k states of a run, `known`
   * of them being known by then (the first state and the children of the
   * first k): state k is known, the known states come in order of depth,
   * and none of them from state k on lies more than one level deeper than
   * state k.
   */
  ghost predicate BfsKnown(ps: seq<PathState>, k: int, known: int)
  {
    && 0 <= k < known <= |ps|
    && DepthOrdered(ps[..known])
    && forall j :: k <= j < known ==> Depth(ps[j].path) <= Depth(ps[k].path) + 1
  }

  /**
   * Known states in order of depth, none from state k on more than one
   * level deeper than state k, followed by children one level deeper than
   * state k: still in order, and none from state k + 1 on more than one
   * level deeper than state k + 1.
   */
  lemma OrderedAppend(a: seq<PathState>, b: seq<PathState>, k: int)
    requires DepthOrdered(a) && 0 <= k < |a|
    requires forall j :: k <= j < |a| ==> Depth(a[j].path) <= Depth(a[k].path) + 1
    requires forall j :: 0 <= j < |b| ==> Depth(b[j].path) == Depth(a[k].path) + 1
    ensures DepthOrdered(a + b)
    ensures forall j :: k + 1 <= j < |a + b| ==> Depth((a + b)[j].path) <= Depth((a + b)[k + 1].path) + 1
  {
    var c := a + b;
    forall i, j | 0 <= i < j < |c|
      ensures Depth(c[i].path) <= Depth(c[j].path)
    {
      if j >= |a| && i < |a| && i < k {
        assert Depth(a[i].path) <= Depth(a[k].path);
      }
    }
  }

  /** The known states grow by children one level deeper than state k. */
  lemma FrontierStep(ps: seq<PathState>, k: int, known0: int, known1: int, kids: seq<PathState>)
    requires BfsKnown(ps, k, known0) && known0 <= known1 <= |ps|
    requires ps[..known1] == ps[..known0] + kids
    requires forall j :: 0 <= j < |kids| ==> Depth(kids[j].path) == Depth(ps[k].path) + 1
    ensures DepthOrdered(ps[..known1])
    ensures k + 1 < known1 ==> BfsKnown(ps, k + 1, known1)
  {
    assert forall j :: k <= j < known0 ==> ps[..known0][j] == ps[j];
    OrderedAppend(ps[..known0], kids, k);
    assert forall j :: k <= j < known1 ==> ps[..known1][j] == ps[j];
  }

  /** Processing state k makes its children known, right after the states known before. */
  lemma KnownGrows(ps: seq<PathState>, kids: seq<seq<PathState>>, k: int)
    requires |ps| >= 1 && |kids| == |ps| && ps[1..] == Flatten(kids) && 0 <= k < |ps|
    ensures 1 + |Flatten(kids[..k])| <= 1 + |Flatten(kids[..k + 1])| <= |ps|
    ensures ps[..1 + |Flatten(kids[..k + 1])|] == ps[..1 + |Flatten(kids[..k])|] + kids[k]
  {
    FlattenSnoc(kids, k);
    RunPrefix(ps, kids, k);
    RunPrefix(ps, kids, k + 1);
  }

  /**
   * Processing state k adds its children, one level deeper, behind the known
   * states; unless it is the last, state k + 1 is then known.
   */
  lemma BfsStep(ps: seq<PathState>, kids: seq<seq<PathState>>, k: int, known0: int, known1: int)
    requires |ps| >= 1 && |kids| == |ps| && ps[1..] == Flatten(kids) && 0 <= k < |ps|
    requires known0 == 1 + |Flatten(kids[..k])| && known1 == 1 + |Flatten(kids[..k + 1])|
    requires BfsKnown(ps, k, known0)
    requires forall j :: 0 <= j < |kids[k]| ==> Depth(kids[k][j].path) == Depth(ps[k].path) + 1
    requires k + 1 < |ps| ==> known1 != k + 1
    ensures known1 <= |ps| && DepthOrdered(ps[..known1])
    ensures k + 1 < |ps| ==> BfsKnown(ps, k + 1, known1)
  {
    KnownGrows(ps, kids, k);
    FrontierStep(ps, k, known0, known1, kids[k]);
  }


  /** The children of state k lie one level deeper than it. */
  lemma OneDeeperAt(ps: seq<PathState>, kids: seq<seq<PathState>>, k: int)
    requires OneDeeper(ps, kids) && 0 <= k < |ps|
    ensures forall j :: 0 <= j < |kids[k]| ==> Depth(kids[k][j].path) == Depth(ps[k].path) + 1
  {
  }

  /** A suffix of a run keeps its children one level deeper. */
  lemma OneDeeperSuffix(ps: seq<PathState>, kids: seq<seq<PathState>>, m: int)
    requires OneDeeper(ps, kids) && 0 <= m <= |ps|
    ensures OneDeeper(ps[m..], kids[m..])
  {
    assert forall i :: m <= i < |ps| ==> ps[m..][i - m] == ps[i] && kids[m..][i - m] == kids[i];
  }

  /**
   * Before state m of a run is processed, some state is still known but
   * unprocessed: otherwise the states from m on would be exactly their own
   * children.
   */
  lemma PendingNonEmpty(ps: seq<PathState>, kids: seq<seq<PathState>>, m: int)
    requires OneDeeper(ps, kids) && |ps| >= 1 && ps[1..] == Flatten(kids) && 0 <= m < |ps|
    ensures 1 + |Flatten(kids[..m])| != m
  {
    RunPrefix(ps, kids, m);
    OneDeeperSuffix(ps, kids, m);
    NotOwnChildren(ps[m..], kids[m..]);
  }

  /** The invariant holds after every number of states. */
  lemma {:induction false} BfsPrefix(ps: seq<PathState>, kids: seq<seq<PathState>>, k: int)
    requires OneDeeper(ps, kids) && |ps| >= 1 && ps[1..] == Flatten(kids) && 0 <= k < |ps|
    ensures BfsKnown(ps, k, 1 + |Flatten(kids[..k])|)
    decreases k
  {
    if k == 0 {
      BfsStart(ps, kids);
    } else {
      var j := k - 1;
      BfsPrefix(ps, kids, j);
      OneDeeperAt(ps, kids, j);
      PendingNonEmpty(ps, kids, k);
      assert j + 1 == k;
      BfsStep(ps, kids, j, 1 + |Flatten(kids[..j])|, 1 + |Flatten(kids[..k])|);
    }
  }

  /** Before any state is processed, only the first is known. */
  lemma BfsStart(ps: seq<PathState>, kids: seq<seq<PathState>>)
    requires |ps| >= 1
    ensures BfsKnown(ps, 0, 1 + |Flatten(kids[..0])|)
  {
    assert kids[..0] == [];
  }

  /**
   * A run whose states after the first are its child lists flattened, each
   * child one level deeper than its parent, visits the states in order of
   * depth.
   */
  lemma FlattenedRunOrdered(ps: seq<PathState>, kids: seq<seq<PathState>>)
    requires OneDeeper(ps, kids) && |ps| >= 1 && ps[1..] == Flatten(kids)
    ensures DepthOrdered(ps)
  {
    var last := |ps| - 1;
    BfsPrefix(ps, kids, last);
    OneDeeperAt(ps, kids, last);
    BfsStep(ps, kids, last, 1 + |Flatten(kids[..last])|, 1 + |Flatten(kids[..last + 1])|);
    assert kids[..|ps|] == kids;
    assert ps[..|ps|] == ps;
  }

  /**
   * A run whose states after the first are the children of all its states,
   * in order (the order the FIFO queue of MaxTSP produces), visits the states
   * in order of depth.
   */
  lemma BreadthFirst(g: Graph, n: int, ps: seq<PathState>, pruning: bool)
    requires WellFormed(g, n) && CostsByEnds(g) && AllOk(g, n, ps)
    requires |ps| >= 1 && ps[1..] == ConcatChildren(g, ps, pruning)
    ensures DepthOrdered(ps)
  {
    ConcatIsFlatten(g, ps, pruning);
    ChildListsDeeper(g, n, ps, pruning);
    FlattenedRunOrdered(ps, ChildLists(g, ps, pruning));
  }

  /**
   * Improving never lowers the best cost, the best-path array keeps its
   * length, and once the best cost settles no further state saves its path.
   */
  lemma {:induction false} SettledKeepsPath(g: Graph, best: int, bp: seq<int>, ps: seq<PathState>)
    ensures BestOver(g, best, ps) >= best
    ensures |SavedOver(g, best, bp, ps)| == |bp|
    ensures BestOver(g, best, ps) == best ==> SavedOver(g, best, bp, ps) == bp
    decreases |ps|
  {
    if ps != [] {
      var best' := Improve(best, Candidate(g, ps[0]));
      SettledKeepsPath(g, best', if best' != best then Save(bp, ps[0].path) else bp, ps[1..]);
    }
  }

  /**
   * In a run in order of depth, the best-path array after the run keeps,
   * beyond the depth of the state that first reaches the final best cost,
   * the entries it started with: earlier saves reach no deeper, and no
   * later state saves.
   */
  lemma {:induction false} SavedBeyond(g: Graph, best0: int, path0: seq<int>, ps: seq<PathState>, i: int)
    requires DepthOrdered(ps) && BestOver(g, best0, ps) != best0
    requires FirstReaches(g, ps, BestOver(g, best0, ps), SavedOver(g, best0, path0, ps), i)
    ensures |SavedOver(g, best0, path0, ps)| == |path0|
    ensures forall k :: Depth(ps[i].path) < k < |path0| ==> SavedOver(g, best0, path0, ps)[k] == path0[k]
    decreases |ps|
  {
    var best := BestOver(g, best0, ps);
    var rest := ps[1..];
    var best1 := Improve(best0, Candidate(g, ps[0]));
    var path1 := if best1 != best0 then Save(path0, ps[0].path) else path0;
    assert best == BestOver(g, best1, rest);
    assert SavedOver(g, best0, path0, ps) == SavedOver(g, best1, path1, rest);
    SettledKeepsPath(g, best1, path1, rest);
    if i > 0 {
      FirstReachesTail(g, ps, best, SavedOver(g, best1, path1, rest), i);
      DepthOrderedTail(ps, i);
      SaveKeepsBeyond(path0, ps[0].path, Depth(ps[i].path));
      SavedBeyond(g, best1, path1, rest, i - 1);
    }
  }

  /** The state that first reaches `best` is one place earlier in the rest of the run, and the first state offered less. */
  lemma FirstReachesTail(g: Graph, ps: seq<PathState>, best: int, bp: seq<int>, i: int)
    requires FirstReaches(g, ps, best, bp, i) && i > 0
    ensures FirstReaches(g, ps[1..], best, bp, i - 1) && ps[1..][i - 1] == ps[i]
    ensures Candidate(g, ps[0]).Some? ==> Candidate(g, ps[0]).value < best
  {
    assert forall j :: 0 <= j < i - 1 ==> ps[1..][j] == ps[j + 1];
  }

  /** The rest of a run in order of depth is in order of depth, and its first state is no deeper than any other. */
  lemma DepthOrderedTail(ps: seq<PathState>, i: int)
    requires DepthOrdered(ps) && 0 < i < |ps|
    ensures DepthOrdered(ps[1..]) && Depth(ps[0].path) <= Depth(ps[i].path)
  {
    assert forall j :: 0 <= j < |ps| - 1 ==> ps[1..][j] == ps[j + 1];
  }

  /** Saving a path changes no entry beyond depth d when the path is no deeper than d. */
  lemma SaveKeepsBeyond(best: seq<int>, path: seq<int>, d: int)
    requires Depth(path) <= d
    ensures forall k :: d < k < |best| ==> Save(best, path)[k] == best[k]
  {
  }

  /**
   * After a run in order of depth from the zero-filled array, the best-path
   * array shows the path of the state that first reaches the best cost: its
   * used prefix, then zeros.
   */
  lemma BestShown(g: Graph, n: int, ps: seq<PathState>, best: int, bp: seq<int>, i: int)
    requires n >= 1
    requires DepthOrdered(ps) && best == BestOver(g, -1, ps) && best != -1
    requires bp == SavedOver(g, -1, seq(n, _ => 0), ps) && FirstReaches(g, ps, best, bp, i)
    ensures bp == Shown(ps[i].path)
  {
    SavedBeyond(g, -1, seq(n, _ => 0), ps, i);
    RecordsShown(bp, ps[i].path);
  }

  /** BestShown for the state the best cost's cycle comes from, whichever it is. */
  lemma BestShownSome(g: Graph, n: int, ps: seq<PathState>, best: int, bp: seq<int>)
    requires n >= 1
    requires DepthOrdered(ps) && best == BestOver(g, -1, ps) && best != -1
    requires bp == SavedOver(g, -1, seq(n, _ => 0), ps)
    requires exists i :: FirstReaches(g, ps, best, bp, i) && best == CycleCost(g, ps[i].path)
    ensures exists i :: FirstReaches(g, ps, best, bp, i) && best == CycleCost(g, ps[i].path) && bp == Shown(ps[i].path)
  {
    var i :| FirstReaches(g, ps, best, bp, i) && best == CycleCost(g, ps[i].path);
    BestShown(g, n, ps, best, bp, i);
  }

  /** An array that records a path and holds 0 past its used prefix shows the path. */
  lemma RecordsShown(bp: seq<int>, path: seq<int>)
    requires Records(bp, path)
    requires forall k :: Depth(path) < k < |bp| ==> bp[k] == 0
    ensures bp == Shown(path)
  {
  }

  /**
   * The path array of the ancestor of a state at depth d: the first d
   * vertices of `path`, then -1 in every other slot.
   */
  ghost function Cut(path: seq<int>, d: int): seq<int>
    requires 0 <= d <= |path|
  {
    path[..d] + seq(|path| - d, _ => -1)
  }

  /**
   * Every vertex of the path after the first passed the pruning test when it
   * was added: from it, a walk that avoids the vertices before it reaches a
   * vertex with an edge back to 0. These are the paths the driver enqueues
   * with pruning on.
   */
  ghost predicate Kept(g: Graph, path: seq<int>)
  {
    forall d :: 1 <= d < Depth(path) && d <= |path| ==> ReturnsToZero(g, Cut(path, d), path[d])
  }

  /**
   * The ancestors of a child path: below the parent's depth they are the
   * parent's ancestors, and at the parent's depth the parent itself.
   */
  lemma CutExtend(path: seq<int>, n: int, v: int)
    requires WellFormedPath(path, n) && 0 <= v < n && v !in path
    ensures Depth(path) < n && Depth(Extend(path, v)) == Depth(path) + 1
    ensures Extend(path, v)[Depth(path)] == v && Cut(Extend(path, v), Depth(path)) == path
    ensures forall d :: 1 <= d < Depth(path) ==> Cut(Extend(path, v), d) == Cut(path, d) && Extend(path, v)[d] == path[d]
  {
    ExtendAppends(path, n, v);
    var c := Extend(path, v);
    var d0 := Depth(path);
    forall d | 1 <= d < d0
      ensures Cut(c, d) == Cut(path, d) && c[d] == path[d]
    {
      assert c[..d] == c[..d0][..d] && path[..d] == path[..d0][..d];
    }
    assert path == path[..d0] + path[d0..];
  }

  /** A child path is kept exactly when its parent's is and its new vertex passes the pruning test. */
  lemma KeptExtend(g: Graph, n: int, path: seq<int>, v: int)
    requires WellFormedPath(path, n) && 0 <= v < n && v !in path
    ensures Kept(g, Extend(path, v)) <==> Kept(g, path) && ReturnsToZero(g, path, v)
  {
    CutExtend(path, n, v);
  }

  /**
   * A state that offers a candidate has a kept path: its own walk from the
   * vertex at any depth d to its current vertex avoids the vertices before
   * depth d and ends at a vertex with an edge back to 0.
   */
  lemma CandidateKept(g: Graph, n: int, p: PathState)
    requires StateOk(g, n, p)
    ensures Candidate(g, p).Some? ==> Kept(g, p.path)
  {
    var path := p.path;
    var top := Depth(path);
    forall d | 1 <= d < top && d <= |path| && Candidate(g, p).Some?
      ensures ReturnsToZero(g, Cut(path, d), path[d])
    {
      var w := path[d..top];
      var cut := Cut(path, d);
      forall i | 1 <= i < |w|
        ensures w[i] !in cut
      {
        assert w[i] == path[d + i] && 0 <= w[i];
        assert forall j :: 0 <= j < d ==> cut[j] == path[..top][j] && path[..top][d + i] == w[i];
      }
      forall i, j {:trigger w[i], w[j]} | 0 <= i && j == i + 1 && j < |w|
        ensures Arc(g, w[i], w[j])
      {
        assert w[i] == path[d + i] && w[j] == path[d + i + 1];
      }
      assert IsWalk(g, cut, w) && w[0] == path[d] && w[|w| - 1] == Current(p);
      assert ClosingEdge(g, Current(p)).Some?;
    }
  }

  /** The states of `ps` whose paths are kept, in order. */
  ghost function KeptOnly(g: Graph, ps: seq<PathState>): seq<PathState>
  {
    if ps == [] then [] else (if Kept(g, ps[0].path) then [ps[0]] else []) + KeptOnly(g, ps[1..])
  }

  lemma {:induction false} KeptOnlyAppend(g: Graph, a: seq<PathState>, b: seq<PathState>)
    ensures KeptOnly(g, a + b) == KeptOnly(g, a) + KeptOnly(g, b)
    decreases |a|
  {
    if a != [] {
      assert (a + b)[0] == a[0] && (a + b)[1..] == a[1..] + b;
      KeptOnlyAppend(g, a[1..], b);
    } else {
      assert a + b == b;
    }
  }

  /** The kept states of a run are well shaped when the run is. */
  lemma {:induction false} KeptOnlyOk(g: Graph, n: int, ps: seq<PathState>)
    requires AllOk(g, n, ps)
    ensures AllOk(g, n, KeptOnly(g, ps)) && |KeptOnly(g, ps)| <= |ps|
    decreases |ps|
  {
    if ps != [] {
      KeptOnlyOk(g, n, ps[1..]);
    }
  }

  /**
   * Of the children enqueued without pruning, the kept ones are exactly the
   * children enqueued with pruning when the parent is kept, and none otherwise.
   */
  lemma {:induction false} ChildrenFromKept(g: Graph, n: int, path: seq<int>, acc: int, outs: seq<Edge>)
    requires WellFormed(g, n) && WellFormedPath(path, n)
    requires forall e {:trigger e in outs} :: e in outs ==> e in g.edges
    ensures KeptOnly(g, ChildrenFrom(g, path, acc, outs, false)) ==
              if Kept(g, path) then ChildrenFrom(g, path, acc, outs, true) else []
    decreases |outs|
  {
    if outs != [] {
      var front := outs[..|outs| - 1];
      var e := outs[|outs| - 1];
      assert forall e' :: e' in front ==> e' in outs;
      assert e in outs;
      ChildrenFromKept(g, n, path, acc, front);
      var c := PathState(Some(e), Extend(path, e.dest), acc);
      KeptOnlyAppend(g, ChildrenFrom(g, path, acc, front, false), if Admits(g, path, e, false) then [c] else []);
      ChildKept(g, n, path, acc, e);
    }
  }

  /** The child for one edge, in the unpruned search, is kept exactly when the pruned search enqueues it. */
  lemma ChildKept(g: Graph, n: int, path: seq<int>, acc: int, e: Edge)
    requires WellFormedPath(path, n) && 0 <= e.dest < n
    ensures var c := PathState(Some(e), Extend(path, e.dest), acc);
      KeptOnly(g, if Admits(g, path, e, false) then [c] else []) ==
      if Kept(g, path) && Admits(g, path, e, true) then [c] else []
  {
    var c := PathState(Some(e), Extend(path, e.dest), acc);
    if e.dest !in path {
      KeptExtend(g, n, path, e.dest);
      assert KeptOnly(g, [c]) == (if Kept(g, c.path) then [c] else []) + KeptOnly(g, []);
    }
  }


  /** The kept children of a state, in the unpruned search, are its children in the pruned one. */
  lemma ChildrenKept(g: Graph, n: int, p: PathState)
    requires WellFormed(g, n) && StateOk(g, n, p)
    ensures KeptOnly(g, Children(g, p, false)) == if Kept(g, p.path) then Children(g, p, true) else []
  {
    OutOfMembers(g.edges, Current(p));
    ChildrenFromKept(g, n, p.path, Accumulated(p), EdgeOut(g, Current(p)));
  }

  /** The kept children of a run, in the unpruned search, are the pruned children of its kept states. */
  lemma {:induction false} ConcatKept(g: Graph, n: int, ps: seq<PathState>)
    requires WellFormed(g, n) && AllOk(g, n, ps)
    ensures KeptOnly(g, ConcatChildren(g, ps, false)) == ConcatChildren(g, KeptOnly(g, ps), true)
    decreases |ps|
  {
    if ps != [] {
      ChildrenKept(g, n, ps[0]);
      ConcatKept(g, n, ps[1..]);
      KeptOnlyAppend(g, Children(g, ps[0], false), ConcatChildren(g, ps[1..], false));
      ConcatAppend(g, if Kept(g, ps[0].path) then [ps[0]] else [], KeptOnly(g, ps[1..]), true);
    }
  }

  lemma {:induction false} ConcatAppend(g: Graph, a: seq<PathState>, b: seq<PathState>, pruning: bool)
    ensures ConcatChildren(g, a + b, pruning) == ConcatChildren(g, a, pruning) + ConcatChildren(g, b, pruning)
    decreases |a|
  {
    if a != [] {
      assert (a + b)[0] == a[0] && (a + b)[1..] == a[1..] + b;
      ConcatAppend(g, a[1..], b, pruning);
    } else {
      assert a + b == b;
    }
  }

  /**
   * Dropping the states whose paths are not kept changes neither the best
   * cost nor the best-path array: none of them offers a candidate.
   */
  lemma {:induction false} KeptOnlyBest(g: Graph, n: int, best: int, bp: seq<int>, ps: seq<PathState>)
    requires AllOk(g, n, ps)
    ensures BestOver(g, best, KeptOnly(g, ps)) == BestOver(g, best, ps)
    ensures SavedOver(g, best, bp, KeptOnly(g, ps)) == SavedOver(g, best, bp, ps)
    decreases |ps|
  {
    if ps != [] {
      var p := ps[0];
      var rest := ps[1..];
      var best' := Improve(best, Candidate(g, p));
      var bp' := if best' != best then Save(bp, p.path) else bp;
      assert BestOver(g, best, ps) == BestOver(g, best', rest);
      assert SavedOver(g, best, bp, ps) == SavedOver(g, best', bp', rest);
      KeptOnlyBest(g, n, best', bp', rest);
      if Kept(g, p.path) {
        var ks := [p] + KeptOnly(g, rest);
        assert KeptOnly(g, ps) == ks;
        assert ks[0] == p && ks[1..] == KeptOnly(g, rest);
      } else {
        CandidateKept(g, n, p);
        assert KeptOnly(g, ps) == KeptOnly(g, rest);
        assert best' == best && bp' == bp;
      }
    }
  }


  /**
   * In a run whose states after the first are the children of all its
   * states, the children of the first m states, for m short of the end,
   * number at least m.
   */
  lemma RunCovers(g: Graph, n: int, ps: seq<PathState>, pruning: bool, m: int)
    requires WellFormed(g, n) && CostsByEnds(g) && AllOk(g, n, ps)
    requires |ps| >= 1 && ps[1..] == ConcatChildren(g, ps, pruning) && 0 <= m <= |ps|
    ensures m < |ps| ==> m <= |Flatten(ChildLists(g, ps, pruning)[..m])|
  {
    ConcatIsFlatten(g, ps, pruning);
    ChildListsDeeper(g, n, ps, pruning);
    if m < |ps| {
      BfsPrefix(ps, ChildLists(g, ps, pruning), m);
    }
  }

  /** The child lists of equal prefixes of two runs are equal. */
  lemma ChildListsPrefix(g: Graph, a: seq<PathState>, b: seq<PathState>, pruning: bool, k: int)
    requires 0 <= k <= |a| && k <= |b| && a[..k] == b[..k]
    ensures ChildLists(g, a, pruning)[..k] == ChildLists(g, b, pruning)[..k]
  {
    assert forall i :: 0 <= i < k ==> a[i] == a[..k][i] && b[i] == b[..k][i];
  }

  /** The state after the first k, when both runs have one, is the same in both. */
  lemma NextAgrees(g: Graph, n: int, a: seq<PathState>, b: seq<PathState>, pruning: bool, k: int)
    requires WellFormed(g, n) && CostsByEnds(g) && AllOk(g, n, a)
    requires |a| >= 1 && a[1..] == ConcatChildren(g, a, pruning)
    requires |b| >= 1 && b[1..] == ConcatChildren(g, b, pruning)
    requires 1 <= k < |a| && k < |b| && a[..k] == b[..k]
    ensures a[k] == b[k]
  {
    var ka := ChildLists(g, a, pruning);
    var kb := ChildLists(g, b, pruning);
    ConcatIsFlatten(g, a, pruning);
    ConcatIsFlatten(g, b, pruning);
    RunCovers(g, n, a, pruning, k);
    ChildListsPrefix(g, a, b, pruning, k);
    assert ka == ka[..k] + ka[k..] && kb == kb[..k] + kb[k..];
    FlattenAppend(ka[..k], ka[k..]);
    FlattenAppend(kb[..k], kb[k..]);
    var j := k - 1;
    assert a[k] == Flatten(ka)[j] == Flatten(ka[..k])[j];
    assert b[k] == Flatten(kb)[j] == Flatten(kb[..k])[j];
  }

  /** Two runs from the same first state agree on their first k states. */
  lemma {:induction false} RunsAgree(g: Graph, n: int, a: seq<PathState>, b: seq<PathState>, pruning: bool, k: int)
    requires WellFormed(g, n) && CostsByEnds(g) && AllOk(g, n, a)
    requires |a| >= 1 && a[1..] == ConcatChildren(g, a, pruning)
    requires |b| >= 1 && b[1..] == ConcatChildren(g, b, pruning)
    requires a[0] == b[0] && 1 <= k <= |a| && k <= |b|
    ensures a[..k] == b[..k]
    decreases k
  {
    if k > 1 {
      var j := k - 1;
      RunsAgree(g, n, a, b, pruning, j);
      NextAgrees(g, n, a, b, pruning, j);
      PrefixSnoc(a, b, j);
      assert j + 1 == k;
    }
  }

  /** Prefixes that agree, followed by equal entries, agree one entry further. */
  lemma PrefixSnoc(a: seq<PathState>, b: seq<PathState>, j: int)
    requires 0 <= j < |a| && j < |b| && a[..j] == b[..j] && a[j] == b[j]
    ensures a[..j + 1] == b[..j + 1]
  {
    assert a[..j + 1] == a[..j] + [a[j]] && b[..j + 1] == b[..j] + [b[j]];
  }

  /**
   * The breadth-first run from a state is unique: two runs that start with
   * the same state and whose states after the first are the children of all
   * their states are equal.
   */
  lemma RunUnique(g: Graph, n: int, a: seq<PathState>, b: seq<PathState>, pruning: bool)
    requires WellFormed(g, n) && CostsByEnds(g) && AllOk(g, n, a) && AllOk(g, n, b)
    requires |a| >= 1 && a[1..] == ConcatChildren(g, a, pruning)
    requires |b| >= 1 && b[1..] == ConcatChildren(g, b, pruning)
    requires a[0] == b[0]
    ensures a == b
  {
    var m := if |a| <= |b| then |a| else |b|;
    RunsAgree(g, n, a, b, pruning, m);
    ChildListsPrefix(g, a, b, pruning, m);
    RunCovers(g, n, a, pruning, m);
    RunCovers(g, n, b, pruning, m);
    ConcatIsFlatten(g, a, pruning);
    ConcatIsFlatten(g, b, pruning);
    assert ChildLists(g, a, pruning)[..|a|] == ChildLists(g, a, pruning);
    assert ChildLists(g, b, pruning)[..|b|] == ChildLists(g, b, pruning);
    assert a[..|a|] == a && b[..|b|] == b;
  }

  /**
   * Pruning only drops states that offer no candidate: the run with pruning
   * is the run without it, restricted to the kept states, and the two compute
   * the same best cost and best-path array.
   */
  lemma PruningKeepsBest(g: Graph, n: int, full: seq<PathState>, pruned: seq<PathState>, best: int, bp: seq<int>)
    requires WellFormed(g, n) && CostsByEnds(g) && AllOk(g, n, full) && AllOk(g, n, pruned)
    requires |full| >= 1 && full[1..] == ConcatChildren(g, full, false)
    requires |pruned| >= 1 && pruned[1..] == ConcatChildren(g, pruned, true)
    requires pruned[0] == full[0] && Depth(full[0].path) == 1
    ensures pruned == KeptOnly(g, full)
    ensures BestOver(g, best, pruned) == BestOver(g, best, full)
    ensures SavedOver(g, best, bp, pruned) == SavedOver(g, best, bp, full)
  {
    var kept := KeptOnly(g, full);
    assert full == [full[0]] + full[1..];
    KeptOnlyAppend(g, [full[0]], full[1..]);
    assert KeptOnly(g, [full[0]]) == [full[0]] + KeptOnly(g, []);
    ConcatKept(g, n, full);
    KeptOnlyOk(g, n, full);
    assert kept[0] == full[0] && kept[1..] == ConcatChildren(g, kept, true);
    RunUnique(g, n, kept, pruned, true);
    KeptOnlyBest(g, n, best, bp, full);
  }

  /**
   * The globals of MaxTSP.c. `bestPath` is the only array the driver writes
   * in place; `q` is the FIFO queue of pending states.
   */
  class Solver {
    const n: int
    const g: Graph
    const pruning: bool
    const q: List<PathState>
    const bestPath: array<int>
    var bestCost: int
    var visitedNodeCount: int

    /** The graph has vertices 0..n-1 and the queue is a well-linked list apart from the rest. */
    ghost predicate Valid()
      reads q, q.Repr
    {
      && n >= 1
      && g.vertexes == seq(n, i => i)
      && WellFormed(g, n) && CostsByEnds(g)
      && bestPath.Length == n
      && q.Valid() && q.TailValid()
      && this !in q.Repr && bestPath !in q.Repr
    }

    /**
     * The set-up in main: the graph built from the triangle of costs, best
     * cost -1, an empty queue, a best-path array of n entries and a zero
     * count. The BOUND compile-time switch is the `pruning` flag.
     */
    constructor (n: int, upper: seq<seq<int>>, pruning: bool)
      requires n >= 1 && Triangle(n, upper)
      ensures Valid() && fresh(q.Repr) && fresh(bestPath)
      ensures this.n == n && this.pruning == pruning
      ensures g.vertexes == seq(n, i => i) && g.edges == MatrixEdges(n, upper, n)
      ensures bestCost == -1 && visitedNodeCount == 0 && q.contents == []
      ensures bestPath[..] == seq(n, _ => 0)
      ensures NoParallelEdges(g.edges)
    {
      var built := BuildGraph(n, upper);
      BuiltWellFormed(n, upper);
      BuiltNoParallelEdges(n, upper);
      EndsFixCosts(built);
      this.n := n;
      this.g := built;
      this.pruning := pruning;
      bestCost := -1;
      q := new List<PathState>();
      bestPath := new int[n](_ => 0);
      visitedNodeCount := 0;
    }

    /**
     * saveCurrentBestPath: copy the path into `bestPath` up to its first -1,
     * write 0 there and stop; later entries keep their values.
     */
    method SaveCurrentBestPath(path: seq<int>)
      requires |path| == n == bestPath.Length
      modifies bestPath
      ensures Records(bestPath[..], path)
      ensures forall i :: Depth(path) < i < n ==> bestPath[i] == old(bestPath[i])
      ensures bestPath[..] == Save(old(bestPath[..]), path)
    {
      for i := 0 to n
        invariant forall k :: 0 <= k < i ==> path[k] != -1 && bestPath[k] == path[k]
        invariant forall k :: i <= k < n ==> bestPath[k] == old(bestPath[k])
      {
        if path[i] != -1 {
          bestPath[i] := path[i];
        } else {
          bestPath[i] := 0;
          FirstFreeIs(path, 0, i);
          return;
        }
      }
      FirstFreeIs(path, 0, n);
    }

    /** enqueue on the global queue: a new node holding `p` joins the back. */
    method Append(p: PathState)
      requires Valid()
      modifies q.Repr
      ensures Valid() && fresh(q.Repr - old(q.Repr))
      ensures q.contents == old(q.contents) + [p]
    {
      var nd := new Node(p);
      Enqueue(q, nd);
    }

    /**
     * One turn of the loop at the end of MaxTSP: the child for out-edge `e`
     * of `cur` is enqueued when its destination is not on the path and, with
     * pruning on, the oracle says vertex 0 can be reached from it again.
     */
    method EnqueueChild(path: seq<int>, cur: int, acc: int, e: Edge)
      requires Valid() && |path| == n && e in g.edges
      modifies q.Repr
      ensures Valid() && fresh(q.Repr - old(q.Repr))
      ensures q.contents == old(q.contents) +
                (if Admits(g, path, e, pruning) then [PathState(Some(e), Extend(path, e.dest), acc)] else [])
    {
      var onPath := SearchArray(path, e.dest);
      if !onPath {
        var bound := true;
        if pruning {
          bound := SubGraphReturnsToZero(g, n, e.dest, path);
        }
        if bound {
          var child := InitPath(n, Some(e), Some(path), acc);
          Append(child);
        }
      }
    }

    /** The loop at the end of MaxTSP: every out-edge of `cur`, in order. */
    method EnqueueChildren(path: seq<int>, cur: int, acc: int)
      requires Valid() && |path| == n
      modifies q.Repr
      ensures Valid() && fresh(q.Repr - old(q.Repr))
      ensures q.contents == old(q.contents) + ChildrenFrom(g, path, acc, EdgeOut(g, cur), pruning)
    {
      var outs := EdgeOut(g, cur);
      OutOfMembers(g.edges, cur);
      ghost var base := q.contents;
      for k := 0 to |outs|
        invariant Valid() && fresh(q.Repr - old(q.Repr))
        invariant q.contents == base + ChildrenFrom(g, path, acc, outs[..k], pruning)
      {
        var e := outs[k];
        assert e in outs;
        assert outs[..k + 1][..k] == outs[..k] && outs[..k + 1][k] == e;
        ghost var step := if Admits(g, path, e, pruning) then [PathState(Some(e), Extend(path, e.dest), acc)] else [];
        assert ChildrenFrom(g, path, acc, outs[..k + 1], pruning) == ChildrenFrom(g, path, acc, outs[..k], pruning) + step;
        EnqueueChild(path, cur, acc, e);
        assert q.contents == (base + ChildrenFrom(g, path, acc, outs[..k], pruning)) + step;
      }
      assert outs[..|outs|] == outs;
    }

    /**
     * The first half of MaxTSP: a state other than the start state is
     * counted, its edge's cost is added, and its closing cycle replaces the
     * best cost when strictly greater, saving its path. Returns the vertex
     * the state stands on, looked up by id, and the accumulated cost.
     */
    method Visit(p: PathState) returns (cur: int, acc: int)
      requires Valid() && StateOk(g, n, p)
      modifies this, bestPath
      ensures cur == Current(p) && acc == Accumulated(p)
      ensures bestCost == Improve(old(bestCost), Candidate(g, p))
      ensures bestPath[..] == if bestCost != old(bestCost) then Save(old(bestPath[..]), p.path) else old(bestPath[..])
      ensures visitedNodeCount == old(visitedNodeCount) + (if p.inEdge.Some? then 1 else 0)
    {
      acc := p.cost;
      if p.inEdge.Some? {
        visitedNodeCount := visitedNodeCount + 1;
        assert g.vertexes[p.inEdge.value.dest] == p.inEdge.value.dest;
        var found := VertexSearch(g, p.inEdge.value.dest);
        cur := g.vertexes[found.value];
        acc := p.cost + p.inEdge.value.val;
        var e := EdgeToZero(g, cur);
        if e.Some? {
          if acc + e.value.val > bestCost {
            bestCost := acc + e.value.val;
            SaveCurrentBestPath(p.path);
          }
        }
      } else {
        assert g.vertexes[0] == 0;
        var found := VertexSearch(g, 0);
        cur := g.vertexes[found.value];
      }
    }

    /**
     * One call of MaxTSP before its tail call: visit the state, then enqueue
     * its children.
     */
    method ProcessState(p: PathState)
      requires Valid() && StateOk(g, n, p)
      modifies this, bestPath, q.Repr
      ensures Valid() && fresh(q.Repr - old(q.Repr))
      ensures q.contents == old(q.contents) + Children(g, p, pruning)
      ensures bestCost == Improve(old(bestCost), Candidate(g, p))
      ensures bestPath[..] == if bestCost != old(bestCost) then Save(old(bestPath[..]), p.path) else old(bestPath[..])
      ensures visitedNodeCount == old(visitedNodeCount) + (if p.inEdge.Some? then 1 else 0)
    {
      var cur, acc := Visit(p);
      EnqueueChildren(p.path, cur, acc);
    }

    /**
     * dequeue on the global queue: the front state, which leaves the queue
     * lighter by its weight.
     */
    method Take() returns (s: PathState)
      requires Valid() && q.contents != [] && AllQueued(g, n, q.contents)
      modifies q.Repr
      ensures Valid() && q.Repr == old(q.Repr)
      ensures old(q.contents) == [s] + q.contents
      ensures Queued(g, n, s) && AllQueued(g, n, q.contents)
      ensures SumW(|g.edges|, n, old(q.contents)) == W(|g.edges|, n, Depth(s.path)) + SumW(|g.edges|, n, q.contents)
    {
      ghost var queue := q.contents;
      var next := Dequeue(q);
      s := next.value;
      SumWCons(|g.edges|, n, s, q.contents);
      assert queue == [s] + q.contents;
    }

    /**
     * MaxTSP: process `p`, then go on with the head of the queue while it is
     * not empty. The ghost result lists the processed states in order. The
     * weight of `p` and the queue bounds the recursion.
     */
    method MaxTsp(p: PathState) returns (ghost processed: seq<PathState>)
      requires Valid() && StateOk(g, n, p) && AllQueued(g, n, q.contents)
      modifies this, bestPath, q.Repr
      ensures Valid() && q.contents == []
      ensures |processed| >= 1 && processed[0] == p && AllOk(g, n, processed)
      ensures processed[1..] == old(q.contents) + ConcatChildren(g, processed, pruning)
      ensures visitedNodeCount == old(visitedNodeCount) + |processed| - (if p.inEdge.None? then 1 else 0)
      ensures BestAfter(g, old(bestCost), old(bestPath[..]), processed, bestCost, bestPath[..])
      ensures bestCost != old(bestCost) ==> exists i ::
                FirstReaches(g, processed, bestCost, bestPath[..], i) && bestCost == CycleCost(g, processed[i].path)
      decreases W(|g.edges|, n, Depth(p.path)) + SumW(|g.edges|, n, q.contents), 0
    {
      ghost var queue0 := q.contents;
      ghost var best0 := bestCost;
      ghost var path0 := bestPath[..];
      ProcessState(p);
      PendingQueue(g, n, pruning, p, queue0);
      ghost var best1 := bestCost;
      ghost var path1 := bestPath[..];
      ghost var rest := Continue();
      AllOkCons(g, n, p, rest);
      QueueStep(g, pruning, p, queue0, rest);
      SaveRecords(path0, p.path);
      BestStep(g, p, best0, path0, best1, path1, rest, bestCost, bestPath[..]);
      processed := [p] + rest;
      if bestCost != best0 {
        ghost var i :| FirstReaches(g, processed, bestCost, bestPath[..], i);
        CandidateIsCycle(g, n, processed[i]);
      }
    }

    /**
     * The tail of MaxTSP: if the queue is not empty, take its head and run
     * MaxTSP on it. The ghost result lists the states processed from here
     * on: the queue as it was followed by every child enqueued meanwhile,
     * which is breadth-first order.
     */
    method Continue() returns (ghost processed: seq<PathState>)
      requires Valid() && AllQueued(g, n, q.contents)
      modifies this, bestPath, q.Repr
      ensures Valid() && q.contents == []
      ensures AllOk(g, n, processed)
      ensures processed == old(q.contents) + ConcatChildren(g, processed, pruning)
      ensures visitedNodeCount == old(visitedNodeCount) + |processed|
      ensures BestAfter(g, old(bestCost), old(bestPath[..]), processed, bestCost, bestPath[..])
      decreases SumW(|g.edges|, n, q.contents), 1
    {
      if q.size > 0 {
        ghost var queue := q.contents;
        var s := Take();
        processed := MaxTsp(s);
        HeadStep(g, pruning, queue, s, processed);
      } else {
        processed := [];
      }
    }
  }

  /**
   * main without its input and output: set up the globals from n and the
   * triangle of costs and run the driver from the start state. Returns the
   * best cost (computed but never printed by main), the best path and the
   * number of states processed after the start state, which main prints.
   * The ghost result lists the processed states in order.
   */
  method Solve(n: int, upper: seq<seq<int>>, pruning: bool)
      returns (bestCost: int, bestPath: seq<int>, visitedNodeCount: int, ghost processed: seq<PathState>)
    requires n >= 1 && Triangle(n, upper)
    ensures |processed| >= 1 && processed[0] == PathState(None, RootPath(n), 0)
    ensures processed[1..] == ConcatChildren(Graph(seq(n, i => i), MatrixEdges(n, upper, n)), processed, pruning)
    ensures bestCost == BestOver(Graph(seq(n, i => i), MatrixEdges(n, upper, n)), -1, processed)
    ensures Bounded(Graph(seq(n, i => i), MatrixEdges(n, upper, n)), processed, bestCost)
    ensures visitedNodeCount == |processed| - 1
    ensures |bestPath| == n
    ensures AllOk(Graph(seq(n, i => i), MatrixEdges(n, upper, n)), n, processed) && DepthOrdered(processed)
    ensures bestPath == SavedOver(Graph(seq(n, i => i), MatrixEdges(n, upper, n)), -1, seq(n, _ => 0), processed)
    ensures bestCost == -1 ==> bestPath == seq(n, _ => 0)
    ensures bestCost != -1 ==> exists i ::
              && FirstReaches(Graph(seq(n, i => i), MatrixEdges(n, upper, n)), processed, bestCost, bestPath, i)
              && bestCost == CycleCost(Graph(seq(n, i => i), MatrixEdges(n, upper, n)), processed[i].path)
              && bestPath == Shown(processed[i].path)
  {
    var s := new Solver(n, upper, pruning);
    var root := InitPath(n, None, None, 0);
    RootPathWellFormed(n);
    assert IsTrail(s.g, root.path);
    assert root.path[..Depth(root.path)] == [0];
    processed := s.MaxTsp(root);
    bestCost := s.bestCost;
    bestPath := s.bestPath[..];
    visitedNodeCount := s.visitedNodeCount;
    BreadthFirst(s.g, n, processed, pruning);
    if bestCost != -1 {
      BestShownSome(s.g, n, processed, bestCost, bestPath);
    }
  }

  /**
   * The BOUND switch never changes the best cost or the printed best path:
   * the runs with and without pruning compute the same best cost and the
   * same best path. Only the printed visit count can differ, and the pruned
   * run processes no more states.
   */
  method PruningAgrees(n: int, upper: seq<seq<int>>)
      returns (cost: int, path: seq<int>, visits: int, prunedCost: int, prunedPath: seq<int>, prunedVisits: int)
    requires n >= 1 && Triangle(n, upper)
    ensures cost == prunedCost && path == prunedPath
    ensures prunedVisits <= visits
  {
    ghost var full, pruned;
    cost, path, visits, full := Solve(n, upper, false);
    prunedCost, prunedPath, prunedVisits, pruned := Solve(n, upper, true);
    ghost var g := Graph(seq(n, i => i), MatrixEdges(n, upper, n));
    BuiltWellFormed(n, upper);
    BuiltNoParallelEdges(n, upper);
    EndsFixCosts(g);
    RootPathWellFormed(n);
    PruningKeepsBest(g, n, full, pruned, -1, seq(n, _ => 0));
    KeptOnlyOk(g, n, full);
  }
}
