/**
 * Search states of MaxTSP.c. A state's path is an array of n ids: the
 * vertices visited so far, starting with 0, followed by -1 in every unused
 * slot. The array is written only while initPath builds it, so a state keeps
 * its contents as a sequence.
 */
module Paths {
  import opened Wrappers
  import opened Graphs

  /**
   * path_t: the edge taken into this state (None for the start state), the
   * path array, and the cost of the path not counting `inEdge`.
   */
  datatype PathState = PathState(inEdge: Option<Edge>, path: seq<int>, cost: int)

  /** The index of the first -1 at or after `from`, or |s| when there is none. */
  function FirstFree(s: seq<int>, from: nat): (k: nat)
    requires from <= |s|
    ensures from <= k <= |s|
    ensures forall i :: from <= i < k ==> s[i] != -1
    ensures k < |s| ==> s[k] == -1
    decreases |s| - from
  {
    if from == |s| || s[from] == -1 then from else FirstFree(s, from + 1)
  }

  /** FirstFree is determined by the two properties its contract states. */
  lemma FirstFreeIs(s: seq<int>, from: nat, k: nat)
    requires from <= k <= |s|
    requires forall i :: from <= i < k ==> s[i] != -1
    requires k < |s| ==> s[k] == -1
    ensures FirstFree(s, from) == k
  {
  }

  /** The path of the start state: vertex 0 and n - 1 unused slots. */
  function RootPath(n: int): seq<int>
    requires n >= 1
  {
    [0] + seq(n - 1, _ => -1)
  }

  /**
   * The path of a child reached by an edge into `v`: the parent's path with
   * `v` in its first unused slot at index 1 or later, or the parent's path
   * itself when no slot is unused.
   */
  function Extend(s: seq<int>, v: int): seq<int>
  {
    if |s| == 0 then s
    else
      var k := FirstFree(s, 1);
      if k < |s| then s[k := v] else s
  }

  /** The number of used (not -1) entries. */
  function Used(s: seq<int>): nat
  {
    if s == [] then 0 else Used(s[..|s| - 1]) + (if s[|s| - 1] != -1 then 1 else 0)
  }

  /** No id occurs twice. */
  ghost predicate Distinct(s: seq<int>)
  {
    forall i, j :: 0 <= i < j < |s| ==> s[i] != s[j]
  }

  /**
   * A path of length n that starts at 0, holds distinct ids 0..n-1 in its
   * used prefix and -1 everywhere after it.
   */
  ghost predicate WellFormedPath(s: seq<int>, n: int)
  {
    && |s| == n >= 1
    && s[0] == 0
    && (forall i :: FirstFree(s, 0) <= i < n ==> s[i] == -1)
    && (forall i :: 0 <= i < FirstFree(s, 0) ==> 0 <= s[i] < n)
    && Distinct(s[..FirstFree(s, 0)])
  }

  /** The number of vertices on a path: the length of its used prefix. */
  function Depth(s: seq<int>): nat
  {
    FirstFree(s, 0)
  }

  /**
   * searchArray: whether `x` is one of the n entries of the array. The source
   * returns 1 or 0.
   */
  method SearchArray(a: seq<int>, x: int) returns (found: bool)
    ensures found <==> exists i :: 0 <= i < |a| && a[i] == x
  {
    for i := 0 to |a|
      invariant forall j :: 0 <= j < i ==> a[j] != x
    {
      if a[i] == x {
        return true;
      }
    }
    return false;
  }

  /**
   * initPath: a fresh array filled with -1; without a parent it becomes the
   * start path [0, -1, ..., -1]; with one it is the parent's array with the
   * destination of `inEdge` written into the first -1 slot at index 1 or
   * later, and nothing else changed.
   */
  method InitPath(n: int, inEdge: Option<Edge>, parent: Option<seq<int>>, cost: int) returns (p: PathState)
    requires parent.None? ==> n >= 1
    requires parent.Some? ==> |parent.value| == n && inEdge.Some?
    ensures p.inEdge == inEdge && p.cost == cost && |p.path| == n
    ensures parent.None? ==> p.path[0] == 0 && forall i :: 1 <= i < n ==> p.path[i] == -1
    ensures parent.Some? && n >= 1 ==>
              var k := FirstFree(parent.value, 1);
              && (forall i :: 0 <= i < n && i != k ==> p.path[i] == parent.value[i])
              && (k < n ==> p.path[k] == inEdge.value.dest)
    ensures parent.None? ==> p.path == RootPath(n)
    ensures parent.Some? ==> p.path == Extend(parent.value, inEdge.value.dest)
  {
    var a := new int[n](_ => -1);
    if parent.Some? {
      var s := parent.value;
      forall i | 0 <= i < n {
        a[i] := s[i];
      }
      var i := 1;
      ghost var written := false;
      while i < n
        invariant 1 <= i <= if n == 0 then 1 else n
        invariant a[..] == s
        invariant forall j :: 1 <= j < i ==> s[j] != -1
      {
        if a[i] == -1 {
          FirstFreeIs(s, 1, i);
          a[i] := inEdge.value.dest;
          written := true;
          break;
        }
        i := i + 1;
      }
      if n >= 1 && !written {
        FirstFreeIs(s, 1, n);
      }
    } else {
      a[0] := 0;
    }
    p := PathState(inEdge, a[..], cost);
  }

  /** The start path is well formed and holds one vertex. */
  lemma RootPathWellFormed(n: int)
    requires n >= 1
    ensures WellFormedPath(RootPath(n), n)
    ensures Depth(RootPath(n)) == 1 && Used(RootPath(n)) == 1
  {
    var s := RootPath(n);
    FirstFreeIs(s, 0, 1);
    UsedOfPrefix(s, 1);
  }

  /** A sequence whose first k entries are used and the rest -1 has k used entries. */
  lemma {:induction false} UsedOfPrefix(s: seq<int>, k: nat)
    requires k <= |s|
    requires forall i :: 0 <= i < k ==> s[i] != -1
    requires forall i :: k <= i < |s| ==> s[i] == -1
    ensures Used(s) == k
    decreases |s|
  {
    if s != [] {
      var t := s[..|s| - 1];
      if k == |s| {
        UsedOfPrefix(t, k - 1);
      } else {
        UsedOfPrefix(t, k);
      }
    }
  }

  /** Writing a used value into an unused slot adds exactly one used entry. */
  lemma {:induction false} UsedUpdate(s: seq<int>, k: nat, v: int)
    requires k < |s| && s[k] == -1 && v != -1
    ensures Used(s[k := v]) == Used(s) + 1
    decreases |s|
  {
    var t := s[k := v];
    if k == |s| - 1 {
      assert t[..|t| - 1] == s[..|s| - 1];
    } else {
      assert t[..|t| - 1] == s[..|s| - 1][k := v];
      UsedUpdate(s[..|s| - 1], k, v);
    }
  }

  /** Close the gap left by `x`: every id above `x` moves down by one. */
  function Relabel(s: seq<int>, x: int): (r: seq<int>)
    ensures |r| == |s|
  {
    seq(|s|, i requires 0 <= i < |s| => if s[i] > x then s[i] - 1 else s[i])
  }

  /**
   * Relabelling distinct ids drawn from 0..m-1 other than `x` gives distinct
   * ids drawn from 0..m-2.
   */
  lemma RelabelShrinks(s: seq<int>, x: int, m: int)
    requires Distinct(s)
    requires forall i :: 0 <= i < |s| ==> 0 <= s[i] < m && s[i] != x
    requires 0 <= x < m
    ensures Distinct(Relabel(s, x))
    ensures forall i :: 0 <= i < |s| ==> 0 <= Relabel(s, x)[i] < m - 1
  {
    var r := Relabel(s, x);
    forall i | 0 <= i < |s|
      ensures 0 <= r[i] < m - 1
    {
      if s[i] > x {
        assert r[i] == s[i] - 1;
      } else {
        assert r[i] == s[i] && s[i] < x;
      }
    }
  }

  /** Distinct ids drawn from 0..m-1 number at most m. */
  lemma {:induction false} DistinctBound(s: seq<int>, m: nat)
    requires Distinct(s)
    requires forall i :: 0 <= i < |s| ==> 0 <= s[i] < m
    ensures |s| <= m
    decreases |s|
  {
    if s != [] {
      var x := s[|s| - 1];
      var t := s[..|s| - 1];
      assert forall i :: 0 <= i < |t| ==> t[i] != x;
      RelabelShrinks(t, x, m);
      DistinctBound(Relabel(t, x), m - 1);
    }
  }

  /** n distinct ids drawn from 0..n-1 include every one of them. */
  lemma Pigeonhole(s: seq<int>, n: int, v: int)
    requires |s| == n && Distinct(s)
    requires forall i :: 0 <= i < n ==> 0 <= s[i] < n
    requires 0 <= v < n
    ensures v in s
  {
    if v !in s {
      RelabelShrinks(s, v, n);
      DistinctBound(Relabel(s, v), n - 1);
      assert false;
    }
  }

  /**
   * The child rule: when `v` is a vertex 0..n-1 that is not on a well-formed
   * path, the path still has an unused slot (so its depth is below n), and
   * the child path is well formed, keeps the parent's vertices in order,
   * appends `v`, and has exactly one more used entry.
   */
  lemma ExtendAppends(s: seq<int>, n: int, v: int)
    requires WellFormedPath(s, n)
    requires 0 <= v < n && v !in s
    ensures Depth(s) < n
    ensures WellFormedPath(Extend(s, v), n)
    ensures Depth(Extend(s, v)) == Depth(s) + 1
    ensures Extend(s, v)[..Depth(s)] == s[..Depth(s)]
    ensures Extend(s, v)[Depth(s)] == v
    ensures Used(Extend(s, v)) == Used(s) + 1
  {
    var k := Depth(s);
    if k == n {
      assert s[..k] == s;
      Pigeonhole(s, n, v);
      assert false;
    }
    FirstFreeIs(s, 1, k);
    var c := s[k := v];
    assert Extend(s, v) == c;
    FirstFreeIs(c, 0, k + 1);
    assert c[..k] == s[..k];
    assert c[..k + 1] == s[..k] + [v];
    UsedUpdate(s, k, v);
  }
}
