/**
 * The singly linked list of graph.c. One list type serves as a FIFO queue
 * (enqueue at the tail, dequeue at the head) and as a LIFO stack (push and pop
 * at the head). Nodes are real objects whose `next` fields the operations
 * rewrite; a ghost `spine` lists the nodes from `head` onwards and a ghost
 * `contents` lists their data.
 */
module Lists {
  import opened Wrappers

  /** node_t: one cell of a list. The constructor is initNode. */
  class Node<T> {
    var data: T
    var next: Node?<T>

    constructor (data: T)
      ensures this.data == data && next == null
    {
      this.data := data;
      next := null;
    }
  }

  /** list_t: head, tail and the number of nodes. */
  class List<T> {
    var size: int
    var head: Node?<T>
    var tail: Node?<T>

    ghost var spine: seq<Node<T>>
    ghost var contents: seq<T>
    ghost var Repr: set<object>

    /**
     * The nodes reachable from `head` are exactly `spine`, in order, each
     * linked to the next and the last one to null; they are pairwise
     * distinct, so the chain is acyclic, and `size` counts them.
     */
    ghost predicate Valid()
      reads this, Repr
    {
      && this in Repr
      && (forall i :: 0 <= i < |spine| ==> spine[i] in Repr)
      && size == |spine|
      && |contents| == |spine|
      && head == (if |spine| == 0 then null else spine[0])
      && (forall i {:trigger spine[i].data} :: 0 <= i < |spine| ==> spine[i].data == contents[i])
      && (forall i {:trigger spine[i].next} :: 0 <= i < |spine| - 1 ==> spine[i].next == spine[i + 1])
      && (|spine| > 0 ==> spine[|spine| - 1].next == null)
      && (forall i :: 0 <= i < |spine| ==> spine[i] !in spine[..i])
    }

    /**
     * `tail` points at the last node. Only enqueue relies on it; push onto an
     * empty list does not set it.
     */
    ghost predicate TailValid()
      reads this
    {
      |spine| > 0 ==> tail == spine[|spine| - 1]
    }

    /** initList: an empty list. */
    constructor ()
      ensures Valid() && TailValid() && fresh(Repr)
      ensures head == null && size == 0 && contents == []
    {
      size := 0;
      head := null;
      tail := null;
      spine := [];
      contents := [];
      Repr := {this};
    }
  }

  /**
   * enqueue: link `n` after the tail. A null list or a null node leaves
   * everything as it was.
   */
  method Enqueue<T>(l: List?<T>, n: Node?<T>)
    requires l != null ==> l.Valid() && l.TailValid()
    requires l != null && n != null ==> n !in l.Repr
    modifies if l != null && n != null then l.Repr + {n} else {}
    ensures l != null ==> l.Valid() && l.TailValid()
    ensures l != null && n != null ==>
              && l.contents == old(l.contents) + [old(n.data)]
              && l.size == old(l.size) + 1
              && l.Repr == old(l.Repr) + {n}
  {
    if l == null || n == null {
      return;
    }
    if l.head == null {
      l.head := n;
      l.tail := n;
    } else {
      l.tail.next := n;
      l.tail := n;
    }
    n.next := null;
    l.size := l.size + 1;
    l.spine := l.spine + [n];
    l.contents := l.contents + [n.data];
    l.Repr := l.Repr + {n};
  }

  /**
   * dequeue: unlink the head and return its data; None for a null or an empty
   * list, which is then left unchanged.
   */
  method Dequeue<T>(l: List?<T>) returns (r: Option<T>)
    requires l != null ==> l.Valid()
    modifies if l != null && l.head != null then l.Repr else {}
    ensures l != null ==> l.Valid() && l.Repr == old(l.Repr)
    ensures l != null ==> (old(l.TailValid()) ==> l.TailValid())
    ensures r.None? <==> l == null || old(l.size) == 0
    ensures r.Some? ==>
              && r.value == old(l.contents[0])
              && l.contents == old(l.contents[1..])
              && l.size == old(l.size) - 1
  {
    if l == null || l.head == null {
      return None;
    }
    var aux := l.head;
    ghost var rest := l.spine[1..];
    assert forall i :: 0 <= i < |rest| ==> rest[i] == l.spine[i + 1] && rest[i] != aux;
    l.head := l.head.next;
    aux.next := null;
    r := Some(aux.data);
    l.size := l.size - 1;
    l.spine := rest;
    l.contents := l.contents[1..];
  }

  /**
   * push: link `n` in front of the head. The tail pointer is not touched,
   * so it stays valid only if the list was non-empty.
   */
  method Push<T>(s: List<T>, n: Node<T>)
    requires s.Valid() && n !in s.Repr && n.next == null
    modifies s.Repr + {n}
    ensures s.Valid()
    ensures s.contents == [old(n.data)] + old(s.contents)
    ensures s.size == old(s.size) + 1
    ensures s.Repr == old(s.Repr) + {n}
    ensures s.tail == old(s.tail)
    ensures old(s.size) > 0 && old(s.TailValid()) ==> s.TailValid()
  {
    var aux := s.head;
    if aux != null {
      n.next := aux;
      s.head := n;
    } else {
      s.head := n;
    }
    s.size := s.size + 1;
    ghost var old_spine := s.spine;
    s.spine := [n] + s.spine;
    assert forall i :: 1 <= i < |s.spine| ==> s.spine[i] == old_spine[i - 1];
    s.contents := [n.data] + s.contents;
    s.Repr := s.Repr + {n};
  }

  /** pop: unlink the head of a non-empty list and return its data. */
  method Pop<T>(s: List<T>) returns (x: T)
    requires s.Valid() && s.size > 0
    modifies s
    ensures s.Valid() && s.Repr == old(s.Repr)
    ensures x == old(s.contents[0])
    ensures s.contents == old(s.contents[1..])
    ensures s.size == old(s.size) - 1
    ensures old(s.TailValid()) ==> s.TailValid()
  {
    x := s.head.data;
    s.head := s.head.next;
    s.size := s.size - 1;
    ghost var rest := s.spine[1..];
    assert forall i :: 0 <= i < |rest| ==> rest[i] == s.spine[i + 1];
    s.spine := rest;
    s.contents := s.contents[1..];
  }

  /**
   * FIFO order: enqueueing `xs` one by one onto a fresh list and then
   * dequeueing until the list is empty yields `xs` in the same order.
   */
  method FifoOrder<T>(xs: seq<T>) returns (ys: seq<T>)
    ensures ys == xs
  {
    var l := new List<T>();
    for i := 0 to |xs|
      invariant l.Valid() && l.TailValid() && fresh(l.Repr)
      invariant l.contents == xs[..i]
    {
      var n := new Node(xs[i]);
      Enqueue(l, n);
    }
    ys := [];
    while l.size > 0
      invariant l.Valid() && l.TailValid() && fresh(l.Repr)
      invariant ys + l.contents == xs
      decreases l.size
    {
      var r := Dequeue(l);
      ys := ys + [r.value];
    }
    var r := Dequeue(l);
    assert r.None?;
  }

  /** The reverse of a sequence. */
  function Reverse<T>(xs: seq<T>): seq<T>
  {
    if xs == [] then [] else Reverse(xs[1..]) + [xs[0]]
  }

  /**
   * LIFO order: pushing `xs` one by one onto a fresh list and then popping
   * until the list is empty yields `xs` reversed.
   */
  method LifoOrder<T>(xs: seq<T>) returns (ys: seq<T>)
    ensures ys == Reverse(xs)
  {
    var s := new List<T>();
    for i := 0 to |xs|
      invariant s.Valid() && fresh(s.Repr)
      invariant s.contents == Reverse(xs[..i])
    {
      var n := new Node(xs[i]);
      Push(s, n);
      assert xs[..i + 1][1..] == xs[1..i + 1];
      ReverseSnoc(xs[..i], xs[i]);
      assert xs[..i + 1] == xs[..i] + [xs[i]];
    }
    assert xs[..|xs|] == xs;
    ys := [];
    while s.size > 0
      invariant s.Valid() && fresh(s.Repr)
      invariant ys + s.contents == Reverse(xs)
      decreases s.size
    {
      var x := Pop(s);
      ys := ys + [x];
    }
  }

  lemma {:induction false} ReverseSnoc<T>(xs: seq<T>, x: T)
    ensures Reverse(xs + [x]) == [x] + Reverse(xs)
  {
    if xs == [] {
      assert xs + [x] == [x];
    } else {
      assert (xs + [x])[1..] == xs[1..] + [x];
      ReverseSnoc(xs[1..], x);
    }
  }
}
