/** The fuzzing queue as a linked list with a skip pointer at every hundredth node. Node `id` stands
    for the entry with that index. */
module QueueList {

  class QueueNode {
    const id: nat
    var next: QueueNode?
    var next100: QueueNode?

    constructor (id: nat)
      ensures this.id == id && next == null && next100 == null
    {
      this.id, next, next100 := id, null, null;
    }
  }

  /** The index of the last node, among `n`, that carries a skip pointer. */
  function LastMark(n: nat): (m: nat)
    requires n > 0
  {
    (n - 1) / 100 * 100
  }

  lemma LastMarkStep(n: nat)
    requires n > 0
    ensures LastMark(n) < n && LastMark(n) % 100 == 0 && n <= LastMark(n) + 100
    ensures n % 100 == 0 ==> LastMark(n + 1) == n && LastMark(n) + 100 == n
    ensures n % 100 != 0 ==> LastMark(n + 1) == LastMark(n)
    ensures forall i: nat :: i % 100 == 0 && i + 100 == n ==> i == LastMark(n)
  {
  }

  class Queue {
    var queue: QueueNode?
    var queueTop: QueueNode?
    var qPrev100: QueueNode?
    var queuedPaths: nat
    ghost var nodes: seq<QueueNode>                // the queue as a plain list

    ghost function NextOf(i: nat): QueueNode?
      reads this`nodes
    {
      if i + 1 < |nodes| then nodes[i + 1] else null
    }

    ghost function SkipOf(i: nat): QueueNode?
      reads this`nodes
    {
      if i % 100 == 0 && i + 100 < |nodes| then nodes[i + 100] else null
    }

    /** The list links and the skip pointers describe `nodes`. */
    ghost predicate Linked()
      reads this, nodes
    {
      var n := |nodes|;
      && queuedPaths == n
      && queue == (if n == 0 then null else nodes[0])
      && queueTop == (if n == 0 then null else nodes[n - 1])
      && qPrev100 == (if n == 0 then null else nodes[LastMark(n)])
      && (forall i :: 0 <= i < n ==> nodes[i].id == i)
      && (forall i {:trigger nodes[i].next} :: 0 <= i < n ==> nodes[i].next == NextOf(i))
      && (forall i {:trigger nodes[i].next100} :: 0 <= i < n ==> nodes[i].next100 == SkipOf(i))
    }

    constructor ()
      ensures Linked() && nodes == []
    {
      queue, queueTop, qPrev100, queuedPaths, nodes := null, null, null, 0, [];
    }

    method Append()
      requires Linked()
      modifies this, nodes
      ensures Linked() && |nodes| == |old(nodes)| + 1 && nodes[..|old(nodes)|] == old(nodes)
      ensures fresh(nodes[|old(nodes)|])
    {
      ghost var before, n := nodes, |nodes|;
      var q := new QueueNode(queuedPaths);
      if queueTop != null {
        LastMarkStep(n);
        queueTop.next := q;
        queueTop := q;
      } else {
        qPrev100, queue, queueTop := q, q, q;
      }
      queuedPaths := queuedPaths + 1;
      if (queuedPaths - 1) % 100 == 0 && queuedPaths > 1 {
        qPrev100.next100 := q;
        qPrev100 := q;
      }
      nodes := nodes + [q];
      assert nodes[n] == q && nodes[..n] == before;
      assert n > 0 ==> before[n - 1].next == q;
      forall i | 0 <= i < n ensures before[i].next100 == SkipOf(i) {
        assert i % 100 == 0 && i + 100 == n ==> before[i] == old(qPrev100);
        assert before[i] != old(qPrev100) ==> before[i].next100 == old(before[i].next100);
      }
    }

    /** The node with index `id`: a hundred at a time, then one by one. */
    method Seek(id: nat) returns (target: QueueNode)
      requires Linked() && id < queuedPaths
      ensures target == nodes[id]
    {
      var tid := id;
      var t := queue;
      while tid >= 100
        invariant 0 <= tid <= id && (id - tid) % 100 == 0
        invariant t == nodes[id - tid]
      {
        t := t.next100;
        tid := tid - 100;
      }
      while tid > 0
        invariant 0 <= tid <= id
        invariant t == nodes[id - tid]
      {
        t := t.next;
        tid := tid - 1;
      }
      target := t;
    }
  }
}
