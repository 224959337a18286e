/**
 The intrusive queues of the engine: nodes linked in a ring through the queue
 head. Each operation on the links is one operation on a sequence of nodes.
 */
module IntrusiveQueue {

  class Node {
    var next: Node?
    var prev: Node?

    /** iqueue_init: a ring of one. */
    constructor ()
      ensures IsRing([this])
    {
      new;
      next, prev := this, this;
    }
  }

  function After(n: nat, i: nat): (j: nat)
    requires i < n
    ensures j < n
  {
    if i + 1 < n then i + 1 else 0
  }

  /** The nodes, in the order of next; prev goes back the same way. */
  ghost predicate IsRing(ring: seq<Node>)
    reads ring
  {
    && ring != []
    && (forall i, j :: 0 <= i < j < |ring| ==> ring[i] != ring[j])
    && forall i :: 0 <= i < |ring| ==>
         ring[i].next == ring[After(|ring|, i)] && ring[After(|ring|, i)].prev == ring[i]
  }

  /** A ring has no beginning. */
  lemma RotateOnce(ring: seq<Node>)
    requires IsRing(ring)
    ensures IsRing(ring[1..] + [ring[0]])
  {
    var turned := ring[1..] + [ring[0]];
    var n := |ring|;
    forall i | 0 <= i < n
      ensures turned[i] == ring[After(n, i)] && turned[After(n, i)] == ring[After(n, After(n, i))]
    {
    }
  }

  lemma {:induction false} Rotate(ring: seq<Node>, k: nat)
    requires IsRing(ring) && k <= |ring|
    ensures IsRing(ring[k..] + ring[..k])
    decreases k
  {
    if k == 0 {
      assert ring[0..] + ring[..0] == ring;
    } else {
      var turned := ring[1..] + [ring[0]];
      RotateOnce(ring);
      Rotate(turned, k - 1);
      assert turned[k - 1..] + turned[..k - 1] == ring[k..] + ring[..k];
    }
  }

  /** The neighbours of a node. */
  lemma Neighbours(ring: seq<Node>, i: nat)
    requires IsRing(ring) && i < |ring|
    ensures ring[i].next == ring[After(|ring|, i)]
    ensures ring[i].prev == ring[if i > 0 then i - 1 else |ring| - 1]
  {
    var j := if i > 0 then i - 1 else |ring| - 1;
    assert After(|ring|, j) == i;
  }

  /** iqueue_is_empty. */
  method IsEmpty(head: Node, ghost ring: seq<Node>) returns (empty: bool)
    requires IsRing(ring) && head == ring[0]
    ensures empty <==> ring == [head]
  {
    Neighbours(ring, 0);
    empty := head == head.next;
  }

  /** iqueue_add_tail: in front of the head, which is behind the last node. */
  method AddTail(node: Node, head: Node, ghost ring: seq<Node>)
    requires IsRing(ring) && head == ring[0] && node !in ring
    modifies node, ring
    ensures IsRing(ring + [node])
  {
    Neighbours(ring, 0);
    var last := head.prev;
    node.prev := head.prev;
    node.next := head;
    last.next := node;
    head.prev := node;
  }

  /** iqueue_add behind the last node of a ring. */
  method AddLast(node: Node, p: Node, ghost ring: seq<Node>)
    requires IsRing(ring) && p == ring[|ring| - 1] && node !in ring
    modifies node, ring
    ensures IsRing(ring + [node])
  {
    Neighbours(ring, |ring| - 1);
    var q := p.next;
    node.prev := p;
    node.next := p.next;
    q.prev := node;
    p.next := node;
  }

  /** iqueue_add: behind any node, which need not be the head. */
  method Add(node: Node, p: Node, ghost ring: seq<Node>, ghost i: nat)
    requires IsRing(ring) && i < |ring| && ring[i] == p && node !in ring
    modifies node, ring
    ensures IsRing(ring[..i + 1] + [node] + ring[i + 1..])
  {
    hide IsRing;
    ghost var turned := ring[i + 1..] + ring[..i + 1];
    ghost var more := turned + [node];
    Rotate(ring, i + 1);
    TurnedBack(ring, i, node);
    AddLast(node, p, turned);
    Rotate(more, |ring| - i - 1);
  }

  lemma TurnedBack(ring: seq<Node>, i: nat, node: Node)
    requires i < |ring|
    ensures var turned := ring[i + 1..] + ring[..i + 1];
      var more := turned + [node];
      && turned[|turned| - 1] == ring[i]
      && (forall x :: x in turned <==> x in ring)
      && more[|ring| - i - 1..] + more[..|ring| - i - 1] == ring[..i + 1] + [node] + ring[i + 1..]
  {
    var turned := ring[i + 1..] + ring[..i + 1];
    assert ring == ring[..i + 1] + ring[i + 1..];
  }

  /** iqueue_del of the last node. */
  method DelLast(entry: Node, ghost ring: seq<Node>)
    requires IsRing(ring) && |ring| > 1 && entry == ring[|ring| - 1]
    modifies ring
    ensures IsRing(ring[..|ring| - 1])
    ensures entry.next == null && entry.prev == null
  {
    Neighbours(ring, |ring| - 1);
    var n, p := entry.next, entry.prev;
    n.prev := p;
    p.next := n;
    entry.next := null;
    entry.prev := null;
    ghost var rest := ring[..|ring| - 1];
    forall k | 0 <= k < |rest|
      ensures rest[k].next == rest[After(|rest|, k)] && rest[After(|rest|, k)].prev == rest[k]
    {
      assert After(|ring|, k) == k + 1;
      assert old(ring[k].next) == ring[k + 1] && old(ring[k + 1].prev) == ring[k];
    }
  }

  /** iqueue_del: any node of a ring but its head. */
  method Del(entry: Node, ghost ring: seq<Node>, ghost i: nat)
    requires IsRing(ring) && 0 < i < |ring| && ring[i] == entry
    modifies ring
    ensures IsRing(ring[..i] + ring[i + 1..])
    ensures entry.next == null && entry.prev == null
  {
    hide IsRing;
    ghost var turned := ring[i + 1..] + ring[..i + 1];
    Rotate(ring, i + 1);
    TakenOut(ring, i);
    DelLast(entry, turned);
    Rotate(turned[..|turned| - 1], |ring| - i - 1);
  }

  lemma TakenOut(ring: seq<Node>, i: nat)
    requires 0 < i < |ring|
    ensures var turned := ring[i + 1..] + ring[..i + 1];
      var rest := turned[..|turned| - 1];
      && turned[|turned| - 1] == ring[i]
      && (forall x :: x in turned <==> x in ring)
      && rest[|ring| - i - 1..] + rest[..|ring| - i - 1] == ring[..i] + ring[i + 1..]
  {
    assert ring == ring[..i + 1] + ring[i + 1..];
  }

  /** iqueue_foreach: following next from the head visits the queue in order, and comes back. */
  method ForEach(head: Node, ghost ring: seq<Node>) returns (visited: seq<Node>)
    requires IsRing(ring) && head == ring[0]
    ensures visited == ring[1..]
  {
    visited := [];
    Neighbours(ring, 0);
    var pos := head.next;
    ghost var i := 1;
    while pos != head
      invariant 1 <= i <= |ring| && pos == ring[if i < |ring| then i else 0]
      invariant visited == ring[1..i]
      decreases |ring| - i
    {
      Neighbours(ring, i);
      visited := visited + [pos];
      pos := pos.next;
      i := i + 1;
    }
  }
}
