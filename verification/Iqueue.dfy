/** The circular linked lists of ikcp.h, on their own. */
module Iqueue {
  /** IQUEUEHEAD: the head of a queue, or the node inside a segment. */
  class Node {
    var next: Node?
    var prev: Node?

    constructor ()
      ensures next == null && prev == null
    {
      next, prev := null, null;
    }
  }

  /** Place i of a ring; one past the end is the head again. */
  ghost function At(r: seq<Node>, i: nat): Node
    requires i <= |r| && r != []
  {
    if i == |r| then r[0] else r[i]
  }

  ghost predicate Distinct(r: seq<Node>) {
    forall i, j :: 0 <= i < j < |r| ==> r[i] != r[j]
  }

  /** The nodes of a queue in order, its head first: next leads round once, and prev leads back. */
  ghost predicate Ring(r: seq<Node>)
    reads r
  {
    && r != [] && Distinct(r)
    && forall i :: 0 <= i < |r| ==> r[i].next == At(r, i + 1) && At(r, i + 1).prev == r[i]
  }

  /** IQUEUE_INIT */
  method Init(p: Node)
    modifies p
    ensures Ring([p])
  {
    p.next, p.prev := p, p;
  }

  /** A ring with a node put in after place k. */
  ghost function Inserted(r: seq<Node>, k: nat, node: Node): seq<Node>
    requires k < |r|
  {
    r[..k + 1] + [node] + r[k + 1..]
  }

  /** IQUEUE_ADD: after any element of the ring, its head in particular. */
  method Add(node: Node, head: Node, ghost r: seq<Node>, ghost k: nat)
    requires Ring(r) && k < |r| && head == r[k] && node !in r
    modifies node, r
    ensures Ring(Inserted(r, k, node))
  {
    assert r[k].next == At(r, k + 1);
    ghost var after := At(r, k + 1);
    node.prev := head;
    node.next := head.next;
    head.next.prev := node;
    head.next := node;
    InsertedRing(r, k, node, after);
  }

  /** The links a ring needs, written out for a node inserted after place k. */
  lemma InsertedRing(r: seq<Node>, k: nat, node: Node, after: Node)
    requires r != [] && Distinct(r) && k < |r| && node !in r && after == At(r, k + 1)
    requires r[k].next == node && node.prev == r[k] && node.next == after && after.prev == node
    requires forall i :: 0 <= i < |r| && i != k ==> r[i].next == At(r, i + 1) && At(r, i + 1).prev == r[i]
    ensures Ring(Inserted(r, k, node))
  {
  }

  /** IQUEUE_ADD_TAIL: before the head, so at the end of the queue. */
  method AddTail(node: Node, head: Node, ghost r: seq<Node>)
    requires Ring(r) && head == r[0] && node !in r
    modifies node, r
    ensures Ring(r + [node])
  {
    ghost var k := |r| - 1;
    assert r[k].next == At(r, k + 1) == head && head.prev == r[k];
    node.prev := head.prev;
    node.next := head;
    head.prev.next := node;
    head.prev := node;
    InsertedRing(r, k, node, head);
    assert Inserted(r, k, node) == r + [node];
  }

  /** A ring without place k. */
  ghost function Removed(r: seq<Node>, k: nat): seq<Node>
    requires k < |r|
  {
    r[..k] + r[k + 1..]
  }

  /** IQUEUE_DEL */
  method Del(entry: Node, ghost r: seq<Node>, ghost k: nat)
    requires Ring(r) && 0 < k < |r| && entry == r[k]
    modifies r
    ensures Ring(Removed(r, k)) && entry.next == null && entry.prev == null
  {
    ghost var after := At(r, k + 1);
    assert At(r, k) == entry && entry.prev == r[k - 1] by { assert r[k - 1].next == At(r, k - 1 + 1); }
    assert entry.next == after && after != entry;
    entry.next.prev := entry.prev;
    entry.prev.next := entry.next;
    entry.next := null;
    entry.prev := null;
    RemovedRing(r, k, after);
  }

  lemma RemovedRing(r: seq<Node>, k: nat, after: Node)
    requires r != [] && Distinct(r) && 0 < k < |r| && after == At(r, k + 1)
    requires r[k - 1].next == after && after.prev == r[k - 1]
    requires forall i :: 0 <= i < |r| && i != k && i != k - 1 ==> r[i].next == At(r, i + 1) && At(r, i + 1).prev == r[i]
    ensures Ring(Removed(r, k))
  {
  }

  /** IQUEUE_DEL_INIT */
  method DelInit(entry: Node, ghost r: seq<Node>, ghost k: nat)
    requires Ring(r) && 0 < k < |r| && entry == r[k]
    modifies r
    ensures Ring(Removed(r, k)) && Ring([entry])
  {
    Del(entry, r, k);
    Init(entry);
  }

  /** IQUEUE_IS_EMPTY */
  method IsEmpty(head: Node, ghost r: seq<Node>) returns (empty: bool)
    requires Ring(r) && head == r[0]
    ensures empty <==> |r| == 1
  {
    empty := head == head.next;
    assert head.next == At(r, 1);
  }

  /** iqueue_foreach_entry: the entries of a queue, in order, each once. */
  method Walk(head: Node, ghost r: seq<Node>) returns (entries: seq<Node>)
    requires Ring(r) && head == r[0]
    ensures entries == r[1..]
  {
    entries := [];
    var pos := head.next;
    ghost var k := 1;
    assert pos == At(r, 1);
    while pos != head
      invariant 1 <= k <= |r| && pos == At(r, k) && entries == r[1..k]
      decreases |r| - k
    {
      entries := entries + [pos];
      assert r[k].next == At(r, k + 1);
      pos, k := pos.next, k + 1;
    }
  }

  /** Two rings joined: the entries of the second after the first head. */
  ghost function Joined(r: seq<Node>, b: seq<Node>): seq<Node>
    requires r != []
  {
    [r[0]] + b + r[1..]
  }

  /** iqueue_splice: the entries of one queue to the front of another; the list head keeps its stale links. */
  method Splice(list: Node, head: Node, ghost l: seq<Node>, ghost r: seq<Node>)
    requires Ring(l) && Ring(r) && list == l[0] && head == r[0]
             && forall i, j :: 0 <= i < |l| && 0 <= j < |r| ==> l[i] != r[j]
    modifies l, r
    ensures Ring(Joined(r, l[1..]))
    ensures list.next == old(list.next) && list.prev == old(list.prev)
  {
    ghost var b := l[1..];
    assert list.next == At(l, 1);
    if list != list.next {
      assert |l| > 1 && l[|l| - 1].next == At(l, |l|) && list.prev == l[|l| - 1] && head.next == At(r, 1);
      var first, last := list.next, list.prev;
      var at := head.next;
      forall i | 0 <= i < |b| - 1 ensures b[i].next == b[i + 1] && b[i + 1].prev == b[i] {
        assert l[i + 1].next == At(l, i + 1 + 1);
      }
      first.prev := head;
      head.next := first;
      last.next := at;
      at.prev := last;
      JoinedRing(r, b);
    } else {
      assert b == [] && Joined(r, b) == r;
    }
  }

  lemma JoinedRing(r: seq<Node>, b: seq<Node>)
    requires r != [] && b != [] && Distinct(r) && Distinct(b)
             && forall i, j :: 0 <= i < |b| && 0 <= j < |r| ==> b[i] != r[j]
    requires r[0].next == b[0] && b[0].prev == r[0] && b[|b| - 1].next == At(r, 1) && At(r, 1).prev == b[|b| - 1]
    requires forall i :: 0 <= i < |b| - 1 ==> b[i].next == b[i + 1] && b[i + 1].prev == b[i]
    requires forall i :: 0 < i < |r| ==> r[i].next == At(r, i + 1) && At(r, i + 1).prev == r[i]
    ensures Ring(Joined(r, b))
  {
  }
}
