/** The intrusive circular queue of wepoll.c: the links that stand for the sequences of the other modules. */
module WepollQueue {
  import opened WepollSocket

  class Node {
    var prev: Node
    var next: Node

    /** queue_node_init */
    constructor ()
      ensures prev == this && next == this
    {
      prev, next := this, this;
    }
  }

  ghost predicate Joined(a: Node, b: Node)
    reads a, b
  {
    a.next == b && b.prev == a
  }

  /** The nodes of r are joined in this order, except perhaps the node at m with its neighbours. */
  ghost predicate Chain(r: seq<Node>, m: int)
    reads r
  {
    forall i, j :: 0 <= i < j < |r| && j == i + 1 && i != m && j != m ==> Joined(r[i], r[j])
  }

  /** The nodes of r form a ring, in this order. */
  ghost predicate Ring(r: seq<Node>)
    reads r
  {
    Distinct(r) && Chain(r, -1) && (r != [] ==> Joined(r[|r| - 1], r[0]))
  }

  /** The node is in no queue. */
  ghost predicate Loose(n: Node)
    reads n
  {
    n.prev == n && n.next == n
  }

  method JoinNeighbours(node: Node, ghost r: seq<Node>, ghost j: nat, ghost nx: nat)
    requires Ring(r) && 0 < j < |r| && nx == (if j + 1 < |r| then j + 1 else 0) && node == r[j]
    modifies r
    ensures Distinct(r) && Chain(r, j) && Joined(r[j - 1], r[nx]) && (nx != 0 ==> Joined(r[|r| - 1], r[0]))
  {
    RingAt(r, j);
    Apart(r, j - 1);
    Apart(r, nx);
    hide Distinct;
    node.prev.next := node.next;
    node.next.prev := node.prev;
  }

  class Queue {
    const head: Node
    ghost var items: seq<Node>

    ghost function All(): seq<Node>
      reads this
    {
      [head] + items
    }

    ghost predicate Valid()
      reads this, head, items
    {
      Ring(All())
    }

    /** queue_init */
    constructor ()
      ensures Valid() && items == [] && fresh(head)
    {
      head := new Node();
      items := [];
    }

    /** queue_is_empty */
    method IsEmpty() returns (empty: bool)
      requires Valid()
      ensures empty <==> items == []
    {
      RingEnds(All());
      var enqueued := IsEnqueued(head);
      empty := !enqueued;
    }

    /** queue_is_enqueued: the links of a node tell whether it is in a queue, and of the head whether the queue has
        nodes. */
    method IsEnqueued(node: Node) returns (enqueued: bool)
      requires Valid() && (node in All() || Loose(node))
      ensures node == head ==> (enqueued <==> items != [])
      ensures node != head ==> (enqueued <==> node in items)
    {
      enqueued := node.prev != node;
      if node in items {
        ghost var k :| 0 <= k < |items| && items[k] == node;
        assert All()[k + 1] == node;
        RingAt(All(), k + 1);
      } else if node == head {
        RingEnds(All());
      }
    }

    /** queue_first */
    method First() returns (node: Node?)
      requires Valid()
      ensures node == if items == [] then null else items[0]
    {
      RingEnds(All());
      var empty := IsEmpty();
      node := if !empty then head.next else null;
    }

    /** queue_last */
    method Last() returns (node: Node?)
      requires Valid()
      ensures node == if items == [] then null else items[|items| - 1]
    {
      RingEnds(All());
      var empty := IsEmpty();
      node := if !empty then head.prev else null;
    }

    /** queue_prepend */
    method Prepend(node: Node)
      requires Valid() && node !in All()
      modifies this`items, head, items, node
      ensures Valid() && items == [node] + old(items)
    {
      RingEnds(All());
      node.next := head.next;
      node.prev := head;
      node.next.prev := node;
      head.next := node;
      ghost var r := All();
      items := [node] + items;
      assert All() == [r[0], node] + r[1..];
    }

    /** queue_append */
    method Append(node: Node)
      requires Valid() && node !in All()
      modifies this`items, head, items, node
      ensures Valid() && items == old(items) + [node]
    {
      RingEnds(All());
      node.next := head;
      node.prev := head.prev;
      node.prev.next := node;
      head.prev := node;
      ghost var r := All();
      items := items + [node];
      assert All() == r + [node];
    }

    /** queue__detach_node: the neighbours are joined; the node still points to them. */
    method Detach(node: Node)
      requires Valid() && node in items
      modifies this`items, head, items
      ensures Valid() && items == Without(old(items), node)
    {
      hide Without, Distinct, Ring;
      ghost var r := All();
      RingDistinct(r);
      ghost var j := Position(r, items, node);
      ghost var nx := if j + 1 < |r| then j + 1 else 0;
      JoinNeighbours(node, r, j, nx);
      Shortened(r, j, nx);
      items := Without(items, node);
    }

    /** queue_remove */
    method Remove(node: Node)
      requires Valid() && node in items
      modifies this`items, head, items
      ensures Valid() && items == Without(old(items), node) && Loose(node)
    {
      Gone(All(), items, node);
      Detach(node);
      node.prev, node.next := node, node;
    }

    /** queue_move_to_start */
    method MoveToStart(node: Node)
      requires Valid() && node in items
      modifies this`items, head, items
      ensures Valid() && items == [node] + Without(old(items), node)
    {
      ghost var r, was := All(), items;
      Detach(node);
      GoneAll(r, was, items, node);
      Prepend(node);
    }

    /** queue_move_to_end */
    method MoveToEnd(node: Node)
      requires Valid() && node in items
      modifies this`items, head, items
      ensures Valid() && items == Without(old(items), node) + [node]
    {
      ghost var r, was := All(), items;
      Detach(node);
      GoneAll(r, was, items, node);
      Append(node);
    }

    /** port_request_socket_update and port_add_deleted_socket */
    method Request(node: Node)
      requires Valid() && node != head && (node in items || Loose(node))
      modifies this`items, head, items, node
      ensures Valid() && items == Requested(old(items), node)
    {
      var enqueued := IsEnqueued(node);
      if enqueued {
        return;
      }
      Append(node);
    }

    /** port_cancel_socket_update and port_remove_deleted_socket */
    method Cancel(node: Node)
      requires Valid() && node != head && (node in items || Loose(node))
      modifies this`items, head, items
      ensures Valid() && items == Without(old(items), node) && Loose(node)
    {
      var enqueued := IsEnqueued(node);
      if !enqueued {
        WithoutAbsent(items, node);
        return;
      }
      Remove(node);
    }
  }

  lemma RingEnds(r: seq<Node>)
    requires Ring(r) && r != []
    ensures r[0].prev == r[|r| - 1] && r[|r| - 1].next == r[0] && r[0].next == (if |r| == 1 then r[0] else r[1])
    ensures |r| > 1 ==> r[0].prev != r[0] && r[1].prev == r[0]
  {
  }

  lemma ItemsDistinct(r: seq<Node>)
    requires Distinct(r) && r != []
    ensures Distinct(r[1..])
  {
    var q := r[1..];
    forall i, j | 0 <= i < j < |q| ensures q[i] != q[j] {
      assert q[i] == r[i + 1] && q[j] == r[j + 1];
    }
  }

  lemma RingDistinct(r: seq<Node>)
    requires Ring(r)
    ensures Distinct(r)
  {
  }

  /** Where a node stands in the ring, and what is left of the ring without it. */
  lemma Position(r: seq<Node>, items: seq<Node>, node: Node) returns (j: nat)
    requires r != [] && r == [r[0]] + items && Distinct(r) && node in items
    ensures 0 < j < |r| && r[j] == node && [r[0]] + Without(items, node) == r[..j] + r[j + 1..]
  {
    var k :| 0 <= k < |items| && items[k] == node;
    assert r[1..] == items;
    ItemsDistinct(r);
    WithoutAt(items, k);
    j := k + 1;
  }

  lemma Apart(r: seq<Node>, j: nat)
    requires Distinct(r) && j < |r|
    ensures forall i :: 0 <= i < |r| && i != j ==> r[i] != r[j]
  {
  }

  /** The neighbours of r[j] have been joined: a ring without that node. */
  lemma Shortened(r: seq<Node>, j: nat, nx: nat)
    requires 0 < j < |r| && nx == (if j + 1 < |r| then j + 1 else 0) && Distinct(r) && Chain(r, j)
    requires Joined(r[j - 1], r[nx]) && (nx != 0 ==> Joined(r[|r| - 1], r[0]))
    ensures Ring(r[..j] + r[j + 1..])
  {
    var q := r[..j] + r[j + 1..];
    ShorterDistinct(r, j);
    hide Distinct, Joined;
    forall a, b | 0 <= a < b < |q| && b == a + 1 ensures Joined(q[a], q[b]) {
      assert q[a] == r[if a < j then a else a + 1] && q[b] == r[if b < j then b else b + 1];
    }
    assert q[0] == r[0] && q[|q| - 1] == if nx == 0 then r[j - 1] else r[|r| - 1];
  }

  lemma ShorterDistinct(r: seq<Node>, j: nat)
    requires Distinct(r) && j < |r|
    ensures Distinct(r[..j] + r[j + 1..])
  {
    var q := r[..j] + r[j + 1..];
    forall a, b | 0 <= a < b < |q| ensures q[a] != q[b] {
      assert q[a] == r[if a < j then a else a + 1] && q[b] == r[if b < j then b else b + 1];
    }
  }

  /** A node that is not the head: its neighbours on both sides. */
  lemma RingAt(r: seq<Node>, k: nat)
    requires Ring(r) && 0 < k < |r|
    ensures r[k].prev == r[k - 1] && r[k].next == r[if k + 1 < |r| then k + 1 else 0] && r[k].prev != r[k]
  {
    assert Joined(r[k - 1], r[k]);
    if k + 1 < |r| {
      assert Joined(r[k], r[k + 1]);
    }
  }

  /** What is left of a queue when a node has been taken out. */
  lemma Gone(r: seq<Node>, items: seq<Node>, x: Node)
    requires Distinct(r) && r != [] && r == [r[0]] + items && x in items
    ensures x != r[0] && forall y :: y in Without(items, x) <==> y in items && y != x
  {
    assert r[1..] == items;
    ItemsDistinct(r);
    WithoutMembers(items, x);
  }

  lemma GoneAll(r: seq<Node>, was: seq<Node>, items: seq<Node>, x: Node)
    requires Distinct(r) && r != [] && r == [r[0]] + was && x in was && items == Without(was, x)
    ensures x != r[0] && x !in items
    ensures forall i :: 0 <= i < |items| ==> items[i] in was
  {
    Gone(r, was, x);
    forall i | 0 <= i < |items| ensures items[i] in was {
      assert items[i] in items;
    }
  }

  lemma {:induction false} WithoutAt(q: seq<Node>, k: nat)
    requires k < |q| && Distinct(q)
    ensures Without(q, q[k]) == q[..k] + q[k + 1..]
  {
    if k > 0 {
      assert q[0] != q[k] && q[1..][k - 1] == q[k];
      WithoutAt(q[1..], k - 1);
      assert q[..k] == [q[0]] + q[1..][..k - 1] && q[k + 1..] == q[1..][k..];
    }
  }
}
