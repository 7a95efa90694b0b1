/**
 The doubly linked list of the server: head, tail and length are fields, the links
 are in the nodes. `nodes` is the list as it should be read from head to tail.
 */
module AdList {

  class Node<T> {
    var prev: Node?<T>
    var next: Node?<T>
    var value: T

    constructor (v: T)
      ensures value == v && prev == null && next == null
    {
      value, prev, next := v, null, null;
    }
  }

  /** The links of node `i` point at its neighbours. */
  ghost predicate Linked<T>(ns: seq<Node<T>>, i: int)
    reads ns
  {
    0 <= i < |ns| ==>
      && ns[i].prev == (if i == 0 then null else ns[i - 1])
      && ns[i].next == (if i == |ns| - 1 then null else ns[i + 1])
  }

  class List<T> {
    var head: Node?<T>
    var tail: Node?<T>
    var len: nat
    ghost var nodes: seq<Node<T>>

    /** The links spell out `nodes` in both directions. */
    ghost predicate Valid()
      reads this, nodes
    {
      && len == |nodes|
      && head == (if |nodes| == 0 then null else nodes[0])
      && tail == (if |nodes| == 0 then null else nodes[|nodes| - 1])
      && (forall i, j :: 0 <= i < j < |nodes| ==> nodes[i] != nodes[j])
      && (forall i :: Linked(nodes, i))
    }

    ghost function Contents(): seq<T>
      reads this, nodes
    {
      seq(|nodes|, i requires 0 <= i < |nodes| reads this, nodes => nodes[i].value)
    }

    constructor ()
      ensures Valid() && nodes == []
    {
      head, tail, len, nodes := null, null, 0, [];
    }

    /** listAddNodeHead. */
    method AddNodeHead(v: T)
      requires Valid()
      modifies `head, `tail, `len, `nodes, nodes`prev
      ensures Valid() && |nodes| == |old(nodes)| + 1 && fresh(nodes[0]) && nodes[1..] == old(nodes)
      ensures Contents() == [v] + old(Contents())
    {
      var node := new Node(v);
      ghost var was := nodes;
      if len == 0 {
        head, tail := node, node;
      } else {
        node.next := head;
        head.prev := node;
        head := node;
      }
      len, nodes := len + 1, [node] + nodes;
      forall i ensures Linked(nodes, i) { assert old(Linked(was, i - 1)); }
    }

    /** listAddNodeTail. */
    method AddNodeTail(v: T)
      requires Valid()
      modifies `head, `tail, `len, `nodes, nodes`next
      ensures Valid() && |nodes| == |old(nodes)| + 1 && fresh(nodes[|nodes| - 1]) && nodes[..|nodes| - 1] == old(nodes)
      ensures nodes[|nodes| - 1].value == v
      ensures Contents() == old(Contents()) + [v]
    {
      var node := new Node(v);
      if len == 0 {
        head, tail := node, node;
      } else {
        node.prev := tail;
        tail.next := node;
        tail := node;
      }
      len, nodes := len + 1, nodes + [node];
      forall i ensures Linked(nodes, i) { assert old(Linked(nodes, i)); }
    }

    /** The neighbours of the node, or the ends of the list, are joined over it. */
    method Unlink(node: Node<T>, ghost k: nat)
      requires Valid() && k < |nodes| && nodes[k] == node
      modifies `head, `tail, nodes`prev, nodes`next
      ensures head == (if k == 0 then old(node.next) else old(head))
      ensures tail == (if k == |nodes| - 1 then old(node.prev) else old(tail))
      ensures forall i :: 0 <= i < |nodes| ==> nodes[i].next == old(if i == k - 1 then node.next else nodes[i].next)
      ensures forall i :: 0 <= i < |nodes| ==> nodes[i].prev == old(if i == k + 1 then node.prev else nodes[i].prev)
    {
      assert Linked(nodes, k);
      if node.prev != null { node.prev.next := node.next; } else { head := node.next; }
      if node.next != null { node.next.prev := node.prev; } else { tail := node.prev; }
    }

    method Remove(node: Node<T>, ghost k: nat)
      requires Valid() && k < |nodes| && nodes[k] == node
      modifies `head, `tail, `len, `nodes, nodes`prev, nodes`next
      ensures Valid() && nodes == old(nodes)[..k] + old(nodes)[k + 1..]
    {
      assert Linked(nodes, k);
      Unlink(node, k);
      ghost var was := nodes;
      len, nodes := len - 1, nodes[..k] + nodes[k + 1..];
      assert forall j {:trigger nodes[j]} :: 0 <= j < |nodes| ==> nodes[j] == was[if j < k then j else j + 1];
      forall i ensures Linked(nodes, i) {
        assert old(Linked(was, i)) && old(Linked(was, i + 1));
      }
    }

    /** listDelNode: the node at position `k` goes, the others stay in order. */
    method DelNode(node: Node<T>, ghost k: nat)
      requires Valid() && k < |nodes| && nodes[k] == node
      modifies `head, `tail, `len, `nodes, nodes`prev, nodes`next
      ensures Valid() && nodes == old(nodes)[..k] + old(nodes)[k + 1..]
      ensures Contents() == old(Contents())[..k] + old(Contents())[k + 1..]
    {
      Remove(node, k);
    }

    /** listRotate: the last node becomes the first. */
    method Rotate()
      requires Valid()
      modifies this, nodes
      ensures Valid()
      ensures |old(nodes)| <= 1 ==> Contents() == old(Contents())
      ensures |old(nodes)| > 1 ==>
        nodes == [old(nodes)[|old(nodes)| - 1]] + old(nodes)[..|old(nodes)| - 1]
        && Contents() == [old(Contents())[|old(nodes)| - 1]] + old(Contents())[..|old(nodes)| - 1]
    {
      var last := tail;
      if len <= 1 { return; }
      assert Linked(nodes, |nodes| - 1);
      tail := last.prev;
      tail.next := null;
      head.prev := last;
      last.prev := null;
      last.next := head;
      head := last;
      nodes := [nodes[|nodes| - 1]] + nodes[..|nodes| - 1];
      forall i ensures Linked(nodes, i) { assert old(Linked(nodes, i - 1)); }
    }

    /** The last node and the first of `o` are linked. */
    method Chain(o: List<T>)
      requires Valid() && o.Valid() && o != this
      requires forall i, j :: 0 <= i < |nodes| && 0 <= j < |o.nodes| ==> nodes[i] != o.nodes[j]
      modifies `head, `tail, nodes`next, o.nodes`prev
      ensures head == (if nodes == [] then o.head else old(head)) && tail == (if o.nodes == [] then old(tail) else o.tail)
      ensures forall i :: 0 <= i < |nodes| ==> nodes[i].next == (if i == |nodes| - 1 then o.head else old(nodes[i].next))
      ensures forall i :: 0 <= i < |o.nodes| ==> o.nodes[i].prev == (if i == 0 then old(tail) else old(o.nodes[i].prev))
      ensures forall i :: 0 <= i < |nodes| ==> nodes[i].prev == old(nodes[i].prev)
      ensures forall i :: 0 <= i < |o.nodes| ==> o.nodes[i].next == old(o.nodes[i].next)
    {
      if o.head != null { o.head.prev := tail; }
      if tail != null { tail.next := o.head; } else { head := o.head; }
      if o.tail != null { tail := o.tail; }
    }

    /** The list takes over the nodes. */
    method Absorb(o: List<T>)
      requires Valid() && o.Valid() && o != this
      requires forall i, j :: 0 <= i < |nodes| && 0 <= j < |o.nodes| ==> nodes[i] != o.nodes[j]
      modifies this, nodes`next, o.nodes`prev
      ensures Valid() && nodes == old(nodes) + old(o.nodes)
    {
      Chain(o);
      len, nodes := len + o.len, nodes + o.nodes;
      forall i ensures Linked(nodes, i) {
        assert old(Linked(nodes, i)) && old(Linked(o.nodes, i - |nodes|));
      }
    }

    /** listJoin: all nodes of `o` move to the end, and `o` is left empty. */
    method Join(o: List<T>)
      requires Valid() && o.Valid() && o != this
      requires forall i, j :: 0 <= i < |nodes| && 0 <= j < |o.nodes| ==> nodes[i] != o.nodes[j]
      modifies this, nodes`next, o, o.nodes`prev
      ensures Valid() && nodes == old(nodes) + old(o.nodes) && Contents() == old(Contents()) + old(o.Contents())
      ensures o.Valid() && o.nodes == []
    {
      Absorb(o);
      o.head, o.tail, o.len, o.nodes := null, null, 0, [];
    }

    /** listIndex: from the head, or with a negative index from the tail. */
    method Index(index: int) returns (n: Node?<T>)
      requires Valid()
      ensures 0 <= index < |nodes| ==> n == nodes[index]
      ensures -|nodes| <= index < 0 ==> n == nodes[|nodes| + index]
      ensures index >= |nodes| || index < -|nodes| ==> n == null
    {
      if index < 0 {
        var i := -index - 1;
        n := tail;
        ghost var at := |nodes| - 1;
        while i > 0 && n != null
          invariant 0 <= i && -1 <= at < |nodes|
          invariant n == if at < 0 then null else nodes[at]
          invariant at == -1 ==> at - i >= |nodes| + index
          invariant at >= 0 ==> at - i == |nodes| + index
          decreases i
        {
          assert Linked(nodes, at);
          n, i, at := n.prev, i - 1, at - 1;
        }
      } else {
        var i := index;
        n := head;
        ghost var at := 0;
        while i > 0 && n != null
          invariant 0 <= i && 0 <= at <= |nodes| && at + i == index
          invariant n == if at == |nodes| then null else nodes[at]
          decreases i
        {
          assert Linked(nodes, at);
          n, i, at := n.next, i - 1, at + 1;
        }
      }
    }
  }
}
