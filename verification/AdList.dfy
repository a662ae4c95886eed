/** adlist.c: the doubly linked list whose nodes blocked.c and others keep pointers into. */
module AdList {
  class Node<V> {
    var prev: Node?<V>
    var next: Node?<V>
    const value: V

    constructor (v: V)
      ensures prev == null && next == null && value == v
    {
      prev, next, value := null, null, v;
    }
  }

  /** `nodes` is the list from head to tail. */
  class List<V> {
    var head: Node?<V>
    var tail: Node?<V>
    var len: nat
    ghost var nodes: seq<Node<V>>

    ghost predicate Valid()
      reads this, nodes
    {
      && len == |nodes|
      && (forall i, j | 0 <= i < j < |nodes| :: nodes[i] != nodes[j])
      && head == (if nodes == [] then null else nodes[0])
      && tail == (if nodes == [] then null else nodes[|nodes| - 1])
      && (forall i: nat | i < |nodes| :: Linked(i))
    }

    /** The i-th node points at its neighbours. */
    ghost predicate Linked(i: nat)
      requires i < |nodes|
      reads this, nodes
    {
      && nodes[i].prev == (if i == 0 then null else nodes[i - 1])
      && nodes[i].next == (if i == |nodes| - 1 then null else nodes[i + 1])
    }

    /** listCreate. */
    constructor ()
      ensures Valid() && nodes == []
    {
      head, tail, len, nodes := null, null, 0, [];
    }

    /** listAddNodeTail; the new node is listLast. */
    method AddNodeTail(v: V)
      requires Valid()
      modifies this, nodes
      ensures Valid() && |nodes| == |old(nodes)| + 1 && nodes[..|old(nodes)|] == old(nodes)
      ensures fresh(tail) && tail == nodes[|nodes| - 1] && tail.value == v
    {
      var node := new Node(v);
      if len == 0 {
        head, tail := node, node;
      } else {
        node.prev := tail;
        tail.next := node;
        tail := node;
      }
      len := len + 1;
      ghost var was := nodes;
      assert old(forall i: nat | i < |nodes| :: Linked(i));
      nodes := nodes + [node];
      forall j: nat | j < |nodes| ensures Linked(j) {
        if j < |was| { assert old(Linked(j)) && nodes[j] == was[j]; }
      }
    }

    /** listDelNode: whichever node it is, it alone leaves, and the others keep their order. */
    method DelNode(node: Node<V>, ghost i: nat)
      requires Valid() && i < |nodes| && nodes[i] == node
      modifies this, nodes
      ensures Valid() && nodes == old(nodes)[..i] + old(nodes)[i + 1..]
    {
      assert Linked(i);
      ghost var was := nodes;
      if node.prev != null { node.prev.next := node.next; } else { head := node.next; }
      if node.next != null { node.next.prev := node.prev; } else { tail := node.prev; }
      len := len - 1;
      nodes := nodes[..i] + nodes[i + 1..];
      forall j: nat | j < |nodes| ensures Linked(j) {
        var o := if j < i then j else j + 1;
        assert old(Linked(o)) && nodes[j] == was[o];
      }
      assert i > 0 ==> old(Linked(i - 1));
      assert i + 1 < |was| ==> old(Linked(i + 1));
    }

    /** listRotateHeadToTail. */
    method RotateHeadToTail()
      requires Valid()
      modifies this, nodes
      ensures Valid()
      ensures nodes == if |old(nodes)| <= 1 then old(nodes) else old(nodes)[1..] + [old(nodes)[0]]
    {
      if len <= 1 { return; }
      ghost var was := nodes;
      assert Linked(0) && Linked(|nodes| - 1) && Linked(1);
      var first := head;
      head := first.next;
      head.prev := null;
      tail.next := first;
      first.next := null;
      first.prev := tail;
      tail := first;
      nodes := nodes[1..] + [nodes[0]];
      forall j: nat | j < |nodes| ensures Linked(j) {
        var o := if j + 1 < |was| then j + 1 else 0;
        assert old(Linked(o)) && nodes[j] == was[o];
      }
    }

    ghost function Values(n: nat): seq<V>
      requires n <= |nodes|
      reads this, nodes
    {
      if n == 0 then [] else Values(n - 1) + [nodes[n - 1].value]
    }

    /** listRewind and listNext until NULL: every value once, from head to tail. */
    method Collect() returns (values: seq<V>)
      requires Valid()
      ensures values == Values(|nodes|)
    {
      values := [];
      var node := head;
      ghost var i := 0;
      while node != null
        invariant i <= |nodes| && node == (if i == |nodes| then null else nodes[i])
        invariant values == Values(i)
        decreases |nodes| - i
      {
        assert Linked(i);
        values := values + [node.value];
        node := node.next;
        i := i + 1;
      }
    }
  }
}
