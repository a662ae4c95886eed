/** The lists of waiting clients in Blocked are the linked lists of AdList, a node's number standing for its address. */
module BlockedLists {
  import opened Blocked
  import opened BlockedServing
  import opened BlockedServer
  import AdList

  type Node = AdList.Node<Client>

  /** Every node of a list has an address, and no two the same. */
  ghost predicate Addressed(nodes: seq<Node>, address: map<Node, nat>) {
    && (forall n <- nodes :: n in address)
    && (forall m, n | m in address && n in address && address[m] == address[n] :: m == n)
  }

  ghost function Picture(nodes: seq<Node>, address: map<Node, nat>): (list: seq<Waiter>)
    requires forall n <- nodes :: n in address
    ensures |list| == |nodes|
  {
    if nodes == [] then [] else Picture(nodes[..|nodes| - 1], address) + [WaiterOf(nodes[|nodes| - 1], address)]
  }

  ghost function WaiterOf(n: Node, address: map<Node, nat>): Waiter
    requires n in address
  {
    Waiter(address[n], n.value)
  }

  lemma {:induction false} PictureAt(nodes: seq<Node>, address: map<Node, nat>, i: nat)
    requires i < |nodes| && forall n <- nodes :: n in address
    ensures Picture(nodes, address)[i] == WaiterOf(nodes[i], address)
    decreases |nodes|
  {
    if i < |nodes| - 1 { PictureAt(nodes[..|nodes| - 1], address, i); }
  }

  /** listAddNodeTail adds the waiter at the end. */
  lemma AddNodeTailIs(nodes: seq<Node>, n: Node, address: map<Node, nat>)
    requires forall m <- nodes + [n] :: m in address
    ensures Picture(nodes + [n], address) == Picture(nodes, address) + [WaiterOf(n, address)]
  {
    assert n in nodes + [n] && (nodes + [n])[..|nodes|] == nodes;
  }

  /** listRotateHeadToTail rotates the waiters. */
  lemma RotateIs(nodes: seq<Node>, address: map<Node, nat>)
    requires nodes != [] && forall m <- nodes :: m in address
    ensures Picture(nodes[1..] + [nodes[0]], address) == Rotate(Picture(nodes, address))
  {
    hide Picture;
    var after := nodes[1..] + [nodes[0]];
    assert forall m <- after :: m in nodes;
    forall i | 0 <= i < |nodes| ensures Picture(after, address)[i] == Rotate(Picture(nodes, address))[i] {
      PictureAt(after, address, i);
      PictureAt(nodes, address, if i < |nodes| - 1 then i + 1 else 0);
    }
  }

  lemma {:induction false} WithoutNodeAt(list: seq<Waiter>, i: nat)
    requires i < |list| && forall j | 0 <= j < |list| && j != i :: list[j].node != list[i].node
    ensures WithoutNode(list, list[i].node) == list[..i] + list[i + 1..]
  {
    if i == 0 {
      WithoutNodeAbsent(list[1..], list[0].node);
    } else {
      assert list[0].node != list[i].node;
      WithoutNodeAt(list[1..], i - 1);
      assert list[..i] + list[i + 1..] == [list[0]] + (list[1..][..i - 1] + list[1..][i..]);
    }
  }

  lemma {:induction false} WithoutNodeAbsent(list: seq<Waiter>, node: nat)
    requires forall j | 0 <= j < |list| :: list[j].node != node
    ensures WithoutNode(list, node) == list
  {
    if list != [] { WithoutNodeAbsent(list[1..], node); }
  }

  /** listDelNode takes out the waiter with that node's number. */
  lemma DelNodeIs(nodes: seq<Node>, address: map<Node, nat>, i: nat)
    requires Addressed(nodes, address) && i < |nodes| && forall j, k | 0 <= j < k < |nodes| :: nodes[j] != nodes[k]
    ensures nodes[i] in address && forall m <- nodes[..i] + nodes[i + 1..] :: m in address
    ensures Picture(nodes[..i] + nodes[i + 1..], address) == WithoutNode(Picture(nodes, address), address[nodes[i]])
  {
    hide Picture, WithoutNode;
    var after, list := nodes[..i] + nodes[i + 1..], Picture(nodes, address);
    assert forall m <- after :: m in nodes;
    PictureAt(nodes, address, i);
    forall j | 0 <= j < |nodes| && j != i ensures list[j].node != list[i].node {
      PictureAt(nodes, address, j);
    }
    WithoutNodeAt(list, i);
    forall j | 0 <= j < |after| ensures Picture(after, address)[j] == (list[..i] + list[i + 1..])[j] {
      PictureAt(after, address, j);
      PictureAt(nodes, address, if j < i then j else j + 1);
    }
  }
}
