/** Singly linked nodes, as the queue template and the list both use them. */
module Links {

  class Node<Item> {
    var item: Item
    var next: Node?<Item>

    constructor (i: Item)
      ensures item == i && next == null
    {
      item, next := i, null;
    }
  }

  /** The nodes form a chain without repetitions that ends in null. */
  ghost predicate Chain<Item>(nodes: seq<Node<Item>>)
    reads nodes
  {
    && (forall i, j :: 0 <= i < j < |nodes| ==> nodes[i] != nodes[j])
    && (forall i :: 0 <= i < |nodes| - 1 ==> nodes[i].next == nodes[i + 1])
    && (nodes != [] ==> nodes[|nodes| - 1].next == null)
  }

  /** Following the next pointers from the given pointer visits exactly these nodes. */
  ghost predicate Reaches<Item>(from: Node?<Item>, nodes: seq<Node<Item>>)
    reads nodes
    decreases |nodes|
  {
    if nodes == [] then from == null
    else from == nodes[0] && Reaches(nodes[0].next, nodes[1..])
  }

  lemma {:induction false} ChainIsReached<Item>(nodes: seq<Node<Item>>)
    requires Chain(nodes)
    ensures Reaches(if nodes == [] then null else nodes[0], nodes)
    decreases |nodes|
  {
    if nodes != [] {
      var rest := nodes[1..];
      assert forall i :: 0 <= i < |rest| ==> rest[i] == nodes[i + 1];
      ChainIsReached(rest);
    }
  }
}
