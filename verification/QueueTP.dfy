/** The linked queue template: it refines a bounded first-in-first-out sequence. */
module QueueTP {

  import opened Links

  class QueueTP<Item> {
    var front: Node?<Item>
    var rear: Node?<Item>
    var items: int
    const qsize: int

    ghost var nodes: seq<Node<Item>>   // the nodes from front to rear
    ghost var contents: seq<Item>      // the queued items, the oldest first
    ghost var freed: set<Node<Item>>   // the nodes deleted so far
    ghost var accepted: seq<Item>      // all items enqueue took
    ghost var delivered: seq<Item>     // all items dequeue gave back

    ghost predicate Valid()
      reads this, nodes
    {
      && Chain(nodes)
      && (if nodes == [] then front == null && rear == null
          else front == nodes[0] && rear == nodes[|nodes| - 1])
      && items == |nodes| == |contents|
      && (forall i :: 0 <= i < |nodes| ==> nodes[i].item == contents[i] && nodes[i] !in freed)
      && (qsize >= 0 ==> items <= qsize)
      && accepted == delivered + contents
    }

    constructor (qs: int)
      ensures Valid() && qsize == qs
      ensures contents == accepted == delivered == [] && freed == {}
    {
      qsize := qs;
      front, rear, items := null, null, 0;
      nodes, contents, freed, accepted, delivered := [], [], {}, [], [];
    }

    predicate IsEmpty()
      reads this
    {
      items == 0
    }

    predicate IsFull()
      reads this
    {
      items == qsize
    }

    method QueueCount() returns (count: int)
      requires Valid()
      ensures count == |contents|
    {
      count := items;
    }

    /** Appends the item unless the queue is full. */
    method Enqueue(item: Item) returns (ok: bool)
      requires Valid()
      modifies this, rear
      ensures Valid() && freed == old(freed) && delivered == old(delivered)
      ensures ok <==> |old(contents)| != qsize
      ensures contents == if ok then old(contents) + [item] else old(contents)
      ensures if ok then
                |nodes| == |old(nodes)| + 1 && nodes[..|old(nodes)|] == old(nodes) && fresh(nodes[|old(nodes)|])
              else nodes == old(nodes)
    {
      if IsFull() {
        return false;
      }
      var add := new Node(item);
      assert add !in nodes && add !in freed;
      items := items + 1;
      if front == null {
        front := add;
      } else {
        rear.next := add;
      }
      rear := add;
      nodes, contents, accepted := nodes + [add], contents + [item], accepted + [item];
      assert accepted == delivered + contents;
      ok := true;
    }

    /** Removes the oldest item; the reference parameter keeps its value when there is none. */
    method Dequeue(former: Item) returns (ok: bool, item: Item)
      requires Valid()
      modifies this
      ensures Valid() && accepted == old(accepted)
      ensures ok <==> old(contents) != []
      ensures if ok then
                && old(contents) == [item] + contents && old(nodes) == [old(nodes)[0]] + nodes
                && freed == old(freed) + {old(nodes)[0]}
              else item == former && contents == old(contents) && nodes == old(nodes) && freed == old(freed)
    {
      if front == null {
        return false, former;
      }
      item := front.item;
      items := items - 1;
      var temp := front;
      front := front.next;
      assert temp !in freed;
      freed := freed + {temp};
      if items == 0 {
        rear := null;
      }
      nodes, contents, delivered := nodes[1..], contents[1..], delivered + [item];
      assert accepted == delivered + contents;
      ok := true;
    }

    /** ~QueueTP: every node that is still linked is deleted, and none twice. */
    method Destroy()
      requires Valid()
      modifies this
      ensures front == null
      ensures freed == old(freed) + set n | n in old(nodes)
    {
      ghost var k := 0;
      while front != null
        invariant k <= |nodes| && nodes == old(nodes) && Chain(nodes)
        invariant front == if k < |nodes| then nodes[k] else null
        invariant freed == old(freed) + set n | n in nodes[..k]
        invariant forall i :: k <= i < |nodes| ==> nodes[i] !in freed
        decreases |nodes| - k
      {
        var temp := front;
        front := front.next;
        assert temp !in freed;
        freed := freed + {temp};
        assert nodes[..k + 1] == nodes[..k] + [nodes[k]];
        k := k + 1;
      }
      assert nodes[..k] == nodes;
    }
  }

  /** What the sequence promises: the delivered items are the accepted ones in the same order, and
      what is missing is still queued. */
  lemma DeliversInOrder<Item>(q: QueueTP<Item>)
    requires q.Valid()
    ensures q.delivered <= q.accepted && q.accepted[|q.delivered|..] == q.contents
    ensures q.qsize >= 0 ==> |q.accepted| - |q.delivered| <= q.qsize
  {
  }

  /** front reaches exactly items nodes, and the last of them is rear. */
  lemma FrontReachesItems<Item>(q: QueueTP<Item>)
    requires q.Valid()
    ensures Reaches(q.front, q.nodes) && |q.nodes| == q.items
    ensures q.nodes != [] ==> q.rear == q.nodes[|q.nodes| - 1]
  {
    ChainIsReached(q.nodes);
  }
}
