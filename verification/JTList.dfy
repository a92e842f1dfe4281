/** The linked list of the iterator demo and its iterator. */
module JTList {
  import opened Links

  class JTList {
    var head: Node?<int>
    var tail: Node?<int>
    var count: int

    ghost const initialCount: int       // the constructor leaves the count uninitialized
    ghost var nodes: seq<Node<int>>     // the nodes from head
    ghost var freed: set<Node<int>>     // the nodes deleted so far

    /** The tail is only meaningful for a non-empty list: removing the only node leaves it dangling. */
    ghost predicate Valid()
      reads this, nodes
    {
      && Chain(nodes)
      && head == (if nodes == [] then null else nodes[0])
      && (nodes != [] ==> tail == nodes[|nodes| - 1])
      && count == initialCount + |nodes|
      && (forall i :: 0 <= i < |nodes| ==> nodes[i] !in freed)
    }

    /** The values of the list. */
    ghost function Contents(): seq<int>
      reads this, nodes
    {
      Values(nodes)
    }

    constructor (garbage: int)
      ensures Valid() && nodes == [] && freed == {} && initialCount == garbage
    {
      head, tail, count := null, null, garbage;
      initialCount, nodes, freed := garbage, [], {};
    }

    method GetCount() returns (n: int)
      requires Valid()
      ensures n == initialCount + |nodes|
    {
      n := count;
    }

    /** The index is one that Get looks up: inside the list, and below the count. */
    ghost predicate Finds(index: int)
      reads this
    {
      0 <= index < |nodes| && index < initialCount + |nodes|
    }

    /** The node at the index. An uninitialized count below 0 hides the last nodes. */
    method Get(index: int) returns (node: Node?<int>)
      requires Valid()
      ensures node == if Finds(index) then nodes[index] else null
    {
      if index > count - 1 || index < 0 {
        return null;
      }
      var position := 0;
      var temp := head;
      while temp != null
        invariant position <= |nodes| && position <= index
        invariant temp == if position < |nodes| then nodes[position] else null
        decreases |nodes| - position
      {
        var here := position;
        position := position + 1;
        if index == here {
          return temp;
        }
        temp := temp.next;
      }
      return null;
    }

    method First() returns (node: Node?<int>)
      ensures node == head
    {
      node := head;
    }

    method Last() returns (node: Node?<int>)
      ensures node == tail
    {
      node := tail;
    }

    method Includes(value: int) returns (found: bool)
      requires Valid()
      ensures found <==> value in Contents()
    {
      var temp := head;
      ghost var k := 0;
      while temp != null
        invariant k <= |nodes|
        invariant temp == if k < |nodes| then nodes[k] else null
        invariant forall i :: 0 <= i < k ==> nodes[i].item != value
        decreases |nodes| - k
      {
        if value == temp.item {
          assert Contents()[k] == value;
          return true;
        }
        temp := temp.next;
        k := k + 1;
      }
      return false;
    }

    method Append(value: int)
      requires Valid()
      modifies this, if nodes == [] then {} else {tail}
      ensures Valid() && freed == old(freed)
      ensures |nodes| == |old(nodes)| + 1 && nodes[..|old(nodes)|] == old(nodes) && fresh(nodes[|old(nodes)|])
      ensures Contents() == old(Contents()) + [value]
    {
      var insert := new Node(value);
      assert insert !in nodes && insert !in freed;
      if head == null {
        head := insert;
        tail := insert;
      } else {
        tail.next := insert;
        tail := insert;
      }
      count := count + 1;
      nodes := nodes + [insert];
    }

    /** The search loop of Remove: the node before a node that is not the first. */
    method Previous(node: Node<int>, ghost k: nat) returns (previous: Node<int>)
      requires Valid()
      requires 0 < k < |nodes| && nodes[k] == node
      ensures previous == nodes[k - 1]
    {
      previous := head;
      var current := head;
      ghost var i := 0;
      while current != null
        invariant i < k && current == nodes[i]
        decreases k - i
      {
        previous := current;
        current := current.next;
        i := i + 1;
        assert previous == nodes[i - 1] && current == nodes[i];
        if current == node {
          assert i == k;
          return;
        }
      }
    }

    /** The branch of Remove for a node that is not the first. */
    method UnlinkInner(node: Node<int>, ghost k: nat)
      requires Valid()
      requires 0 < k < |nodes| && nodes[k] == node
      modifies this`tail, nodes
      ensures Chain(Without(nodes, k)) && head == Without(nodes, k)[0] && tail == Without(nodes, k)[|nodes| - 2]
      ensures forall n :: n in nodes ==> n.item == old(n.item)
    {
      ghost var rest := Without(nodes, k);
      WithoutKeepsOrder(nodes, k);
      var previous := Previous(node, k);
      var next := node.next;
      if next == null {
        tail := previous;
      }
      previous.next := next;
      assert rest[k - 1] == previous && next == if k == |nodes| - 1 then null else rest[k];
    }

    /** Removes and deletes a node of the list; a null pointer changes nothing. */
    method Remove(node: Node?<int>)
      requires Valid()
      requires node != null ==> node in nodes
      modifies this, nodes
      ensures Valid()
      ensures node == null ==> nodes == old(nodes) && freed == old(freed)
      ensures node != null ==>
                exists k :: 0 <= k < |old(nodes)| && old(nodes)[k] == node && nodes == Without(old(nodes), k)
      ensures node != null ==> freed == old(freed) + {node}
      ensures forall n :: n in nodes ==> n.item == old(n.item)
    {
      if node == null || head == null || tail == null {
        return;
      }
      ghost var k: nat :| k < |nodes| && nodes[k] == node;
      Unlink(node, k);
      DropNode(node, k);
    }

    /** The first or another node is taken out of the chain. */
    method Unlink(node: Node<int>, ghost k: nat)
      requires Valid()
      requires k < |nodes| && nodes[k] == node
      modifies this`head, this`tail, nodes
      ensures Chain(Without(nodes, k))
      ensures head == (if |nodes| == 1 then null else Without(nodes, k)[0])
      ensures |nodes| > 1 ==> tail == Without(nodes, k)[|nodes| - 2]
      ensures forall n :: n in nodes ==> n.item == old(n.item)
    {
      if node == head {
        assert k == 0;
        ChainWithoutFirst(nodes);
        var newHead := head.next;
        head := newHead;
      } else {
        UnlinkInner(node, k);
      }
    }

    /** The node is deleted and no longer counted. */
    method DropNode(node: Node<int>, ghost k: nat)
      requires k < |nodes| && nodes[k] == node
      requires Chain(Without(nodes, k))
      requires head == (if |nodes| == 1 then null else Without(nodes, k)[0])
      requires |nodes| > 1 ==> tail == Without(nodes, k)[|nodes| - 2]
      requires count == initialCount + |nodes|
      requires forall i :: 0 <= i < |nodes| ==> nodes[i] !in freed
      requires forall i :: 0 <= i < |nodes| && i != k ==> nodes[i] != node
      modifies this`count, this`freed, this`nodes
      ensures Valid() && nodes == Without(old(nodes), k) && freed == old(freed) + {node}
    {
      assert node !in freed;
      freed := freed + {node};
      count := count - 1;
      nodes := Without(nodes, k);
    }

    /** ~JTList */
    method Destroy()
      requires Valid()
      modifies this
      ensures freed == old(freed) + set n | n in old(nodes)
    {
      var current := head;
      ghost var k := 0;
      while current != null
        invariant k <= |nodes| && nodes == old(nodes) && Chain(nodes)
        invariant current == if k < |nodes| then nodes[k] else null
        invariant freed == old(freed) + set n | n in nodes[..k]
        invariant forall i :: k <= i < |nodes| ==> nodes[i] !in freed
        decreases |nodes| - k
      {
        var next := current.next;
        assert current !in freed;
        freed := freed + {current};
        current := next;
        assert nodes[..k + 1] == nodes[..k] + [nodes[k]];
        k := k + 1;
      }
      assert nodes[..k] == nodes;
    }
  }

  ghost function Values(nodes: seq<Node<int>>): seq<int>
    reads nodes
  {
    seq(|nodes|, i requires 0 <= i < |nodes| reads nodes => nodes[i].item)
  }

  /** The sequence with the element at index k taken out. */
  ghost function Without<T>(s: seq<T>, k: nat): (r: seq<T>)
    requires k < |s|
    ensures |r| == |s| - 1
  {
    s[..k] + s[k + 1..]
  }

  lemma WithoutKeepsOrder<T>(s: seq<T>, k: nat)
    requires k < |s|
    ensures |Without(s, k)| == |s| - 1
    ensures forall i {:trigger Without(s, k)[i]} :: 0 <= i < |s| - 1 ==>
              Without(s, k)[i] == if i < k then s[i] else s[i + 1]
  {
  }

  lemma ChainWithoutFirst(nodes: seq<Node<int>>)
    requires Chain(nodes) && nodes != []
    ensures Chain(Without(nodes, 0)) && Without(nodes, 0) == nodes[1..]
    ensures nodes[0].next == if |nodes| == 1 then null else Without(nodes, 0)[0]
  {
    assert Without(nodes, 0) == nodes[1..];
  }

  /** Get finds every node exactly when the uninitialized count started at 0 or above. */
  lemma GetFindsEveryNode(list: JTList)
    requires list.nodes != []
    ensures (forall index :: 0 <= index < |list.nodes| ==> list.Finds(index)) <==> list.initialCount >= 0
  {
    if list.initialCount < 0 {
      assert !list.Finds(|list.nodes| - 1);
    }
  }

  lemma HeadReachesContents(list: JTList)
    requires list.Valid()
    ensures Reaches(list.head, list.nodes)
  {
    ChainIsReached(list.nodes);
  }

  class JTListIterator {
    const list: JTList
    var current: Node?<int>
    ghost var position: nat

    /** The iterator stands on the node at its position, or past the last one. */
    ghost predicate Valid()
      reads this, list, list.nodes
    {
      && list.Valid()
      && position <= |list.nodes|
      && current == if position < |list.nodes| then list.nodes[position] else null
    }

    constructor (list: JTList)
      ensures this.list == list && current == null
    {
      this.list := list;
      current := null;
      position := 0;
    }

    method First()
      requires list.Valid()
      modifies this
      ensures Valid() && position == 0
    {
      current := list.First();
      position := 0;
    }

    method Next()
      requires Valid() && position < |list.nodes|
      modifies this
      ensures Valid() && position == old(position) + 1
    {
      current := current.next;
      position := position + 1;
    }

    /** The source dereferences the tail, so the list must not be empty. */
    method IsDone() returns (done: bool)
      requires Valid() && list.nodes != []
      ensures done <==> position == |list.nodes|
    {
      var last := list.Last();
      done := current == last.next;
    }

    method CurrentItem() returns (node: Node?<int>)
      requires Valid()
      ensures node == if position < |list.nodes| then list.nodes[position] else null
    {
      node := current;
    }
  }

  /** The traversal loop of the demo: it prints every element once, in order, and ends. */
  method Traverse(list: JTList) returns (printed: seq<int>)
    requires list.Valid() && list.nodes != []
    ensures printed == list.Contents()
  {
    var cursor := new JTListIterator(list);
    cursor.First();
    printed := [];
    var done := cursor.IsDone();
    while !done
      invariant cursor.list == list && cursor.Valid() && fresh(cursor)
      invariant done <==> cursor.position == |list.nodes|
      invariant |printed| == cursor.position && forall i :: 0 <= i < |printed| ==> printed[i] == list.nodes[i].item
      decreases |list.nodes| - cursor.position
    {
      var node := cursor.CurrentItem();
      printed := printed + [node.item];
      cursor.Next();
      done := cursor.IsDone();
    }
  }
}
