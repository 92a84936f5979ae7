/** The singly linked lists of the HTTP library.

    The library declares three list structs (headers and arguments, negotiated types, handlers)
    that differ only in their payload; each is reached through the address of a `first` pointer,
    grows at its tail and is read by walking `next`.  `List` is such a `first` variable, and its
    ghost fields are the chain that hangs off it, the payloads along that chain, and the nodes the list
    may write to. */
module LinkedLists {

  class Node<T> {
    var data: T
    var next: Node?<T>

    constructor (data: T)
      ensures this.data == data && next == null
    {
      this.data := data;
      next := null;
    }
  }

  /** The node at position i, or null just past the end. */
  ghost function NodeAt<T>(nodes: seq<Node<T>>, i: nat): Node?<T> {
    if i < |nodes| then nodes[i] else null
  }

  ghost predicate Distinct<T>(nodes: seq<Node<T>>) {
    forall i, j :: 0 <= i < j < |nodes| ==> nodes[i] != nodes[j]
  }

  /** `first` starts an acyclic null-terminated chain that visits exactly `nodes`, in order. */
  ghost predicate Chain<T>(first: Node?<T>, nodes: seq<Node<T>>)
    reads nodes
  {
    && first == NodeAt(nodes, 0)
    && (forall i {:trigger nodes[i].next} :: 0 <= i < |nodes| ==> nodes[i].next == NodeAt(nodes, i + 1))
    && Distinct(nodes)
  }

  class List<T> {
    var first: Node?<T>
    ghost var nodes: seq<Node<T>>
    ghost var items: seq<T>
    ghost var repr: set<Node<T>>

    ghost predicate Valid()
      reads this, repr
    {
      && (forall i :: 0 <= i < |nodes| ==> nodes[i] in repr)
      && Chain(first, nodes)
      && |items| == |nodes|
      && forall i {:trigger nodes[i].data} :: 0 <= i < |nodes| ==> nodes[i].data == items[i]
    }

    constructor ()
      ensures Valid() && nodes == [] && items == [] && repr == {}
    {
      first, nodes, items, repr := null, [], [], {};
    }

    /** Links a new node behind the last one, found by walking the chain. */
    method Append(x: T)
      requires Valid()
      modifies this, repr
      ensures Valid() && fresh(repr - old(repr))
      ensures |nodes| == |old(nodes)| + 1 && nodes[..|old(nodes)|] == old(nodes) && fresh(nodes[|old(nodes)|])
      ensures items == old(items) + [x]
    {
      var node := new Node(x);
      if first == null {
        first := node;
      } else {
        var it := first;
        ghost var k := 0;
        while it.next != null
          invariant 0 <= k < |nodes| && it == nodes[k]
          decreases |nodes| - k
        {
          it := it.next;
          k := k + 1;
        }
        it.next := node;
      }
      nodes, items, repr := nodes + [node], items + [x], repr + {node};
    }

    method Count() returns (count: nat)
      requires Valid()
      ensures count == |items|
    {
      count := 0;
      var it := first;
      while it != null
        invariant count <= |nodes| && it == NodeAt(nodes, count)
        decreases |nodes| - count
      {
        count := count + 1;
        it := it.next;
      }
    }
  }
}
