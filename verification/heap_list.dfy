/**
 Singly linked lists of heap nodes, as the caches behind the Mesa calls keep them; each is
 proved against the sequence of its items.
 */
module HeapList {

  // s with the element at i taken out.
  function Without<T>(s: seq<T>, i: nat): (r: seq<T>)
    requires i < |s|
    ensures |r| == |s| - 1
    ensures forall k :: 0 <= k < i ==> r[k] == s[k]
    ensures forall k :: i <= k < |r| ==> r[k] == s[k + 1]
  {
    s[..i] + s[i + 1..]
  }

  class Node<T(!new)> {
    var item: T
    var next: Node?<T>

    constructor (item: T)
      ensures this.item == item && next == null
    {
      this.item, next := item, null;
    }
  }

  ghost predicate Distinct<T(!new)>(ns: seq<Node<T>>) {
    forall i, j :: 0 <= i < j < |ns| ==> ns[i] != ns[j]
  }

  lemma DistinctAt<T(!new)>(ns: seq<Node<T>>, i: nat)
    requires Distinct(ns) && i < |ns|
    ensures forall k :: 0 <= k < |ns| && k != i ==> ns[k] != ns[i]
  {
  }

  lemma DistinctAppend<T(!new)>(ns: seq<Node<T>>, n: Node<T>)
    requires Distinct(ns) && n !in ns
    ensures Distinct(ns + [n])
  {
  }

  lemma DistinctDrop<T(!new)>(ns: seq<Node<T>>, i: nat)
    requires Distinct(ns) && i < |ns|
    ensures Distinct(Without(ns, i))
  {
    hide Without;
  }

  class List<T(!new)> {
    var head: Node?<T>
    ghost var nodes: seq<Node<T>>

    // The nodes reached from head, in order.
    ghost predicate Valid()
      reads this, nodes
    {
      && head == NodeAt(0)
      && (forall i :: 0 <= i < |nodes| ==> nodes[i].next == NodeAt(i + 1))
      && Distinct(nodes)
    }

    ghost function NodeAt(i: nat): Node?<T>
      reads this
    {
      if i < |nodes| then nodes[i] else null
    }

    ghost function Contents(): (s: seq<T>)
      reads this, nodes
      ensures |s| == |nodes| && forall i :: 0 <= i < |s| ==> s[i] == nodes[i].item
    {
      seq(|nodes|, i requires 0 <= i < |nodes| reads this, nodes => nodes[i].item)
    }

    constructor ()
      ensures Valid() && nodes == [] && Contents() == []
    {
      head, nodes := null, [];
    }

    // Returns every node to the allocator, which the model does not see.
    method Clear() returns (cnt: nat)
      requires Valid()
      modifies this
      ensures Valid() && nodes == [] && Contents() == [] && cnt == |old(nodes)|
    {
      var p := head;
      cnt := 0;
      while p != null
        invariant p == NodeAt(cnt) && cnt <= |nodes|
        decreases |nodes| - cnt
      {
        p := p.next;
        cnt := cnt + 1;
      }
      head := p;
      nodes := [];
    }

    // A new node after p, the last one.
    method AddTail(p: Node?<T>, x: T) returns (r: Node<T>)
      requires Valid()
      requires p == if nodes == [] then null else nodes[|nodes| - 1]
      modifies this, nodes
      ensures Valid() && fresh(r) && nodes == old(nodes) + [r] && r.item == x
      ensures Contents() == old(Contents()) + [x]
    {
      hide Contents, Distinct;
      ghost var s := Contents();
      r := new Node(x);
      DistinctAppend(nodes, r);
      if p == null {
        head := r;
      } else {
        DistinctAt(nodes, |nodes| - 1);
        p.next := r;
      }
      nodes := nodes + [r];
      assert forall k :: 0 <= k < |nodes| ==> Contents()[k] == (s + [x])[k];
    }

    // curr, at position i and after prev, is taken out.
    method Unlink(prev: Node?<T>, curr: Node<T>, ghost i: nat)
      requires Valid() && i < |nodes| && curr == nodes[i]
      requires prev == if i == 0 then head else nodes[i - 1]
      modifies this, nodes
      ensures Valid() && nodes == Without(old(nodes), i)
      ensures Contents() == Without(old(Contents()), i)
      ensures forall n :: n in nodes ==> n in old(nodes)
    {
      hide Contents, Distinct, Without;
      ghost var s := Contents();
      DistinctDrop(nodes, i);
      if head == curr {
        DistinctAt(nodes, 0);
        head := curr.next;
      } else {
        DistinctAt(nodes, i - 1);
        prev.next := curr.next;
      }
      nodes := Without(nodes, i);
      assert forall k :: 0 <= k < |nodes| ==> Contents()[k] == Without(s, i)[k];
    }

    method Count() returns (cnt: nat)
      requires Valid()
      ensures cnt == |nodes|
    {
      var curr := head;
      cnt := 0;
      while curr != null
        invariant curr == NodeAt(cnt) && cnt <= |nodes|
        decreases |nodes| - cnt
      {
        cnt := cnt + 1;
        curr := curr.next;
      }
    }
  }

  // A new value for the item of one node.
  method Assign<T(!new)>(l: List<T>, r: Node<T>, x: T, ghost i: nat)
    requires l.Valid() && i < |l.nodes| && r == l.nodes[i]
    modifies r`item
    ensures l.Valid() && l.Contents() == old(l.Contents())[i := x] && r.item == x
  {
    hide Distinct, List<T>.Contents;
    DistinctAt(l.nodes, i);
    ghost var s := l.Contents();
    r.item := x;
    assert forall k :: 0 <= k < |s| ==> l.Contents()[k] == s[i := x][k];
  }
}
