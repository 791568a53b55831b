/** The three frontier disciplines: `Stack` (last in, first out), `Queue`
    (first in, first out) and `PriorityQueue` (a node of least cost plus
    heuristic first). Each keeps its items in the list `container`, which its
    methods reassign as the source's methods mutate their list. */
module Frontiers {
  import opened SearchNodes

  class Stack<T> {
    var container: seq<T>

    constructor ()
      ensures container == []
    {
      container := [];
    }

    /** The `empty` property. */
    predicate Empty()
      reads this
      ensures Empty() <==> |container| == 0
    {
      container == []
    }

    method Push(item: T)
      modifies this
      ensures container == old(container) + [item]
    {
      container := container + [item];
    }

    /** Removes and returns the most recently pushed item; the rest keep their order. */
    method Pop() returns (item: T)
      requires container != []
      modifies this
      ensures item == old(container)[|old(container)| - 1]
      ensures container == old(container)[..|old(container)| - 1]
      ensures forall y :: y in old(container) <==> y in container || y == item
    {
      item := container[|container| - 1];
      ghost var before := container;
      container := container[..|container| - 1];
      assert before == container + [item];
    }
  }

  class Queue<T> {
    var container: seq<T>

    constructor ()
      ensures container == []
    {
      container := [];
    }

    /** The `empty` property. */
    predicate Empty()
      reads this
      ensures Empty() <==> |container| == 0
    {
      container == []
    }

    method Push(item: T)
      modifies this
      ensures container == old(container) + [item]
    {
      container := container + [item];
    }

    /** Removes and returns the earliest pushed item; the rest keep their order. */
    method Pop() returns (item: T)
      requires container != []
      modifies this
      ensures item == old(container)[0]
      ensures container == old(container)[1..]
      ensures forall y :: y in old(container) <==> y in container || y == item
    {
      item := container[0];
      ghost var before := container;
      container := container[1..];
      assert before == [item] + container;
    }
  }

  /** A min-priority frontier of search nodes ordered by `Less`. The heap layout
      of the source's list is not modelled: `container` is only a bag of nodes,
      and `Pop` may return any node of least score. */
  class PriorityQueue<S> {
    var container: seq<Node<S>>

    constructor ()
      ensures container == []
    {
      container := [];
    }

    /** The `empty` property. */
    predicate Empty()
      reads this
      ensures Empty() <==> |container| == 0
    {
      container == []
    }

    method Push(item: Node<S>)
      modifies this
      ensures multiset(container) == multiset(old(container)) + multiset{item}
      ensures forall y :: y in container <==> y in old(container) || y == item
      ensures |container| == |old(container)| + 1
    {
      container := container + [item];
    }

    /** Removes one occurrence of a node that no other node is `Less` than. */
    method Pop() returns (item: Node<S>)
      requires container != []
      modifies this
      ensures item in old(container)
      ensures forall y :: y in old(container) ==> !Less(y, item)
      ensures multiset(container) == multiset(old(container)) - multiset{item}
      ensures forall y :: y in old(container) <==> y in container || y == item
      ensures |container| == |old(container)| - 1
    {
      var k := MinIndex(container);
      item := container[k];
      RemoveAt(container, k);
      container := container[..k] + container[k + 1..];
    }
  }

  /** The first position of a node of least score. */
  method MinIndex<S>(q: seq<Node<S>>) returns (k: nat)
    requires q != []
    ensures k < |q|
    ensures forall y :: y in q ==> !Less(y, q[k])
    ensures forall j :: 0 <= j < k ==> Score(q[k]) < Score(q[j])
  {
    k := 0;
    var i := 1;
    while i < |q|
      invariant 0 <= k < i <= |q|
      invariant forall j :: 0 <= j < i ==> Score(q[k]) <= Score(q[j])
      invariant forall j :: 0 <= j < k ==> Score(q[k]) < Score(q[j])
    {
      if Score(q[i]) < Score(q[k]) {
        k := i;
      }
      i := i + 1;
    }
  }

  /** Removing position k takes exactly one occurrence of q[k] out. */
  lemma RemoveAt<T>(q: seq<T>, k: nat)
    requires k < |q|
    ensures multiset(q[..k] + q[k + 1..]) == multiset(q) - multiset{q[k]}
    ensures forall y :: y in q <==> y in q[..k] + q[k + 1..] || y == q[k]
  {
    var a, b := q[..k], q[k + 1..];
    assert q == a + [q[k]] + b;
    assert multiset(q) == multiset(a) + multiset{q[k]} + multiset(b);
    assert multiset(a + b) == multiset(a) + multiset(b);
  }
}
