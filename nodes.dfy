/** Search nodes of the generic search engine, walks through a state space,
    and path extraction from a node. */
module SearchNodes {

  datatype Option<+T> = None | Some(value: T)

  /** A node of the search tree: a state, the node it was reached from (None
      at the root), the cost paid so far and a heuristic estimate. A node never
      changes once built, so siblings sharing one parent value is the same as
      sharing one parent object. */
  datatype Node<S> = Node(state: S, parent: Option<Node<S>>, cost: int, heuristic: int)

  /** The value a priority frontier orders nodes by. */
  function Score<S>(n: Node<S>): int
  {
    n.cost + n.heuristic
  }

  /** `Node.__lt__`: a is strictly better than b when its cost plus heuristic is smaller. */
  predicate Less<S>(a: Node<S>, b: Node<S>): (lt: bool)
    ensures lt ==> a != b
  {
    Score(a) < Score(b)
  }

  /** `Less` is a strict weak order: irreflexive, transitive, and two nodes that
      are not ordered either way have the same score. */
  lemma LessIsStrictWeakOrder<S>(a: Node<S>, b: Node<S>, c: Node<S>)
    ensures !Less(a, a)
    ensures Less(a, b) && Less(b, c) ==> Less(a, c)
    ensures !Less(a, b) && !Less(b, a) ==> Score(a) == Score(b)
  {
  }

  /** Number of parent links from n up to the root of its tree. */
  function Depth<S>(n: Node<S>): nat
  {
    match n.parent
    case None => 0
    case Some(p) => Depth(p) + 1
  }

  /** The states on the way from the root down to n, root first. */
  function Trace<S>(n: Node<S>): (t: seq<S>)
    ensures |t| == Depth(n) + 1
    ensures t[0] == Root(n).state && t[|t| - 1] == n.state
  {
    match n.parent
    case None => [n.state]
    case Some(p) => Trace(p) + [n.state]
  }

  /** The node reached from n by following parent links to the end. */
  function Root<S>(n: Node<S>): (r: Node<S>)
    ensures r.parent == None
  {
    match n.parent
    case None => n
    case Some(p) => Root(p)
  }

  /** p is a walk through the state space given by succ: it starts at initial
      and each state is one of the successors of the state before it. */
  ghost predicate IsPath<S>(succ: S -> seq<S>, initial: S, p: seq<S>)
  {
    |p| >= 1 && p[0] == initial &&
    forall i :: 0 <= i < |p| - 1 ==> p[i + 1] in succ(p[i])
  }

  /** Following parents from n ends at a root holding initial, and the state of
      every child is one of the successors of its parent's state. */
  ghost predicate Chain<S>(succ: S -> seq<S>, initial: S, n: Node<S>)
  {
    match n.parent
    case None => n.state == initial
    case Some(p) => n.state in succ(p.state) && Chain(succ, initial, p)
  }

  /** Dropping the last state of a walk leaves a walk. */
  lemma PathPrefix<S>(succ: S -> seq<S>, initial: S, p: seq<S>)
    requires IsPath(succ, initial, p) && |p| >= 2
    ensures IsPath(succ, initial, p[..|p| - 1])
  {
    var q := p[..|p| - 1];
    forall i | 0 <= i < |q| - 1
      ensures q[i + 1] in succ(q[i])
    {
      assert q[i] == p[i] && q[i + 1] == p[i + 1];
    }
  }

  /** The states of a well-formed parent chain, read from the root, form a walk,
      and the root of the chain holds initial. */
  lemma {:induction false} ChainTrace<S>(succ: S -> seq<S>, initial: S, n: Node<S>)
    requires Chain(succ, initial, n)
    ensures IsPath(succ, initial, Trace(n))
    ensures Root(n) == Node(initial, None, Root(n).cost, Root(n).heuristic)
  {
    match n.parent
    case None =>
    case Some(p) =>
      ChainTrace(succ, initial, p);
      var t, u := Trace(p), Trace(n);
      assert u == t + [n.state];
      forall i | 0 <= i < |u| - 1
        ensures u[i + 1] in succ(u[i])
      {
        if i < |t| - 1 {
          assert u[i] == t[i] && u[i + 1] == t[i + 1];
        } else {
          assert u[i] == p.state && u[i + 1] == n.state;
        }
      }
  }

  /** `node_to_path`: collects the state of node and of each ancestor that has a
      parent itself, walking up the parent links. The result is NOT reversed: it
      runs from node towards the root, and the root's state is not in it. */
  method NodeToPath<S>(node: Node<S>) returns (path: seq<S>)
    ensures |path| == Depth(node)
    ensures path == [] <==> node.parent == None
    ensures forall i :: 0 <= i < |path| ==> path[i] == Trace(node)[|path| - i]
  {
    path := [];
    var n := node;
    while n.parent != None
      invariant Depth(node) == Depth(n) + |path|
      invariant Trace(n) == Trace(node)[..Depth(n) + 1]
      invariant forall i :: 0 <= i < |path| ==> path[i] == Trace(node)[Depth(node) - i]
      decreases n
    {
      path := path + [n.state];
      var p := n.parent.value;
      assert Trace(n) == Trace(p) + [n.state];
      assert Trace(p) == Trace(n)[..Depth(p) + 1];
      n := p;
    }
  }
}
