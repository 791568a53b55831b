/** `bfs`, `dfs` and `astar` and their counting twins. Each search is given
    the successor function, the goal test and the initial state (and, for A*,
    the heuristic). The proof-only parameter `universe` is a finite set of
    states, closed under successors, that holds the initial state: it stands
    for the finiteness of the reachable state space, which is what makes each
    search end. The explored set, the expanded set and the list of pushed
    states are bookkeeping for the proofs; only `explored`, the frontier and
    the counter exist in the source. */
module Search {
  import opened SearchNodes
  import opened Frontiers
  import opened SearchInvariants
  import opened BfsLevels

  /** The heuristic value `bfs` and `dfs` leave on their nodes: the default 0. */
  function NoEstimate<S>(s: S): int
  {
    0
  }

  /** `count_bfs`: breadth-first search over a FIFO `Queue`, counting pops. */
  method CountBfs<S(==,!new)>(succ: S -> seq<S>, goalTest: S -> bool, initial: S, ghost universe: set<S>)
    returns (r: Option<Node<S>>, counter: nat, ghost pushed: seq<S>)
    requires initial in universe && Closed(succ, universe)
    ensures 1 <= counter <= |universe|
    ensures Distinct(pushed) && counter <= |pushed| && pushed[0] == initial
    ensures forall s :: s in pushed ==> s in universe
    ensures goalTest(initial) ==> r == Some(Node(initial, None, 0, 0)) && counter == 1
    ensures r.Some? ==> Found(succ, goalTest, initial, r.value) && r.value.cost == 0 && r.value.heuristic == 0
    ensures r.Some? ==> Shallowest(succ, goalTest, initial, r.value)
    ensures r.None? ==> NoGoalReachable(succ, goalTest, initial) && counter == |pushed|
  {
    ghost var root := Node(initial, None, 0, 0);
    var explored: set<S> := {initial};
    var frontier := new Queue<Node<S>>();
    frontier.Push(Node(initial, None, 0, 0));
    counter := 0;
    pushed := [initial];
    ghost var expanded: set<S> := {};
    Seed(succ, goalTest, initial, universe, root);
    LevelSeed(succ, initial, root);
    while !frontier.Empty()
      invariant fresh(frontier)
      invariant Discovery(succ, goalTest, initial, universe, root, explored, expanded,
                          frontier.container, counter, pushed)
      invariant SuccessorsIn(succ, expanded, explored)
      invariant forall n :: n in frontier.container ==> n.cost == 0 && n.heuristic == 0
      invariant Levelled(succ, initial, expanded, frontier.container)
      decreases |universe| - counter
    {
      ghost var before := frontier.container;
      DiscoveryBounds(succ, goalTest, initial, universe, root, explored, expanded, before, counter, pushed);
      counter := counter + 1;
      var current := frontier.Pop();
      LevelPop(succ, initial, expanded, before);
      if goalTest(current.state) {
        PopGoal(succ, goalTest, initial, universe, root, explored, expanded, before, counter - 1, pushed,
                current, frontier.container);
        SettledShallowest(succ, goalTest, initial, expanded, current);
        r := Some(current);
        return;
      }
      explored, pushed := ExpandFifo(succ, goalTest, initial, universe, root, frontier, explored,
                                       expanded, before, current, counter, pushed);
      expanded := expanded + {current.state};
    }
    Exhausted(succ, goalTest, initial, universe, root, explored, expanded, counter, pushed);
    DiscoveryBounds(succ, goalTest, initial, universe, root, explored, expanded, [], counter, pushed);
    r := None;
  }

  /** One expansion of the FIFO search: current, just popped from the front of
      before, failed the goal test; its unexplored successors are queued. */
  method ExpandFifo<S(==,!new)>(succ: S -> seq<S>, goalTest: S -> bool, initial: S,
                                ghost universe: set<S>, ghost root: Node<S>,
                                frontier: Queue<Node<S>>, explored0: set<S>, ghost expanded: set<S>,
                                ghost before: seq<Node<S>>, current: Node<S>, ghost counter: nat,
                                ghost pushed0: seq<S>)
    returns (explored: set<S>, ghost pushed: seq<S>)
    requires Closed(succ, universe) && counter >= 1
    requires Discovery(succ, goalTest, initial, universe, root, explored0, expanded, before, counter - 1, pushed0)
    requires SuccessorsIn(succ, expanded, explored0)
    requires (forall y :: y in before <==> y in frontier.container || y == current)
    requires |frontier.container| == |before| - 1 && !goalTest(current.state)
    requires forall n :: n in before ==> n.cost == 0 && n.heuristic == 0
    requires LevelExpanding(succ, initial, expanded, Depth(current), frontier.container)
    modifies frontier
    ensures frontier.container ==
      old(frontier.container) + Children(current, Unexplored(succ(current.state), explored0), 0, NoEstimate)
    ensures explored == explored0 + Elements(succ(current.state))
    ensures pushed == pushed0 + Unexplored(succ(current.state), explored0)
    ensures Discovery(succ, goalTest, initial, universe, root, explored, expanded + {current.state},
                      frontier.container, counter, pushed)
    ensures SuccessorsIn(succ, expanded + {current.state}, explored)
    ensures forall n :: n in frontier.container ==> n.cost == 0 && n.heuristic == 0
    ensures Levelled(succ, initial, expanded + {current.state}, frontier.container)
  {
    PopStep(succ, goalTest, initial, universe, root, explored0, expanded, before, counter - 1, pushed0,
            current, frontier.container);
    explored, pushed := PushChildrenFifo(succ, goalTest, initial, universe, root, frontier, explored0,
                                         expanded, current, counter, pushed0);
    FinishStep(succ, goalTest, initial, universe, root, explored, expanded, current,
               frontier.container, counter, pushed, succ(current.state));
    LevelFinish(succ, initial, expanded, current.state, explored, Depth(current), frontier.container);
  }

  /** The source's `for child in childs` loop for the FIFO frontier: every
      successor of current that is not explored yet is explored and pushed as a
      child of current, in the order the successors come. */
  method PushChildrenFifo<S(==,!new)>(succ: S -> seq<S>, goalTest: S -> bool, initial: S,
                                      ghost universe: set<S>, ghost root: Node<S>,
                                      frontier: Queue<Node<S>>, explored0: set<S>, ghost expanded: set<S>,
                                      current: Node<S>, ghost counter: nat, ghost pushed0: seq<S>)
    returns (explored: set<S>, ghost pushed: seq<S>)
    requires Closed(succ, universe)
    requires Expanding(succ, goalTest, initial, universe, root, explored0, expanded, current,
                       frontier.container, counter, pushed0, succ(current.state), 0)
    requires forall n :: n in frontier.container ==> n.cost == 0 && n.heuristic == 0
    requires LevelExpanding(succ, initial, expanded, Depth(current), frontier.container)
    modifies frontier
    ensures frontier.container ==
      old(frontier.container) + Children(current, Unexplored(succ(current.state), explored0), 0, NoEstimate)
    ensures explored == explored0 + Elements(succ(current.state))
    ensures pushed == pushed0 + Unexplored(succ(current.state), explored0)
    ensures Expanding(succ, goalTest, initial, universe, root, explored, expanded, current,
                      frontier.container, counter, pushed, succ(current.state), |succ(current.state)|)
    ensures forall n :: n in frontier.container ==> n.cost == 0 && n.heuristic == 0
    ensures LevelExpanding(succ, initial, expanded, Depth(current), frontier.container)
  {
    explored, pushed := explored0, pushed0;
    var childs := succ(current.state);
    for j := 0 to |childs|
      invariant Appended(old(frontier.container), frontier.container, current, Unexplored(childs[..j], explored0),
                         0, NoEstimate)
      invariant Grown(explored0, explored, pushed0, pushed, childs, j)
      invariant Expanding(succ, goalTest, initial, universe, root, explored, expanded, current,
                          frontier.container, counter, pushed, childs, j)
      invariant LevelExpanding(succ, initial, expanded, Depth(current), frontier.container)
    {
      var child := childs[j];
      if child !in explored {
        var node := Node(child, Some(current), 0, 0);
        ghost var q := frontier.container;
        frontier.Push(node);
        assert node == Node(child, Some(current), 0, NoEstimate(child));
        PushInOrder(succ, goalTest, initial, universe, root, explored0, explored, expanded, current,
                    old(frontier.container), q, counter, pushed0, pushed, childs, j, 0, NoEstimate);
        LevelPush(succ, initial, expanded, explored, Depth(current), q, node);
        explored := explored + {child};
        pushed := pushed + [child];
      } else {
        SkipInOrder(succ, goalTest, initial, universe, root, explored0, explored, expanded, current,
                    frontier.container, counter, pushed0, pushed, childs, j);
      }
    }
    GrownDone(explored0, explored, pushed0, pushed, childs, old(frontier.container), frontier.container,
              current, 0, NoEstimate);
    AppendedFlat(old(frontier.container), frontier.container, current, Unexplored(childs, explored0), 0, NoEstimate, 0);
  }

  /** `bfs`: `count_bfs` without the counter. */
  method Bfs<S(==,!new)>(succ: S -> seq<S>, goalTest: S -> bool, initial: S, ghost universe: set<S>)
    returns (r: Option<Node<S>>)
    requires initial in universe && Closed(succ, universe)
    ensures goalTest(initial) ==> r == Some(Node(initial, None, 0, 0))
    ensures r.Some? ==> Found(succ, goalTest, initial, r.value) && Shallowest(succ, goalTest, initial, r.value)
    ensures r.None? ==> NoGoalReachable(succ, goalTest, initial)
  {
    var counter;
    ghost var pushed;
    r, counter, pushed := CountBfs(succ, goalTest, initial, universe);
  }

  /** `count_dfs`: depth-first search over a LIFO `Stack`, counting pops. */
  method CountDfs<S(==,!new)>(succ: S -> seq<S>, goalTest: S -> bool, initial: S, ghost universe: set<S>)
    returns (r: Option<Node<S>>, counter: nat, ghost pushed: seq<S>)
    requires initial in universe && Closed(succ, universe)
    ensures 1 <= counter <= |universe|
    ensures Distinct(pushed) && counter <= |pushed| && pushed[0] == initial
    ensures forall s :: s in pushed ==> s in universe
    ensures goalTest(initial) ==> r == Some(Node(initial, None, 0, 0)) && counter == 1
    ensures r.Some? ==> Found(succ, goalTest, initial, r.value) && r.value.cost == 0 && r.value.heuristic == 0
    ensures r.None? ==> NoGoalReachable(succ, goalTest, initial) && counter == |pushed|
  {
    ghost var root := Node(initial, None, 0, 0);
    var explored: set<S> := {initial};
    var frontier := new Stack<Node<S>>();
    frontier.Push(Node(initial, None, 0, 0));
    counter := 0;
    pushed := [initial];
    ghost var expanded: set<S> := {};
    Seed(succ, goalTest, initial, universe, root);
    while !frontier.Empty()
      invariant fresh(frontier)
      invariant Discovery(succ, goalTest, initial, universe, root, explored, expanded,
                          frontier.container, counter, pushed)
      invariant SuccessorsIn(succ, expanded, explored)
      invariant forall n :: n in frontier.container ==> n.cost == 0 && n.heuristic == 0
      decreases |universe| - counter
    {
      ghost var before := frontier.container;
      DiscoveryBounds(succ, goalTest, initial, universe, root, explored, expanded, before, counter, pushed);
      counter := counter + 1;
      var current := frontier.Pop();
      if goalTest(current.state) {
        PopGoal(succ, goalTest, initial, universe, root, explored, expanded, before, counter - 1, pushed,
                current, frontier.container);
        r := Some(current);
        return;
      }
      explored, pushed := ExpandLifo(succ, goalTest, initial, universe, root, frontier, explored,
                                       expanded, before, current, counter, pushed);
      expanded := expanded + {current.state};
    }
    Exhausted(succ, goalTest, initial, universe, root, explored, expanded, counter, pushed);
    DiscoveryBounds(succ, goalTest, initial, universe, root, explored, expanded, [], counter, pushed);
    r := None;
  }

  /** One expansion of the LIFO search: current, just popped from before,
      failed the goal test; its unexplored successors are pushed. */
  method ExpandLifo<S(==,!new)>(succ: S -> seq<S>, goalTest: S -> bool, initial: S,
                                ghost universe: set<S>, ghost root: Node<S>,
                                frontier: Stack<Node<S>>, explored0: set<S>, ghost expanded: set<S>,
                                ghost before: seq<Node<S>>, current: Node<S>, ghost counter: nat,
                                ghost pushed0: seq<S>)
    returns (explored: set<S>, ghost pushed: seq<S>)
    requires Closed(succ, universe) && counter >= 1
    requires Discovery(succ, goalTest, initial, universe, root, explored0, expanded, before, counter - 1, pushed0)
    requires SuccessorsIn(succ, expanded, explored0)
    requires (forall y :: y in before <==> y in frontier.container || y == current)
    requires |frontier.container| == |before| - 1 && !goalTest(current.state)
    requires forall n :: n in before ==> n.cost == 0 && n.heuristic == 0
    modifies frontier
    ensures frontier.container ==
      old(frontier.container) + Children(current, Unexplored(succ(current.state), explored0), 0, NoEstimate)
    ensures explored == explored0 + Elements(succ(current.state))
    ensures pushed == pushed0 + Unexplored(succ(current.state), explored0)
    ensures Discovery(succ, goalTest, initial, universe, root, explored, expanded + {current.state},
                      frontier.container, counter, pushed)
    ensures SuccessorsIn(succ, expanded + {current.state}, explored)
    ensures forall n :: n in frontier.container ==> n.cost == 0 && n.heuristic == 0
  {
    PopStep(succ, goalTest, initial, universe, root, explored0, expanded, before, counter - 1, pushed0,
            current, frontier.container);
    explored, pushed := PushChildrenLifo(succ, goalTest, initial, universe, root, frontier, explored0,
                                         expanded, current, counter, pushed0);
    FinishStep(succ, goalTest, initial, universe, root, explored, expanded, current,
               frontier.container, counter, pushed, succ(current.state));
  }

  /** The `for child in childs` loop for the LIFO frontier. */
  method PushChildrenLifo<S(==,!new)>(succ: S -> seq<S>, goalTest: S -> bool, initial: S,
                                      ghost universe: set<S>, ghost root: Node<S>,
                                      frontier: Stack<Node<S>>, explored0: set<S>, ghost expanded: set<S>,
                                      current: Node<S>, ghost counter: nat, ghost pushed0: seq<S>)
    returns (explored: set<S>, ghost pushed: seq<S>)
    requires Closed(succ, universe)
    requires Expanding(succ, goalTest, initial, universe, root, explored0, expanded, current,
                       frontier.container, counter, pushed0, succ(current.state), 0)
    requires forall n :: n in frontier.container ==> n.cost == 0 && n.heuristic == 0
    modifies frontier
    ensures frontier.container ==
      old(frontier.container) + Children(current, Unexplored(succ(current.state), explored0), 0, NoEstimate)
    ensures explored == explored0 + Elements(succ(current.state))
    ensures pushed == pushed0 + Unexplored(succ(current.state), explored0)
    ensures Expanding(succ, goalTest, initial, universe, root, explored, expanded, current,
                      frontier.container, counter, pushed, succ(current.state), |succ(current.state)|)
    ensures forall n :: n in frontier.container ==> n.cost == 0 && n.heuristic == 0
  {
    explored, pushed := explored0, pushed0;
    var childs := succ(current.state);
    for j := 0 to |childs|
      invariant Grown(explored0, explored, pushed0, pushed, childs, j)
      invariant Appended(old(frontier.container), frontier.container, current, Unexplored(childs[..j], explored0),
                         0, NoEstimate)
      invariant Expanding(succ, goalTest, initial, universe, root, explored, expanded, current,
                          frontier.container, counter, pushed, childs, j)
    {
      var child := childs[j];
      if child !in explored {
        var node := Node(child, Some(current), 0, 0);
        ghost var q := frontier.container;
        frontier.Push(node);
        assert node == Node(child, Some(current), 0, NoEstimate(child));
        PushInOrder(succ, goalTest, initial, universe, root, explored0, explored, expanded, current,
                    old(frontier.container), q, counter, pushed0, pushed, childs, j, 0, NoEstimate);
        explored := explored + {child};
        pushed := pushed + [child];
      } else {
        SkipInOrder(succ, goalTest, initial, universe, root, explored0, explored, expanded, current,
                    frontier.container, counter, pushed0, pushed, childs, j);
      }
    }
    GrownDone(explored0, explored, pushed0, pushed, childs, old(frontier.container), frontier.container,
              current, 0, NoEstimate);
    AppendedFlat(old(frontier.container), frontier.container, current, Unexplored(childs, explored0), 0, NoEstimate, 0);
  }

  /** `dfs`: `count_dfs` without the counter. */
  method Dfs<S(==,!new)>(succ: S -> seq<S>, goalTest: S -> bool, initial: S, ghost universe: set<S>)
    returns (r: Option<Node<S>>)
    requires initial in universe && Closed(succ, universe)
    ensures goalTest(initial) ==> r == Some(Node(initial, None, 0, 0))
    ensures r.Some? ==> Found(succ, goalTest, initial, r.value)
    ensures r.None? ==> NoGoalReachable(succ, goalTest, initial)
  {
    var counter;
    ghost var pushed;
    r, counter, pushed := CountDfs(succ, goalTest, initial, universe);
  }

  /** n and every node on its parent chain carry their depth as cost and the
      heuristic of their own state. */
  ghost predicate CostChain<S(!new)>(h: S -> int, n: Node<S>)
    decreases n
  {
    && n.cost == Depth(n) && n.heuristic == h(n.state)
    && match n.parent
       case None => true
       case Some(p) => CostChain(h, p)
  }

  /** Along a chain of correctly costed nodes the root has cost 0. */
  lemma {:induction false} CostChainRoot<S(!new)>(h: S -> int, n: Node<S>)
    requires CostChain(h, n)
    ensures Root(n).cost == 0 && Root(n).heuristic == h(Root(n).state)
    decreases n
  {
    match n.parent
    case None =>
    case Some(p) => CostChainRoot(h, p);
  }

  /** Every node of an A* frontier, and every node on its parent chain, carries
      its depth as cost and the heuristic of its state. */
  ghost predicate Costed<S(!new)>(h: S -> int, q: seq<Node<S>>)
  {
    forall n :: n in q ==> CostChain(h, n)
  }

  /** Children pushed one step deeper than a correctly costed parent, with
      their own heuristic values, keep every node's cost equal to its depth. */
  lemma CostedChildren<S(!new)>(h: S -> int, q0: seq<Node<S>>, q: seq<Node<S>>, current: Node<S>, xs: seq<S>)
    requires Costed(h, q0) && CostChain(h, current)
    requires Bagged(q0, q, current, xs, current.cost + 1, h)
    ensures Costed(h, q)
  {
    var kids := Children(current, xs, current.cost + 1, h);
    forall n | n in q
      ensures CostChain(h, n)
    {
      assert n in multiset(q);
      if n !in q0 {
        assert n in multiset(kids);
        var i :| 0 <= i < |kids| && kids[i] == n;
      }
    }
  }

  /** `count_astar`: best-first search over a `PriorityQueue` ordered by cost
      plus heuristic, counting pops. */
  method CountAstar<S(==,!new)>(succ: S -> seq<S>, goalTest: S -> bool, initial: S, h: S -> int,
                                ghost universe: set<S>)
    returns (r: Option<Node<S>>, counter: nat, ghost pushed: seq<S>)
    requires initial in universe && Closed(succ, universe)
    ensures 1 <= counter <= |universe|
    ensures Distinct(pushed) && counter <= |pushed| && pushed[0] == initial
    ensures forall s :: s in pushed ==> s in universe
    ensures goalTest(initial) ==> r == Some(Node(initial, None, 0, h(initial))) && counter == 1
    ensures r.Some? ==> Found(succ, goalTest, initial, r.value)
    ensures r.Some? ==> r.value.cost == Depth(r.value) && r.value.heuristic == h(r.value.state)
    ensures r.Some? ==> CostChain(h, r.value)
    ensures r.None? ==> NoGoalReachable(succ, goalTest, initial) && counter == |pushed|
  {
    ghost var root := Node(initial, None, 0, h(initial));
    var explored: set<S> := {initial};
    var frontier := new PriorityQueue<S>();
    frontier.Push(Node(initial, None, 0, h(initial)));
    assert root in frontier.container && |frontier.container| == 1;
    assert frontier.container == [frontier.container[0]];
    counter := 0;
    pushed := [initial];
    ghost var expanded: set<S> := {};
    Seed(succ, goalTest, initial, universe, root);
    while !frontier.Empty()
      invariant fresh(frontier)
      invariant Discovery(succ, goalTest, initial, universe, root, explored, expanded,
                          frontier.container, counter, pushed)
      invariant SuccessorsIn(succ, expanded, explored)
      invariant Costed(h, frontier.container)
      decreases |universe| - counter
    {
      ghost var before := frontier.container;
      DiscoveryBounds(succ, goalTest, initial, universe, root, explored, expanded, before, counter, pushed);
      counter := counter + 1;
      var current := frontier.Pop();
      if goalTest(current.state) {
        PopGoal(succ, goalTest, initial, universe, root, explored, expanded, before, counter - 1, pushed,
                current, frontier.container);
        r := Some(current);
        return;
      }
      explored, pushed := ExpandPriority(succ, goalTest, initial, h, universe, root, frontier, explored,
                                           expanded, before, current, counter, pushed);
      expanded := expanded + {current.state};
    }
    Exhausted(succ, goalTest, initial, universe, root, explored, expanded, counter, pushed);
    DiscoveryBounds(succ, goalTest, initial, universe, root, explored, expanded, [], counter, pushed);
    r := None;
  }

  /** One expansion of A*: current, a least node of before, failed the goal
      test; its unexplored successors are pushed. */
  method ExpandPriority<S(==,!new)>(succ: S -> seq<S>, goalTest: S -> bool, initial: S, h: S -> int,
                                    ghost universe: set<S>, ghost root: Node<S>,
                                    frontier: PriorityQueue<S>, explored0: set<S>, ghost expanded: set<S>,
                                    ghost before: seq<Node<S>>, current: Node<S>, ghost counter: nat,
                                    ghost pushed0: seq<S>)
    returns (explored: set<S>, ghost pushed: seq<S>)
    requires Closed(succ, universe) && counter >= 1
    requires Discovery(succ, goalTest, initial, universe, root, explored0, expanded, before, counter - 1, pushed0)
    requires SuccessorsIn(succ, expanded, explored0)
    requires (forall y :: y in before <==> y in frontier.container || y == current)
    requires |frontier.container| == |before| - 1 && !goalTest(current.state)
    requires Costed(h, before)
    modifies frontier
    ensures multiset(frontier.container) == multiset(old(frontier.container)) +
      multiset(Children(current, Unexplored(succ(current.state), explored0), current.cost + 1, h))
    ensures explored == explored0 + Elements(succ(current.state))
    ensures pushed == pushed0 + Unexplored(succ(current.state), explored0)
    ensures Discovery(succ, goalTest, initial, universe, root, explored, expanded + {current.state},
                      frontier.container, counter, pushed)
    ensures SuccessorsIn(succ, expanded + {current.state}, explored)
    ensures Costed(h, frontier.container)
  {
    PopStep(succ, goalTest, initial, universe, root, explored0, expanded, before, counter - 1, pushed0,
            current, frontier.container);
    assert current in before;
    explored, pushed := PushChildrenPriority(succ, goalTest, initial, h, universe, root, frontier, explored0,
                                             expanded, current, counter, pushed0);
    FinishStep(succ, goalTest, initial, universe, root, explored, expanded, current,
               frontier.container, counter, pushed, succ(current.state));
  }

  /** The `for child in childs` loop of A*: each fresh successor is pushed with
      one more step of cost than current and its own heuristic value. */
  method PushChildrenPriority<S(==,!new)>(succ: S -> seq<S>, goalTest: S -> bool, initial: S, h: S -> int,
                                          ghost universe: set<S>, ghost root: Node<S>,
                                          frontier: PriorityQueue<S>, explored0: set<S>, ghost expanded: set<S>,
                                          current: Node<S>, ghost counter: nat, ghost pushed0: seq<S>)
    returns (explored: set<S>, ghost pushed: seq<S>)
    requires Closed(succ, universe)
    requires Expanding(succ, goalTest, initial, universe, root, explored0, expanded, current,
                       frontier.container, counter, pushed0, succ(current.state), 0)
    requires Costed(h, frontier.container) && CostChain(h, current)
    modifies frontier
    ensures multiset(frontier.container) == multiset(old(frontier.container)) +
      multiset(Children(current, Unexplored(succ(current.state), explored0), current.cost + 1, h))
    ensures explored == explored0 + Elements(succ(current.state))
    ensures pushed == pushed0 + Unexplored(succ(current.state), explored0)
    ensures Expanding(succ, goalTest, initial, universe, root, explored, expanded, current,
                      frontier.container, counter, pushed, succ(current.state), |succ(current.state)|)
    ensures Costed(h, frontier.container)
  {
    explored, pushed := explored0, pushed0;
    var childs := succ(current.state);
    for j := 0 to |childs|
      invariant Grown(explored0, explored, pushed0, pushed, childs, j)
      invariant Bagged(old(frontier.container), frontier.container, current, Unexplored(childs[..j], explored0),
                       current.cost + 1, h)
      invariant Expanding(succ, goalTest, initial, universe, root, explored, expanded, current,
                          frontier.container, counter, pushed, childs, j)
    {
      explored, pushed := VisitPriority(succ, goalTest, initial, h, universe, root, frontier,
                                        old(frontier.container), explored0, explored, expanded, current,
                                        counter, pushed0, pushed, childs, j);
    }
    GrownDone(explored0, explored, pushed0, pushed, childs, old(frontier.container), frontier.container,
              current, current.cost + 1, h);
    CostedChildren(h, old(frontier.container), frontier.container, current, Unexplored(childs, explored0));
  }

  /** One pass of the A* `for child in childs` loop: successor j is pushed as a
      child of current, one step costlier and with its own heuristic value,
      and explored when it is not explored yet; it is skipped otherwise. */
  method VisitPriority<S(==,!new)>(succ: S -> seq<S>, goalTest: S -> bool, initial: S, h: S -> int,
                                   ghost universe: set<S>, ghost root: Node<S>, frontier: PriorityQueue<S>,
                                   ghost q0: seq<Node<S>>, ghost explored0: set<S>, explored: set<S>,
                                   ghost expanded: set<S>, current: Node<S>, ghost counter: nat,
                                   ghost pushed0: seq<S>, ghost pushed: seq<S>, childs: seq<S>, j: int)
    returns (explored': set<S>, ghost pushed': seq<S>)
    requires Closed(succ, universe)
    requires Grown(explored0, explored, pushed0, pushed, childs, j) && j < |childs|
    requires Bagged(q0, frontier.container, current, Unexplored(childs[..j], explored0), current.cost + 1, h)
    requires Expanding(succ, goalTest, initial, universe, root, explored, expanded, current,
                       frontier.container, counter, pushed, childs, j)
    modifies frontier
    ensures explored' == explored + {childs[j]}
    ensures childs[j] !in explored ==>
      multiset(frontier.container) ==
      multiset(old(frontier.container)) + multiset{Node(childs[j], Some(current), current.cost + 1, h(childs[j]))}
    ensures childs[j] in explored ==> frontier.container == old(frontier.container)
    ensures Grown(explored0, explored', pushed0, pushed', childs, j + 1)
    ensures Bagged(q0, frontier.container, current, Unexplored(childs[..j + 1], explored0), current.cost + 1, h)
    ensures Expanding(succ, goalTest, initial, universe, root, explored', expanded, current,
                      frontier.container, counter, pushed', childs, j + 1)
  {
    var child := childs[j];
    if child !in explored {
      var node := Node(child, Some(current), current.cost + 1, h(child));
      ghost var q := frontier.container;
      frontier.Push(node);
      PushInBag(succ, goalTest, initial, universe, root, explored0, explored, expanded, current,
                q0, q, frontier.container, counter, pushed0, pushed, childs, j, current.cost + 1, h);
      explored', pushed' := explored + {child}, pushed + [child];
    } else {
      SkipInOrder(succ, goalTest, initial, universe, root, explored0, explored, expanded, current,
                  frontier.container, counter, pushed0, pushed, childs, j);
      explored', pushed' := explored, pushed;
    }
  }

  /** `astar`: `count_astar` without the counter. */
  method Astar<S(==,!new)>(succ: S -> seq<S>, goalTest: S -> bool, initial: S, h: S -> int,
                           ghost universe: set<S>)
    returns (r: Option<Node<S>>)
    requires initial in universe && Closed(succ, universe)
    ensures goalTest(initial) ==> r == Some(Node(initial, None, 0, h(initial)))
    ensures r.Some? ==> Found(succ, goalTest, initial, r.value)
    ensures r.Some? ==> r.value.cost == Depth(r.value) && r.value.heuristic == h(r.value.state)
    ensures r.Some? ==> CostChain(h, r.value)
    ensures r.None? ==> NoGoalReachable(succ, goalTest, initial)
  {
    var counter;
    ghost var pushed;
    r, counter, pushed := CountAstar(succ, goalTest, initial, h, universe);
  }
}
