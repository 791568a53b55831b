/** What the traversal template of `bfs`, `dfs` and `astar` keeps true, as
    predicates over the values the loop works on, and one lemma per step of
    the loop: seed the frontier, pop a node, push or skip one successor,
    finish an expansion, run dry. */
module SearchInvariants {
  import opened SearchNodes

  /** Every successor of a state of universe is in universe. */
  ghost predicate Closed<S(!new)>(succ: S -> seq<S>, universe: set<S>)
  {
    forall s :: s in universe ==> forall t :: t in succ(s) ==> t in universe
  }

  /** The states held by the nodes of a frontier. */
  ghost function States<S(!new)>(q: seq<Node<S>>): set<S>
  {
    set n | n in q :: n.state
  }

  ghost predicate Distinct<S(!new)>(s: seq<S>)
  {
    forall i, j :: 0 <= i < j < |s| ==> s[i] != s[j]
  }

  /** n is a search result: it satisfies the goal test and its parent chain is
      a chain of successor steps from a root holding initial. */
  ghost predicate Found<S(!new)>(succ: S -> seq<S>, goalTest: S -> bool, initial: S, n: Node<S>)
  {
    goalTest(n.state) && Chain(succ, initial, n)
  }

  /** No walk from initial ends in a state that satisfies the goal test. */
  ghost predicate NoGoalReachable<S(!new)>(succ: S -> seq<S>, goalTest: S -> bool, initial: S)
  {
    forall p :: IsPath(succ, initial, p) ==> !goalTest(p[|p| - 1])
  }

  /** The successors of every state of expanded are in explored. */
  ghost predicate SuccessorsIn<S(!new)>(succ: S -> seq<S>, expanded: set<S>, explored: set<S>)
  {
    forall x :: x in expanded ==> forall t :: t in succ(x) ==> t in explored
  }

  /** The state of one search between two iterations of its loop.
      explored: the states ever pushed (the source's `explored`); expanded: the
      states of the nodes popped so far, none of which passed the goal test;
      q: the frontier's contents; counter: the number of pops; pushed: the
      states in the order they were pushed. */
  ghost predicate Discovery<S(!new)>(succ: S -> seq<S>, goalTest: S -> bool, initial: S,
                                     universe: set<S>, root: Node<S>, explored: set<S>,
                                     expanded: set<S>, q: seq<Node<S>>, counter: nat, pushed: seq<S>)
  {
    && Frontier(succ, goalTest, initial, root, explored, expanded, q, counter)
    && Counted(universe, explored, q, counter, pushed)
    && PushedOnce(initial, explored, pushed)
  }

  /** The frontier and the expanded states together hold exactly the explored
      states; queued nodes have valid chains; no expanded state is a goal. */
  ghost predicate Frontier<S(!new)>(succ: S -> seq<S>, goalTest: S -> bool, initial: S, root: Node<S>,
                                    explored: set<S>, expanded: set<S>, q: seq<Node<S>>, counter: nat)
  {
    && root.state == initial && root.parent == None
    && initial in explored
    && explored == expanded + States(q)
    && (forall n :: n in q ==> Chain(succ, initial, n))
    && (forall x :: x in expanded ==> !goalTest(x))
    && (counter == 0 ==> q == [root])
    && (counter > 0 ==> initial in expanded)
  }

  /** Every state of universe has been popped, is on the frontier, or is unexplored. */
  ghost predicate Counted<S(!new)>(universe: set<S>, explored: set<S>, q: seq<Node<S>>, counter: nat, pushed: seq<S>)
  {
    && explored <= universe
    && counter + |q| + |universe - explored| == |universe|
    && |pushed| == counter + |q|
  }

  /** The pushed states, initial first, are distinct and are the explored ones. */
  ghost predicate PushedOnce<S(!new)>(initial: S, explored: set<S>, pushed: seq<S>)
  {
    && Distinct(pushed) && |pushed| >= 1 && pushed[0] == initial
    && (forall s :: s in explored <==> s in pushed)
  }

  /** The state of one search while it runs through the successors childs of
      the popped node current: j of them have been handled. */
  ghost predicate Expanding<S(!new)>(succ: S -> seq<S>, goalTest: S -> bool, initial: S,
                                     universe: set<S>, root: Node<S>, explored: set<S>,
                                     expanded: set<S>, current: Node<S>, q: seq<Node<S>>,
                                     counter: nat, pushed: seq<S>, childs: seq<S>, j: int)
  {
    && Discovery(succ, goalTest, initial, universe, root, explored, expanded + {current.state}, q, counter, pushed)
    && counter > 0
    && SuccessorsIn(succ, expanded, explored)
    && Chain(succ, initial, current)
    && childs == succ(current.state)
    && 0 <= j <= |childs|
    && forall k :: 0 <= k < j ==> childs[k] in explored
  }

  /** The successors the loop over childs pushes when it starts from explored:
      those not explored and not met earlier in childs, in the order they come. */
  function Unexplored<S(==,!new)>(childs: seq<S>, explored: set<S>): (r: seq<S>)
    ensures forall x :: x in r <==> x in childs && x !in explored
    ensures Distinct(r)
  {
    if childs == [] then []
    else
      var init, last := childs[..|childs| - 1], childs[|childs| - 1];
      assert childs == init + [last];
      if last in explored || last in init then Unexplored(init, explored)
      else Unexplored(init, explored) + [last]
  }

  /** The nodes pushed for the states xs: children of parent with the given
      cost and the heuristic of their own state, in the order of xs. */
  function Children<S>(parent: Node<S>, xs: seq<S>, cost: int, h: S -> int): (r: seq<Node<S>>)
    ensures |r| == |xs|
    ensures forall i :: 0 <= i < |xs| ==> r[i] == Node(xs[i], Some(parent), cost, h(xs[i]))
  {
    if xs == [] then []
    else Children(parent, xs[..|xs| - 1], cost, h) + [Node(xs[|xs| - 1], Some(parent), cost, h(xs[|xs| - 1]))]
  }

  /** The unexplored successors keep the order they have in childs: each sits
      at a position of childs, and the positions increase. */
  lemma {:induction false} UnexploredInOrder<S(!new)>(childs: seq<S>, explored: set<S>) returns (at: seq<nat>)
    ensures |at| == |Unexplored(childs, explored)|
    ensures forall k :: 0 <= k < |at| ==> at[k] < |childs| && childs[at[k]] == Unexplored(childs, explored)[k]
    ensures forall a, b :: 0 <= a < b < |at| ==> at[a] < at[b]
    ensures forall k :: 0 <= k < |at| ==> childs[at[k]] !in childs[..at[k]]
    decreases |childs|
  {
    if childs == [] {
      at := [];
    } else {
      var init, last := childs[..|childs| - 1], childs[|childs| - 1];
      assert childs == init + [last];
      at := UnexploredInOrder(init, explored);
      forall k | 0 <= k < |at|
        ensures childs[..at[k]] == init[..at[k]]
      {
      }
      if !(last in explored || last in init) {
        at := at + [|childs| - 1];
      }
    }
  }

  /** The nodes pushed for the unexplored successors are exactly the children
      of parent, with the given cost and their own heuristic value, whose state
      is a successor that was not explored. */
  lemma PushedChildren<S(!new)>(parent: Node<S>, childs: seq<S>, explored: set<S>, cost: int, h: S -> int, n: Node<S>)
    ensures n in Children(parent, Unexplored(childs, explored), cost, h) <==>
      && n.parent == Some(parent) && n.cost == cost && n.heuristic == h(n.state)
      && n.state in childs && n.state !in explored
  {
    var xs := Unexplored(childs, explored);
    var kids := Children(parent, xs, cost, h);
    if n.parent == Some(parent) && n.cost == cost && n.heuristic == h(n.state) && n.state in childs && n.state !in explored {
      var i :| 0 <= i < |xs| && xs[i] == n.state;
      assert kids[i] == n;
    }
  }

  /** The states of a list of successors, as a set. */
  ghost function Elements<S(!new)>(xs: seq<S>): set<S>
  {
    set x | x in xs
  }

  /** j successors of childs handled, starting from explored0 and pushed0:
      explored gained exactly those j states, and pushed the unexplored ones. */
  ghost predicate Grown<S(!new)>(explored0: set<S>, explored: set<S>, pushed0: seq<S>, pushed: seq<S>,
                                 childs: seq<S>, j: int)
  {
    && 0 <= j <= |childs|
    && explored == explored0 + Elements(childs[..j])
    && pushed == pushed0 + Unexplored(childs[..j], explored0)
  }

  /** Handling successor j: it is pushed exactly when it is not explored yet,
      and explored grows by it either way. */
  lemma GrownStep<S(!new)>(explored0: set<S>, explored: set<S>, pushed0: seq<S>, pushed: seq<S>,
                           childs: seq<S>, j: int)
    requires Grown(explored0, explored, pushed0, pushed, childs, j) && j < |childs|
    ensures childs[j] !in explored ==>
      && Unexplored(childs[..j + 1], explored0) == Unexplored(childs[..j], explored0) + [childs[j]]
      && Grown(explored0, explored + {childs[j]}, pushed0, pushed + [childs[j]], childs, j + 1)
    ensures childs[j] in explored ==>
      && Unexplored(childs[..j + 1], explored0) == Unexplored(childs[..j], explored0)
      && Grown(explored0, explored, pushed0, pushed, childs, j + 1)
  {
    var init, next := childs[..j], childs[..j + 1];
    assert next == init + [childs[j]];
    assert next[..j] == init;
    assert Elements(next) == Elements(init) + {childs[j]};
    assert childs[j] in explored <==> childs[j] in explored0 || childs[j] in init;
  }

  /** All successors handled: explored holds them all, and pushed and the
      frontier gained the unexplored ones. */
  lemma GrownDone<S(!new)>(explored0: set<S>, explored: set<S>, pushed0: seq<S>, pushed: seq<S>, childs: seq<S>,
                           q0: seq<Node<S>>, q: seq<Node<S>>, parent: Node<S>, cost: int, h: S -> int)
    requires Grown(explored0, explored, pushed0, pushed, childs, |childs|)
    ensures explored == explored0 + Elements(childs)
    ensures pushed == pushed0 + Unexplored(childs, explored0)
    ensures Appended(q0, q, parent, Unexplored(childs[..|childs|], explored0), cost, h) ==>
      q == q0 + Children(parent, Unexplored(childs, explored0), cost, h)
    ensures Bagged(q0, q, parent, Unexplored(childs[..|childs|], explored0), cost, h) ==>
      multiset(q) == multiset(q0) + multiset(Children(parent, Unexplored(childs, explored0), cost, h))
  {
    assert childs[..|childs|] == childs;
  }

  /** q is q0 followed by the nodes pushed for the states xs. */
  ghost predicate Appended<S>(q0: seq<Node<S>>, q: seq<Node<S>>, parent: Node<S>, xs: seq<S>, cost: int, h: S -> int)
  {
    q == q0 + Children(parent, xs, cost, h)
  }

  /** Appending the node of one more state to the list. */
  lemma AppendedStep<S>(q0: seq<Node<S>>, q: seq<Node<S>>, parent: Node<S>, xs: seq<S>, x: S, cost: int, h: S -> int)
    requires Appended(q0, q, parent, xs, cost, h)
    ensures Appended(q0, q + [Node(x, Some(parent), cost, h(x))], parent, xs + [x], cost, h)
  {
    var n := Node(x, Some(parent), cost, h(x));
    assert (xs + [x])[..|xs|] == xs;
    assert Children(parent, xs + [x], cost, h) == Children(parent, xs, cost, h) + [n];
    assert (q0 + Children(parent, xs, cost, h)) + [n] == q0 + (Children(parent, xs, cost, h) + [n]);
  }

  /** Nodes with cost c and heuristic value e stay so when children with that
      cost and value are appended. */
  lemma AppendedFlat<S>(q0: seq<Node<S>>, q: seq<Node<S>>, parent: Node<S>, xs: seq<S>, c: int, h: S -> int, e: int)
    requires Appended(q0, q, parent, xs, c, h)
    requires forall x :: x in xs ==> h(x) == e
    requires forall n :: n in q0 ==> n.cost == c && n.heuristic == e
    ensures forall n :: n in q ==> n.cost == c && n.heuristic == e
  {
  }

  /** The contents of q are those of q0 plus the nodes pushed for the states xs. */
  ghost predicate Bagged<S>(q0: seq<Node<S>>, q: seq<Node<S>>, parent: Node<S>, xs: seq<S>, cost: int, h: S -> int)
  {
    multiset(q) == multiset(q0) + multiset(Children(parent, xs, cost, h))
  }

  /** Adding one occurrence of the node of one more state. */
  lemma BaggedStep<S>(q0: seq<Node<S>>, q: seq<Node<S>>, q': seq<Node<S>>, parent: Node<S>, xs: seq<S>, x: S,
                      cost: int, h: S -> int)
    requires Bagged(q0, q, parent, xs, cost, h)
    requires multiset(q') == multiset(q) + multiset{Node(x, Some(parent), cost, h(x))}
    ensures Bagged(q0, q', parent, xs + [x], cost, h)
  {
    var n := Node(x, Some(parent), cost, h(x));
    assert (xs + [x])[..|xs|] == xs;
    assert Children(parent, xs + [x], cost, h) == Children(parent, xs, cost, h) + [n];
  }

  lemma StatesSplit<S(!new)>(q: seq<Node<S>>, rest: seq<Node<S>>, x: Node<S>)
    requires forall y :: y in q <==> y in rest || y == x
    ensures States(q) == States(rest) + {x.state}
  {
  }

  lemma UnexploredShrinks<S(!new)>(universe: set<S>, explored: set<S>, x: S)
    requires x in universe && x !in explored
    ensures |universe - (explored + {x})| == |universe - explored| - 1
  {
    assert universe - (explored + {x}) == (universe - explored) - {x};
  }

  /** The frontier is seeded with the root node and explored with initial. */
  lemma Seed<S(!new)>(succ: S -> seq<S>, goalTest: S -> bool, initial: S, universe: set<S>, root: Node<S>)
    requires initial in universe && root.state == initial && root.parent == None
    ensures Discovery(succ, goalTest, initial, universe, root, {initial}, {}, [root], 0, [initial])
    ensures SuccessorsIn(succ, {}, {initial})
  {
    assert States([root]) == {initial};
    assert universe - {initial} == universe - {initial};
  }

  /** Consequences of the loop state that the searches' contracts mention. */
  lemma DiscoveryBounds<S(!new)>(succ: S -> seq<S>, goalTest: S -> bool, initial: S,
                                 universe: set<S>, root: Node<S>, explored: set<S>,
                                 expanded: set<S>, q: seq<Node<S>>, counter: nat, pushed: seq<S>)
    requires Discovery(succ, goalTest, initial, universe, root, explored, expanded, q, counter, pushed)
    ensures counter + |q| <= |universe| && |pushed| == counter + |q|
    ensures Distinct(pushed) && |pushed| >= 1 && pushed[0] == initial
    ensures forall s :: s in pushed ==> s in universe
  {
  }

  /** A popped node that passes the goal test is a search result; it can only be
      the root when initial itself passes the goal test. */
  lemma PopGoal<S(!new)>(succ: S -> seq<S>, goalTest: S -> bool, initial: S,
                         universe: set<S>, root: Node<S>, explored: set<S>,
                         expanded: set<S>, q: seq<Node<S>>, counter: nat, pushed: seq<S>,
                         current: Node<S>, rest: seq<Node<S>>)
    requires Discovery(succ, goalTest, initial, universe, root, explored, expanded, q, counter, pushed)
    requires forall y :: y in q <==> y in rest || y == current
    requires goalTest(current.state)
    ensures Found(succ, goalTest, initial, current)
    ensures goalTest(initial) ==> counter == 0 && current == root
  {
    assert current in q;
  }

  /** Popping a node that fails the goal test starts its expansion. */
  lemma PopStep<S(!new)>(succ: S -> seq<S>, goalTest: S -> bool, initial: S,
                         universe: set<S>, root: Node<S>, explored: set<S>,
                         expanded: set<S>, q: seq<Node<S>>, counter: nat, pushed: seq<S>,
                         current: Node<S>, rest: seq<Node<S>>)
    requires Discovery(succ, goalTest, initial, universe, root, explored, expanded, q, counter, pushed)
    requires SuccessorsIn(succ, expanded, explored)
    requires (forall y :: y in q <==> y in rest || y == current) && |rest| == |q| - 1
    requires !goalTest(current.state)
    ensures Expanding(succ, goalTest, initial, universe, root, explored, expanded, current, rest,
                      counter + 1, pushed, succ(current.state), 0)
  {
    assert current in q;
    StatesSplit(q, rest, current);
    var e := expanded + {current.state};
    assert explored == e + States(rest);
    assert forall n :: n in rest ==> n in q;
    assert counter + 1 > 0 ==> initial in e;
  }

  /** Appending a state that is not among the pushed ones keeps them distinct. */
  lemma AppendFresh<S(!new)>(pushed: seq<S>, explored: set<S>, child: S)
    requires Distinct(pushed) && (forall s :: s in explored <==> s in pushed) && child !in explored
    ensures Distinct(pushed + [child])
    ensures forall s :: s in explored + {child} <==> s in pushed + [child]
  {
    var p' := pushed + [child];
    forall i, k | 0 <= i < k < |p'|
      ensures p'[i] != p'[k]
    {
      if k == |pushed| {
        assert p'[i] in pushed;
      }
    }
  }

  /** The part of the loop state the push of a fresh child changes. */
  lemma PushCounts<S(!new)>(universe: set<S>, explored: set<S>, q: seq<Node<S>>, q': seq<Node<S>>,
                            counter: nat, child: S)
    requires child in universe && child !in explored && |q'| == |q| + 1
    requires counter + |q| + |universe - explored| == |universe|
    ensures counter + |q'| + |universe - (explored + {child})| == |universe|
  {
    UnexploredShrinks(universe, explored, child);
  }

  /** Pushing a successor that is not explored yet, as a child of current. */
  lemma PushStep<S(!new)>(succ: S -> seq<S>, goalTest: S -> bool, initial: S,
                          universe: set<S>, root: Node<S>, explored: set<S>,
                          expanded: set<S>, current: Node<S>, q: seq<Node<S>>,
                          counter: nat, pushed: seq<S>, childs: seq<S>, j: int,
                          node: Node<S>, q': seq<Node<S>>)
    requires Closed(succ, universe)
    requires Expanding(succ, goalTest, initial, universe, root, explored, expanded, current, q,
                       counter, pushed, childs, j)
    requires j < |childs| && childs[j] !in explored
    requires node.state == childs[j] && node.parent == Some(current)
    requires (forall y :: y in q' <==> y in q || y == node) && |q'| == |q| + 1
    ensures Expanding(succ, goalTest, initial, universe, root, explored + {childs[j]}, expanded, current, q',
                      counter, pushed + [childs[j]], childs, j + 1)
  {
    var child := childs[j];
    assert current.state in explored;
    assert child in succ(current.state);
    PushCounts(universe, explored, q, q', counter, child);
    StatesSplit(q', q, node);
    AppendFresh(pushed, explored, child);
    assert Chain(succ, initial, node);
  }

  /** Skipping a successor that is already explored. */
  lemma SkipStep<S(!new)>(succ: S -> seq<S>, goalTest: S -> bool, initial: S,
                          universe: set<S>, root: Node<S>, explored: set<S>,
                          expanded: set<S>, current: Node<S>, q: seq<Node<S>>,
                          counter: nat, pushed: seq<S>, childs: seq<S>, j: int)
    requires Expanding(succ, goalTest, initial, universe, root, explored, expanded, current, q,
                       counter, pushed, childs, j)
    requires j < |childs| && childs[j] in explored
    ensures Expanding(succ, goalTest, initial, universe, root, explored, expanded, current, q,
                      counter, pushed, childs, j + 1)
  {
  }

  /** Pushing the unexplored successor j as a child of current onto a frontier
      that lists its pushes in order: the loop state of both loops advances. */
  lemma PushInOrder<S(!new)>(succ: S -> seq<S>, goalTest: S -> bool, initial: S,
                             universe: set<S>, root: Node<S>, explored0: set<S>, explored: set<S>,
                             expanded: set<S>, current: Node<S>, q0: seq<Node<S>>, q: seq<Node<S>>,
                             counter: nat, pushed0: seq<S>, pushed: seq<S>, childs: seq<S>, j: int,
                             cost: int, h: S -> int)
    requires Closed(succ, universe)
    requires Grown(explored0, explored, pushed0, pushed, childs, j)
    requires Appended(q0, q, current, Unexplored(childs[..j], explored0), cost, h)
    requires Expanding(succ, goalTest, initial, universe, root, explored, expanded, current, q,
                       counter, pushed, childs, j)
    requires j < |childs| && childs[j] !in explored
    ensures Appended(q0, q + [Node(childs[j], Some(current), cost, h(childs[j]))], current,
                     Unexplored(childs[..j + 1], explored0), cost, h)
    ensures Grown(explored0, explored + {childs[j]}, pushed0, pushed + [childs[j]], childs, j + 1)
    ensures Expanding(succ, goalTest, initial, universe, root, explored + {childs[j]}, expanded, current,
                      q + [Node(childs[j], Some(current), cost, h(childs[j]))], counter, pushed + [childs[j]],
                      childs, j + 1)
  {
    var node := Node(childs[j], Some(current), cost, h(childs[j]));
    GrownStep(explored0, explored, pushed0, pushed, childs, j);
    AppendedStep(q0, q, current, Unexplored(childs[..j], explored0), childs[j], cost, h);
    PushStep(succ, goalTest, initial, universe, root, explored, expanded, current, q,
             counter, pushed, childs, j, node, q + [node]);
  }

  /** Pushing the unexplored successor j as a child of current onto a frontier
      that keeps its pushes as a bag: the loop state of both loops advances. */
  lemma PushInBag<S(!new)>(succ: S -> seq<S>, goalTest: S -> bool, initial: S,
                           universe: set<S>, root: Node<S>, explored0: set<S>, explored: set<S>,
                           expanded: set<S>, current: Node<S>, q0: seq<Node<S>>, q: seq<Node<S>>, q': seq<Node<S>>,
                           counter: nat, pushed0: seq<S>, pushed: seq<S>, childs: seq<S>, j: int,
                           cost: int, h: S -> int)
    requires Closed(succ, universe)
    requires Grown(explored0, explored, pushed0, pushed, childs, j)
    requires Bagged(q0, q, current, Unexplored(childs[..j], explored0), cost, h)
    requires Expanding(succ, goalTest, initial, universe, root, explored, expanded, current, q,
                       counter, pushed, childs, j)
    requires j < |childs| && childs[j] !in explored
    requires multiset(q') == multiset(q) + multiset{Node(childs[j], Some(current), cost, h(childs[j]))}
    requires (forall y :: y in q' <==> y in q || y == Node(childs[j], Some(current), cost, h(childs[j])))
    requires |q'| == |q| + 1
    ensures Bagged(q0, q', current, Unexplored(childs[..j + 1], explored0), cost, h)
    ensures Grown(explored0, explored + {childs[j]}, pushed0, pushed + [childs[j]], childs, j + 1)
    ensures Expanding(succ, goalTest, initial, universe, root, explored + {childs[j]}, expanded, current,
                      q', counter, pushed + [childs[j]], childs, j + 1)
  {
    var node := Node(childs[j], Some(current), cost, h(childs[j]));
    GrownStep(explored0, explored, pushed0, pushed, childs, j);
    BaggedStep(q0, q, q', current, Unexplored(childs[..j], explored0), childs[j], cost, h);
    PushStep(succ, goalTest, initial, universe, root, explored, expanded, current, q,
             counter, pushed, childs, j, node, q');
  }

  /** Skipping the explored successor j: the loop state advances and nothing is pushed. */
  lemma SkipInOrder<S(!new)>(succ: S -> seq<S>, goalTest: S -> bool, initial: S,
                             universe: set<S>, root: Node<S>, explored0: set<S>, explored: set<S>,
                             expanded: set<S>, current: Node<S>, q: seq<Node<S>>,
                             counter: nat, pushed0: seq<S>, pushed: seq<S>, childs: seq<S>, j: int)
    requires Grown(explored0, explored, pushed0, pushed, childs, j)
    requires Expanding(succ, goalTest, initial, universe, root, explored, expanded, current, q,
                       counter, pushed, childs, j)
    requires j < |childs| && childs[j] in explored
    ensures Unexplored(childs[..j + 1], explored0) == Unexplored(childs[..j], explored0)
    ensures Grown(explored0, explored, pushed0, pushed, childs, j + 1)
    ensures Expanding(succ, goalTest, initial, universe, root, explored, expanded, current, q,
                      counter, pushed, childs, j + 1)
  {
    GrownStep(explored0, explored, pushed0, pushed, childs, j);
    SkipStep(succ, goalTest, initial, universe, root, explored, expanded, current, q, counter, pushed, childs, j);
  }

  /** After all successors are handled, current's state counts as expanded. */
  lemma FinishStep<S(!new)>(succ: S -> seq<S>, goalTest: S -> bool, initial: S,
                            universe: set<S>, root: Node<S>, explored: set<S>,
                            expanded: set<S>, current: Node<S>, q: seq<Node<S>>,
                            counter: nat, pushed: seq<S>, childs: seq<S>)
    requires Expanding(succ, goalTest, initial, universe, root, explored, expanded, current, q,
                       counter, pushed, childs, |childs|)
    ensures Discovery(succ, goalTest, initial, universe, root, explored, expanded + {current.state}, q,
                      counter, pushed)
    ensures SuccessorsIn(succ, expanded + {current.state}, explored)
  {
    forall t | t in succ(current.state)
      ensures t in explored
    {
      var k :| 0 <= k < |childs| && childs[k] == t;
    }
  }

  /** A set that holds initial and the successors of each of its states holds
      the last state of every walk from initial. */
  lemma {:induction false} ClosedHoldsWalks<S(!new)>(succ: S -> seq<S>, initial: S, expanded: set<S>, p: seq<S>)
    requires initial in expanded && SuccessorsIn(succ, expanded, expanded)
    requires IsPath(succ, initial, p)
    ensures p[|p| - 1] in expanded
    decreases |p|
  {
    if |p| > 1 {
      PathPrefix(succ, initial, p);
      ClosedHoldsWalks(succ, initial, expanded, p[..|p| - 1]);
      assert p[|p| - 1] in succ(p[|p| - 2]);
    }
  }

  /** When the frontier has run dry, every pushed node has been popped, every
      discovered state has been expanded and failed the goal test, and so no
      walk from initial reaches a goal state. */
  lemma Exhausted<S(!new)>(succ: S -> seq<S>, goalTest: S -> bool, initial: S,
                           universe: set<S>, root: Node<S>, explored: set<S>,
                           expanded: set<S>, counter: nat, pushed: seq<S>)
    requires Discovery(succ, goalTest, initial, universe, root, explored, expanded, [], counter, pushed)
    requires SuccessorsIn(succ, expanded, explored)
    ensures NoGoalReachable(succ, goalTest, initial)
    ensures counter == |pushed|
  {
    assert States<S>([]) == {};
    forall p | IsPath(succ, initial, p)
      ensures !goalTest(p[|p| - 1])
    {
      ClosedHoldsWalks(succ, initial, expanded, p);
    }
  }
}
