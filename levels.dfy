/** Why breadth-first search returns a shallowest goal node: the FIFO queue
    holds nodes in order of depth, spanning at most two depths, each queued
    node is as shallow as its state can be, and every walk shorter than the
    front's depth ends in an expanded state. */
module BfsLevels {
  import opened SearchNodes
  import opened SearchInvariants

  /** No walk from initial to a goal state has fewer steps than n has parent links. */
  ghost predicate Shallowest<S(!new)>(succ: S -> seq<S>, goalTest: S -> bool, initial: S, n: Node<S>)
  {
    forall p :: IsPath(succ, initial, p) && goalTest(p[|p| - 1]) ==> Depth(n) <= |p| - 1
  }

  /** No walk from initial reaches the state of n in fewer steps than n's depth. */
  ghost predicate DepthMinimal<S(!new)>(succ: S -> seq<S>, initial: S, n: Node<S>)
  {
    forall p :: IsPath(succ, initial, p) && p[|p| - 1] == n.state ==> Depth(n) <= |p| - 1
  }

  /** Every walk from initial with fewer than d steps ends in a state of expanded. */
  ghost predicate Settled<S(!new)>(succ: S -> seq<S>, initial: S, expanded: set<S>, d: nat)
  {
    forall p :: IsPath(succ, initial, p) && |p| - 1 < d ==> p[|p| - 1] in expanded
  }

  /** The depths along q never decrease and grow by at most one. */
  ghost predicate Layered<S>(q: seq<Node<S>>)
  {
    forall i, j :: 0 <= i <= j < |q| ==> Depth(q[i]) <= Depth(q[j]) <= Depth(q[i]) + 1
  }

  /** The BFS queue between two iterations of the loop. */
  ghost predicate Levelled<S(!new)>(succ: S -> seq<S>, initial: S, expanded: set<S>, q: seq<Node<S>>)
  {
    && Layered(q)
    && (forall n :: n in q ==> DepthMinimal(succ, initial, n))
    && (q != [] ==> Settled(succ, initial, expanded, Depth(q[0])))
  }

  /** The BFS queue while the node of depth d is being expanded. */
  ghost predicate LevelExpanding<S(!new)>(succ: S -> seq<S>, initial: S, expanded: set<S>, d: nat, q: seq<Node<S>>)
  {
    && Settled(succ, initial, expanded, d)
    && (forall n :: n in q ==> d <= Depth(n) <= d + 1 && DepthMinimal(succ, initial, n))
    && (forall i, k :: 0 <= i <= k < |q| ==> Depth(q[i]) <= Depth(q[k]))
  }

  lemma LevelSeed<S(!new)>(succ: S -> seq<S>, initial: S, root: Node<S>)
    requires root.state == initial && root.parent == None
    ensures Levelled(succ, initial, {}, [root])
  {
  }

  /** Popping the front node of depth d: the rest lie in [d, d + 1] and every
      walk shorter than d ends in an expanded state. */
  lemma LevelPop<S(!new)>(succ: S -> seq<S>, initial: S, expanded: set<S>, q: seq<Node<S>>)
    requires Levelled(succ, initial, expanded, q) && q != []
    ensures LevelExpanding(succ, initial, expanded, Depth(q[0]), q[1..])
    ensures Settled(succ, initial, expanded, Depth(q[0]))
  {
    var rest := q[1..];
    forall n | n in rest
      ensures Depth(q[0]) <= Depth(n) <= Depth(q[0]) + 1
    {
      var i :| 0 <= i < |rest| && rest[i] == n;
      assert q[i + 1] == n;
    }
    forall i, k | 0 <= i <= k < |rest|
      ensures Depth(rest[i]) <= Depth(rest[k])
    {
      assert rest[i] == q[i + 1] && rest[k] == q[k + 1];
    }
  }

  /** A node popped while every shorter walk ends in an expanded, non-goal
      state ends a shortest walk to a goal. */
  lemma SettledShallowest<S(!new)>(succ: S -> seq<S>, goalTest: S -> bool, initial: S, expanded: set<S>, n: Node<S>)
    requires Settled(succ, initial, expanded, Depth(n))
    requires forall x :: x in expanded ==> !goalTest(x)
    ensures Shallowest(succ, goalTest, initial, n)
  {
  }

  /** A state that is not yet explored while every walk shorter than d ends in
      an expanded state cannot be reached in d steps or fewer. */
  lemma {:induction false} FreshChildIsDeep<S(!new)>(succ: S -> seq<S>, initial: S, expanded: set<S>,
                                                    explored: set<S>, d: nat, child: S)
    requires Settled(succ, initial, expanded, d) && SuccessorsIn(succ, expanded, explored)
    requires initial in explored && child !in explored
    ensures forall p :: IsPath(succ, initial, p) && p[|p| - 1] == child ==> d + 1 <= |p| - 1
  {
    forall p | IsPath(succ, initial, p) && p[|p| - 1] == child
      ensures d + 1 <= |p| - 1
    {
      assert p[0] != child;
      PathPrefix(succ, initial, p);
      var q := p[..|p| - 1];
      assert p[|p| - 1] in succ(q[|q| - 1]);
      assert q[|q| - 1] !in expanded;
    }
  }

  /** Appending a child of depth d + 1 whose state was not explored. */
  lemma LevelPush<S(!new)>(succ: S -> seq<S>, initial: S, expanded: set<S>, explored: set<S>,
                           d: nat, q: seq<Node<S>>, node: Node<S>)
    requires LevelExpanding(succ, initial, expanded, d, q)
    requires SuccessorsIn(succ, expanded, explored)
    requires initial in explored && node.state !in explored && Depth(node) == d + 1
    ensures LevelExpanding(succ, initial, expanded, d, q + [node])
  {
    FreshChildIsDeep(succ, initial, expanded, explored, d, node.state);
    var q' := q + [node];
    assert forall n :: n in q' ==> n in q || n == node;
    forall i, k | 0 <= i <= k < |q'|
      ensures Depth(q'[i]) <= Depth(q'[k])
    {
      if k < |q| {
        assert q'[i] == q[i] && q'[k] == q[k];
      } else {
        assert q'[i] in q || q'[i] == node;
      }
    }
  }

  /** After current's state is expanded, the walks shorter than the new
      front's depth all end in expanded states. */
  lemma {:induction false} LevelFinish<S(!new)>(succ: S -> seq<S>, initial: S, expanded: set<S>, current: S,
                                               explored: set<S>, d: nat, q: seq<Node<S>>)
    requires LevelExpanding(succ, initial, expanded, d, q)
    requires SuccessorsIn(succ, expanded + {current}, explored)
    requires initial in explored && explored <= expanded + {current} + States(q)
    ensures Levelled(succ, initial, expanded + {current}, q)
  {
    var e := expanded + {current};
    if q != [] {
      forall p | IsPath(succ, initial, p) && |p| - 1 < Depth(q[0])
        ensures p[|p| - 1] in e
      {
        if d <= |p| - 1 {
          if |p| >= 2 {
            PathPrefix(succ, initial, p);
            assert p[|p| - 1] in succ(p[..|p| - 1][|p| - 2]);
          }
          assert p[|p| - 1] in explored;
          assert forall n :: n in q ==> n.state != p[|p| - 1];
        }
      }
    }
  }
}
