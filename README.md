# Generic state-space search, modelled in Dafny

This project models the search engine of `src/generic_search.py`. It covers:

- the search node, its parent links and its `__lt__` order;
- the three frontiers: `Stack` (last in, first out), `Queue` (first in, first out) and `PriorityQueue` (least cost plus heuristic first);
- the traversals `bfs`, `dfs` and `astar` and their counting twins `count_bfs`, `count_dfs` and `count_astar`;
- path extraction, `node_to_path`;
- the maze adapter: `Cell`, `MazeLocation`, and `Maze` with its constructor, `goal_test`, `__str__`, `successors`, `mark` and `clear`;
- the `manhattan_distance` heuristic.

Files and modules:

- `nodes.dfy` (`SearchNodes`):
  - `Node` is an immutable value whose parent is an `Option<Node>`.
  - Depth, the trace of states from the root, and the root are functions of a node.
  - `Chain` says that every parent link is a successor step back to a root holding the initial state.
  - `NodeToPath` is the loop of `node_to_path`.
- `frontiers.dfy` (`Frontiers`): the three frontiers are classes whose list `container` the methods reassign.
  - `PriorityQueue.Pop` is specified by its minimum-key contract only.
- `search.dfy` (`Search`):
  - `CountBfs`, `CountDfs` and `CountAstar` hold the `while` loops of the source.
  - `Bfs`, `Dfs` and `Astar` run the same loop and drop the counter.
  - The expansion of each popped node is its own method (`ExpandFifo`, `ExpandLifo`, `ExpandPriority`), and so is the `for child in childs` loop inside it (`PushChildrenFifo`, `PushChildrenLifo`, `PushChildrenPriority`).
  - One pass of the A* `for child` loop is the method `VisitPriority`, which keeps that loop's proof small.
  - Each expansion states its new frontier exactly: the old one followed by (for `PriorityQueue`, plus) `Children(current, Unexplored(successors, explored))`, and its new explored set, the old one plus every successor.
  - The successor function, the goal test and the heuristic are function parameters.
  - A proof-only parameter `universe` is a finite set of states, closed under successors, that holds the initial state. It stands for the finite maze, and it is what makes the loops end.
- `invariants.dfy` (`SearchInvariants`):
  - `Discovery` is the invariant of the search loop, and `Expanding` is the invariant of the loop over successors.
  - There is one lemma per step of the loop.
  - `Unexplored` lists the successors the `for child` loop pushes, and `Children` lists the nodes it builds for them.
- `levels.dfy` (`BfsLevels`): the extra invariant of the FIFO queue that makes breadth-first search return a shallowest goal.
- `maze.dfy` (`Mazes`): the grid adapter and the heuristic.
  - `Steps` and `Locations` turn a grid into the successor function and the finite, closed state space that the searches take.

What the searches are proved to do, on every input:

- The returned node passes the goal test.
- Its parent chain is a chain of successor steps from a root node holding the initial state.
- Each state is pushed at most once, so the counter satisfies `1 <= counter <= |universe|`.
- `None` comes back only when the frontier ran dry. Then no walk from the initial state reaches a goal state, and every pushed node was popped.
- When the initial state passes the goal test, the root itself is returned after a single pop, and its path is empty.
- `Bfs` returns a node whose depth is the least number of steps of any walk to a goal.
- In `Astar` the returned node and every node on its parent chain have cost equal to their depth and the heuristic of their own state, so the root has cost 0.

Three behaviours of the code a reader might not expect. The model keeps them:

- `node_to_path` does not reverse its list. The path runs from the terminal node toward the root, and it excludes the root.
- `successors`, `mark` and `clear` index the grid as `_grid[ml.column][ml.row]`, the transpose of the location. Start and Goal are written at `_grid[row][column]`. The model keeps both orientations. For the default maze, start (9, 9) and goal (0, 0) lie on the diagonal, so both orientations name the same cells for them.
- `manhattan_distance` is the signed sum `(c1 - c2) + (r1 - r2)`, with no absolute value. It can be negative. It still never overestimates the number of steps to the goal (`ManhattanAdmissible`).

## Model

| member | source | states |
|---|---|---|
| SearchNodes.Less | src/generic_search.py:15-16 | `__lt__`: a node is never `__lt__` itself; its order properties are `LessIsStrictWeakOrder` |
| SearchNodes.LessIsStrictWeakOrder | src/generic_search.py:15-16 | `__lt__` on cost plus heuristic is irreflexive and transitive, and two incomparable nodes have equal scores |
| SearchNodes.Trace | src/generic_search.py:8-13 | the trace of a node has one state per parent link plus one; it starts at the root's state and ends at the node's state |
| SearchNodes.Root | src/generic_search.py:8-13 | following parent links ends at a node without a parent |
| SearchNodes.ChainTrace | src/generic_search.py:145-158 | a node whose parent links are successor steps from an initial root has a trace that is a walk of the successor function from the initial state, and its root is `Node(initial, None, ...)` |
| SearchNodes.NodeToPath | src/generic_search.py:274-280 | the path has one entry per parent link, is empty exactly when the node has no parent, and lists the node's trace from the terminal state back toward the root, without the root's state and without reversing |
| Frontiers.Stack.constructor | src/generic_search.py:20-21 | a new stack is empty |
| Frontiers.Stack.Empty | src/generic_search.py:23-25 | `empty` holds exactly when the container has length 0 |
| Frontiers.Stack.Push | src/generic_search.py:27-28 | the item is appended at the end of the container |
| Frontiers.Stack.Pop | src/generic_search.py:30-31 | returns the last-pushed item; the rest keep their order |
| Frontiers.Queue.constructor | src/generic_search.py:34-35 | a new queue is empty |
| Frontiers.Queue.Empty | src/generic_search.py:37-39 | `empty` holds exactly when the container has length 0 |
| Frontiers.Queue.Push | src/generic_search.py:41-42 | the item is appended at the end of the container |
| Frontiers.Queue.Pop | src/generic_search.py:44-45 | returns the earliest-pushed item; the rest keep their order |
| Frontiers.PriorityQueue.constructor | src/generic_search.py:52-53 | a new priority queue is empty |
| Frontiers.PriorityQueue.Empty | src/generic_search.py:55-57 | `empty` holds exactly when the container has length 0 |
| Frontiers.PriorityQueue.Push | src/generic_search.py:59-60 | the contents grow by exactly one occurrence of the item |
| Frontiers.PriorityQueue.Pop | src/generic_search.py:62-63 | returns an item of the contents that no other item is `__lt__`, and removes exactly one occurrence of it |
| Frontiers.MinIndex | src/generic_search.py:62-63 | finds a position holding a node that no node of the list is `__lt__`, the first such position |
| SearchInvariants.Unexplored | src/generic_search.py:155-158 | the successors the loop pushes: exactly those in the successor list and not explored at the start, each once |
| SearchInvariants.UnexploredInOrder | src/generic_search.py:155-158 | the pushed successors keep the order they have in the successor list, each taken at its first occurrence there |
| SearchInvariants.Children | src/generic_search.py:158 | the nodes pushed for a list of states, one per state, in order, each with the popped node as parent |
| SearchInvariants.PushedChildren | src/generic_search.py:155-158 | a node is among those pushed exactly when its parent is the popped node, its cost and heuristic are the ones given, and its state is a successor that was not explored |
| SearchInvariants.GrownStep | src/generic_search.py:155-157 | handling one successor adds it to explored, and it is pushed exactly when it was not explored before |
| SearchInvariants.GrownDone | src/generic_search.py:155-158 | after the loop, explored is the old set plus every successor, and the frontier gained exactly the nodes of the unexplored successors |
| SearchInvariants.PushInOrder | src/generic_search.py:156-158 | appending the child of a fresh successor to a queue or stack advances both loops' invariants |
| SearchInvariants.PushInBag | src/generic_search.py:267-270 | adding the child of a fresh successor to the priority queue advances both loops' invariants |
| SearchInvariants.SkipInOrder | src/generic_search.py:155-156 | skipping an explored successor advances the loop without pushing anything |
| SearchInvariants.Seed | src/generic_search.py:142-145 | after seeding, explored is {initial} and the frontier holds only the root: the loop invariant holds |
| SearchInvariants.DiscoveryBounds | src/generic_search.py:141-158 | under the loop invariant, pops plus frontier size are bounded by the state space, and the pushed states are distinct and inside it |
| SearchInvariants.PopGoal | src/generic_search.py:148-151 | a popped node that passes the goal test has a valid parent chain; it is the root exactly when the initial state passes the goal test |
| SearchInvariants.PopStep | src/generic_search.py:148-153 | popping a non-goal node starts its expansion with the invariant intact and the count of pops one higher |
| SearchInvariants.AppendFresh | src/generic_search.py:156-157 | adding an unexplored state keeps the pushed states distinct and equal to the explored set |
| SearchInvariants.PushStep | src/generic_search.py:155-158 | pushing an unexplored successor as a child of the popped node and exploring it keeps the invariant |
| SearchInvariants.SkipStep | src/generic_search.py:155-156 | skipping an explored successor keeps the invariant |
| SearchInvariants.FinishStep | src/generic_search.py:155-158 | after all successors are handled, the popped state counts as expanded and all its successors are explored |
| SearchInvariants.ClosedHoldsWalks | src/generic_search.py:147-158 | when the successors of every explored state are explored, every walk from the initial state stays in explored states |
| SearchInvariants.Exhausted | src/generic_search.py:147-158 | once the frontier is empty, no walk from the initial state reaches a goal state, and every pushed state was popped |
| BfsLevels.LevelSeed | src/generic_search.py:145 | the queue holding only the root is layered by depth |
| BfsLevels.LevelPop | src/generic_search.py:44-45 | popping the front of a layered queue leaves nodes of the popped depth or one more, and every shorter walk ends in an expanded state |
| BfsLevels.SettledShallowest | src/generic_search.py:150-151 | a node popped when every shorter walk ends in an expanded, non-goal state is a shallowest goal |
| BfsLevels.FreshChildIsDeep | src/generic_search.py:156-158 | a successor that is not explored yet cannot be reached in fewer steps than one more than the popped depth |
| BfsLevels.LevelPush | src/generic_search.py:156-158 | appending such a child keeps the queue sorted by depth, within one level, with every node at its least depth |
| BfsLevels.LevelFinish | src/generic_search.py:155-158 | after expanding a node, every walk shorter than the new front's depth ends in an expanded state |
| Search.CountBfs | src/generic_search.py:160-182 | returns a goal node with a valid chain and minimal depth, or `None` only when no walk reaches a goal; the counter (one per pop) is between 1 and the number of states and equals the number of pushed states on `None`; each state is pushed at most once |
| Search.ExpandFifo | src/generic_search.py:172-180 | expanding a popped non-goal node appends to the queue exactly the nodes `Node(child, current)` for its successors that were not explored, in successor order, after the queue as it was; explored becomes the old set plus all successors; the loop invariant holds with the node's state expanded, and the queue stays layered by depth |
| Search.PushChildrenFifo | src/generic_search.py:177-180 | the new queue is the old one followed by `Children(current, Unexplored(successors, explored0))`; explored is the old set plus every successor; the pushed states grow by the same unexplored successors; the queue stays layered |
| Search.Bfs | src/generic_search.py:141-158 | the result of `count_bfs` without the counter: a shallowest goal node with a valid chain, or `None` only when no goal is reachable |
| Search.CountDfs | src/generic_search.py:205-227 | returns a goal node with a valid chain, or `None` only when no walk reaches a goal; the counter (one per pop) is between 1 and the number of states and equals the number of pushed states on `None`; each state is pushed at most once |
| Search.ExpandLifo | src/generic_search.py:217-225 | expanding a popped non-goal node appends to the stack exactly the nodes for its unexplored successors, in successor order, after the stack as it was; explored becomes the old set plus all successors; the loop invariant holds with the node's state expanded |
| Search.PushChildrenLifo | src/generic_search.py:222-225 | the new stack is the old one followed by `Children(current, Unexplored(successors, explored0))`, so the last unexplored successor is on top; explored is the old set plus every successor |
| Search.Dfs | src/generic_search.py:184-203 | a goal node with a valid chain, or `None` only when no goal is reachable |
| Search.CostChainRoot | src/generic_search.py:233-246 | when every node up a parent chain has cost equal to its depth and the heuristic of its own state (as A* builds them), the root has cost 0 and the heuristic of its state |
| Search.CostedChildren | src/generic_search.py:267-270 | children pushed with their parent's cost plus one and their own heuristic keep, for every queued node and all its ancestors, cost equal to depth and the heuristic of the node's state |
| Search.VisitPriority | src/generic_search.py:267-270 | one pass of the A* loop: an unexplored successor is added once, as a child of the popped node with cost one more and its own heuristic, and explored; an explored one leaves the queue unchanged; explored gains the successor either way |
| Search.CountAstar | src/generic_search.py:250-272 | returns a goal node with a valid chain along which every node has cost = depth and the heuristic of its state, or `None` only when no walk reaches a goal; the counter (one per pop) is between 1 and the number of states; each state is pushed at most once |
| Search.ExpandPriority | src/generic_search.py:262-270 | expanding a popped non-goal node adds to the priority queue's contents exactly one node per unexplored successor, with cost one more than the popped node's and its own heuristic; explored becomes the old set plus all successors; the loop invariant and cost = depth hold |
| Search.PushChildrenPriority | src/generic_search.py:267-270 | the new contents are the old ones plus `Children(current, Unexplored(successors, explored0), cost + 1, heuristic)`; explored is the old set plus every successor; every queued node's cost is its depth |
| Search.Astar | src/generic_search.py:229-248 | a goal node with a valid chain along which every node's cost equals its depth and its heuristic is that of its state, or `None` only when no goal is reachable |
| Mazes.Glyph | src/generic_search.py:68-73 | the value of each `Cell` member; no glyph is a newline |
| Mazes.GlyphInjective | src/generic_search.py:68-73 | distinct cells have distinct values |
| Mazes.Steps | src/generic_search.py:109-120 | the successor function the searches are given: every location it returns is adjacent and in bounds; `LocationsClosed` and `StepsWalkAdjacent` build on it |
| Mazes.Successors | src/generic_search.py:109-120 | at most four locations, each in bounds, orthogonally adjacent and with a non-blocked transposed cell, and all such neighbours present, in the order row+1, row-1, column+1, column-1 |
| Mazes.Locations | src/generic_search.py:80-89 | the locations of a grid are exactly the in-bounds ones |
| Mazes.LocationsClosed | src/generic_search.py:109-120 | successors never leave the grid, so the grid is a finite state space the searches terminate on |
| Mazes.SetCell | src/generic_search.py:124 | one cell assignment changes that cell and no other |
| Mazes.Painted | src/generic_search.py:123-124 | after the loop over the path, each transposed cell of a listed location holds the new cell and every other cell is unchanged |
| Mazes.Repainted | src/generic_search.py:122-134 | after `mark` or `clear` the goal cell is Goal, then the start cell is Start, then each transposed listed cell is the new cell, and the rest are unchanged |
| Mazes.RepaintedAnchored | src/generic_search.py:126-127 | `mark` and `clear` always leave Goal at goal, and Start at start unless start equals goal (then the cell ends as Goal, written last) |
| Mazes.RepaintedIdempotent | src/generic_search.py:122-134 | marking (or clearing) the same path twice is the same as once |
| Mazes.ClearUndoesMark | src/generic_search.py:122-134 | `clear` after `mark` of a path over empty cells restores the grid |
| Mazes.RowText | src/generic_search.py:106 | the joined row has one glyph per cell, in order |
| Mazes.Render | src/generic_search.py:103-107 | the string `__str__` builds: empty exactly for an empty grid, otherwise ending in a newline; `RenderLength` and `RenderAt` give its layout |
| Mazes.RenderLength | src/generic_search.py:103-107 | the rendering has rows × (columns + 1) characters |
| Mazes.RenderAt | src/generic_search.py:103-107 | line r of the rendering holds the glyphs of row r followed by a newline |
| Mazes.ManhattanDistance | src/generic_search.py:136-139 | the heuristic `manhattan_distance(goal)` returns is 0 at the goal; `ManhattanStep` and `ManhattanAdmissible` are its properties |
| Mazes.ManhattanStep | src/generic_search.py:136-139 | the heuristic is zero at the goal and changes by exactly one across each step |
| Mazes.ManhattanBound | src/generic_search.py:136-139 | along any walk of adjacent locations ending at the goal, the heuristic at the start is at most the number of steps, in absolute value |
| Mazes.StepsWalkAdjacent | src/generic_search.py:109-120 | every walk of the maze's successors moves between adjacent locations |
| Mazes.ManhattanAdmissible | src/generic_search.py:136-139 | on every walk of the maze from the initial location to the goal, the heuristic never exceeds the number of steps |
| Mazes.ManhattanSign | src/generic_search.py:138 | with goal (0, 0) and non-negative coordinates the heuristic is the grid distance; with goal (9, 9) it is -18 at (0, 0) |
| Mazes.Maze.constructor | src/generic_search.py:80-92 | a rows × columns grid where the given blocked cells are Blocked and the rest Empty, then Start at start and Goal at goal |
| Mazes.Maze.GoalTest | src/generic_search.py:100-101 | holds exactly at the goal location |
| Mazes.Maze.ToString | src/generic_search.py:103-107 | returns the rendering of the grid, one line per row |
| Mazes.Maze.Mark | src/generic_search.py:122-127 | the new grid is the old one with the path's transposed cells set to Path and Start and Goal written back |
| Mazes.Maze.Clear | src/generic_search.py:129-134 | the new grid is the old one with the path's transposed cells set to Empty and Start and Goal written back |

## Left out

- `Maze.__init__` default arguments (src/generic_search.py:80-81: 10 × 10, sparseness 0.2, start (9, 9), goal (0, 0)) are not modelled. The constructor takes every argument explicitly; only the driver relies on the defaults.
- `Maze._randomly_fill` (src/generic_search.py:94-98) draws random floats. The constructor takes the set of cells that come out blocked, and the `sparseness` field is not modelled.
- The heap layout and tie-breaking of `heapq` are not modelled. `PriorityQueue.Pop` may return any node of least cost plus heuristic, and the model scans the list for a minimum.
- The `__main__` driver, the `__repr__` methods and all of `src/main.py` print, log or run a separate experiment. `src/main.py` is not part of this model.
- Popping an empty frontier is a precondition, as every caller checks `empty` first.
- Infinite state spaces are not modelled. The searches require a finite set of states, closed under successors and holding the initial state. `Mazes.LocationsClosed` supplies one for every maze.
- Mazes.Successors: requires a square, well-formed grid and an in-bounds location. With `rows != columns` the transposed read can fall outside the grid (an `IndexError`) or onto another row, and Python's negative indices wrap around; neither is modelled.
- Mazes.Maze.Mark, Mazes.Maze.Clear: require every location of the path to name an existing transposed cell. Out-of-range and negative-index writes are not modelled.
- Mazes.Maze.constructor: requires start and goal inside the grid. The source raises `IndexError` or wraps negative indices otherwise.
- Search.CountAstar, Search.Astar: no optimality is claimed. The explored set is filled when a state is pushed, not when it is popped. So a state can keep the cost of the first, longer route that reached it, even with an admissible, consistent heuristic.
- Search.CountBfs, Search.CountDfs, Search.CountAstar: the counter is the number of loop iterations, as in the source. The model keeps it as an unbounded natural number, and Python integers do not overflow.
- Search nodes are values, not heap objects. `Node` is immutable once built, so sharing a parent between siblings cannot be observed.
