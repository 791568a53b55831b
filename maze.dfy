/** The grid adapter: cells, locations, the `Maze` whose `successors`,
    `goal_test` and heuristic drive the searches, and the in-place `mark` and
    `clear` of a path. The grid is a list of rows; `_grid[r][c]` is the cell
    of row r, column c. `successors`, `mark` and `clear` read or write the
    cell `_grid[ml.column][ml.row]`, the transpose of the location; the model
    keeps that indexing. */
module Mazes {
  import opened SearchNodes
  import opened SearchInvariants

  datatype Cell = Empty | Blocked | Path | Start | Goal

  /** The value of each member of the `Cell` enumeration: the glyph it prints as. */
  function Glyph(c: Cell): (ch: char)
    ensures ch != '\n'
  {
    match c
    case Empty => ' '
    case Blocked => 'X'
    case Path => '*'
    case Start => 'S'
    case Goal => 'G'
  }

  /** Distinct cells print as distinct glyphs. */
  lemma GlyphInjective(a: Cell, b: Cell)
    ensures Glyph(a) == Glyph(b) ==> a == b
  {
  }

  datatype MazeLocation = MazeLocation(row: int, column: int)

  type Grid = seq<seq<Cell>>

  /** rows rows of columns cells each. */
  predicate WellFormed(g: Grid, rows: nat, columns: nat)
  {
    |g| == rows && forall r :: 0 <= r < |g| ==> |g[r]| == columns
  }

  predicate InBounds(ml: MazeLocation, rows: nat, columns: nat)
  {
    0 <= ml.row < rows && 0 <= ml.column < columns
  }

  /** `_grid[ml.row][ml.column]` exists. */
  predicate InGrid(g: Grid, ml: MazeLocation)
  {
    0 <= ml.row < |g| && 0 <= ml.column < |g[ml.row]|
  }

  /** The location whose row is ml's column and whose column is ml's row. */
  function Transposed(ml: MazeLocation): MazeLocation
  {
    MazeLocation(ml.column, ml.row)
  }

  /** a and b differ by one in exactly one coordinate. */
  predicate Adjacent(a: MazeLocation, b: MazeLocation)
  {
    || (a.column == b.column && (a.row - b.row == 1 || b.row - a.row == 1))
    || (a.row == b.row && (a.column - b.column == 1 || b.column - a.column == 1))
  }

  /** The rank of the step from one location to an adjacent one in the order
      `successors` tries them: row + 1, row - 1, column + 1, column - 1. */
  function Direction(from: MazeLocation, to: MazeLocation): int
  {
    if to == MazeLocation(from.row + 1, from.column) then 0
    else if to == MazeLocation(from.row - 1, from.column) then 1
    else if to == MazeLocation(from.row, from.column + 1) then 2
    else 3
  }

  function Optional(b: bool, ml: MazeLocation): seq<MazeLocation>
  {
    if b then [ml] else []
  }

  /** The four neighbours of ml, in the order of `Direction`. */
  lemma AdjacentCases(ml: MazeLocation, x: MazeLocation)
    ensures Adjacent(ml, x) <==>
      || x == MazeLocation(ml.row + 1, ml.column) || x == MazeLocation(ml.row - 1, ml.column)
      || x == MazeLocation(ml.row, ml.column + 1) || x == MazeLocation(ml.row, ml.column - 1)
  {
  }

  /** x may be stepped to in g: it is in bounds and its transposed cell is not blocked. */
  predicate Open(g: Grid, rows: nat, columns: nat, x: MazeLocation)
    requires WellFormed(g, rows, columns) && rows == columns
  {
    InBounds(x, rows, columns) && g[x.column][x.row] != Blocked
  }

  /** `successors` of a square grid: the in-bounds orthogonal neighbours of ml
      whose transposed cell is not blocked, in the fixed order of `Direction`. */
  function Successors(g: Grid, rows: nat, columns: nat, ml: MazeLocation): (r: seq<MazeLocation>)
    requires WellFormed(g, rows, columns) && rows == columns && InBounds(ml, rows, columns)
    ensures |r| <= 4
    ensures forall x :: x in r <==> Adjacent(ml, x) && Open(g, rows, columns, x)
    ensures forall i, j :: 0 <= i < j < |r| ==> Direction(ml, r[i]) < Direction(ml, r[j])
  {
    var down := MazeLocation(ml.row + 1, ml.column);
    var up := MazeLocation(ml.row - 1, ml.column);
    var right := MazeLocation(ml.row, ml.column + 1);
    var left := MazeLocation(ml.row, ml.column - 1);
    var a := Optional(ml.row + 1 < rows && g[ml.column][ml.row + 1] != Blocked, down);
    var b := Optional(ml.row - 1 >= 0 && g[ml.column][ml.row - 1] != Blocked, up);
    var c := Optional(ml.column + 1 < columns && g[ml.column + 1][ml.row] != Blocked, right);
    var d := Optional(ml.column - 1 >= 0 && g[ml.column - 1][ml.row] != Blocked, left);
    assert a == Optional(Open(g, rows, columns, down), down);
    assert b == Optional(Open(g, rows, columns, up), up);
    assert c == Optional(Open(g, rows, columns, right), right);
    assert d == Optional(Open(g, rows, columns, left), left);
    SuccessorsOrder(ml, a, b, c, d);
    forall x
      ensures x in a + b + c + d <==> Adjacent(ml, x) && Open(g, rows, columns, x)
    {
      AdjacentCases(ml, x);
    }
    a + b + c + d
  }

  /** Concatenating the four optional neighbours keeps the order of `Direction`. */
  lemma SuccessorsOrder(ml: MazeLocation, a: seq<MazeLocation>, b: seq<MazeLocation>,
                        c: seq<MazeLocation>, d: seq<MazeLocation>)
    requires a == [] || a == [MazeLocation(ml.row + 1, ml.column)]
    requires b == [] || b == [MazeLocation(ml.row - 1, ml.column)]
    requires c == [] || c == [MazeLocation(ml.row, ml.column + 1)]
    requires d == [] || d == [MazeLocation(ml.row, ml.column - 1)]
    ensures |a + b + c + d| <= 4
    ensures forall i, j :: 0 <= i < j < |a + b + c + d| ==>
      Direction(ml, (a + b + c + d)[i]) < Direction(ml, (a + b + c + d)[j])
  {
    var r := a + b + c + d;
    forall i | 0 <= i < |r|
      ensures Direction(ml, r[i]) == (if i < |a| then 0 else if i < |a + b| then 1 else if i < |a + b + c| then 2 else 3)
    {
    }
    forall i, j | 0 <= i < j < |r|
      ensures Direction(ml, r[i]) < Direction(ml, r[j])
    {
      assert i < |a| ==> |a| == 1;
    }
  }

  /** The total successor function a search over the maze is given: empty
      outside the grid, or when the grid is not square and well formed. */
  function Steps(g: Grid, rows: nat, columns: nat): (next: MazeLocation -> seq<MazeLocation>)
    ensures forall ml, x :: x in next(ml) ==> Adjacent(ml, x) && InBounds(x, rows, columns)
  {
    ml => if WellFormed(g, rows, columns) && rows == columns && InBounds(ml, rows, columns)
          then Successors(g, rows, columns, ml) else []
  }

  /** Every location of a rows × columns grid. */
  function Locations(rows: nat, columns: nat): (s: set<MazeLocation>)
    ensures forall ml :: ml in s <==> InBounds(ml, rows, columns)
  {
    set r: int, c: int | 0 <= r < rows && 0 <= c < columns :: MazeLocation(r, c)
  }

  /** The locations of a grid are a finite state space closed under the
      maze's successors: a search started inside the grid ends. */
  lemma LocationsClosed(g: Grid, rows: nat, columns: nat)
    ensures Closed(Steps(g, rows, columns), Locations(rows, columns))
  {
    forall s, t | s in Locations(rows, columns) && t in Steps(g, rows, columns)(s)
      ensures t in Locations(rows, columns)
    {
    }
  }

  /** g with the cell of row r, column c replaced by v. */
  function SetCell(g: Grid, r: int, c: int, v: Cell): (h: Grid)
    requires 0 <= r < |g| && 0 <= c < |g[r]|
    ensures |h| == |g| && forall i :: 0 <= i < |g| ==> |h[i]| == |g[i]|
    ensures forall i, j :: 0 <= i < |g| && 0 <= j < |g[i]| ==>
      h[i][j] == if i == r && j == c then v else g[i][j]
  {
    g[r := g[r][c := v]]
  }

  /** Every location of path names an existing transposed cell. */
  predicate Writable(g: Grid, path: seq<MazeLocation>)
  {
    forall ml :: ml in path ==> InGrid(g, Transposed(ml))
  }

  /** g after the loop of `mark` or `clear` has written v to the transposed
      cell of every location of path, in order. */
  function Painted(g: Grid, path: seq<MazeLocation>, v: Cell): (h: Grid)
    requires Writable(g, path)
    ensures |h| == |g| && forall i :: 0 <= i < |g| ==> |h[i]| == |g[i]|
    ensures forall i, j :: 0 <= i < |g| && 0 <= j < |g[i]| ==>
      h[i][j] == if MazeLocation(j, i) in path then v else g[i][j]
    decreases |path|
  {
    if path == [] then g
    else
      var prefix := path[..|path| - 1];
      var ml := path[|path| - 1];
      assert path == prefix + [ml];
      assert InGrid(g, Transposed(ml));
      SetCell(Painted(g, prefix, v), ml.column, ml.row, v)
  }

  /** g after `mark` (v = Path) or `clear` (v = Empty): the cells of path
      are painted, then Start and Goal are written back at their own,
      untransposed, cells, the goal last. */
  function Repainted(g: Grid, path: seq<MazeLocation>, v: Cell, start: MazeLocation, goal: MazeLocation): (h: Grid)
    requires Writable(g, path) && InGrid(g, start) && InGrid(g, goal)
    ensures |h| == |g| && forall i :: 0 <= i < |g| ==> |h[i]| == |g[i]|
    ensures forall i, j :: 0 <= i < |g| && 0 <= j < |g[i]| ==>
      h[i][j] == if MazeLocation(i, j) == goal then Goal
                 else if MazeLocation(i, j) == start then Start
                 else if Transposed(MazeLocation(i, j)) in path then v
                 else g[i][j]
  {
    var p := Painted(g, path, v);
    SetCell(SetCell(p, start.row, start.column, Start), goal.row, goal.column, Goal)
  }

  /** The goal cell holds Goal and, unless it is the goal, the start cell holds Start. */
  predicate Anchored(g: Grid, start: MazeLocation, goal: MazeLocation)
    requires InGrid(g, start) && InGrid(g, goal)
  {
    g[goal.row][goal.column] == Goal && (start != goal ==> g[start.row][start.column] == Start)
  }

  /** `mark` and `clear` always leave Start and Goal in place. */
  lemma RepaintedAnchored(g: Grid, path: seq<MazeLocation>, v: Cell, start: MazeLocation, goal: MazeLocation)
    requires Writable(g, path) && InGrid(g, start) && InGrid(g, goal)
    ensures Anchored(Repainted(g, path, v, start, goal), start, goal)
  {
    var h := Repainted(g, path, v, start, goal);
    assert h[goal.row][goal.column] == Goal;
    if start != goal {
      assert h[start.row][start.column] == Start;
    }
  }

  /** Painting the same path twice with the same cell changes nothing more. */
  lemma RepaintedIdempotent(g: Grid, path: seq<MazeLocation>, v: Cell, start: MazeLocation, goal: MazeLocation)
    requires Writable(g, path) && InGrid(g, start) && InGrid(g, goal)
    ensures Writable(Repainted(g, path, v, start, goal), path)
    ensures Repainted(Repainted(g, path, v, start, goal), path, v, start, goal) == Repainted(g, path, v, start, goal)
  {
    var h := Repainted(g, path, v, start, goal);
    var k := Repainted(h, path, v, start, goal);
    assert |k| == |h|;
    forall i | 0 <= i < |k|
      ensures k[i] == h[i]
    {
      assert |k[i]| == |h[i]|;
      forall j | 0 <= j < |k[i]|
        ensures k[i][j] == h[i][j]
      {
      }
    }
  }

  /** `clear` undoes `mark` on a grid whose start and goal are in place and whose
      path cells, other than start and goal, were empty. */
  lemma ClearUndoesMark(g: Grid, path: seq<MazeLocation>, start: MazeLocation, goal: MazeLocation)
    requires Writable(g, path) && InGrid(g, start) && InGrid(g, goal)
    requires Anchored(g, start, goal)
    requires forall ml :: ml in path && Transposed(ml) != start && Transposed(ml) != goal ==>
      g[ml.column][ml.row] == Empty
    ensures Writable(Repainted(g, path, Path, start, goal), path)
    ensures Repainted(Repainted(g, path, Path, start, goal), path, Empty, start, goal) == g
  {
    var h := Repainted(g, path, Path, start, goal);
    var k := Repainted(h, path, Empty, start, goal);
    assert |k| == |g|;
    forall i | 0 <= i < |k|
      ensures k[i] == g[i]
    {
      assert |k[i]| == |g[i]|;
      forall j | 0 <= j < |k[i]|
        ensures k[i][j] == g[i][j]
      {
        var ml := MazeLocation(i, j);
        if ml != goal && ml != start && Transposed(ml) in path {
          assert Transposed(Transposed(ml)) == ml;
        }
      }
    }
  }

  /** The glyphs of one row: `"".join(c.value for c in row)`. */
  function RowText(row: seq<Cell>): (t: string)
    ensures |t| == |row|
    ensures forall c :: 0 <= c < |row| ==> t[c] == Glyph(row[c])
  {
    if row == [] then []
    else RowText(row[..|row| - 1]) + [Glyph(row[|row| - 1])]
  }

  /** What `__str__` returns for a grid: each row's glyphs followed by a newline. */
  function Render(g: Grid): (text: string)
    ensures g == [] <==> text == []
    ensures g != [] ==> text[|text| - 1] == '\n'
  {
    if g == [] then []
    else Render(g[..|g| - 1]) + RowText(g[|g| - 1]) + ['\n']
  }

  lemma {:induction false} RenderLength(g: Grid, columns: nat)
    requires forall i :: 0 <= i < |g| ==> |g[i]| == columns
    ensures |Render(g)| == |g| * (columns + 1)
  {
    if g != [] {
      var n, w := |g|, columns + 1;
      var p := g[..n - 1];
      RenderLength(p, columns);
      assert |Render(g)| == |Render(p)| + w;
      assert (n - 1) * w + w == n * w;
    }
  }

  /** Line r of the rendering holds the glyphs of row r and then a newline. */
  lemma {:induction false} RenderAt(g: Grid, columns: nat, r: int, c: int)
    requires forall i :: 0 <= i < |g| ==> |g[i]| == columns
    requires 0 <= r < |g| && 0 <= c <= columns
    ensures |Render(g)| == |g| * (columns + 1) && r * (columns + 1) + c < |Render(g)|
    ensures Render(g)[r * (columns + 1) + c] == if c == columns then '\n' else Glyph(g[r][c])
  {
    RenderLength(g, columns);
    OffsetBefore(r, c, columns + 1, |g|);
    var n := |g|;
    var p := g[..n - 1];
    RenderLength(p, columns);
    var line := RowText(g[n - 1]) + ['\n'];
    assert Render(g) == Render(p) + line;
    if r < n - 1 {
      RenderAt(p, columns, r, c);
      OffsetBefore(r, c, columns + 1, n - 1);
      assert p[r] == g[r];
    } else {
      assert Render(g)[r * (columns + 1) + c] == line[c];
    }
  }

  /** Position c of line r lies before line m when r < m. */
  lemma OffsetBefore(r: nat, c: nat, w: nat, m: nat)
    requires r < m && c < w
    ensures r * w + c < m * w
  {
    assert (r + 1) * w == r * w + w;
    assert (r + 1) * w <= m * w;
  }

  /** `manhattan_distance(goal)`: the heuristic the maze gives `astar`. The sum
      of the coordinate differences is signed; there is no absolute value. */
  function ManhattanDistance(goal: MazeLocation): (h: MazeLocation -> int)
    ensures h(goal) == 0
  {
    (ml: MazeLocation) => (ml.column - goal.column) + (ml.row - goal.row)
  }

  /** The heuristic is zero at the goal and changes by exactly one per step. */
  lemma ManhattanStep(goal: MazeLocation, a: MazeLocation, b: MazeLocation)
    requires Adjacent(a, b)
    ensures ManhattanDistance(goal)(goal) == 0
    ensures ManhattanDistance(goal)(a) - ManhattanDistance(goal)(b) == 1
         || ManhattanDistance(goal)(b) - ManhattanDistance(goal)(a) == 1
  {
  }

  /** Consecutive locations of w are adjacent. */
  predicate AdjacentWalk(w: seq<MazeLocation>)
  {
    forall i :: 0 <= i < |w| - 1 ==> Adjacent(w[i], w[i + 1])
  }

  /** Along a walk of adjacent locations that ends at the goal, the heuristic of
      the first location is at most the number of steps, in absolute value. */
  lemma {:induction false} ManhattanBound(goal: MazeLocation, w: seq<MazeLocation>)
    requires |w| >= 1 && AdjacentWalk(w) && w[|w| - 1] == goal
    ensures -(|w| - 1) <= ManhattanDistance(goal)(w[0]) <= |w| - 1
  {
    if |w| > 1 {
      var rest := w[1..];
      assert AdjacentWalk(rest) by {
        forall i | 0 <= i < |rest| - 1
          ensures Adjacent(rest[i], rest[i + 1])
        {
          assert rest[i] == w[i + 1] && rest[i + 1] == w[i + 2];
        }
      }
      ManhattanBound(goal, rest);
      ManhattanStep(goal, w[0], w[1]);
    }
  }

  /** Every walk the maze's successors allow is a walk of adjacent locations. */
  lemma StepsWalkAdjacent(g: Grid, rows: nat, columns: nat, initial: MazeLocation, p: seq<MazeLocation>)
    requires IsPath(Steps(g, rows, columns), initial, p)
    ensures AdjacentWalk(p)
  {
    forall i | 0 <= i < |p| - 1
      ensures Adjacent(p[i], p[i + 1])
    {
      assert p[i + 1] in Steps(g, rows, columns)(p[i]);
    }
  }

  /** The heuristic never overestimates: on every walk of the maze from
      initial to the goal, it is at most the number of steps. */
  lemma ManhattanAdmissible(g: Grid, rows: nat, columns: nat, initial: MazeLocation,
                            goal: MazeLocation, p: seq<MazeLocation>)
    requires IsPath(Steps(g, rows, columns), initial, p) && p[|p| - 1] == goal
    ensures ManhattanDistance(goal)(initial) <= |p| - 1
  {
    StepsWalkAdjacent(g, rows, columns, initial, p);
    ManhattanBound(goal, p);
  }

  /** The sign of the heuristic: with the goal (0, 0) and non-negative
      coordinates it is the grid distance, otherwise it can be negative, as
      from (0, 0) towards the goal (9, 9). */
  lemma ManhattanSign(ml: MazeLocation)
    ensures ml.row >= 0 && ml.column >= 0 ==> ManhattanDistance(MazeLocation(0, 0))(ml) == ml.row + ml.column
    ensures ManhattanDistance(MazeLocation(9, 9))(MazeLocation(0, 0)) == -18
  {
  }

  class Maze {
    const rows: nat
    const columns: nat
    const start: MazeLocation
    const goal: MazeLocation
    var grid: Grid

    ghost predicate Valid()
      reads this
    {
      WellFormed(grid, rows, columns) && InBounds(start, rows, columns) && InBounds(goal, rows, columns)
    }

    /** A rows × columns grid whose cells in blocked are Blocked and the rest
        Empty, then Start written at start and Goal at goal. */
    constructor (rows: nat, columns: nat, blocked: set<MazeLocation>, start: MazeLocation, goal: MazeLocation)
      requires InBounds(start, rows, columns) && InBounds(goal, rows, columns)
      ensures this.rows == rows && this.columns == columns && this.start == start && this.goal == goal
      ensures Valid() && Anchored(grid, start, goal)
      ensures forall r, c :: 0 <= r < rows && 0 <= c < columns ==>
        grid[r][c] == if MazeLocation(r, c) == goal then Goal
                      else if MazeLocation(r, c) == start then Start
                      else if MazeLocation(r, c) in blocked then Blocked
                      else Empty
    {
      this.rows := rows;
      this.columns := columns;
      this.start := start;
      this.goal := goal;
      var g: Grid := seq(rows, r => seq(columns, c => if MazeLocation(r, c) in blocked then Blocked else Empty));
      g := g[start.row := g[start.row][start.column := Start]];
      g := g[goal.row := g[goal.row][goal.column := Goal]];
      grid := g;
    }

    /** `goal_test`: equality with the goal. */
    function GoalTest(ml: MazeLocation): (b: bool)
      ensures b <==> ml == goal
    {
      goal == ml
    }

    /** `__str__`. */
    method ToString() returns (output: string)
      requires Valid()
      ensures output == Render(grid)
    {
      output := "";
      for row := 0 to rows
        invariant output == Render(grid[..row])
      {
        assert grid[..row + 1][..row] == grid[..row];
        output := output + RowText(grid[row]) + "\n";
      }
      assert grid[..rows] == grid;
    }

    /** `mark`: Path into the transposed cell of every location of path, then
        Start and Goal back into their cells. */
    method Mark(path: seq<MazeLocation>)
      requires Valid() && Writable(grid, path)
      modifies this
      ensures Valid()
      ensures grid == Repainted(old(grid), path, Path, start, goal)
    {
      ghost var g0 := grid;
      for i := 0 to |path|
        invariant grid == Painted(g0, path[..i], Path)
      {
        var ml := path[i];
        assert path[..i + 1][..i] == path[..i];
        assert InGrid(g0, Transposed(ml));
        grid := grid[ml.column := grid[ml.column][ml.row := Path]];
      }
      assert path[..|path|] == path;
      grid := grid[start.row := grid[start.row][start.column := Start]];
      grid := grid[goal.row := grid[goal.row][goal.column := Goal]];
    }

    /** `clear`: Empty into the transposed cell of every location of path, then
        Start and Goal back into their cells. */
    method Clear(path: seq<MazeLocation>)
      requires Valid() && Writable(grid, path)
      modifies this
      ensures Valid()
      ensures grid == Repainted(old(grid), path, Empty, start, goal)
    {
      ghost var g0 := grid;
      for i := 0 to |path|
        invariant grid == Painted(g0, path[..i], Empty)
      {
        var ml := path[i];
        assert path[..i + 1][..i] == path[..i];
        assert InGrid(g0, Transposed(ml));
        grid := grid[ml.column := grid[ml.column][ml.row := Empty]];
      }
      assert path[..|path|] == path;
      grid := grid[start.row := grid[start.row][start.column := Start]];
      grid := grid[goal.row := grid[goal.row][goal.column := Goal]];
    }
  }
}
