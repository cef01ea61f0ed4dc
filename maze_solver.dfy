/**
 * A maze solver that walks a grid depth-first with an explicit stack of
 * positions. Each iteration either reports the end reached (marking the path
 * held on the stack as the solution), pushes the first open neighbour in the
 * order up, right, down, left, or pops a dead end and unmarks it.
 */
module MazeSolver {
  import opened Common

  const MaxSize: int := 20
  const Wall: char := '#'
  const Open: char := ' '
  const Start: char := 'S'
  const End: char := 'E'
  const Visited: char := '.'
  const Solution: char := '*'

  datatype Pos = Pos(row: int, col: int)

  /** What one iteration of the search did. */
  datatype Outcome = Solved | Moved | Backtracked

  /** How a bounded search ended. */
  datatype SolveResult = Found | NotFound | Unfinished

  /** The two positions are one row or one column apart. */
  predicate Adjacent(p: Pos, q: Pos) {
    || (p.row == q.row && (p.col - q.col == 1 || q.col - p.col == 1))
    || (p.col == q.col && (p.row - q.row == 1 || q.row - p.row == 1))
  }

  /** The neighbour in direction d: 0 up, 1 right, 2 down, 3 left. */
  function Neighbour(p: Pos, d: nat): (q: Pos)
    requires d < 4
    ensures Adjacent(p, q)
  {
    if d == 0 then Pos(p.row - 1, p.col)
    else if d == 1 then Pos(p.row, p.col + 1)
    else if d == 2 then Pos(p.row + 1, p.col)
    else Pos(p.row, p.col - 1)
  }

  /** Consecutive positions are neighbours. */
  predicate IsWalk(path: seq<Pos>) {
    forall k :: 0 < k < |path| ==> Adjacent(path[k - 1], path[k])
  }

  class Maze {
    var grid: array2<char>
    var rows: int
    var cols: int
    var start: Pos
    var end: Pos
    var solutionFound: int
    var steps: int

    /** The grid is the fixed 20 by 20 buffer, the used part and the start and end lie within it. */
    ghost predicate Valid()
      reads this`grid, this`rows, this`cols, this`start, this`end
    {
      && grid.Length0 == MaxSize && grid.Length1 == MaxSize
      && 0 < rows <= MaxSize && 0 < cols <= MaxSize
      && IsValidPosition(start) && IsValidPosition(end)
    }

    predicate IsValidPosition(p: Pos)
      reads this`rows, this`cols
    {
      0 <= p.row < rows && 0 <= p.col < cols
    }

    /** A move may enter an open cell or the end, never a wall or a cell already on the path. */
    function CanMoveTo(p: Pos): (r: bool)
      requires Valid()
      reads this`grid, this`rows, this`cols, this`start, this`end, grid
      ensures r <==> IsValidPosition(p) && grid[p.row, p.col] in {Open, End}
      ensures r ==> 0 <= p.row < MaxSize && 0 <= p.col < MaxSize
      ensures r ==> grid[p.row, p.col] !in {Wall, Visited, Solution, Start}
    {
      IsValidPosition(p) && (grid[p.row, p.col] == Open || grid[p.row, p.col] == End)
    }

    /** The first direction, from d on, whose neighbour can be entered. */
    function FirstMove(p: Pos, d: nat): (r: Option<nat>)
      requires Valid() && d <= 4
      reads this`grid, this`rows, this`cols, this`start, this`end, grid
      decreases 4 - d
      ensures r.Some? ==> d <= r.value < 4 && CanMoveTo(Neighbour(p, r.value))
      ensures r.Some? ==> forall e :: d <= e < r.value ==> !CanMoveTo(Neighbour(p, e))
      ensures r.None? ==> forall e :: d <= e < 4 ==> !CanMoveTo(Neighbour(p, e))
    {
      if d == 4 then None
      else if CanMoveTo(Neighbour(p, d)) then Some(d)
      else FirstMove(p, d + 1)
    }

    /** The stack: a walk from the bottom up through cells of the maze that are not walls. */
    ghost predicate Along(path: seq<Pos>)
      requires Valid()
      reads this`grid, this`rows, this`cols, this`start, this`end, grid
    {
      && IsWalk(path)
      && (forall k :: 0 <= k < |path| ==> IsValidPosition(path[k]))
      && (forall k :: 0 <= k < |path| ==> grid[path[k].row, path[k].col] != Wall)
    }

    /** Marks every stacked cell that is not the start or end cell as part of the solution. */
    method MarkSolution(path: seq<Pos>)
      requires Valid() && Along(path)
      modifies grid
      ensures Along(path)
      ensures forall i, j :: 0 <= i < MaxSize && 0 <= j < MaxSize && old(grid[i, j]) == Wall ==> grid[i, j] == Wall
      ensures forall i, j :: 0 <= i < MaxSize && 0 <= j < MaxSize ==>
        grid[i, j] == if Pos(i, j) in path && old(grid[i, j]) != Start && old(grid[i, j]) != End
          then Solution else old(grid[i, j])
    {
      var k := |path|;
      while k > 0
        invariant 0 <= k <= |path|
        invariant forall i, j :: 0 <= i < MaxSize && 0 <= j < MaxSize ==>
          grid[i, j] == if Pos(i, j) in path[k..] && old(grid[i, j]) != Start && old(grid[i, j]) != End
            then Solution else old(grid[i, j])
      {
        k := k - 1;
        var p := path[k];
        assert path[k..] == [p] + path[k + 1..];
        if grid[p.row, p.col] != Start && grid[p.row, p.col] != End {
          grid[p.row, p.col] := Solution;
        }
      }
      forall k | 0 <= k < |path|
        ensures grid[path[k].row, path[k].col] != Wall
      {
        assert path[k] in path[0..];
      }
    }

    /**
     * One iteration of the search loop, with the stack's top at the end of
     * the path. At the end cell the stacked path is marked as the solution.
     * Otherwise the first enterable neighbour is pushed and marked visited
     * (the end cell keeps its mark); with none, the top is popped and, unless
     * it shows the start mark, reopened. Walls never change.
     */
    method Step(path: seq<Pos>) returns (next: seq<Pos>, outcome: Outcome)
      requires Valid() && path != [] && Along(path)
      modifies this, grid
      ensures Valid()
      ensures grid == old(grid) && rows == old(rows) && cols == old(cols) && start == old(start) && end == old(end)
      ensures steps == old(steps) + 1
      ensures Along(next) && (next != [] ==> next[0] == path[0])
      ensures forall i, j :: 0 <= i < MaxSize && 0 <= j < MaxSize && old(grid[i, j]) == Wall ==> grid[i, j] == Wall
      ensures var top := path[|path| - 1];
        top == old(end) ==>
          && outcome == Solved && next == path && solutionFound == 1
          && forall i, j :: 0 <= i < MaxSize && 0 <= j < MaxSize ==>
            grid[i, j] == if Pos(i, j) in path && old(grid[i, j]) != Start && old(grid[i, j]) != End
              then Solution else old(grid[i, j])
      ensures var top := path[|path| - 1];
        top != old(end) && old(FirstMove(top, 0)).Some? ==>
          var q := Neighbour(top, old(FirstMove(top, 0)).value);
          && outcome == Moved && next == path + [q] && solutionFound == old(solutionFound)
          && forall i, j :: 0 <= i < MaxSize && 0 <= j < MaxSize ==>
            grid[i, j] == if Pos(i, j) == q && old(grid[i, j]) != End then Visited else old(grid[i, j])
      ensures var top := path[|path| - 1];
        top != old(end) && old(FirstMove(top, 0)).None? ==>
          && outcome == Backtracked && next == path[..|path| - 1] && solutionFound == old(solutionFound)
          && forall i, j :: 0 <= i < MaxSize && 0 <= j < MaxSize ==>
            grid[i, j] == if Pos(i, j) == top && old(grid[i, j]) != Start then Open else old(grid[i, j])
    {
      var top := path[|path| - 1];
      steps := steps + 1;
      if top == end {
        solutionFound := 1;
        MarkSolution(path);
        return path, Solved;
      }
      var move := FindMove(top);
      if move.Some? {
        next := Advance(path, Neighbour(top, move.value));
        return next, Moved;
      }
      next := Retreat(path);
      outcome := Backtracked;
    }

    /** The direction search: the first of up, right, down, left whose neighbour can be entered. */
    method FindMove(top: Pos) returns (move: Option<nat>)
      requires Valid()
      ensures move == FirstMove(top, 0)
    {
      var d := 0;
      while d < 4
        invariant 0 <= d <= 4
        invariant FirstMove(top, 0) == FirstMove(top, d)
      {
        if CanMoveTo(Neighbour(top, d)) {
          return Some(d);
        }
        d := d + 1;
      }
      return None;
    }

    /** Pushes an enterable neighbour of the top and marks it visited, unless it is the end cell. */
    method Advance(path: seq<Pos>, q: Pos) returns (next: seq<Pos>)
      requires Valid() && path != [] && Along(path)
      requires CanMoveTo(q) && Adjacent(path[|path| - 1], q)
      modifies grid
      ensures Along(next) && next == path + [q]
      ensures forall i, j :: 0 <= i < MaxSize && 0 <= j < MaxSize && old(grid[i, j]) == Wall ==> grid[i, j] == Wall
      ensures forall i, j :: 0 <= i < MaxSize && 0 <= j < MaxSize ==>
        grid[i, j] == if Pos(i, j) == q && old(grid[i, j]) != End then Visited else old(grid[i, j])
    {
      next := path + [q];
      if grid[q.row, q.col] != End {
        grid[q.row, q.col] := Visited;
      }
    }

    /** Pops the top and reopens its cell, unless it shows the start mark. */
    method Retreat(path: seq<Pos>) returns (next: seq<Pos>)
      requires Valid() && path != [] && Along(path)
      modifies grid
      ensures Along(next) && next == path[..|path| - 1]
      ensures forall i, j :: 0 <= i < MaxSize && 0 <= j < MaxSize && old(grid[i, j]) == Wall ==> grid[i, j] == Wall
      ensures forall i, j :: 0 <= i < MaxSize && 0 <= j < MaxSize ==>
        grid[i, j] == if Pos(i, j) == path[|path| - 1] && old(grid[i, j]) != Start then Open else old(grid[i, j])
    {
      var top := path[|path| - 1];
      next := path[..|path| - 1];
      if grid[top.row, top.col] != Start {
        grid[top.row, top.col] := Open;
      }
    }

    /**
     * The whole search, bounded by a number of iterations. The start cell is
     * pushed and marked visited first. A reported solution is a walk of
     * neighbouring cells from the start to the end, none of which, apart
     * from the start itself, was a wall.
     */
    method SolveMaze(fuel: nat) returns (result: SolveResult, path: seq<Pos>)
      requires Valid()
      modifies this, grid
      ensures Valid() && grid == old(grid) && start == old(start) && end == old(end)
      ensures result == Found ==>
        && solutionFound == 1
        && path != [] && path[0] == start && path[|path| - 1] == end
        && IsWalk(path)
        && (forall k :: 0 <= k < |path| ==> IsValidPosition(path[k]))
        && forall k :: 0 <= k < |path| && path[k] != start ==> old(grid[path[k].row, path[k].col]) != Wall
      ensures result == NotFound ==> path == []
    {
      path := [start];
      grid[start.row, start.col] := Visited;
      var remaining := fuel;
      while path != [] && remaining > 0
        invariant Valid() && grid == old(grid) && start == old(start) && end == old(end)
        invariant Along(path) && (path != [] ==> path[0] == start)
        invariant forall i, j :: 0 <= i < MaxSize && 0 <= j < MaxSize && old(grid[i, j]) == Wall && Pos(i, j) != start ==>
          grid[i, j] == Wall
        decreases remaining
      {
        var outcome;
        path, outcome := Step(path);
        if outcome == Solved {
          return Found, path;
        }
        remaining := remaining - 1;
      }
      result := if path == [] then NotFound else Unfinished;
    }

    /**
     * Clears the visited and solution marks in the used part of the grid,
     * restores the start and end marks and zeroes the counters.
     */
    method Reset()
      requires Valid()
      modifies this, grid
      ensures Valid()
      ensures grid == old(grid) && rows == old(rows) && cols == old(cols) && start == old(start) && end == old(end)
      ensures solutionFound == 0 && steps == 0
      ensures grid[start.row, start.col] == (if start == end then End else Start) && grid[end.row, end.col] == End
      ensures forall i, j :: 0 <= i < rows && 0 <= j < cols ==> grid[i, j] != Visited && grid[i, j] != Solution
      ensures forall i, j :: 0 <= i < MaxSize && 0 <= j < MaxSize && Pos(i, j) != start && Pos(i, j) != end ==>
        grid[i, j] == if i < rows && j < cols && old(grid[i, j]) in {Visited, Solution} then Open else old(grid[i, j])
    {
      var i := 0;
      while i < rows
        invariant 0 <= i <= rows
        invariant Valid() && grid == old(grid) && rows == old(rows) && cols == old(cols)
        invariant start == old(start) && end == old(end)
        invariant forall r, c :: 0 <= r < MaxSize && 0 <= c < MaxSize ==>
          grid[r, c] == if r < i && c < cols && old(grid[r, c]) in {Visited, Solution} then Open else old(grid[r, c])
      {
        var j := 0;
        while j < cols
          invariant 0 <= j <= cols
          invariant Valid() && grid == old(grid) && rows == old(rows) && cols == old(cols)
          invariant start == old(start) && end == old(end)
          invariant forall r, c :: 0 <= r < MaxSize && 0 <= c < MaxSize ==>
            grid[r, c] == if (r < i || (r == i && c < j)) && c < cols && old(grid[r, c]) in {Visited, Solution}
              then Open else old(grid[r, c])
        {
          if grid[i, j] == Visited || grid[i, j] == Solution {
            grid[i, j] := Open;
          }
          j := j + 1;
        }
        i := i + 1;
      }
      grid[start.row, start.col] := Start;
      grid[end.row, end.col] := End;
      solutionFound := 0;
      steps := 0;
    }
  }
}
