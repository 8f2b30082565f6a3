/** The tile grid of the 2D maze prototype, its collision oracle and the
    four orthogonal directions shared by the keyboard and the monster. */
module Maze {

  /** Number of columns; x runs over 0 .. COLS - 1. */
  const COLS: int := 15
  /** Number of rows; y runs over 0 .. ROWS - 1. */
  const ROWS: int := 11

  /** The level, indexed MAZE[row][column]: 0 is an open path, 1 a wall. */
  const MAZE: seq<seq<int>> := [
    [1,1,1,1,1,1,1,1,1,1,1,1,1,1,1],
    [1,0,0,0,1,0,0,0,0,0,1,0,0,0,1],
    [1,0,1,0,1,0,1,1,1,0,1,0,1,0,1],
    [1,0,1,0,0,0,0,0,1,0,0,0,1,0,1],
    [1,0,1,1,1,1,1,0,1,1,1,0,1,0,1],
    [1,0,0,0,0,0,1,0,0,0,1,0,0,0,1],
    [1,1,1,1,1,0,1,1,1,0,1,1,1,0,1],
    [1,0,0,0,1,0,0,0,1,0,0,0,1,0,1],
    [1,0,1,0,1,1,1,0,1,1,1,0,1,0,1],
    [1,0,0,0,0,0,0,0,0,0,0,0,0,0,1],
    [1,1,1,1,1,1,1,1,1,1,1,1,1,1,1]
  ]

  /** A grid cell, written (column, row) as in the prototype's entities. */
  datatype Cell = Cell(x: int, y: int)

  /** A unit move. */
  datatype Delta = Delta(dx: int, dy: int)

  const UP := Delta(0, -1)
  const DOWN := Delta(0, 1)
  const LEFT := Delta(-1, 0)
  const RIGHT := Delta(1, 0)

  /** The four directions in the order the monster tries them. */
  const DIRECTIONS: seq<Delta> := [UP, DOWN, LEFT, RIGHT]

  function Abs(n: int): nat { if n < 0 then -n else n }

  predicate InBounds(x: int, y: int) {
    0 <= x < COLS && 0 <= y < ROWS
  }

  /** The map is the declared ROWS x COLS rectangle. */
  lemma MazeShape()
    ensures |MAZE| == ROWS
    ensures forall y :: 0 <= y < ROWS ==> |MAZE[y]| == COLS
  {
  }

  /** The collision oracle: a point is enterable when it lies on the grid
      and its tile is open; every other point counts as a wall. */
  predicate CanMoveTo(x: int, y: int): (r: bool)
    ensures r ==> InBounds(x, y)
    ensures InBounds(x, y) ==> |MAZE| == ROWS && |MAZE[y]| == COLS && (r <==> MAZE[y][x] == 0)
  {
    MazeShape();
    InBounds(x, y) && MAZE[y][x] == 0
  }

  /** The outer ring of the maze is wall, so every enterable point lies
      strictly inside the grid. */
  lemma OpenCellsAreInterior(x: int, y: int)
    requires CanMoveTo(x, y)
    ensures 1 <= x <= COLS - 2 && 1 <= y <= ROWS - 2
  {
  }

  /** Points off the grid are always blocked. */
  lemma OutOfBoundsBlocked(x: int, y: int)
    requires !InBounds(x, y)
    ensures !CanMoveTo(x, y)
  {
  }

  function Shift(c: Cell, d: Delta): Cell {
    Cell(c.x + d.dx, c.y + d.dy)
  }

  /** Two cells are orthogonal neighbours. */
  predicate Adjacent(a: Cell, b: Cell) {
    Abs(a.x - b.x) + Abs(a.y - b.y) == 1
  }

  /** The four neighbours of c, in the order of DIRECTIONS; they are exactly
      the cells adjacent to c. */
  function Neighbours(c: Cell): (r: seq<Cell>)
    ensures |r| == |DIRECTIONS|
    ensures forall n :: n in r <==> Adjacent(c, n)
  {
    [Shift(c, UP), Shift(c, DOWN), Shift(c, LEFT), Shift(c, RIGHT)]
  }
}
