/**
 * The value view of a Game of Life board: the rectangular `bool[,]` that the board,
 * the game and the endpoints exchange, and the generation step as `Board.Update`
 * computes it.
 */
module Grids {

  /** A `rows × columns` board, row-major: `cells[r][c]` is the cell at row r, column c (true = alive). */
  datatype Grid = Grid(rows: nat, columns: nat, cells: seq<seq<bool>>) {
    predicate Valid() {
      |cells| == rows && forall r | 0 <= r < rows :: |cells[r]| == columns
    }
  }

  /** The grid a 2-D array holds, dimension 0 being the row. */
  function GridOf(a: array2<bool>): (g: Grid)
    reads a
    ensures g.Valid() && g.rows == a.Length0 && g.columns == a.Length1
    ensures forall r, c | 0 <= r < a.Length0 && 0 <= c < a.Length1 :: g.cells[r][c] == a[r, c]
  {
    Grid(a.Length0, a.Length1,
         seq(a.Length0, r requires 0 <= r < a.Length0 reads a =>
               seq(a.Length1, c requires 0 <= c < a.Length1 reads a => a[r, c])))
  }

  /** Two grids of the same shape that agree cell by cell are equal. */
  lemma {:induction false} GridExt(g: Grid, h: Grid)
    requires g.Valid() && h.Valid() && g.rows == h.rows && g.columns == h.columns
    requires forall r, c | 0 <= r < g.rows && 0 <= c < g.columns :: g.cells[r][c] == h.cells[r][c]
    ensures g == h
  {
    forall r | 0 <= r < g.rows
      ensures g.cells[r] == h.cells[r]
    {
      assert forall c | 0 <= c < g.columns :: g.cells[r][c] == h.cells[r][c];
    }
  }

  /** (row, column) lies on the board. */
  predicate InRange(g: Grid, row: int, column: int) {
    0 <= row < g.rows && 0 <= column < g.columns
  }

  /** The state of the cell at (row, column); a position off the board reads as dead. */
  function CellState(g: Grid, row: int, column: int): bool
    requires g.Valid()
  {
    InRange(g, row, column) && g.cells[row][column]
  }

  function Count(alive: bool): nat {
    if alive then 1 else 0
  }

  /**
   * The number of live cells among the eight positions around (row, column).
   * The centre is not counted and positions off the board count as dead: there is no wrap-around.
   */
  function AliveNeighbours(g: Grid, row: int, column: int): (n: nat)
    requires g.Valid()
    ensures n <= 8
  {
    Count(CellState(g, row - 1, column - 1)) + Count(CellState(g, row, column - 1)) + Count(CellState(g, row + 1, column - 1)) +
    Count(CellState(g, row - 1, column)) + Count(CellState(g, row + 1, column)) +
    Count(CellState(g, row - 1, column + 1)) + Count(CellState(g, row, column + 1)) + Count(CellState(g, row + 1, column + 1))
  }

  /** Conway's rule: a live cell survives with 2 or 3 live neighbours, a dead one is born with exactly 3. */
  predicate Rule(alive: bool, neighbours: nat): (next: bool)
    ensures alive && neighbours < 2 ==> !next                      // under-population
    ensures alive && (neighbours == 2 || neighbours == 3) ==> next  // survival
    ensures neighbours > 3 ==> !next                               // over-population
    ensures !alive ==> (next <==> neighbours == 3)                 // reproduction
  {
    (alive && (neighbours == 2 || neighbours == 3)) || (!alive && neighbours == 3)
  }

  /** The rule applied to the cell at (row, column) and its neighbourhood. */
  predicate NextState(g: Grid, row: int, column: int)
    requires g.Valid()
  {
    Rule(CellState(g, row, column), AliveNeighbours(g, row, column))
  }

  /**
   * One generation as `Board.Update` computes it: the cell written at row y, column x is the
   * rule applied at row x, column y of the old grid (the loop variables are passed transposed).
   */
  function Step(g: Grid): (h: Grid)
    requires g.Valid()
    ensures h.Valid() && h.rows == g.rows && h.columns == g.columns
  {
    Grid(g.rows, g.columns, seq(g.rows, y => seq(g.columns, x => NextState(g, x, y))))
  }

  /** The new cell at row y, column x, from the state and count `Board.Update` reads at (x, y). */
  lemma StepCell(g: Grid, y: int, x: int, alive: bool, n: nat)
    requires g.Valid() && 0 <= y < g.rows && 0 <= x < g.columns
    requires alive == CellState(g, x, y) && n == AliveNeighbours(g, x, y)
    ensures Step(g).cells[y][x] == ((alive && (n == 2 || n == 3)) || (!alive && n == 3))
  {
  }

  /** The standard generation step: the rule at (r, c) decides the new cell at (r, c). */
  function ConwayStep(g: Grid): (h: Grid)
    requires g.Valid()
    ensures h.Valid() && h.rows == g.rows && h.columns == g.columns
  {
    Grid(g.rows, g.columns, seq(g.rows, r => seq(g.columns, c => NextState(g, r, c))))
  }

  function Transpose(g: Grid): (t: Grid)
    requires g.Valid()
    ensures t.Valid() && t.rows == g.columns && t.columns == g.rows
  {
    Grid(g.columns, g.rows,
         seq(g.columns, r requires 0 <= r < g.columns => seq(g.rows, c requires 0 <= c < g.rows => g.cells[c][r])))
  }

  predicate AllDead(g: Grid)
    requires g.Valid()
  {
    forall r, c | 0 <= r < g.rows && 0 <= c < g.columns :: !g.cells[r][c]
  }

  /** The board after n generations. */
  function Generations(g: Grid, n: nat): (h: Grid)
    requires g.Valid()
    ensures h.Valid() && h.rows == g.rows && h.columns == g.columns
    decreases n
  {
    if n == 0 then g else Generations(Step(g), n - 1)
  }

  // ---------------------------------------------------------------------------------------
  // Properties of the step

  lemma CellStateTranspose(g: Grid, row: int, column: int)
    requires g.Valid()
    ensures CellState(Transpose(g), column, row) == CellState(g, row, column)
  {
  }

  /** Transposing the grid transposes every neighbourhood, so the counts agree. */
  lemma NeighboursTranspose(g: Grid, row: int, column: int)
    requires g.Valid()
    ensures AliveNeighbours(Transpose(g), column, row) == AliveNeighbours(g, row, column)
  {
  }

  /** The standard step commutes with transposition, on boards of any shape. */
  lemma {:induction false} ConwayCommutesWithTranspose(g: Grid)
    requires g.Valid()
    ensures ConwayStep(Transpose(g)) == Transpose(ConwayStep(g))
  {
    var t := Transpose(g);
    forall r, c | 0 <= r < g.columns && 0 <= c < g.rows
      ensures ConwayStep(t).cells[r][c] == Transpose(ConwayStep(g)).cells[r][c]
    {
      NeighboursTranspose(g, c, r);
      CellStateTranspose(g, c, r);
    }
    GridExt(ConwayStep(t), Transpose(ConwayStep(g)));
  }

  /** On a square board `Board.Update` yields the transpose of the standard generation. */
  lemma {:induction false} StepIsTransposedConway(g: Grid)
    requires g.Valid() && g.rows == g.columns
    ensures Step(g) == Transpose(ConwayStep(g))
  {
    GridExt(Step(g), Transpose(ConwayStep(g)));
  }

  /**
   * On a board that is not square, a written position (y, x) with x >= rows or y >= columns
   * has its rule centre off the board: it is treated as dead, and becomes alive exactly
   * when three of its neighbours on the board are alive.
   */
  lemma StepOffBoardCentre(g: Grid, y: int, x: int)
    requires g.Valid() && 0 <= y < g.rows && 0 <= x < g.columns
    requires x >= g.rows || y >= g.columns
    ensures Step(g).cells[y][x] <==> AliveNeighbours(g, x, y) == 3
  {
  }

  /**
   * The update against the standard step on a board of any shape: the cell written at row y,
   * column x is the standard next state of cell (x, y) when that cell is on the board, and is
   * born exactly on 3 live neighbours around the off-board position (x, y) otherwise.
   */
  lemma StepAgainstConway(g: Grid, y: int, x: int)
    requires g.Valid() && 0 <= y < g.rows && 0 <= x < g.columns
    ensures Step(g).cells[y][x] ==
              if x < g.rows && y < g.columns then ConwayStep(g).cells[x][y] else AliveNeighbours(g, x, y) == 3
  {
  }

  /** No spontaneous generation: an all-dead board stays all-dead. */
  lemma StepKeepsAllDead(g: Grid)
    requires g.Valid() && AllDead(g)
    ensures AllDead(Step(g))
  {
  }

  /**
   * The count at (row, column) depends only on the eight surrounding positions: two boards of
   * the same shape that agree there (whatever their centres and all other cells) give the same count.
   */
  lemma NeighboursAreLocal(g: Grid, h: Grid, row: int, column: int)
    requires g.Valid() && h.Valid() && g.rows == h.rows && g.columns == h.columns
    requires forall r, c | row - 1 <= r <= row + 1 && column - 1 <= c <= column + 1 && (r, c) != (row, column) ::
               CellState(g, r, c) == CellState(h, r, c)
    ensures AliveNeighbours(g, row, column) == AliveNeighbours(h, row, column)
  {
  }

  lemma {:induction false} GenerationsNext(g: Grid, n: nat)
    requires g.Valid()
    ensures Generations(g, n + 1) == Step(Generations(g, n))
    decreases n
  {
    if n > 0 {
      GenerationsNext(Step(g), n - 1);
    }
  }

  /** A fixed point of the step stays put for any number of generations. */
  lemma {:induction false} FixedPointStays(g: Grid, n: nat)
    requires g.Valid() && Step(g) == g
    ensures Generations(g, n) == g
    decreases n
  {
    if n > 0 {
      FixedPointStays(g, n - 1);
      GenerationsNext(g, n - 1);
    }
  }
}
