/**
 * The board of the Game of Life: a `rows × columns` array of cells and the generation update.
 *
 * No two slots of the array share a Cell (each is created on its own), so a slot is
 * modelled by the state of the Cell it holds; a slot that holds no Cell yet is `Null`.
 */
module Boards {
  import opened Grids

  datatype Slot = Null | Holds(isAlive: bool)

  class Board {
    const rows: nat
    const columns: nat
    const cells: array2<Slot>

    /** The cell states as a grid; meaningful once every slot holds a cell. */
    ghost var state: Grid

    ghost predicate Valid()
      reads this
    {
      cells.Length0 == rows && cells.Length1 == columns &&
      state.Valid() && state.rows == rows && state.columns == columns
    }

    /** Every slot holds a cell (reading the board never dereferences null), with the state `state` gives. */
    ghost predicate Initialised()
      reads this, cells
      requires Valid()
    {
      forall r, c | 0 <= r < rows && 0 <= c < columns :: cells[r, c] == Holds(state.cells[r][c])
    }

    /** A board of the given size whose slots hold no cell yet. */
    constructor Empty(rows: nat, columns: nat)
      ensures Valid() && this.rows == rows && this.columns == columns && fresh(cells)
      ensures forall r, c | 0 <= r < rows && 0 <= c < columns :: cells[r, c] == Null
    {
      this.rows := rows;
      this.columns := columns;
      cells := new Slot[rows, columns]((r, c) => Null);
      state := Grid(rows, columns, seq(rows, r => seq(columns, c => false)));
    }

    /** A board of the shape of `states`, holding a cell with the state of each of its entries. */
    constructor (states: array2<bool>)
      ensures Valid() && Initialised() && fresh(cells)
      ensures state == GridOf(states)
    {
      rows := states.Length0;
      columns := states.Length1;
      cells := new Slot[states.Length0, states.Length1]((r, c) => Null);
      state := GridOf(states);
      new;
      ghost var g := GridOf(states);
      for y := 0 to rows
        invariant Valid() && state == g
        invariant forall r, c | 0 <= r < y && 0 <= c < columns :: cells[r, c] == Holds(g.cells[r][c])
      {
        for x := 0 to columns
          invariant Valid() && state == g
          invariant forall r, c | 0 <= r < y && 0 <= c < columns :: cells[r, c] == Holds(g.cells[r][c])
          invariant forall c | 0 <= c < x :: cells[y, c] == Holds(g.cells[y][c])
        {
          assert g.cells[y][x := states[y, x]] == g.cells[y];
          assert g.cells[y := g.cells[y]] == g.cells;
          SetCellState(x, y, states[y, x]);
        }
      }
    }

    /**
     * Sets the cell at row y, column x (a new cell if the slot holds none); a position off the
     * board changes nothing.
     */
    method SetCellState(x: int, y: int, isAlive: bool)
      requires Valid()
      modifies this, cells
      ensures Valid()
      ensures IsValidPosition(y, x) ==>
                cells[y, x] == Holds(isAlive) &&
                state == old(state).(cells := old(state.cells)[y := old(state.cells)[y][x := isAlive]])
      ensures !IsValidPosition(y, x) ==> state == old(state)
      ensures forall r, c | 0 <= r < rows && 0 <= c < columns && (r, c) != (y, x) :: cells[r, c] == old(cells[r, c])
    {
      if IsValidPosition(y, x) {
        if cells[y, x] == Null {
          cells[y, x] := Holds(isAlive);
        } else {
          cells[y, x] := cells[y, x].(isAlive := isAlive);
        }
        state := state.(cells := state.cells[y := state.cells[y][x := isAlive]]);
      }
    }

    /**
     * Computes the next generation of every cell from the current board into a separate buffer,
     * then copies the buffer over the board.
     */
    method Update()
      requires Valid() && Initialised()
      modifies this, cells
      ensures Valid() && Initialised() && state == Step(old(state))
    {
      ghost var next := Step(state);
      var board := new Slot[rows, columns]((r, c) => Null);
      for y := 0 to rows
        modifies board
        invariant forall r, c | 0 <= r < y && 0 <= c < columns :: board[r, c] == Holds(next.cells[r][c])
      {
        for x := 0 to columns
          modifies board
          invariant forall r, c | 0 <= r < y && 0 <= c < columns :: board[r, c] == Holds(next.cells[r][c])
          invariant forall c | 0 <= c < x :: board[y, c] == Holds(next.cells[y][c])
        {
          var aliveNeighbors := CountAliveNeighbors(x, y);
          var isCurrentlyAlive := GetCellState(x, y);
          var shouldBeAlive :=
            (isCurrentlyAlive && (aliveNeighbors == 2 || aliveNeighbors == 3)) ||
            (!isCurrentlyAlive && aliveNeighbors == 3);
          StepCell(state, y, x, isCurrentlyAlive, aliveNeighbors);
          board[y, x] := Holds(shouldBeAlive);
        }
      }
      UpdateInternalBoard(board);
      state := next;
    }

    /** A freshly allocated `rows × columns` copy of the cell states; the board is unchanged. */
    method GetBoardState() returns (result: array2<bool>)
      requires Valid() && Initialised()
      ensures fresh(result) && GridOf(result) == state
    {
      result := new bool[rows, columns]((r, c) => false);
      for y := 0 to rows
        invariant forall r, c | 0 <= r < y && 0 <= c < columns :: result[r, c] == state.cells[r][c]
      {
        for x := 0 to columns
          invariant forall r, c | 0 <= r < y && 0 <= c < columns :: result[r, c] == state.cells[r][c]
          invariant forall c | 0 <= c < x :: result[y, c] == state.cells[y][c]
        {
          result[y, x] := cells[y, x].isAlive;
        }
      }
      GridExt(GridOf(result), state);
    }

    /** The number of live cells around (row, column), visiting the offsets as the source does. */
    method CountAliveNeighbors(row: int, column: int) returns (count: nat)
      requires Valid() && Initialised()
      ensures count == AliveNeighbours(state, row, column)
    {
      count := 0;
      for y := -1 to 2
        invariant count == NeighbourRows(state, row, column, y)
      {
        for x := -1 to 2
          invariant count == NeighbourRows(state, row, column, y) + NeighbourRow(state, row, column, y, x)
        {
          if x == 0 && y == 0 {
            continue;
          }
          if GetCellState(row + x, column + y) {
            count := count + 1;
          }
        }
      }
      NeighbourRowsComplete(state, row, column);
    }

    /** (row, column) lies on the board: exactly the positions the cell states cover. */
    predicate IsValidPosition(row: int, column: int): (valid: bool)
      reads this
      requires Valid()
      ensures valid <==> InRange(state, row, column)
    {
      row >= 0 && row < rows && column >= 0 && column < columns
    }

    /** The state of the cell at (row, column); a position off the board reads as dead. */
    function GetCellState(row: int, column: int): (alive: bool)
      reads this, cells
      requires Valid() && Initialised()
      ensures alive == CellState(state, row, column)
    {
      IsValidPosition(row, column) && cells[row, column].isAlive
    }

    /** Replaces every slot of the board by the corresponding slot of `board`. */
    method UpdateInternalBoard(board: array2<Slot>)
      requires Valid() && board.Length0 == rows && board.Length1 == columns
      modifies cells
      ensures forall r, c | 0 <= r < rows && 0 <= c < columns :: cells[r, c] == old(board[r, c])
    {
      for y := 0 to rows
        invariant forall r, c | 0 <= r < y && 0 <= c < columns :: cells[r, c] == old(board[r, c])
        invariant forall r, c | y <= r < rows && 0 <= c < columns :: board[r, c] == old(board[r, c])
      {
        for x := 0 to columns
          invariant forall r, c | 0 <= r < y && 0 <= c < columns :: cells[r, c] == old(board[r, c])
          invariant forall c | 0 <= c < x :: cells[y, c] == old(board[y, c])
          invariant forall r, c | y <= r < rows && 0 <= c < columns && (r > y || c >= x) :: board[r, c] == old(board[r, c])
        {
          cells[y, x] := board[y, x];
        }
      }
    }
  }

  /** A board built from a matrix reads back as the same matrix, in a new array. */
  method ReadBack(states: array2<bool>) returns (result: array2<bool>)
    ensures fresh(result) && GridOf(result) == GridOf(states)
  {
    var board := new Board(states);
    result := board.GetBoardState();
  }

  // ---------------------------------------------------------------------------------------
  // Partial sums of the neighbour count, in the order CountAliveNeighbors visits the offsets.

  /** Live cells at offsets (x', y) with -1 <= x' < x, the centre left out. */
  ghost function NeighbourRow(g: Grid, row: int, column: int, y: int, x: int): nat
    requires g.Valid() && -1 <= x <= 2
    decreases x + 1
  {
    if x == -1 then 0
    else NeighbourRow(g, row, column, y, x - 1) +
         (if x - 1 == 0 && y == 0 then 0 else Count(CellState(g, row + (x - 1), column + y)))
  }

  /** Live cells at offsets (x', y') with -1 <= y' < y, the centre left out. */
  ghost function NeighbourRows(g: Grid, row: int, column: int, y: int): nat
    requires g.Valid() && -1 <= y <= 2
    decreases y + 1
  {
    if y == -1 then 0 else NeighbourRows(g, row, column, y - 1) + NeighbourRow(g, row, column, y - 1, 2)
  }

  lemma NeighbourRowsComplete(g: Grid, row: int, column: int)
    requires g.Valid()
    ensures NeighbourRows(g, row, column, 2) == AliveNeighbours(g, row, column)
  {
  }
}
