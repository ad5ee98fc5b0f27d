/**
 * A Game of Life game: a board, the current state `RawBoard` and the state before the
 * last generation, used to detect a final (period-1) state.
 */
module Games {
  import opened Grids
  import opened Boards

  /** A 128-bit identifier, treated as an opaque value. */
  newtype Guid = x: int | 0 <= x < 0x1_0000_0000_0000_0000_0000_0000_0000_0000

  newtype int32 = x: int | -0x8000_0000 <= x < 0x8000_0000

  class Game {
    const board: Board
    /** The state before the last generation; null until the first one. */
    var previousState: array2?<bool>
    /** Identifier and owner; their setters are private and nothing but the constructor sets them. */
    const id: Guid
    const playerId: int32
    /** The current state of the board. */
    var rawBoard: array2<bool>

    /**
     * The board's cells are the current state, and the current state is one generation
     * after the previous one when there is a previous one.
     */
    ghost predicate Valid()
      reads this, board, board.cells, rawBoard, previousState
    {
      board.Valid() && board.Initialised() && board.state == GridOf(rawBoard) &&
      (previousState != null ==> GridOf(rawBoard) == Step(GridOf(previousState))) &&
      Shaped()
    }

    /** The previous state, when there is one, has the shape of the current one. */
    ghost predicate Shaped()
      reads this
    {
      previousState != null ==>
        previousState.Length0 == rawBoard.Length0 && previousState.Length1 == rawBoard.Length1
    }

    /** `rawBoard` is the caller's array itself, not a copy; the board copies it cell by cell. */
    constructor (id: Guid, playerId: int32, rawBoard: array2<bool>)
      ensures Valid() && fresh(board) && fresh(board.cells)
      ensures this.id == id && this.playerId == playerId && this.rawBoard == rawBoard
      ensures previousState == null
    {
      this.id := id;
      this.playerId := playerId;
      this.rawBoard := rawBoard;
      board := new Board(rawBoard);
      previousState := null;
    }

    /**
     * Advances one generation: the previous state becomes the current one and the current
     * state a fresh array holding the board after one update.
     */
    method NextGeneration()
      requires Valid()
      modifies this, board, board.cells
      ensures Valid() && fresh(rawBoard)
      ensures previousState == old(rawBoard)
      ensures GridOf(rawBoard) == Step(old(GridOf(rawBoard)))
      ensures old(previousState != null && GridOf(previousState) == GridOf(rawBoard)) ==>
                GridOf(rawBoard) == old(GridOf(rawBoard))
    {
      previousState := rawBoard;
      board.Update();
      rawBoard := board.GetBoardState();
    }

    /**
     * True exactly when there is a previous state and it equals the current state cell by cell
     * (FinalStateIsFixedPoint: the current state is then a fixed point of the step). Changes nothing.
     */
    method IsFinalState() returns (final: bool)
      requires Shaped()
      ensures final <==> previousState != null && GridOf(previousState) == GridOf(rawBoard)
    {
      if previousState == null {
        return false;
      }
      var rows := rawBoard.Length0;
      var columns := rawBoard.Length1;
      for y := 0 to rows
        invariant forall r, c | 0 <= r < y && 0 <= c < columns :: rawBoard[r, c] == previousState[r, c]
      {
        for x := 0 to columns
          invariant forall r, c | 0 <= r < y && 0 <= c < columns :: rawBoard[r, c] == previousState[r, c]
          invariant forall c | 0 <= c < x :: rawBoard[y, c] == previousState[y, c]
        {
          if rawBoard[y, x] != previousState[y, x] {
            assert GridOf(rawBoard).cells[y][x] != GridOf(previousState).cells[y][x];
            return false;
          }
        }
      }
      GridExt(GridOf(previousState), GridOf(rawBoard));
      return true;
    }
  }

  /** A game in a final state stays there: the current state is a fixed point of the step. */
  lemma FinalStateIsFixedPoint(game: Game)
    requires game.Valid() && game.previousState != null
    requires GridOf(game.previousState) == GridOf(game.rawBoard)
    ensures Step(GridOf(game.rawBoard)) == GridOf(game.rawBoard)
  {
  }
}
