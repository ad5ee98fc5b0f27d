/**
 * The concrete boards the game's tests exercise, and what the step as written does to them.
 * Each board is given by the condition its live cells satisfy.
 */
module Scenarios {
  import opened Wrappers
  import opened Grids
  import opened Games
  import opened Converters
  import opened GameEndpoints

  /** A 3-cell vertical line in the middle column of a 3 × 3 board. */
  const Vertical := Grid(3, 3, seq(3, r => seq(3, c => c == 1)))

  /** A 3-cell horizontal line in the middle row of a 3 × 3 board. */
  const Horizontal := Grid(3, 3, seq(3, r => seq(3, c => r == 1)))

  /** The vertical line with one more live cell at the top left. */
  const LShape := Grid(3, 3, seq(3, r => seq(3, c => c == 1 || (r == 0 && c == 0))))

  /** The main diagonal of a 3 × 3 board. */
  const Diagonal := Grid(3, 3, seq(3, r => seq(3, c => r == c)))

  /** A single live cell in the centre of a 3 × 3 board. */
  const Centre := Grid(3, 3, seq(3, r => seq(3, c => r == 1 && c == 1)))

  const Dead := Grid(3, 3, seq(3, r => seq(3, c => false)))

  /** A 5 × 5 checkerboard whose corners are alive. */
  const Checkerboard := Grid(5, 5, seq(5, r => seq(5, c => (r + c) % 2 == 0)))

  /** The border of a 5 × 5 board without its corners. */
  const Ring := Grid(5, 5, seq(5, r => seq(5, c => (r == 0 || r == 4) != (c == 0 || c == 4))))

  /** The ring and the four cells next to the centre. */
  const Cross := Grid(5, 5, seq(5, r => seq(5, c =>
    ((r == 0 || r == 4) != (c == 0 || c == 4)) || (r == 2 && (c == 1 || c == 3)) || (c == 2 && (r == 1 || r == 3)))))

  /** A 2 × 3 board whose bottom row is alive. */
  const BottomRow := Grid(2, 3, seq(2, r => seq(3, c => r == 1)))

  /** A 2 × 3 board whose middle column is alive. */
  const MiddleColumn := Grid(2, 3, seq(2, r => seq(3, c => c == 1)))

  // ---------------------------------------------------------------------------------------
  // One step on each board

  /** The vertical line is unchanged by the step as written; the standard step turns it horizontal. */
  lemma VerticalLineUnchanged()
    ensures Step(Vertical) == Vertical
    ensures ConwayStep(Vertical) == Horizontal
  {
    assert Vertical.Valid();
    forall y, x | 0 <= y < 3 && 0 <= x < 3
      ensures Step(Vertical).cells[y][x] == Vertical.cells[y][x]
      ensures ConwayStep(Vertical).cells[y][x] == Horizontal.cells[y][x]
    {
    }
    GridExt(Step(Vertical), Vertical);
    GridExt(ConwayStep(Vertical), Horizontal);
  }

  /** The horizontal line is a fixed point of the step as written. */
  lemma HorizontalLineUnchanged()
    ensures Step(Horizontal) == Horizontal
  {
    assert Horizontal.Valid();
    forall y, x | 0 <= y < 3 && 0 <= x < 3
      ensures Step(Horizontal).cells[y][x] == Horizontal.cells[y][x]
    {
    }
    GridExt(Step(Horizontal), Horizontal);
  }

  /** The L-shape changes in its first step: its top middle cell dies. */
  lemma LShapeChanges()
    ensures Step(LShape) != LShape
  {
    assert LShape.Valid();
    assert Step(LShape).cells[0][1] != LShape.cells[0][1];
  }

  lemma DiagonalStep()
    ensures Step(Diagonal) == Centre
  {
    assert Diagonal.Valid();
    forall y, x | 0 <= y < 3 && 0 <= x < 3
      ensures Step(Diagonal).cells[y][x] == Centre.cells[y][x]
    {
    }
    GridExt(Step(Diagonal), Centre);
  }

  /** A single live cell dies. */
  lemma CentreStep()
    ensures Step(Centre) == Dead
  {
    assert Centre.Valid();
    forall y, x | 0 <= y < 3 && 0 <= x < 3
      ensures Step(Centre).cells[y][x] == Dead.cells[y][x]
    {
    }
    GridExt(Step(Centre), Dead);
  }

  lemma DeadStep()
    ensures Step(Dead) == Dead
  {
    assert Dead.Valid() && AllDead(Dead);
    StepKeepsAllDead(Dead);
    GridExt(Step(Dead), Dead);
  }

  lemma CheckerboardStep()
    ensures Step(Checkerboard) == Ring
  {
    assert Checkerboard.Valid();
    forall y, x | 0 <= y < 5 && 0 <= x < 5
      ensures Step(Checkerboard).cells[y][x] == Ring.cells[y][x]
    {
    }
    GridExt(Step(Checkerboard), Ring);
  }

  lemma RingStep()
    ensures Step(Ring) == Cross
  {
    assert Ring.Valid();
    forall y, x | 0 <= y < 5 && 0 <= x < 5
      ensures Step(Ring).cells[y][x] == Cross.cells[y][x]
    {
    }
    GridExt(Step(Ring), Cross);
  }

  lemma CrossStep()
    ensures Step(Cross) == Ring
  {
    assert Cross.Valid();
    forall y, x | 0 <= y < 5 && 0 <= x < 5
      ensures Step(Cross).cells[y][x] == Ring.cells[y][x]
    {
    }
    GridExt(Step(Cross), Ring);
  }

  /** On a 1 × 1 board the only cell has no neighbours: alive, it dies; dead, it stays dead. */
  lemma SingleCellBoard(alive: bool)
    ensures Step(Grid(1, 1, seq(1, r => seq(1, c => alive)))) == Grid(1, 1, seq(1, r => seq(1, c => false)))
  {
    var g := Grid(1, 1, seq(1, r => seq(1, c => alive)));
    var h := Grid(1, 1, seq(1, r => seq(1, c => false)));
    assert g.Valid() && h.Valid();
    forall y, x | 0 <= y < 1 && 0 <= x < 1
      ensures Step(g).cells[y][x] == h.cells[y][x]
    {
    }
    GridExt(Step(g), h);
  }

  /**
   * On the 2 × 3 board the step as written keeps the bottom row, because the rule centres of
   * the third column lie off the board; the standard step turns it into the middle column.
   */
  lemma BottomRowUnchanged()
    ensures Step(BottomRow) == BottomRow
    ensures ConwayStep(BottomRow) == MiddleColumn
  {
    assert BottomRow.Valid();
    forall y, x | 0 <= y < 2 && 0 <= x < 3
      ensures Step(BottomRow).cells[y][x] == BottomRow.cells[y][x]
      ensures ConwayStep(BottomRow).cells[y][x] == MiddleColumn.cells[y][x]
    {
    }
    GridExt(Step(BottomRow), BottomRow);
    GridExt(ConwayStep(BottomRow), MiddleColumn);
  }

  // ---------------------------------------------------------------------------------------
  // Several generations and the final-state search

  /** The diagonal dies out in two generations and stays dead. */
  lemma {:induction false} DiagonalGenerations(n: nat)
    requires 2 <= n
    ensures Generations(Diagonal, n) == Dead
  {
    DiagonalStep();
    CentreStep();
    DeadStep();
    assert Generations(Diagonal, n) == Generations(Centre, n - 1);
    assert Generations(Centre, n - 1) == Generations(Dead, n - 2);
    FixedPointStays(Dead, n - 2);
  }

  /** The search for a final state on the diagonal stops at generation 3, on the all-dead board. */
  lemma DiagonalFinal(attempts: nat)
    requires 3 <= attempts
    ensures FirstFinal(Diagonal, 0, attempts) == Some(3)
    ensures Generations(Diagonal, 3) == Dead
  {
    DiagonalStep();
    CentreStep();
    DiagonalGenerations(2);
    DiagonalGenerations(3);
    assert Generations(Diagonal, 1) == Centre;
    assert Diagonal.cells[0][0] != Centre.cells[0][0];
    assert Centre.cells[1][1] != Dead.cells[1][1];
    FirstFinalSkip(Diagonal, 0, attempts);
    FirstFinalSkip(Diagonal, 1, attempts);
  }

  /** From the first generation on, the checkerboard alternates between the ring and the cross. */
  lemma {:induction false} CheckerboardAlternates(n: nat)
    requires 1 <= n
    ensures Generations(Checkerboard, n) == if n % 2 == 1 then Ring else Cross
    decreases n
  {
    assert Checkerboard.Valid();
    if n == 1 {
      CheckerboardStep();
    } else {
      CheckerboardAlternates(n - 1);
      GenerationsNext(Checkerboard, n - 1);
      RingStep();
      CrossStep();
    }
  }

  /** The checkerboard never reaches a final state, whatever the number of attempts. */
  lemma CheckerboardNeverFinal(attempts: nat)
    ensures FirstFinal(Checkerboard, 0, attempts) == None
  {
    assert Checkerboard.Valid();
    assert Ring.cells[0][0] != Checkerboard.cells[0][0];
    assert Ring.cells[1][2] != Cross.cells[1][2];
    forall j | 1 <= j
      ensures !IsFinalAt(Checkerboard, j)
    {
      CheckerboardAlternates(j);
      if j > 1 {
        CheckerboardAlternates(j - 1);
      }
    }
  }

  // ---------------------------------------------------------------------------------------
  // The tests' scenarios, driven through the game and the endpoints

  /** A game on the vertical line: after one generation the board is the same line. */
  method VerticalLineNextGeneration() returns (next: array2<bool>)
    ensures GridOf(next) == Vertical
  {
    var initial := new bool[3, 3]((r, c) => c == 1);
    GridExt(GridOf(initial), Vertical);
    var game := new Game(0, 0, initial);
    game.NextGeneration();
    VerticalLineUnchanged();
    next := game.rawBoard;
  }

  /** A game on the horizontal line is final after one generation. */
  method HorizontalLineIsFinal() returns (final: bool)
    ensures final
  {
    var initial := new bool[3, 3]((r, c) => r == 1);
    GridExt(GridOf(initial), Horizontal);
    var game := new Game(0, 0, initial);
    game.NextGeneration();
    HorizontalLineUnchanged();
    final := game.IsFinalState();
  }

  /** A game on the L-shape is not final after one generation. */
  method LShapeIsNotFinal() returns (final: bool)
    ensures !final
  {
    var initial := new bool[3, 3]((r, c) => c == 1 || (r == 0 && c == 0));
    GridExt(GridOf(initial), LShape);
    var game := new Game(0, 0, initial);
    game.NextGeneration();
    LShapeChanges();
    final := game.IsFinalState();
  }

  /**
   * The start endpoint with the default settings: boards of 101 × 99, 100 × 101 and 0 × 0 cells
   * are refused by its size check and a 5 × 5 board is accepted.
   */
  method StartWithDefaultSettings() returns (tooManyRows: Response<Guid>, tooManyColumns: Response<Guid>,
                                             empty: Response<Guid>, accepted: Response<Guid>)
    ensures tooManyRows == BadRequest && tooManyColumns == BadRequest && empty == BadRequest
    ensures accepted == Ok(1)
  {
    var store := new GameStore();
    var board := new bool[101, 99]((r, c) => false);
    tooManyRows := StartGame(store, DefaultSettings, board, 1, 0);
    board := new bool[100, 101]((r, c) => false);
    tooManyColumns := StartGame(store, DefaultSettings, board, 1, 0);
    board := new bool[0, 0]((r, c) => false);
    empty := StartGame(store, DefaultSettings, board, 1, 0);
    board := new bool[5, 5]((r, c) => false);
    accepted := StartGame(store, DefaultSettings, board, 1, 0);
  }

  /**
   * The same uploads as requests, each board written as JSON by the converter: the oversized
   * boards reach the size check and are refused; the 0 × 0 board is written as `[]`, which does
   * not read, so it is refused before the endpoint runs.
   */
  method UploadWithDefaultSettings() returns (tooManyRows: Result<Response<Guid>, ReadError>,
                                              tooManyColumns: Result<Response<Guid>, ReadError>,
                                              empty: Result<Response<Guid>, ReadError>,
                                              accepted: Result<Response<Guid>, ReadError>)
    ensures tooManyRows == Success(BadRequest) && tooManyColumns == Success(BadRequest)
    ensures empty == Failure(EmptyArray)
    ensures accepted == Success(Ok(1))
  {
    var store := new GameStore();
    var board := new bool[101, 99]((r, c) => false);
    var body := Write(board);
    ReadWriteRoundTrip(GridOf(board));
    tooManyRows := StartRequest(store, DefaultSettings, body, 1, 0);
    board := new bool[100, 101]((r, c) => false);
    body := Write(board);
    ReadWriteRoundTrip(GridOf(board));
    tooManyColumns := StartRequest(store, DefaultSettings, body, 1, 0);
    board := new bool[0, 0]((r, c) => false);
    body := Write(board);
    EmptyBoardDoesNotRoundTrip(GridOf(board));
    empty := StartRequest(store, DefaultSettings, body, 1, 0);
    board := new bool[5, 5]((r, c) => false);
    body := Write(board);
    ReadWriteRoundTrip(GridOf(board));
    accepted := StartRequest(store, DefaultSettings, body, 1, 0);
  }

  /** A body of one empty row, `[[]]`, reads as a 1 × 0 board and is refused by the size check. */
  method UploadEmptyRow() returns (result: Result<Response<Guid>, ReadError>)
    ensures result == Success(BadRequest)
  {
    var store := new GameStore();
    result := StartRequest(store, DefaultSettings, JArray([JArray([])]), 1, 0);
  }

  /** Asking for the next generation of a game that was never started yields NotFound. */
  method NextOfUnknownGame(id: Guid) returns (result: Response<array2<bool>>)
    ensures result == NotFound
  {
    var store := new GameStore();
    result := GetNextGeneration(store, id);
  }

  /** The stored vertical line comes back unchanged from the next-generation endpoint. */
  method NextOfVerticalLine() returns (result: Response<array2<bool>>)
    ensures result.Ok? && GridOf(result.value) == Vertical
  {
    var store := new GameStore();
    var board := new bool[3, 3]((r, c) => c == 1);
    GridExt(GridOf(board), Vertical);
    var started := StartGame(store, DefaultSettings, board, 1, 0);
    result := GetNextGeneration(store, 1);
    VerticalLineUnchanged();
  }

  /** Five generations of the stored diagonal give the all-dead board. */
  method DiagonalAfterFive() returns (result: Response<array2<bool>>)
    ensures result.Ok? && GridOf(result.value) == Dead
  {
    var store := new GameStore();
    var board := new bool[3, 3]((r, c) => r == c);
    GridExt(GridOf(board), Diagonal);
    var started := StartGame(store, DefaultSettings, board, 1, 0);
    result := GetGeneration(store, 1, 5);
    DiagonalGenerations(5);
  }

  /** With at least three attempts, the final state of the diagonal is the all-dead board. */
  method DiagonalFinalState(settings: GameSettings) returns (result: Response<array2<bool>>)
    requires 3 <= settings.maxBoardSize && 3 <= settings.maxNumberOfAttempts
    ensures result.Ok? && GridOf(result.value) == Dead
  {
    var store := new GameStore();
    var board := new bool[3, 3]((r, c) => r == c);
    GridExt(GridOf(board), Diagonal);
    var started := StartGame(store, settings, board, 1, 0);
    result := GetFinalState(store, settings, 1);
    DiagonalFinal(Iterations(settings.maxNumberOfAttempts));
  }

  /** The stored checkerboard has no final state within any number of attempts. */
  method CheckerboardFinalState(settings: GameSettings) returns (result: Response<array2<bool>>)
    requires 5 <= settings.maxBoardSize
    ensures result == UnprocessableEntity
  {
    var store := new GameStore();
    var board := new bool[5, 5]((r, c) => (r + c) % 2 == 0);
    GridExt(GridOf(board), Checkerboard);
    var started := StartGame(store, settings, board, 1, 0);
    result := GetFinalState(store, settings, 1);
    CheckerboardNeverFinal(Iterations(settings.maxNumberOfAttempts));
  }
}
