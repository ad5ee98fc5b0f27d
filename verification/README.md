# Conway's Game of Life service — a Dafny model

This project models the engine and the request logic of a hosted Game of Life:

- A client uploads a rectangular `bool[,]` board.
- The service stores the board under a new game identifier.
- Later requests advance the stored board by one or more generations.
- Another request searches, within a configured number of attempts, for a final state: a generation that leaves the board unchanged.

The model follows the repository's classes one by one:

| file | module | what it holds |
|---|---|---|
| `grids.dfy` | `Grids` | The value view of a board (`Grid`, a rectangular `seq<seq<bool>>`). The neighbour count and the rule. `Step`, one generation exactly as `Board.Update` computes it. `Generations`, n steps. The properties of the step. |
| `cell.dfy` | `Cells` | `Cell`, a mutable alive/dead flag. |
| `board.dfy` | `Boards` | `Board`, a class over an `array2` of cell slots. Its methods are loops proved against `Step`. |
| `game.dfy` | `Games` | `Game`: the board, the current state `rawBoard` and the previous state. `NextGeneration` and `IsFinalState`. |
| `converter.dfy` | `Converters` | The JSON form of `bool[,]`. `ReadValue` and `WriteValue` specify it, and the `Read` and `Write` loops follow it. The round trip is proved. |
| `endpoints.dfy` | `GameEndpoints` | The games table as a `GameStore`, a map from identifier to a stored row whose board is JSON. The start, next, next-N and final-state endpoints are methods on it. `FirstFinal` specifies the final-state search. |
| `scenarios.dfy` | `Scenarios` | The boards the repository's tests use. What one or more steps do to them. The tests' games and requests, driven through `Game` and the endpoints. |

## Behaviour of the code worth knowing

- **The update is transposed.**
  - `Board.Update` is documented as applying the rules of Conway's Game of Life (src/Life.Api/Domain/Board.cs:64-67).
  - Its loop runs over row `y` and column `x`, then calls `CountAliveNeighbors(x, y)` and `GetCellState(x, y)`. Both take `(row, column)`.
  - So the rule is evaluated at row `x`, column `y`, and its result is written to row `y`, column `x`.
  - `Grids.Step` is that update. `Grids.ConwayStep` is the standard one.
  - On a square board, `Step` is the transpose of `ConwayStep` (`StepIsTransposedConway`).
  - On any board, `StepAgainstConway` relates the two cell by cell. Where the rule's centre lies off the board, it is treated as a dead cell (`StepOffBoardCentre`, and `BottomRowUnchanged` for an example).
  - A test comment explains the unchanged 3-cell vertical line by each live cell having two live neighbours (tests/Life.IntegrationTests/GameApiTests.cs:102-103). Under the standard rule that line turns horizontal (`VerticalLineUnchanged` proves `ConwayStep(Vertical) == Horizontal`). It stays put only because of the transposition.
  - The repository's tests expect the transposed behaviour throughout, so the model keeps it.
- **`Board(rows, columns)` has no dimension check.** It allocates the array, and only the start endpoint checks sizes.
- **Bodies are read before the endpoint runs.**
  - The start request's body is read by the JSON converter before `StartGameAsync` runs (src/Life.Api/Program.cs:16-20).
  - A board with no rows is written as `[]`, which does not read, so the endpoint's `rows == 0` test never holds for a request (`StartRequest`).
  - The 0 × 0 upload is refused by the read (`UploadWithDefaultSettings`). A body `[[]]` reads as 1 × 0 and is refused by the size check (`UploadEmptyRow`).
- **The game is constructed with an owner.**
  - The endpoint and the tests call a two-argument `Game(id, board)`, but `Game.cs` declares only `Game(id, playerId, rawBoard)`.
  - The model uses the declared constructor and takes the owner as a parameter of `StartGame`.
- **Attempts come from configuration.**
  - The final-state search tries at most `GameSettings.MaxNumberOfAttempts` generations, whose default is 0.
  - With 0 attempts every known game answers `UnprocessableEntity`.
  - The diagonal scenario therefore needs at least 3 attempts.

## Model

| member | source | states |
|---|---|---|
| Grids.GridOf | src/Life.Api/Domain/Board.cs:95-108 | The grid an array holds has the array's dimensions, and cell `[r][c]` is `a[r, c]`. |
| Grids.AliveNeighbours | src/Life.Api/Domain/Board.cs:110-129 | The count of live cells among the eight positions around a cell never exceeds 8. |
| Grids.Step | src/Life.Api/Domain/Board.cs:68-89 | One generation keeps the board's dimensions. |
| Grids.Rule | src/Life.Api/Domain/Board.cs:80-82 | Conway's four rules: under-population, survival with 2 or 3 neighbours, over-population, and birth exactly on 3. |
| Grids.StepAgainstConway | src/Life.Api/Domain/Board.cs:76-77 | On any board shape, the written cell (y, x) is the standard next state of cell (x, y) when that cell is on the board. Otherwise it is born exactly on 3 live neighbours. |
| Grids.ConwayStep | src/Life.Api/Domain/Board.cs:80-82 | The standard generation keeps the board's dimensions. |
| Grids.Transpose | src/Life.Api/Domain/Board.cs:76-77 | Transposing swaps the row and column counts. |
| Grids.Generations | src/Life.Api/Endpoints/GameEndpoints.cs:92-95 | n generations keep the board's dimensions. |
| Grids.NeighboursTranspose | src/Life.Api/Domain/Board.cs:110-129 | Transposing the board transposes every neighbour count. |
| Grids.ConwayCommutesWithTranspose | src/Life.Api/Domain/Board.cs:68-89 | The standard step commutes with transposition, on boards of any shape. |
| Grids.StepIsTransposedConway | src/Life.Api/Domain/Board.cs:76-77 | On a square board the update yields the transpose of the standard generation. |
| Grids.StepOffBoardCentre | src/Life.Api/Domain/Board.cs:134-135 | On a non-square board, a position whose rule centre lies off the board is alive next exactly when it has 3 live neighbours on the board. |
| Grids.StepKeepsAllDead | src/Life.Api/Domain/Board.cs:80-82 | No spontaneous generation: an all-dead board stays all-dead. |
| Grids.NeighboursAreLocal | src/Life.Api/Domain/Board.cs:110-129 | The count depends only on the eight surrounding positions. It ignores the centre and off-board positions. |
| Grids.GenerationsNext | src/Life.Api/Endpoints/GameEndpoints.cs:92-95 | n + 1 generations are one step after n generations. |
| Grids.FixedPointStays | src/Life.Api/Domain/Game.cs:56-78 | A fixed point of the step stays put for any number of generations. |
| Cells.Cell.constructor | src/Life.Domain/Cell.cs:12 | A new cell holds the given state. |
| Cells.Cell.SetState | src/Life.Domain/Cell.cs:24 | The cell holds the given state afterwards, whatever it held before. |
| Cells.SetStateTwice | src/Life.Domain/Cell.cs:24 | Setting the same state twice ends as setting it once does. |
| Boards.Board.Empty | src/Life.Api/Domain/Board.cs:17-22 | A board of the given size whose every slot holds no cell yet. |
| Boards.Board.constructor | src/Life.Api/Domain/Board.cs:28-41 | The board has the matrix's shape and holds a cell with the state of every entry, with no transformation of coordinates. |
| Boards.Board.SetCellState | src/Life.Api/Domain/Board.cs:49-62 | On the board: that cell takes the state, as a new cell if the slot was empty, and only that slot changes. Off the board: the state is unchanged. |
| Boards.Board.Update | src/Life.Api/Domain/Board.cs:68-89 | The new state is `Step` of the old one, computed into a separate buffer from the old board only. Every slot still holds a cell. |
| Boards.Board.GetBoardState | src/Life.Api/Domain/Board.cs:95-108 | A fresh array whose cells are the board's states. |
| Boards.Board.CountAliveNeighbors | src/Life.Api/Domain/Board.cs:110-129 | The loop over the eight offsets counts exactly `AliveNeighbours`. |
| Boards.Board.GetCellState | src/Life.Api/Domain/Board.cs:134-135 | A cell's state, dead when the position is off the board. |
| Boards.Board.IsValidPosition | src/Life.Api/Domain/Board.cs:131-132 | A position is valid exactly when it lies within the board's rows and columns. |
| Boards.Board.UpdateInternalBoard | src/Life.Api/Domain/Board.cs:137-147 | Every slot is replaced by the corresponding slot of the buffer. |
| Boards.NeighbourRowsComplete | src/Life.Api/Domain/Board.cs:114-126 | The loop's partial sums add up to the full neighbour count. |
| Boards.ReadBack | src/Life.Api/Domain/Board.cs:28-41 | A board built from a matrix reads back as the same matrix, in a freshly allocated array. |
| Games.Game.constructor | src/Life.Api/Domain/Game.cs:33-39 | Id, owner and current state are the arguments, and there is no previous state. The current state is the caller's array itself. The board holds the same states. |
| Games.Game.NextGeneration | src/Life.Api/Domain/Game.cs:44-50 | The previous state becomes the old current array, and the current state is a fresh array holding one `Step` later. Once final, the game stays final. |
| Games.Game.IsFinalState | src/Life.Api/Domain/Game.cs:56-78 | True exactly when there is a previous state and it equals the current one cell by cell. |
| Games.FinalStateIsFixedPoint | src/Life.Api/Domain/Game.cs:56-78 | In a final state the current board is a fixed point of the step. |
| Converters.WriteValue | src/Life.Api/Converters/BoolArray2DConverter.cs:32-47 | One inner array per row, in row order, each holding that row's values in column order. |
| Converters.ReadValue | src/Life.Api/Converters/BoolArray2DConverter.cs:6-30 | Errors: a non-array fails at the start, and an empty array fails. On success: as many rows as inner arrays, as many columns as the first inner array, and cell (i, j) is the j-th value of inner array i (false past a short row). |
| Converters.ReadSucceedsIff | src/Life.Api/Converters/BoolArray2DConverter.cs:12-27 | Reading succeeds exactly on a non-empty array whose every element is an array of booleans no longer than the first. |
| Converters.ReadRejectsLongerRow | src/Life.Api/Converters/BoolArray2DConverter.cs:15-23 | An inner array longer than the first makes reading fail. |
| Converters.ReadLongerRowOutOfRange | src/Life.Api/Converters/BoolArray2DConverter.cs:23 | When every element is an array of booleans, a longer inner array fails with an index out of range. |
| Converters.ReadWriteRoundTrip | src/Life.Api/Data/GameDbContext.cs:32-34 | Every board with at least one row, written as JSON, reads back as itself. |
| Converters.EmptyBoardDoesNotRoundTrip | src/Life.Api/Converters/BoolArray2DConverter.cs:13 | A board with no rows is written as `[]`, which reads back as an error. |
| Converters.ElementsErrorNone | src/Life.Api/Converters/BoolArray2DConverter.cs:21-25 | An inner array reads without error exactly when its elements are booleans within the first row's length. |
| Converters.RowsErrorNone | src/Life.Api/Converters/BoolArray2DConverter.cs:18-27 | The rows read without error exactly when every row fits. |
| Converters.Read | src/Life.Api/Converters/BoolArray2DConverter.cs:6-30 | The nested loops fail exactly when `ReadValue` does, with the same error. Otherwise they return a fresh array holding `ReadValue`'s grid. |
| Converters.Write | src/Life.Api/Converters/BoolArray2DConverter.cs:32-47 | The loops emit exactly `WriteValue` of the array. |
| GameEndpoints.GameStore.BoardOf | src/Life.Api/Data/GameDbContext.cs:32-34 | A stored board reads back as a rectangular grid with at least one row. |
| GameEndpoints.GameStore.constructor | src/Life.Api/Data/GameDbContext.cs:26-27 | The table starts empty. |
| GameEndpoints.GameStore.Find | src/Life.Api/Endpoints/GameEndpoints.cs:85-90 | An unknown id gives null. Otherwise: a new game with no previous state, the stored id and owner, and the stored board. |
| GameEndpoints.GameStore.Save | src/Life.Api/Endpoints/GameEndpoints.cs:97-98 | The game's row is replaced, owner kept, and no other row changes. Its board reads back as the game's current state. |
| GameEndpoints.Iterations | src/Life.Api/Endpoints/GameEndpoints.cs:92 | A request for `generation` runs that many steps, and none when it is not positive. |
| GameEndpoints.StartGame | src/Life.Api/Endpoints/GameEndpoints.cs:43-66 | BadRequest exactly when a dimension is 0 or exceeds the maximum board size, in which case nothing is stored. Otherwise: Ok with the new id, stored with its owner and board, and no other row changes. |
| GameEndpoints.StartRequest | src/Life.Api/Program.cs:16-20 | The start request reads its body through the converter first. A body that does not read gives the read error and stores nothing. A board that reads has at least one row and gets `StartGame`'s decision. |
| GameEndpoints.GetGeneration | src/Life.Api/Endpoints/GameEndpoints.cs:79-101 | An unknown id gives NotFound and changes nothing. Otherwise: the stored board after `Iterations(generation)` steps, which is also stored back. |
| GameEndpoints.GetNextGeneration | src/Life.Api/Endpoints/GameEndpoints.cs:70-74 | An unknown id gives NotFound. Otherwise: one `Step` of the stored board, stored back. |
| GameEndpoints.FirstFinal | src/Life.Api/Endpoints/GameEndpoints.cs:117-128 | The first generation within the attempts that leaves the board unchanged, and no earlier one does. None means no generation within the attempts does. |
| GameEndpoints.FinalIsStable | src/Life.Api/Domain/Game.cs:56-78 | Once a generation leaves the board unchanged, every later generation is that same board. |
| GameEndpoints.GenerationsAdd | src/Life.Api/Endpoints/GameEndpoints.cs:92-95 | n + m generations are m generations after the first n. |
| GameEndpoints.FirstFinalSkip | src/Life.Api/Endpoints/GameEndpoints.cs:117-128 | A generation that was not final can be skipped by the search. |
| GameEndpoints.GetFinalState | src/Life.Api/Endpoints/GameEndpoints.cs:106-134 | An unknown id gives NotFound. If no generation within `MaxNumberOfAttempts` is final: UnprocessableEntity, nothing stored. Otherwise: the board at the first final generation, stored back. |
| Scenarios.VerticalLineUnchanged | tests/Life.UnitTests/GameTests.cs:21-46 | The update keeps the vertical 3-cell line. The standard step would turn it horizontal. |
| Scenarios.HorizontalLineUnchanged | tests/Life.UnitTests/GameTests.cs:48-66 | The horizontal 3-cell line is a fixed point of the update. |
| Scenarios.LShapeChanges | tests/Life.UnitTests/GameTests.cs:68-86 | The L-shape changes in its first step. |
| Scenarios.DiagonalStep | tests/Life.IntegrationTests/GameApiTests.cs:139-172 | The diagonal becomes a single live centre cell. |
| Scenarios.CentreStep | tests/Life.IntegrationTests/GameApiTests.cs:139-172 | A single live cell dies. |
| Scenarios.DeadStep | tests/Life.IntegrationTests/GameApiTests.cs:153-158 | The all-dead board stays all-dead. |
| Scenarios.CheckerboardStep | tests/Life.IntegrationTests/GameApiTests.cs:208-233 | The 5 × 5 checkerboard becomes the ring (border without corners). |
| Scenarios.RingStep | tests/Life.IntegrationTests/GameApiTests.cs:208-233 | The ring becomes the cross. |
| Scenarios.CrossStep | tests/Life.IntegrationTests/GameApiTests.cs:208-233 | The cross becomes the ring again. |
| Scenarios.SingleCellBoard | src/Life.Api/Domain/Board.cs:110-129 | On a 1 × 1 board the only cell has no neighbours, so it is dead after one step. |
| Scenarios.BottomRowUnchanged | src/Life.Api/Domain/Board.cs:76-77 | On a 2 × 3 board the update keeps the bottom row. The standard step turns it into the middle column. |
| Scenarios.DiagonalGenerations | tests/Life.IntegrationTests/GameApiTests.cs:139-172 | From two generations on, the diagonal is all dead. |
| Scenarios.DiagonalFinal | tests/Life.IntegrationTests/GameApiTests.cs:174-206 | With at least 3 attempts, the search on the diagonal stops at generation 3, on the all-dead board. |
| Scenarios.CheckerboardAlternates | tests/Life.IntegrationTests/GameApiTests.cs:208-233 | From generation 1, the checkerboard alternates between ring (odd) and cross (even). |
| Scenarios.CheckerboardNeverFinal | tests/Life.IntegrationTests/GameApiTests.cs:208-233 | The checkerboard has no final state within any number of attempts. |
| Scenarios.VerticalLineNextGeneration | tests/Life.UnitTests/GameTests.cs:21-46 | A game on the vertical line holds the same line after one generation. |
| Scenarios.HorizontalLineIsFinal | tests/Life.UnitTests/GameTests.cs:48-66 | A game on the horizontal line is final after one generation. |
| Scenarios.LShapeIsNotFinal | tests/Life.UnitTests/GameTests.cs:68-86 | A game on the L-shape is not final after one generation. |
| Scenarios.StartWithDefaultSettings | src/Life.Api/Endpoints/GameEndpoints.cs:49-58 | Given the decoded boards, the endpoint's size check with the default maximum of 100 refuses 101 × 99, 100 × 101 and 0 × 0, and accepts 5 × 5. |
| Scenarios.UploadWithDefaultSettings | tests/Life.IntegrationTests/GameApiTests.cs:39-87 | Uploaded as the converter writes them, the 101 × 99 and 100 × 101 boards are refused by the size check. The 0 × 0 board, written `[]`, fails to read. 5 × 5 is accepted. |
| Scenarios.UploadEmptyRow | src/Life.Api/Endpoints/GameEndpoints.cs:52 | A body `[[]]` reads as a 1 × 0 board and is refused by the zero-columns test. |
| Scenarios.NextOfUnknownGame | tests/Life.IntegrationTests/GameApiTests.cs:125-137 | The next generation of a game never started is NotFound. |
| Scenarios.NextOfVerticalLine | tests/Life.IntegrationTests/GameApiTests.cs:89-123 | The next-generation endpoint returns the stored vertical line unchanged. |
| Scenarios.DiagonalAfterFive | tests/Life.IntegrationTests/GameApiTests.cs:139-172 | Five generations of the stored diagonal give the all-dead board. |
| Scenarios.DiagonalFinalState | tests/Life.IntegrationTests/GameApiTests.cs:174-206 | With at least 3 attempts, the final state of the stored diagonal is the all-dead board. |
| Scenarios.CheckerboardFinalState | tests/Life.IntegrationTests/GameApiTests.cs:208-233 | The stored checkerboard yields UnprocessableEntity whatever the settings. |

## Left out

- Asynchrony, cancellation tokens, HTTP routing and status-code mapping, and the response problem details with their message texts. The start endpoint's message hard-codes 100x100 whatever the configured maximum; only the status is modelled.
- Authentication and identity. The owner's id is a parameter of `StartGame`.
- `Guid.NewGuid()` is a parameter `id` of `StartGame`, required not to be in use. Fresh identifiers are not modelled.
- The database is a map from game id to a row holding the owner and the board as JSON. Entity Framework's change tracking, its identity cache (a `FindAsync` that returns an already-tracked game) and concurrent requests are not modelled. Every lookup reads the stored JSON and builds a new `Game`.
- The HTTP status the host gives a body that fails to read is not modelled; `StartRequest` returns the read error instead.
- JSON tokenisation and text. The converter starts from a tokenised value (`Json`). Reading fails at the value as a whole rather than mid-stream, and the exception types become `ReadError` values.
- Configuration files (`appsettings`) are not part of this model. The settings are a parameter, and `DefaultSettings` holds the class's defaults.
- `Cell`'s private setter is not modelled as such: only the constructor and `SetState` assign it. The board stores each cell's state in its slot, because no two slots share a `Cell` object.
- Negative dimensions cannot arise from a `bool[,]`. Dimensions are `nat`.
- Boards.Board.Empty: its parameters are `nat`, so the negative sizes on which the source's `new Cell[rows, columns]` throws cannot be passed and that exception is not modelled; nothing in the repository calls this constructor.
- `Games.Game.IsFinalState`: it requires only that the previous state has the current state's shape, not the full game invariant. Every game the model builds satisfies that invariant.
- `src/Life.Api/Controllers/GameController.cs` is not part of this model. The endpoint methods model the same operations.
- Integer widths:
  - The owner id and the request counts are 32-bit (`int32`). The loop counters stay below the bound they are compared with, so they never overflow.
  - Board dimensions are unbounded naturals. The runtime's array-size limit is not modelled.
