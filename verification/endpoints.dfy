/**
 * The decision logic of the game endpoints: start a game, advance it by N generations,
 * and search for a final state within a bounded number of attempts.
 *
 * The games table is modelled by `GameStore`: a map from game id to the stored row, whose
 * board column holds the JSON the converter writes. Looking a game up reads the JSON back
 * and builds a new `Game` through its constructor; saving writes the current board back.
 */
module GameEndpoints {
  import opened Wrappers
  import opened Grids
  import opened Converters
  import opened Games

  datatype GameSettings = GameSettings(maxBoardSize: int32, maxNumberOfAttempts: int32)

  /** The settings' defaults: boards up to 100 × 100 and no attempts at a final state. */
  const DefaultSettings := GameSettings(100, 0)

  datatype Response<T> = Ok(value: T) | BadRequest | NotFound | UnprocessableEntity

  /** A stored game: its owner and its board as JSON. */
  datatype GameRow = GameRow(playerId: int32, board: Json)

  class GameStore {
    var games: map<Guid, GameRow>

    /** Every stored board reads back as a grid. */
    ghost predicate Valid()
      reads this
    {
      forall id | id in games :: ReadValue(games[id].board).Success?
    }

    ghost function BoardOf(id: Guid): (g: Grid)
      reads this
      requires Valid() && id in games
      ensures g.Valid() && 0 < g.rows
    {
      ReadValue(games[id].board).value
    }

    constructor ()
      ensures Valid() && games == map[]
    {
      games := map[];
    }

    /** The stored game with this id as a new `Game` with no previous state, or null. */
    method Find(id: Guid) returns (game: Game?)
      requires Valid()
      ensures id !in games ==> game == null
      ensures id in games ==>
                game != null && fresh(game) && fresh(game.board) && fresh(game.board.cells) &&
                game.Valid() && game.previousState == null &&
                game.id == id && game.playerId == games[id].playerId && GridOf(game.rawBoard) == BoardOf(id)
    {
      if id !in games {
        return null;
      }
      var row := games[id];
      var read := Read(row.board);
      game := new Game(id, row.playerId, read.value);
    }

    /** Stores the game under its id, replacing any row stored there before. */
    method Save(game: Game)
      requires Valid() && 0 < game.rawBoard.Length0
      modifies this
      ensures Valid() && game.id in games
      ensures games == old(games)[game.id := GameRow(game.playerId, games[game.id].board)]
      ensures BoardOf(game.id) == GridOf(game.rawBoard)
    {
      var json := Write(game.rawBoard);
      ReadWriteRoundTrip(GridOf(game.rawBoard));
      games := games[game.id := GameRow(game.playerId, json)];
    }
  }

  /** The start request is refused: a dimension is zero or exceeds the maximum board size. */
  predicate InvalidSize(rows: nat, columns: nat, maxBoardSize: int) {
    rows == 0 || rows > maxBoardSize || columns == 0 || columns > maxBoardSize
  }

  /** The number of generations a request for `generation` computes: none when it is not positive. */
  function Iterations(generation: int32): (n: nat)
    ensures n as int == if generation <= 0 then 0 else generation as int
  {
    if generation <= 0 then 0 else generation as nat
  }

  /**
   * Starts a game on `board` under the new identifier `id` (standing for a freshly generated
   * one) and stores it; a board of invalid size is refused and nothing is stored.
   */
  method StartGame(store: GameStore, settings: GameSettings, board: array2<bool>, id: Guid, playerId: int32)
    returns (result: Response<Guid>)
    requires store.Valid() && id !in store.games
    modifies store
    ensures store.Valid()
    ensures InvalidSize(board.Length0, board.Length1, settings.maxBoardSize as int) ==>
              result == BadRequest && store.games == old(store.games)
    ensures !InvalidSize(board.Length0, board.Length1, settings.maxBoardSize as int) ==>
              result == Ok(id) && id in store.games &&
              store.games == old(store.games)[id := store.games[id]] &&
              store.games[id].playerId == playerId && store.BoardOf(id) == GridOf(board)
  {
    var rows := board.Length0;
    var columns := board.Length1;
    if rows == 0 || rows > settings.maxBoardSize as int || columns == 0 || columns > settings.maxBoardSize as int {
      return BadRequest;
    }
    var game := new Game(id, playerId, board);
    store.Save(game);
    return Ok(game.id);
  }

  /**
   * The start request as the host serves it: the body is read into a board by the converter
   * before the endpoint runs, and a body that does not read never reaches the endpoint.
   * A board that reads has at least one row, so the endpoint's zero-rows test never holds here.
   */
  method StartRequest(store: GameStore, settings: GameSettings, body: Json, id: Guid, playerId: int32)
    returns (result: Result<Response<Guid>, ReadError>)
    requires store.Valid() && id !in store.games
    modifies store
    ensures store.Valid()
    ensures ReadValue(body).Failure? ==> result == Failure(ReadValue(body).error) && store.games == old(store.games)
    ensures ReadValue(body).Success? ==>
              var board := ReadValue(body).value;
              0 < board.rows && result.Success? &&
              (InvalidSize(board.rows, board.columns, settings.maxBoardSize as int) ==>
                 result.value == BadRequest && store.games == old(store.games)) &&
              (!InvalidSize(board.rows, board.columns, settings.maxBoardSize as int) ==>
                 result.value == Ok(id) && id in store.games &&
                 store.games == old(store.games)[id := store.games[id]] &&
                 store.games[id].playerId == playerId && store.BoardOf(id) == board)
  {
    var read := Read(body);
    if read.Failure? {
      return Failure(read.error);
    }
    var response := StartGame(store, settings, read.value, id, playerId);
    return Success(response);
  }

  /**
   * Advances the stored game `generation` times (not at all when `generation` is not positive),
   * stores and returns the resulting board; an unknown id yields NotFound and changes nothing.
   */
  method GetGeneration(store: GameStore, id: Guid, generation: int32) returns (result: Response<array2<bool>>)
    requires store.Valid()
    modifies store
    ensures store.Valid()
    ensures id !in old(store.games) ==> result == NotFound && store.games == old(store.games)
    ensures id in old(store.games) ==>
              result.Ok? && id in store.games &&
              GridOf(result.value) == Generations(old(store.BoardOf(id)), Iterations(generation)) &&
              store.BoardOf(id) == GridOf(result.value) &&
              store.games == old(store.games)[id := GameRow(old(store.games[id].playerId), store.games[id].board)]
  {
    var game := store.Find(id);
    if game == null {
      return NotFound;
    }
    ghost var start := GridOf(game.rawBoard);
    var i: int32 := 0;
    while i < generation
      invariant 0 <= i as int <= Iterations(generation)
      invariant game.Valid() && GridOf(game.rawBoard) == Generations(start, i as nat)
      modifies game, game.board, game.board.cells
    {
      game.NextGeneration();
      GenerationsNext(start, i as nat);
      i := i + 1;
    }
    store.Save(game);
    return Ok(game.rawBoard);
  }

  /** GetGeneration for one generation: the stored board after one step. */
  method GetNextGeneration(store: GameStore, id: Guid) returns (result: Response<array2<bool>>)
    requires store.Valid()
    modifies store
    ensures store.Valid()
    ensures id !in old(store.games) ==> result == NotFound && store.games == old(store.games)
    ensures id in old(store.games) ==>
              result.Ok? && id in store.games &&
              GridOf(result.value) == Step(old(store.BoardOf(id))) &&
              store.BoardOf(id) == GridOf(result.value) &&
              store.games == old(store.games)[id := GameRow(old(store.games[id].playerId), store.games[id].board)]
  {
    result := GetGeneration(store, id, 1);
  }

  // ---------------------------------------------------------------------------------------
  // The final-state search

  /** The game is final after generation j: the board did not change in the j-th step. */
  predicate IsFinalAt(g: Grid, j: nat)
    requires g.Valid() && 1 <= j
  {
    Generations(g, j) == Generations(g, j - 1)
  }

  /** The first generation j with from < j <= attempts at which the game is final, if any. */
  function FirstFinal(g: Grid, from: nat, attempts: nat): (r: Option<nat>)
    requires g.Valid()
    ensures r.Some? ==>
              from < r.value <= attempts && IsFinalAt(g, r.value) &&
              forall j | from < j < r.value :: !IsFinalAt(g, j)
    ensures r.None? ==> forall j | from < j <= attempts :: !IsFinalAt(g, j)
    decreases attempts - from
  {
    if from >= attempts then None
    else if IsFinalAt(g, from + 1) then Some(from + 1)
    else FirstFinal(g, from + 1, attempts)
  }

  /** Once final, the board stays the same for every later generation. */
  lemma {:induction false} FinalIsStable(g: Grid, j: nat, m: nat)
    requires g.Valid() && 1 <= j && IsFinalAt(g, j)
    ensures Generations(g, j + m) == Generations(g, j)
  {
    var h := Generations(g, j - 1);
    GenerationsNext(g, j - 1);
    assert Step(h) == h;
    FixedPointStays(h, m + 1);
    GenerationsAdd(g, j - 1, m + 1);
  }

  /** n + m generations are m generations after the first n. */
  lemma {:induction false} GenerationsAdd(g: Grid, n: nat, m: nat)
    requires g.Valid()
    ensures Generations(g, n + m) == Generations(Generations(g, n), m)
    decreases n
  {
    if n > 0 {
      GenerationsAdd(Step(g), n - 1, m);
    }
  }

  /** Searching from a point where the last step was already tried gives the same answer. */
  lemma {:induction false} FirstFinalSkip(g: Grid, from: nat, attempts: nat)
    requires g.Valid() && from < attempts && !IsFinalAt(g, from + 1)
    ensures FirstFinal(g, from, attempts) == FirstFinal(g, from + 1, attempts)
  {
  }

  /**
   * Runs up to `MaxNumberOfAttempts` generations of the stored game and returns the board as
   * soon as one leaves it unchanged, storing the game; if none does, UnprocessableEntity is
   * returned and nothing is stored. An unknown id yields NotFound.
   */
  method GetFinalState(store: GameStore, settings: GameSettings, id: Guid) returns (result: Response<array2<bool>>)
    requires store.Valid()
    modifies store
    ensures store.Valid()
    ensures id !in old(store.games) ==> result == NotFound && store.games == old(store.games)
    ensures id in old(store.games) ==>
              var found := FirstFinal(old(store.BoardOf(id)), 0, Iterations(settings.maxNumberOfAttempts));
              (found.None? ==> result == UnprocessableEntity && store.games == old(store.games)) &&
              (found.Some? ==>
                 result.Ok? && id in store.games &&
                 GridOf(result.value) == Generations(old(store.BoardOf(id)), found.value) &&
                 store.BoardOf(id) == GridOf(result.value) &&
                 store.games == old(store.games)[id := GameRow(old(store.games[id].playerId), store.games[id].board)])
  {
    var game := store.Find(id);
    if game == null {
      return NotFound;
    }
    ghost var start := GridOf(game.rawBoard);
    ghost var attempts := Iterations(settings.maxNumberOfAttempts);
    var i: int32 := 0;
    while i < settings.maxNumberOfAttempts
      invariant 0 <= i as int <= attempts
      invariant game.Valid() && GridOf(game.rawBoard) == Generations(start, i as nat)
      invariant FirstFinal(start, 0, attempts) == FirstFinal(start, i as nat, attempts)
      invariant store.games == old(store.games)
      modifies game, game.board, game.board.cells, store
    {
      game.NextGeneration();
      GenerationsNext(start, i as nat);
      var final := game.IsFinalState();
      if final {
        store.Save(game);
        return Ok(game.rawBoard);
      }
      FirstFinalSkip(start, i as nat, attempts);
      i := i + 1;
    }
    return UnprocessableEntity;
  }
}
