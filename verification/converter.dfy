/**
 * The JSON form of a `bool[,]`: an array of rows, each an array of booleans.
 *
 * The model starts from an already-tokenised JSON value; reading fails the way the
 * JSON document and the array store do, in the order the nested loops meet the failures.
 */
module Converters {
  import opened Wrappers
  import opened Grids

  /** A tokenised JSON value: an array, a boolean, or anything else. */
  datatype Json = JArray(items: seq<Json>) | JBool(value: bool) | JOther

  datatype ReadError =
    | ExpectedStartArray  // the value does not start with an array
    | EmptyArray          // the outer array has no first element
    | NotAnArray          // an element of the outer array is not an array
    | NotABoolean         // an element of an inner array is not a boolean
    | IndexOutOfRange     // an inner array is longer than the first one

  // ---------------------------------------------------------------------------------------
  // Writing

  function WriteRow(g: Grid, r: nat): Json
    requires g.Valid() && r < g.rows
  {
    JArray(seq(g.columns, c requires 0 <= c < g.columns => JBool(g.cells[r][c])))
  }

  /** One inner array per row, in row order, each holding the row's values in column order. */
  function WriteValue(g: Grid): (j: Json)
    requires g.Valid()
    ensures j.JArray? && |j.items| == g.rows
    ensures forall r | 0 <= r < g.rows ::
              j.items[r].JArray? && |j.items[r].items| == g.columns &&
              forall c | 0 <= c < g.columns :: j.items[r].items[c] == JBool(g.cells[r][c])
  {
    JArray(seq(g.rows, r requires 0 <= r < g.rows => WriteRow(g, r)))
  }

  // ---------------------------------------------------------------------------------------
  // Reading

  /**
   * The first failure among the first n elements of an inner array whose grid row has
   * `columns` cells: a non-boolean, or a boolean with no cell to go into.
   */
  function ElementsError(elements: seq<Json>, columns: nat, n: nat): Option<ReadError>
    requires n <= |elements|
  {
    if n == 0 then None
    else if ElementsError(elements, columns, n - 1).Some? then ElementsError(elements, columns, n - 1)
    else if !elements[n - 1].JBool? then Some(NotABoolean)
    else if n - 1 >= columns then Some(IndexOutOfRange)
    else None
  }

  /** The first failure among the first n rows, each read in full before the next. */
  function RowsError(rows: seq<Json>, columns: nat, n: nat): Option<ReadError>
    requires n <= |rows|
  {
    if n == 0 then None
    else if RowsError(rows, columns, n - 1).Some? then RowsError(rows, columns, n - 1)
    else if !rows[n - 1].JArray? then Some(NotAnArray)
    else ElementsError(rows[n - 1].items, columns, |rows[n - 1].items|)
  }

  /** The value read into cell (i, j): the j-th boolean of the i-th row; cells past a short row stay false. */
  predicate Entry(rows: seq<Json>, i: nat, j: nat)
    requires i < |rows|
  {
    rows[i].JArray? && j < |rows[i].items| && rows[i].items[j] == JBool(true)
  }

  /**
   * The grid a JSON value reads as: as many rows as inner arrays, as many columns as the first
   * inner array, cell (i, j) the j-th value of the i-th inner array.
   */
  function ReadValue(json: Json): (r: Result<Grid, ReadError>)
    ensures !json.JArray? ==> r == Failure(ExpectedStartArray)
    ensures json.JArray? && |json.items| == 0 ==> r == Failure(EmptyArray)
    ensures r.Success? ==>
              json.JArray? && 0 < |json.items| && json.items[0].JArray? &&
              r.value.Valid() && r.value.rows == |json.items| && r.value.columns == |json.items[0].items| &&
              forall i, j | 0 <= i < r.value.rows && 0 <= j < r.value.columns ::
                r.value.cells[i][j] == Entry(json.items, i, j)
  {
    if !json.JArray? then Failure(ExpectedStartArray)
    else if |json.items| == 0 then Failure(EmptyArray)
    else if !json.items[0].JArray? then Failure(NotAnArray)
    else
      var rows := |json.items|;
      var columns := |json.items[0].items|;
      match RowsError(json.items, columns, rows)
      case Some(e) => Failure(e)
      case None =>
        Success(Grid(rows, columns,
                     seq(rows, i requires 0 <= i < rows =>
                           seq(columns, j requires 0 <= j => Entry(json.items, i, j)))))
  }

  // ---------------------------------------------------------------------------------------
  // Properties of reading and writing

  /** An inner array of booleans no longer than `columns`. */
  predicate RowFits(row: Json, columns: nat) {
    row.JArray? && |row.items| <= columns && forall k | 0 <= k < |row.items| :: row.items[k].JBool?
  }

  lemma {:induction false} ElementsErrorNone(elements: seq<Json>, columns: nat, n: nat)
    requires n <= |elements|
    ensures ElementsError(elements, columns, n) == None <==>
              forall k | 0 <= k < n :: elements[k].JBool? && k < columns
    decreases n
  {
    if n > 0 {
      ElementsErrorNone(elements, columns, n - 1);
    }
  }

  lemma {:induction false} RowsErrorNone(rows: seq<Json>, columns: nat, n: nat)
    requires n <= |rows|
    ensures RowsError(rows, columns, n) == None <==> forall i | 0 <= i < n :: RowFits(rows[i], columns)
    decreases n
  {
    if n > 0 {
      RowsErrorNone(rows, columns, n - 1);
      if rows[n - 1].JArray? {
        ElementsErrorNone(rows[n - 1].items, columns, |rows[n - 1].items|);
      }
    }
  }

  /** A failure among the first n elements is the failure of the whole prefix up to any m >= n. */
  lemma {:induction false} ElementsErrorSticks(elements: seq<Json>, columns: nat, n: nat, m: nat)
    requires n <= m <= |elements| && ElementsError(elements, columns, n).Some?
    ensures ElementsError(elements, columns, m) == ElementsError(elements, columns, n)
    decreases m - n
  {
    if n < m {
      ElementsErrorSticks(elements, columns, n, m - 1);
    }
  }

  lemma {:induction false} RowsErrorSticks(rows: seq<Json>, columns: nat, n: nat, m: nat)
    requires n <= m <= |rows| && RowsError(rows, columns, n).Some?
    ensures RowsError(rows, columns, m) == RowsError(rows, columns, n)
    decreases m - n
  {
    if n < m {
      RowsErrorSticks(rows, columns, n, m - 1);
    }
  }

  /**
   * Reading succeeds exactly on a non-empty array whose every element is an array of
   * booleans no longer than the first.
   */
  lemma {:induction false} ReadSucceedsIff(json: Json)
    ensures ReadValue(json).Success? <==>
              json.JArray? && 0 < |json.items| && json.items[0].JArray? &&
              forall i | 0 <= i < |json.items| :: RowFits(json.items[i], |json.items[0].items|)
  {
    if json.JArray? && 0 < |json.items| && json.items[0].JArray? {
      RowsErrorNone(json.items, |json.items[0].items|, |json.items|);
    }
  }

  /** An inner array longer than the first overruns the grid: reading fails. */
  lemma {:induction false} ReadRejectsLongerRow(json: Json, i: nat)
    requires json.JArray? && i < |json.items| && json.items[0].JArray?
    requires json.items[i].JArray? && |json.items[i].items| > |json.items[0].items|
    ensures ReadValue(json).Failure?
  {
    ReadSucceedsIff(json);
  }

  /**
   * When every element is an array of booleans, a longer inner array fails with an index
   * out of range.
   */
  lemma {:induction false} ReadLongerRowOutOfRange(json: Json, i: nat)
    requires json.JArray? && i < |json.items|
    requires forall k | 0 <= k < |json.items| ::
               json.items[k].JArray? && forall e | 0 <= e < |json.items[k].items| :: json.items[k].items[e].JBool?
    requires |json.items[i].items| > |json.items[0].items|
    ensures ReadValue(json) == Failure(IndexOutOfRange)
  {
    var columns := |json.items[0].items|;
    var rows := json.items;
    RowsErrorNone(rows, columns, |rows|);
    assert RowsError(rows, columns, |rows|).Some?;
    BooleanRowsFailOutOfRange(rows, columns, |rows|);
  }

  lemma {:induction false} BooleanRowsFailOutOfRange(rows: seq<Json>, columns: nat, n: nat)
    requires n <= |rows|
    requires forall k | 0 <= k < |rows| ::
               rows[k].JArray? && forall e | 0 <= e < |rows[k].items| :: rows[k].items[e].JBool?
    ensures RowsError(rows, columns, n) == None || RowsError(rows, columns, n) == Some(IndexOutOfRange)
    decreases n
  {
    if n > 0 {
      BooleanRowsFailOutOfRange(rows, columns, n - 1);
      BooleanElementsFailOutOfRange(rows[n - 1].items, columns, |rows[n - 1].items|);
    }
  }

  lemma {:induction false} BooleanElementsFailOutOfRange(elements: seq<Json>, columns: nat, n: nat)
    requires n <= |elements|
    requires forall e | 0 <= e < |elements| :: elements[e].JBool?
    ensures ElementsError(elements, columns, n) == None || ElementsError(elements, columns, n) == Some(IndexOutOfRange)
    decreases n
  {
    if n > 0 {
      BooleanElementsFailOutOfRange(elements, columns, n - 1);
    }
  }

  /** Every grid with at least one row reads back as itself. */
  lemma {:induction false} ReadWriteRoundTrip(g: Grid)
    requires g.Valid() && 0 < g.rows
    ensures ReadValue(WriteValue(g)) == Success(g)
  {
    var json := WriteValue(g);
    RowsErrorNone(json.items, g.columns, g.rows);
    var h := ReadValue(json).value;
    GridExt(h, g);
  }

  /** A board with no rows is written as `[]`, which cannot be read back. */
  lemma EmptyBoardDoesNotRoundTrip(g: Grid)
    requires g.Valid() && g.rows == 0
    ensures ReadValue(WriteValue(g)) == Failure(EmptyArray)
  {
  }

  // ---------------------------------------------------------------------------------------
  // The converter's two operations

  /** Fills a fresh grid from the JSON value, row by row, failing at the first bad element. */
  method Read(json: Json) returns (result: Result<array2<bool>, ReadError>)
    ensures ReadValue(json).Failure? <==> result.Failure?
    ensures result.Failure? ==> result.error == ReadValue(json).error
    ensures result.Success? ==> fresh(result.value) && GridOf(result.value) == ReadValue(json).value
  {
    if !json.JArray? {
      return Failure(ExpectedStartArray);
    }
    if |json.items| == 0 {
      return Failure(EmptyArray);
    }
    if !json.items[0].JArray? {
      return Failure(NotAnArray);
    }
    var rows := json.items;
    var dim1Length := |rows|;
    var dim2Length := |rows[0].items|;
    var grid := new bool[dim1Length, dim2Length]((r, c) => false);
    for i := 0 to dim1Length
      invariant RowsError(rows, dim2Length, i) == None
      invariant forall r, c | 0 <= r < dim1Length && 0 <= c < dim2Length ::
                  grid[r, c] == (r < i && Entry(rows, r, c))
    {
      if !rows[i].JArray? {
        RowsErrorSticks(rows, dim2Length, i + 1, dim1Length);
        return Failure(NotAnArray);
      }
      var elements := rows[i].items;
      for j := 0 to |elements|
        invariant ElementsError(elements, dim2Length, j) == None
        invariant forall r, c | 0 <= r < dim1Length && 0 <= c < dim2Length ::
                    grid[r, c] == ((r < i || (r == i && c < j)) && Entry(rows, r, c))
      {
        if !elements[j].JBool? {
          ElementsErrorSticks(elements, dim2Length, j + 1, |elements|);
          RowsErrorSticks(rows, dim2Length, i + 1, dim1Length);
          return Failure(NotABoolean);
        }
        if j >= dim2Length {
          ElementsErrorSticks(elements, dim2Length, j + 1, |elements|);
          RowsErrorSticks(rows, dim2Length, i + 1, dim1Length);
          return Failure(IndexOutOfRange);
        }
        grid[i, j] := elements[j].value;
      }
    }
    GridExt(GridOf(grid), ReadValue(json).value);
    return Success(grid);
  }

  /** Emits one inner array per row of `value`, in row order and column order. */
  method Write(value: array2<bool>) returns (json: Json)
    ensures json == WriteValue(GridOf(value))
  {
    var rows: seq<Json> := [];
    for i := 0 to value.Length0
      invariant |rows| == i
      invariant forall r | 0 <= r < i :: rows[r] == WriteRow(GridOf(value), r)
    {
      var row: seq<Json> := [];
      for j := 0 to value.Length1
        invariant |row| == j
        invariant forall c | 0 <= c < j :: row[c] == JBool(value[i, c])
      {
        row := row + [JBool(value[i, j])];
      }
      assert JArray(row) == WriteRow(GridOf(value), i);
      rows := rows + [JArray(row)];
    }
    json := JArray(rows);
    assert json.items == WriteValue(GridOf(value)).items;
  }
}
