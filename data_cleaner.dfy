/**
 * Cleaning and filtering of the player table (`DataCleaner`): column checks,
 * range and percentage validation, the minutes and games filters, missing
 * values and duplicate rows.
 */
module DataCleaner {
  import opened Frames

  // ------------------------------------------------------- required columns

  /** The required columns the table lacks, in the order they were required. */
  function MissingColumns(columns: set<string>, required: seq<string>): (r: seq<string>)
    ensures forall c :: c in r <==> c in required && c !in columns
  {
    Where(required, c => c !in columns)
  }

  /**
   * `validate_required_columns`: `true` when every required column exists,
   * otherwise the error listing the missing ones.
   */
  function ValidateRequiredColumns(f: Frame, required: seq<string>): (r: Result<bool, seq<string>>)
    ensures r.Success? <==> forall k :: 0 <= k < |required| ==> required[k] in f.columns
    ensures r.Success? ==> r.value
    ensures r.Failure? ==> |r.error| > 0 && forall c :: c in r.error <==> c in required && c !in f.columns
    ensures r.Failure? ==> r.error == MissingColumns(f.columns, required)
  {
    var missing := MissingColumns(f.columns, required);
    if |missing| > 0 then
      assert missing[0] in required && missing[0] !in f.columns;
      Failure(missing)
    else Success(true)
  }

  /** Checking two lists of requirements reports the missing columns of each, in turn. */
  lemma MissingColumnsAppend(columns: set<string>, a: seq<string>, b: seq<string>)
    ensures MissingColumns(columns, a + b) == MissingColumns(columns, a) + MissingColumns(columns, b)
  {
    WhereAppend(a, b, c => c !in columns);
  }

  // ---------------------------------------------------------- numeric ranges

  /** The optional bounds `{'min': …, 'max': …}` of one column. */
  datatype Bounds = Bounds(min: Option<real>, max: Option<real>)

  /** `v >= m` in pandas: false for a missing value. */
  predicate AtLeast(c: Cell, m: real) {
    c.Num? && c.x >= m
  }

  /** `v <= m` in pandas: false for a missing value. */
  predicate AtMost(c: Cell, m: real) {
    c.Num? && c.x <= m
  }

  predicate WithinBounds(c: Cell, b: Bounds) {
    (b.min.Some? ==> AtLeast(c, b.min.value)) && (b.max.Some? ==> AtMost(c, b.max.value))
  }

  /** A row meets every bound whose column the table has. */
  predicate WithinRanges(row: Row, validations: seq<(string, Bounds)>, columns: set<string>) {
    forall k :: 0 <= k < |validations| && validations[k].0 in columns ==>
      WithinBounds(Get(row, validations[k].0), validations[k].1)
  }

  /** The row mask of a whole validation dictionary. */
  function RangesMask(validations: seq<(string, Bounds)>, columns: set<string>): Row -> bool {
    row => WithinRanges(row, validations, columns)
  }

  /** The row mask of one entry: no constraint when the table lacks its column. */
  function EntryMask(col: string, b: Bounds, columns: set<string>): Row -> bool {
    row => col in columns ==> WithinBounds(Get(row, col), b)
  }

  function MinMask(col: string, m: real): Row -> bool {
    row => AtLeast(Get(row, col), m)
  }

  function MaxMask(col: string, m: real): Row -> bool {
    row => AtMost(Get(row, col), m)
  }

  /** The table keeping, in order, the rows within every applicable bound. */
  function RangeValidated(f: Frame, validations: seq<(string, Bounds)>): (r: Frame)
    ensures r.columns == f.columns
    ensures forall row :: row in r.rows <==> row in f.rows && WithinRanges(row, validations, f.columns)
  {
    Frame(f.columns, Where(f.rows, RangesMask(validations, f.columns)))
  }

  /**
   * The validation keeps the order of the rows (validating two stacked tables
   * stacks their validated rows) and keeps each accepted row as often as it occurs.
   */
  lemma RangeValidatedOrder(columns: set<string>, a: seq<Row>, b: seq<Row>, validations: seq<(string, Bounds)>)
    ensures RangeValidated(Frame(columns, a + b), validations).rows
         == RangeValidated(Frame(columns, a), validations).rows + RangeValidated(Frame(columns, b), validations).rows
    ensures forall row ::
      multiset(RangeValidated(Frame(columns, a), validations).rows)[row] == if WithinRanges(row, validations, columns) then multiset(a)[row] else 0
  {
    WhereAppend(a, b, RangesMask(validations, columns));
    WhereCount(a, RangesMask(validations, columns));
  }

  /** One more validation entry is one more selection by that entry alone. */
  lemma RangeValidatedStep(f: Frame, validations: seq<(string, Bounds)>, col: string, b: Bounds)
    ensures RangeValidated(f, validations + [(col, b)]).rows
         == Where(RangeValidated(f, validations).rows, EntryMask(col, b, f.columns))
  {
    var vs := validations + [(col, b)];
    forall row
      ensures RangesMask(vs, f.columns)(row)
           == (RangesMask(validations, f.columns)(row) && EntryMask(col, b, f.columns)(row))
    {
      assert vs[|validations|] == (col, b);
      assert forall k :: 0 <= k < |validations| ==> vs[k] == validations[k];
    }
    WhereWhere(f.rows, RangesMask(validations, f.columns), EntryMask(col, b, f.columns), RangesMask(vs, f.columns));
  }

  /** The filters of one validation entry on a column the table has: the minimum, then the maximum. */
  method KeepWithinBounds(rows: seq<Row>, col: string, ranges: Bounds, ghost columns: set<string>) returns (kept: seq<Row>)
    requires col in columns
    ensures kept == Where(rows, EntryMask(col, ranges, columns))
  {
    kept := rows;
    if ranges.min.Some? {
      kept := Where(kept, MinMask(col, ranges.min.value));
    }
    ghost var middle := kept;
    if ranges.max.Some? {
      kept := Where(kept, MaxMask(col, ranges.max.value));
    }
    MinThenMax(rows, middle, kept, col, ranges, columns);
  }

  /**
   * `validate_numeric_ranges`: for each listed column the table has, drops
   * the rows below its minimum, then those above its maximum.
   */
  method ValidateNumericRanges(f: Frame, validations: seq<(string, Bounds)>) returns (r: Frame)
    ensures r == RangeValidated(f, validations)
  {
    r := f;
    WhereKeepsAll(f.rows, RangesMask([], f.columns));
    assert validations[..0] == [];
    for k := 0 to |validations|
      invariant r == RangeValidated(f, validations[..k])
    {
      var col, ranges := validations[k].0, validations[k].1;
      assert validations[..k + 1] == validations[..k] + [(col, ranges)];
      RangeValidatedStep(f, validations[..k], col, ranges);
      if col in r.columns {
        var kept := KeepWithinBounds(r.rows, col, ranges, f.columns);
        r := Frame(r.columns, kept);
      } else {
        WhereKeepsAll(r.rows, EntryMask(col, ranges, f.columns));
      }
    }
    assert validations[..|validations|] == validations;
  }

  /** The minimum filter followed by the maximum filter is the selection by the whole entry. */
  lemma MinThenMax(s: seq<Row>, middle: seq<Row>, t: seq<Row>, col: string, b: Bounds, columns: set<string>)
    requires col in columns
    requires middle == if b.min.Some? then Where(s, MinMask(col, b.min.value)) else s
    requires t == if b.max.Some? then Where(middle, MaxMask(col, b.max.value)) else middle
    ensures t == Where(s, EntryMask(col, b, columns))
  {
    var both := EntryMask(col, b, columns);
    if b.min.Some? && b.max.Some? {
      WhereWhere(s, MinMask(col, b.min.value), MaxMask(col, b.max.value), both);
    } else if b.min.Some? {
      WhereCongruent(s, MinMask(col, b.min.value), both);
    } else if b.max.Some? {
      WhereCongruent(s, MaxMask(col, b.max.value), both);
    } else {
      WhereKeepsAll(s, both);
    }
  }

  /** Validating a validated table changes nothing. */
  lemma RangeValidatedIdempotent(f: Frame, validations: seq<(string, Bounds)>)
    ensures RangeValidated(RangeValidated(f, validations), validations) == RangeValidated(f, validations)
  {
    var g := RangeValidated(f, validations);
    WhereKeepsAll(g.rows, RangesMask(validations, g.columns));
  }

  // ------------------------------------------------------------ percentages

  /** The mask `(v < 0) | (v > 1)`: false for a missing value. */
  predicate OutOfUnit(c: Cell) {
    c.Num? && (c.x < 0.0 || c.x > 1.0)
  }

  /** `clip(0, 1)` of one cell; a missing value stays missing. */
  function ClipCell(c: Cell): (r: Cell)
    ensures r.Num? <==> c.Num?
    ensures r.Num? ==> 0.0 <= r.x <= 1.0
    ensures !OutOfUnit(c) ==> r == c
    ensures OutOfUnit(c) ==> r == Num(if c.x < 0.0 then 0.0 else 1.0)
  {
    if c.Num? then Num(if c.x < 0.0 then 0.0 else if c.x > 1.0 then 1.0 else c.x) else c
  }

  /** `invalid_mask.sum()`: how many values lie outside [0, 1]. */
  function InvalidCount(cells: seq<Cell>): (n: nat)
    ensures n <= |cells|
    ensures n == 0 <==> forall k :: 0 <= k < |cells| ==> !OutOfUnit(cells[k])
  {
    if cells == [] then 0
    else InvalidCount(cells[..|cells| - 1]) + (if OutOfUnit(cells[|cells| - 1]) then 1 else 0)
  }

  /** `df[col] = df[col].clip(0, 1)`. */
  function ClipColumn(f: Frame, col: string): (r: Frame)
    ensures Extends(f, r, {col})
    ensures forall i :: 0 <= i < |r.rows| ==> r.rows[i][col] == ClipCell(Get(f.rows[i], col))
  {
    MapRows(f, {col}, row => row[col := ClipCell(Get(row, col))])
  }

  /** Clipping a column with no value outside [0, 1] changes nothing. */
  lemma ClipColumnUnchanged(f: Frame, col: string)
    requires WellFormed(f) && col in f.columns
    requires InvalidCount(Column(f.rows, col)) == 0
    ensures ClipColumn(f, col) == f
  {
    var r := ClipColumn(f, col);
    forall i | 0 <= i < |f.rows|
      ensures r.rows[i] == f.rows[i]
    {
      assert Column(f.rows, col)[i] == Get(f.rows[i], col);
    }
  }

  /** Every listed percentage column the table has, clipped to [0, 1] in turn. */
  function PercentagesClipped(f: Frame, cols: seq<string>): (r: Frame)
    ensures Extends(f, r, Present(cols, f.columns))
  {
    if cols == [] then f
    else
      var init, last := cols[..|cols| - 1], cols[|cols| - 1];
      var g := PercentagesClipped(f, init);
      assert Present(cols, f.columns) == Present(init, f.columns) + (if last in f.columns then {last} else {}) by {
        assert cols == init + [last];
      }
      if last in g.columns then
        var r := ClipColumn(g, last);
        ExtendsTrans(f, g, r, Present(init, f.columns), {last});
        r
      else g
  }

  /**
   * `validate_percentages`: for each listed column the table has, clips it to
   * [0, 1] when some value lies outside.
   */
  method ValidatePercentages(f: Frame, pctCols: seq<string>) returns (r: Frame)
    requires WellFormed(f)
    ensures r == PercentagesClipped(f, pctCols)
  {
    r := f;
    for k := 0 to |pctCols|
      invariant r == PercentagesClipped(f, pctCols[..k])
      invariant WellFormed(r)
    {
      assert pctCols[..k + 1][..k] == pctCols[..k];
      var col := pctCols[k];
      if col in r.columns {
        var invalidCount := InvalidCount(Column(r.rows, col));
        if invalidCount > 0 {
          ExtendsWellFormed(r, ClipColumn(r, col), {col});
          r := ClipColumn(r, col);
        } else {
          ClipColumnUnchanged(r, col);
        }
      }
    }
    assert pctCols[..|pctCols|] == pctCols;
  }

  /**
   * After validation every listed column holds its values clipped to [0, 1]:
   * a value in range is kept, a value outside becomes the nearer bound, a
   * missing value stays missing, however often the column is listed.
   */
  lemma {:induction false} PercentagesClippedValues(f: Frame, cols: seq<string>, col: string, i: int)
    requires col in cols && col in f.columns && 0 <= i < |f.rows|
    ensures PercentagesClipped(f, cols).rows[i][col] == ClipCell(Get(f.rows[i], col))
  {
    var init, last := cols[..|cols| - 1], cols[|cols| - 1];
    assert cols == init + [last];
    var g := PercentagesClipped(f, init);
    if col in init {
      PercentagesClippedValues(f, init, col, i);
      assert Get(g.rows[i], col) == ClipCell(Get(f.rows[i], col));
    } else {
      assert col == last;
      assert col !in Present(init, f.columns);
      assert Get(g.rows[i], col) == Get(f.rows[i], col);
    }
  }

  // --------------------------------------------------------------- filters

  /** `v > m` in pandas: false for a missing value. */
  predicate Exceeds(c: Cell, m: real) {
    c.Num? && c.x > m
  }

  function MinutesMask(minMinutes: real): Row -> bool {
    row => Exceeds(Get(row, MINUTES), minMinutes)
  }

  /** `filter_by_minutes`: the rows whose minutes exceed the minimum, in order. */
  function FilterByMinutes(f: Frame, minMinutes: real): (r: Frame)
    requires MINUTES in f.columns
    ensures r.columns == f.columns && |r.rows| <= |f.rows|
    ensures forall row :: row in r.rows <==> row in f.rows && Exceeds(Get(row, MINUTES), minMinutes)
  {
    Frame(f.columns, Where(f.rows, MinutesMask(minMinutes)))
  }

  /**
   * The minutes filter keeps the order of the rows (filtering two stacked
   * tables stacks their kept rows) and keeps each kept row as often as it occurs.
   */
  lemma FilterByMinutesOrder(columns: set<string>, a: seq<Row>, b: seq<Row>, minMinutes: real)
    requires MINUTES in columns
    ensures FilterByMinutes(Frame(columns, a + b), minMinutes).rows
         == FilterByMinutes(Frame(columns, a), minMinutes).rows + FilterByMinutes(Frame(columns, b), minMinutes).rows
    ensures forall row ::
      multiset(FilterByMinutes(Frame(columns, a), minMinutes).rows)[row] == if Exceeds(Get(row, MINUTES), minMinutes) then multiset(a)[row] else 0
  {
    WhereAppend(a, b, MinutesMask(minMinutes));
    WhereCount(a, MinutesMask(minMinutes));
  }

  /**
   * The games filter keeps the order of the rows (the kept rows of two
   * stacked tables are the kept rows of each, stacked, with the games counted
   * over both) and keeps each kept row as often as it occurs.
   */
  lemma FilterByGamesPlayedOrder(columns: set<string>, a: seq<Row>, b: seq<Row>, minGames: int)
    requires PLAYER_ID in columns
    ensures FilterByGamesPlayed(Frame(columns, a + b), minGames).rows
         == Where(a, GamesMask(a + b, minGames)) + Where(b, GamesMask(a + b, minGames))
    ensures forall row ::
      multiset(FilterByGamesPlayed(Frame(columns, a), minGames).rows)[row]
      == if Get(row, PLAYER_ID) != Null && GamesOf(a, Get(row, PLAYER_ID)) >= minGames then multiset(a)[row] else 0
  {
    WhereAppend(a, b, GamesMask(a + b, minGames));
    WhereCount(a, GamesMask(a, minGames));
  }

  /** Two minutes filters in a row are the filter by the larger minimum. */
  lemma FilterByMinutesTwice(f: Frame, a: real, b: real)
    requires MINUTES in f.columns
    ensures FilterByMinutes(FilterByMinutes(f, a), b) == FilterByMinutes(f, if a < b then b else a)
  {
    WhereWhere(f.rows, MinutesMask(a), MinutesMask(b), MinutesMask(if a < b then b else a));
  }

  /** The number of rows of one player: `groupby(player_id).size()`. */
  function GamesOf(rows: seq<Row>, id: Cell): (n: nat)
    ensures n <= |rows|
    ensures n > 0 <==> exists k :: 0 <= k < |rows| && Get(rows[k], PLAYER_ID) == id
  {
    if rows == [] then 0
    else (if Get(rows[0], PLAYER_ID) == id then 1 else 0) + GamesOf(rows[1..], id)
  }

  /** `isin(valid_players)`: a missing id is in no group, hence never valid. */
  function GamesMask(rows: seq<Row>, minGames: int): Row -> bool {
    row => Get(row, PLAYER_ID) != Null && GamesOf(rows, Get(row, PLAYER_ID)) >= minGames
  }

  /** `filter_by_games_played`: the rows of the players with at least `minGames` rows. */
  function FilterByGamesPlayed(f: Frame, minGames: int): (r: Frame)
    requires PLAYER_ID in f.columns
    ensures r.columns == f.columns && |r.rows| <= |f.rows|
    ensures forall row :: row in r.rows <==>
      row in f.rows && Get(row, PLAYER_ID) != Null && GamesOf(f.rows, Get(row, PLAYER_ID)) >= minGames
  {
    Frame(f.columns, Where(f.rows, GamesMask(f.rows, minGames)))
  }

  /** A selection that keeps all the rows of one player keeps their count. */
  lemma {:induction false} GamesOfWhereAll(rows: seq<Row>, p: Row -> bool, id: Cell)
    requires forall row :: Get(row, PLAYER_ID) == id ==> p(row)
    ensures GamesOf(Where(rows, p), id) == GamesOf(rows, id)
  {
    if rows != [] {
      GamesOfWhereAll(rows[1..], p, id);
      GamesOfAppend(if p(rows[0]) then [rows[0]] else [], Where(rows[1..], p), id);
    }
  }

  /** A selection that drops all the rows of one player keeps none of them. */
  lemma {:induction false} GamesOfWhereNone(rows: seq<Row>, p: Row -> bool, id: Cell)
    requires forall row :: Get(row, PLAYER_ID) == id ==> !p(row)
    ensures GamesOf(Where(rows, p), id) == 0
  {
    if rows != [] {
      GamesOfWhereNone(rows[1..], p, id);
      GamesOfAppend(if p(rows[0]) then [rows[0]] else [], Where(rows[1..], p), id);
    }
  }

  lemma {:induction false} GamesOfAppend(a: seq<Row>, b: seq<Row>, id: Cell)
    ensures GamesOf(a + b, id) == GamesOf(a, id) + GamesOf(b, id)
  {
    if a != [] {
      assert (a + b)[0] == a[0] && (a + b)[1..] == a[1..] + b;
      GamesOfAppend(a[1..], b, id);
    } else {
      assert a + b == b;
    }
  }

  /**
   * The filter is all-or-nothing per player: a kept player keeps every one of
   * their rows, a dropped player none.
   */
  lemma FilterByGamesPlayedCounts(f: Frame, minGames: int, id: Cell)
    requires PLAYER_ID in f.columns
    ensures var kept := GamesOf(FilterByGamesPlayed(f, minGames).rows, id);
      kept == if id != Null && GamesOf(f.rows, id) >= minGames then GamesOf(f.rows, id) else 0
  {
    if id != Null && GamesOf(f.rows, id) >= minGames {
      GamesOfWhereAll(f.rows, GamesMask(f.rows, minGames), id);
    } else {
      GamesOfWhereNone(f.rows, GamesMask(f.rows, minGames), id);
    }
  }

  /** Filtering by games twice with the same minimum filters once. */
  lemma FilterByGamesPlayedIdempotent(f: Frame, minGames: int)
    requires PLAYER_ID in f.columns
    ensures FilterByGamesPlayed(FilterByGamesPlayed(f, minGames), minGames) == FilterByGamesPlayed(f, minGames)
  {
    var g := FilterByGamesPlayed(f, minGames);
    forall k | 0 <= k < |g.rows|
      ensures GamesMask(g.rows, minGames)(g.rows[k])
    {
      FilterByGamesPlayedCounts(f, minGames, Get(g.rows[k], PLAYER_ID));
    }
    WhereKeepsAll(g.rows, GamesMask(g.rows, minGames));
  }

  // -------------------------------------------------------- missing values

  /** No cell of a listed column is missing. */
  predicate Complete(row: Row, columns: set<string>) {
    forall c :: c in columns ==> Get(row, c) != Null
  }

  ghost predicate NoMissing(f: Frame) {
    forall i :: 0 <= i < |f.rows| ==> Complete(f.rows[i], f.columns)
  }

  function CompleteMask(columns: set<string>): Row -> bool {
    row => Complete(row, columns)
  }

  /** `fillna(v)` of one row. */
  function FillRow(row: Row, columns: set<string>, v: real): Row {
    map c | c in row.Keys + columns :: if Get(row, c) == Null then Num(v) else Get(row, c)
  }

  /**
   * `handle_missing_values`: `drop` keeps the rows without a missing value,
   * `fill` replaces every missing value by `fillValue`; any other strategy is
   * an error naming it.
   */
  function HandleMissingValues(f: Frame, strategy: string, fillValue: real): (r: Result<Frame, string>)
    ensures r.Success? <==> strategy == "drop" || strategy == "fill"
    ensures r.Failure? ==> r.error == strategy
    ensures r.Success? ==> r.value.columns == f.columns && NoMissing(r.value)
    ensures strategy == "drop" ==> forall row :: row in r.value.rows <==> row in f.rows && Complete(row, f.columns)
    ensures strategy == "fill" ==>
      && |r.value.rows| == |f.rows|
      && forall i, c :: 0 <= i < |f.rows| && c in f.columns ==>
           Get(r.value.rows[i], c) == if Get(f.rows[i], c) == Null then Num(fillValue) else Get(f.rows[i], c)
  {
    if strategy == "drop" then
      var kept := Where(f.rows, CompleteMask(f.columns));
      assert forall i :: 0 <= i < |kept| ==> kept[i] in kept;
      Success(Frame(f.columns, kept))
    else if strategy == "fill" then
      Success(Frame(f.columns, seq(|f.rows|, i requires 0 <= i < |f.rows| => FillRow(f.rows[i], f.columns, fillValue))))
    else
      Failure(strategy)
  }

  /**
   * `dropna` keeps the order of the rows (dropping from two stacked tables
   * stacks their kept rows) and keeps each complete row as often as it occurs.
   */
  lemma DropOrder(columns: set<string>, a: seq<Row>, b: seq<Row>, fillValue: real)
    ensures HandleMissingValues(Frame(columns, a + b), "drop", fillValue).value.rows
         == HandleMissingValues(Frame(columns, a), "drop", fillValue).value.rows
          + HandleMissingValues(Frame(columns, b), "drop", fillValue).value.rows
    ensures forall row ::
      multiset(HandleMissingValues(Frame(columns, a), "drop", fillValue).value.rows)[row] == if Complete(row, columns) then multiset(a)[row] else 0
  {
    WhereAppend(a, b, CompleteMask(columns));
    WhereCount(a, CompleteMask(columns));
  }

  /** Filling a row that carries every column and misses none changes nothing. */
  lemma FillRowComplete(row: Row, columns: set<string>, v: real)
    requires row.Keys == columns && Complete(row, columns)
    ensures FillRow(row, columns, v) == row
  {
    assert FillRow(row, columns, v).Keys == row.Keys;
  }

  lemma DropUnchanged(f: Frame, fillValue: real)
    requires NoMissing(f)
    ensures HandleMissingValues(f, "drop", fillValue) == Success(f)
  {
    WhereKeepsAll(f.rows, CompleteMask(f.columns));
  }

  lemma FillUnchanged(f: Frame, fillValue: real)
    requires WellFormed(f) && NoMissing(f)
    ensures HandleMissingValues(f, "fill", fillValue) == Success(f)
  {
    var filled := seq(|f.rows|, i requires 0 <= i < |f.rows| => FillRow(f.rows[i], f.columns, fillValue));
    forall i | 0 <= i < |f.rows|
      ensures filled[i] == f.rows[i]
    {
      FillRowComplete(f.rows[i], f.columns, fillValue);
    }
    assert filled == f.rows;
  }

  /** On a table without missing values both strategies return it unchanged. */
  lemma HandleMissingValuesUnchanged(f: Frame, fillValue: real)
    requires WellFormed(f) && NoMissing(f)
    ensures HandleMissingValues(f, "drop", fillValue) == Success(f)
    ensures HandleMissingValues(f, "fill", fillValue) == Success(f)
  {
    DropUnchanged(f, fillValue);
    FillUnchanged(f, fillValue);
  }

  // ------------------------------------------------------------ duplicates

  /** The values a row holds in the key columns. */
  function KeyOf(row: Row, cols: set<string>): map<string, Cell> {
    map c | c in cols :: Get(row, c)
  }

  function KeySet(rows: seq<Row>, cols: set<string>): set<map<string, Cell>> {
    set x | x in rows :: KeyOf(x, cols)
  }

  /** No earlier row has the same key. */
  predicate FirstOccurrence(rows: seq<Row>, i: int, cols: set<string>)
    requires 0 <= i < |rows|
  {
    forall j :: 0 <= j < i ==> KeyOf(rows[j], cols) != KeyOf(rows[i], cols)
  }

  /** `drop_duplicates(keep='first')` on the key columns. */
  function KeepFirst(rows: seq<Row>, cols: set<string>): (r: seq<Row>)
    ensures |r| <= |rows|
    ensures forall x :: x in r ==> x in rows
    ensures forall i, j :: 0 <= i < j < |r| ==> KeyOf(r[i], cols) != KeyOf(r[j], cols)
    ensures KeySet(r, cols) == KeySet(rows, cols)
  {
    if rows == [] then []
    else
      var init, last := rows[..|rows| - 1], rows[|rows| - 1];
      var before := KeepFirst(init, cols);
      assert rows == init + [last];
      KeySetAppend(init, [last], cols);
      KeySetAppend(before, [last], cols);
      if KeyOf(last, cols) in KeySet(init, cols) then before else before + [last]
  }

  lemma KeySetAppend(a: seq<Row>, b: seq<Row>, cols: set<string>)
    ensures KeySet(a + b, cols) == KeySet(a, cols) + KeySet(b, cols)
  {
    assert forall x :: x in a + b <==> x in a || x in b;
  }

  /** The first row of every key is the one kept. */
  lemma {:induction false} KeepFirstKeepsFirstOccurrences(rows: seq<Row>, cols: set<string>)
    ensures forall i :: 0 <= i < |rows| && FirstOccurrence(rows, i, cols) ==> rows[i] in KeepFirst(rows, cols)
  {
    if rows != [] {
      var init, last := rows[..|rows| - 1], rows[|rows| - 1];
      KeepFirstKeepsFirstOccurrences(init, cols);
      forall i | 0 <= i < |rows| && FirstOccurrence(rows, i, cols)
        ensures rows[i] in KeepFirst(rows, cols)
      {
        if i < |init| {
          assert FirstOccurrence(init, i, cols);
        } else {
          assert KeyOf(last, cols) !in KeySet(init, cols);
        }
      }
    }
  }

  /** The key columns: the subset when given, otherwise every column. */
  function KeyColumns(f: Frame, subset: Option<seq<string>>): set<string> {
    if subset.Some? then set c | c in subset.value else f.columns
  }

  /**
   * `remove_duplicates`: keeps the first row of each key, so the kept rows
   * have distinct keys and every key of the table survives.
   */
  function RemoveDuplicates(f: Frame, subset: Option<seq<string>>): (r: Frame)
    requires subset.Some? ==> forall k :: 0 <= k < |subset.value| ==> subset.value[k] in f.columns
    ensures r.columns == f.columns
    ensures forall x :: x in r.rows ==> x in f.rows
    ensures forall i, j :: 0 <= i < j < |r.rows| ==> KeyOf(r.rows[i], KeyColumns(f, subset)) != KeyOf(r.rows[j], KeyColumns(f, subset))
    ensures KeySet(r.rows, KeyColumns(f, subset)) == KeySet(f.rows, KeyColumns(f, subset))
    ensures forall i :: 0 <= i < |f.rows| && FirstOccurrence(f.rows, i, KeyColumns(f, subset)) ==> f.rows[i] in r.rows
  {
    KeepFirstKeepsFirstOccurrences(f.rows, KeyColumns(f, subset));
    Frame(f.columns, KeepFirst(f.rows, KeyColumns(f, subset)))
  }

  /**
   * Rows further down never disturb what was kept before them: the rows kept
   * from a table are a prefix, in the same order, of those kept from the
   * table with more rows below.
   */
  lemma {:induction false} KeepFirstPrefix(a: seq<Row>, b: seq<Row>, cols: set<string>)
    ensures |KeepFirst(a, cols)| <= |KeepFirst(a + b, cols)|
    ensures KeepFirst(a + b, cols)[..|KeepFirst(a, cols)|] == KeepFirst(a, cols)
  {
    if b != [] {
      var init := b[..|b| - 1];
      assert a + b == (a + init) + [b[|b| - 1]];
      assert (a + b)[..|a + b| - 1] == a + init;
      KeepFirstPrefix(a, init, cols);
    } else {
      assert a + b == a;
    }
  }

  /** Rows whose keys are already distinct are all kept. */
  lemma {:induction false} KeepFirstDistinct(rows: seq<Row>, cols: set<string>)
    requires forall i, j :: 0 <= i < j < |rows| ==> KeyOf(rows[i], cols) != KeyOf(rows[j], cols)
    ensures KeepFirst(rows, cols) == rows
  {
    if rows != [] {
      var init, last := rows[..|rows| - 1], rows[|rows| - 1];
      KeepFirstDistinct(init, cols);
      assert KeyOf(last, cols) !in KeySet(init, cols);
    }
  }

  /** Removing duplicates twice removes them once. */
  lemma RemoveDuplicatesIdempotent(f: Frame, subset: Option<seq<string>>)
    requires subset.Some? ==> forall k :: 0 <= k < |subset.value| ==> subset.value[k] in f.columns
    ensures RemoveDuplicates(RemoveDuplicates(f, subset), subset) == RemoveDuplicates(f, subset)
  {
    var g := RemoveDuplicates(f, subset);
    assert KeyColumns(g, subset) == KeyColumns(f, subset);
    KeepFirstDistinct(g.rows, KeyColumns(f, subset));
  }
}
