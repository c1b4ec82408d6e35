/**
 * Aggregation of the per-game player table into one row per player
 * (`DataAggregator`): the minutes-weighted or simple mean of the features,
 * and the totals of the raw statistics.
 */
module DataAggregator {
  import opened Frames
  import DataCleaner

  const NUM_GAMES := "num_games"

  // ------------------------------------------------------------------ groups

  /**
   * The keys of `groupby(player_feb_id)`: every id that is not missing, once,
   * in order of first appearance.
   */
  function PlayerIds(rows: seq<Row>): (r: seq<Cell>)
    ensures Distinct(r)
    ensures forall id :: id in r <==> id != Null && exists k :: 0 <= k < |rows| && Get(rows[k], PLAYER_ID) == id
  {
    if rows == [] then []
    else
      var init, id := rows[..|rows| - 1], Get(rows[|rows| - 1], PLAYER_ID);
      var before := PlayerIds(init);
      assert forall k :: 0 <= k < |init| ==> init[k] == rows[k];
      if id == Null || id in before then before else before + [id]
  }

  function IdMask(id: Cell): Row -> bool {
    row => Get(row, PLAYER_ID) == id
  }

  /** The rows of one player, in order. */
  function Group(rows: seq<Row>, id: Cell): (g: seq<Row>)
    ensures forall row :: row in g <==> row in rows && Get(row, PLAYER_ID) == id
  {
    Where(rows, IdMask(id))
  }

  /** Every key's group has at least one row. */
  lemma GroupNonEmpty(rows: seq<Row>, id: Cell)
    requires id in PlayerIds(rows)
    ensures |Group(rows, id)| > 0
  {
    var k :| 0 <= k < |rows| && Get(rows[k], PLAYER_ID) == id;
    assert rows[k] in Group(rows, id);
  }

  /** The number of rows of a group is the number of games `DataCleaner` counts. */
  lemma {:induction false} GroupSizeIsGames(rows: seq<Row>, id: Cell)
    ensures |Group(rows, id)| == DataCleaner.GamesOf(rows, id)
  {
    if rows != [] {
      GroupSizeIsGames(rows[1..], id);
    }
  }

  // -------------------------------------------------------------------- sums

  /** `group[col].sum()`: missing values are skipped, so an all-missing sum is 0. */
  function ColumnSum(rows: seq<Row>, col: string): real {
    if rows == [] then 0.0 else ColumnSum(rows[..|rows| - 1], col) + NumOrZero(Get(rows[|rows| - 1], col))
  }

  lemma {:induction false} ColumnSumAppend(a: seq<Row>, b: seq<Row>, col: string)
    ensures ColumnSum(a + b, col) == ColumnSum(a, col) + ColumnSum(b, col)
  {
    if b == [] {
      assert a + b == a;
    } else {
      assert (a + b)[..|a + b| - 1] == a + b[..|b| - 1];
      ColumnSumAppend(a, b[..|b| - 1], col);
    }
  }

  /** The sum of one column over the groups of `ids`, in turn. */
  function SumOverIds(rows: seq<Row>, ids: seq<Cell>, col: string): real {
    if ids == [] then 0.0 else SumOverIds(rows, ids[..|ids| - 1], col) + ColumnSum(Group(rows, ids[|ids| - 1]), col)
  }

  function HasIdMask(): Row -> bool {
    row => Get(row, PLAYER_ID) != Null
  }

  /** One more row adds its value to the group of its id and to no other. */
  lemma GroupAppend(rows: seq<Row>, x: Row, id: Cell, col: string)
    ensures ColumnSum(Group(rows + [x], id), col)
         == ColumnSum(Group(rows, id), col) + (if Get(x, PLAYER_ID) == id then NumOrZero(Get(x, col)) else 0.0)
  {
    WhereAppend(rows, [x], IdMask(id));
    ColumnSumAppend(Group(rows, id), Where([x], IdMask(id)), col);
    assert Where([x], IdMask(id)) == (if Get(x, PLAYER_ID) == id then [x] else []) + Where([], IdMask(id));
    assert ColumnSum([x], col) == ColumnSum([], col) + NumOrZero(Get(x, col));
  }

  lemma {:induction false} SumOverIdsAppend(rows: seq<Row>, x: Row, ids: seq<Cell>, col: string)
    requires Distinct(ids)
    ensures SumOverIds(rows + [x], ids, col)
         == SumOverIds(rows, ids, col) + (if Get(x, PLAYER_ID) in ids then NumOrZero(Get(x, col)) else 0.0)
  {
    if ids != [] {
      var init, last := ids[..|ids| - 1], ids[|ids| - 1];
      SumOverIdsAppend(rows, x, init, col);
      GroupAppend(rows, x, last, col);
      assert Get(x, PLAYER_ID) in ids <==> Get(x, PLAYER_ID) in init || Get(x, PLAYER_ID) == last by {
        assert ids == init + [last];
      }
      assert Get(x, PLAYER_ID) == last ==> Get(x, PLAYER_ID) !in init;
    }
  }

  /** A player with no rows has an empty group. */
  lemma GroupOfAbsent(rows: seq<Row>, id: Cell)
    requires id != Null && id !in PlayerIds(rows)
    ensures Group(rows, id) == []
  {
    assert forall k :: 0 <= k < |rows| ==> !IdMask(id)(rows[k]);
    WhereNone(rows, IdMask(id));
  }

  /** What one more row adds to a column sum over the rows that have an id. */
  function IdContribution(x: Row, col: string): real {
    if Get(x, PLAYER_ID) != Null then NumOrZero(Get(x, col)) else 0.0
  }

  lemma WithIdSumAppend(rows: seq<Row>, x: Row, col: string)
    ensures ColumnSum(Where(rows + [x], HasIdMask()), col) == ColumnSum(Where(rows, HasIdMask()), col) + IdContribution(x, col)
  {
    WhereAppend(rows, [x], HasIdMask());
    assert Where([x], HasIdMask()) == (if Get(x, PLAYER_ID) != Null then [x] else []) + Where([], HasIdMask());
    assert ColumnSum([x], col) == ColumnSum([], col) + NumOrZero(Get(x, col));
    ColumnSumAppend(Where(rows, HasIdMask()), Where([x], HasIdMask()), col);
  }

  lemma GroupSumsAppend(rows: seq<Row>, x: Row, col: string)
    ensures SumOverIds(rows + [x], PlayerIds(rows + [x]), col) == SumOverIds(rows, PlayerIds(rows), col) + IdContribution(x, col)
  {
    var before, id := PlayerIds(rows), Get(x, PLAYER_ID);
    assert (rows + [x])[..|rows + [x]| - 1] == rows;
    SumOverIdsAppend(rows, x, before, col);
    if id != Null && id !in before {
      var ids := before + [id];
      assert ids[..|ids| - 1] == before;
      GroupAppend(rows, x, id, col);
      GroupOfAbsent(rows, id);
    }
  }

  /**
   * Grouping loses nothing and counts nothing twice: the group sums of a
   * column add up to that column's sum over the rows that have an id.
   */
  lemma {:induction false} GroupSumsPartition(rows: seq<Row>, col: string)
    ensures SumOverIds(rows, PlayerIds(rows), col) == ColumnSum(Where(rows, HasIdMask()), col)
  {
    if rows != [] {
      var init, x := rows[..|rows| - 1], rows[|rows| - 1];
      assert rows == init + [x];
      GroupSumsPartition(init, col);
      WithIdSumAppend(init, x, col);
      GroupSumsAppend(init, x, col);
    }
  }

  // ------------------------------------------------------ per-player values

  /** How many values of a column are present: the divisor of pandas' mean. */
  function CountPresent(rows: seq<Row>, col: string): (n: nat)
    ensures n <= |rows|
    ensures n == 0 <==> forall k :: 0 <= k < |rows| ==> !Get(rows[k], col).Num?
  {
    if rows == [] then 0
    else
      var n := CountPresent(rows[..|rows| - 1], col);
      assert forall k :: 0 <= k < |rows| - 1 ==> rows[k] == rows[..|rows| - 1][k];
      n + (if Get(rows[|rows| - 1], col).Num? then 1 else 0)
  }

  /** `group[col].mean()`: the mean of the present values, missing when there are none. */
  function MeanCell(rows: seq<Row>, col: string): Cell {
    var n := CountPresent(rows, col);
    if n == 0 then Null else Num(ColumnSum(rows, col) / n as real)
  }

  /** `group[col].first()`: the first value that is not missing. */
  function FirstPresent(rows: seq<Row>, col: string): (r: Cell)
    ensures r != Null ==> exists k :: 0 <= k < |rows| && Get(rows[k], col) == r
    ensures r == Null <==> forall k :: 0 <= k < |rows| ==> Get(rows[k], col) == Null
  {
    if rows == [] then Null
    else if Get(rows[0], col) != Null then Get(rows[0], col)
    else
      var r := FirstPresent(rows[1..], col);
      assert forall k :: 1 <= k < |rows| ==> rows[k] == rows[1..][k - 1];
      r
  }

  /** `(group[col] * group['minutes_played']).sum()`: products with a missing factor are skipped. */
  function WeightedSum(rows: seq<Row>, col: string): real {
    if rows == [] then 0.0
    else
      var row := rows[|rows| - 1];
      WeightedSum(rows[..|rows| - 1], col)
      + (if Get(row, col).Num? && Get(row, MINUTES_PLAYED).Num? then Get(row, col).x * Get(row, MINUTES_PLAYED).x else 0.0)
  }

  /** The columns of an aggregated row, besides the player id. */
  function AggregatedColumns(columns: set<string>, features: seq<string>): set<string> {
    Present(features, columns) + {PLAYER_NAME} + (if MINUTES_PLAYED in columns then {MINUTES_PLAYED} else {})
  }

  /**
   * One player's row in simple mode: the mean of every present feature, the
   * first name, and the total minutes; a later entry of the aggregation
   * dictionary replaces an earlier one for the same column.
   */
  function SimpleRow(group: seq<Row>, columns: set<string>, features: seq<string>): Row {
    map c | c in AggregatedColumns(columns, features) ::
      if c == MINUTES_PLAYED then Num(ColumnSum(group, MINUTES_PLAYED))
      else if c == PLAYER_NAME then FirstPresent(group, PLAYER_NAME)
      else MeanCell(group, c)
  }

  /**
   * One player's row in weighted mode (`weighted_mean`): the name of the
   * first row, each present feature weighted by the minutes played, and the
   * total minutes, written last.
   */
  function WeightedRow(group: seq<Row>, columns: set<string>, features: seq<string>): Row
    requires |group| > 0 && ColumnSum(group, MINUTES_PLAYED) != 0.0
  {
    var total := ColumnSum(group, MINUTES_PLAYED);
    map c | c in {PLAYER_NAME} + Present(features, columns) + {MINUTES_PLAYED} ::
      if c == MINUTES_PLAYED then Num(total)
      else if c in Present(features, columns) then Num(WeightedSum(group, c) / total)
      else Get(group[0], PLAYER_NAME)
  }

  /** `weighted_mean(group, features)`, the loop over the features as in the source. */
  method WeightedMean(group: seq<Row>, columns: set<string>, features: seq<string>) returns (result: Row)
    requires |group| > 0 && ColumnSum(group, MINUTES_PLAYED) != 0.0
    ensures result == WeightedRow(group, columns, features)
  {
    result := map[PLAYER_NAME := Get(group[0], PLAYER_NAME)];
    var totalMinutes := ColumnSum(group, MINUTES_PLAYED);
    for k := 0 to |features|
      invariant result.Keys == {PLAYER_NAME} + Present(features[..k], columns)
      invariant forall c :: c in result ==>
        result[c] == if c in Present(features[..k], columns) then Num(WeightedSum(group, c) / totalMinutes)
                     else Get(group[0], PLAYER_NAME)
    {
      assert features[..k + 1] == features[..k] + [features[k]];
      var col := features[k];
      if col in columns {
        result := result[col := Num(WeightedSum(group, col) / totalMinutes)];
      }
    }
    assert features[..|features|] == features;
    result := result[MINUTES_PLAYED := Num(totalMinutes)];
  }

  // -------------------------------------------------------------- by player

  /** What `aggregate_by_player` needs: the id and name columns, and no id among the features. */
  ghost predicate AggregateInputs(f: Frame, features: seq<string>, weighted: bool) {
    && PLAYER_ID in f.columns && PLAYER_NAME in f.columns
    && PLAYER_ID !in features
    && (weighted && MINUTES_PLAYED in f.columns ==>
          forall id :: id in PlayerIds(f.rows) ==> ColumnSum(Group(f.rows, id), MINUTES_PLAYED) != 0.0)
  }

  /**
   * `aggregate_by_player`: one row per player, weighted by minutes when asked
   * and the table has minutes played, otherwise the simple mean.
   */
  function AggregateByPlayer(f: Frame, features: seq<string>, weighted: bool): (r: Frame)
    requires AggregateInputs(f, features, weighted)
    ensures r.columns == {PLAYER_ID} + AggregatedColumns(f.columns, features)
    ensures |r.rows| == |PlayerIds(f.rows)|
    ensures forall k :: 0 <= k < |r.rows| ==> r.rows[k].Keys == r.columns && r.rows[k][PLAYER_ID] == PlayerIds(f.rows)[k]
    ensures MINUTES_PLAYED in f.columns ==>
      forall k :: 0 <= k < |r.rows| ==>
        r.rows[k][MINUTES_PLAYED] == Num(ColumnSum(Group(f.rows, PlayerIds(f.rows)[k]), MINUTES_PLAYED))
  {
    var ids := PlayerIds(f.rows);
    var useWeighted := weighted && MINUTES_PLAYED in f.columns;
    Frame({PLAYER_ID} + AggregatedColumns(f.columns, features),
      seq(|ids|, k requires 0 <= k < |ids| =>
        GroupNonEmpty(f.rows, ids[k]);
        (if useWeighted then WeightedRow(Group(f.rows, ids[k]), f.columns, features)
         else SimpleRow(Group(f.rows, ids[k]), f.columns, features))[PLAYER_ID := ids[k]]))
  }

  /**
   * A player's aggregated feature is the minutes-weighted mean of the player's
   * games in weighted mode and the plain mean otherwise; the name is the first
   * row's in weighted mode and the first present one otherwise.
   */
  lemma AggregatedValues(f: Frame, features: seq<string>, weighted: bool, k: int, c: string)
    requires AggregateInputs(f, features, weighted) && 0 <= k < |PlayerIds(f.rows)|
    requires c in Present(features, f.columns) && c != MINUTES_PLAYED && c != PLAYER_NAME
    ensures var g := Group(f.rows, PlayerIds(f.rows)[k]);
      var row := AggregateByPlayer(f, features, weighted).rows[k];
      && |g| > 0
      && (weighted && MINUTES_PLAYED in f.columns ==>
            ColumnSum(g, MINUTES_PLAYED) != 0.0 && row[c] == Num(WeightedSum(g, c) / ColumnSum(g, MINUTES_PLAYED)))
      && (!(weighted && MINUTES_PLAYED in f.columns) ==> row[c] == MeanCell(g, c))
      && (PLAYER_NAME !in features ==>
            row[PLAYER_NAME] == if weighted && MINUTES_PLAYED in f.columns then Get(g[0], PLAYER_NAME) else FirstPresent(g, PLAYER_NAME))
  {
    var id := PlayerIds(f.rows)[k];
    var g := Group(f.rows, id);
    GroupNonEmpty(f.rows, id);
    if weighted && MINUTES_PLAYED in f.columns {
      WeightedRowAt(g, f.columns, features, c);
    } else {
      SimpleRowAt(g, f.columns, features, c);
    }
  }

  /** The aggregated rows carry their group sums, so they add up group by group. */
  lemma {:induction false} AggregatedSum(out: seq<Row>, rows: seq<Row>, ids: seq<Cell>, col: string)
    requires |out| == |ids|
    requires forall k :: 0 <= k < |out| ==> Get(out[k], col) == Num(ColumnSum(Group(rows, ids[k]), col))
    ensures ColumnSum(out, col) == SumOverIds(rows, ids, col)
  {
    if out != [] {
      AggregatedSum(out[..|out| - 1], rows, ids[..|ids| - 1], col);
    }
  }

  /** Aggregation keeps the minutes: the players' totals add up to the minutes of all rows with an id. */
  lemma MinutesConserved(f: Frame, features: seq<string>, weighted: bool)
    requires AggregateInputs(f, features, weighted) && MINUTES_PLAYED in f.columns
    ensures ColumnSum(AggregateByPlayer(f, features, weighted).rows, MINUTES_PLAYED)
         == ColumnSum(Where(f.rows, HasIdMask()), MINUTES_PLAYED)
  {
    var r := AggregateByPlayer(f, features, weighted);
    AggregatedSum(r.rows, f.rows, PlayerIds(f.rows), MINUTES_PLAYED);
    GroupSumsPartition(f.rows, MINUTES_PLAYED);
  }

  /** Every game of the group lasted `m` minutes and has a value for `col`. */
  ghost predicate UniformMinutes(group: seq<Row>, col: string, m: real) {
    forall k :: 0 <= k < |group| ==> Get(group[k], MINUTES_PLAYED) == Num(m) && Get(group[k], col).Num?
  }

  /** Sums over a group whose minutes are all `m` and whose `col` is always present. */
  lemma {:induction false} UniformMinutesSums(rows: seq<Row>, col: string, m: real)
    requires UniformMinutes(rows, col, m)
    ensures ColumnSum(rows, MINUTES_PLAYED) == |rows| as real * m
    ensures WeightedSum(rows, col) == m * ColumnSum(rows, col)
  {
    if rows != [] {
      var init := rows[..|rows| - 1];
      assert UniformMinutes(init, col, m) by {
        forall k | 0 <= k < |init| ensures init[k] == rows[k] {}
      }
      UniformMinutesSums(init, col, m);
    }
  }

  /** The same sums, stated of the values `weighted`, `total` and `sum` they name. */
  lemma UniformTotals(group: seq<Row>, col: string, m: real, weighted: real, total: real, sum: real)
    requires UniformMinutes(group, col, m)
    requires weighted == WeightedSum(group, col) && total == ColumnSum(group, MINUTES_PLAYED) && sum == ColumnSum(group, col)
    ensures total == |group| as real * m && weighted == m * sum
  {
    UniformMinutesSums(group, col, m);
  }

  lemma CancelWeight(weighted: real, total: real, sum: real, n: real, m: real)
    requires m > 0.0 && n > 0.0 && total == n * m && weighted == m * sum
    ensures weighted / total == sum / n
  {
    assert n * m * (sum / n) == m * sum;
  }

  /** With uniform minutes the weighted quotient cancels to the plain mean. */
  lemma UniformQuotient(group: seq<Row>, col: string, m: real)
    requires |group| > 0 && m > 0.0 && UniformMinutes(group, col, m)
    requires ColumnSum(group, MINUTES_PLAYED) > 0.0
    ensures WeightedSum(group, col) / ColumnSum(group, MINUTES_PLAYED) == ColumnSum(group, col) / |group| as real
  {
    var weighted, total, sum := WeightedSum(group, col), ColumnSum(group, MINUTES_PLAYED), ColumnSum(group, col);
    UniformTotals(group, col, m, weighted, total, sum);
    CancelWeight(weighted, total, sum, |group| as real, m);
  }

  /** The mean of a column with no missing value divides its sum by the number of rows. */
  lemma {:induction false} MeanOfComplete(group: seq<Row>, col: string)
    requires |group| > 0 && forall k :: 0 <= k < |group| ==> Get(group[k], col).Num?
    ensures MeanCell(group, col) == Num(ColumnSum(group, col) / |group| as real)
  {
    CompleteCount(group, col);
  }

  lemma {:induction false} CompleteCount(rows: seq<Row>, col: string)
    requires forall k :: 0 <= k < |rows| ==> Get(rows[k], col).Num?
    ensures CountPresent(rows, col) == |rows|
  {
    if rows != [] {
      CompleteCount(rows[..|rows| - 1], col);
    }
  }

  /**
   * When every game of a player lasted the same minutes and the feature is
   * never missing, the weighted mean is the simple mean.
   */
  lemma EqualMinutesWeightedIsMean(group: seq<Row>, columns: set<string>, features: seq<string>, col: string, m: real)
    requires |group| > 0 && m > 0.0 && UniformMinutes(group, col, m)
    requires col in Present(features, columns) && col != MINUTES_PLAYED && col != PLAYER_NAME
    ensures ColumnSum(group, MINUTES_PLAYED) > 0.0
    ensures WeightedRow(group, columns, features)[col] == SimpleRow(group, columns, features)[col]
  {
    PositiveMinutesSum(group);
    UniformQuotient(group, col, m);
    MeanOfComplete(group, col);
    WeightedRowAt(group, columns, features, col);
    SimpleRowAt(group, columns, features, col);
  }

  /** A feature of a weighted row: its weighted sum over the total minutes. */
  lemma WeightedRowAt(group: seq<Row>, columns: set<string>, features: seq<string>, col: string)
    requires |group| > 0 && ColumnSum(group, MINUTES_PLAYED) != 0.0
    requires col in Present(features, columns) && col != MINUTES_PLAYED
    ensures WeightedRow(group, columns, features)[col] == Num(WeightedSum(group, col) / ColumnSum(group, MINUTES_PLAYED))
  {
  }

  /** A feature of a simple row other than the name and the minutes: its mean. */
  lemma SimpleRowAt(group: seq<Row>, columns: set<string>, features: seq<string>, col: string)
    requires col in Present(features, columns) && col != MINUTES_PLAYED && col != PLAYER_NAME
    ensures SimpleRow(group, columns, features)[col] == MeanCell(group, col)
  {
  }

  /** Every game of the group has positive minutes and a value of `col` within `[lo, hi]`. */
  ghost predicate PositiveWithin(group: seq<Row>, col: string, lo: real, hi: real) {
    forall k :: 0 <= k < |group| ==>
      Positive(Get(group[k], MINUTES_PLAYED)) && Get(group[k], col).Num? && lo <= Get(group[k], col).x <= hi
  }

  /** A weighted sum over games with positive minutes is at least the smallest value times the minutes. */
  lemma {:induction false} WeightedSumAtLeast(rows: seq<Row>, col: string, lo: real)
    requires forall k :: 0 <= k < |rows| ==>
      Positive(Get(rows[k], MINUTES_PLAYED)) && Get(rows[k], col).Num? && lo <= Get(rows[k], col).x
    ensures lo * ColumnSum(rows, MINUTES_PLAYED) <= WeightedSum(rows, col)
  {
    if rows != [] {
      var init, row := rows[..|rows| - 1], rows[|rows| - 1];
      WeightedSumAtLeast(init, col, lo);
      var v, m := Get(row, col).x, Get(row, MINUTES_PLAYED).x;
      assert ColumnSum(rows, MINUTES_PLAYED) == ColumnSum(init, MINUTES_PLAYED) + m;
      assert WeightedSum(rows, col) == WeightedSum(init, col) + v * m;
      LowerStep(lo, ColumnSum(init, MINUTES_PLAYED), WeightedSum(init, col), v, m,
                ColumnSum(rows, MINUTES_PLAYED), WeightedSum(rows, col));
    }
  }

  /** A weighted sum over games with positive minutes is at most the largest value times the minutes. */
  lemma {:induction false} WeightedSumAtMost(rows: seq<Row>, col: string, hi: real)
    requires forall k :: 0 <= k < |rows| ==>
      Positive(Get(rows[k], MINUTES_PLAYED)) && Get(rows[k], col).Num? && Get(rows[k], col).x <= hi
    ensures WeightedSum(rows, col) <= hi * ColumnSum(rows, MINUTES_PLAYED)
  {
    if rows != [] {
      var init, row := rows[..|rows| - 1], rows[|rows| - 1];
      WeightedSumAtMost(init, col, hi);
      var v, m := Get(row, col).x, Get(row, MINUTES_PLAYED).x;
      assert ColumnSum(rows, MINUTES_PLAYED) == ColumnSum(init, MINUTES_PLAYED) + m;
      assert WeightedSum(rows, col) == WeightedSum(init, col) + v * m;
      UpperStep(hi, ColumnSum(init, MINUTES_PLAYED), WeightedSum(init, col), v, m,
                ColumnSum(rows, MINUTES_PLAYED), WeightedSum(rows, col));
    }
  }

  /** One more game with value `v >= lo` and positive minutes `m` keeps the lower bound. */
  lemma LowerStep(lo: real, total: real, weighted: real, v: real, m: real, total': real, weighted': real)
    requires m > 0.0 && lo <= v && lo * total <= weighted
    requires total' == total + m && weighted' == weighted + v * m
    ensures lo * total' <= weighted'
  {
    assert lo * m <= v * m;
  }

  /** One more game with value `v <= hi` and positive minutes `m` keeps the upper bound. */
  lemma UpperStep(hi: real, total: real, weighted: real, v: real, m: real, total': real, weighted': real)
    requires m > 0.0 && v <= hi && weighted <= hi * total
    requires total' == total + m && weighted' == weighted + v * m
    ensures weighted' <= hi * total'
  {
    assert v * m <= hi * m;
  }

  /** The weighted mean of values within `[lo, hi]` lies within `[lo, hi]`. */
  lemma WeightedQuotientWithin(group: seq<Row>, col: string, lo: real, hi: real)
    requires |group| > 0 && PositiveWithin(group, col, lo, hi)
    ensures ColumnSum(group, MINUTES_PLAYED) > 0.0
    ensures lo <= WeightedSum(group, col) / ColumnSum(group, MINUTES_PLAYED) <= hi
  {
    PositiveMinutesSum(group);
    WeightedSumAtLeast(group, col, lo);
    WeightedSumAtMost(group, col, hi);
    var weighted, total := WeightedSum(group, col), ColumnSum(group, MINUTES_PLAYED);
    QuotientBounds(weighted, total, lo, hi);
  }

  /**
   * With positive minutes the weighted mean of a feature lies between its
   * smallest and largest value in the player's games.
   */
  lemma WeightedMeanWithinRange(group: seq<Row>, columns: set<string>, features: seq<string>, col: string, lo: real, hi: real)
    requires |group| > 0 && PositiveWithin(group, col, lo, hi)
    requires col in Present(features, columns) && col != MINUTES_PLAYED
    ensures ColumnSum(group, MINUTES_PLAYED) > 0.0
    ensures var w := WeightedRow(group, columns, features)[col]; w.Num? && lo <= w.x <= hi
  {
    WeightedQuotientWithin(group, col, lo, hi);
    WeightedRowAt(group, columns, features, col);
  }

  /** A player with a single game aggregates, in weighted mode, to that game's value. */
  lemma SingleGameWeighted(row: Row, columns: set<string>, features: seq<string>, col: string)
    requires Positive(Get(row, MINUTES_PLAYED)) && Get(row, col).Num?
    requires col in Present(features, columns) && col != MINUTES_PLAYED
    ensures ColumnSum([row], MINUTES_PLAYED) > 0.0
    ensures WeightedRow([row], columns, features)[col] == Get(row, col)
  {
    var v := Get(row, col).x;
    WeightedMeanWithinRange([row], columns, features, col, v, v);
  }

  lemma QuotientBounds(sum: real, total: real, lo: real, hi: real)
    requires total > 0.0 && lo * total <= sum <= hi * total
    ensures lo <= sum / total <= hi
  {
    assert sum / total * total == sum;
  }

  lemma {:induction false} PositiveMinutesSum(rows: seq<Row>)
    requires |rows| > 0
    requires forall k :: 0 <= k < |rows| ==> Positive(Get(rows[k], MINUTES_PLAYED))
    ensures ColumnSum(rows, MINUTES_PLAYED) > 0.0
  {
    if |rows| > 1 {
      PositiveMinutesSum(rows[..|rows| - 1]);
    }
  }

  // --------------------------------------------------------------- raw stats

  /** One player's raw totals: the sums, the first name, and the number of games. */
  function RawColumns(columns: set<string>, rawStats: seq<string>): set<string> {
    Present(rawStats, columns) + {PLAYER_NAME, NUM_GAMES}
  }

  function RawRow(group: seq<Row>, columns: set<string>, rawStats: seq<string>): Row {
    map c | c in RawColumns(columns, rawStats) ::
      if c == NUM_GAMES then Num(|group| as real)
      else if c == PLAYER_NAME then FirstPresent(group, PLAYER_NAME)
      else Num(ColumnSum(group, c))
  }

  /**
   * `aggregate_raw_stats` with the number of games taken as each group's
   * size: one row per player with the sums of the raw statistics.
   */
  function AggregateRawStats(f: Frame, rawStats: seq<string>): (r: Frame)
    requires PLAYER_ID in f.columns && PLAYER_NAME in f.columns && PLAYER_ID !in rawStats
    ensures r.columns == {PLAYER_ID} + RawColumns(f.columns, rawStats)
    ensures |r.rows| == |PlayerIds(f.rows)|
    ensures forall k :: 0 <= k < |r.rows| ==>
      && r.rows[k].Keys == r.columns
      && r.rows[k][PLAYER_ID] == PlayerIds(f.rows)[k]
  {
    var ids := PlayerIds(f.rows);
    Frame({PLAYER_ID} + RawColumns(f.columns, rawStats),
      seq(|ids|, k requires 0 <= k < |ids| =>
        RawRow(Group(f.rows, ids[k]), f.columns, rawStats)[PLAYER_ID := ids[k]]))
  }

  /** A player's `num_games` is the number of rows the games filter counts for that player. */
  lemma RawStatsGames(f: Frame, rawStats: seq<string>, k: int)
    requires PLAYER_ID in f.columns && PLAYER_NAME in f.columns && PLAYER_ID !in rawStats
    requires 0 <= k < |PlayerIds(f.rows)|
    ensures AggregateRawStats(f, rawStats).rows[k][NUM_GAMES] == Num(DataCleaner.GamesOf(f.rows, PlayerIds(f.rows)[k]) as real)
  {
    var id := PlayerIds(f.rows)[k];
    assert NUM_GAMES != PLAYER_ID;
    GroupSizeIsGames(f.rows, id);
    assert RawRow(Group(f.rows, id), f.columns, rawStats)[NUM_GAMES] == Num(|Group(f.rows, id)| as real);
  }

  /**
   * A player's raw statistics are the sums of that player's rows, and the
   * name is the first name that is not missing.
   */
  lemma RawStatsValues(f: Frame, rawStats: seq<string>, k: int, c: string)
    requires PLAYER_ID in f.columns && PLAYER_NAME in f.columns && PLAYER_ID !in rawStats
    requires 0 <= k < |PlayerIds(f.rows)|
    requires c in Present(rawStats, f.columns) && c != PLAYER_NAME && c != NUM_GAMES
    ensures AggregateRawStats(f, rawStats).rows[k][c] == Num(ColumnSum(Group(f.rows, PlayerIds(f.rows)[k]), c))
    ensures AggregateRawStats(f, rawStats).rows[k][PLAYER_NAME] == FirstPresent(Group(f.rows, PlayerIds(f.rows)[k]), PLAYER_NAME)
  {
    assert c != PLAYER_ID;
  }

  /**
   * `aggregate_raw_stats` as written: the aggregation dictionary names
   * `num_games`, which pandas accepts only when the table has such a column;
   * otherwise it raises a KeyError for the missing column.
   */
  function AggregateRawStatsAsWritten(f: Frame, rawStats: seq<string>): (r: Result<Frame, string>)
    requires PLAYER_ID in f.columns && PLAYER_NAME in f.columns && PLAYER_ID !in rawStats
    ensures r.Success? <==> NUM_GAMES in f.columns
    ensures r.Failure? ==> r.error == NUM_GAMES
    ensures r.Success? ==> r.value == AggregateRawStats(f, rawStats)
  {
    if NUM_GAMES in f.columns then Success(AggregateRawStats(f, rawStats)) else Failure(NUM_GAMES)
  }

  /**
   * On a one-game table without a `num_games` column the code as written
   * fails, while the intended aggregation reports one game.
   */
  lemma RawStatsAsWrittenFails()
    ensures var f := Frame({PLAYER_ID, PLAYER_NAME, "pts"},
                           [map[PLAYER_ID := Num(1.0), PLAYER_NAME := Text("A"), "pts" := Num(10.0)]]);
      && AggregateRawStatsAsWritten(f, ["pts"]).Failure?
      && AggregateRawStats(f, ["pts"]).rows[0][NUM_GAMES] == Num(1.0)
  {
    var f := Frame({PLAYER_ID, PLAYER_NAME, "pts"},
                   [map[PLAYER_ID := Num(1.0), PLAYER_NAME := Text("A"), "pts" := Num(10.0)]]);
    assert NUM_GAMES !in f.columns;
    assert PlayerIds(f.rows) == [Num(1.0)] by {
      assert f.rows[..0] == [];
    }
    assert DataCleaner.GamesOf(f.rows, Num(1.0)) == 1 by {
      assert f.rows[1..] == [];
    }
  }

  /** The raw totals add up, over the players, to the totals of every row with an id. */
  lemma RawStatsConserved(f: Frame, rawStats: seq<string>, stat: string)
    requires PLAYER_ID in f.columns && PLAYER_NAME in f.columns && PLAYER_ID !in rawStats
    requires stat in Present(rawStats, f.columns) && stat != PLAYER_NAME && stat != NUM_GAMES
    ensures ColumnSum(AggregateRawStats(f, rawStats).rows, stat) == ColumnSum(Where(f.rows, HasIdMask()), stat)
  {
    var r := AggregateRawStats(f, rawStats);
    assert stat != PLAYER_ID;
    AggregatedSum(r.rows, f.rows, PlayerIds(f.rows), stat);
    GroupSumsPartition(f.rows, stat);
  }

  /** After the games filter, every remaining player played at least the minimum number of games. */
  lemma FilteredPlayersMeetMinimum(f: Frame, minGames: int, id: Cell)
    requires PLAYER_ID in f.columns
    requires id in PlayerIds(DataCleaner.FilterByGamesPlayed(f, minGames).rows)
    ensures DataCleaner.GamesOf(DataCleaner.FilterByGamesPlayed(f, minGames).rows, id) >= minGames
  {
    DataCleaner.FilterByGamesPlayedCounts(f, minGames, id);
  }

  /** Tables that agree row by row on the player ids and on a column have the same group sums of it. */
  lemma {:induction false} GroupSumCongruent(a: seq<Row>, b: seq<Row>, id: Cell, col: string)
    requires |a| == |b|
    requires forall i :: 0 <= i < |a| ==>
      Get(b[i], PLAYER_ID) == Get(a[i], PLAYER_ID) && NumOrZero(Get(b[i], col)) == NumOrZero(Get(a[i], col))
    ensures ColumnSum(Group(b, id), col) == ColumnSum(Group(a, id), col)
  {
    if a != [] {
      var n := |a|;
      assert a == a[..n - 1] + [a[n - 1]];
      assert b == b[..n - 1] + [b[n - 1]];
      GroupSumCongruent(a[..n - 1], b[..n - 1], id, col);
      GroupAppend(a[..n - 1], a[n - 1], id, col);
      GroupAppend(b[..n - 1], b[n - 1], id, col);
    }
  }

  /** Tables that agree row by row on the player ids have the same group keys. */
  lemma {:induction false} PlayerIdsCongruent(a: seq<Row>, b: seq<Row>)
    requires |a| == |b|
    requires forall i :: 0 <= i < |a| ==> Get(b[i], PLAYER_ID) == Get(a[i], PLAYER_ID)
    ensures PlayerIds(b) == PlayerIds(a)
  {
    if a != [] {
      var n := |a|;
      var a', b' := a[..n - 1], b[..n - 1];
      forall i | 0 <= i < |a'|
        ensures Get(b'[i], PLAYER_ID) == Get(a'[i], PLAYER_ID)
      {
        assert a'[i] == a[i] && b'[i] == b[i];
      }
      PlayerIdsCongruent(a', b');
      assert Get(b[n - 1], PLAYER_ID) == Get(a[n - 1], PLAYER_ID);
    }
  }

  /** A player with enough games is still a group key after the games filter. */
  lemma GamesFilterKeepsPlayer(f: Frame, minGames: int, id: Cell)
    requires PLAYER_ID in f.columns
    requires id in PlayerIds(f.rows) && DataCleaner.GamesOf(f.rows, id) >= minGames
    ensures id in PlayerIds(DataCleaner.FilterByGamesPlayed(f, minGames).rows)
  {
    var kept := DataCleaner.FilterByGamesPlayed(f, minGames).rows;
    var k :| 0 <= k < |f.rows| && Get(f.rows[k], PLAYER_ID) == id;
    assert f.rows[k] in kept;
    var j :| 0 <= j < |kept| && kept[j] == f.rows[k];
  }

  /** The games filter keeps the whole group of a player with enough games. */
  lemma GroupKeptByGamesFilter(f: Frame, minGames: int, id: Cell)
    requires PLAYER_ID in f.columns
    requires id != Null && DataCleaner.GamesOf(f.rows, id) >= minGames
    ensures Group(DataCleaner.FilterByGamesPlayed(f, minGames).rows, id) == Group(f.rows, id)
  {
    WhereWhere(f.rows, DataCleaner.GamesMask(f.rows, minGames), IdMask(id), IdMask(id));
  }

  /** After the games filter every player in the raw totals played at least the minimum. */
  lemma RawStatsAfterGamesFilter(f: Frame, rawStats: seq<string>, minGames: int)
    requires PLAYER_ID in f.columns && PLAYER_NAME in f.columns && PLAYER_ID !in rawStats
    ensures var r := AggregateRawStats(DataCleaner.FilterByGamesPlayed(f, minGames), rawStats);
      forall k :: 0 <= k < |r.rows| ==> r.rows[k][NUM_GAMES].x >= minGames as real
  {
    var g := DataCleaner.FilterByGamesPlayed(f, minGames);
    var r := AggregateRawStats(g, rawStats);
    forall k | 0 <= k < |r.rows|
      ensures r.rows[k][NUM_GAMES].x >= minGames as real
    {
      RawStatsGames(g, rawStats, k);
      FilteredPlayersMeetMinimum(f, minGames, PlayerIds(g.rows)[k]);
    }
  }
}
