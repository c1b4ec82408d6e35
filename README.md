# FEB basketball clustering: the transformation stage, modelled in Dafny

This project models the stage of the FEB basketball clustering pipeline that
turns per-game box-score rows into one feature row per player:

- the **feature engineer** (`FeatureEngineer`, `feature_engineer.dfy`):
  - seconds to minutes;
  - per-36 rates;
  - shooting percentages and usage rates;
  - interior and exterior zone splits;
  - possessions, OER, true-shooting percentage and DER;
  - `apply_all_transformations`, which runs them in order.
- the **data cleaner** (`DataCleaner`, `data_cleaner.dfy`), which holds the
  row filters and checks:
  - required columns;
  - numeric ranges;
  - percentage clipping;
  - the minutes filter and the games filter;
  - missing values;
  - duplicates.
- the **data aggregator** (`DataAggregator`, `data_aggregator.dfy`):
  - the aggregation by player, in minutes-weighted and simple-mean modes;
  - the raw-total aggregation.
- the **transform** of `ETLPipeline` (`EtlPipeline`, `etl_pipeline.dfy`):
  - team possessions;
  - the loop that pairs each team with its opponent in every match;
  - the left merge of the opponent's possessions and points into the player rows;
  - the games filter and the feature engineering;
  - the choice of clustering and EDA features;
  - the weighted aggregation and the final projections.

A pandas DataFrame is a `Frames.Frame`: a set of column names and a sequence
of rows. Each row is a map from column name to `Cell`. A cell is a number, a
text, or `Null`, which stands for NaN/None.

The modelled pandas semantics:

- A comparison with a missing value is false. So the `np.where(den > 0, ..., 0)` guards give 0 for a missing denominator.
- Arithmetic with a missing value is missing.
- Sums and means skip missing values.
- `==` on keys never matches a missing value.
- The merge does match missing keys to each other.
- The `!=` at src/pipeline/etl_pipeline.py:122 holds whenever a team id is missing. So a team row without one takes the first row of its match as its opponent, which is itself when it comes first.
- Group-by drops missing keys.

The in-place column assignments of the source become functions that return the
extended table. Every call site in the source rebinds the table, so nothing is
lost. `Frames.Extends` states that such a step changes only the columns it writes.

The loops of the source are methods with loop invariants, each proved equal to a
specification function:

- `FeatureEngineer.NormalizePerMinutes`;
- `DataCleaner.ValidateNumericRanges` and `DataCleaner.ValidatePercentages`;
- `DataAggregator.WeightedMean`;
- `EtlPipeline.OpponentLinks`, `EtlPipeline.PairLinks` and `EtlPipeline.AllFeaturesToAggregate`.

The properties are proved about those specification functions.

Numbers are Dafny `real`s. The constants are those of `src/config.py`:

- the free-throw factor 0.44 and the efficiency multiplier 100;
- 60 seconds per minute and the per-36 target;
- the games threshold 5;
- the statistic, zone and feature lists.

`EtlPipeline.Transform` takes these as a `Config` value; `EtlPipeline.CONFIG`
holds the configured one.

## Model

| member | source | states |
|---|---|---|
| Frames.Where | src/data_processing/data_cleaner.py:103 | A boolean-mask selection keeps exactly the rows satisfying the mask and no more than it started with. |
| Frames.WhereCount | src/data_processing/data_cleaner.py:103 | A selection keeps each kept row as many times as it occurs and drops every other row entirely. |
| Frames.WhereAppend | src/data_processing/data_cleaner.py:55-57 | Selection distributes over concatenation, so it never reorders the rows it keeps. |
| Frames.WhereWhere | src/data_processing/data_cleaner.py:55-57 | Two successive mask selections are one selection by the conjunction of the masks. |
| Frames.Unique | src/pipeline/etl_pipeline.py:117 | `unique()` yields every value of the column, each once. |
| Frames.UniqueOrder | src/pipeline/etl_pipeline.py:117 | `unique()` lists the values in order of first appearance: every occurrence of a later value comes after an occurrence of each earlier one. |
| Frames.WithColumn | src/data_processing/feature_engineer.py:29 | A column assignment writes the given value in every row and leaves every other cell unchanged. |
| FeatureEngineer.GuardedRatio | src/data_processing/feature_engineer.py:68-70 | `np.where(den > 0, scale * num / den, 0)`: 0 when the denominator is not a positive number (missing included), missing when only the numerator is missing, otherwise the number whose product with the denominator is `scale * num`. |
| FeatureEngineer.GuardedRatioUnique | src/data_processing/feature_engineer.py:68-70 | The guarded-ratio description determines its value uniquely. |
| FeatureEngineer.GuardedRatioInUnitRange | src/data_processing/feature_engineer.py:68-70 | A made-over-attempted percentage with 0 <= made <= attempted lies in [0, 1], and is never undefined. |
| FeatureEngineer.PossessionsCell | src/data_processing/feature_engineer.py:166-171 | Possessions are `fga + 0.44*fta - orb + tov`, and missing exactly when an input is missing. |
| FeatureEngineer.PossessionsExample | src/data_processing/feature_engineer.py:166-171 | fga=10, fta=5, orb=2, tov=3 give 13.2 possessions. |
| FeatureEngineer.OffensiveRatingExample | src/data_processing/feature_engineer.py:191-195 | 20 points over 13.2 possessions is an OER strictly between 151.51 and 151.52. |
| FeatureEngineer.ShootingAttempts | src/data_processing/feature_engineer.py:215 | The true-shooting attempts are `2 * (fga + 0.44*fta)`, and missing exactly when an input is. |
| FeatureEngineer.MinutesCell | src/data_processing/feature_engineer.py:29 | Minutes played times 60 is the seconds, and missing exactly when the seconds are. |
| FeatureEngineer.PerMinuteCell | src/data_processing/feature_engineer.py:52 | The per-target rate times the minutes played is the stat times the target; it is missing exactly when an input is. |
| FeatureEngineer.ZoneSumsOrdered | src/data_processing/feature_engineer.py:107-111 | When every zone's made count is between 0 and its attempted count, the summed makes are between 0 and the summed attempts. |
| FeatureEngineer.ConvertSecondsToMinutes | src/data_processing/feature_engineer.py:16-31 | Adds `minutes_played` = seconds / 60 to every row, in order, leaving every other cell unchanged. |
| FeatureEngineer.CalculateShootingPercentages | src/data_processing/feature_engineer.py:58-73 | FG2%, FG3% and FT% are made over attempted when attempted > 0, otherwise exactly 0; nothing else changes. |
| FeatureEngineer.CalculateUsageRates | src/data_processing/feature_engineer.py:76-90 | `usage_2p` and `usage_3p` are `2pa/fga` and `3pa/fga` when fga > 0, otherwise 0; nothing else changes. |
| FeatureEngineer.CalculateZoneStats | src/data_processing/feature_engineer.py:107-113 | Zone percentage = zone makes / zone attempts when the attempts are positive, else 0. Zone frequency = zone attempts / fga when fga > 0, else 0. Missing zone values are skipped in the sums. |
| FeatureEngineer.CalculateInteriorStats | src/data_processing/feature_engineer.py:93-116 | `interior_pct` and `interior_freq` follow the zone-split rule over the interior zones. |
| FeatureEngineer.CalculateExteriorStats | src/data_processing/feature_engineer.py:119-142 | `exterior_pct` and `exterior_freq` follow the zone-split rule over the exterior zones. |
| FeatureEngineer.CalculatePossessions | src/data_processing/feature_engineer.py:145-174 | Every row gets its possession estimate; nothing else changes. |
| FeatureEngineer.CalculateOer | src/data_processing/feature_engineer.py:177-198 | OER is 100 * pts / possessions when possessions > 0, otherwise 0. |
| FeatureEngineer.CalculateTrueShootingPct | src/data_processing/feature_engineer.py:201-224 | TS% is pts over the true-shooting attempts when those are positive, otherwise 0. |
| FeatureEngineer.CalculateDer | src/data_processing/feature_engineer.py:227-251 | DER is 100 * opponent_pts / opponent_possessions when the latter is positive, otherwise 0. That includes rows whose opponent data is missing. |
| FeatureEngineer.NatToString | src/data_processing/feature_engineer.py:51 | The decimal text of the target ends in a digit. |
| FeatureEngineer.PerName | src/data_processing/feature_engineer.py:51 | The name `f'{stat}_per{target}'` ends in a digit. |
| FeatureEngineer.PerNameInjective | src/data_processing/feature_engineer.py:51 | Different stats get different normalised column names. |
| FeatureEngineer.NotAPerName | src/data_processing/feature_engineer.py:51 | A name that does not end in a digit (such as `minutes_played`) is never overwritten by the normalisation. |
| FeatureEngineer.NormalizeStep | src/data_processing/feature_engineer.py:50-52 | One loop turn adds the stat's normalised column when the stat is a column, and otherwise changes nothing. |
| FeatureEngineer.CreatedNamesEndInDigit | src/data_processing/feature_engineer.py:49-52 | Every column the loop creates ends in a digit. |
| FeatureEngineer.Normalized | src/data_processing/feature_engineer.py:49-52 | The loop over the stats extends the table by exactly the created columns, with the minutes still usable. |
| FeatureEngineer.NormalizePerMinutes | src/data_processing/feature_engineer.py:34-55 | The loop of `normalize_per_minutes` computes exactly `Normalized`. |
| FeatureEngineer.NormalizedColumns | src/data_processing/feature_engineer.py:49-52 | Without name collisions, one column `stat_per{T}` is created for each listed stat the table has, and none for the listed stats it lacks. |
| FeatureEngineer.StepWrites | src/data_processing/feature_engineer.py:52 | One step writes `stat / minutes_played * T` in every row. |
| FeatureEngineer.StepKeeps | src/data_processing/feature_engineer.py:52 | One step leaves every other column as it was. |
| FeatureEngineer.NormalizedKeepsInputs | src/data_processing/feature_engineer.py:49-52 | The loop leaves the stats it reads, and the minutes played, unchanged. |
| FeatureEngineer.NormalizedValues | src/data_processing/feature_engineer.py:49-52 | After the loop, for every listed stat the table has, every row's `stat_per{T}` is `stat / minutes_played * T`. |
| FeatureEngineer.PlainNamesDoNotCollide | src/data_processing/feature_engineer.py:51 | Stat names not ending in a digit (as all configured ones are) never collide with normalised names. |
| FeatureEngineer.ConvertedMinutesUsable | src/data_processing/feature_engineer.py:29 | Seconds without zeros give minutes played without zeros. |
| FeatureEngineer.MinutesStage | src/data_processing/feature_engineer.py:275-277 | The first two steps add `minutes_played` and the per-minute columns. |
| FeatureEngineer.ShotStage | src/data_processing/feature_engineer.py:278-286 | The shooting steps add percentages, usage and interior columns. The exterior columns are added only when both exterior lists are non-empty. |
| FeatureEngineer.EfficiencyStage | src/data_processing/feature_engineer.py:289-295 | The efficiency steps add possessions, OER and TS%, and add `der` only when both opponent columns exist. |
| FeatureEngineer.FixedNamesNotOpponent | src/data_processing/feature_engineer.py:275-291 | No step before DER writes an opponent column (a step of `EarlyColumnsExcludeOpponent`). |
| FeatureEngineer.FixedNamesNotDer | src/data_processing/feature_engineer.py:275-291 | No step before DER writes `der` (a step of `EarlyColumnsExcludeOpponent`). |
| FeatureEngineer.EarlyColumnsExcludeOpponent | src/data_processing/feature_engineer.py:275-294 | The first two stages never write the opponent columns or `der`, so they cannot change whether DER is computed. |
| FeatureEngineer.IdentityNotDerived | src/data_processing/feature_engineer.py:275-295 | The transformations never write the player id or name. |
| FeatureEngineer.FixedNamesNotIdentity | src/data_processing/feature_engineer.py:275-295 | The fixed derived names are not the player id or name (a step of `IdentityNotDerived`). |
| FeatureEngineer.DerivedDer | src/data_processing/feature_engineer.py:294-295 | `der` is among the derived columns iff both opponent columns exist. |
| FeatureEngineer.EfficiencyColumnsStable | src/data_processing/feature_engineer.py:294 | Adding non-opponent columns does not change the efficiency stage's output columns. |
| FeatureEngineer.ExtendsThree | src/data_processing/feature_engineer.py:275-295 | Three extending stages compose to one extension by the union of their columns (a step of `TransformedShape`). |
| FeatureEngineer.TransformedShape | src/data_processing/feature_engineer.py:254-298 | All the transformations keep the rows in order and add exactly the derived columns. `der` is added iff both opponent columns exist. |
| FeatureEngineer.MinutesStageMinutesPlayed | src/data_processing/feature_engineer.py:275-277 | After the minutes stage every row's minutes played is its seconds over 60. |
| FeatureEngineer.MinutesPlayedNotLater | src/data_processing/feature_engineer.py:278-295 | No later step writes `minutes_played` (a step of `TransformedMinutesPlayed`). |
| FeatureEngineer.ShotStageKeeps | src/data_processing/feature_engineer.py:278-286 | The shooting stage leaves every column it does not write unchanged. |
| FeatureEngineer.EfficiencyStageKeeps | src/data_processing/feature_engineer.py:289-295 | The efficiency stage leaves every column it does not write unchanged. |
| FeatureEngineer.LaterStagesKeep | src/data_processing/feature_engineer.py:278-295 | The later stages keep the row count and every column they do not write. |
| FeatureEngineer.TransformedMinutesPlayed | src/data_processing/feature_engineer.py:254-298 | After every step each row's minutes played is still its seconds over 60. |
| FeatureEngineer.StageInputsKept | src/data_processing/feature_engineer.py:278-295 | The inputs of the later steps survive the earlier ones. |
| FeatureEngineer.ApplyAllTransformations | src/data_processing/feature_engineer.py:254-298 | Runs the steps in the source's order; the result has the input rows in order with exactly the derived columns added. It has `der` iff it had one or both opponent columns exist, and every row's minutes played is its seconds over 60. |
| DataCleaner.MissingColumns | src/data_processing/data_cleaner.py:30 | Lists exactly the required columns the table lacks. |
| DataCleaner.ValidateRequiredColumns | src/data_processing/data_cleaner.py:16-36 | Succeeds with `true` iff every required column exists. Otherwise it fails with a non-empty list of exactly the missing ones, in the order they were required (`MissingColumns`, whose order `MissingColumnsAppend` states). |
| DataCleaner.MissingColumnsAppend | src/data_processing/data_cleaner.py:30 | The missing columns of two requirement lists are each list's missing columns, in turn. |
| DataCleaner.RangeValidated | src/data_processing/data_cleaner.py:52-57 | Keeps exactly the rows within every applicable bound. The columns are unchanged, and validations on absent columns are ignored. |
| DataCleaner.RangeValidatedOrder | src/data_processing/data_cleaner.py:52-57 | The validation keeps the row order (validating two stacked tables stacks their results) and keeps each accepted row as often as it occurs. |
| DataCleaner.RangeValidatedStep | src/data_processing/data_cleaner.py:52-57 | One more validation entry is one more selection by that entry alone. |
| DataCleaner.KeepWithinBounds | src/data_processing/data_cleaner.py:54-57 | The minimum filter followed by the maximum filter is the selection by the whole entry. |
| DataCleaner.ValidateNumericRanges | src/data_processing/data_cleaner.py:39-63 | The loop that reassigns the table computes exactly `RangeValidated`. |
| DataCleaner.MinThenMax | src/data_processing/data_cleaner.py:54-57 | Filtering by `min` and then by `max` selects the rows with min <= v <= max. A missing value never passes. |
| DataCleaner.RangeValidatedIdempotent | src/data_processing/data_cleaner.py:52-57 | Validating a validated table changes nothing. |
| DataCleaner.ClipCell | src/data_processing/data_cleaner.py:86 | `clip(0, 1)` puts a value in [0, 1]: a value in range is unchanged, and one outside becomes the nearer bound. A missing value stays missing. |
| DataCleaner.InvalidCount | src/data_processing/data_cleaner.py:80-81 | The count is 0 iff no value lies outside [0, 1]. |
| DataCleaner.ClipColumn | src/data_processing/data_cleaner.py:86 | Clipping a column rewrites exactly that column, cell by cell. |
| DataCleaner.ClipColumnUnchanged | src/data_processing/data_cleaner.py:80-86 | Clipping a column with no invalid value changes nothing, so the `invalid_count > 0` guard only skips no-ops. |
| DataCleaner.PercentagesClipped | src/data_processing/data_cleaner.py:77-86 | Validation rewrites only the listed columns the table has. |
| DataCleaner.ValidatePercentages | src/data_processing/data_cleaner.py:66-88 | The loop computes exactly `PercentagesClipped`. |
| DataCleaner.PercentagesClippedValues | src/data_processing/data_cleaner.py:77-86 | After validation every listed present column holds its original values clipped to [0, 1], however often it is listed. |
| DataCleaner.FilterByMinutes | src/data_processing/data_cleaner.py:91-107 | Keeps exactly the rows whose minutes exceed the minimum, and never more rows. |
| DataCleaner.FilterByMinutesOrder | src/data_processing/data_cleaner.py:103 | The minutes filter keeps the row order (filtering two stacked tables stacks their results) and keeps each kept row as often as it occurs. |
| DataCleaner.FilterByMinutesTwice | src/data_processing/data_cleaner.py:103 | Two minutes filters equal one filter by the larger minimum. |
| DataCleaner.GamesOf | src/data_processing/data_cleaner.py:123 | A player's group size is positive iff the player has a row. |
| DataCleaner.FilterByGamesPlayed | src/data_processing/data_cleaner.py:110-132 | Keeps exactly the rows of players with a present id and at least `min_games` rows. |
| DataCleaner.GamesOfWhereAll | src/data_processing/data_cleaner.py:127 | A selection that keeps all of a player's rows keeps their count. |
| DataCleaner.GamesOfWhereNone | src/data_processing/data_cleaner.py:127 | A selection that drops all of a player's rows leaves none. |
| DataCleaner.GamesOfAppend | src/data_processing/data_cleaner.py:123 | Row counts per player add over concatenation. |
| DataCleaner.FilterByGamesPlayedCounts | src/data_processing/data_cleaner.py:123-127 | All-or-nothing per player: a qualifying player keeps all their rows, and any other player keeps none. |
| DataCleaner.FilterByGamesPlayedOrder | src/data_processing/data_cleaner.py:123-127 | The games filter keeps the row order: on two stacked tables it keeps the kept rows of each part, stacked, with games counted over both. It keeps each kept row as often as it occurs. |
| DataCleaner.FilterByGamesPlayedIdempotent | src/data_processing/data_cleaner.py:123-127 | Applying the games filter twice equals applying it once. |
| DataCleaner.HandleMissingValues | src/data_processing/data_cleaner.py:135-160 | `drop` keeps exactly the rows with no missing value. `fill` replaces exactly the missing cells with the fill value. Both leave no missing value, and any other strategy is an error naming it. |
| DataCleaner.FillRowComplete | src/data_processing/data_cleaner.py:153 | Filling a complete row changes nothing. |
| DataCleaner.DropUnchanged | src/data_processing/data_cleaner.py:151 | Dropping on a table without missing values returns it unchanged. |
| DataCleaner.FillUnchanged | src/data_processing/data_cleaner.py:153 | Filling a table without missing values returns it unchanged. |
| DataCleaner.DropOrder | src/data_processing/data_cleaner.py:150-151 | `dropna` keeps the row order (dropping from two stacked tables stacks their results) and keeps each complete row as often as it occurs. |
| DataCleaner.HandleMissingValuesUnchanged | src/data_processing/data_cleaner.py:150-153 | Both strategies are the identity on a table without missing values. |
| DataCleaner.KeepFirst | src/data_processing/data_cleaner.py:175 | Keeps only table rows, with pairwise distinct keys and every key of the table surviving. |
| DataCleaner.KeySetAppend | src/data_processing/data_cleaner.py:175 | The keys of a concatenation are the union of the keys. |
| DataCleaner.KeepFirstKeepsFirstOccurrences | src/data_processing/data_cleaner.py:175 | The first row of every key is the one kept. |
| DataCleaner.RemoveDuplicates | src/data_processing/data_cleaner.py:163-179 | On the subset (or all columns) the kept rows have distinct keys, every key survives, and each key's first occurrence is kept. |
| DataCleaner.KeepFirstDistinct | src/data_processing/data_cleaner.py:175 | Rows with distinct keys are all kept, in order. |
| DataCleaner.KeepFirstPrefix | src/data_processing/data_cleaner.py:175 | Later rows never disturb what was kept: the rows kept from a table are, in order, a prefix of those kept once more rows are appended. |
| DataCleaner.RemoveDuplicatesIdempotent | src/data_processing/data_cleaner.py:175 | Removing duplicates twice removes them once. |
| DataAggregator.PlayerIds | src/data_processing/data_aggregator.py:42 | The group keys are the present player ids, each once. |
| DataAggregator.Group | src/data_processing/data_aggregator.py:42 | A group holds exactly the rows of its player. |
| DataAggregator.GroupNonEmpty | src/data_processing/data_aggregator.py:42 | Every key's group is non-empty. |
| DataAggregator.GroupSizeIsGames | src/data_processing/data_aggregator.py:86 | A group's size is the player's row count that the games filter uses. |
| DataAggregator.ColumnSumAppend | src/data_processing/data_aggregator.py:40 | Column sums add over concatenation. |
| DataAggregator.GroupAppend | src/data_processing/data_aggregator.py:42 | One more row adds its value to its own player's group sum and no other. |
| DataAggregator.SumOverIdsAppend | src/data_processing/data_aggregator.py:42 | One more row adds its value once to the sum over distinct ids. |
| DataAggregator.GroupOfAbsent | src/data_processing/data_aggregator.py:42 | A player with no rows has an empty group. |
| DataAggregator.WithIdSumAppend | src/data_processing/data_aggregator.py:42 | One more row adds its value to the sum over rows with an id exactly when it has an id. |
| DataAggregator.GroupSumsAppend | src/data_processing/data_aggregator.py:42 | One more row changes the sum over all groups by exactly its own contribution. |
| DataAggregator.GroupSumsPartition | src/data_processing/data_aggregator.py:42 | The group sums add up to the column's sum over the rows with an id: nothing lost, nothing twice. |
| DataAggregator.CountPresent | src/data_processing/data_aggregator.py:37 | The number of present values, the mean's divisor, is at most the group size, and is zero exactly when every value is missing (the mean is then missing). |
| DataAggregator.FirstPresent | src/data_processing/data_aggregator.py:38 | `first()` is missing iff every value is missing, and otherwise is a value of the group. |
| DataAggregator.WeightedMean | src/data_processing/data_aggregator.py:46-55 | The loop of `weighted_mean` builds exactly `WeightedRow`: the first row's name, each present feature as Σ(f·m)/Σm, and the total minutes. |
| DataAggregator.AggregateByPlayer | src/data_processing/data_aggregator.py:15-63 | One row per present player id, in key order. The columns are the id, the name, the present features and, when present, `minutes_played`. A player's `minutes_played` is the sum of their games' minutes in both modes. |
| DataAggregator.AggregatedValues | src/data_processing/data_aggregator.py:35-57 | A feature is the weighted mean Σ(f·m)/Σm in weighted mode (weighted and `minutes_played` present), otherwise the plain mean. The name is the first row's in weighted mode and the first present one otherwise. |
| DataAggregator.AggregatedSum | src/data_processing/data_aggregator.py:40 | Rows carrying their group sums add up to the sum over the groups. |
| DataAggregator.MinutesConserved | src/data_processing/data_aggregator.py:40-54 | The players' total minutes add up to the minutes of all rows with an id. |
| DataAggregator.UniformMinutesSums | src/data_processing/data_aggregator.py:48-52 | With equal minutes m, total minutes = n·m and the weighted sum = m·(plain sum). |
| DataAggregator.UniformTotals | src/data_processing/data_aggregator.py:48-52 | The same sums, stated of named values. |
| DataAggregator.CancelWeight | src/data_processing/data_aggregator.py:52 | m·s / (n·m) = s / n (a step of `UniformQuotient`). |
| DataAggregator.UniformQuotient | src/data_processing/data_aggregator.py:52 | With equal positive minutes the weighted quotient is the plain average. |
| DataAggregator.MeanOfComplete | src/data_processing/data_aggregator.py:37 | The mean of a column with no missing value is its sum over the row count. |
| DataAggregator.CompleteCount | src/data_processing/data_aggregator.py:37 | With no missing value every value is counted. |
| DataAggregator.EqualMinutesWeightedIsMean | src/data_processing/data_aggregator.py:35-52 | With equal minutes in every game and no missing feature, the weighted mean equals the simple mean. |
| DataAggregator.WeightedRowAt | src/data_processing/data_aggregator.py:52 | A feature of a weighted row is Σ(f·m)/Σm. |
| DataAggregator.SimpleRowAt | src/data_processing/data_aggregator.py:37 | A feature of a simple row is its mean. |
| DataAggregator.WeightedSumAtLeast | src/data_processing/data_aggregator.py:52 | Σ(f·m) ≥ lo·Σm when every value is at least lo and the minutes are positive. |
| DataAggregator.WeightedSumAtMost | src/data_processing/data_aggregator.py:52 | Σ(f·m) ≤ hi·Σm when every value is at most hi and the minutes are positive. |
| DataAggregator.LowerStep | src/data_processing/data_aggregator.py:52 | One more game keeps the lower bound (the inductive step of `WeightedSumAtLeast`). |
| DataAggregator.UpperStep | src/data_processing/data_aggregator.py:52 | One more game keeps the upper bound (the inductive step of `WeightedSumAtMost`). |
| DataAggregator.WeightedQuotientWithin | src/data_processing/data_aggregator.py:48-52 | The weighted quotient of values within [lo, hi] lies within [lo, hi]. |
| DataAggregator.WeightedMeanWithinRange | src/data_processing/data_aggregator.py:46-55 | With positive minutes a player's weighted feature lies between the smallest and largest value of their games. |
| DataAggregator.SingleGameWeighted | src/data_processing/data_aggregator.py:46-55 | A player with a single game aggregates to that game's value. |
| DataAggregator.QuotientBounds | src/data_processing/data_aggregator.py:52 | lo·t ≤ s ≤ hi·t with t > 0 gives lo ≤ s/t ≤ hi (a step of `WeightedQuotientWithin`). |
| DataAggregator.PositiveMinutesSum | src/data_processing/data_aggregator.py:48 | Positive minutes in every game give a positive total, so the division is defined. |
| DataAggregator.AggregateRawStats | src/data_processing/data_aggregator.py:66-91 | With `num_games` taken as the group size, there is one row per present player id, in key order, with the sums, the first name and `num_games`. |
| DataAggregator.RawStatsGames | src/data_processing/data_aggregator.py:86 | A player's `num_games` is the row count the games filter uses. |
| DataAggregator.RawStatsValues | src/data_processing/data_aggregator.py:84-88 | A player's value of each present raw statistic is the sum over that player's rows, and the name is the first name that is not missing. |
| DataAggregator.AggregateRawStatsAsWritten | src/data_processing/data_aggregator.py:84-88 | As written, the aggregation succeeds iff the table already has a `num_games` column, and then agrees with `AggregateRawStats`. Otherwise it is a KeyError naming `num_games`. |
| DataAggregator.RawStatsAsWrittenFails | src/data_processing/data_aggregator.py:84-88 | A one-game table without `num_games` makes the code as written fail, while the intended aggregation reports one game. |
| DataAggregator.RawStatsConserved | src/data_processing/data_aggregator.py:84-88 | The players' raw totals add up to the totals of all rows with an id. |
| DataAggregator.GroupSumCongruent | src/data_processing/data_aggregator.py:40-42 | Tables that agree row by row on the ids and on a column have the same group sums of it. |
| DataAggregator.PlayerIdsCongruent | src/data_processing/data_aggregator.py:42 | Tables that agree row by row on the ids have the same group keys, in the same order. |
| DataAggregator.GamesFilterKeepsPlayer | src/data_processing/data_cleaner.py:123-127 | A player with at least `min_games` rows is still a group key after the games filter. |
| DataAggregator.GroupKeptByGamesFilter | src/data_processing/data_cleaner.py:123-127 | The games filter keeps the whole group of a player with at least `min_games` rows. |
| DataAggregator.FilteredPlayersMeetMinimum | src/data_processing/data_cleaner.py:123-127 | Every player left by the games filter has at least `min_games` rows. |
| DataAggregator.RawStatsAfterGamesFilter | src/data_processing/data_aggregator.py:86 | After the games filter every player's `num_games` is at least the minimum. |
| EtlPipeline.ConfiguredClusteringFeatures | src/config.py:44-51 | The configured clustering list has twenty features, `der` among them. |
| EtlPipeline.ConfiguredFeaturesUsable | src/config.py:44-59 | No configured feature is the player id, the name or `minutes_played`. |
| EtlPipeline.TeamPossessions | src/pipeline/etl_pipeline.py:108-113 | Every team row gets `team_possessions = fga + 0.44*fta - orb + tov`, missing exactly when an input is missing. Nothing else changes. |
| EtlPipeline.FirstOtherSound | src/pipeline/etl_pipeline.py:122 | `.iloc[0]` on the rows with another team id finds a row iff such a row exists, and then it is one of them. |
| EtlPipeline.LinkForSound | src/pipeline/etl_pipeline.py:121-128 | A team row is linked iff its match has a row with another team id. The link then carries that row's possessions and points. |
| EtlPipeline.MatchLinksOfPair | src/pipeline/etl_pipeline.py:120-122 | Pairing a match's two rows fails iff both carry the same present team id. |
| EtlPipeline.FirstOtherOfPair | src/pipeline/etl_pipeline.py:122 | On two rows the opponent is the first row whose team id differs. |
| EtlPipeline.LinksFailurePersists | src/pipeline/etl_pipeline.py:117-128 | After a failure the remaining match ids do not change the outcome. |
| EtlPipeline.LinksForStep | src/pipeline/etl_pipeline.py:117-128 | One more match id appends that match's links. |
| EtlPipeline.LinksFailAt | src/pipeline/etl_pipeline.py:117-128 | The first failing match is the outcome of the whole loop. |
| EtlPipeline.PairLinks | src/pipeline/etl_pipeline.py:121-128 | The inner loop over a match's two team rows computes exactly that match's links, or fails where `.iloc[0]` raises. |
| EtlPipeline.OpponentLinks | src/pipeline/etl_pipeline.py:116-128 | The loop over the player table's match ids builds exactly `LinksFor`. |
| EtlPipeline.OwnLinksSound | src/pipeline/etl_pipeline.py:120-128 | A match's links belong to that match and carry the other team's values. |
| EtlPipeline.LinksSound | src/pipeline/etl_pipeline.py:117-128 | Every link belongs to a player-table match with exactly two team rows and names the other team's possessions and points. |
| EtlPipeline.OwnLinksComplete | src/pipeline/etl_pipeline.py:120-128 | Both team rows of a two-team match get a link naming their own team. |
| EtlPipeline.LinksComplete | src/pipeline/etl_pipeline.py:117-128 | Every team row of a two-team match of the player table gets its link. |
| EtlPipeline.LinksFailure | src/pipeline/etl_pipeline.py:117-128 | The loop fails iff some player-table match has two team rows with the same team id, and it then reports such a match. |
| EtlPipeline.LinksNonEmpty | src/pipeline/etl_pipeline.py:117-120 | Without failure there are links iff some player-table match has exactly two team rows. Matches with 0, 1 or 3+ rows give none. |
| EtlPipeline.UniqueKeysAppend | src/pipeline/etl_pipeline.py:123-128 | Link lists of different matches concatenate without a repeated merge key. |
| EtlPipeline.LinksUniqueKeys | src/pipeline/etl_pipeline.py:117-128 | When every team row has a team id, no two links share a (match, team) key. |
| EtlPipeline.OwnLinksUnique | src/pipeline/etl_pipeline.py:121-128 | Without missing team ids the two links of a match name different teams. |
| EtlPipeline.LeftMerge | src/pipeline/etl_pipeline.py:133 | The left merge adds the two opponent columns. |
| EtlPipeline.LeftMergeRowsFrom | src/pipeline/etl_pipeline.py:133 | Every merged row is a player row with its opponent cells set. |
| EtlPipeline.LeftMergeKeepsEveryRow | src/pipeline/etl_pipeline.py:133 | The left merge drops no player row. |
| EtlPipeline.AtMostOneMatch | src/pipeline/etl_pipeline.py:133 | With unique keys a player row matches at most one link. |
| EtlPipeline.MergedSingle | src/pipeline/etl_pipeline.py:133 | With unique keys a player row becomes exactly one merged row. |
| EtlPipeline.AttachedValues | src/pipeline/etl_pipeline.py:133 | A merged row has the player's cells plus the opponent values of its link, or missing (not zero) values without one. |
| EtlPipeline.LeftMergeRowsOneToOne | src/pipeline/etl_pipeline.py:133 | With unique keys the merge keeps the rows one for one, in order. |
| EtlPipeline.LeftMergeOneToOne | src/pipeline/etl_pipeline.py:133 | With unique keys the merge extends the player table row for row. A linked row gets its link's values and an unlinked row gets missing values. |
| EtlPipeline.MergeOpponentsAsWritten | src/pipeline/etl_pipeline.py:130-133 | As written, the merge fails iff there are no links; when it succeeds both opponent columns exist. |
| EtlPipeline.MergeOpponents | src/pipeline/etl_pipeline.py:130-133 | The corrected merge keeps the table unchanged without links, and otherwise adds the opponent columns. |
| EtlPipeline.MergeOpponentsAgrees | src/pipeline/etl_pipeline.py:130-133 | Wherever the merge as written succeeds, the corrected merge gives the same table. |
| EtlPipeline.MergeOpponentsColumns | src/pipeline/etl_pipeline.py:130-133 | After the corrected merge the opponent columns exist iff there are links or the table had them. |
| EtlPipeline.NoLinksMergeFails | src/pipeline/etl_pipeline.py:116-133 | A player table whose only match has one team row gets no links. The merge as written then fails, while the corrected one keeps the table. |
| EtlPipeline.ClusteringFeaturesDer | src/pipeline/etl_pipeline.py:153-161 | `der` is chosen iff both opponent columns and `der` exist. Every other listed feature is always chosen, and none twice when the list has no repeats. |
| EtlPipeline.EdaFeatures | src/pipeline/etl_pipeline.py:164 | The EDA features are exactly the listed ones the table has, without repeats. |
| EtlPipeline.AppendMissing | src/pipeline/etl_pipeline.py:168-170 | Appending the items not yet listed gives exactly the union of both lists. |
| EtlPipeline.AllFeaturesToAggregate | src/pipeline/etl_pipeline.py:167-170 | The loop builds exactly `AppendMissing` of the clustering and EDA features: the clustering features first, then the EDA features not yet listed. The list is exactly the union, with no duplicates when the clustering list has none. |
| EtlPipeline.Select | src/pipeline/etl_pipeline.py:180-181 | `df[cols]` succeeds iff every column exists, keeping every row's values. Otherwise it fails naming exactly the missing ones. |
| EtlPipeline.MatchRowsCongruent | src/pipeline/etl_pipeline.py:118 | Tables agreeing on match and team ids select the same match rows. |
| EtlPipeline.PossessionsKeepPairing | src/pipeline/etl_pipeline.py:108-122 | Adding team possessions changes no match's row count or pairing outcome. |
| EtlPipeline.MergedRowsFromPlayers | src/pipeline/etl_pipeline.py:133 | Every merged row carries a player row's id and minutes. |
| EtlPipeline.MergedAndFilteredReady | src/pipeline/etl_pipeline.py:133-137 | After merge and games filter the feature inputs are present and minutes stay positive. The opponent columns exist iff links were built. |
| EtlPipeline.MinutesPlayedPositive | src/pipeline/etl_pipeline.py:140-148 | Positive seconds give positive minutes played. |
| EtlPipeline.WeightedAggregationDefined | src/pipeline/etl_pipeline.py:175-177 | Positive minutes played make every player's total non-zero, so the weighted aggregation is defined. |
| EtlPipeline.IdentityNotAFeature | src/pipeline/etl_pipeline.py:153-170 | The id, name and `minutes_played` are never chosen as features. |
| EtlPipeline.DerChosen | src/pipeline/etl_pipeline.py:140-161 | `der` is a chosen feature iff some link was built. |
| EtlPipeline.GamesOfCongruent | src/pipeline/etl_pipeline.py:137 | Tables agreeing on ids count the same games per player. |
| EtlPipeline.MergeKeepsIds | src/pipeline/etl_pipeline.py:133 | With unique keys the merge keeps every player id in place. |
| EtlPipeline.MergeKeepsGames | src/pipeline/etl_pipeline.py:133-137 | With unique keys the merge keeps every player's count of rows. |
| EtlPipeline.FilteredRowsFromPlayers | src/pipeline/etl_pipeline.py:133-137 | Every row kept by the games filter belongs to a player of the input. |
| EtlPipeline.TransformedPlayers | src/pipeline/etl_pipeline.py:140-148 | Feature engineering introduces no new player. |
| EtlPipeline.PairOpponents | src/pipeline/etl_pipeline.py:108-128 | Fails iff a player-table match has two team rows sharing a team id, reporting such a match. Otherwise links exist iff some player-table match has two team rows, and with no missing team ids they have unique keys. |
| EtlPipeline.MergeAsWrittenFailsUnpaired | src/pipeline/etl_pipeline.py:117-133 | As written, when no match fails to pair, the merge raises KeyError exactly when no player-table match has two team rows. |
| EtlPipeline.EngineeredTable | src/pipeline/etl_pipeline.py:130-148 | The corrected merge, the games filter and all the transformations, as a value: it keeps the player columns, adds `minutes_played`, and every row has positive minutes played. |
| EtlPipeline.MergeKeepsMinutes | src/pipeline/etl_pipeline.py:133 | With unique keys the merge keeps every player's total seconds. |
| EtlPipeline.GroupMinutesPlayed | src/data_processing/feature_engineer.py:29 | When every row's minutes played is its seconds over 60, each player's total minutes played times 60 is their total seconds. |
| EtlPipeline.TransformedMinutesSum | src/pipeline/etl_pipeline.py:140-148 | Feature engineering keeps the rows and their ids, and each player's total minutes played is their total seconds over 60. |
| EtlPipeline.EngineeredMinutes | src/pipeline/etl_pipeline.py:130-148 | With unique keys, a player with enough games has, in the engineered table, total minutes played equal to their input seconds over 60. |
| EtlPipeline.EngineeredKeepsPlayer | src/pipeline/etl_pipeline.py:130-148 | With unique keys, every input player with at least `minGames` rows is still in the engineered table. |
| EtlPipeline.EngineerFeatures | src/pipeline/etl_pipeline.py:130-148 | With the corrected merge (see Findings): computes exactly `EngineeredTable`. It keeps the player columns and gives positive minutes played. `der` becomes a clustering feature iff links exist. Only input players remain, each with at least the configured number of games when keys are unique. |
| EtlPipeline.AggregateFeatures | src/pipeline/etl_pipeline.py:150-181 | Fails iff a chosen clustering feature is not a column, naming exactly those. Otherwise the aggregated table is exactly the weighted `AggregateByPlayer` of the engineered table over `AppendMissing(clustering, eda)`. The information and feature tables have one row per aggregated row, in the same order, each holding that row's values of its columns. |
| EtlPipeline.AggregatedPlayers | src/pipeline/etl_pipeline.py:137-177 | With unique keys, the aggregation of the engineered table delivers every input player with at least `minGames` rows. Each delivered player has such a count, and minutes played equal to their input seconds over 60. |
| EtlPipeline.AggregatedDelivered | src/pipeline/etl_pipeline.py:175-198 | A successful aggregation of the engineered table meets every promise of `Delivered`. |
| EtlPipeline.Transform | src/pipeline/etl_pipeline.py:101-198 | With the corrected merge (see Findings): fails with the match iff some player-table match has two team rows with one team id. A missing-features error names only configured features absent from the input. On success the aggregated table is exactly `AggregatedTable` of `EngineeredTable` on the links `LinksFor` builds, and `Delivered` holds. |

On success of `EtlPipeline.Transform` (with the corrected merge):

- the player information has exactly the id and the name;
- `der` is a feature iff some match had two team rows, and every other configured clustering feature is one;
- the aggregated table has one row per player, each player once;
- the information and feature tables have as many rows as the aggregated table. Their row k holds the aggregated row k's values of their own columns, so the player id of every information row is that of the aggregated row. The feature table has no id column, so row order alone ties it to a player;
- every player comes from the input;
- when no team row lacks its id:
  - every delivered player has at least `minGames` rows;
  - every input player with at least `minGames` rows is delivered;
  - each player's `minutes_played` is the sum of their input seconds over 60.

## Left out

- The scaling of `transform` (src/pipeline/etl_pipeline.py:184-188) and its `features_raw` / `features_scaled` outputs. The scaler wraps sklearn, whose fitting is not visible, and its inf/NaN handling has no `real` counterpart. The `full_data` entry is the aggregated table again.
- Extraction, loading, the MongoDB client, CSV files, logging and the command line. `transform` receives its two tables as parameters.
- `aggregate_with_custom_functions`: a pass-through to pandas' `agg` with a caller-given dictionary of functions.
- In-place mutation and aliasing of DataFrames: every step returns a new table. The source always rebinds the result, so no behaviour is lost.
- The column-name parameters with defaults (`seconds_col`, `minutes_col`, `player_id_col`, `player_name_col`) are fixed at their defaults, the only values the pipeline uses.
- The order of group-by keys: pandas sorts them. The model keeps them in order of first appearance, so only the row order of aggregated tables differs.
- Text cells in arithmetic and comparisons count as non-numbers. Floating-point rounding, infinities and NaN produced by division are not modelled: numbers are exact reals.
- `remove_duplicates` with an empty subset list: the model compares no column and keeps only the first row, which need not be what pandas does.
- `df[cols]` with a repeated name: the model selects the set of names, so the repeated column appears once.
- Merge suffixes: the player table is required not to carry opponent columns already (`EtlPipeline.PlayerInputs`), so `_x`/`_y` columns never arise.
- EtlPipeline.Transform: models the pipeline with the corrected merge. As written, the source raises KeyError at src/pipeline/etl_pipeline.py:133 whenever no player-table match has exactly two team rows (`EtlPipeline.MergeAsWrittenFailsUnpaired`); the model then goes on without `der`.
- EtlPipeline.EngineerFeatures: uses the corrected merge, so with no links it keeps the player table. As written, the source raises KeyError there (`EtlPipeline.MergeOpponentsAsWritten`).
- EtlPipeline.Transform: requires positive minutes in every player row, the guarantee of the extraction query. With zero minutes the source divides by zero in the per-36 rates and the weighted mean.
- EtlPipeline.Transform: it does not state outright when the clustering projection succeeds. It states that a missing-features error names only configured features the input lacked.
- EtlPipeline.Transform: the promise that every delivered player has at least `minGames` rows is stated only when no team row lacks its team id. The `!=` at line 122 holds whenever a team id is missing, so a team row without one takes the first row of its match as its opponent (itself when it comes first). Since the merge matches missing keys, a match whose two team rows both lack ids yields two links keyed (match, missing) and duplicates the matching player rows.
- EtlPipeline.Transform: the configuration is a parameter; `EtlPipeline.CONFIG` holds the configured values, and `ConfiguredFeaturesUsable` proves they meet the requirement.
- Missing columns: where pandas raises KeyError for a column the table lacks, the model requires the column instead of modelling the error. This holds for FeatureEngineer.ConvertSecondsToMinutes, FeatureEngineer.CalculateShootingPercentages, FeatureEngineer.CalculateUsageRates, FeatureEngineer.CalculateZoneStats (and so CalculateInteriorStats and CalculateExteriorStats), FeatureEngineer.CalculatePossessions, FeatureEngineer.CalculateOer, FeatureEngineer.CalculateTrueShootingPct and FeatureEngineer.TransformInputs; for DataCleaner.FilterByMinutes, DataCleaner.FilterByGamesPlayed and DataCleaner.RemoveDuplicates with a subset naming an absent column; and for EtlPipeline.TeamPossessions, EtlPipeline.PairOpponents and EtlPipeline.Transform; and for DataAggregator.AggregateByPlayer and DataAggregator.AggregateRawStats, which require the player id and name columns (KeyError at src/data_processing/data_aggregator.py:38, 42 and 86-88).
- DataAggregator.AggregateByPlayer and DataAggregator.AggregateRawStats: require that the player id is not among the features or raw statistics. In the source `reset_index` would then insert the id column a second time and fail (src/data_processing/data_aggregator.py:42, 59 and 88). The pipeline never asks for it (`EtlPipeline.IdentityNotAFeature`).
- DataAggregator.AggregateByPlayer: requires, in weighted mode, that no player's minutes add up to zero. The source divides by that total and would produce NaN or infinity.
- DataAggregator.UniformQuotient: stated for positive equal minutes only.
- EtlPipeline.ConfiguredClusteringFeatures: does not prove the configured list free of repeats.
- FeatureEngineer.PerMinuteCell: requires non-zero minutes played, since the source's division is unguarded.

## Findings

| source | as written | input that shows it | evidently intended | confidence | as-written member | corrected member |
|---|---|---|---|---|---|---|
| src/pipeline/etl_pipeline.py:130-133 | When no match yields an opponent link, `pd.DataFrame([])` has no columns and the merge on `match_feb_id`/`team_feb_id` raises KeyError. The warning branch that drops `der` (lines 159-161) is then unreachable. | a player table whose only match has a single team row in the team table | skip the merge when there are no links, leave the opponent columns out, and drop `der` from the clustering features | not executed | EtlPipeline.MergeOpponentsAsWritten, EtlPipeline.NoLinksMergeFails | EtlPipeline.MergeOpponents, EtlPipeline.MergeOpponentsColumns |
| src/data_processing/data_aggregator.py:86-88 | The aggregation dictionary entry `'num_games': 'size'` names a column the table does not have, so `groupby(...).agg` raises KeyError | a one-game table with columns `player_feb_id`, `player_name`, `pts` and raw stats `["pts"]` | `num_games` is each player's group size | not executed | DataAggregator.AggregateRawStatsAsWritten, DataAggregator.RawStatsAsWrittenFails | DataAggregator.AggregateRawStats, DataAggregator.RawStatsGames |
