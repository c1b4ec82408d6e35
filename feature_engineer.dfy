/**
 * The feature engineer: per-game derived statistics. Each formula is a
 * guarded expression whose "else 0" branch keeps a zero (or missing)
 * denominator from producing NaN or infinity, and each writer adds its
 * columns to every row of the table, leaving every other cell alone.
 */
module FeatureEngineer {
  import opened Frames

  const FREE_THROW_POSSESSION_FACTOR: real := 0.44
  const EFFICIENCY_MULTIPLIER: real := 100.0
  const SECONDS_PER_MINUTE: real := 60.0
  const MINUTES_NORMALIZATION: nat := 36

  const OPPONENT_POSSESSIONS := "opponent_possessions"
  const OPPONENT_PTS := "opponent_pts"

  const SHOOTING_INPUTS: set<string> := {"2pa", "2pm", "3pa", "3pm", "fta", "ftm"}
  const SHOOTING_PCT: set<string> := {"fg2_pct", "fg3_pct", "ft_pct"}
  const USAGE_INPUTS: set<string> := {"fga", "2pa", "3pa"}
  const USAGE_RATES: set<string> := {"usage_2p", "usage_3p"}
  const INTERIOR_STATS: set<string> := {"interior_pct", "interior_freq"}
  const EXTERIOR_STATS: set<string> := {"exterior_pct", "exterior_freq"}
  const POSSESSION_INPUTS: set<string> := {"fga", "fta", "orb", "tov"}
  const ADVANCED_STATS: set<string> := {"possessions", "oer", "true_shooting_pct"}

  // ------------------------------------------------------------------ formulas

  /**
   * What `np.where(den > 0, scale * (num / den), 0)` yields for one row: 0 when
   * the denominator is not a positive number (a missing one fails the
   * comparison), the missing marker when a positive denominator meets a missing
   * numerator, and otherwise the number whose product with the denominator is
   * `scale * num`.
   */
  ghost predicate IsGuardedRatio(r: Cell, num: Cell, den: Cell, scale: real) {
    && (!Positive(den) ==> r == Num(0.0))
    && (Positive(den) && num.Num? ==> r.Num? && r.x * den.x == scale * num.x)
    && (Positive(den) && !num.Num? ==> r == Null)
  }

  function GuardedRatio(num: Cell, den: Cell, scale: real): (r: Cell)
    ensures IsGuardedRatio(r, num, den, scale)
  {
    if Positive(den) then (if num.Num? then Num(scale * (num.x / den.x)) else Null)
    else Num(0.0)
  }

  /** The description above leaves no freedom: it determines the value. */
  lemma GuardedRatioUnique(a: Cell, b: Cell, num: Cell, den: Cell, scale: real)
    requires IsGuardedRatio(a, num, den, scale) && IsGuardedRatio(b, num, den, scale)
    ensures a == b
  {
    if Positive(den) && num.Num? {
      assert (a.x - b.x) * den.x == 0.0;
    }
  }

  /** A ratio of made to attempted shots is a percentage in [0, 1] whenever 0 <= made <= attempted. */
  lemma GuardedRatioInUnitRange(made: Cell, attempted: Cell)
    requires made.Num? && attempted.Num? && 0.0 <= made.x <= attempted.x
    ensures GuardedRatio(made, attempted, 1.0).Num?
    ensures 0.0 <= GuardedRatio(made, attempted, 1.0).x <= 1.0
  {
  }

  /** The standard possession estimate, shared by players and teams. */
  function Possessions(fga: real, fta: real, orb: real, tov: real): real {
    fga + FREE_THROW_POSSESSION_FACTOR * fta - orb + tov
  }

  /** Possessions over cells: any missing input makes the result missing. */
  function PossessionsCell(fga: Cell, fta: Cell, orb: Cell, tov: Cell): (r: Cell)
    ensures r.Num? <==> fga.Num? && fta.Num? && orb.Num? && tov.Num?
    ensures r.Num? ==> r.x == Possessions(fga.x, fta.x, orb.x, tov.x)
  {
    if fga.Num? && fta.Num? && orb.Num? && tov.Num? then Num(Possessions(fga.x, fta.x, orb.x, tov.x))
    else Null
  }

  /** 10 field-goal attempts, 5 free throws, 2 offensive rebounds and 3 turnovers are 13.2 possessions. */
  lemma PossessionsExample()
    ensures PossessionsCell(Num(10.0), Num(5.0), Num(2.0), Num(3.0)) == Num(13.2)
  {
  }

  /** 20 points over those 13.2 possessions is an offensive rating of about 151.52. */
  lemma OffensiveRatingExample()
    ensures GuardedRatio(Num(20.0), Num(13.2), EFFICIENCY_MULTIPLIER).Num?
    ensures 151.51 < GuardedRatio(Num(20.0), Num(13.2), EFFICIENCY_MULTIPLIER).x < 151.52
  {
  }

  /** The true-shooting attempts `2 * (fga + 0.44 * fta)`. */
  function ShootingAttempts(fga: Cell, fta: Cell): (r: Cell)
    ensures r.Num? <==> fga.Num? && fta.Num?
    ensures r.Num? ==> r.x == 2.0 * (fga.x + FREE_THROW_POSSESSION_FACTOR * fta.x)
  {
    if fga.Num? && fta.Num? then Num(2.0 * (fga.x + FREE_THROW_POSSESSION_FACTOR * fta.x)) else Null
  }

  /** Seconds to minutes; a missing value stays missing. */
  function MinutesCell(seconds: Cell): (r: Cell)
    ensures seconds.Num? <==> r.Num?
    ensures r.Num? ==> r.x * SECONDS_PER_MINUTE == seconds.x
  {
    if seconds.Num? then Num(seconds.x / SECONDS_PER_MINUTE) else Null
  }

  /**
   * `(stat / minutes_played) * target`. The division is not guarded in the
   * source, so a zero minutes value is excluded by the precondition.
   */
  function PerMinuteCell(stat: Cell, minutesPlayed: Cell, target: nat): (r: Cell)
    requires minutesPlayed != Num(0.0)
    ensures r.Num? <==> stat.Num? && minutesPlayed.Num?
    ensures r.Num? ==> r.x * minutesPlayed.x == stat.x * target as real
  {
    if stat.Num? && minutesPlayed.Num? then Num(stat.x / minutesPlayed.x * target as real) else Null
  }

  /** The row sum `df[cols].sum(axis=1)`, which skips missing values. */
  function ZoneSum(row: Row, cols: seq<string>): real {
    if cols == [] then 0.0 else ZoneSum(row, cols[..|cols| - 1]) + NumOrZero(Get(row, cols[|cols| - 1]))
  }

  /**
   * When every zone's made count is at most its attempted count, so are the
   * sums; with non-negative makes the zone percentage is then in [0, 1].
   */
  lemma {:induction false} ZoneSumsOrdered(row: Row, made: seq<string>, attempted: seq<string>)
    requires |made| == |attempted|
    requires forall k :: 0 <= k < |made| ==> 0.0 <= NumOrZero(Get(row, made[k])) <= NumOrZero(Get(row, attempted[k]))
    ensures 0.0 <= ZoneSum(row, made) <= ZoneSum(row, attempted)
  {
    if made != [] {
      ZoneSumsOrdered(row, made[..|made| - 1], attempted[..|attempted| - 1]);
    }
  }

  // --------------------------------------------------------- column writers

  /** `minutes_played = minutes / 60` for every row. */
  function ConvertSecondsToMinutes(f: Frame): (r: Frame)
    requires MINUTES in f.columns
    ensures Extends(f, r, {MINUTES_PLAYED})
    ensures forall i :: 0 <= i < |f.rows| ==> r.rows[i][MINUTES_PLAYED] == MinutesCell(Get(f.rows[i], MINUTES))
  {
    MapRows(f, {MINUTES_PLAYED}, row => row[MINUTES_PLAYED := MinutesCell(Get(row, MINUTES))])
  }

  function ShootingRow(row: Row): Row {
    row["fg2_pct" := GuardedRatio(Get(row, "2pm"), Get(row, "2pa"), 1.0)]
       ["fg3_pct" := GuardedRatio(Get(row, "3pm"), Get(row, "3pa"), 1.0)]
       ["ft_pct" := GuardedRatio(Get(row, "ftm"), Get(row, "fta"), 1.0)]
  }

  /** FG2%, FG3% and FT%: made over attempted, exactly 0 when nothing was attempted. */
  function CalculateShootingPercentages(f: Frame): (r: Frame)
    requires SHOOTING_INPUTS <= f.columns
    ensures Extends(f, r, SHOOTING_PCT)
    ensures forall i :: 0 <= i < |f.rows| ==>
      && IsGuardedRatio(r.rows[i]["fg2_pct"], Get(f.rows[i], "2pm"), Get(f.rows[i], "2pa"), 1.0)
      && IsGuardedRatio(r.rows[i]["fg3_pct"], Get(f.rows[i], "3pm"), Get(f.rows[i], "3pa"), 1.0)
      && IsGuardedRatio(r.rows[i]["ft_pct"], Get(f.rows[i], "ftm"), Get(f.rows[i], "fta"), 1.0)
  {
    MapRows(f, SHOOTING_PCT, ShootingRow)
  }

  function UsageRow(row: Row): Row {
    row["usage_2p" := GuardedRatio(Get(row, "2pa"), Get(row, "fga"), 1.0)]
       ["usage_3p" := GuardedRatio(Get(row, "3pa"), Get(row, "fga"), 1.0)]
  }

  /** The share of field-goal attempts taken as twos and as threes, 0 without attempts. */
  function CalculateUsageRates(f: Frame): (r: Frame)
    requires USAGE_INPUTS <= f.columns
    ensures Extends(f, r, USAGE_RATES)
    ensures forall i :: 0 <= i < |f.rows| ==>
      && IsGuardedRatio(r.rows[i]["usage_2p"], Get(f.rows[i], "2pa"), Get(f.rows[i], "fga"), 1.0)
      && IsGuardedRatio(r.rows[i]["usage_3p"], Get(f.rows[i], "3pa"), Get(f.rows[i], "fga"), 1.0)
  {
    MapRows(f, USAGE_RATES, UsageRow)
  }

  function ZoneRow(row: Row, made: seq<string>, attempted: seq<string>, pctCol: string, freqCol: string): Row {
    row[pctCol := GuardedRatio(Num(ZoneSum(row, made)), Num(ZoneSum(row, attempted)), 1.0)]
       [freqCol := GuardedRatio(Num(ZoneSum(row, attempted)), Get(row, "fga"), 1.0)]
  }

  /**
   * A zone split: the zones' made shots over their attempts, and their
   * attempts over all field-goal attempts, each 0 when its denominator is not
   * positive. The output column names must not be read by the split itself.
   */
  function CalculateZoneStats(f: Frame, made: seq<string>, attempted: seq<string>, pctCol: string, freqCol: string): (r: Frame)
    requires (set c | c in made + attempted) <= f.columns && "fga" in f.columns
    requires pctCol != freqCol && pctCol != "fga"
    ensures Extends(f, r, {pctCol, freqCol})
    ensures forall i :: 0 <= i < |f.rows| ==>
      && IsGuardedRatio(r.rows[i][pctCol], Num(ZoneSum(f.rows[i], made)), Num(ZoneSum(f.rows[i], attempted)), 1.0)
      && IsGuardedRatio(r.rows[i][freqCol], Num(ZoneSum(f.rows[i], attempted)), Get(f.rows[i], "fga"), 1.0)
  {
    MapRows(f, {pctCol, freqCol}, row => ZoneRow(row, made, attempted, pctCol, freqCol))
  }

  function CalculateInteriorStats(f: Frame, made: seq<string>, attempted: seq<string>): (r: Frame)
    requires (set c | c in made + attempted) <= f.columns && "fga" in f.columns
    ensures Extends(f, r, INTERIOR_STATS)
    ensures forall i :: 0 <= i < |f.rows| ==>
      && IsGuardedRatio(r.rows[i]["interior_pct"], Num(ZoneSum(f.rows[i], made)), Num(ZoneSum(f.rows[i], attempted)), 1.0)
      && IsGuardedRatio(r.rows[i]["interior_freq"], Num(ZoneSum(f.rows[i], attempted)), Get(f.rows[i], "fga"), 1.0)
  {
    CalculateZoneStats(f, made, attempted, "interior_pct", "interior_freq")
  }

  function CalculateExteriorStats(f: Frame, made: seq<string>, attempted: seq<string>): (r: Frame)
    requires (set c | c in made + attempted) <= f.columns && "fga" in f.columns
    ensures Extends(f, r, EXTERIOR_STATS)
    ensures forall i :: 0 <= i < |f.rows| ==>
      && IsGuardedRatio(r.rows[i]["exterior_pct"], Num(ZoneSum(f.rows[i], made)), Num(ZoneSum(f.rows[i], attempted)), 1.0)
      && IsGuardedRatio(r.rows[i]["exterior_freq"], Num(ZoneSum(f.rows[i], attempted)), Get(f.rows[i], "fga"), 1.0)
  {
    CalculateZoneStats(f, made, attempted, "exterior_pct", "exterior_freq")
  }

  /** The possession estimate of every row. */
  function CalculatePossessions(f: Frame): (r: Frame)
    requires POSSESSION_INPUTS <= f.columns
    ensures Extends(f, r, {"possessions"})
    ensures forall i :: 0 <= i < |f.rows| ==>
      r.rows[i]["possessions"] == PossessionsCell(Get(f.rows[i], "fga"), Get(f.rows[i], "fta"), Get(f.rows[i], "orb"), Get(f.rows[i], "tov"))
  {
    MapRows(f, {"possessions"}, row => row["possessions" := PossessionsCell(Get(row, "fga"), Get(row, "fta"), Get(row, "orb"), Get(row, "tov"))])
  }

  /** OER: points per 100 possessions, 0 when the possessions are not positive. */
  function CalculateOer(f: Frame): (r: Frame)
    requires {"pts", "possessions"} <= f.columns
    ensures Extends(f, r, {"oer"})
    ensures forall i :: 0 <= i < |f.rows| ==>
      IsGuardedRatio(r.rows[i]["oer"], Get(f.rows[i], "pts"), Get(f.rows[i], "possessions"), EFFICIENCY_MULTIPLIER)
  {
    MapRows(f, {"oer"}, row => row["oer" := GuardedRatio(Get(row, "pts"), Get(row, "possessions"), EFFICIENCY_MULTIPLIER)])
  }

  /** TS%: points over twice the true-shooting attempts, 0 when those are not positive. */
  function CalculateTrueShootingPct(f: Frame): (r: Frame)
    requires {"pts", "fga", "fta"} <= f.columns
    ensures Extends(f, r, {"true_shooting_pct"})
    ensures forall i :: 0 <= i < |f.rows| ==>
      IsGuardedRatio(r.rows[i]["true_shooting_pct"], Get(f.rows[i], "pts"), ShootingAttempts(Get(f.rows[i], "fga"), Get(f.rows[i], "fta")), 1.0)
  {
    MapRows(f, {"true_shooting_pct"}, row =>
      row["true_shooting_pct" := GuardedRatio(Get(row, "pts"), ShootingAttempts(Get(row, "fga"), Get(row, "fta")), 1.0)])
  }

  /**
   * DER: the opponent's points per 100 opponent possessions. A row whose
   * opponent data is missing gets 0, since the comparison with a missing value
   * is false.
   */
  function CalculateDer(f: Frame): (r: Frame)
    requires {OPPONENT_POSSESSIONS, OPPONENT_PTS} <= f.columns
    ensures Extends(f, r, {"der"})
    ensures forall i :: 0 <= i < |f.rows| ==>
      IsGuardedRatio(r.rows[i]["der"], Get(f.rows[i], OPPONENT_PTS), Get(f.rows[i], OPPONENT_POSSESSIONS), EFFICIENCY_MULTIPLIER)
    ensures forall i :: 0 <= i < |f.rows| && Get(f.rows[i], OPPONENT_POSSESSIONS) == Null ==> r.rows[i]["der"] == Num(0.0)
  {
    MapRows(f, {"der"}, row =>
      row["der" := GuardedRatio(Get(row, OPPONENT_PTS), Get(row, OPPONENT_POSSESSIONS), EFFICIENCY_MULTIPLIER)])
  }

  // ------------------------------------------------- per-minute normalisation

  predicate IsDigit(c: char) {
    '0' <= c <= '9'
  }

  function NatToString(n: nat): (s: string)
    ensures |s| > 0 && IsDigit(s[|s| - 1])
  {
    if n < 10 then [('0' as int + n) as char]
    else NatToString(n / 10) + [('0' as int + n % 10) as char]
  }

  /** The name `f'{stat}_per{target}'` of a normalised column. */
  function PerName(stat: string, target: nat): (name: string)
    ensures |name| > 0 && IsDigit(name[|name| - 1])
  {
    stat + "_per" + NatToString(target)
  }

  lemma PerNameInjective(a: string, b: string, target: nat)
    requires PerName(a, target) == PerName(b, target)
    ensures a == b
  {
    var suffix := "_per" + NatToString(target);
    assert PerName(a, target) == a + suffix && PerName(b, target) == b + suffix;
    assert |a| == |b|;
    assert a == PerName(a, target)[..|a|];
  }

  /** A name that does not end in a digit is never a normalised column. */
  lemma NotAPerName(name: string, stat: string, target: nat)
    requires |name| == 0 || !IsDigit(name[|name| - 1])
    ensures PerName(stat, target) != name
  {
  }

  /** The table has a minutes_played column, and no row plays zero minutes. */
  ghost predicate MinutesUsable(f: Frame) {
    MINUTES_PLAYED in f.columns && forall i :: 0 <= i < |f.rows| ==> Get(f.rows[i], MINUTES_PLAYED) != Num(0.0)
  }

  /** One iteration of the loop in `normalize_per_minutes`. */
  function NormalizeStep(f: Frame, stat: string, target: nat): (r: Frame)
    requires MinutesUsable(f)
    ensures MinutesUsable(r)
    ensures Extends(f, r, if stat in f.columns then {PerName(stat, target)} else {})
  {
    if stat in f.columns then
      var r := WithColumn(f, PerName(stat, target),
        seq(|f.rows|, i requires 0 <= i < |f.rows| => PerMinuteCell(Get(f.rows[i], stat), Get(f.rows[i], MINUTES_PLAYED), target)));
      NotAPerName(MINUTES_PLAYED, stat, target);
      ExtendsGet(f, r, {PerName(stat, target)}, MINUTES_PLAYED);
      r
    else f
  }

  /** The columns the loop creates: one per listed stat present when its turn comes. */
  function CreatedNames(columns: set<string>, stats: seq<string>, target: nat): set<string>
  {
    if stats == [] then {}
    else
      var before := CreatedNames(columns, stats[..|stats| - 1], target);
      if stats[|stats| - 1] in columns + before then before + {PerName(stats[|stats| - 1], target)} else before
  }

  /** Every created name ends in a digit, so no name that does not is ever overwritten. */
  lemma {:induction false} CreatedNamesEndInDigit(columns: set<string>, stats: seq<string>, target: nat)
    ensures forall x :: x in CreatedNames(columns, stats, target) ==> |x| > 0 && IsDigit(x[|x| - 1])
  {
    if stats != [] {
      CreatedNamesEndInDigit(columns, stats[..|stats| - 1], target);
    }
  }

  /** The table after normalising `stats` in order. */
  function Normalized(f: Frame, stats: seq<string>, target: nat): (r: Frame)
    requires MinutesUsable(f)
    ensures MinutesUsable(r)
    ensures Extends(f, r, CreatedNames(f.columns, stats, target))
  {
    if stats == [] then f
    else
      var before := Normalized(f, stats[..|stats| - 1], target);
      var r := NormalizeStep(before, stats[|stats| - 1], target);
      ExtendsTrans(f, before, r, CreatedNames(f.columns, stats[..|stats| - 1], target),
        if stats[|stats| - 1] in before.columns then {PerName(stats[|stats| - 1], target)} else {});
      r
  }

  /** `normalize_per_minutes`: adds `stat_per{target}` for each listed stat the table has. */
  method NormalizePerMinutes(f: Frame, stats: seq<string>, target: nat) returns (r: Frame)
    requires MinutesUsable(f)
    ensures r == Normalized(f, stats, target)
  {
    r := f;
    for k := 0 to |stats|
      invariant MinutesUsable(r)
      invariant r == Normalized(f, stats[..k], target)
    {
      assert stats[..k + 1][..k] == stats[..k];
      var stat := stats[k];
      if stat in r.columns {
        var newCol := PerName(stat, target);
        r := WithColumn(r, newCol,
          seq(|r.rows|, i requires 0 <= i < |r.rows| => PerMinuteCell(Get(r.rows[i], stat), Get(r.rows[i], MINUTES_PLAYED), target)));
      }
    }
    assert stats[..|stats|] == stats;
  }

  /** No listed stat is the normalised name of a listed stat. */
  ghost predicate NoCollision(stats: seq<string>, target: nat) {
    forall i, j :: 0 <= i < |stats| && 0 <= j < |stats| ==> PerName(stats[i], target) != stats[j]
  }

  /**
   * Without collisions the loop creates exactly one column per listed stat
   * the table has, and none for the listed stats it lacks.
   */
  lemma {:induction false} NormalizedColumns(columns: set<string>, stats: seq<string>, target: nat)
    requires NoCollision(stats, target)
    ensures CreatedNames(columns, stats, target) == set s | s in stats && s in columns :: PerName(s, target)
  {
    if stats != [] {
      var init, last := stats[..|stats| - 1], stats[|stats| - 1];
      assert NoCollision(init, target);
      NormalizedColumns(columns, init, target);
      assert stats == init + [last];
      assert last !in CreatedNames(columns, init, target);
    }
  }

  /** A step writes its stat's normalised column from the stat and the minutes of the same row. */
  lemma StepWrites(f: Frame, stat: string, target: nat)
    requires MinutesUsable(f) && stat in f.columns
    ensures forall i :: 0 <= i < |f.rows| ==>
      var out := NormalizeStep(f, stat, target).rows[i];
      PerName(stat, target) in out && out[PerName(stat, target)] == PerMinuteCell(Get(f.rows[i], stat), Get(f.rows[i], MINUTES_PLAYED), target)
  {
  }

  /** A step leaves every column but the one it writes as it was. */
  lemma StepKeeps(f: Frame, stat: string, target: nat, name: string)
    requires MinutesUsable(f) && name != PerName(stat, target)
    ensures forall i :: 0 <= i < |f.rows| ==> Get(NormalizeStep(f, stat, target).rows[i], name) == Get(f.rows[i], name)
  {
    ExtendsGet(f, NormalizeStep(f, stat, target), if stat in f.columns then {PerName(stat, target)} else {}, name);
  }

  /** The loop leaves the stats it reads, and the minutes, as they were. */
  lemma NormalizedKeepsInputs(f: Frame, stats: seq<string>, target: nat, s: string)
    requires MinutesUsable(f) && s !in CreatedNames(f.columns, stats, target)
    ensures forall i :: 0 <= i < |f.rows| ==>
      && Get(Normalized(f, stats, target).rows[i], s) == Get(f.rows[i], s)
      && Get(Normalized(f, stats, target).rows[i], MINUTES_PLAYED) == Get(f.rows[i], MINUTES_PLAYED)
  {
    var r := Normalized(f, stats, target);
    CreatedNamesEndInDigit(f.columns, stats, target);
    assert MINUTES_PLAYED !in CreatedNames(f.columns, stats, target);
    ExtendsGet(f, r, CreatedNames(f.columns, stats, target), s);
    ExtendsGet(f, r, CreatedNames(f.columns, stats, target), MINUTES_PLAYED);
  }

  /**
   * Without collisions, for every listed stat the table has, every row's
   * normalised value is that row's stat over its minutes, times the target.
   */
  lemma {:induction false} NormalizedValues(f: Frame, stats: seq<string>, target: nat, s: string)
    requires MinutesUsable(f) && NoCollision(stats, target)
    requires s in stats && s in f.columns
    ensures forall i :: 0 <= i < |f.rows| ==>
      var out := Normalized(f, stats, target).rows[i];
      PerName(s, target) in out && out[PerName(s, target)] == PerMinuteCell(Get(f.rows[i], s), Get(f.rows[i], MINUTES_PLAYED), target)
  {
    var init, last := stats[..|stats| - 1], stats[|stats| - 1];
    assert stats == init + [last];
    var before := Normalized(f, init, target);
    assert NoCollision(init, target);
    if last == s {
      NormalizedColumns(f.columns, init, target);
      assert s !in CreatedNames(f.columns, init, target);
      NormalizedKeepsInputs(f, init, target, s);
      StepWrites(before, s, target);
    } else {
      NormalizedValues(f, init, target, s);
      if PerName(last, target) == PerName(s, target) {
        PerNameInjective(last, s, target);
      }
      StepKeeps(before, last, target, PerName(s, target));
    }
  }

  /** A stat name that does not end in a digit. */
  predicate PlainName(s: string) {
    |s| > 0 && !IsDigit(s[|s| - 1])
  }

  lemma PlainNamesDoNotCollide(stats: seq<string>, target: nat)
    requires forall k :: 0 <= k < |stats| ==> PlainName(stats[k])
    ensures NoCollision(stats, target)
  {
  }

  // -------------------------------------------------------------- all steps

  /** What `apply_all_transformations` reads: its columns exist and no row plays zero seconds. */
  ghost predicate TransformInputs(f: Frame, interiorMade: seq<string>, interiorAttempted: seq<string>,
                                  exteriorMade: seq<string>, exteriorAttempted: seq<string>)
  {
    && MINUTES in f.columns
    && (forall i :: 0 <= i < |f.rows| ==> Get(f.rows[i], MINUTES) != Num(0.0))
    && SHOOTING_INPUTS + USAGE_INPUTS + POSSESSION_INPUTS + {"pts"} <= f.columns
    && (set c | c in interiorMade + interiorAttempted) <= f.columns
    && (|exteriorMade| > 0 && |exteriorAttempted| > 0 ==> (set c | c in exteriorMade + exteriorAttempted) <= f.columns)
  }

  predicate HasOpponentData(columns: set<string>) {
    OPPONENT_POSSESSIONS in columns && OPPONENT_PTS in columns
  }

  /** Converting seconds keeps the minutes usable: zero seconds is the only zero. */
  lemma ConvertedMinutesUsable(f: Frame)
    requires MINUTES in f.columns
    requires forall i :: 0 <= i < |f.rows| ==> Get(f.rows[i], MINUTES) != Num(0.0)
    ensures MinutesUsable(ConvertSecondsToMinutes(f))
  {
    var r := ConvertSecondsToMinutes(f);
    forall i | 0 <= i < |r.rows|
      ensures Get(r.rows[i], MINUTES_PLAYED) != Num(0.0)
    {
      var m := MinutesCell(Get(f.rows[i], MINUTES));
      assert r.rows[i][MINUTES_PLAYED] == m;
    }
  }

  /** The columns the minutes stage writes. */
  function MinutesColumns(columns: set<string>, stats: seq<string>, target: nat): set<string> {
    {MINUTES_PLAYED} + CreatedNames(columns + {MINUTES_PLAYED}, stats, target)
  }

  /** The columns the shooting stage writes. */
  function ShotColumns(exteriorMade: seq<string>, exteriorAttempted: seq<string>): set<string> {
    SHOOTING_PCT + USAGE_RATES + INTERIOR_STATS
    + (if |exteriorMade| > 0 && |exteriorAttempted| > 0 then EXTERIOR_STATS else {})
  }

  /** The columns the efficiency stage writes. */
  function EfficiencyColumns(columns: set<string>): set<string> {
    ADVANCED_STATS + (if HasOpponentData(columns) then {"der"} else {})
  }

  /** Every column `apply_all_transformations` writes. */
  function DerivedColumns(columns: set<string>, stats: seq<string>, exteriorMade: seq<string>,
                          exteriorAttempted: seq<string>, target: nat): set<string>
  {
    MinutesColumns(columns, stats, target) + ShotColumns(exteriorMade, exteriorAttempted) + EfficiencyColumns(columns)
  }

  /** The first two steps: minutes played, then the per-minute rates. */
  function MinutesStage(f: Frame, stats: seq<string>, target: nat): (r: Frame)
    requires MINUTES in f.columns
    requires forall i :: 0 <= i < |f.rows| ==> Get(f.rows[i], MINUTES) != Num(0.0)
    ensures Extends(f, r, MinutesColumns(f.columns, stats, target))
  {
    var f1 := ConvertSecondsToMinutes(f);
    ConvertedMinutesUsable(f);
    var r := Normalized(f1, stats, target);
    ExtendsTrans(f, f1, r, {MINUTES_PLAYED}, CreatedNames(f1.columns, stats, target));
    r
  }

  /** The shooting steps: percentages, usage rates, interior and (when listed) exterior zones. */
  function ShotStage(f: Frame, interiorMade: seq<string>, interiorAttempted: seq<string>,
                     exteriorMade: seq<string>, exteriorAttempted: seq<string>): (r: Frame)
    requires SHOOTING_INPUTS + USAGE_INPUTS <= f.columns
    requires (set c | c in interiorMade + interiorAttempted) <= f.columns
    requires |exteriorMade| > 0 && |exteriorAttempted| > 0 ==> (set c | c in exteriorMade + exteriorAttempted) <= f.columns
    ensures Extends(f, r, ShotColumns(exteriorMade, exteriorAttempted))
  {
    var f3 := CalculateShootingPercentages(f);
    var f4 := CalculateUsageRates(f3);
    ExtendsTrans(f, f3, f4, SHOOTING_PCT, USAGE_RATES);
    var f5 := CalculateInteriorStats(f4, interiorMade, interiorAttempted);
    ExtendsTrans(f, f4, f5, SHOOTING_PCT + USAGE_RATES, INTERIOR_STATS);
    if |exteriorMade| > 0 && |exteriorAttempted| > 0 then
      var f6 := CalculateExteriorStats(f5, exteriorMade, exteriorAttempted);
      ExtendsTrans(f, f5, f6, SHOOTING_PCT + USAGE_RATES + INTERIOR_STATS, EXTERIOR_STATS);
      f6
    else
      f5
  }

  /** The efficiency steps: possessions, OER, TS%, and DER when both opponent columns exist. */
  function EfficiencyStage(f: Frame): (r: Frame)
    requires POSSESSION_INPUTS + {"pts"} <= f.columns
    ensures Extends(f, r, EfficiencyColumns(f.columns))
  {
    var f7 := CalculatePossessions(f);
    var f8 := CalculateOer(f7);
    ExtendsTrans(f, f7, f8, {"possessions"}, {"oer"});
    var f9 := CalculateTrueShootingPct(f8);
    ExtendsTrans(f, f8, f9, {"possessions", "oer"}, {"true_shooting_pct"});
    assert HasOpponentData(f9.columns) == HasOpponentData(f.columns);
    if HasOpponentData(f9.columns) then
      var r := CalculateDer(f9);
      ExtendsTrans(f, f9, r, ADVANCED_STATS, {"der"});
      r
    else
      f9
  }

  /** The specification of `apply_all_transformations`: every step in the source's order. */
  function Transformed(f: Frame, stats: seq<string>, interiorMade: seq<string>, interiorAttempted: seq<string>,
                       exteriorMade: seq<string>, exteriorAttempted: seq<string>, target: nat): Frame
    requires TransformInputs(f, interiorMade, interiorAttempted, exteriorMade, exteriorAttempted)
  {
    EfficiencyStage(ShotStage(MinutesStage(f, stats, target), interiorMade, interiorAttempted, exteriorMade, exteriorAttempted))
  }

  lemma FixedNamesNotOpponent()
    ensures OPPONENT_POSSESSIONS !in {MINUTES_PLAYED} + SHOOTING_PCT + USAGE_RATES + INTERIOR_STATS + EXTERIOR_STATS
    ensures OPPONENT_PTS !in {MINUTES_PLAYED} + SHOOTING_PCT + USAGE_RATES + INTERIOR_STATS + EXTERIOR_STATS
  {
  }

  lemma FixedNamesNotDer()
    ensures "der" !in {MINUTES_PLAYED} + SHOOTING_PCT + USAGE_RATES + INTERIOR_STATS + EXTERIOR_STATS + ADVANCED_STATS
  {
  }

  /** The opponent columns and `der` are never among the columns the first two stages write. */
  lemma EarlyColumnsExcludeOpponent(columns: set<string>, stats: seq<string>, exteriorMade: seq<string>,
                                    exteriorAttempted: seq<string>, target: nat)
    ensures var early := MinutesColumns(columns, stats, target) + ShotColumns(exteriorMade, exteriorAttempted);
      OPPONENT_POSSESSIONS !in early && OPPONENT_PTS !in early && "der" !in early + ADVANCED_STATS
  {
    var created := CreatedNames(columns + {MINUTES_PLAYED}, stats, target);
    CreatedNamesEndInDigit(columns + {MINUTES_PLAYED}, stats, target);
    assert OPPONENT_POSSESSIONS !in created && OPPONENT_PTS !in created && "der" !in created;
    FixedNamesNotOpponent();
    FixedNamesNotDer();
  }

  /** The player's id and name are never among the columns the transformations write. */
  lemma IdentityNotDerived(columns: set<string>, stats: seq<string>, exteriorMade: seq<string>,
                           exteriorAttempted: seq<string>, target: nat)
    ensures PLAYER_ID !in DerivedColumns(columns, stats, exteriorMade, exteriorAttempted, target)
    ensures PLAYER_NAME !in DerivedColumns(columns, stats, exteriorMade, exteriorAttempted, target)
  {
    CreatedNamesEndInDigit(columns + {MINUTES_PLAYED}, stats, target);
    assert PLAYER_ID[|PLAYER_ID| - 1] == 'd' && PLAYER_NAME[|PLAYER_NAME| - 1] == 'e';
    FixedNamesNotIdentity();
  }

  lemma FixedNamesNotIdentity()
    ensures PLAYER_ID !in {MINUTES_PLAYED} + SHOOTING_PCT + USAGE_RATES + INTERIOR_STATS + EXTERIOR_STATS + ADVANCED_STATS + {"der"}
    ensures PLAYER_NAME !in {MINUTES_PLAYED} + SHOOTING_PCT + USAGE_RATES + INTERIOR_STATS + EXTERIOR_STATS + ADVANCED_STATS + {"der"}
  {
  }

  /** `der` is derived exactly when both opponent columns are present. */
  lemma DerivedDer(columns: set<string>, stats: seq<string>, exteriorMade: seq<string>,
                   exteriorAttempted: seq<string>, target: nat)
    ensures "der" in DerivedColumns(columns, stats, exteriorMade, exteriorAttempted, target) <==> HasOpponentData(columns)
  {
    EarlyColumnsExcludeOpponent(columns, stats, exteriorMade, exteriorAttempted, target);
  }

  /** Columns that are not the opponent columns do not change whether DER is computed. */
  lemma EfficiencyColumnsStable(columns: set<string>, early: set<string>)
    requires OPPONENT_POSSESSIONS !in early && OPPONENT_PTS !in early
    ensures EfficiencyColumns(columns + early) == EfficiencyColumns(columns)
  {
    assert HasOpponentData(columns + early) == HasOpponentData(columns);
  }

  lemma ExtendsThree(f: Frame, f1: Frame, f2: Frame, f3: Frame, a1: set<string>, a2: set<string>, a3: set<string>)
    requires Extends(f, f1, a1) && Extends(f1, f2, a2) && Extends(f2, f3, a3)
    ensures Extends(f, f3, a1 + a2 + a3) && f2.columns == f.columns + (a1 + a2)
  {
    ExtendsTrans(f, f1, f2, a1, a2);
    ExtendsTrans(f, f2, f3, a1 + a2, a3);
  }

  /**
   * The transformed table has the input's rows, in order, with exactly the
   * derived columns added; `der` is among them iff both opponent columns exist.
   */
  lemma TransformedShape(f: Frame, stats: seq<string>, interiorMade: seq<string>, interiorAttempted: seq<string>,
                         exteriorMade: seq<string>, exteriorAttempted: seq<string>, target: nat)
    requires TransformInputs(f, interiorMade, interiorAttempted, exteriorMade, exteriorAttempted)
    ensures Extends(f, Transformed(f, stats, interiorMade, interiorAttempted, exteriorMade, exteriorAttempted, target),
                    DerivedColumns(f.columns, stats, exteriorMade, exteriorAttempted, target))
    ensures "der" in DerivedColumns(f.columns, stats, exteriorMade, exteriorAttempted, target) <==> HasOpponentData(f.columns)
  {
    var a1 := MinutesColumns(f.columns, stats, target);
    var a2 := ShotColumns(exteriorMade, exteriorAttempted);
    var f1 := MinutesStage(f, stats, target);
    var f2 := ShotStage(f1, interiorMade, interiorAttempted, exteriorMade, exteriorAttempted);
    var f3 := EfficiencyStage(f2);
    ExtendsThree(f, f1, f2, f3, a1, a2, EfficiencyColumns(f2.columns));
    EarlyColumnsExcludeOpponent(f.columns, stats, exteriorMade, exteriorAttempted, target);
    EfficiencyColumnsStable(f.columns, a1 + a2);
    DerivedDer(f.columns, stats, exteriorMade, exteriorAttempted, target);
  }

  /** The minutes stage writes minutes played from the seconds; the per-minute columns leave it alone. */
  lemma MinutesStageMinutesPlayed(f: Frame, stats: seq<string>, target: nat)
    requires MINUTES in f.columns
    requires forall i :: 0 <= i < |f.rows| ==> Get(f.rows[i], MINUTES) != Num(0.0)
    ensures forall i :: 0 <= i < |f.rows| ==>
      Get(MinutesStage(f, stats, target).rows[i], MINUTES_PLAYED) == MinutesCell(Get(f.rows[i], MINUTES))
  {
    var f0 := ConvertSecondsToMinutes(f);
    ConvertedMinutesUsable(f);
    CreatedNamesEndInDigit(f0.columns, stats, target);
    NormalizedKeepsInputs(f0, stats, target, MINUTES_PLAYED);
  }

  /** The inputs the shooting and efficiency stages read. */
  ghost predicate LaterInputs(f: Frame, interiorMade: seq<string>, interiorAttempted: seq<string>,
                              exteriorMade: seq<string>, exteriorAttempted: seq<string>)
  {
    && SHOOTING_INPUTS + USAGE_INPUTS + POSSESSION_INPUTS + {"pts"} <= f.columns
    && (set c | c in interiorMade + interiorAttempted) <= f.columns
    && (|exteriorMade| > 0 && |exteriorAttempted| > 0 ==> (set c | c in exteriorMade + exteriorAttempted) <= f.columns)
  }

  /** Only the first stage writes the minutes played. */
  lemma MinutesPlayedNotLater(exteriorMade: seq<string>, exteriorAttempted: seq<string>)
    ensures MINUTES_PLAYED !in ShotColumns(exteriorMade, exteriorAttempted)
    ensures MINUTES_PLAYED !in ADVANCED_STATS && MINUTES_PLAYED != "der"
  {
  }

  /** The shooting stage leaves every column it does not write as it was. */
  lemma ShotStageKeeps(f: Frame, interiorMade: seq<string>, interiorAttempted: seq<string>,
                       exteriorMade: seq<string>, exteriorAttempted: seq<string>, c: string)
    requires SHOOTING_INPUTS + USAGE_INPUTS <= f.columns
    requires (set c | c in interiorMade + interiorAttempted) <= f.columns
    requires |exteriorMade| > 0 && |exteriorAttempted| > 0 ==> (set c | c in exteriorMade + exteriorAttempted) <= f.columns
    requires c !in ShotColumns(exteriorMade, exteriorAttempted)
    ensures forall i :: 0 <= i < |f.rows| ==>
      Get(ShotStage(f, interiorMade, interiorAttempted, exteriorMade, exteriorAttempted).rows[i], c) == Get(f.rows[i], c)
  {
    ExtendsGet(f, ShotStage(f, interiorMade, interiorAttempted, exteriorMade, exteriorAttempted),
      ShotColumns(exteriorMade, exteriorAttempted), c);
  }

  /** The efficiency stage leaves every column it does not write as it was. */
  lemma EfficiencyStageKeeps(f: Frame, c: string)
    requires POSSESSION_INPUTS + {"pts"} <= f.columns
    requires c !in EfficiencyColumns(f.columns)
    ensures forall i :: 0 <= i < |f.rows| ==> Get(EfficiencyStage(f).rows[i], c) == Get(f.rows[i], c)
  {
    ExtendsGet(f, EfficiencyStage(f), EfficiencyColumns(f.columns), c);
  }

  /** The shooting and efficiency stages leave every column they do not write as it was. */
  lemma LaterStagesKeep(f: Frame, interiorMade: seq<string>, interiorAttempted: seq<string>,
                        exteriorMade: seq<string>, exteriorAttempted: seq<string>, c: string)
    requires LaterInputs(f, interiorMade, interiorAttempted, exteriorMade, exteriorAttempted)
    requires c !in ShotColumns(exteriorMade, exteriorAttempted) && c !in ADVANCED_STATS && c != "der"
    ensures var r := EfficiencyStage(ShotStage(f, interiorMade, interiorAttempted, exteriorMade, exteriorAttempted));
      |r.rows| == |f.rows| && forall i :: 0 <= i < |f.rows| ==> Get(r.rows[i], c) == Get(f.rows[i], c)
  {
    ShotStageKeeps(f, interiorMade, interiorAttempted, exteriorMade, exteriorAttempted, c);
    EfficiencyStageKeeps(ShotStage(f, interiorMade, interiorAttempted, exteriorMade, exteriorAttempted), c);
  }

  /** After every step each row's minutes played are still its seconds over 60. */
  lemma TransformedMinutesPlayed(f: Frame, stats: seq<string>, interiorMade: seq<string>, interiorAttempted: seq<string>,
                                 exteriorMade: seq<string>, exteriorAttempted: seq<string>, target: nat)
    requires TransformInputs(f, interiorMade, interiorAttempted, exteriorMade, exteriorAttempted)
    ensures var r := Transformed(f, stats, interiorMade, interiorAttempted, exteriorMade, exteriorAttempted, target);
      forall i :: 0 <= i < |f.rows| ==> Get(r.rows[i], MINUTES_PLAYED) == MinutesCell(Get(f.rows[i], MINUTES))
  {
    var f1 := MinutesStage(f, stats, target);
    MinutesStageMinutesPlayed(f, stats, target);
    StageInputsKept(f, f1, interiorMade, interiorAttempted, exteriorMade, exteriorAttempted);
    MinutesPlayedNotLater(exteriorMade, exteriorAttempted);
    LaterStagesKeep(f1, interiorMade, interiorAttempted, exteriorMade, exteriorAttempted, MINUTES_PLAYED);
  }

  /** The inputs of the later steps survive the earlier ones. */
  lemma StageInputsKept(f: Frame, g: Frame, interiorMade: seq<string>, interiorAttempted: seq<string>,
                        exteriorMade: seq<string>, exteriorAttempted: seq<string>)
    requires TransformInputs(f, interiorMade, interiorAttempted, exteriorMade, exteriorAttempted)
    requires f.columns <= g.columns
    ensures LaterInputs(g, interiorMade, interiorAttempted, exteriorMade, exteriorAttempted)
  {
  }

  /** `apply_all_transformations`: the steps in order, exterior zones and DER only when available. */
  method ApplyAllTransformations(f: Frame, stats: seq<string>, interiorMade: seq<string>, interiorAttempted: seq<string>,
                                 exteriorMade: seq<string>, exteriorAttempted: seq<string>, target: nat)
    returns (r: Frame)
    requires TransformInputs(f, interiorMade, interiorAttempted, exteriorMade, exteriorAttempted)
    ensures r == Transformed(f, stats, interiorMade, interiorAttempted, exteriorMade, exteriorAttempted, target)
    ensures Extends(f, r, DerivedColumns(f.columns, stats, exteriorMade, exteriorAttempted, target))
    ensures "der" in r.columns <==> "der" in f.columns || HasOpponentData(f.columns)
    ensures forall i :: 0 <= i < |f.rows| ==> Get(r.rows[i], MINUTES_PLAYED) == MinutesCell(Get(f.rows[i], MINUTES))
  {
    r := ConvertSecondsToMinutes(f);
    ConvertedMinutesUsable(f);
    r := NormalizePerMinutes(r, stats, target);
    assert r == MinutesStage(f, stats, target);
    StageInputsKept(f, r, interiorMade, interiorAttempted, exteriorMade, exteriorAttempted);
    ghost var early := r;
    r := CalculateShootingPercentages(r);
    r := CalculateUsageRates(r);
    r := CalculateInteriorStats(r, interiorMade, interiorAttempted);
    if |exteriorMade| > 0 && |exteriorAttempted| > 0 {
      r := CalculateExteriorStats(r, exteriorMade, exteriorAttempted);
    }
    assert r == ShotStage(early, interiorMade, interiorAttempted, exteriorMade, exteriorAttempted);
    assert POSSESSION_INPUTS + {"pts"} <= r.columns;
    ghost var shot := r;
    r := CalculatePossessions(r);
    r := CalculateOer(r);
    r := CalculateTrueShootingPct(r);
    if OPPONENT_POSSESSIONS in r.columns && OPPONENT_PTS in r.columns {
      r := CalculateDer(r);
    }
    assert r == EfficiencyStage(shot);
    TransformedShape(f, stats, interiorMade, interiorAttempted, exteriorMade, exteriorAttempted, target);
    TransformedMinutesPlayed(f, stats, interiorMade, interiorAttempted, exteriorMade, exteriorAttempted, target);
  }
}
