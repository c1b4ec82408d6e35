/**
 * The transformation stage of the ETL pipeline (`ETLPipeline.transform`):
 * team possessions, the pairing of every team with its opponent in each
 * match, the merge of the opponent's possessions and points into the player
 * table, the games filter, the feature engineering, the choice of features,
 * the aggregation by player and the final projections.
 */
module EtlPipeline {
  import opened Frames
  import FeatureEngineer
  import DataCleaner
  import DataAggregator

  const MATCH_ID := "match_feb_id"
  const TEAM_ID := "team_feb_id"
  const TEAM_POSSESSIONS := "team_possessions"
  const OPPONENT_POSSESSIONS := FeatureEngineer.OPPONENT_POSSESSIONS
  const OPPONENT_PTS := FeatureEngineer.OPPONENT_PTS

  /** The configured constants the stage passes on. */
  const MIN_GAMES_THRESHOLD := 5
  const STATS_TO_NORMALIZE: seq<string> :=
    ["pts", "ast", "trb", "stl", "blk", "tov", "fga", "fgm", "3pa", "3pm", "2pa", "2pm", "fta", "ftm"]
  const INTERIOR_ZONES_MADE: seq<string> := ["rc_pc_m", "rc_pl_m", "rc_pr_m", "rc_mbl_m", "rc_mbr_m"]
  const INTERIOR_ZONES_ATTEMPTED: seq<string> := ["rc_pc_a", "rc_pl_a", "rc_pr_a", "rc_mbl_a", "rc_mbr_a"]
  const EXTERIOR_ZONES_MADE: seq<string> :=
    ["rc_mel_m", "rc_mer_m", "rc_c3l_m", "rc_c3r_m", "rc_ce3l_m", "rc_ce3r_m", "rc_e3l_m", "rc_e3r_m"]
  const EXTERIOR_ZONES_ATTEMPTED: seq<string> :=
    ["rc_mel_a", "rc_mer_a", "rc_c3l_a", "rc_c3r_a", "rc_ce3l_a", "rc_ce3r_a", "rc_e3l_a", "rc_e3r_a"]
  const FEATURES_FOR_CLUSTERING: seq<string> :=
    ["pts_per36", "ast_per36", "trb_per36", "stl_per36", "blk_per36", "tov_per36",
     "fga_per36", "3pa_per36", "2pa_per36", "fg2_pct", "fg3_pct", "ft_pct", "usage_2p", "usage_3p",
     "oer", "der", "true_shooting_pct", "orb", "drb", "pf"]
  const FEATURES_FOR_EDA: seq<string> := ["interior_pct", "interior_freq", "exterior_pct", "exterior_freq"]

  /**
   * The configured values `transform` reads: the games threshold, the
   * statistics to normalise, the shot zones, the per-minute target and the
   * two feature lists.
   */
  datatype Config = Config(minGames: int, statsToNormalize: seq<string>,
                           interiorMade: seq<string>, interiorAttempted: seq<string>,
                           exteriorMade: seq<string>, exteriorAttempted: seq<string>,
                           target: nat, clusteringFeatures: seq<string>, edaFeatures: seq<string>)

  const CONFIG := Config(MIN_GAMES_THRESHOLD, STATS_TO_NORMALIZE, INTERIOR_ZONES_MADE, INTERIOR_ZONES_ATTEMPTED,
                         EXTERIOR_ZONES_MADE, EXTERIOR_ZONES_ATTEMPTED, FeatureEngineer.MINUTES_NORMALIZATION,
                         FEATURES_FOR_CLUSTERING, FEATURES_FOR_EDA)

  /** No feature list names the player id, the name or the minutes played, which the aggregation writes itself. */
  predicate ConfigUsable(config: Config) {
    var listed := config.clusteringFeatures + config.edaFeatures;
    PLAYER_ID !in listed && PLAYER_NAME !in listed && MINUTES_PLAYED !in listed
  }

  /** The configured clustering features: twenty of them, `der` among them. */
  lemma ConfiguredClusteringFeatures()
    ensures |CONFIG.clusteringFeatures| == 20 && "der" in CONFIG.clusteringFeatures
  {
    assert CONFIG.clusteringFeatures[15] == "der";
  }

  /** The configured values meet what `Transform` asks of a configuration. */
  lemma ConfiguredFeaturesUsable()
    ensures ConfigUsable(CONFIG)
  {
    var listed := FEATURES_FOR_CLUSTERING + FEATURES_FOR_EDA;
    forall i | 0 <= i < |listed|
      ensures listed[i] != PLAYER_ID && listed[i] != PLAYER_NAME && listed[i] != MINUTES_PLAYED
    {
    }
  }

  // ------------------------------------------------------- team possessions

  /** `team_possessions = fga + 0.44 * fta - orb + tov` for every team row. */
  function TeamPossessions(teams: Frame): (r: Frame)
    requires FeatureEngineer.POSSESSION_INPUTS <= teams.columns
    ensures Extends(teams, r, {TEAM_POSSESSIONS})
    ensures forall i :: 0 <= i < |teams.rows| ==>
      var row := teams.rows[i];
      && (r.rows[i][TEAM_POSSESSIONS].Num? <==>
            Get(row, "fga").Num? && Get(row, "fta").Num? && Get(row, "orb").Num? && Get(row, "tov").Num?)
      && (r.rows[i][TEAM_POSSESSIONS].Num? ==>
            r.rows[i][TEAM_POSSESSIONS].x == Get(row, "fga").x + 0.44 * Get(row, "fta").x - Get(row, "orb").x + Get(row, "tov").x)
  {
    WithColumn(teams, TEAM_POSSESSIONS, seq(|teams.rows|, i requires 0 <= i < |teams.rows| =>
      FeatureEngineer.PossessionsCell(Get(teams.rows[i], "fga"), Get(teams.rows[i], "fta"),
                                      Get(teams.rows[i], "orb"), Get(teams.rows[i], "tov"))))
  }

  // ------------------------------------------------------------ opponents

  /** One entry of `opponent_data`: a team in a match, with its opponent's possessions and points. */
  datatype Link = Link(matchId: Cell, teamId: Cell, opponentPossessions: Cell, opponentPts: Cell)

  /** The match ids of the player table, once each, in order of first appearance. */
  function MatchIds(players: Frame): seq<Cell> {
    Unique(Column(players.rows, MATCH_ID))
  }

  function MatchMask(m: Cell): Row -> bool {
    row => SameKey(Get(row, MATCH_ID), m)
  }

  /** `df_teams[df_teams['match_feb_id'] == match_id]`: no row matches a missing id. */
  function MatchRows(teams: seq<Row>, m: Cell): seq<Row> {
    Where(teams, MatchMask(m))
  }

  /**
   * `rows[rows['team_feb_id'] != t].iloc[0]`: the first row whose team id
   * differs from `t`, where pandas' `!=` holds whenever either side is missing.
   */
  function FirstOther(rows: seq<Row>, t: Cell): Option<Row> {
    if rows == [] then None
    else if !SameKey(Get(rows[0], TEAM_ID), t) then Some(rows[0])
    else FirstOther(rows[1..], t)
  }

  lemma {:induction false} FirstOtherSound(rows: seq<Row>, t: Cell)
    ensures FirstOther(rows, t).Some? <==> exists opp :: opp in rows && !SameKey(Get(opp, TEAM_ID), t)
    ensures FirstOther(rows, t).Some? ==>
      FirstOther(rows, t).value in rows && !SameKey(Get(FirstOther(rows, t).value, TEAM_ID), t)
  {
    if rows != [] {
      FirstOtherSound(rows[1..], t);
      assert forall x :: x in rows[1..] ==> x in rows;
      assert forall x :: x in rows ==> x == rows[0] || x in rows[1..];
    }
  }

  /** The link of one team row: the first row of its match with another team id, if any. */
  function LinkFor(m: Cell, row: Row, pair: seq<Row>): Option<Link> {
    var opponent := FirstOther(pair, Get(row, TEAM_ID));
    if opponent.None? then None
    else Some(Link(m, Get(row, TEAM_ID), Get(opponent.value, TEAM_POSSESSIONS), Get(opponent.value, "pts")))
  }

  /**
   * A team row is linked exactly when its match has a row with another team
   * id, and then to that row's possessions and points.
   */
  lemma LinkForSound(m: Cell, row: Row, pair: seq<Row>)
    ensures LinkFor(m, row, pair).Some? <==> exists opp :: opp in pair && !SameKey(Get(opp, TEAM_ID), Get(row, TEAM_ID))
    ensures LinkFor(m, row, pair).Some? ==>
      var l := LinkFor(m, row, pair).value;
      && l.matchId == m && l.teamId == Get(row, TEAM_ID)
      && exists opp :: (opp in pair && !SameKey(Get(opp, TEAM_ID), Get(row, TEAM_ID)) &&
           l.opponentPossessions == Get(opp, TEAM_POSSESSIONS) && l.opponentPts == Get(opp, "pts"))
  {
    FirstOtherSound(pair, Get(row, TEAM_ID));
  }

  /** The links of one match: none unless it has exactly two team rows; `None` when a pairing fails. */
  function MatchLinks(m: Cell, pair: seq<Row>): Option<seq<Link>> {
    if |pair| != 2 then Some([])
    else
      var a, b := LinkFor(m, pair[0], pair), LinkFor(m, pair[1], pair);
      if a.Some? && b.Some? then Some([a.value, b.value]) else None
  }

  /** The match's two team rows carry the same team id: `.iloc[0]` finds no opponent. */
  predicate PairingFails(teams: seq<Row>, m: Cell) {
    var pair := MatchRows(teams, m);
    |pair| == 2 && SameKey(Get(pair[0], TEAM_ID), Get(pair[1], TEAM_ID))
  }

  /** Pairing two rows fails exactly when both carry the same (present) team id. */
  lemma MatchLinksOfPair(m: Cell, pair: seq<Row>)
    requires |pair| == 2
    ensures MatchLinks(m, pair).None? <==> SameKey(Get(pair[0], TEAM_ID), Get(pair[1], TEAM_ID))
  {
    var t0, t1 := Get(pair[0], TEAM_ID), Get(pair[1], TEAM_ID);
    FirstOtherOfPair(pair, t0);
    FirstOtherOfPair(pair, t1);
  }

  lemma FirstOtherOfPair(pair: seq<Row>, t: Cell)
    requires |pair| == 2
    ensures FirstOther(pair, t) ==
      if !SameKey(Get(pair[0], TEAM_ID), t) then Some(pair[0])
      else if !SameKey(Get(pair[1], TEAM_ID), t) then Some(pair[1])
      else None
  {
    var rest := pair[1..];
    assert rest[0] == pair[1] && rest[1..] == [];
    assert FirstOther(rest[1..], t) == None;
  }

  /**
   * The specification of the loop over `df['match_feb_id'].unique()`: the
   * links of every match in order, or the first match whose pairing fails.
   */
  function LinksFor(teams: seq<Row>, ids: seq<Cell>): Result<seq<Link>, Cell> {
    if ids == [] then Success([])
    else
      var m := ids[|ids| - 1];
      AddMatch(LinksFor(teams, ids[..|ids| - 1]), m, MatchLinks(m, MatchRows(teams, m)))
  }

  /** One turn of the loop: an earlier failure stands, else the match's links are appended, or it fails. */
  function AddMatch(before: Result<seq<Link>, Cell>, m: Cell, own: Option<seq<Link>>): Result<seq<Link>, Cell> {
    if before.Failure? then before
    else if own.Some? then Success(before.value + own.value) else Failure(m)
  }

  /** A failure stops the loop: the rest of the ids do not change the outcome. */
  lemma {:induction false} LinksFailurePersists(teams: seq<Row>, ids: seq<Cell>, k: nat)
    requires k < |ids| && LinksFor(teams, ids[..k + 1]).Failure?
    ensures LinksFor(teams, ids) == LinksFor(teams, ids[..k + 1])
  {
    if k + 1 < |ids| {
      assert ids[..|ids| - 1][..k + 1] == ids[..k + 1];
      LinksFailurePersists(teams, ids[..|ids| - 1], k);
    } else {
      assert ids[..k + 1] == ids;
    }
  }

  /** One more id extends the links of the ids before it by that match's links. */
  lemma LinksForStep(teams: seq<Row>, ids: seq<Cell>, k: nat)
    requires k < |ids|
    ensures LinksFor(teams, ids[..k + 1]) ==
      AddMatch(LinksFor(teams, ids[..k]), ids[k], MatchLinks(ids[k], MatchRows(teams, ids[k])))
  {
    assert ids[..k + 1][..k] == ids[..k];
  }

  /** The first failing match is the outcome of the whole loop. */
  lemma LinksFailAt(teams: seq<Row>, ids: seq<Cell>, k: nat)
    requires k < |ids| && LinksFor(teams, ids[..k]).Success?
    requires MatchLinks(ids[k], MatchRows(teams, ids[k])).None?
    ensures LinksFor(teams, ids) == Failure(ids[k])
  {
    LinksForStep(teams, ids, k);
    LinksFailurePersists(teams, ids, k);
  }

  /** The inner loop over the two team rows of a match; `None` where `.iloc[0]` raises. */
  method PairLinks(m: Cell, inMatch: seq<Row>) returns (r: Option<seq<Link>>)
    requires |inMatch| == 2
    ensures r == MatchLinks(m, inMatch)
  {
    ghost var expected := [LinkFor(m, inMatch[0], inMatch), LinkFor(m, inMatch[1], inMatch)];
    var matchLinks: seq<Link> := [];
    for j := 0 to |inMatch|
      invariant |matchLinks| == j
      invariant forall t :: 0 <= t < j ==> expected[t] == Some(matchLinks[t])
    {
      var link := LinkFor(m, inMatch[j], inMatch);
      assert link == expected[j];
      if link.None? {
        return None;
      }
      matchLinks := matchLinks + [link.value];
    }
    assert matchLinks == [expected[0].value, expected[1].value];
    r := Some(matchLinks);
  }

  /**
   * The loop of `transform` that builds `opponent_data`: for every match of
   * the player table with exactly two team rows, one link per team row.
   */
  method OpponentLinks(players: Frame, teams: Frame) returns (r: Result<seq<Link>, Cell>)
    requires MATCH_ID in players.columns
    requires {MATCH_ID, TEAM_ID, TEAM_POSSESSIONS, "pts"} <= teams.columns
    ensures r == LinksFor(teams.rows, MatchIds(players))
  {
    var ids := Unique(Column(players.rows, MATCH_ID));
    var links: seq<Link> := [];
    for k := 0 to |ids|
      invariant LinksFor(teams.rows, ids[..k]) == Success(links)
    {
      LinksForStep(teams.rows, ids, k);
      var m := ids[k];
      var inMatch := MatchRows(teams.rows, m);
      if |inMatch| == 2 {
        var matchLinks := PairLinks(m, inMatch);
        if matchLinks.None? {
          LinksFailAt(teams.rows, ids, k);
          return Failure(m);
        }
        links := links + matchLinks.value;
      } else {
        assert links + [] == links;
      }
    }
    assert ids[..|ids|] == ids;
    r := Success(links);
  }

  // ------------------------------------------------ what the links promise

  /**
   * `l` links a team row of a match with exactly two team rows to a row of
   * that match whose team id differs, and carries that row's possessions and points.
   */
  ghost predicate IsLink(teams: seq<Row>, l: Link) {
    var pair := MatchRows(teams, l.matchId);
    && |pair| == 2
    && (exists row :: row in pair && Get(row, TEAM_ID) == l.teamId)
    && exists opp :: (opp in pair && !SameKey(Get(opp, TEAM_ID), l.teamId) &&
         l.opponentPossessions == Get(opp, TEAM_POSSESSIONS) && l.opponentPts == Get(opp, "pts"))
  }

  /** The links one match contributes are links of that match. */
  lemma OwnLinksSound(teams: seq<Row>, m: Cell)
    requires MatchLinks(m, MatchRows(teams, m)).Some?
    ensures forall l :: l in MatchLinks(m, MatchRows(teams, m)).value ==> l.matchId == m && IsLink(teams, l)
  {
    var pair := MatchRows(teams, m);
    if |pair| == 2 {
      LinkForSound(m, pair[0], pair);
      LinkForSound(m, pair[1], pair);
      assert pair[0] in pair && pair[1] in pair;
    }
  }

  /** Every link belongs to a match of the player table with exactly two team rows, and names the other team's values. */
  lemma {:induction false} LinksSound(teams: seq<Row>, ids: seq<Cell>)
    requires LinksFor(teams, ids).Success?
    ensures forall l :: l in LinksFor(teams, ids).value ==> l.matchId in ids && IsLink(teams, l)
  {
    if ids != [] {
      var init, m := ids[..|ids| - 1], ids[|ids| - 1];
      assert ids == init + [m];
      LinksSound(teams, init);
      OwnLinksSound(teams, m);
      var before, own := LinksFor(teams, init).value, MatchLinks(m, MatchRows(teams, m)).value;
      assert LinksFor(teams, ids).value == before + own;
      forall l: Link | l in before + own
        ensures l.matchId in ids && IsLink(teams, l)
      {
        if l in before {
          assert l.matchId in init;
        }
      }
    }
  }

  /** Both team rows of a two-team match get a link, each naming its own team. */
  lemma OwnLinksComplete(teams: seq<Row>, m: Cell)
    requires MatchLinks(m, MatchRows(teams, m)).Some? && |MatchRows(teams, m)| == 2
    ensures forall row :: row in MatchRows(teams, m) ==>
      exists l :: l in MatchLinks(m, MatchRows(teams, m)).value && l.matchId == m && l.teamId == Get(row, TEAM_ID)
  {
    var pair := MatchRows(teams, m);
    LinkForSound(m, pair[0], pair);
    LinkForSound(m, pair[1], pair);
    var own := MatchLinks(m, pair).value;
    assert own[0] in own && own[1] in own;
  }

  /** Every team row of a two-team match of the player table gets its link. */
  lemma {:induction false} LinksComplete(teams: seq<Row>, ids: seq<Cell>, m: Cell)
    requires LinksFor(teams, ids).Success? && m in ids && |MatchRows(teams, m)| == 2
    ensures forall row :: row in MatchRows(teams, m) ==>
      exists l :: l in LinksFor(teams, ids).value && l.matchId == m && l.teamId == Get(row, TEAM_ID)
  {
    var init, last := ids[..|ids| - 1], ids[|ids| - 1];
    assert ids == init + [last];
    var before, own := LinksFor(teams, init).value, MatchLinks(last, MatchRows(teams, last)).value;
    assert LinksFor(teams, ids).value == before + own;
    if m == last {
      OwnLinksComplete(teams, m);
      assert forall l :: l in own ==> l in before + own;
    } else {
      LinksComplete(teams, init, m);
      assert forall l :: l in before ==> l in before + own;
    }
  }

  /**
   * The loop fails exactly when a match of the player table has two team rows
   * with the same team id, and then it reports such a match.
   */
  lemma {:induction false} LinksFailure(teams: seq<Row>, ids: seq<Cell>)
    ensures LinksFor(teams, ids).Failure? <==> exists m :: m in ids && PairingFails(teams, m)
    ensures LinksFor(teams, ids).Failure? ==>
      LinksFor(teams, ids).error in ids && PairingFails(teams, LinksFor(teams, ids).error)
  {
    if ids != [] {
      var init, last := ids[..|ids| - 1], ids[|ids| - 1];
      assert ids == init + [last];
      LinksFailure(teams, init);
      var pair := MatchRows(teams, last);
      if |pair| == 2 {
        MatchLinksOfPair(last, pair);
      }
      assert MatchLinks(last, pair).None? <==> PairingFails(teams, last);
      if LinksFor(teams, ids).Failure? {
        assert LinksFor(teams, ids).error in ids;
      } else {
        forall m | m in ids
          ensures !PairingFails(teams, m)
        {
          if m != last {
            assert m in init;
          }
        }
      }
    }
  }

  /** Without a failure, there are links exactly when some match of the player table has two team rows. */
  lemma {:induction false} LinksNonEmpty(teams: seq<Row>, ids: seq<Cell>)
    requires LinksFor(teams, ids).Success?
    ensures LinksFor(teams, ids).value != [] <==> exists m :: m in ids && |MatchRows(teams, m)| == 2
  {
    if ids != [] {
      var init, last := ids[..|ids| - 1], ids[|ids| - 1];
      assert ids == init + [last];
      LinksNonEmpty(teams, init);
      var before, own := LinksFor(teams, init).value, MatchLinks(last, MatchRows(teams, last)).value;
      assert LinksFor(teams, ids).value == before + own;
      assert own != [] <==> |MatchRows(teams, last)| == 2;
      if before == [] && own == [] {
        forall m | m in ids
          ensures |MatchRows(teams, m)| != 2
        {
          if m != last {
            assert m in init;
          }
        }
      } else if own != [] {
        assert last in ids;
      } else {
        var m :| m in init && |MatchRows(teams, m)| == 2;
        assert m in ids;
      }
    }
  }

  /** Two links share the merge key `(match_feb_id, team_feb_id)`. */
  predicate SameMergeKey(a: Link, b: Link) {
    a.matchId == b.matchId && a.teamId == b.teamId
  }

  ghost predicate UniqueKeys(links: seq<Link>) {
    forall i, j :: 0 <= i < j < |links| ==> !SameMergeKey(links[i], links[j])
  }

  predicate NoMissingTeamIds(teams: seq<Row>) {
    forall row :: row in teams ==> Get(row, TEAM_ID) != Null
  }

  lemma UniqueKeysAppend(a: seq<Link>, b: seq<Link>)
    requires UniqueKeys(a) && UniqueKeys(b)
    requires forall x, y :: x in a && y in b ==> x.matchId != y.matchId
    ensures UniqueKeys(a + b)
  {
    forall i, j | 0 <= i < j < |a + b|
      ensures !SameMergeKey((a + b)[i], (a + b)[j])
    {
      if i < |a| && j >= |a| {
        assert (a + b)[i] in a && (a + b)[j] in b;
      }
    }
  }

  /**
   * When every team row has a team id, no two links share a merge key, so the
   * left merge gives each player row at most one opponent.
   */
  lemma {:induction false} LinksUniqueKeys(teams: seq<Row>, ids: seq<Cell>)
    requires Distinct(ids) && NoMissingTeamIds(teams) && LinksFor(teams, ids).Success?
    ensures UniqueKeys(LinksFor(teams, ids).value)
  {
    if ids != [] {
      var init, m := ids[..|ids| - 1], ids[|ids| - 1];
      assert ids == init + [m];
      LinksUniqueKeys(teams, init);
      LinksSound(teams, init);
      OwnLinksUnique(teams, m);
      var before, own := LinksFor(teams, init).value, MatchLinks(m, MatchRows(teams, m)).value;
      assert LinksFor(teams, ids).value == before + own;
      assert forall l :: l in own ==> l.matchId == m;
      assert m !in init;
      UniqueKeysAppend(before, own);
    }
  }

  /** Without missing team ids, the two links of a match name two different teams. */
  lemma OwnLinksUnique(teams: seq<Row>, m: Cell)
    requires NoMissingTeamIds(teams) && MatchLinks(m, MatchRows(teams, m)).Some?
    ensures UniqueKeys(MatchLinks(m, MatchRows(teams, m)).value)
    ensures forall l :: l in MatchLinks(m, MatchRows(teams, m)).value ==> l.matchId == m
  {
    var pair := MatchRows(teams, m);
    if |pair| == 2 {
      MatchLinksOfPair(m, pair);
      assert pair[0] in teams && pair[1] in teams;
      LinkForSound(m, pair[0], pair);
      LinkForSound(m, pair[1], pair);
    }
  }

  // -------------------------------------------------------------- the merge

  const OPPONENT_COLUMNS: set<string> := {OPPONENT_POSSESSIONS, OPPONENT_PTS}

  /** A link carries the merge key of a player row; pandas' merge pairs missing keys with each other. */
  predicate KeyMatches(row: Row, l: Link) {
    l.matchId == Get(row, MATCH_ID) && l.teamId == Get(row, TEAM_ID)
  }

  function KeyMask(row: Row): Link -> bool {
    l => KeyMatches(row, l)
  }

  function WithOpponent(row: Row, possessions: Cell, pts: Cell): Row {
    row[OPPONENT_POSSESSIONS := possessions][OPPONENT_PTS := pts]
  }

  /** What a left merge makes of one player row: a row per matching link, or one row with missing opponent values. */
  function MergedRows(row: Row, links: seq<Link>): seq<Row> {
    var ms := Where(links, KeyMask(row));
    if ms == [] then [WithOpponent(row, Null, Null)]
    else seq(|ms|, j requires 0 <= j < |ms| => WithOpponent(row, ms[j].opponentPossessions, ms[j].opponentPts))
  }

  function LeftMergeRows(rows: seq<Row>, links: seq<Link>): seq<Row> {
    if rows == [] then []
    else LeftMergeRows(rows[..|rows| - 1], links) + MergedRows(rows[|rows| - 1], links)
  }

  /**
   * `df.merge(df_opponents, on=['match_feb_id', 'team_feb_id'], how='left')`
   * for a right table that has its columns: the player rows in order, each
   * repeated once per matching link.
   */
  function LeftMerge(f: Frame, links: seq<Link>): (r: Frame)
    requires MATCH_ID in f.columns && TEAM_ID in f.columns
    ensures r.columns == f.columns + OPPONENT_COLUMNS
  {
    Frame(f.columns + OPPONENT_COLUMNS, LeftMergeRows(f.rows, links))
  }

  /** Every merged row is a player row with the two opponent cells set. */
  lemma {:induction false} LeftMergeRowsFrom(rows: seq<Row>, links: seq<Link>)
    ensures forall x :: x in LeftMergeRows(rows, links) ==>
      exists row :: row in rows && x == WithOpponent(row, Get(x, OPPONENT_POSSESSIONS), Get(x, OPPONENT_PTS))
  {
    if rows != [] {
      var init, last := rows[..|rows| - 1], rows[|rows| - 1];
      LeftMergeRowsFrom(init, links);
      assert forall row :: row in init ==> row in rows;
      forall x | x in MergedRows(last, links)
        ensures x == WithOpponent(last, Get(x, OPPONENT_POSSESSIONS), Get(x, OPPONENT_PTS))
      {
      }
    }
  }

  /** A left merge drops no player row: each one appears, with its opponent cells set. */
  lemma {:induction false} LeftMergeKeepsEveryRow(rows: seq<Row>, links: seq<Link>)
    ensures |LeftMergeRows(rows, links)| >= |rows|
    ensures forall row :: row in rows ==>
      exists x :: x in LeftMergeRows(rows, links) && x == WithOpponent(row, Get(x, OPPONENT_POSSESSIONS), Get(x, OPPONENT_PTS))
  {
    if rows != [] {
      var init, last := rows[..|rows| - 1], rows[|rows| - 1];
      assert rows == init + [last];
      LeftMergeKeepsEveryRow(init, links);
      var out := LeftMergeRows(rows, links);
      var own := MergedRows(last, links);
      assert out == LeftMergeRows(init, links) + own;
      assert own[0] in out && own[0] == WithOpponent(last, Get(own[0], OPPONENT_POSSESSIONS), Get(own[0], OPPONENT_PTS));
      assert forall x :: x in LeftMergeRows(init, links) ==> x in out;
    }
  }

  /** With unique merge keys a player row matches at most one link. */
  lemma {:induction false} AtMostOneMatch(links: seq<Link>, row: Row)
    requires UniqueKeys(links)
    ensures |Where(links, KeyMask(row))| <= 1
  {
    if links != [] {
      assert UniqueKeys(links[1..]);
      if KeyMatches(row, links[0]) {
        forall k | 0 <= k < |links[1..]|
          ensures !KeyMask(row)(links[1..][k])
        {
          assert links[1..][k] == links[k + 1];
        }
        WhereNone(links[1..], KeyMask(row));
      } else {
        AtMostOneMatch(links[1..], row);
      }
    }
  }

  /** The row a player row becomes when at most one link matches it. */
  function Attached(row: Row, links: seq<Link>): Row {
    var ms := Where(links, KeyMask(row));
    if ms == [] then WithOpponent(row, Null, Null) else WithOpponent(row, ms[0].opponentPossessions, ms[0].opponentPts)
  }

  lemma MergedSingle(row: Row, links: seq<Link>)
    requires UniqueKeys(links)
    ensures MergedRows(row, links) == [Attached(row, links)]
  {
    AtMostOneMatch(links, row);
  }

  /** The attached row: the player row with its opponent's values, or missing values when it has no link. */
  lemma AttachedValues(row: Row, links: seq<Link>)
    requires UniqueKeys(links)
    ensures var x := Attached(row, links);
      && x.Keys == row.Keys + OPPONENT_COLUMNS
      && (forall c :: c in row && c !in OPPONENT_COLUMNS ==> x[c] == row[c])
      && (forall l :: l in links && KeyMatches(row, l) ==>
            x[OPPONENT_POSSESSIONS] == l.opponentPossessions && x[OPPONENT_PTS] == l.opponentPts)
      && ((forall l :: l in links ==> !KeyMatches(row, l)) ==> x[OPPONENT_POSSESSIONS] == Null && x[OPPONENT_PTS] == Null)
  {
    AtMostOneMatch(links, row);
    var ms := Where(links, KeyMask(row));
    if ms != [] {
      assert ms[0] in ms;
      forall l | l in links && KeyMatches(row, l)
        ensures l == ms[0]
      {
        assert l in ms;
      }
    }
  }

  /** With unique merge keys the merge keeps the rows one for one. */
  lemma {:induction false} LeftMergeRowsOneToOne(rows: seq<Row>, links: seq<Link>)
    requires UniqueKeys(links)
    ensures |LeftMergeRows(rows, links)| == |rows|
    ensures forall i :: 0 <= i < |rows| ==> LeftMergeRows(rows, links)[i] == Attached(rows[i], links)
  {
    if rows != [] {
      var init, last := rows[..|rows| - 1], rows[|rows| - 1];
      LeftMergeRowsOneToOne(init, links);
      MergedSingle(last, links);
      var before := LeftMergeRows(init, links);
      assert LeftMergeRows(rows, links) == before + [Attached(last, links)];
      forall i | 0 <= i < |rows|
        ensures (before + [Attached(last, links)])[i] == Attached(rows[i], links)
      {
        if i < |init| {
          assert (before + [Attached(last, links)])[i] == before[i] && init[i] == rows[i];
        }
      }
    }
  }

  /**
   * With unique merge keys (as the links are when every team row has a team
   * id) the merge adds the two opponent columns to the player table, row for
   * row: a player row's opponent values are those of its link, and missing
   * (not zero) when it has none.
   */
  lemma LeftMergeOneToOne(f: Frame, links: seq<Link>)
    requires MATCH_ID in f.columns && TEAM_ID in f.columns && UniqueKeys(links)
    ensures Extends(f, LeftMerge(f, links), OPPONENT_COLUMNS)
    ensures forall i, l :: 0 <= i < |f.rows| && l in links && KeyMatches(f.rows[i], l) ==>
      && LeftMerge(f, links).rows[i][OPPONENT_POSSESSIONS] == l.opponentPossessions
      && LeftMerge(f, links).rows[i][OPPONENT_PTS] == l.opponentPts
    ensures forall i :: 0 <= i < |f.rows| && (forall l :: l in links ==> !KeyMatches(f.rows[i], l)) ==>
      && LeftMerge(f, links).rows[i][OPPONENT_POSSESSIONS] == Null
      && LeftMerge(f, links).rows[i][OPPONENT_PTS] == Null
  {
    LeftMergeRowsOneToOne(f.rows, links);
    forall i | 0 <= i < |f.rows|
      ensures var x := Attached(f.rows[i], links);
        && x.Keys == f.rows[i].Keys + OPPONENT_COLUMNS
        && (forall c :: c in f.rows[i] && c !in OPPONENT_COLUMNS ==> x[c] == f.rows[i][c])
        && (forall l :: l in links && KeyMatches(f.rows[i], l) ==>
              x[OPPONENT_POSSESSIONS] == l.opponentPossessions && x[OPPONENT_PTS] == l.opponentPts)
        && ((forall l :: l in links ==> !KeyMatches(f.rows[i], l)) ==> x[OPPONENT_POSSESSIONS] == Null && x[OPPONENT_PTS] == Null)
    {
      AttachedValues(f.rows[i], links);
    }
  }

  /**
   * The merge as written: `pd.DataFrame([])` has no columns, so merging on
   * `match_feb_id` raises `KeyError` whenever no match produced a link.
   */
  function MergeOpponentsAsWritten(f: Frame, links: seq<Link>): (r: Result<Frame, string>)
    requires MATCH_ID in f.columns && TEAM_ID in f.columns
    ensures r.Failure? <==> links == []
    ensures r.Success? ==> FeatureEngineer.HasOpponentData(r.value.columns)
  {
    if links == [] then Failure(MATCH_ID) else Success(LeftMerge(f, links))
  }

  /**
   * The merge as the warning branch of the feature choice intends it: without
   * any link the table keeps its columns, and DER is then left out.
   */
  function MergeOpponents(f: Frame, links: seq<Link>): (r: Frame)
    requires MATCH_ID in f.columns && TEAM_ID in f.columns
    ensures links == [] ==> r == f
    ensures links != [] ==> r.columns == f.columns + OPPONENT_COLUMNS
  {
    if links == [] then f else LeftMerge(f, links)
  }

  /** Wherever the merge as written succeeds, the corrected merge gives the same table. */
  lemma MergeOpponentsAgrees(f: Frame, links: seq<Link>)
    requires MATCH_ID in f.columns && TEAM_ID in f.columns
    ensures MergeOpponentsAsWritten(f, links).Success? ==>
      MergeOpponentsAsWritten(f, links).value == MergeOpponents(f, links)
  {
  }

  /** Both opponent columns exist after the corrected merge exactly when there are links (or the table had them). */
  lemma MergeOpponentsColumns(f: Frame, links: seq<Link>)
    requires MATCH_ID in f.columns && TEAM_ID in f.columns
    ensures FeatureEngineer.HasOpponentData(MergeOpponents(f, links).columns) <==>
      links != [] || FeatureEngineer.HasOpponentData(f.columns)
  {
  }

  /**
   * A player table whose only match has a single team row: the loop builds
   * no link, the merge as written fails, and the corrected one keeps the table.
   */
  lemma NoLinksMergeFails()
    ensures var players := Frame({MATCH_ID, TEAM_ID}, [map[MATCH_ID := Num(1.0), TEAM_ID := Num(10.0)]]);
      var teams := Frame({MATCH_ID, TEAM_ID, TEAM_POSSESSIONS, "pts"},
        [map[MATCH_ID := Num(1.0), TEAM_ID := Num(10.0), TEAM_POSSESSIONS := Num(70.0), "pts" := Num(80.0)]]);
      && LinksFor(teams.rows, MatchIds(players)) == Success([])
      && MergeOpponentsAsWritten(players, []).Failure?
      && MergeOpponents(players, []) == players
  {
    var players := Frame({MATCH_ID, TEAM_ID}, [map[MATCH_ID := Num(1.0), TEAM_ID := Num(10.0)]]);
    var teamRow := map[MATCH_ID := Num(1.0), TEAM_ID := Num(10.0), TEAM_POSSESSIONS := Num(70.0), "pts" := Num(80.0)];
    var ids := MatchIds(players);
    var col := [Num(1.0)];
    assert Column(players.rows, MATCH_ID) == col;
    assert col[..0] == [];
    assert Unique(col) == [Num(1.0)];
    assert [teamRow][1..] == [];
    assert MatchRows([teamRow], Num(1.0)) == [teamRow];
    assert MatchLinks(Num(1.0), [teamRow]) == Some([]);
    assert ids[..0] == [] && LinksFor([teamRow], ids[..0]) == Success([]);
    assert LinksFor([teamRow], ids) == AddMatch(Success([]), Num(1.0), Some([]));
    var none: seq<Link> := [];
    assert none + none == none;
  }

  // ---------------------------------------------------------- feature lists

  /** Lines 153-161: the clustering features, with `der` only when the table has it and both opponent columns. */
  function ClusteringFeatures(listed: seq<string>, columns: set<string>): seq<string> {
    if FeatureEngineer.HasOpponentData(columns) && "der" in columns then
      if "der" !in listed then listed + ["der"] else listed
    else Where(listed, f => f != "der")
  }

  /**
   * `der` is chosen exactly when the table has it and both opponent columns;
   * every other listed feature is always chosen, and none twice when the list
   * has none twice.
   */
  lemma ClusteringFeaturesDer(listed: seq<string>, columns: set<string>)
    ensures "der" in ClusteringFeatures(listed, columns) <==> FeatureEngineer.HasOpponentData(columns) && "der" in columns
    ensures forall x :: x != "der" ==> (x in ClusteringFeatures(listed, columns) <==> x in listed)
    ensures Distinct(listed) ==> Distinct(ClusteringFeatures(listed, columns))
  {
    if Distinct(listed) {
      WhereDistinct(listed, f => f != "der");
    }
  }

  /** Line 164: the EDA features the table has, in their listed order. */
  function EdaFeatures(listed: seq<string>, columns: set<string>): (r: seq<string>)
    ensures forall x :: x in r <==> x in listed && x in columns
    ensures Distinct(listed) ==> Distinct(r)
  {
    if Distinct(listed) then
      WhereDistinct(listed, f => f in columns);
      Where(listed, f => f in columns)
    else Where(listed, f => f in columns)
  }

  /** `all` followed by each name of `rest` that is not yet listed. */
  function AppendMissing(all: seq<string>, rest: seq<string>): (r: seq<string>)
    ensures forall x :: x in r <==> x in all || x in rest
    decreases |rest|
  {
    if rest == [] then all
    else AppendMissing(if rest[0] in all then all else all + [rest[0]], rest[1..])
  }

  /**
   * Lines 167-170: the clustering features followed by each EDA feature not
   * yet listed; no feature twice when the clustering list has none twice.
   */
  method AllFeaturesToAggregate(clustering: seq<string>, eda: seq<string>) returns (all: seq<string>)
    ensures all == AppendMissing(clustering, eda)
    ensures |all| >= |clustering| && all[..|clustering|] == clustering
    ensures forall x :: x in all <==> x in clustering || x in eda
    ensures Distinct(clustering) ==> Distinct(all)
  {
    all := clustering;
    for k := 0 to |eda|
      invariant AppendMissing(all, eda[k..]) == AppendMissing(clustering, eda)
      invariant |all| >= |clustering| && all[..|clustering|] == clustering
      invariant forall x :: x in all <==> x in clustering || x in eda[..k]
      invariant Distinct(clustering) ==> Distinct(all)
    {
      assert eda[..k + 1] == eda[..k] + [eda[k]];
      assert eda[k..][0] == eda[k] && eda[k..][1..] == eda[k + 1..];
      if eda[k] !in all {
        all := all + [eda[k]];
      }
    }
    assert eda[..|eda|] == eda;
  }

  // ------------------------------------------------------------ projections

  /** `df[cols]`: the listed columns of every row, or the `KeyError` naming the missing ones. */
  function Select(f: Frame, cols: seq<string>): (r: Result<Frame, seq<string>>)
    ensures r.Success? <==> forall c :: c in cols ==> c in f.columns
    ensures r.Failure? ==> r.error != [] && forall c :: c in r.error <==> c in cols && c !in f.columns
    ensures r.Success? ==> r.value.columns == (set c | c in cols) && |r.value.rows| == |f.rows|
    ensures r.Success? ==> forall i, c :: 0 <= i < |f.rows| && c in cols ==> Get(r.value.rows[i], c) == Get(f.rows[i], c)
  {
    var missing := DataCleaner.MissingColumns(f.columns, cols);
    if missing != [] then
      assert missing[0] in missing;
      Failure(missing)
    else
      Success(Frame(set c | c in cols,
        seq(|f.rows|, i requires 0 <= i < |f.rows| => map c | c in cols :: Get(f.rows[i], c))))
  }

  // -------------------------------------------------------------- transform

  /** Team tables that agree row by row on match and team ids pair their matches alike. */
  lemma {:induction false} MatchRowsCongruent(a: seq<Row>, b: seq<Row>, m: Cell)
    requires |a| == |b|
    requires forall k :: 0 <= k < |a| ==>
      Get(a[k], MATCH_ID) == Get(b[k], MATCH_ID) && Get(a[k], TEAM_ID) == Get(b[k], TEAM_ID)
    ensures |MatchRows(a, m)| == |MatchRows(b, m)|
    ensures forall k :: 0 <= k < |MatchRows(a, m)| ==>
      Get(MatchRows(a, m)[k], TEAM_ID) == Get(MatchRows(b, m)[k], TEAM_ID)
  {
    if a != [] {
      MatchRowsCongruent(a[1..], b[1..], m);
      var ha := if MatchMask(m)(a[0]) then [a[0]] else [];
      var hb := if MatchMask(m)(b[0]) then [b[0]] else [];
      assert MatchRows(a, m) == ha + MatchRows(a[1..], m);
      assert MatchRows(b, m) == hb + MatchRows(b[1..], m);
    }
  }

  /** Adding the possessions column leaves every match paired (or unpaired) as before. */
  lemma PossessionsKeepPairing(teams: Frame)
    requires FeatureEngineer.POSSESSION_INPUTS <= teams.columns
    ensures forall m :: |MatchRows(TeamPossessions(teams).rows, m)| == |MatchRows(teams.rows, m)|
    ensures forall m :: PairingFails(TeamPossessions(teams).rows, m) == PairingFails(teams.rows, m)
    ensures NoMissingTeamIds(teams.rows) ==> NoMissingTeamIds(TeamPossessions(teams).rows)
  {
    var r := TeamPossessions(teams);
    ExtendsGet(teams, r, {TEAM_POSSESSIONS}, MATCH_ID);
    ExtendsGet(teams, r, {TEAM_POSSESSIONS}, TEAM_ID);
    forall m {
      MatchRowsCongruent(r.rows, teams.rows, m);
    }
    if NoMissingTeamIds(teams.rows) {
      forall row | row in r.rows
        ensures Get(row, TEAM_ID) != Null
      {
        var i :| 0 <= i < |r.rows| && r.rows[i] == row;
        assert teams.rows[i] in teams.rows;
      }
    }
  }

  /** Some match of the player table has exactly two team rows. */
  ghost predicate HasPairedMatch(players: Frame, teams: seq<Row>) {
    exists m :: m in MatchIds(players) && |MatchRows(teams, m)| == 2
  }

  /** Every merged row is a player row as far as the player id and the minutes go. */
  lemma MergedRowsFromPlayers(players: Frame, links: seq<Link>)
    requires MATCH_ID in players.columns && TEAM_ID in players.columns
    ensures forall x :: x in MergeOpponents(players, links).rows ==>
      exists p :: p in players.rows && Get(x, PLAYER_ID) == Get(p, PLAYER_ID) && Get(x, MINUTES) == Get(p, MINUTES)
  {
    if links != [] {
      LeftMergeRowsFrom(players.rows, links);
      forall x | x in MergeOpponents(players, links).rows
        ensures exists p :: p in players.rows && Get(x, PLAYER_ID) == Get(p, PLAYER_ID) && Get(x, MINUTES) == Get(p, MINUTES)
      {
        var p :| p in players.rows && x == WithOpponent(p, Get(x, OPPONENT_POSSESSIONS), Get(x, OPPONENT_PTS));
        assert Get(x, PLAYER_ID) == Get(p, PLAYER_ID) && Get(x, MINUTES) == Get(p, MINUTES);
      }
    }
  }

  /** The player columns, with the opponent columns absent and positive minutes everywhere. */
  ghost predicate PlayerInputs(players: Frame, config: Config) {
    && {MATCH_ID, TEAM_ID, PLAYER_ID, PLAYER_NAME} <= players.columns
    && players.columns !! OPPONENT_COLUMNS
    && FeatureEngineer.TransformInputs(players, config.interiorMade, config.interiorAttempted,
                                       config.exteriorMade, config.exteriorAttempted)
    && forall row :: row in players.rows ==> Positive(Get(row, MINUTES))
  }

  /**
   * After the merge and the games filter the table still has what the feature
   * engineering needs, every row still has positive minutes, and the opponent
   * columns are there exactly when some link was built.
   */
  lemma MergedAndFilteredReady(players: Frame, config: Config, links: seq<Link>, merged: Frame, filtered: Frame)
    requires PlayerInputs(players, config)
    requires merged == MergeOpponents(players, links)
    requires filtered == DataCleaner.FilterByGamesPlayed(merged, config.minGames)
    ensures FeatureEngineer.TransformInputs(filtered, config.interiorMade, config.interiorAttempted,
                                            config.exteriorMade, config.exteriorAttempted)
    ensures forall row :: row in filtered.rows ==> Positive(Get(row, MINUTES))
    ensures players.columns <= filtered.columns
    ensures FeatureEngineer.HasOpponentData(filtered.columns) <==> links != []
  {
    MergedRowsFromPlayers(players, links);
    MergeOpponentsColumns(players, links);
    forall i | 0 <= i < |filtered.rows|
      ensures Positive(Get(filtered.rows[i], MINUTES))
    {
      assert filtered.rows[i] in filtered.rows;
    }
  }

  /** Minutes played are the minutes in seconds over 60, so positive minutes give positive minutes played. */
  lemma MinutesPlayedPositive(filtered: Frame, df: Frame)
    requires forall row :: row in filtered.rows ==> Positive(Get(row, MINUTES))
    requires |df.rows| == |filtered.rows|
    requires forall i :: 0 <= i < |filtered.rows| ==>
      Get(df.rows[i], MINUTES_PLAYED) == FeatureEngineer.MinutesCell(Get(filtered.rows[i], MINUTES))
    ensures forall row :: row in df.rows ==> Positive(Get(row, MINUTES_PLAYED))
  {
    forall row | row in df.rows
      ensures Positive(Get(row, MINUTES_PLAYED))
    {
      var i :| 0 <= i < |df.rows| && df.rows[i] == row;
      assert filtered.rows[i] in filtered.rows;
    }
  }

  /** Weighting by minutes is defined when every row has positive minutes played: no player's minutes add up to zero. */
  lemma WeightedAggregationDefined(df: Frame, all: seq<string>)
    requires forall row :: row in df.rows ==> Positive(Get(row, MINUTES_PLAYED))
    requires PLAYER_ID in df.columns && PLAYER_NAME in df.columns && PLAYER_ID !in all
    ensures DataAggregator.AggregateInputs(df, all, true)
  {
    forall id | id in DataAggregator.PlayerIds(df.rows)
      ensures DataAggregator.ColumnSum(DataAggregator.Group(df.rows, id), MINUTES_PLAYED) != 0.0
    {
      var g := DataAggregator.Group(df.rows, id);
      DataAggregator.GroupNonEmpty(df.rows, id);
      assert forall k :: 0 <= k < |g| ==> g[k] in g;
      DataAggregator.PositiveMinutesSum(g);
    }
  }

  /** The player id, the name and the minutes played are never chosen as features. */
  lemma IdentityNotAFeature(config: Config, columns: set<string>)
    requires ConfigUsable(config)
    ensures forall c :: c in ClusteringFeatures(config.clusteringFeatures, columns) || c in EdaFeatures(config.edaFeatures, columns) ==>
      c != PLAYER_ID && c != PLAYER_NAME && c != MINUTES_PLAYED
  {
    ClusteringFeaturesDer(config.clusteringFeatures, columns);
  }

  /**
   * With no opponent columns in the player table, `der` is among the chosen
   * features exactly when some link was built.
   */
  lemma DerChosen(config: Config, filtered: Frame, df: Frame, links: seq<Link>)
    requires FeatureEngineer.HasOpponentData(filtered.columns) <==> links != []
    requires df.columns == filtered.columns + FeatureEngineer.DerivedColumns(filtered.columns, config.statsToNormalize,
               config.exteriorMade, config.exteriorAttempted, config.target)
    requires "der" in df.columns <==> "der" in filtered.columns || FeatureEngineer.HasOpponentData(filtered.columns)
    ensures "der" in ClusteringFeatures(config.clusteringFeatures, df.columns) <==> links != []
  {
    FeatureEngineer.EarlyColumnsExcludeOpponent(filtered.columns, config.statsToNormalize, config.exteriorMade,
                                                config.exteriorAttempted, config.target);
    assert FeatureEngineer.HasOpponentData(df.columns) <==> FeatureEngineer.HasOpponentData(filtered.columns);
    ClusteringFeaturesDer(config.clusteringFeatures, df.columns);
  }

  lemma {:induction false} GamesOfCongruent(a: seq<Row>, b: seq<Row>, id: Cell)
    requires |a| == |b|
    requires forall k :: 0 <= k < |a| ==> Get(a[k], PLAYER_ID) == Get(b[k], PLAYER_ID)
    ensures DataCleaner.GamesOf(a, id) == DataCleaner.GamesOf(b, id)
  {
    if a != [] {
      GamesOfCongruent(a[1..], b[1..], id);
    }
  }

  /** With unique merge keys the merge keeps the player rows in place, ids included. */
  lemma MergeKeepsIds(players: Frame, links: seq<Link>)
    requires MATCH_ID in players.columns && TEAM_ID in players.columns && UniqueKeys(links)
    ensures |MergeOpponents(players, links).rows| == |players.rows|
    ensures forall k :: 0 <= k < |players.rows| ==>
      Get(MergeOpponents(players, links).rows[k], PLAYER_ID) == Get(players.rows[k], PLAYER_ID)
  {
    if links != [] {
      var out := LeftMergeRows(players.rows, links);
      assert MergeOpponents(players, links).rows == out;
      LeftMergeRowsOneToOne(players.rows, links);
      forall k | 0 <= k < |players.rows|
        ensures Get(out[k], PLAYER_ID) == Get(players.rows[k], PLAYER_ID)
      {
        assert out[k] == Attached(players.rows[k], links);
      }
    }
  }

  /** With unique merge keys the merge repeats no player row, so it keeps every player's count of rows. */
  lemma MergeKeepsGames(players: Frame, links: seq<Link>, merged: Frame)
    requires MATCH_ID in players.columns && TEAM_ID in players.columns
    requires merged == MergeOpponents(players, links) && UniqueKeys(links)
    ensures forall id :: DataCleaner.GamesOf(merged.rows, id) == DataCleaner.GamesOf(players.rows, id)
  {
    MergeKeepsIds(players, links);
    forall id
      ensures DataCleaner.GamesOf(merged.rows, id) == DataCleaner.GamesOf(players.rows, id)
    {
      GamesOfCongruent(merged.rows, players.rows, id);
    }
  }

  /** Every row the games filter keeps is a row of a player of the input table. */
  lemma FilteredRowsFromPlayers(players: Frame, merged: Frame, filtered: Frame)
    requires forall x :: x in merged.rows ==>
      exists p :: p in players.rows && Get(x, PLAYER_ID) == Get(p, PLAYER_ID) && Get(x, MINUTES) == Get(p, MINUTES)
    requires forall row :: row in filtered.rows ==> row in merged.rows
    ensures forall row :: row in filtered.rows ==>
      exists k :: 0 <= k < |players.rows| && Get(players.rows[k], PLAYER_ID) == Get(row, PLAYER_ID)
  {
    forall row | row in filtered.rows
      ensures exists k :: 0 <= k < |players.rows| && Get(players.rows[k], PLAYER_ID) == Get(row, PLAYER_ID)
    {
      var p :| p in players.rows && Get(row, PLAYER_ID) == Get(p, PLAYER_ID) && Get(row, MINUTES) == Get(p, MINUTES);
      var k :| 0 <= k < |players.rows| && players.rows[k] == p;
    }
  }

  /** Transformations that keep the player id column keep the players. */
  lemma TransformedPlayers(filtered: Frame, df: Frame, derived: set<string>)
    requires Extends(filtered, df, derived) && PLAYER_ID !in derived
    ensures forall id :: id in DataAggregator.PlayerIds(df.rows) ==>
      exists row :: row in filtered.rows && Get(row, PLAYER_ID) == id
  {
    ExtendsGet(filtered, df, derived, PLAYER_ID);
    forall id | id in DataAggregator.PlayerIds(df.rows)
      ensures exists row :: row in filtered.rows && Get(row, PLAYER_ID) == id
    {
      var i :| 0 <= i < |df.rows| && Get(df.rows[i], PLAYER_ID) == id;
      assert filtered.rows[i] in filtered.rows;
    }
  }

  /**
   * Lines 108-128: the possessions of every team row and the opponent
   * pairing, stopping at the first match of the player table whose two team
   * rows share a team id.
   */
  method PairOpponents(players: Frame, teams: Frame) returns (r: Result<seq<Link>, Cell>)
    requires MATCH_ID in players.columns
    requires {MATCH_ID, TEAM_ID, "pts"} + FeatureEngineer.POSSESSION_INPUTS <= teams.columns
    ensures r.Failure? <==> exists m :: m in MatchIds(players) && PairingFails(teams.rows, m)
    ensures r.Failure? ==> r.error in MatchIds(players) && PairingFails(teams.rows, r.error)
    ensures r.Success? ==> (r.value != [] <==> HasPairedMatch(players, teams.rows))
    ensures r.Success? && NoMissingTeamIds(teams.rows) ==> UniqueKeys(r.value)
    ensures r == LinksFor(TeamPossessions(teams).rows, MatchIds(players))
  {
    var teamsP := TeamPossessions(teams);
    PossessionsKeepPairing(teams);
    LinksFailure(teamsP.rows, MatchIds(players));
    r := OpponentLinks(players, teamsP);
    if r.Success? {
      LinksNonEmpty(teamsP.rows, MatchIds(players));
      if NoMissingTeamIds(teams.rows) {
        LinksUniqueKeys(teamsP.rows, MatchIds(players));
      }
    }
  }

  /**
   * The pipeline as written: when no match fails to pair, the links of the
   * pairing loop are empty, and the merge on them raises `KeyError`, exactly
   * when no match of the player table has two team rows.
   */
  lemma MergeAsWrittenFailsUnpaired(players: Frame, teams: Frame)
    requires MATCH_ID in players.columns && TEAM_ID in players.columns
    requires {MATCH_ID, TEAM_ID, "pts"} + FeatureEngineer.POSSESSION_INPUTS <= teams.columns
    requires !exists m :: m in MatchIds(players) && PairingFails(teams.rows, m)
    ensures var links := LinksFor(TeamPossessions(teams).rows, MatchIds(players));
      && links.Success?
      && (MergeOpponentsAsWritten(players, links.value).Failure? <==> !HasPairedMatch(players, teams.rows))
  {
    var teamsP := TeamPossessions(teams);
    PossessionsKeepPairing(teams);
    LinksFailure(teamsP.rows, MatchIds(players));
    LinksNonEmpty(teamsP.rows, MatchIds(players));
  }

  /** Lines 130-148 as a value: the corrected merge, the games filter and all the transformations. */
  function EngineeredTable(players: Frame, config: Config, links: seq<Link>): (df: Frame)
    requires PlayerInputs(players, config)
    ensures players.columns + {MINUTES_PLAYED} <= df.columns
    ensures forall row :: row in df.rows ==> Positive(Get(row, MINUTES_PLAYED))
  {
    var merged := MergeOpponents(players, links);
    var filtered := DataCleaner.FilterByGamesPlayed(merged, config.minGames);
    MergedAndFilteredReady(players, config, links, merged, filtered);
    FeatureEngineer.TransformedShape(filtered, config.statsToNormalize, config.interiorMade, config.interiorAttempted,
      config.exteriorMade, config.exteriorAttempted, config.target);
    FeatureEngineer.TransformedMinutesPlayed(filtered, config.statsToNormalize, config.interiorMade, config.interiorAttempted,
      config.exteriorMade, config.exteriorAttempted, config.target);
    var df := FeatureEngineer.Transformed(filtered, config.statsToNormalize, config.interiorMade, config.interiorAttempted,
      config.exteriorMade, config.exteriorAttempted, config.target);
    MinutesPlayedPositive(filtered, df);
    df
  }

  /** Lines 150-177 as a value: the minutes-weighted aggregation of the chosen features. */
  function AggregatedTable(df: Frame, config: Config): Frame
    requires ConfigUsable(config) && PLAYER_ID in df.columns && PLAYER_NAME in df.columns
    requires forall row :: row in df.rows ==> Positive(Get(row, MINUTES_PLAYED))
  {
    var all := AppendMissing(ClusteringFeatures(config.clusteringFeatures, df.columns), EdaFeatures(config.edaFeatures, df.columns));
    IdentityNotAFeature(config, df.columns);
    WeightedAggregationDefined(df, all);
    DataAggregator.AggregateByPlayer(df, all, true)
  }

  /** With unique merge keys the merge keeps every player's total of the seconds column. */
  lemma MergeKeepsMinutes(players: Frame, links: seq<Link>, id: Cell)
    requires MATCH_ID in players.columns && TEAM_ID in players.columns && UniqueKeys(links)
    ensures DataAggregator.ColumnSum(DataAggregator.Group(MergeOpponents(players, links).rows, id), MINUTES)
         == DataAggregator.ColumnSum(DataAggregator.Group(players.rows, id), MINUTES)
  {
    var merged := MergeOpponents(players, links);
    MergeKeepsIds(players, links);
    if links != [] {
      LeftMergeOneToOne(players, links);
      assert MINUTES !in OPPONENT_COLUMNS;
      ExtendsGet(players, merged, OPPONENT_COLUMNS, MINUTES);
    }
    DataAggregator.GroupSumCongruent(players.rows, merged.rows, id, MINUTES);
  }

  /**
   * Tables that agree row by row on the player ids, the second with the first's
   * seconds as minutes played, have every player's minutes played add up to
   * that player's seconds over 60.
   */
  lemma {:induction false} GroupMinutesPlayed(a: seq<Row>, b: seq<Row>, id: Cell)
    requires |a| == |b|
    requires forall i :: 0 <= i < |a| ==>
      Get(b[i], PLAYER_ID) == Get(a[i], PLAYER_ID) && Get(b[i], MINUTES_PLAYED) == FeatureEngineer.MinutesCell(Get(a[i], MINUTES))
    ensures DataAggregator.ColumnSum(DataAggregator.Group(b, id), MINUTES_PLAYED) * 60.0
         == DataAggregator.ColumnSum(DataAggregator.Group(a, id), MINUTES)
  {
    if a != [] {
      var n := |a|;
      assert a == a[..n - 1] + [a[n - 1]];
      assert b == b[..n - 1] + [b[n - 1]];
      GroupMinutesPlayed(a[..n - 1], b[..n - 1], id);
      DataAggregator.GroupAppend(a[..n - 1], a[n - 1], id, MINUTES);
      DataAggregator.GroupAppend(b[..n - 1], b[n - 1], id, MINUTES_PLAYED);
    }
  }

  /**
   * The transformations keep the rows and their ids in place, and each
   * player's minutes played add up to that player's seconds over 60.
   */
  lemma TransformedMinutesSum(f: Frame, config: Config, id: Cell)
    requires FeatureEngineer.TransformInputs(f, config.interiorMade, config.interiorAttempted,
                                             config.exteriorMade, config.exteriorAttempted)
    ensures var df := FeatureEngineer.Transformed(f, config.statsToNormalize, config.interiorMade, config.interiorAttempted,
                                                  config.exteriorMade, config.exteriorAttempted, config.target);
      && |df.rows| == |f.rows|
      && (forall i :: 0 <= i < |f.rows| ==> Get(df.rows[i], PLAYER_ID) == Get(f.rows[i], PLAYER_ID))
      && DataAggregator.ColumnSum(DataAggregator.Group(df.rows, id), MINUTES_PLAYED)
         == DataAggregator.ColumnSum(DataAggregator.Group(f.rows, id), MINUTES) / FeatureEngineer.SECONDS_PER_MINUTE
  {
    var df := FeatureEngineer.Transformed(f, config.statsToNormalize, config.interiorMade, config.interiorAttempted,
                                          config.exteriorMade, config.exteriorAttempted, config.target);
    ghost var derived := FeatureEngineer.DerivedColumns(f.columns, config.statsToNormalize, config.exteriorMade,
      config.exteriorAttempted, config.target);
    FeatureEngineer.TransformedShape(f, config.statsToNormalize, config.interiorMade, config.interiorAttempted,
      config.exteriorMade, config.exteriorAttempted, config.target);
    FeatureEngineer.TransformedMinutesPlayed(f, config.statsToNormalize, config.interiorMade, config.interiorAttempted,
      config.exteriorMade, config.exteriorAttempted, config.target);
    FeatureEngineer.IdentityNotDerived(f.columns, config.statsToNormalize, config.exteriorMade,
      config.exteriorAttempted, config.target);
    ExtendsGet(f, df, derived, PLAYER_ID);
    GroupMinutesPlayed(f.rows, df.rows, id);
  }

  /**
   * With unique merge keys, a player of the input with at least the minimum
   * number of rows keeps every row through the merge and the games filter, so
   * that the player's minutes played add up to the input's seconds over 60.
   */
  lemma EngineeredMinutes(players: Frame, config: Config, links: seq<Link>, id: Cell)
    requires PlayerInputs(players, config) && UniqueKeys(links)
    requires id != Null && DataCleaner.GamesOf(players.rows, id) >= config.minGames
    ensures DataAggregator.ColumnSum(DataAggregator.Group(EngineeredTable(players, config, links).rows, id), MINUTES_PLAYED)
         == DataAggregator.ColumnSum(DataAggregator.Group(players.rows, id), MINUTES) / FeatureEngineer.SECONDS_PER_MINUTE
  {
    var merged := MergeOpponents(players, links);
    var filtered := DataCleaner.FilterByGamesPlayed(merged, config.minGames);
    MergedAndFilteredReady(players, config, links, merged, filtered);
    MergeKeepsGames(players, links, merged);
    MergeKeepsMinutes(players, links, id);
    DataAggregator.GroupKeptByGamesFilter(merged, config.minGames, id);
    TransformedMinutesSum(filtered, config, id);
  }

  /** With unique merge keys, a player of the input with at least the minimum number of rows is a player of the engineered table. */
  lemma EngineeredKeepsPlayer(players: Frame, config: Config, links: seq<Link>, id: Cell)
    requires PlayerInputs(players, config) && UniqueKeys(links)
    requires id in DataAggregator.PlayerIds(players.rows) && DataCleaner.GamesOf(players.rows, id) >= config.minGames
    ensures id in DataAggregator.PlayerIds(EngineeredTable(players, config, links).rows)
  {
    var merged := MergeOpponents(players, links);
    var filtered := DataCleaner.FilterByGamesPlayed(merged, config.minGames);
    MergedAndFilteredReady(players, config, links, merged, filtered);
    MergeKeepsIds(players, links);
    MergeKeepsGames(players, links, merged);
    DataAggregator.PlayerIdsCongruent(players.rows, merged.rows);
    DataAggregator.GamesFilterKeepsPlayer(merged, config.minGames, id);
    TransformedMinutesSum(filtered, config, id);
    DataAggregator.PlayerIdsCongruent(filtered.rows, EngineeredTable(players, config, links).rows);
  }

  /**
   * Lines 130-148: the merge, the games filter and the feature engineering.
   * The result keeps the player columns, has positive minutes played in every
   * row, has `der` among its clustering features exactly when there are links,
   * and holds only players of the input table, each with at least the
   * configured number of rows there when the links have unique merge keys.
   */
  method EngineerFeatures(players: Frame, config: Config, links: seq<Link>) returns (df: Frame)
    requires PlayerInputs(players, config)
    ensures df == EngineeredTable(players, config, links)
    ensures players.columns <= df.columns
    ensures "der" in ClusteringFeatures(config.clusteringFeatures, df.columns) <==> links != []
    ensures forall row :: row in df.rows ==> Positive(Get(row, MINUTES_PLAYED))
    ensures forall id :: id in DataAggregator.PlayerIds(df.rows) ==>
      exists k :: 0 <= k < |players.rows| && Get(players.rows[k], PLAYER_ID) == id
    ensures UniqueKeys(links) ==> forall id :: id in DataAggregator.PlayerIds(df.rows) ==>
      DataCleaner.GamesOf(players.rows, id) >= config.minGames
  {
    var merged := MergeOpponents(players, links);
    var filtered := DataCleaner.FilterByGamesPlayed(merged, config.minGames);
    MergedAndFilteredReady(players, config, links, merged, filtered);
    MergedRowsFromPlayers(players, links);
    FilteredRowsFromPlayers(players, merged, filtered);
    if UniqueKeys(links) {
      MergeKeepsGames(players, links, merged);
    }
    df := FeatureEngineer.ApplyAllTransformations(filtered, config.statsToNormalize, config.interiorMade,
      config.interiorAttempted, config.exteriorMade, config.exteriorAttempted, config.target);
    ghost var derived := FeatureEngineer.DerivedColumns(filtered.columns, config.statsToNormalize, config.exteriorMade,
      config.exteriorAttempted, config.target);
    FeatureEngineer.IdentityNotDerived(filtered.columns, config.statsToNormalize, config.exteriorMade,
      config.exteriorAttempted, config.target);
    DerChosen(config, filtered, df, links);
    MinutesPlayedPositive(filtered, df);
    TransformedPlayers(filtered, df, derived);
  }

  /** What `transform` returns: the player information, the clustering features and the full aggregated table. */
  datatype Output = Output(playerInfo: Frame, features: Frame, aggregated: Frame)

  /** Why `transform` stops: a match whose two team rows share a team id, or clustering features the table lacks. */
  datatype TransformError = UnpairedMatch(matchId: Cell) | MissingFeatures(columns: seq<string>)

  /**
   * The tables of an engineered table's aggregation: the player information
   * (id and name), the chosen clustering features and the full aggregation,
   * each with one row per player in the order of the player ids.
   */
  ghost predicate Aggregated(df: Frame, config: Config, o: Output) {
    var ids := DataAggregator.PlayerIds(df.rows);
    && o.playerInfo.columns == {PLAYER_ID, PLAYER_NAME}
    && o.features.columns == (set c | c in ClusteringFeatures(config.clusteringFeatures, df.columns))
    && |o.aggregated.rows| == |ids| && |o.playerInfo.rows| == |ids| && |o.features.rows| == |ids|
    && (forall k :: 0 <= k < |ids| ==> Get(o.aggregated.rows[k], PLAYER_ID) == ids[k])
    && (forall k, c :: 0 <= k < |ids| && c in o.playerInfo.columns ==> Get(o.playerInfo.rows[k], c) == Get(o.aggregated.rows[k], c))
    && (forall k, c :: 0 <= k < |ids| && c in o.features.columns ==> Get(o.features.rows[k], c) == Get(o.aggregated.rows[k], c))
  }

  /**
   * Lines 150-181: the clustering and EDA features of the engineered table,
   * the aggregation by player weighted by minutes, and the two projections,
   * which fail exactly when a chosen clustering feature is not a column.
   */
  method AggregateFeatures(df: Frame, config: Config) returns (r: Result<Output, seq<string>>)
    requires ConfigUsable(config)
    requires PLAYER_ID in df.columns && PLAYER_NAME in df.columns
    requires forall row :: row in df.rows ==> Positive(Get(row, MINUTES_PLAYED))
    ensures r.Success? <==> forall c :: c in ClusteringFeatures(config.clusteringFeatures, df.columns) ==> c in df.columns
    ensures r.Failure? ==> r.error != []
    ensures r.Failure? ==>
      forall c :: c in r.error <==> c in ClusteringFeatures(config.clusteringFeatures, df.columns) && c !in df.columns
    ensures r.Success? ==> Aggregated(df, config, r.value)
    ensures r.Success? ==> r.value.aggregated == AggregatedTable(df, config)
  {
    var clustering := ClusteringFeatures(config.clusteringFeatures, df.columns);
    var eda := EdaFeatures(config.edaFeatures, df.columns);
    var all := AllFeaturesToAggregate(clustering, eda);
    IdentityNotAFeature(config, df.columns);
    WeightedAggregationDefined(df, all);
    var aggregated := DataAggregator.AggregateByPlayer(df, all, true);
    assert forall c :: c in clustering ==> (c in aggregated.columns <==> c in df.columns);
    var info := Select(aggregated, [PLAYER_ID, PLAYER_NAME]);
    var features := Select(aggregated, clustering);
    if features.Failure? {
      return Failure(features.error);
    }
    r := Success(Output(info.value, features.value, aggregated));
  }

  /**
   * The promises of a successful transform: the information table has the id
   * and name, `der` is a feature exactly when some match had two team rows,
   * every other listed clustering feature is always one, the three tables have
   * a row per player in the same order, each player once, each a player of the
   * input table and, when no team row lacks its team id, one with at least the
   * configured number of rows in it.
   */
  ghost predicate Delivered(players: Frame, teams: seq<Row>, config: Config, o: Output) {
    && o.playerInfo.columns == {PLAYER_ID, PLAYER_NAME}
    && ("der" in o.features.columns <==> HasPairedMatch(players, teams))
    && (forall x :: x != "der" ==> (x in o.features.columns <==> x in config.clusteringFeatures))
    && |o.playerInfo.rows| == |o.aggregated.rows| && |o.features.rows| == |o.aggregated.rows|
    && Distinct(Column(o.aggregated.rows, PLAYER_ID))
    && (forall k, c :: 0 <= k < |o.aggregated.rows| && c in o.playerInfo.columns ==>
          Get(o.playerInfo.rows[k], c) == Get(o.aggregated.rows[k], c))
    && (forall k, c :: 0 <= k < |o.aggregated.rows| && c in o.features.columns ==>
          Get(o.features.rows[k], c) == Get(o.aggregated.rows[k], c))
    && FromInput(players, o)
    && (NoMissingTeamIds(teams) ==> DeliveredPlayers(players, config, o))
  }

  /** Every delivered player id is the id of some input row. */
  ghost predicate FromInput(players: Frame, o: Output) {
    forall k :: 0 <= k < |o.aggregated.rows| ==> InputId(players, Get(o.aggregated.rows[k], PLAYER_ID))
  }

  /** Some input row carries the player id `id`. */
  ghost predicate InputId(players: Frame, id: Cell) {
    exists j :: 0 <= j < |players.rows| && Get(players.rows[j], PLAYER_ID) == id
  }

  /**
   * The promises that hold when every team row has its team id: every
   * delivered player has at least the configured number of rows in the input
   * and minutes played equal to the input's seconds over 60, and every player
   * of the input with that many rows is delivered.
   */
  ghost predicate DeliveredPlayers(players: Frame, config: Config, o: Output) {
    && (forall k :: 0 <= k < |o.aggregated.rows| ==>
          var id := Get(o.aggregated.rows[k], PLAYER_ID);
          && DataCleaner.GamesOf(players.rows, id) >= config.minGames
          && Get(o.aggregated.rows[k], MINUTES_PLAYED)
             == Num(DataAggregator.ColumnSum(DataAggregator.Group(players.rows, id), MINUTES) / FeatureEngineer.SECONDS_PER_MINUTE))
    && (forall id :: id in DataAggregator.PlayerIds(players.rows) && DataCleaner.GamesOf(players.rows, id) >= config.minGames ==>
          id in Column(o.aggregated.rows, PLAYER_ID))
  }

  /**
   * The aggregation of the engineered table over links with unique keys
   * delivers exactly the players with enough rows, each with minutes played
   * equal to its input seconds over 60.
   */
  lemma AggregatedPlayers(players: Frame, config: Config, links: seq<Link>, df: Frame, o: Output)
    requires ConfigUsable(config) && PlayerInputs(players, config) && UniqueKeys(links)
    requires df == EngineeredTable(players, config, links)
    requires Aggregated(df, config, o) && o.aggregated == AggregatedTable(df, config)
    requires forall id :: id in DataAggregator.PlayerIds(df.rows) ==>
      DataCleaner.GamesOf(players.rows, id) >= config.minGames
    ensures DeliveredPlayers(players, config, o)
  {
    var ids := DataAggregator.PlayerIds(df.rows);
    assert Column(o.aggregated.rows, PLAYER_ID) == ids;
    forall k | 0 <= k < |o.aggregated.rows|
      ensures DataCleaner.GamesOf(players.rows, Get(o.aggregated.rows[k], PLAYER_ID)) >= config.minGames
      ensures Get(o.aggregated.rows[k], MINUTES_PLAYED)
        == Num(DataAggregator.ColumnSum(DataAggregator.Group(players.rows, Get(o.aggregated.rows[k], PLAYER_ID)), MINUTES) / FeatureEngineer.SECONDS_PER_MINUTE)
    {
      assert ids[k] in ids;
      assert Get(o.aggregated.rows[k], PLAYER_ID) == ids[k];
      EngineeredMinutes(players, config, links, ids[k]);
    }
    forall id | id in DataAggregator.PlayerIds(players.rows) && DataCleaner.GamesOf(players.rows, id) >= config.minGames
      ensures id in Column(o.aggregated.rows, PLAYER_ID)
    {
      EngineeredKeepsPlayer(players, config, links, id);
    }
  }

  /** A successful aggregation of the engineered table keeps the promises of `Delivered`. */
  lemma AggregatedDelivered(players: Frame, teams: seq<Row>, config: Config, df: Frame, o: Output)
    requires Aggregated(df, config, o)
    requires NoMissingTeamIds(teams) ==> DeliveredPlayers(players, config, o)
    requires "der" in ClusteringFeatures(config.clusteringFeatures, df.columns) <==> HasPairedMatch(players, teams)
    requires forall id :: id in DataAggregator.PlayerIds(df.rows) ==>
      exists k :: 0 <= k < |players.rows| && Get(players.rows[k], PLAYER_ID) == id
    ensures Delivered(players, teams, config, o)
  {
    var ids := DataAggregator.PlayerIds(df.rows);
    ClusteringFeaturesDer(config.clusteringFeatures, df.columns);
    assert Column(o.aggregated.rows, PLAYER_ID) == ids;
    forall k | 0 <= k < |o.aggregated.rows|
      ensures InputId(players, Get(o.aggregated.rows[k], PLAYER_ID))
    {
      assert ids[k] in ids;
      assert Get(o.aggregated.rows[k], PLAYER_ID) == ids[k];
    }
  }

  /**
   * `ETLPipeline.transform` under the configuration `config` (`CONFIG` holds
   * the values of `config.py`): possessions, opponent pairing, merge, games
   * filter, feature engineering, feature choice, weighted aggregation and the
   * two projections (the scaling step is not modelled).
   */
  method Transform(players: Frame, teams: Frame, config: Config) returns (r: Result<Output, TransformError>)
    requires ConfigUsable(config) && PlayerInputs(players, config)
    requires {MATCH_ID, TEAM_ID, "pts"} + FeatureEngineer.POSSESSION_INPUTS <= teams.columns
    ensures (r.Failure? && r.error.UnpairedMatch?) <==> exists m :: m in MatchIds(players) && PairingFails(teams.rows, m)
    ensures r.Failure? && r.error.UnpairedMatch? ==>
      r.error.matchId in MatchIds(players) && PairingFails(teams.rows, r.error.matchId)
    ensures r.Failure? && r.error.MissingFeatures? ==> r.error.columns != []
    ensures r.Failure? && r.error.MissingFeatures? ==>
      forall c :: c in r.error.columns ==> c in config.clusteringFeatures && c !in players.columns
    ensures r.Success? ==> Delivered(players, teams.rows, config, r.value)
    ensures r.Success? ==>
      var links := LinksFor(TeamPossessions(teams).rows, MatchIds(players));
      links.Success? && r.value.aggregated == AggregatedTable(EngineeredTable(players, config, links.value), config)
  {
    var linked := PairOpponents(players, teams);
    if linked.Failure? {
      return Failure(UnpairedMatch(linked.error));
    }
    var df := EngineerFeatures(players, config, linked.value);
    var aggregated := AggregateFeatures(df, config);
    if aggregated.Failure? {
      ClusteringFeaturesDer(config.clusteringFeatures, df.columns);
      return Failure(MissingFeatures(aggregated.error));
    }
    if NoMissingTeamIds(teams.rows) {
      AggregatedPlayers(players, config, linked.value, df, aggregated.value);
    }
    AggregatedDelivered(players, teams.rows, config, df, aggregated.value);
    r := Success(aggregated.value);
  }
}
