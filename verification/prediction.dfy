/**
 * The prediction engine without its classifier: the per-team rate table built from
 * the whole log, the winner code used as the training label, the six-value feature
 * row, the guards and result of `predict_match`, and `get_head_to_head_stats`.
 *
 * The label encoder and the random forest are foreign code; they are the parameter
 * `Classifier`, of which the model only assumes what scikit-learn guarantees: the
 * predicted label is one of the training labels and there is one probability per label.
 */
module Prediction {
  import opened Options
  import opened Text
  import opened Order
  import opened MatchLog
  import opened TeamQueries

  // ---------------------------------------------------------------------------
  // The team rate table (`self.team_stats`)
  // ---------------------------------------------------------------------------

  /** One `team_stats` entry. */
  datatype RateCard = RateCard(homeWinRate: real, awayWinRate: real, overallWinRate: real,
                               totalGames: nat)

  /** `wins / games if games > 0 else 0`, as an exact quotient. */
  function Share(wins: nat, games: nat): real
  {
    if games > 0 then wins as real / games as real else 0.0
  }

  /** The entry the loop over all team names builds for `team`. */
  function RateCardOf(rows: seq<Match>, team: string): RateCard
  {
    var home := Select(rows, AtHome(team));
    var away := Select(rows, AwayOf(team));
    var total := |home| + |away|;
    if total > 0 then
      var homeWins := Count(home, WonBy(team));
      var awayWins := Count(away, WonBy(team));
      RateCard(Share(homeWins, |home|), Share(awayWins, |away|), Share(homeWins + awayWins, total), total)
    else
      RateCard(0.0, 0.0, 0.0, 0)
  }

  /** `team_stats`: one entry per name in the union of the home and away columns. */
  function TeamStatsTable(rows: seq<Match>): (table: map<string, RateCard>)
    ensures forall t :: t in table <==> Plays(rows, t)
    ensures forall t :: t in table ==> table[t] == RateCardOf(rows, t)
  {
    map t | t in Homes(rows) + Aways(rows) :: RateCardOf(rows, t)
  }

  /** A team that appears in the log has at least one game, so the `total_games == 0`
      branch is never taken for a key of the table. */
  lemma PlayedTeamHasGames(rows: seq<Match>, team: string)
    requires Plays(rows, team)
    ensures |Select(rows, AtHome(team))| + |Select(rows, AwayOf(team))| > 0
  {
    if team in Homes(rows) {
      var i :| 0 <= i < |rows| && rows[i].home == team;
      assert rows[i] in Select(rows, AtHome(team));
    } else {
      var i :| 0 <= i < |rows| && rows[i].away == team;
      assert rows[i] in Select(rows, AwayOf(team));
    }
  }

  /** Every entry of the table counts the team's games: `total_games` is the home count
      plus the away count and is positive, the home rate is the share of home games won,
      the away rate the share of away games won, the overall rate the share of all games won. */
  lemma CardShares(rows: seq<Match>, team: string)
    requires Plays(rows, team)
    ensures var c := RateCardOf(rows, team);
      var home := Select(rows, AtHome(team));
      var away := Select(rows, AwayOf(team));
      && c.totalGames == |home| + |away| > 0
      && c.homeWinRate == Share(Count(home, WonBy(team)), |home|)
      && c.awayWinRate == Share(Count(away, WonBy(team)), |away|)
      && c.overallWinRate == Share(Count(home, WonBy(team)) + Count(away, WonBy(team)), c.totalGames)
  {
    PlayedTeamHasGames(rows, team);
  }

  /** A share times its number of games gives back the wins, whenever wins cannot exceed
      zero games. */
  lemma ShareTimes(wins: nat, games: nat)
    requires wins <= games
    ensures Share(wins, games) * games as real == wins as real
  {
  }

  /** A share of at most all games lies in [0, 1]. */
  lemma ShareBounds(wins: nat, games: nat)
    requires wins <= games
    ensures 0.0 <= Share(wins, games) <= 1.0
  {
    if games > 0 {
      ShareTimes(wins, games);
    }
  }

  /** Every entry of the table: `total_games` is positive, a side with no games has rate
      0, and all three rates lie in [0, 1]. */
  lemma TableEntries(rows: seq<Match>, team: string)
    requires team in TeamStatsTable(rows)
    ensures var c := TeamStatsTable(rows)[team];
      && c.totalGames > 0
      && (Count(rows, AtHome(team)) == 0 ==> c.homeWinRate == 0.0)
      && (Count(rows, AwayOf(team)) == 0 ==> c.awayWinRate == 0.0)
      && 0.0 <= c.homeWinRate <= 1.0
      && 0.0 <= c.awayWinRate <= 1.0
      && 0.0 <= c.overallWinRate <= 1.0
  {
    CardEntries(rows, team, TeamStatsTable(rows)[team]);
  }

  lemma CardEntries(rows: seq<Match>, team: string, c: RateCard)
    requires Plays(rows, team) && c == RateCardOf(rows, team)
    ensures && c.totalGames > 0
            && (Count(rows, AtHome(team)) == 0 ==> c.homeWinRate == 0.0)
            && (Count(rows, AwayOf(team)) == 0 ==> c.awayWinRate == 0.0)
            && 0.0 <= c.homeWinRate <= 1.0
            && 0.0 <= c.awayWinRate <= 1.0
            && 0.0 <= c.overallWinRate <= 1.0
  {
    CardShares(rows, team);
    var home := Select(rows, AtHome(team));
    var away := Select(rows, AwayOf(team));
    CardBounds(c, Count(home, WonBy(team)), |home|, Count(away, WonBy(team)), |away|);
  }

  lemma CardBounds(c: RateCard, homeWins: nat, homeGames: nat, awayWins: nat, awayGames: nat)
    requires homeWins <= homeGames && awayWins <= awayGames
    requires c.homeWinRate == Share(homeWins, homeGames)
    requires c.awayWinRate == Share(awayWins, awayGames)
    requires c.overallWinRate == Share(homeWins + awayWins, homeGames + awayGames)
    ensures homeGames == 0 ==> c.homeWinRate == 0.0
    ensures awayGames == 0 ==> c.awayWinRate == 0.0
    ensures 0.0 <= c.homeWinRate <= 1.0
    ensures 0.0 <= c.awayWinRate <= 1.0
    ensures 0.0 <= c.overallWinRate <= 1.0
  {
    ShareBounds(homeWins, homeGames);
    ShareBounds(awayWins, awayGames);
    ShareBounds(homeWins + awayWins, homeGames + awayGames);
  }

  /** Without self-matches the table agrees with the statistics calculator's records
      over all seasons: `total_games` is the record's game count, and each rate is the
      share of games won in the matching record (whole, home or away). */
  lemma TableMatchesRecords(log: seq<Match>, team: string)
    requires NoSelfMatch(log)
    requires Plays(log, team)
    ensures var c := RateCardOf(log, team);
      var all := OrZero(TeamStats(log, team, None), team);
      var home := OrZero(HomeStats(log, team, None), team);
      var away := OrZero(AwayStats(log, team, None), team);
      && c.totalGames == all.games
      && c.overallWinRate == Share(all.wins, all.games)
      && c.homeWinRate == Share(home.wins, home.games)
      && c.awayWinRate == Share(away.wins, away.games)
  {
    CardShares(log, team);
    WholeRecordCounts(log, team);
    SideRecordCounts(log, team);
    var home := Select(log, AtHome(team));
    var away := Select(log, AwayOf(team));
    var all := OrZero(TeamStats(log, team, None), team);
    SameShare(Count(home, WonBy(team)) + Count(away, WonBy(team)), |home| + |away|, all.wins, all.games);
  }

  lemma SameShare(w1: nat, g1: nat, w2: nat, g2: nat)
    requires w1 == w2 && g1 == g2
    ensures Share(w1, g1) == Share(w2, g2)
  {
  }

  lemma WholeRecordCounts(log: seq<Match>, team: string)
    requires NoSelfMatch(log)
    requires Plays(log, team)
    ensures var all := OrZero(TeamStats(log, team, None), team);
      var home := Select(log, AtHome(team));
      var away := Select(log, AwayOf(team));
      && all.games == |home| + |away|
      && all.wins == Count(home, WonBy(team)) + Count(away, WonBy(team))
  {
    var rows := Select(log, Involves(team));
    PlaysIffSomeRow(log, team);
    assert Slice(log, ScopeOfOptional(None)) == log;
    assert TeamStats(log, team, None) == Some(Summarize(team, rows, ScoredBy(team), ConcededBy(team)));
    SplitCount(log, team, WonBy(team));
  }

  lemma SideRecordCounts(log: seq<Match>, team: string)
    ensures var home := OrZero(HomeStats(log, team, None), team);
      var rows := Select(log, AtHome(team));
      home.games == |rows| && home.wins == Count(rows, WonBy(team))
    ensures var away := OrZero(AwayStats(log, team, None), team);
      var rows := Select(log, AwayOf(team));
      away.games == |rows| && away.wins == Count(rows, WonBy(team))
  {
    assert Slice(log, ScopeOfOptional(None)) == log;
    var h := Select(log, AtHome(team));
    var a := Select(log, AwayOf(team));
    if |h| == 0 {
      assert Select(h, WonBy(team)) == [];
    }
    if |a| == 0 {
      assert Select(a, WonBy(team)) == [];
    }
  }

  // ---------------------------------------------------------------------------
  // Labels
  // ---------------------------------------------------------------------------

  /** `get_winner_code`: 1 for a home win, 0 for an away win, 2 for anything else. */
  function WinnerCode(m: Match): (c: int)
    ensures c == 1 <==> m.winner == m.home
    ensures c == 0 <==> m.winner == m.away && m.winner != m.home
    ensures c == 2 <==> m.winner != m.home && m.winner != m.away
  {
    if m.winner == m.home then 1 else if m.winner == m.away then 0 else 2
  }

  /** The `WINNER_CODE` column. */
  function Labels(rows: seq<Match>): (r: seq<int>)
    ensures |r| == |rows| && forall i :: 0 <= i < |rows| ==> r[i] == WinnerCode(rows[i])
  {
    seq(|rows|, i requires 0 <= i < |rows| => WinnerCode(rows[i]))
  }

  /** `model.classes_`: the distinct labels in increasing order. The train/test split is
      stratified, so the training part holds every label of the log. */
  function Classes(rows: seq<Match>): (cs: seq<int>)
    ensures StrictlyIncreasing(cs, IntLess)
    ensures forall c :: c in cs <==> exists i :: 0 <= i < |rows| && WinnerCode(rows[i]) == c
    ensures forall c :: c in cs ==> 0 <= c <= 2
  {
    IntLessIsStrictTotal();
    SortedSetSpec(Labels(rows), IntLess);
    SortedSet(Labels(rows), IntLess)
  }

  /** On well-formed rows (two distinct teams, one of which won) the draw label 2
      never occurs, and the label says which side won. */
  lemma SoundRowsHaveNoDraw(m: Match)
    requires Sound(m)
    ensures WinnerCode(m) != 2
    ensures WinnerCode(m) == 1 <==> m.winner == m.home
    ensures WinnerCode(m) == 0 <==> m.winner == m.away
  {
  }

  // ---------------------------------------------------------------------------
  // Features and the classifier
  // ---------------------------------------------------------------------------

  /** The six feature columns, in `feature_columns` order. */
  datatype Features = Features(homeCode: int, awayCode: int, homeWinRate: real, awayWinRate: real,
                               homeOverallRate: real, awayOverallRate: real)

  /** The fitted label encoder (`le.transform`) and random forest (`predict`,
      `predict_proba`). */
  datatype Classifier = Classifier(encode: string -> int, predict: Features -> int,
                                   proba: Features -> seq<real>)

  /** What scikit-learn promises of a forest fitted on labels `classes`. */
  ghost predicate Fitted(clf: Classifier, classes: seq<int>) {
    forall x :: clf.predict(x) in classes && |clf.proba(x)| == |classes|
  }

  /** The feature row of a game between `home` and `away`: the encoded names, the home
      team's home rate, the away team's away rate and both overall rates. */
  function FeatureRow(table: map<string, RateCard>, encode: string -> int, home: string, away: string)
    : (x: Features)
    requires home in table && away in table
    ensures x.homeCode == encode(home) && x.awayCode == encode(away)
    ensures x.homeWinRate == table[home].homeWinRate && x.awayWinRate == table[away].awayWinRate
    ensures x.homeOverallRate == table[home].overallWinRate
    ensures x.awayOverallRate == table[away].overallWinRate
  {
    Features(encode(home), encode(away), table[home].homeWinRate, table[away].awayWinRate,
             table[home].overallWinRate, table[away].overallWinRate)
  }

  /** The training matrix `X`: one feature row per game of the log. */
  function TrainingRows(rows: seq<Match>, encode: string -> int): (xs: seq<Features>)
    ensures |xs| == |rows|
    ensures forall i :: 0 <= i < |rows| ==>
              xs[i] == FeatureRow(TeamStatsTable(rows), encode, rows[i].home, rows[i].away)
  {
    var table := TeamStatsTable(rows);
    assert forall i :: 0 <= i < |rows| ==> rows[i].home == Homes(rows)[i] && rows[i].away == Aways(rows)[i];
    seq(|rows|, i requires 0 <= i < |rows| => FeatureRow(table, encode, rows[i].home, rows[i].away))
  }

  /** A game of the log, asked about again, gets the very feature row it was trained on. */
  lemma QueryMatchesTraining(rows: seq<Match>, encode: string -> int, i: int)
    requires 0 <= i < |rows|
    ensures rows[i].home in TeamStatsTable(rows) && rows[i].away in TeamStatsTable(rows)
    ensures TrainingRows(rows, encode)[i]
         == FeatureRow(TeamStatsTable(rows), encode, rows[i].home, rows[i].away)
  {
    assert rows[i].home == Homes(rows)[i] && rows[i].away == Aways(rows)[i];
  }

  // ---------------------------------------------------------------------------
  // predict_match
  // ---------------------------------------------------------------------------

  datatype Outcome = AwayWin | HomeWin | Draw

  /** The label behind each outcome of `result_map`. */
  function CodeOf(o: Outcome): (c: int)
    ensures 0 <= c <= 2
  {
    match o
    case AwayWin => 0
    case HomeWin => 1
    case Draw => 2
  }

  /** `result_map[code]`. */
  function OutcomeOf(c: int): (o: Outcome)
    requires 0 <= c <= 2
    ensures CodeOf(o) == c
  {
    if c == 0 then AwayWin else if c == 1 then HomeWin else Draw
  }

  lemma OutcomeCodeInverse(o: Outcome)
    ensures OutcomeOf(CodeOf(o)) == o
  {
  }

  /** `prob_map`: walks `classes_` and the probabilities together and stores each
      probability under its label's outcome; labels outside 0..2 are skipped. */
  function ProbMap(classes: seq<int>, p: seq<real>): (m: map<Outcome, real>)
    requires |p| == |classes|
    ensures forall o :: o in m <==> CodeOf(o) in classes
    decreases |classes|
  {
    if |classes| == 0 then map[]
    else
      var n := |classes| - 1;
      assert forall c :: c in classes <==> c in classes[..n] || c == classes[n];
      var rest := ProbMap(classes[..n], p[..n]);
      if 0 <= classes[n] <= 2 then
        assert forall o :: CodeOf(o) == classes[n] <==> o == OutcomeOf(classes[n]);
        rest[OutcomeOf(classes[n]) := p[n]]
      else rest
  }

  /** With duplicate-free labels, each outcome gets the probability at its label's index. */
  lemma {:induction false} ProbMapValues(classes: seq<int>, p: seq<real>, i: int)
    requires |p| == |classes| && Distinct(classes)
    requires 0 <= i < |classes| && 0 <= classes[i] <= 2
    ensures ProbMap(classes, p)[OutcomeOf(classes[i])] == p[i]
    decreases |classes|
  {
    var n := |classes| - 1;
    var pre := classes[..n];
    if i < n {
      assert Distinct(pre) by {
        forall a, b | 0 <= a < b < |pre| ensures pre[a] != pre[b] {
          assert pre[a] == classes[a] && pre[b] == classes[b];
        }
      }
      assert pre[i] == classes[i] && p[..n][i] == p[i];
      ProbMapValues(pre, p[..n], i);
      assert classes[n] != classes[i];
      if 0 <= classes[n] <= 2 {
        assert OutcomeOf(classes[n]) != OutcomeOf(classes[i]);
      }
    }
  }

  datatype Verdict =
    | NotFound
    | SameTeams
    | Predicted(home: string, away: string, outcome: Outcome, probabilities: map<Outcome, real>,
                homeCard: RateCard, awayCard: RateCard)

  /** `predict_match(home_team, away_team)` against a classifier fitted on the log. */
  function PredictMatch(log: seq<Match>, clf: Classifier, home: string, away: string): (r: Verdict)
    requires Fitted(clf, Classes(log))
    ensures r.NotFound? <==> !Plays(log, home) || !Plays(log, away)
    ensures r.SameTeams? <==> Plays(log, home) && home == away
    ensures r.Predicted? ==> && r.home == home && r.away == away && home != away
                             && r.homeCard == RateCardOf(log, home)
                             && r.awayCard == RateCardOf(log, away)
    ensures r.Predicted? ==> forall o :: o in r.probabilities <==> CodeOf(o) in Classes(log)
  {
    var table := TeamStatsTable(log);
    if home !in table || away !in table then NotFound
    else if home == away then SameTeams
    else
      var x := FeatureRow(table, clf.encode, home, away);
      Predicted(home, away, OutcomeOf(clf.predict(x)), ProbMap(Classes(log), clf.proba(x)),
                table[home], table[away])
  }

  /** The classifier is consulted only for two distinct known teams: on any other pair,
      every classifier gives the same answer. */
  lemma ClassifierOnlyOnValidPairs(log: seq<Match>, c1: Classifier, c2: Classifier, home: string, away: string)
    requires Fitted(c1, Classes(log)) && Fitted(c2, Classes(log))
    requires !Plays(log, home) || !Plays(log, away) || home == away
    ensures PredictMatch(log, c1, home, away) == PredictMatch(log, c2, home, away)
  {
  }

  /** A prediction follows the classifier on the pair's feature row, and its probability
      for each outcome is the classifier's probability at that outcome's label. */
  lemma PredictionUsesFeatureRow(log: seq<Match>, clf: Classifier, home: string, away: string, o: Outcome)
    requires Fitted(clf, Classes(log))
    requires PredictMatch(log, clf, home, away).Predicted?
    ensures var x := FeatureRow(TeamStatsTable(log), clf.encode, home, away);
      var r := PredictMatch(log, clf, home, away);
      && r.outcome == OutcomeOf(clf.predict(x))
      && (forall i :: 0 <= i < |Classes(log)| && Classes(log)[i] == CodeOf(o) ==>
            r.probabilities[o] == clf.proba(x)[i])
  {
    var x := FeatureRow(TeamStatsTable(log), clf.encode, home, away);
    var cs := Classes(log);
    IncreasingIsDistinct(cs);
    forall i | 0 <= i < |cs| && cs[i] == CodeOf(o)
      ensures PredictMatch(log, clf, home, away).probabilities[o] == clf.proba(x)[i]
    {
      ProbMapValues(cs, clf.proba(x), i);
    }
  }

  lemma IncreasingIsDistinct(cs: seq<int>)
    requires StrictlyIncreasing(cs, IntLess)
    ensures Distinct(cs)
  {
  }

  /** The draw label occurs exactly when some game's winner is neither of its teams. */
  lemma DrawLabelIffOddRow(log: seq<Match>)
    ensures 2 in Classes(log)
        <==> exists i :: 0 <= i < |log| && log[i].winner != log[i].home && log[i].winner != log[i].away
  {
    if exists i :: 0 <= i < |log| && log[i].winner != log[i].home && log[i].winner != log[i].away {
      var i :| 0 <= i < |log| && log[i].winner != log[i].home && log[i].winner != log[i].away;
      assert WinnerCode(log[i]) == 2;
    }
  }

  /** "draw" gets a probability exactly when some game of the log has a winner that is
      neither of its teams; on well-formed logs it never does. */
  lemma DrawOnlyIfLabelled(log: seq<Match>, clf: Classifier, home: string, away: string)
    requires Fitted(clf, Classes(log))
    requires PredictMatch(log, clf, home, away).Predicted?
    ensures Draw in PredictMatch(log, clf, home, away).probabilities
        <==> exists i :: 0 <= i < |log| && log[i].winner != log[i].home && log[i].winner != log[i].away
    ensures (forall m :: m in log ==> Sound(m)) ==> Draw !in PredictMatch(log, clf, home, away).probabilities
  {
    DrawLabelIffOddRow(log);
    assert Draw in PredictMatch(log, clf, home, away).probabilities <==> 2 in Classes(log);
    if forall m :: m in log ==> Sound(m) {
      assert forall i :: 0 <= i < |log| ==> Sound(log[i]);
    }
  }

  // ---------------------------------------------------------------------------
  // get_head_to_head_stats
  // ---------------------------------------------------------------------------

  /** `{"total_games": 0}` or the full summary. */
  datatype MeetingSummary =
    | NoMeetings
    | Summary(totalGames: nat, team1Wins: nat, team2Wins: nat, team1WinRate: real,
              team2WinRate: real, lastGames: seq<MeetingLine>)

  /** `get_head_to_head_stats(team1, team2)`: all seasons, last five meetings in log order. */
  function HeadToHeadSummary(log: seq<Match>, team1: string, team2: string): (r: MeetingSummary)
    ensures r.NoMeetings? <==> forall m :: m in log ==> !Keeps(Meeting(team1, team2), m)
    ensures r.Summary? ==> && r.totalGames == Count(log, Meeting(team1, team2))
                           && r.team1Wins == Count(Select(log, Meeting(team1, team2)), WonBy(team1))
                           && r.team2Wins == Count(Select(log, Meeting(team1, team2)), WonBy(team2))
    ensures r.Summary? ==> && r.team1WinRate == Share(r.team1Wins, r.totalGames)
                           && r.team2WinRate == Share(r.team2Wins, r.totalGames)
  {
    var rows := Select(log, Meeting(team1, team2));
    if |rows| == 0 then NoMeetings
    else
      assert rows[0] in rows;
      var w1 := Count(rows, WonBy(team1));
      var w2 := Count(rows, WonBy(team2));
      Summary(|rows|, w1, w2, Share(w1, |rows|), Share(w2, |rows|), LastLines(rows))
  }

  /** `[... for _, row in h2h_games.tail(5).iterrows()]`: the lines of the final
      `min(5, |rows|)` rows, in order. */
  function LastLines(rows: seq<Match>): (r: seq<MeetingLine>)
    ensures |r| == (if |rows| < 5 then |rows| else 5)
    ensures forall i :: 0 <= i < |r| ==> r[i] == AsPlayed(rows[|rows| - |r| + i])
  {
    var last := Tail(rows, 5);
    seq(|last|, i requires 0 <= i < |last| => AsPlayed(last[i]))
  }

  /** The summary counts the same meetings and wins as the calculator's head-to-head
      over all seasons. */
  lemma SummaryAgreesWithHeadToHead(log: seq<Match>, team1: string, team2: string)
    requires HeadToHeadSummary(log, team1, team2).Summary?
    ensures var s := HeadToHeadSummary(log, team1, team2);
      var h := HeadToHeadStats(log, team1, team2, None);
      && h.Some?
      && s.totalGames == h.value.totalGames
      && s.team1Wins == h.value.team1Wins && s.team2Wins == h.value.team2Wins
  {
    var rows := Select(log, Meeting(team1, team2));
    assert Meetings(log, team1, team2, None) == rows;
    assert rows[0] in rows;
  }

  /** Over the whole log, the total counts the rows with the two teams in either order
      and each team's wins count those rows it won. */
  lemma SummaryCountsRows(log: seq<Match>, team1: string, team2: string)
    requires HeadToHeadSummary(log, team1, team2).Summary?
    ensures var s := HeadToHeadSummary(log, team1, team2);
      && s.totalGames == |set i | 0 <= i < |log|
                                && ((log[i].home == team1 && log[i].away == team2)
                                    || (log[i].home == team2 && log[i].away == team1))|
      && s.team1Wins == |set i | 0 <= i < |log|
                               && ((log[i].home == team1 && log[i].away == team2)
                                   || (log[i].home == team2 && log[i].away == team1))
                               && log[i].winner == team1|
      && s.team2Wins == |set i | 0 <= i < |log|
                               && ((log[i].home == team1 && log[i].away == team2)
                                   || (log[i].home == team2 && log[i].away == team1))
                               && log[i].winner == team2|
  {
    MeetingPositions(log, team1, team2, team1);
    MeetingPositions(log, team1, team2, team2);
  }

  /** `last_games` holds the final `min(5, total)` meetings, in log order, each as it
      was played. */
  lemma SummaryLastGames(log: seq<Match>, team1: string, team2: string)
    requires HeadToHeadSummary(log, team1, team2).Summary?
    ensures var s := HeadToHeadSummary(log, team1, team2);
      var rows := Select(log, Meeting(team1, team2));
      && |s.lastGames| == (if |rows| < 5 then |rows| else 5)
      && forall i :: 0 <= i < |s.lastGames| ==> s.lastGames[i] == AsPlayed(rows[|rows| - |s.lastGames| + i])
  {
    var rows := Select(log, Meeting(team1, team2));
    assert HeadToHeadSummary(log, team1, team2).lastGames == LastLines(rows);
  }

  /** Swapping the teams swaps the wins and the rates and keeps the meetings. */
  lemma SummarySwap(log: seq<Match>, a: string, b: string)
    ensures var ab := HeadToHeadSummary(log, a, b);
      var ba := HeadToHeadSummary(log, b, a);
      && ab.NoMeetings? == ba.NoMeetings?
      && (ab.Summary? ==> && ab.totalGames == ba.totalGames
                          && ab.team1Wins == ba.team2Wins && ab.team2Wins == ba.team1Wins
                          && ab.team1WinRate == ba.team2WinRate && ab.team2WinRate == ba.team1WinRate
                          && ab.lastGames == ba.lastGames)
  {
    SelectSame(log, Meeting(a, b), Meeting(b, a));
  }

  /** Between two different teams the wins never exceed the meetings. */
  lemma SummaryWinsBounded(log: seq<Match>, team1: string, team2: string)
    requires team1 != team2
    requires HeadToHeadSummary(log, team1, team2).Summary?
    ensures var s := HeadToHeadSummary(log, team1, team2);
      s.team1Wins + s.team2Wins <= s.totalGames
  {
    WinsOfTwoTeams(Select(log, Meeting(team1, team2)), team1, team2);
  }
}
