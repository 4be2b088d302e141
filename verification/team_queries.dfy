/**
 * The per-team queries of the statistics engine: the team record, home and away
 * records, head-to-head, the last games and the form built on them. Each is the
 * computation the engine runs on a cache miss; the caching itself is in `Engine`.
 */
module TeamQueries {
  import opened Options
  import opened Text
  import opened Order
  import opened MatchLog

  /** A populated record dict; the empty dict `{}` is `None`. */
  datatype TeamRecord = TeamRecord(team: string, games: nat, wins: nat, losses: int,
                                   goalsScored: nat, goalsConceded: nat,
                                   goalDifference: int, points: nat)

  /** What every populated record satisfies. */
  predicate WellFormedRecord(r: TeamRecord, team: string) {
    && r.team == team
    && r.games > 0
    && r.wins <= r.games
    && r.wins + r.losses == r.games
    && r.goalDifference == r.goalsScored - r.goalsConceded
    && r.points <= 3 * r.games
  }

  /** The record of `rows` seen from `team`, goals read through `scored` and `conceded`. */
  function Summarize(team: string, rows: seq<Match>, scored: Measure, conceded: Measure): TeamRecord
  {
    var wins := Count(rows, WonBy(team));
    TeamRecord(team, |rows|, wins, |rows| - wins, Total(rows, scored), Total(rows, conceded),
               Total(rows, scored) - Total(rows, conceded), Total(rows, TeamPoints(team)))
  }

  lemma SummarizeWellFormed(team: string, rows: seq<Match>, scored: Measure, conceded: Measure)
    requires |rows| > 0
    ensures WellFormedRecord(Summarize(team, rows, scored, conceded), team)
  {
    TotalAtMostThree(rows, TeamPoints(team));
  }

  /** The all-zero record used where `{}` is read as "nothing". */
  function OrZero(r: Option<TeamRecord>, team: string): TeamRecord {
    r.GetOr(TeamRecord(team, 0, 0, 0, 0, 0, 0, 0))
  }

  // ---------------------------------------------------------------------------
  // Team record, home record, away record
  // ---------------------------------------------------------------------------

  /** `get_team_stats(team, season_id)` on a cache miss. */
  function TeamStats(log: seq<Match>, team: string, sel: Option<string>): (r: Option<TeamRecord>)
    requires OptionalSelectorOk(sel)
    ensures r.None? <==> forall m :: m in Slice(log, ScopeOfOptional(sel)) ==> m.home != team && m.away != team
    ensures r.Some? ==> WellFormedRecord(r.value, team)
  {
    var rows := Select(Slice(log, ScopeOfOptional(sel)), Involves(team));
    if |rows| == 0 then None
    else
      assert rows[0] in rows;
      SummarizeWellFormed(team, rows, ScoredBy(team), ConcededBy(team));
      Some(Summarize(team, rows, ScoredBy(team), ConcededBy(team)))
  }

  /** `get_home_stats`: the team's home rows, goals scored from HG and conceded from AG. */
  function HomeStats(log: seq<Match>, team: string, sel: Option<string>): (r: Option<TeamRecord>)
    requires OptionalSelectorOk(sel)
    ensures r.None? <==> forall m :: m in Slice(log, ScopeOfOptional(sel)) ==> m.home != team
    ensures r.Some? ==> WellFormedRecord(r.value, team)
  {
    var rows := Select(Slice(log, ScopeOfOptional(sel)), AtHome(team));
    if |rows| == 0 then None
    else
      assert rows[0] in rows;
      SummarizeWellFormed(team, rows, HomeGoals, AwayGoals);
      Some(Summarize(team, rows, HomeGoals, AwayGoals))
  }

  /** `get_away_stats`: the team's away rows, goals scored from AG and conceded from HG. */
  function AwayStats(log: seq<Match>, team: string, sel: Option<string>): (r: Option<TeamRecord>)
    requires OptionalSelectorOk(sel)
    ensures r.None? <==> forall m :: m in Slice(log, ScopeOfOptional(sel)) ==> m.away != team
    ensures r.Some? ==> WellFormedRecord(r.value, team)
  {
    var rows := Select(Slice(log, ScopeOfOptional(sel)), AwayOf(team));
    if |rows| == 0 then None
    else
      assert rows[0] in rows;
      SummarizeWellFormed(team, rows, AwayGoals, HomeGoals);
      Some(Summarize(team, rows, AwayGoals, HomeGoals))
  }

  /** Games and wins of the team record count positions of the season slice. */
  lemma TeamStatsCountsRows(log: seq<Match>, team: string, sel: Option<string>)
    requires OptionalSelectorOk(sel)
    requires TeamStats(log, team, sel).Some?
    ensures var slice := Slice(log, ScopeOfOptional(sel));
      && TeamStats(log, team, sel).value.games
         == |set i | 0 <= i < |slice| && (slice[i].home == team || slice[i].away == team)|
      && TeamStats(log, team, sel).value.wins
         == |set i | 0 <= i < |slice| && (slice[i].home == team || slice[i].away == team)
                                    && slice[i].winner == team|
  {
    var slice := Slice(log, ScopeOfOptional(sel));
    InvolvedPositions(slice, team);
    assert TeamStats(log, team, sel).value.games == Count(slice, Involves(team));
    assert TeamStats(log, team, sel).value.wins == Count(Select(slice, Involves(team)), WonBy(team));
  }

  /** The rows of a team and the rows it won, counted as positions of `slice`. */
  lemma InvolvedPositions(slice: seq<Match>, team: string)
    ensures Count(slice, Involves(team))
         == |set i | 0 <= i < |slice| && (slice[i].home == team || slice[i].away == team)|
    ensures Count(Select(slice, Involves(team)), WonBy(team))
         == |set i | 0 <= i < |slice| && (slice[i].home == team || slice[i].away == team)
                                    && slice[i].winner == team|
  {
    CountIsIndexCount(slice, Involves(team));
    SelectSelect(slice, Involves(team), WonBy(team));
    CountIsIndexCount(slice, Both(Involves(team), WonBy(team)));
    InvolvedIndexSet(slice, team);
    WonIndexSet(slice, team);
  }

  lemma InvolvedIndexSet(slice: seq<Match>, team: string)
    ensures IndexSet(slice, Involves(team))
         == set i | 0 <= i < |slice| && (slice[i].home == team || slice[i].away == team)
  {
    var s := set i | 0 <= i < |slice| && (slice[i].home == team || slice[i].away == team);
    forall i ensures i in IndexSet(slice, Involves(team)) <==> i in s {
    }
  }

  lemma WonIndexSet(slice: seq<Match>, team: string)
    ensures IndexSet(slice, Both(Involves(team), WonBy(team)))
         == set i | 0 <= i < |slice| && (slice[i].home == team || slice[i].away == team)
                                    && slice[i].winner == team
  {
    var s := set i | 0 <= i < |slice| && (slice[i].home == team || slice[i].away == team)
                                    && slice[i].winner == team;
    forall i ensures i in IndexSet(slice, Both(Involves(team), WonBy(team))) <==> i in s {
      if 0 <= i < |slice| {
        assert Keeps(Both(Involves(team), WonBy(team)), slice[i])
           <==> Keeps(Involves(team), slice[i]) && Keeps(WonBy(team), slice[i]);
      }
    }
  }

  /** Reading `{}` as zeros, each record is the summary of its (possibly empty) rows. */
  lemma RecordsAreSummaries(log: seq<Match>, team: string, sel: Option<string>)
    requires OptionalSelectorOk(sel)
    ensures var rows := Slice(log, ScopeOfOptional(sel));
      && OrZero(TeamStats(log, team, sel), team)
         == Summarize(team, Select(rows, Involves(team)), ScoredBy(team), ConcededBy(team))
      && OrZero(HomeStats(log, team, sel), team)
         == Summarize(team, Select(rows, AtHome(team)), HomeGoals, AwayGoals)
      && OrZero(AwayStats(log, team, sel), team)
         == Summarize(team, Select(rows, AwayOf(team)), AwayGoals, HomeGoals)
  {
    var rows := Slice(log, ScopeOfOptional(sel));
    EmptySummary(team, Select(rows, Involves(team)), ScoredBy(team), ConcededBy(team));
    EmptySummary(team, Select(rows, AtHome(team)), HomeGoals, AwayGoals);
    EmptySummary(team, Select(rows, AwayOf(team)), AwayGoals, HomeGoals);
  }

  lemma EmptySummary(team: string, rows: seq<Match>, scored: Measure, conceded: Measure)
    ensures |rows| == 0 ==> Summarize(team, rows, scored, conceded) == TeamRecord(team, 0, 0, 0, 0, 0, 0, 0)
  {
    if |rows| == 0 {
      assert Select(rows, WonBy(team)) == [];
    }
  }

  /** Home rows count goals the home way, away rows the away way. */
  lemma GoalsBySide(rows: seq<Match>, team: string)
    requires NoSelfMatch(rows)
    ensures var h := Select(rows, AtHome(team));
      && Total(h, ScoredBy(team)) == Total(h, HomeGoals)
      && Total(h, ConcededBy(team)) == Total(h, AwayGoals)
    ensures var a := Select(rows, AwayOf(team));
      && Total(a, ScoredBy(team)) == Total(a, AwayGoals)
      && Total(a, ConcededBy(team)) == Total(a, HomeGoals)
  {
    var h := Select(rows, AtHome(team));
    var a := Select(rows, AwayOf(team));
    forall i | 0 <= i < |h|
      ensures Value(ScoredBy(team), h[i]) == Value(HomeGoals, h[i])
      ensures Value(ConcededBy(team), h[i]) == Value(AwayGoals, h[i])
    {
      assert h[i] in h;
    }
    forall i | 0 <= i < |a|
      ensures Value(ScoredBy(team), a[i]) == Value(AwayGoals, a[i])
      ensures Value(ConcededBy(team), a[i]) == Value(HomeGoals, a[i])
    {
      assert a[i] in a && a[i] in rows;
    }
    TotalSame(h, ScoredBy(team), HomeGoals);
    TotalSame(h, ConcededBy(team), AwayGoals);
    TotalSame(a, ScoredBy(team), AwayGoals);
    TotalSame(a, ConcededBy(team), HomeGoals);
  }

  /** The home record reads the HG and AG columns of the home rows; the away record
      reads them the other way round on the away rows. Empty records read as zeros. */
  lemma SideRecordsReadColumns(log: seq<Match>, team: string, sel: Option<string>)
    requires OptionalSelectorOk(sel)
    ensures var slice := Slice(log, ScopeOfOptional(sel));
      var home := OrZero(HomeStats(log, team, sel), team);
      var away := OrZero(AwayStats(log, team, sel), team);
      && home.games == |Select(slice, AtHome(team))|
      && home.wins == |Select(Select(slice, AtHome(team)), WonBy(team))|
      && home.goalsScored == Total(Select(slice, AtHome(team)), HomeGoals)
      && home.goalsConceded == Total(Select(slice, AtHome(team)), AwayGoals)
      && away.games == |Select(slice, AwayOf(team))|
      && away.wins == |Select(Select(slice, AwayOf(team)), WonBy(team))|
      && away.goalsScored == Total(Select(slice, AwayOf(team)), AwayGoals)
      && away.goalsConceded == Total(Select(slice, AwayOf(team)), HomeGoals)
  {
    RecordsAreSummaries(log, team, sel);
  }

  /** With no self-matches, the team record counts HG on its home rows and AG on its
      away rows as scored, and the other column as conceded. */
  lemma TeamGoalsByRole(log: seq<Match>, team: string, sel: Option<string>)
    requires OptionalSelectorOk(sel)
    requires NoSelfMatch(Slice(log, ScopeOfOptional(sel)))
    ensures var slice := Slice(log, ScopeOfOptional(sel));
      var all := OrZero(TeamStats(log, team, sel), team);
      && all.goalsScored == Total(Select(slice, AtHome(team)), HomeGoals)
                          + Total(Select(slice, AwayOf(team)), AwayGoals)
      && all.goalsConceded == Total(Select(slice, AtHome(team)), AwayGoals)
                            + Total(Select(slice, AwayOf(team)), HomeGoals)
  {
    var rows := Slice(log, ScopeOfOptional(sel));
    RecordsAreSummaries(log, team, sel);
    SplitTotal(rows, team, ScoredBy(team));
    SplitTotal(rows, team, ConcededBy(team));
    GoalsBySide(rows, team);
  }

  /** With no self-matches in the slice, home plus away equals the whole record in
      games, wins, losses, points, goals scored and goals conceded. */
  lemma HomeAwaySplit(log: seq<Match>, team: string, sel: Option<string>)
    requires OptionalSelectorOk(sel)
    requires NoSelfMatch(Slice(log, ScopeOfOptional(sel)))
    ensures var all := OrZero(TeamStats(log, team, sel), team);
      var home := OrZero(HomeStats(log, team, sel), team);
      var away := OrZero(AwayStats(log, team, sel), team);
      && all.games == home.games + away.games
      && all.wins == home.wins + away.wins
      && all.losses == home.losses + away.losses
      && all.points == home.points + away.points
      && all.goalsScored == home.goalsScored + away.goalsScored
      && all.goalsConceded == home.goalsConceded + away.goalsConceded
  {
    var rows := Slice(log, ScopeOfOptional(sel));
    RecordsAreSummaries(log, team, sel);
    SplitCount(rows, team, WonBy(team));
    SplitTotal(rows, team, TeamPoints(team));
    SplitTotal(rows, team, ScoredBy(team));
    SplitTotal(rows, team, ConcededBy(team));
    GoalsBySide(rows, team);
  }

  // ---------------------------------------------------------------------------
  // Head-to-head
  // ---------------------------------------------------------------------------

  datatype MeetingLine = MeetingLine(home: string, away: string, score: string, winner: string)

  datatype HeadToHead = HeadToHead(team1: string, team2: string, totalGames: nat,
                                   team1Wins: nat, team2Wins: nat, games: seq<MeetingLine>)

  /** The line built for one meeting: the teams are placed by asking whether `team1`
      is the home team. */
  function MeetingLineOf(m: Match, team1: string, team2: string): (r: MeetingLine)
    ensures Keeps(Meeting(team1, team2), m) ==> r == AsPlayed(m)
  {
    if m.home == team1 then MeetingLine(team1, team2, ScoreText(m.hg, m.ag), m.winner)
    else MeetingLine(team2, team1, ScoreText(m.hg, m.ag), m.winner)
  }

  /** The line of a meeting as it was played. */
  function AsPlayed(m: Match): MeetingLine {
    MeetingLine(m.home, m.away, ScoreText(m.hg, m.ag), m.winner)
  }

  /** Lines for meetings of `team1` and `team2`: each keeps the row's real home/away order. */
  function MeetingLines(rows: seq<Match>, team1: string, team2: string): (r: seq<MeetingLine>)
    requires forall i :: 0 <= i < |rows| ==> Keeps(Meeting(team1, team2), rows[i])
    ensures |r| == |rows|
    ensures forall i :: 0 <= i < |rows| ==> r[i] == AsPlayed(rows[i])
  {
    seq(|rows|, i requires 0 <= i < |rows| => MeetingLineOf(rows[i], team1, team2))
  }

  function Meetings(log: seq<Match>, team1: string, team2: string, sel: Option<string>): seq<Match>
    requires OptionalSelectorOk(sel)
  {
    Select(Slice(log, ScopeOfOptional(sel)), Meeting(team1, team2))
  }

  lemma WinsOfTwoTeams(rows: seq<Match>, team1: string, team2: string)
    ensures team1 != team2 ==> Count(rows, WonBy(team1)) + Count(rows, WonBy(team2)) <= |rows|
  {
    if team1 != team2 {
      CountDisjoint(rows, WonBy(team1), WonBy(team2));
    }
  }

  /** `get_head_to_head(team1, team2, season_id)` on a cache miss. */
  function HeadToHeadStats(log: seq<Match>, team1: string, team2: string, sel: Option<string>)
    : (r: Option<HeadToHead>)
    requires OptionalSelectorOk(sel)
    ensures r.None? <==> forall m :: m in Slice(log, ScopeOfOptional(sel)) ==> !Keeps(Meeting(team1, team2), m)
    ensures r.Some? ==> && r.value.totalGames == |r.value.games| == |Meetings(log, team1, team2, sel)| > 0
                        && r.value.team1Wins <= r.value.totalGames
                        && r.value.team2Wins <= r.value.totalGames
    ensures r.Some? && team1 != team2 ==> r.value.team1Wins + r.value.team2Wins <= r.value.totalGames
    ensures r.Some? ==> && r.value.team1Wins == Count(Meetings(log, team1, team2, sel), WonBy(team1))
                        && r.value.team2Wins == Count(Meetings(log, team1, team2, sel), WonBy(team2))
    ensures r.Some? ==> forall i :: 0 <= i < |r.value.games| ==>
                          r.value.games[i] == AsPlayed(Meetings(log, team1, team2, sel)[i])
  {
    var rows := Meetings(log, team1, team2, sel);
    if |rows| == 0 then None
    else
      assert rows[0] in rows;
      assert forall i :: 0 <= i < |rows| ==> rows[i] in rows;
      WinsOfTwoTeams(rows, team1, team2);
      Some(HeadToHead(team1, team2, |rows|, Count(rows, WonBy(team1)), Count(rows, WonBy(team2)),
                      MeetingLines(rows, team1, team2)))
  }

  /** The meetings and each team's wins count positions of the season slice: a meeting
      is a row with the two teams in either order, and a team wins it when it is the
      row's winner. */
  lemma HeadToHeadCountsRows(log: seq<Match>, team1: string, team2: string, sel: Option<string>)
    requires OptionalSelectorOk(sel)
    requires HeadToHeadStats(log, team1, team2, sel).Some?
    ensures var slice := Slice(log, ScopeOfOptional(sel));
      var h := HeadToHeadStats(log, team1, team2, sel).value;
      && h.totalGames == |set i | 0 <= i < |slice|
                                && ((slice[i].home == team1 && slice[i].away == team2)
                                    || (slice[i].home == team2 && slice[i].away == team1))|
      && h.team1Wins == |set i | 0 <= i < |slice|
                               && ((slice[i].home == team1 && slice[i].away == team2)
                                   || (slice[i].home == team2 && slice[i].away == team1))
                               && slice[i].winner == team1|
      && h.team2Wins == |set i | 0 <= i < |slice|
                               && ((slice[i].home == team1 && slice[i].away == team2)
                                   || (slice[i].home == team2 && slice[i].away == team1))
                               && slice[i].winner == team2|
  {
    var slice := Slice(log, ScopeOfOptional(sel));
    MeetingPositions(slice, team1, team2, team1);
    MeetingPositions(slice, team1, team2, team2);
  }

  /** The meetings of `a` and `b` in `slice`, and those `w` won, counted as positions. */
  lemma MeetingPositions(slice: seq<Match>, a: string, b: string, w: string)
    ensures Count(slice, Meeting(a, b))
         == |set i | 0 <= i < |slice|
                   && ((slice[i].home == a && slice[i].away == b) || (slice[i].home == b && slice[i].away == a))|
    ensures Count(Select(slice, Meeting(a, b)), WonBy(w))
         == |set i | 0 <= i < |slice|
                   && ((slice[i].home == a && slice[i].away == b) || (slice[i].home == b && slice[i].away == a))
                   && slice[i].winner == w|
  {
    CountIsIndexCount(slice, Meeting(a, b));
    SelectSelect(slice, Meeting(a, b), WonBy(w));
    CountIsIndexCount(slice, Both(Meeting(a, b), WonBy(w)));
    MeetingIndexSet(slice, a, b);
    MeetingWonIndexSet(slice, a, b, w);
  }

  lemma MeetingIndexSet(slice: seq<Match>, a: string, b: string)
    ensures IndexSet(slice, Meeting(a, b))
         == set i | 0 <= i < |slice|
                  && ((slice[i].home == a && slice[i].away == b) || (slice[i].home == b && slice[i].away == a))
  {
    var s := set i | 0 <= i < |slice|
                   && ((slice[i].home == a && slice[i].away == b) || (slice[i].home == b && slice[i].away == a));
    forall i ensures i in IndexSet(slice, Meeting(a, b)) <==> i in s {
    }
  }

  lemma MeetingWonIndexSet(slice: seq<Match>, a: string, b: string, w: string)
    ensures IndexSet(slice, Both(Meeting(a, b), WonBy(w)))
         == set i | 0 <= i < |slice|
                  && ((slice[i].home == a && slice[i].away == b) || (slice[i].home == b && slice[i].away == a))
                  && slice[i].winner == w
  {
    var s := set i | 0 <= i < |slice|
                   && ((slice[i].home == a && slice[i].away == b) || (slice[i].home == b && slice[i].away == a))
                   && slice[i].winner == w;
    forall i ensures i in IndexSet(slice, Both(Meeting(a, b), WonBy(w))) <==> i in s {
      if 0 <= i < |slice| {
        assert Keeps(Both(Meeting(a, b), WonBy(w)), slice[i])
           <==> Keeps(Meeting(a, b), slice[i]) && Keeps(WonBy(w), slice[i]);
      }
    }
  }

  /** Swapping the two teams swaps the win counts and changes nothing else: same
      meetings, same lines, same order. */
  lemma HeadToHeadSymmetric(log: seq<Match>, a: string, b: string, sel: Option<string>)
    requires OptionalSelectorOk(sel)
    ensures var ab := HeadToHeadStats(log, a, b, sel);
      var ba := HeadToHeadStats(log, b, a, sel);
      && ab.None? == ba.None?
      && (ab.Some? ==> && ab.value.totalGames == ba.value.totalGames
                       && ab.value.team1Wins == ba.value.team2Wins
                       && ab.value.team2Wins == ba.value.team1Wins
                       && ab.value.games == ba.value.games)
  {
    var slice := Slice(log, ScopeOfOptional(sel));
    SelectSame(slice, Meeting(a, b), Meeting(b, a));
  }

  // ---------------------------------------------------------------------------
  // Last games and form
  // ---------------------------------------------------------------------------

  datatype GameLine = GameLine(date: int, home: string, away: string, score: string,
                               winner: string, isHome: bool)

  function DateKey(m: Match): real {
    m.date as real
  }

  function GameLineOf(m: Match, team: string): GameLine {
    GameLine(m.date, m.home, m.away, ScoreText(m.hg, m.ag), m.winner, m.home == team)
  }

  function GameLines(rows: seq<Match>, team: string): (r: seq<GameLine>)
    ensures |r| == |rows| && forall i :: 0 <= i < |rows| ==> r[i] == GameLineOf(rows[i], team)
  {
    seq(|rows|, i requires 0 <= i < |rows| => GameLineOf(rows[i], team))
  }

  /** The team's rows of the whole log, newest first, cut by `head(n)`. No season filter
      applies here. The order among rows of one date is not claimed. */
  function NewestRows(log: seq<Match>, team: string, n: int): seq<Match> {
    Head(SortDesc(Select(log, Involves(team)), DateKey), n)
  }

  /** Every newest row involves the team. */
  lemma NewestRowsInvolve(log: seq<Match>, team: string, n: int)
    ensures forall i :: 0 <= i < |NewestRows(log, team, n)| ==>
              Keeps(Involves(team), NewestRows(log, team, n)[i])
  {
    var rows := Select(log, Involves(team));
    var sorted := SortDesc(rows, DateKey);
    var chosen := NewestRows(log, team, n);
    forall i | 0 <= i < |chosen|
      ensures Keeps(Involves(team), chosen[i])
    {
      assert chosen[i] == sorted[i];
      assert sorted[i] in multiset(sorted);
      assert sorted[i] in rows;
    }
  }

  /** The newest rows come newest first. */
  lemma NewestRowsByDate(log: seq<Match>, team: string, n: int)
    ensures forall i, j :: 0 <= i < j < |NewestRows(log, team, n)| ==>
              NewestRows(log, team, n)[j].date <= NewestRows(log, team, n)[i].date
  {
    var sorted := SortDesc(Select(log, Involves(team)), DateKey);
    var chosen := NewestRows(log, team, n);
    forall i, j | 0 <= i < j < |chosen|
      ensures chosen[j].date <= chosen[i].date
    {
      assert chosen[i] == sorted[i] && chosen[j] == sorted[j];
      assert DateKey(sorted[j]) <= DateKey(sorted[i]);
    }
  }

  /** `get_last_games(team, n)` on a cache miss; `hasDate` says whether the log has a
      DATE column. */
  function LastGames(log: seq<Match>, hasDate: bool, team: string, n: int): (r: seq<GameLine>)
    ensures !hasDate ==> r == []
    ensures n >= 0 ==> |r| <= n
    ensures hasDate && n >= 0 ==>
              |r| == if n < Count(log, Involves(team)) then n else Count(log, Involves(team))
    ensures hasDate && n < 0 ==>
              |r| == if Count(log, Involves(team)) + n > 0 then Count(log, Involves(team)) + n else 0
    ensures forall i :: 0 <= i < |r| ==>
              && (r[i].home == team || r[i].away == team)
              && (r[i].isHome <==> r[i].home == team)
    ensures forall i, j :: 0 <= i < j < |r| ==> r[j].date <= r[i].date
  {
    if !hasDate then []
    else if |Select(log, Involves(team))| == 0 then []
    else
      NewestLines(log, team, n);
      GameLines(NewestRows(log, team, n), team)
  }

  /** The lines of the newest rows: as many as `head(n)` keeps, each a game of the team
      seen from its side, newest first. */
  lemma NewestLines(log: seq<Match>, team: string, n: int)
    ensures var r := GameLines(NewestRows(log, team, n), team);
      var total := Count(log, Involves(team));
      && (n >= 0 ==> |r| == if n < total then n else total)
      && (n < 0 ==> |r| == if total + n > 0 then total + n else 0)
      && (forall i :: 0 <= i < |r| ==>
            && (r[i].home == team || r[i].away == team)
            && (r[i].isHome <==> r[i].home == team))
      && forall i, j :: 0 <= i < j < |r| ==> r[j].date <= r[i].date
  {
    NewestRowsInvolve(log, team, n);
    NewestRowsByDate(log, team, n);
    NewestRowsCount(log, team, n);
  }

  /** With a DATE column, the last games are the lines of rows taken from the team's
      rows of the whole log, and no row of the team newer than a listed game is left
      out. */
  lemma LastGamesAreNewest(log: seq<Match>, team: string, n: int)
    ensures var r := LastGames(log, true, team, n);
      var chosen := NewestRows(log, team, n);
      && r == GameLines(chosen, team)
      && multiset(chosen) <= multiset(Select(log, Involves(team)))
      && forall m, i :: m in log && (m.home == team || m.away == team) && 0 <= i < |r| && r[i].date < m.date
                        ==> GameLineOf(m, team) in r
  {
    var rows := Select(log, Involves(team));
    var chosen := NewestRows(log, team, n);
    NewestRowsCount(log, team, n);
    NewestRowsAreNewest(log, team, n);
    if |rows| == 0 {
      assert chosen == [];
    }
    LinesHoldNewer(log, rows, chosen, team, LastGames(log, true, team, n));
  }

  /** The lines of a prefix that holds every newer row of the team hold the line of
      every newer game of the team. */
  lemma LinesHoldNewer(log: seq<Match>, rows: seq<Match>, chosen: seq<Match>, team: string, r: seq<GameLine>)
    requires forall m :: m in log && (m.home == team || m.away == team) ==> m in rows
    requires r == GameLines(chosen, team)
    requires forall m, c :: m in rows && c in chosen && c.date < m.date ==> m in chosen
    ensures forall m, i :: m in log && (m.home == team || m.away == team) && 0 <= i < |r| && r[i].date < m.date
                           ==> GameLineOf(m, team) in r
  {
    forall m, i | m in log && (m.home == team || m.away == team) && 0 <= i < |r| && r[i].date < m.date
      ensures GameLineOf(m, team) in r
    {
      assert chosen[i] in chosen && chosen[i].date == r[i].date;
      assert m in chosen;
      var j :| 0 <= j < |chosen| && chosen[j] == m;
      assert r[j] == GameLineOf(m, team);
    }
  }

  /** The listed rows are taken from the team's rows, as many as `head(n)` allows. */
  lemma NewestRowsCount(log: seq<Match>, team: string, n: int)
    ensures var rows := Select(log, Involves(team));
      var chosen := NewestRows(log, team, n);
      && multiset(chosen) <= multiset(rows)
      && (n >= 0 ==> |chosen| == if n < |rows| then n else |rows|)
      && (n < 0 ==> |chosen| == if |rows| + n > 0 then |rows| + n else 0)
  {
    var rows := Select(log, Involves(team));
    var sorted := SortDesc(rows, DateKey);
    var chosen := NewestRows(log, team, n);
    assert sorted == chosen + sorted[|chosen|..];
    assert multiset(sorted) == multiset(chosen) + multiset(sorted[|chosen|..]);
  }

  /** The listed rows are the newest: a row of the team newer than some listed row is
      itself listed. */
  lemma NewestRowsAreNewest(log: seq<Match>, team: string, n: int)
    ensures var chosen := NewestRows(log, team, n);
      forall m, c :: m in Select(log, Involves(team)) && c in chosen && c.date < m.date ==> m in chosen
  {
    var rows := Select(log, Involves(team));
    var sorted := SortDesc(rows, DateKey);
    PrefixHoldsNewer(rows, sorted, NewestRows(log, team, n));
  }

  /** A prefix of a newest-first ordering of `rows` holds every row newer than one of its own. */
  lemma PrefixHoldsNewer(rows: seq<Match>, sorted: seq<Match>, chosen: seq<Match>)
    requires multiset(sorted) == multiset(rows) && NonIncreasing(sorted, DateKey)
    requires |chosen| <= |sorted| && chosen == sorted[..|chosen|]
    ensures forall m, c :: m in rows && c in chosen && c.date < m.date ==> m in chosen
  {
    forall m: Match, c: Match | m in rows && c in chosen && c.date < m.date
      ensures m in chosen
    {
      assert m in multiset(sorted);
      var j :| 0 <= j < |sorted| && sorted[j] == m;
      var i :| 0 <= i < |chosen| && chosen[i] == c;
      assert sorted[i] == c;
      NewerThanPrefix(sorted, |chosen|, i, j);
      assert chosen[j] == m;
    }
  }

  /** In a list sorted newest first, a row newer than one of the first `k` rows is
      itself among the first `k`. */
  lemma NewerThanPrefix(sorted: seq<Match>, k: nat, i: int, j: int)
    requires k <= |sorted| && NonIncreasing(sorted, DateKey)
    requires 0 <= i < k && 0 <= j < |sorted| && sorted[i].date < sorted[j].date
    ensures j < k
  {
    assert i < j ==> DateKey(sorted[j]) <= DateKey(sorted[i]);
  }

  /** `sum(1 for game in games if game['winner'] == team)`. */
  function WinsIn(lines: seq<GameLine>, team: string): (w: nat)
    ensures w <= |lines|
  {
    if |lines| == 0 then 0
    else (if lines[0].winner == team then 1 else 0) + WinsIn(lines[1..], team)
  }

  datatype Form = Form(team: string, games: nat, wins: nat, losses: int, lastGames: seq<GameLine>)

  /** The form dict built from a last-games list; `{}` when the list is empty. */
  function FormOf(team: string, lines: seq<GameLine>): (r: Option<Form>)
    ensures r.None? <==> |lines| == 0
    ensures r.Some? ==> && r.value.team == team
                        && r.value.lastGames == lines
                        && r.value.games == |lines|
                        && r.value.wins == WinsIn(lines, team)
                        && r.value.wins <= r.value.games
                        && r.value.wins + r.value.losses == r.value.games
  {
    if |lines| == 0 then None
    else
      var wins := WinsIn(lines, team);
      Some(Form(team, |lines|, wins, |lines| - wins, lines))
  }

  /** `get_form_stats(team, n)` on a cache miss (the last games themselves may come
      from the cache; see `Engine`). */
  function FormStats(log: seq<Match>, hasDate: bool, team: string, n: int): (r: Option<Form>)
    ensures !hasDate ==> r.None?
    ensures hasDate && n >= 0 ==> (r.None? <==> n == 0 || Count(log, Involves(team)) == 0)
    ensures hasDate && n < 0 ==> (r.None? <==> Count(log, Involves(team)) + n <= 0)
    ensures r.Some? ==> r.value.team == team && r.value.wins + r.value.losses == r.value.games
  {
    FormOf(team, LastGames(log, hasDate, team, n))
  }

  /** The form's wins are the listed rows the team won. */
  lemma {:induction false} FormWinsAreRowWins(rows: seq<Match>, team: string)
    ensures WinsIn(GameLines(rows, team), team) == Count(rows, WonBy(team))
    decreases |rows|
  {
    if |rows| > 0 {
      FormWinsAreRowWins(rows[1..], team);
      assert GameLines(rows, team)[1..] == GameLines(rows[1..], team);
    }
  }

  /** With a DATE column, the form counts the newest rows of the team and the ones it
      won, as positions of that list. */
  lemma FormStatsCountsRows(log: seq<Match>, team: string, n: int)
    ensures var f := FormStats(log, true, team, n);
      var chosen := NewestRows(log, team, n);
      f.Some? ==> && f.value.games == |chosen|
                  && f.value.wins == Count(chosen, WonBy(team))
                  && f.value.wins == |set i | 0 <= i < |chosen| && chosen[i].winner == team|
  {
    LastGamesAreNewest(log, team, n);
    FormOfRows(team, NewestRows(log, team, n));
  }

  /** The form built from the lines of `rows` counts `rows` and the ones the team won. */
  lemma FormOfRows(team: string, rows: seq<Match>)
    ensures var f := FormOf(team, GameLines(rows, team));
      f.Some? ==> && f.value.games == |rows|
                  && f.value.wins == Count(rows, WonBy(team))
                  && f.value.wins == |set i | 0 <= i < |rows| && rows[i].winner == team|
  {
    FormWinsAreRowWins(rows, team);
    CountIsIndexCount(rows, WonBy(team));
    assert IndexSet(rows, WonBy(team)) == set i | 0 <= i < |rows| && rows[i].winner == team;
  }

  // ---------------------------------------------------------------------------
  // A worked example
  // ---------------------------------------------------------------------------

  /** Three games: TeamA beats TeamB 4:2 at home in regulation (2021), TeamB beats
      TeamA 3:2 at home in overtime (2021), TeamA beats TeamC 5:1 at home (2022). */
  function ExampleLog(): seq<Match> {
    [ Match("TeamA", "TeamB", "TeamA", 4, 2, None, 2021, 1),
      Match("TeamB", "TeamA", "TeamB", 3, 2, Some(AOT), 2021, 2),
      Match("TeamA", "TeamC", "TeamA", 5, 1, None, 2022, 3) ]
  }

  lemma SeasonSelector2021()
    ensures OptionalSelectorOk(Some("2021")) && ScopeOfOptional(Some("2021")) == SeasonOnly(2021)
  {
    var s := "2021";
    assert s[..3] == "202" && s[..3][..2] == "20" && s[..3][..2][..1] == "2";
    assert NumeralValue("2") == 2 by { assert "2"[..0] == ""; }
    assert NumeralValue("20") == 20;
    assert NumeralValue("202") == 202;
  }

  /** TeamA's 2021 record: two games, one win, 6 scored, 5 conceded, 3 + 1 points. */
  lemma ExampleTeamRecord()
    ensures OptionalSelectorOk(Some("2021"))
    ensures TeamStats(ExampleLog(), "TeamA", Some("2021"))
            == Some(TeamRecord("TeamA", 2, 1, 1, 6, 5, 1, 4))
  {
    SeasonSelector2021();
    var slice := ExampleSlice2021();
    var a := slice[0];
    var b := slice[1];
    assert slice[1..] == [b] && [b][1..] == [];
    assert Select(slice, Involves("TeamA")) == slice;
    assert Select(slice, WonBy("TeamA")) == [a];
    assert Total(slice, ScoredBy("TeamA")) == 4 + 2;
    assert Total(slice, ConcededBy("TeamA")) == 2 + 3;
    assert Total(slice, TeamPoints("TeamA")) == 3 + 1;
  }

  /** The 2021 slice of the example is its first two games. */
  lemma ExampleSlice2021() returns (slice: seq<Match>)
    ensures slice == Slice(ExampleLog(), SeasonOnly(2021)) == ExampleLog()[..2]
  {
    var log := ExampleLog();
    assert log[1..] == [log[1], log[2]] && log[1..][1..] == [log[2]] && [log[2]][1..] == [];
    slice := Slice(log, SeasonOnly(2021));
    assert Select([log[2]], InSeason(2021)) == [];
  }

  /** TeamA and TeamB met twice in 2021 and won once each. */
  lemma ExampleHeadToHead()
    ensures OptionalSelectorOk(Some("2021"))
    ensures var h := HeadToHeadStats(ExampleLog(), "TeamA", "TeamB", Some("2021"));
      h.Some? && h.value.totalGames == 2 && h.value.team1Wins == 1 && h.value.team2Wins == 1
  {
    SeasonSelector2021();
    var slice := ExampleSlice2021();
    var a := slice[0];
    var b := slice[1];
    assert slice[1..] == [b] && [b][1..] == [];
    assert Select(slice, Meeting("TeamA", "TeamB")) == slice;
    assert Select(slice, WonBy("TeamA")) == [a];
    assert Select(slice, WonBy("TeamB")) == [b];
  }
}
