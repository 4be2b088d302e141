/**
 * The season table (`get_season_table`). Points follow the standings rule (a home
 * win 3 or 2, a home loss 0 or 1, the away side gets the rest of 3); the home and
 * away aggregates are added per team; each team gets `place` from its position in
 * the alphabetical team list; the list is then sorted by points with a stable sort.
 *
 * Three behaviours are modelled as written and exhibited below: `place` is the
 * alphabetical position, not the rank; `otLosses` counts every game with an ADD
 * code, won or lost; `goalsFor` sums the HG column over away games too.
 */
module Standings {
  import opened Options
  import opened Text
  import opened Order
  import opened MatchLog
  import opened TeamQueries

  datatype StandingsRow = StandingsRow(place: nat, team: string, games: nat, wins: nat,
                                       otLosses: nat, regularLosses: int, goalsFor: nat,
                                       goalsAgainst: nat, goalDiff: int, points: nat)

  /** One team's line before sorting: the home aggregate plus the away aggregate. */
  function TableLine(rows: seq<Match>, team: string, place: nat): (r: StandingsRow)
    ensures r.place == place && r.team == team
    ensures r.wins <= r.games && r.otLosses <= r.games
    ensures r.wins + r.otLosses + r.regularLosses == r.games
    ensures r.goalDiff == r.goalsFor - r.goalsAgainst
    ensures r.points <= 3 * r.games
  {
    var home := Select(rows, AtHome(team));
    var away := Select(rows, AwayOf(team));
    var games := |home| + |away|;
    var wins := Count(home, WonBy(team)) + Count(away, WonBy(team));
    var ot := Count(home, Flagged) + Count(away, Flagged);
    var goalsFor := Total(home, HomeGoals) + Total(away, HomeGoals);
    var goalsAgainst := Total(home, AwayGoals) + Total(away, AwayGoals);
    TotalAtMostThree(home, HomeTablePoints);
    TotalAtMostThree(away, AwayTablePoints);
    var points := Total(home, HomeTablePoints) + Total(away, AwayTablePoints);
    StandingsRow(place, team, games, wins, ot, games - wins - ot, goalsFor, goalsAgainst,
                 goalsFor - goalsAgainst, points)
  }

  /** The lines of `names`, numbered from `first` in list order. */
  function Lines(rows: seq<Match>, names: seq<string>, first: nat): (r: seq<StandingsRow>)
    ensures |r| == |names|
    ensures forall i :: 0 <= i < |r| ==> r[i] == TableLine(rows, names[i], first + i)
  {
    if |names| == 0 then []
    else [TableLine(rows, names[0], first)] + Lines(rows, names[1..], first + 1)
  }

  function PointsKey(r: StandingsRow): real {
    r.points as real
  }

  function Place(r: StandingsRow): int {
    r.place
  }

  function PointsOf(r: StandingsRow): int {
    r.points
  }

  /** `get_season_table(season_id)` on a cache miss. */
  function SeasonTable(log: seq<Match>, id: string): (r: seq<StandingsRow>)
    requires SelectorOk(id)
    ensures var slice := Slice(log, ScopeOf(id));
      && |r| == |TeamNames(slice)|
      && multiset(r) == multiset(Lines(slice, TeamNames(slice), 1))
    ensures forall i, j :: 0 <= i < j < |r| ==> r[j].points <= r[i].points
    ensures forall i, j :: 0 <= i < j < |r| && r[i].points == r[j].points ==> r[i].place < r[j].place
  {
    var slice := Slice(log, ScopeOf(id));
    if |slice| == 0 then
      NoTeamsWithoutRows(slice);
      []
    else
      SortByPoints(Lines(slice, TeamNames(slice), 1))
  }

  lemma NoTeamsWithoutRows(rows: seq<Match>)
    requires |rows| == 0
    ensures TeamNames(rows) == []
  {
    assert Homes(rows) + Aways(rows) == [];
  }

  /** `sorted(lines, key=points, reverse=True)`: points non-increasing, and lines with
      equal points keep their relative order, hence their order of `place`. */
  function SortByPoints(lines: seq<StandingsRow>): (r: seq<StandingsRow>)
    requires forall i, j :: 0 <= i < j < |lines| ==> lines[i].place < lines[j].place
    ensures |r| == |lines| && multiset(r) == multiset(lines)
    ensures forall i, j :: 0 <= i < j < |r| ==> r[j].points <= r[i].points
    ensures forall i, j :: 0 <= i < j < |r| && r[i].points == r[j].points ==> r[i].place < r[j].place
  {
    SortDescStable(lines, PointsKey, Place);
    var r := SortDesc(lines, PointsKey);
    assert forall i, j :: 0 <= i < j < |r| ==> PointsKey(r[j]) <= PointsKey(r[i]);
    assert forall i, j :: 0 <= i < j < |r| && PointsKey(r[i]) == PointsKey(r[j]) ==> Place(r[i]) < Place(r[j]);
    r
  }

  /** Every table row is the line of its team at the team's alphabetical position:
      `place - 1` indexes the sorted team list, whatever the row's rank. */
  lemma SeasonTableRows(log: seq<Match>, id: string)
    requires SelectorOk(id)
    ensures var slice := Slice(log, ScopeOf(id));
      var names := TeamNames(slice);
      RowsAtPlaces(slice, names, SeasonTable(log, id))
  {
    var slice := Slice(log, ScopeOf(id));
    var names := TeamNames(slice);
    var r := SeasonTable(log, id);
    ReorderedLines(slice, names, Lines(slice, names, 1), r);
  }

  /** Each row is the line of the name at its `place`, counted from 1. */
  predicate RowsAtPlaces(rows: seq<Match>, names: seq<string>, r: seq<StandingsRow>) {
    forall i :: 0 <= i < |r| ==>
      && 1 <= r[i].place <= |names|
      && names[r[i].place - 1] == r[i].team
      && r[i] == TableLine(rows, r[i].team, r[i].place)
  }

  /** A reordering of the lines of `names` holds, at every position, the line of the
      name at its `place`. */
  lemma ReorderedLines(rows: seq<Match>, names: seq<string>, lines: seq<StandingsRow>, r: seq<StandingsRow>)
    requires multiset(r) == multiset(lines)
    requires |lines| == |names|
    requires forall j :: 0 <= j < |lines| ==> lines[j].place == 1 + j && lines[j].team == names[j]
    requires forall j :: 0 <= j < |lines| ==> lines[j] == TableLine(rows, names[j], 1 + j)
    ensures RowsAtPlaces(rows, names, r)
  {
    forall i | 0 <= i < |r|
      ensures 1 <= r[i].place <= |names| && names[r[i].place - 1] == r[i].team
      ensures r[i] == TableLine(rows, r[i].team, r[i].place)
    {
      assert r[i] in multiset(lines);
      var j :| 0 <= j < |lines| && lines[j] == r[i];
    }
  }

  /** The table lists exactly the teams that play in the slice, each once. */
  lemma SeasonTableTeams(log: seq<Match>, id: string)
    requires SelectorOk(id)
    ensures var slice := Slice(log, ScopeOf(id));
      var r := SeasonTable(log, id);
      && (forall t :: Plays(slice, t) ==> exists i :: 0 <= i < |r| && r[i].team == t)
      && (forall i :: 0 <= i < |r| ==> Plays(slice, r[i].team))
      && (forall i, j :: 0 <= i < j < |r| ==> r[i].team != r[j].team)
  {
    SeasonTableRows(log, id);
    TableTeams(Slice(log, ScopeOf(id)), SeasonTable(log, id));
  }

  /** Any reordering of the lines of a slice's teams, read at their places, lists
      each team of the slice exactly once. */
  lemma TableTeams(slice: seq<Match>, r: seq<StandingsRow>)
    requires RowsAtPlaces(slice, TeamNames(slice), r)
    requires multiset(r) == multiset(Lines(slice, TeamNames(slice), 1))
    ensures && (forall t :: Plays(slice, t) ==> exists i :: 0 <= i < |r| && r[i].team == t)
            && (forall i :: 0 <= i < |r| ==> Plays(slice, r[i].team))
            && (forall i, j :: 0 <= i < j < |r| ==> r[i].team != r[j].team)
  {
    var names := TeamNames(slice);
    var lines := Lines(slice, names, 1);
    TableListsEveryName(lines, r, names);
    forall i | 0 <= i < |r|
      ensures Plays(slice, r[i].team)
    {
      assert names[r[i].place - 1] in names;
    }
    DistinctNames(names);
    assert Distinct(lines);
    PermutationKeepsDistinct(lines, r);
    RowsOfDistinctTeams(slice, names, r);
  }

  lemma RowsOfDistinctTeams(rows: seq<Match>, names: seq<string>, r: seq<StandingsRow>)
    requires Distinct(r)
    requires forall i, j :: 0 <= i < j < |names| ==> names[i] != names[j]
    requires RowsAtPlaces(rows, names, r)
    ensures forall i, j :: 0 <= i < j < |r| ==> r[i].team != r[j].team
  {
  }

  lemma TableListsEveryName(lines: seq<StandingsRow>, r: seq<StandingsRow>, names: seq<string>)
    requires multiset(r) == multiset(lines)
    requires |lines| == |names| && forall i :: 0 <= i < |lines| ==> lines[i].team == names[i]
    ensures forall t :: t in names ==> exists i :: 0 <= i < |r| && r[i].team == t
  {
    forall t | t in names
      ensures exists i :: 0 <= i < |r| && r[i].team == t
    {
      var j :| 0 <= j < |names| && names[j] == t;
      assert lines[j] in multiset(r);
      var i :| 0 <= i < |r| && r[i] == lines[j];
      assert r[i].team == t;
    }
  }

  /** Among rows with equal points, the alphabetically earlier team comes first. */
  lemma SeasonTableTiesAlphabetical(log: seq<Match>, id: string)
    requires SelectorOk(id)
    ensures var r := SeasonTable(log, id);
      forall i, j :: 0 <= i < j < |r| && r[i].points == r[j].points ==> LexLess(r[i].team, r[j].team)
  {
    var slice := Slice(log, ScopeOf(id));
    var names := TeamNames(slice);
    var r := SeasonTable(log, id);
    SeasonTableRows(log, id);
    forall i, j | 0 <= i < j < |r| && r[i].points == r[j].points
      ensures LexLess(r[i].team, r[j].team)
    {
      var a := r[i].place - 1;
      var b := r[j].place - 1;
      assert 0 <= a < b < |names|;
      assert LexLess(names[a], names[b]);
    }
  }

  // ---------------------------------------------------------------------------
  // Points total
  // ---------------------------------------------------------------------------

  /** The rows of `t` on one side: home when `home`, away otherwise. */
  function Side(home: bool, t: string): RowFilter {
    if home then AtHome(t) else AwayOf(t)
  }

  /** The per-team aggregates of column `k` on one side, added over `names`. */
  function SideSum(rows: seq<Match>, names: seq<string>, home: bool, k: Measure): nat {
    if |names| == 0 then 0
    else Total(Select(rows, Side(home, names[0])), k) + SideSum(rows, names[1..], home, k)
  }

  /** Adding the per-team home aggregates of distinct teams gives the column total over
      their home rows. */
  lemma {:induction false} HomeSumIsColumn(rows: seq<Match>, names: seq<string>, k: Measure)
    requires forall i, j :: 0 <= i < j < |names| ==> names[i] != names[j]
    ensures SideSum(rows, names, true, k) == Total(Select(rows, HomeIn(names)), k)
    decreases |names|
  {
    if |names| == 0 {
      SelectNone(rows, HomeIn(names));
    } else {
      HomeSumIsColumn(rows, names[1..], k);
      assert names == [names[0]] + names[1..];
      assert names[0] !in names[1..];
      HomeInSplit(rows, names[0], names[1..], k);
    }
  }

  lemma HomeInSplit(rows: seq<Match>, t: string, rest: seq<string>, k: Measure)
    requires t !in rest
    ensures Total(Select(rows, HomeIn([t] + rest)), k)
         == Total(Select(rows, AtHome(t)), k) + Total(Select(rows, HomeIn(rest)), k)
  {
    forall i | 0 <= i < |rows|
      ensures SplitRow(rows[i], AtHome(t), HomeIn(rest), HomeIn([t] + rest))
    {
    }
    TotalSplit(rows, AtHome(t), HomeIn(rest), HomeIn([t] + rest), k);
  }

  /** The same for away rows. */
  lemma {:induction false} AwaySumIsColumn(rows: seq<Match>, names: seq<string>, k: Measure)
    requires forall i, j :: 0 <= i < j < |names| ==> names[i] != names[j]
    ensures SideSum(rows, names, false, k) == Total(Select(rows, AwayIn(names)), k)
    decreases |names|
  {
    if |names| == 0 {
      SelectNone(rows, AwayIn(names));
    } else {
      AwaySumIsColumn(rows, names[1..], k);
      assert names == [names[0]] + names[1..];
      assert names[0] !in names[1..];
      AwayInSplit(rows, names[0], names[1..], k);
    }
  }

  lemma AwayInSplit(rows: seq<Match>, t: string, rest: seq<string>, k: Measure)
    requires t !in rest
    ensures Total(Select(rows, AwayIn([t] + rest)), k)
         == Total(Select(rows, AwayOf(t)), k) + Total(Select(rows, AwayIn(rest)), k)
  {
    forall i | 0 <= i < |rows|
      ensures SplitRow(rows[i], AwayOf(t), AwayIn(rest), AwayIn([t] + rest))
    {
    }
    TotalSplit(rows, AwayOf(t), AwayIn(rest), AwayIn([t] + rest), k);
  }

  lemma {:induction false} LinesPoints(rows: seq<Match>, names: seq<string>, first: nat)
    ensures SumBy(Lines(rows, names, first), PointsOf)
         == SideSum(rows, names, true, HomeTablePoints) + SideSum(rows, names, false, AwayTablePoints)
    decreases |names|
  {
    if |names| > 0 {
      LinesPoints(rows, names[1..], first + 1);
      assert Lines(rows, names, first)[1..] == Lines(rows, names[1..], first + 1);
    }
  }

  /** Every home and away team of the rows is among the team names. */
  lemma EveryRowNamed(rows: seq<Match>)
    ensures forall m :: m in rows ==> m.home in TeamNames(rows) && m.away in TeamNames(rows)
  {
    forall m | m in rows
      ensures m.home in TeamNames(rows) && m.away in TeamNames(rows)
    {
      var i :| 0 <= i < |rows| && rows[i] == m;
      assert Homes(rows)[i] == m.home && Aways(rows)[i] == m.away;
    }
  }

  /** Over distinct names covering every home team, the per-team home aggregates add
      up to the column total. */
  lemma HomeSumIsTotal(rows: seq<Match>, names: seq<string>, k: Measure)
    requires forall i, j :: 0 <= i < j < |names| ==> names[i] != names[j]
    requires forall m :: m in rows ==> m.home in names
    ensures SideSum(rows, names, true, k) == Total(rows, k)
  {
    HomeSumIsColumn(rows, names, k);
    HomeInAll(rows, names);
  }

  lemma HomeInAll(rows: seq<Match>, names: seq<string>)
    requires forall m :: m in rows ==> m.home in names
    ensures Select(rows, HomeIn(names)) == rows
  {
    SelectAll(rows, HomeIn(names));
  }

  /** The same for away teams. */
  lemma AwaySumIsTotal(rows: seq<Match>, names: seq<string>, k: Measure)
    requires forall i, j :: 0 <= i < j < |names| ==> names[i] != names[j]
    requires forall m :: m in rows ==> m.away in names
    ensures SideSum(rows, names, false, k) == Total(rows, k)
  {
    AwaySumIsColumn(rows, names, k);
    AwayInAll(rows, names);
  }

  lemma AwayInAll(rows: seq<Match>, names: seq<string>)
    requires forall m :: m in rows ==> m.away in names
    ensures Select(rows, AwayIn(names)) == rows
  {
    SelectAll(rows, AwayIn(names));
  }

  /** The unsorted lines' points add up to 3 per row. */
  lemma LinesPointsTotal(rows: seq<Match>)
    ensures SumBy(Lines(rows, TeamNames(rows), 1), PointsOf) == 3 * |rows|
  {
    var names := TeamNames(rows);
    LinesPoints(rows, names, 1);
    DistinctNames(names);
    EveryRowNamed(rows);
    HomeSumIsTotal(rows, names, HomeTablePoints);
    AwaySumIsTotal(rows, names, AwayTablePoints);
    TablePointsPerRow(rows);
  }

  /** The table's points add up to 3 per game of the slice. */
  lemma SeasonTablePointsTotal(log: seq<Match>, id: string)
    requires SelectorOk(id)
    ensures SumBy(SeasonTable(log, id), PointsOf) == 3 * |Slice(log, ScopeOf(id))|
  {
    var slice := Slice(log, ScopeOf(id));
    if |slice| > 0 {
      var lines := Lines(slice, TeamNames(slice), 1);
      assert SeasonTable(log, id) == SortByPoints(lines);
      SumByPermutation(SeasonTable(log, id), lines, PointsOf);
      LinesPointsTotal(slice);
    }
  }

  // ---------------------------------------------------------------------------
  // The table line against the team record
  // ---------------------------------------------------------------------------

  /** Without self-matches, a line's games and wins are those of the team's rows. */
  lemma LineCountsTeamRows(rows: seq<Match>, team: string, place: nat)
    requires NoSelfMatch(rows)
    ensures var line := TableLine(rows, team, place);
      && line.games == |Select(rows, Involves(team))|
      && line.wins == Count(Select(rows, Involves(team)), WonBy(team))
  {
    SplitCount(rows, team, WonBy(team));
  }

  /** On sound home rows with a known decision the record rule gives the home table points. */
  lemma HomePointsByRecordRule(rows: seq<Match>, team: string)
    requires forall m :: m in rows ==> Sound(m) && KnownDecision(m)
    ensures var home := Select(rows, AtHome(team));
      Total(home, TeamPoints(team)) == Total(home, HomeTablePoints)
  {
    var home := Select(rows, AtHome(team));
    forall i | 0 <= i < |home|
      ensures Value(TeamPoints(team), home[i]) == Value(HomeTablePoints, home[i])
    {
      assert home[i] in home;
    }
    TotalSame(home, TeamPoints(team), HomeTablePoints);
  }

  /** On sound away rows with a known decision the record rule gives the away table points. */
  lemma AwayPointsByRecordRule(rows: seq<Match>, team: string)
    requires forall m :: m in rows ==> Sound(m) && KnownDecision(m)
    ensures var away := Select(rows, AwayOf(team));
      Total(away, TeamPoints(team)) == Total(away, AwayTablePoints)
  {
    var away := Select(rows, AwayOf(team));
    forall i | 0 <= i < |away|
      ensures Value(TeamPoints(team), away[i]) == Value(AwayTablePoints, away[i])
    {
      assert away[i] in away;
    }
    TotalSame(away, TeamPoints(team), AwayTablePoints);
  }

  /** When every row is sound with a known decision, a line's points are the team's
      points by the record rule. */
  lemma LinePointsByRecordRule(rows: seq<Match>, team: string, place: nat)
    requires NoSelfMatch(rows)
    requires forall m :: m in rows ==> Sound(m) && KnownDecision(m)
    ensures TableLine(rows, team, place).points == Total(Select(rows, Involves(team)), TeamPoints(team))
  {
    SplitTotal(rows, team, TeamPoints(team));
    HomePointsByRecordRule(rows, team);
    AwayPointsByRecordRule(rows, team);
  }

  /** With no self-matches, a team's table games and wins are its record's; its table
      points are its record points as long as every row is sound with a known decision. */
  lemma TableLineAgreesWithRecord(log: seq<Match>, id: string, team: string, place: nat)
    requires SelectorOk(id)
    requires NoSelfMatch(Slice(log, ScopeOf(id)))
    ensures OptionalSelectorOk(Some(id))
    ensures var line := TableLine(Slice(log, ScopeOf(id)), team, place);
      var rec := OrZero(TeamStats(log, team, Some(id)), team);
      && line.games == rec.games
      && line.wins == rec.wins
      && ((forall m :: m in Slice(log, ScopeOf(id)) ==> Sound(m) && KnownDecision(m)) ==> line.points == rec.points)
  {
    var slice := Slice(log, ScopeOf(id));
    assert ScopeOfOptional(Some(id)) == ScopeOf(id);
    RecordsAreSummaries(log, team, Some(id));
    LineCountsTeamRows(slice, team, place);
    if forall m :: m in slice ==> Sound(m) && KnownDecision(m) {
      LinePointsByRecordRule(slice, team, place);
    }
  }

  // ---------------------------------------------------------------------------
  // The behaviours modelled as written
  // ---------------------------------------------------------------------------

  /** B wins 2:1 at A: the table starts with B, whose `place` is 2, not 1. */
  lemma PlaceIsNotRank()
    ensures var t := SeasonTable([Match("A", "B", "B", 1, 2, None, 809, 1)], "all");
      && |t| == 2
      && t[0].team == "B" && t[0].place == 2 && t[0].points == 3
      && t[1].team == "A" && t[1].place == 1 && t[1].points == 0
  {
    var m := Match("A", "B", "B", 1, 2, None, 809, 1);
    var log := [m];
    ExampleNames(m);
    var a := TableLine(log, "A", 1);
    var b := TableLine(log, "B", 2);
    ExampleLines(m);
    assert Lines(log, ["A", "B"], 1) == [a, b];
    SortTwo(a, b);
  }

  /** Sorting two lines by points puts the one with more points first. */
  lemma SortTwo(a: StandingsRow, b: StandingsRow)
    requires a.points < b.points
    ensures SortDesc([a, b], PointsKey) == [b, a]
  {
    assert [a, b][1..] == [b] && [b][1..] == [];
    assert SortDesc([b], PointsKey) == [b];
  }

  lemma ExampleNames(m: Match)
    requires m.home == "A" && m.away == "B"
    ensures TeamNames([m]) == ["A", "B"]
  {
    assert Homes([m]) == ["A"] && Aways([m]) == ["B"];
    assert ["A"] + ["B"] == ["A", "B"];
    assert ["A", "B"][1..] == ["B"] && ["B"][1..] == [];
    assert SortedSet(["B"], LexLess) == ["B"];
    assert LexLess("A", "B");
  }

  lemma ExampleLines(m: Match)
    requires m == Match("A", "B", "B", 1, 2, None, 809, 1)
    ensures TableLine([m], "A", 1).points == 0 && TableLine([m], "B", 2).points == 3
  {
    SelectSingle(m, AtHome("A"));
    SelectSingle(m, AwayOf("A"));
    SelectSingle(m, AtHome("B"));
    SelectSingle(m, AwayOf("B"));
    TotalSingle(m, HomeTablePoints);
    TotalSingle(m, AwayTablePoints);
  }

  /** A wins in overtime at home: the win also counts as an overtime loss, and the
      regular losses come out as -1. */
  lemma OvertimeWinCountsAsOvertimeLoss()
    ensures var line := TableLine([Match("A", "B", "A", 3, 2, Some(AOT), 809, 1)], "A", 1);
      line.games == 1 && line.wins == 1 && line.otLosses == 1 && line.regularLosses == -1
  {
  }

  /** A beats B 4:2 at home: B's table line credits it with 4 goals for and 2 against ... */
  lemma AwayGoalsForReadsHomeGoals()
    ensures var log := [Match("A", "B", "A", 4, 2, None, 809, 1)];
      && TableLine(log, "B", 2).goalsFor == 4
      && TableLine(log, "B", 2).goalsAgainst == 2
  {
    var m := Match("A", "B", "A", 4, 2, None, 809, 1);
    SelectSingle(m, AtHome("B"));
    SelectSingle(m, AwayOf("B"));
    TotalSingle(m, HomeGoals);
    TotalSingle(m, AwayGoals);
  }

  /** ... while B's team record has 2 scored and 4 conceded. */
  lemma AwayGoalsInRecord()
    ensures var log := [Match("A", "B", "A", 4, 2, None, 809, 1)];
      && TeamStats(log, "B", None).Some?
      && TeamStats(log, "B", None).value.goalsScored == 2
      && TeamStats(log, "B", None).value.goalsConceded == 4
  {
    var m := Match("A", "B", "A", 4, 2, None, 809, 1);
    SelectSingle(m, Involves("B"));
    TotalSingle(m, ScoredBy("B"));
    TotalSingle(m, ConcededBy("B"));
  }

  /** With an ADD code other than AOT or PEN the two point rules part: the record gives
      the home winner 0 and the loser 0, the table 2 and 1. */
  lemma PointRulesDisagree()
    ensures var m := Match("A", "B", "A", 3, 2, Some(Other("SO")), 809, 1);
      && TeamPointsFor(m, "A") == 0 && HomeTablePointsFor(m) == 2
      && TeamPointsFor(m, "B") == 0 && Value(AwayTablePoints, m) == 1
  {
  }
}
