/**
 * The four leaderboards (`get_top_winners`, `get_top_points`, `get_top_winrate`,
 * `get_top_goal_scorers`). Each one selects the season slice, returns `[]` for an
 * empty slice, builds one entry per team, sorts the entries by their value in
 * descending order, keeps `head(limit)` of them and numbers them from 1.
 *
 * pandas' `sort_values` and `value_counts` do not promise an order among equal
 * values; the model sorts with `SortDesc`, which is one admissible order, and no
 * contract below says anything about the order of ties.
 */
module Leaders {
  import opened Options
  import opened Text
  import opened Order
  import opened MatchLog
  import opened TeamQueries
  import opened Standings

  /** One team's number on a board: wins, points or goals. */
  datatype Tally = Tally(team: string, value: int)

  /** A row of `top_winrate`; `winrate` is the exact percentage, before `round(1)`. */
  datatype WinrateEntry = WinrateEntry(team: string, wins: nat, losses: nat, total: nat, winrate: real)

  /** A board row `{'place': i, 'team': ..., ...}`. */
  datatype Placed<T> = Placed(place: nat, item: T)

  function TallyKey(t: Tally): real {
    t.value as real
  }

  function RateKey(e: WinrateEntry): real {
    e.winrate
  }

  // ---------------------------------------------------------------------------
  // Ranking: sort descending, head(limit), enumerate from 1
  // ---------------------------------------------------------------------------

  /** `enumerate(s, 1)`. */
  function Numbered<T>(s: seq<T>): (r: seq<Placed<T>>)
    ensures |r| == |s|
    ensures forall i :: 0 <= i < |s| ==> r[i].place == i + 1 && r[i].item == s[i]
  {
    seq(|s|, i requires 0 <= i < |s| => Placed(i + 1, s[i]))
  }

  lemma PrefixItemsFromEntries<T>(entries: seq<T>, sorted: seq<T>, top: seq<T>)
    requires multiset(sorted) == multiset(entries)
    requires |top| <= |sorted| && top == sorted[..|top|]
    ensures forall i :: 0 <= i < |top| ==> top[i] in entries
  {
    forall i | 0 <= i < |top|
      ensures top[i] in entries
    {
      assert top[i] == sorted[i];
      assert sorted[i] in multiset(sorted);
    }
  }

  /** `enumerate(entries.sort_values(key, ascending=False).head(limit), 1)`. */
  function Ranked<T>(entries: seq<T>, key: T -> real, limit: int): (r: seq<Placed<T>>)
    ensures |r| <= |entries|
    ensures limit >= 0 ==> |r| == if limit < |entries| then limit else |entries|
    ensures forall i :: 0 <= i < |r| ==> r[i].place == i + 1 && r[i].item in entries
    ensures forall i, j :: 0 <= i < j < |r| ==> key(r[j].item) <= key(r[i].item)
  {
    var sorted := SortDesc(entries, key);
    var top := Head(sorted, limit);
    PrefixItemsFromEntries(entries, sorted, top);
    Numbered(top)
  }

  /** An entry left off the board ranks no higher than any entry on it. */
  lemma RankedIsTop<T>(entries: seq<T>, key: T -> real, limit: int, e: T)
    requires e in entries
    requires forall i :: 0 <= i < |Ranked(entries, key, limit)| ==> Ranked(entries, key, limit)[i].item != e
    ensures forall i :: 0 <= i < |Ranked(entries, key, limit)| ==> key(e) <= key(Ranked(entries, key, limit)[i].item)
  {
    var sorted := SortDesc(entries, key);
    var top := Head(sorted, limit);
    var r := Ranked(entries, key, limit);
    assert e in multiset(sorted);
    var j :| 0 <= j < |sorted| && sorted[j] == e;
    forall i | 0 <= i < |r|
      ensures key(e) <= key(r[i].item)
    {
      assert r[i].item == top[i] == sorted[i];
      if j < |top| {
        assert false;
      }
    }
  }

  /** A board of distinct entries lists each entry at most once. */
  lemma RankedDistinct<T>(entries: seq<T>, key: T -> real, limit: int)
    requires Distinct(entries)
    ensures forall i, j :: 0 <= i < j < |Ranked(entries, key, limit)| ==>
      Ranked(entries, key, limit)[i].item != Ranked(entries, key, limit)[j].item
  {
    var sorted := SortDesc(entries, key);
    var top := Head(sorted, limit);
    var r := Ranked(entries, key, limit);
    PermutationKeepsDistinct(entries, sorted);
    forall i, j | 0 <= i < j < |r|
      ensures r[i].item != r[j].item
    {
      assert r[i].item == sorted[i] && r[j].item == sorted[j];
    }
  }

  // ---------------------------------------------------------------------------
  // Team columns
  // ---------------------------------------------------------------------------

  function WinnerColumn(rows: seq<Match>): (r: seq<string>)
    ensures |r| == |rows| && forall i :: 0 <= i < |rows| ==> r[i] == rows[i].winner
  {
    seq(|rows|, i requires 0 <= i < |rows| => rows[i].winner)
  }

  function LoserColumn(rows: seq<Match>): (r: seq<string>)
    ensures |r| == |rows| && forall i :: 0 <= i < |rows| ==> r[i] == Loser(rows[i])
  {
    seq(|rows|, i requires 0 <= i < |rows| => Loser(rows[i]))
  }

  lemma WinnerColumnIffWins(rows: seq<Match>, t: string)
    ensures t in WinnerColumn(rows) <==> Count(rows, WonBy(t)) > 0
  {
    if t in WinnerColumn(rows) {
      var i :| 0 <= i < |rows| && WinnerColumn(rows)[i] == t;
      assert rows[i] in Select(rows, WonBy(t));
    }
    if Count(rows, WonBy(t)) > 0 {
      var m := Select(rows, WonBy(t))[0];
      assert m in rows;
      var i :| 0 <= i < |rows| && rows[i] == m;
      assert WinnerColumn(rows)[i] == t;
    }
  }

  lemma LoserColumnIffLosses(rows: seq<Match>, t: string)
    ensures t in LoserColumn(rows) <==> Count(rows, LostBy(t)) > 0
  {
    if t in LoserColumn(rows) {
      var i :| 0 <= i < |rows| && LoserColumn(rows)[i] == t;
      assert rows[i] in Select(rows, LostBy(t));
    }
    if Count(rows, LostBy(t)) > 0 {
      var m := Select(rows, LostBy(t))[0];
      assert m in rows;
      var i :| 0 <= i < |rows| && rows[i] == m;
      assert LoserColumn(rows)[i] == t;
    }
  }

  /** The index of `value_counts()` on WINNER: every team that won a row, once. */
  function Winners(rows: seq<Match>): (names: seq<string>)
    ensures StrictlyIncreasing(names, LexLess)
    ensures forall t :: t in names <==> Count(rows, WonBy(t)) > 0
  {
    LexLessIsStrictTotal();
    SortedSetSpec(WinnerColumn(rows), LexLess);
    forall t
      ensures t in WinnerColumn(rows) <==> Count(rows, WonBy(t)) > 0
    {
      WinnerColumnIffWins(rows, t);
    }
    SortedSet(WinnerColumn(rows), LexLess)
  }

  /** The union index of the WINNER and LOSER counts. */
  function Decided(rows: seq<Match>): (names: seq<string>)
    ensures StrictlyIncreasing(names, LexLess)
    ensures forall t :: t in names <==> Count(rows, WonBy(t)) > 0 || Count(rows, LostBy(t)) > 0
  {
    LexLessIsStrictTotal();
    SortedSetSpec(WinnerColumn(rows) + LoserColumn(rows), LexLess);
    forall t
      ensures t in WinnerColumn(rows) + LoserColumn(rows)
          <==> Count(rows, WonBy(t)) > 0 || Count(rows, LostBy(t)) > 0
    {
      WinnerColumnIffWins(rows, t);
      LoserColumnIffLosses(rows, t);
    }
    SortedSet(WinnerColumn(rows) + LoserColumn(rows), LexLess)
  }

  /** Entries built one per name of a duplicate-free name list are themselves distinct. */
  lemma NamedDistinct<T>(names: seq<string>, es: seq<T>, team: T -> string)
    requires StrictlyIncreasing(names, LexLess)
    requires |es| == |names|
    requires forall i :: 0 <= i < |names| ==> team(es[i]) == names[i]
    ensures Distinct(es)
  {
    DistinctNames(names);
  }

  // ---------------------------------------------------------------------------
  // top_winners
  // ---------------------------------------------------------------------------

  /** `df['WINNER'].value_counts()`. */
  function WinTallies(rows: seq<Match>): (r: seq<Tally>)
    ensures |r| == |Winners(rows)|
    ensures forall i :: 0 <= i < |r| ==> r[i] == Tally(Winners(rows)[i], Count(rows, WonBy(Winners(rows)[i])))
  {
    var names := Winners(rows);
    seq(|names|, i requires 0 <= i < |names| => Tally(names[i], Count(rows, WonBy(names[i]))))
  }

  function TopWinners(log: seq<Match>, id: string, limit: int): (r: seq<Placed<Tally>>)
    requires SelectorOk(id)
    ensures var slice := Slice(log, ScopeOf(id));
      forall i :: 0 <= i < |r| ==>
        && r[i].place == i + 1
        && r[i].item.value == Count(slice, WonBy(r[i].item.team)) > 0
    ensures forall i, j :: 0 <= i < j < |r| ==> r[j].item.value <= r[i].item.value
    ensures forall i, j :: 0 <= i < j < |r| ==> r[i].item.team != r[j].item.team
    ensures limit >= 0 ==> |r| <= limit
  {
    var slice := Slice(log, ScopeOf(id));
    if |slice| == 0 then []
    else
      var tallies := WinTallies(slice);
      NamedDistinct(Winners(slice), tallies, (t: Tally) => t.team);
      RankedDistinct(tallies, TallyKey, limit);
      Ranked(tallies, TallyKey, limit)
  }

  /** A team that won in the slice but is not listed has no more wins than any listed team. */
  lemma TopWinnersIsTop(log: seq<Match>, id: string, limit: int, team: string)
    requires SelectorOk(id)
    requires Count(Slice(log, ScopeOf(id)), WonBy(team)) > 0
    requires forall i :: 0 <= i < |TopWinners(log, id, limit)| ==> TopWinners(log, id, limit)[i].item.team != team
    ensures forall i :: 0 <= i < |TopWinners(log, id, limit)| ==>
      Count(Slice(log, ScopeOf(id)), WonBy(team)) <= TopWinners(log, id, limit)[i].item.value
  {
    var slice := Slice(log, ScopeOf(id));
    var tallies := WinTallies(slice);
    var names := Winners(slice);
    assert team in names;
    var k :| 0 <= k < |names| && names[k] == team;
    var e := tallies[k];
    assert e == Tally(team, Count(slice, WonBy(team)));
    var r := Ranked(tallies, TallyKey, limit);
    assert TopWinners(log, id, limit) == r;
    RankedIsTop(tallies, TallyKey, limit, e);
    forall i | 0 <= i < |r|
      ensures e.value <= r[i].item.value
    {
      assert TallyKey(e) <= TallyKey(r[i].item);
    }
  }

  /** A board with a limit `n >= 0` has `min(n, number of winners)` rows. */
  lemma TopWinnersLength(log: seq<Match>, id: string, limit: int)
    requires SelectorOk(id)
    requires limit >= 0
    ensures |TopWinners(log, id, limit)|
         == if limit < |Winners(Slice(log, ScopeOf(id)))| then limit else |Winners(Slice(log, ScopeOf(id)))|
  {
    var slice := Slice(log, ScopeOf(id));
    if |slice| == 0 {
      assert |Winners(slice)| == 0;
    }
  }

  // ---------------------------------------------------------------------------
  // top_points
  // ---------------------------------------------------------------------------

  /** HOMEPOINTS summed over the team's home rows plus AWAYPOINTS over its away rows. */
  function TablePoints(rows: seq<Match>, team: string): nat {
    Total(Select(rows, AtHome(team)), HomeTablePoints) + Total(Select(rows, AwayOf(team)), AwayTablePoints)
  }

  function PointTallies(rows: seq<Match>): (r: seq<Tally>)
    ensures |r| == |TeamNames(rows)|
    ensures forall i :: 0 <= i < |r| ==> r[i] == Tally(TeamNames(rows)[i], TablePoints(rows, TeamNames(rows)[i]))
  {
    var names := TeamNames(rows);
    seq(|names|, i requires 0 <= i < |names| => Tally(names[i], TablePoints(rows, names[i])))
  }

  function TopPoints(log: seq<Match>, id: string, limit: int): (r: seq<Placed<Tally>>)
    requires SelectorOk(id)
    ensures var slice := Slice(log, ScopeOf(id));
      forall i :: 0 <= i < |r| ==>
        && r[i].place == i + 1
        && Plays(slice, r[i].item.team)
        && r[i].item.value == TablePoints(slice, r[i].item.team)
    ensures forall i, j :: 0 <= i < j < |r| ==> r[j].item.value <= r[i].item.value
    ensures forall i, j :: 0 <= i < j < |r| ==> r[i].item.team != r[j].item.team
    ensures limit >= 0 ==> |r| <= limit
  {
    var slice := Slice(log, ScopeOf(id));
    if |slice| == 0 then []
    else
      var tallies := PointTallies(slice);
      NamedDistinct(TeamNames(slice), tallies, (t: Tally) => t.team);
      RankedDistinct(tallies, TallyKey, limit);
      Ranked(tallies, TallyKey, limit)
  }

  /** A team that played in the slice but is not listed has no more points than any listed team. */
  lemma TopPointsIsTop(log: seq<Match>, id: string, limit: int, team: string)
    requires SelectorOk(id)
    requires Plays(Slice(log, ScopeOf(id)), team)
    requires forall i :: 0 <= i < |TopPoints(log, id, limit)| ==> TopPoints(log, id, limit)[i].item.team != team
    ensures forall i :: 0 <= i < |TopPoints(log, id, limit)| ==>
      TablePoints(Slice(log, ScopeOf(id)), team) <= TopPoints(log, id, limit)[i].item.value
  {
    var slice := Slice(log, ScopeOf(id));
    var tallies := PointTallies(slice);
    var names := TeamNames(slice);
    PlaysIffSomeRow(slice, team);
    assert team in names;
    var k :| 0 <= k < |names| && names[k] == team;
    var e := tallies[k];
    var r := Ranked(tallies, TallyKey, limit);
    assert TopPoints(log, id, limit) == r;
    RankedIsTop(tallies, TallyKey, limit, e);
    forall i | 0 <= i < |r|
      ensures e.value <= r[i].item.value
    {
      assert TallyKey(e) <= TallyKey(r[i].item);
    }
  }

  /** Every team on the points board has the points the season table gives it. */
  lemma TopPointsMatchTable(log: seq<Match>, id: string, limit: int, i: int)
    requires SelectorOk(id)
    requires 0 <= i < |TopPoints(log, id, limit)|
    ensures var row := TopPoints(log, id, limit)[i];
      var table := SeasonTable(log, id);
      exists j :: 0 <= j < |table| && table[j].team == row.item.team && table[j].points == row.item.value
  {
    var slice := Slice(log, ScopeOf(id));
    var row := TopPoints(log, id, limit)[i];
    var table := SeasonTable(log, id);
    SeasonTableTeams(log, id);
    SeasonTableRows(log, id);
    var j :| 0 <= j < |table| && table[j].team == row.item.team;
    assert table[j] == TableLine(slice, table[j].team, table[j].place);
    TableLinePoints(slice, table[j].team, table[j].place);
  }

  lemma TableLinePoints(rows: seq<Match>, team: string, place: nat)
    ensures TableLine(rows, team, place).points == TablePoints(rows, team)
  {
  }

  // ---------------------------------------------------------------------------
  // top_winrate
  // ---------------------------------------------------------------------------

  /** `WINS / TOTAL * 100` as an exact quotient; a team on the board always has games. */
  function RateOf(wins: nat, total: nat): real {
    if total == 0 then 0.0 else 100.0 * (wins as real) / (total as real)
  }

  function WinrateEntryOf(rows: seq<Match>, team: string): WinrateEntry {
    var wins := Count(rows, WonBy(team));
    var losses := Count(rows, LostBy(team));
    WinrateEntry(team, wins, losses, wins + losses, RateOf(wins, wins + losses))
  }

  /** `DataFrame({'WINS': ..., 'LOSSES': ...}).fillna(0)` with its TOTAL column. */
  function WinrateEntries(rows: seq<Match>): (r: seq<WinrateEntry>)
    ensures |r| == |Decided(rows)|
    ensures forall i :: 0 <= i < |r| ==> r[i] == WinrateEntryOf(rows, Decided(rows)[i])
  {
    var names := Decided(rows);
    seq(|names|, i requires 0 <= i < |names| => WinrateEntryOf(rows, names[i]))
  }

  /** `winrate_df[winrate_df['TOTAL'] >= min_games]`. */
  function AtLeastGames(es: seq<WinrateEntry>, minGames: int): (r: seq<WinrateEntry>)
    ensures forall e :: e in r <==> e in es && e.total >= minGames
  {
    if |es| == 0 then []
    else (if es[0].total >= minGames then [es[0]] else []) + AtLeastGames(es[1..], minGames)
  }

  lemma {:induction false} AtLeastGamesDistinct(es: seq<WinrateEntry>, minGames: int)
    requires Distinct(es)
    ensures Distinct(AtLeastGames(es, minGames))
    decreases |es|
  {
    if |es| > 0 {
      AtLeastGamesDistinct(es[1..], minGames);
      var rest := AtLeastGames(es[1..], minGames);
      assert es[0] !in es[1..];
      assert es[0] !in rest;
    }
  }

  function TopWinrate(log: seq<Match>, id: string, minGames: int, limit: int): (r: seq<Placed<WinrateEntry>>)
    requires SelectorOk(id)
    ensures var slice := Slice(log, ScopeOf(id));
      forall i :: 0 <= i < |r| ==>
        && r[i].place == i + 1
        && r[i].item == WinrateEntryOf(slice, r[i].item.team)
        && r[i].item.total >= minGames
    ensures forall i, j :: 0 <= i < j < |r| ==> r[j].item.winrate <= r[i].item.winrate
    ensures forall i, j :: 0 <= i < j < |r| ==> r[i].item.team != r[j].item.team
    ensures limit >= 0 ==> |r| <= limit
  {
    var slice := Slice(log, ScopeOf(id));
    if |slice| == 0 then []
    else
      var entries := WinrateEntries(slice);
      NamedDistinct(Decided(slice), entries, (e: WinrateEntry) => e.team);
      AtLeastGamesDistinct(entries, minGames);
      var kept := AtLeastGames(entries, minGames);
      RankedDistinct(kept, RateKey, limit);
      Ranked(kept, RateKey, limit)
  }

  /** Every winrate row counts its games: a team on the board won or lost at least once,
      `wins + losses == total`, and the rate is the percentage of wins (see `RateBounds`). */
  lemma WinrateRowFacts(log: seq<Match>, id: string, minGames: int, limit: int, i: int)
    requires SelectorOk(id)
    requires 0 <= i < |TopWinrate(log, id, minGames, limit)|
    ensures var e := TopWinrate(log, id, minGames, limit)[i].item;
      && e.total > 0
      && e.wins + e.losses == e.total
      && e.winrate == RateOf(e.wins, e.total)
      && 0.0 <= e.winrate <= 100.0
  {
    var slice := Slice(log, ScopeOf(id));
    var e := TopWinrate(log, id, minGames, limit)[i].item;
    assert slice != [];
    var kept := AtLeastGames(WinrateEntries(slice), minGames);
    assert TopWinrate(log, id, minGames, limit) == Ranked(kept, RateKey, limit);
    EntriesHaveGames(slice);
    assert e in kept;
    assert e.total > 0 && e == WinrateEntryOf(slice, e.team);
    assert e.winrate == RateOf(e.wins, e.total);
    RateBounds(e.wins, e.total);
  }

  lemma EntriesHaveGames(rows: seq<Match>)
    ensures forall e :: e in WinrateEntries(rows) ==> e.total > 0 && e == WinrateEntryOf(rows, e.team)
  {
    var names := Decided(rows);
    var es := WinrateEntries(rows);
    forall e | e in es
      ensures e.total > 0 && e == WinrateEntryOf(rows, e.team)
    {
      var k :| 0 <= k < |es| && es[k] == e;
      assert names[k] in names;
    }
  }

  /** The rate is the share of wins in per cent: rate times games is 100 times wins. */
  lemma RateBounds(wins: nat, total: nat)
    requires 0 < total && wins <= total
    ensures RateOf(wins, total) * (total as real) == 100.0 * (wins as real)
    ensures 0.0 <= RateOf(wins, total) <= 100.0
  {
    var t := total as real;
    var w := wins as real;
    assert RateOf(wins, total) == 100.0 * w / t;
    assert 100.0 * w <= 100.0 * t;
  }

  /** A team with at least `minGames` decided games that is not listed has a winrate no
      higher than any listed team. */
  lemma TopWinrateIsTop(log: seq<Match>, id: string, minGames: int, limit: int, team: string)
    requires SelectorOk(id)
    requires var e := WinrateEntryOf(Slice(log, ScopeOf(id)), team); e.total > 0 && e.total >= minGames
    requires forall i :: 0 <= i < |TopWinrate(log, id, minGames, limit)| ==>
      TopWinrate(log, id, minGames, limit)[i].item.team != team
    ensures forall i :: 0 <= i < |TopWinrate(log, id, minGames, limit)| ==>
      WinrateEntryOf(Slice(log, ScopeOf(id)), team).winrate <= TopWinrate(log, id, minGames, limit)[i].item.winrate
  {
    var slice := Slice(log, ScopeOf(id));
    var e := WinrateEntryOf(slice, team);
    var entries := WinrateEntries(slice);
    var names := Decided(slice);
    assert team in names;
    var k :| 0 <= k < |names| && names[k] == team;
    assert entries[k] == e;
    var kept := AtLeastGames(entries, minGames);
    assert e in kept;
    assert slice != [];
    var r := Ranked(kept, RateKey, limit);
    assert TopWinrate(log, id, minGames, limit) == r;
    RankedIsTop(kept, RateKey, limit, e);
  }

  /** When every row has two different teams and one of them won, a team's wins plus
      losses are exactly the games it played. */
  lemma {:induction false} DecidedIsPlayed(rows: seq<Match>, team: string)
    requires forall m :: m in rows ==> Sound(m)
    ensures Count(rows, WonBy(team)) + Count(rows, LostBy(team)) == Count(rows, Involves(team))
    decreases |rows|
  {
    if |rows| > 0 {
      assert rows[0] in rows;
      DecidedIsPlayed(rows[1..], team);
    }
  }

  // ---------------------------------------------------------------------------
  // top_goal_scorers
  // ---------------------------------------------------------------------------

  /** HG summed over the team's home rows plus AG over its away rows. */
  function GoalsOf(rows: seq<Match>, team: string): nat {
    Total(Select(rows, AtHome(team)), HomeGoals) + Total(Select(rows, AwayOf(team)), AwayGoals)
  }

  function GoalTallies(rows: seq<Match>): (r: seq<Tally>)
    ensures |r| == |TeamNames(rows)|
    ensures forall i :: 0 <= i < |r| ==> r[i] == Tally(TeamNames(rows)[i], GoalsOf(rows, TeamNames(rows)[i]))
  {
    var names := TeamNames(rows);
    seq(|names|, i requires 0 <= i < |names| => Tally(names[i], GoalsOf(rows, names[i])))
  }

  function TopScorers(log: seq<Match>, id: string, limit: int): (r: seq<Placed<Tally>>)
    requires SelectorOk(id)
    ensures var slice := Slice(log, ScopeOf(id));
      forall i :: 0 <= i < |r| ==>
        && r[i].place == i + 1
        && Plays(slice, r[i].item.team)
        && r[i].item.value == GoalsOf(slice, r[i].item.team)
    ensures forall i, j :: 0 <= i < j < |r| ==> r[j].item.value <= r[i].item.value
    ensures forall i, j :: 0 <= i < j < |r| ==> r[i].item.team != r[j].item.team
    ensures limit >= 0 ==> |r| <= limit
  {
    var slice := Slice(log, ScopeOf(id));
    if |slice| == 0 then []
    else
      var tallies := GoalTallies(slice);
      NamedDistinct(TeamNames(slice), tallies, (t: Tally) => t.team);
      RankedDistinct(tallies, TallyKey, limit);
      Ranked(tallies, TallyKey, limit)
  }

  /** A team that played in the slice but is not listed scored no more than any listed team. */
  lemma TopScorersIsTop(log: seq<Match>, id: string, limit: int, team: string)
    requires SelectorOk(id)
    requires Plays(Slice(log, ScopeOf(id)), team)
    requires forall i :: 0 <= i < |TopScorers(log, id, limit)| ==> TopScorers(log, id, limit)[i].item.team != team
    ensures forall i :: 0 <= i < |TopScorers(log, id, limit)| ==>
      GoalsOf(Slice(log, ScopeOf(id)), team) <= TopScorers(log, id, limit)[i].item.value
  {
    var slice := Slice(log, ScopeOf(id));
    var tallies := GoalTallies(slice);
    var names := TeamNames(slice);
    PlaysIffSomeRow(slice, team);
    assert team in names;
    var k :| 0 <= k < |names| && names[k] == team;
    var e := tallies[k];
    var r := Ranked(tallies, TallyKey, limit);
    assert TopScorers(log, id, limit) == r;
    RankedIsTop(tallies, TallyKey, limit, e);
    forall i | 0 <= i < |r|
      ensures e.value <= r[i].item.value
    {
      assert TallyKey(e) <= TallyKey(r[i].item);
    }
  }

  lemma ScopeOfSelector(id: string)
    requires SelectorOk(id)
    ensures OptionalSelectorOk(Some(id)) && ScopeOfOptional(Some(id)) == ScopeOf(id)
  {
  }

  /** Without self-matches, a team's goals on the scorers board are the `goals_scored` of
      its team record over the same slice. */
  lemma ScorersMatchTeamStats(log: seq<Match>, id: string, team: string)
    requires SelectorOk(id)
    requires NoSelfMatch(Slice(log, ScopeOf(id)))
    requires Plays(Slice(log, ScopeOf(id)), team)
    ensures var r := TeamStats(log, team, Some(id));
      r.Some? && r.value.goalsScored == GoalsOf(Slice(log, ScopeOf(id)), team)
  {
    ScopeOfSelector(id);
    var slice := Slice(log, ScopeOf(id));
    PlaysIffSomeRow(slice, team);
    SplitTotal(slice, team, ScoredBy(team));
    GoalsBySide(slice, team);
  }
}
