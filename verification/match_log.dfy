/**
 * The match log: one immutable sequence of rows with the columns HOMETEAM, AWAYTEAM,
 * WINNER, HG, AG, ADD, SEASON and DATE, and the row-level vocabulary every query is
 * built from: filters, column sums, the two point rules, season selectors, the score
 * text and the sorted list of team names.
 */
module MatchLog {
  import opened Options
  import opened Text
  import opened Order

  /** The ADD column: `AOT` (overtime), `PEN` (shoot-out) or any other code. */
  datatype Decision = AOT | PEN | Other(code: string)

  /** One row of the log. An absent ADD (`None`) means the game ended in regulation. */
  datatype Match = Match(home: string, away: string, winner: string, hg: nat, ag: nat,
                         add: Option<Decision>, season: int, date: int)

  /** `ADD in ['AOT', 'PEN']`. */
  predicate ExtraTime(m: Match) {
    m.add == Some(AOT) || m.add == Some(PEN)
  }

  /** ADD is absent, AOT or PEN: the decisions both point rules agree on. */
  predicate KnownDecision(m: Match) {
    m.add.None? || ExtraTime(m)
  }

  /** The shape the data is assumed to have but that nothing checks: two distinct
      teams, one of which won. */
  predicate Sound(m: Match) {
    m.home != m.away && (m.winner == m.home || m.winner == m.away)
  }

  predicate NoSelfMatch(rows: seq<Match>) {
    forall m :: m in rows ==> m.home != m.away
  }

  /** The LOSER column: the away team if the home team won, else the home team. */
  function Loser(m: Match): string {
    if m.winner == m.home then m.away else m.home
  }

  // ---------------------------------------------------------------------------
  // Row filters
  // ---------------------------------------------------------------------------

  datatype RowFilter =
    | InSeason(season: int)
    | Involves(team: string)
    | AtHome(team: string)
    | AwayOf(team: string)
    | Meeting(team1: string, team2: string)
    | WonBy(team: string)
    | LostBy(team: string)
    | Flagged
    | HomeIn(teams: seq<string>)
    | AwayIn(teams: seq<string>)
    | Both(first: RowFilter, second: RowFilter)

  predicate Keeps(f: RowFilter, m: Match) {
    match f
    case InSeason(v) => m.season == v
    case Involves(t) => m.home == t || m.away == t
    case AtHome(t) => m.home == t
    case AwayOf(t) => m.away == t
    case Meeting(a, b) => (m.home == a && m.away == b) || (m.home == b && m.away == a)
    case WonBy(t) => m.winner == t
    case LostBy(t) => Loser(m) == t
    case Flagged => m.add.Some?
    case HomeIn(ts) => m.home in ts
    case AwayIn(ts) => m.away in ts
    case Both(f1, f2) => Keeps(f1, m) && Keeps(f2, m)
  }

  /** `df[mask]`: the rows `f` keeps, in log order. */
  function Select(rows: seq<Match>, f: RowFilter): (r: seq<Match>)
    ensures |r| <= |rows|
    ensures forall m :: m in r <==> m in rows && Keeps(f, m)
  {
    if |rows| == 0 then []
    else if Keeps(f, rows[0]) then [rows[0]] + Select(rows[1..], f)
    else Select(rows[1..], f)
  }

  /** `len(df[mask])`. */
  function Count(rows: seq<Match>, f: RowFilter): nat {
    |Select(rows, f)|
  }

  lemma {:induction false} SelectAppend(a: seq<Match>, b: seq<Match>, f: RowFilter)
    ensures Select(a + b, f) == Select(a, f) + Select(b, f)
    decreases |a|
  {
    if |a| > 0 {
      var ab := a + b;
      assert ab[0] == a[0];
      assert ab[1..] == a[1..] + b;
      SelectAppend(a[1..], b, f);
      if Keeps(f, a[0]) {
        calc {
          Select(ab, f);
          [a[0]] + Select(a[1..] + b, f);
          [a[0]] + (Select(a[1..], f) + Select(b, f));
          ([a[0]] + Select(a[1..], f)) + Select(b, f);
        }
      }
    } else {
      assert a + b == b;
    }
  }

  /** Filtering twice is filtering by both conditions. */
  lemma {:induction false} SelectSelect(rows: seq<Match>, f: RowFilter, g: RowFilter)
    ensures Select(Select(rows, f), g) == Select(rows, Both(f, g))
    decreases |rows|
  {
    if |rows| > 0 {
      SelectSelect(rows[1..], f, g);
    }
  }

  lemma {:induction false} SelectSame(rows: seq<Match>, f: RowFilter, g: RowFilter)
    requires forall i :: 0 <= i < |rows| ==> Keeps(f, rows[i]) == Keeps(g, rows[i])
    ensures Select(rows, f) == Select(rows, g)
    decreases |rows|
  {
    if |rows| > 0 {
      SelectSame(rows[1..], f, g);
    }
  }

  lemma SelectSingle(m: Match, f: RowFilter)
    ensures Select([m], f) == if Keeps(f, m) then [m] else []
  {
    assert [m][1..] == [];
  }

  /** A filter every row passes keeps the whole log. */
  lemma SelectAll(rows: seq<Match>, f: RowFilter)
    requires forall m :: m in rows ==> Keeps(f, m)
    ensures Select(rows, f) == rows
  {
    assert forall i :: 0 <= i < |rows| ==> rows[i] in rows;
    SelectPassing(rows, f);
  }

  /** A filter no row passes keeps nothing. */
  lemma SelectNone(rows: seq<Match>, f: RowFilter)
    requires forall m :: m in rows ==> !Keeps(f, m)
    ensures Select(rows, f) == []
  {
  }

  lemma {:induction false} SelectPassing(rows: seq<Match>, f: RowFilter)
    requires forall i :: 0 <= i < |rows| ==> Keeps(f, rows[i])
    ensures Select(rows, f) == rows
    decreases |rows|
  {
    if |rows| > 0 {
      SelectPassing(rows[1..], f);
    }
  }

  /** Two filters no row satisfies together select at most all rows between them. */
  lemma {:induction false} CountDisjoint(rows: seq<Match>, f: RowFilter, g: RowFilter)
    requires forall m :: m in rows ==> !(Keeps(f, m) && Keeps(g, m))
    ensures Count(rows, f) + Count(rows, g) <= |rows|
    decreases |rows|
  {
    if |rows| > 0 {
      CountDisjoint(rows[1..], f, g);
      assert !(Keeps(f, rows[0]) && Keeps(g, rows[0])) by {
        assert rows[0] in rows;
      }
      assert Count(rows, f) == (if Keeps(f, rows[0]) then 1 else 0) + Count(rows[1..], f);
      assert Count(rows, g) == (if Keeps(g, rows[0]) then 1 else 0) + Count(rows[1..], g);
    }
  }

  ghost function IndexSet(rows: seq<Match>, f: RowFilter): set<int> {
    set i | 0 <= i < |rows| && Keeps(f, rows[i])
  }

  /** `Count` agrees with counting positions of the log: each kept row is counted once. */
  lemma {:induction false} CountIsIndexCount(rows: seq<Match>, f: RowFilter)
    ensures Count(rows, f) == |IndexSet(rows, f)|
    decreases |rows|
  {
    if |rows| > 0 {
      var init := rows[..|rows| - 1];
      var last := rows[|rows| - 1];
      assert rows == init + [last];
      SelectAppend(init, [last], f);
      assert [last][1..] == [];
      CountIsIndexCount(init, f);
      IndexSetSnoc(rows, f);
    }
  }

  lemma IndexSetSnoc(rows: seq<Match>, f: RowFilter)
    requires |rows| > 0
    ensures var n := |rows| - 1;
      |IndexSet(rows, f)| == |IndexSet(rows[..n], f)| + (if Keeps(f, rows[n]) then 1 else 0)
  {
    var n := |rows| - 1;
    var small := IndexSet(rows[..n], f);
    var big := IndexSet(rows, f);
    var kept := Keeps(f, rows[n]);
    var expected := if kept then small + {n} else small;
    forall i
      ensures i in big <==> i in expected
    {
      if 0 <= i < n {
        assert rows[..n][i] == rows[i];
      }
    }
    assert big == expected;
    if kept {
      assert n !in small;
    }
  }

  // ---------------------------------------------------------------------------
  // Column sums and the point rules
  // ---------------------------------------------------------------------------

  /** Points for `team` by the team-record rule: 3 for a regulation win, 2 for an
      AOT/PEN win, 1 for an AOT/PEN loss, 0 otherwise (including any other ADD code). */
  function TeamPointsFor(m: Match, team: string): (p: nat)
    ensures p <= 3
    ensures Sound(m) && KnownDecision(m) && team == m.home ==> p == HomeTablePointsFor(m)
    ensures Sound(m) && KnownDecision(m) && team == m.away ==> p == 3 - HomeTablePointsFor(m)
  {
    if m.winner == team && m.add.None? then 3
    else if m.winner == team && ExtraTime(m) then 2
    else if m.winner != team && ExtraTime(m) then 1
    else 0
  }

  /** HOMEPOINTS by the standings rule: a home win is 3 without ADD and 2 with any ADD,
      a home loss is 0 without ADD and 1 with any ADD. */
  function HomeTablePointsFor(m: Match): (p: nat)
    ensures p <= 3
  {
    if m.home == m.winner && m.add.None? then 3
    else if m.home == m.winner then 2
    else if m.add.None? then 0
    else 1
  }

  datatype Measure =
    | TeamPoints(team: string)
    | ScoredBy(team: string)
    | ConcededBy(team: string)
    | HomeGoals
    | AwayGoals
    | HomeTablePoints
    | AwayTablePoints

  function Value(k: Measure, m: Match): nat {
    match k
    case TeamPoints(t) => TeamPointsFor(m, t)
    case ScoredBy(t) => if m.home == t then m.hg else m.ag
    case ConcededBy(t) => if m.home == t then m.ag else m.hg
    case HomeGoals => m.hg
    case AwayGoals => m.ag
    case HomeTablePoints => HomeTablePointsFor(m)
    case AwayTablePoints => 3 - HomeTablePointsFor(m)
  }

  /** `df[column].sum()` for the column `k` describes. */
  function Total(rows: seq<Match>, k: Measure): nat {
    if |rows| == 0 then 0 else Value(k, rows[0]) + Total(rows[1..], k)
  }

  lemma {:induction false} TotalAppend(a: seq<Match>, b: seq<Match>, k: Measure)
    ensures Total(a + b, k) == Total(a, k) + Total(b, k)
    decreases |a|
  {
    if |a| > 0 {
      assert (a + b)[1..] == a[1..] + b;
      TotalAppend(a[1..], b, k);
    } else {
      assert a + b == b;
    }
  }

  lemma TotalSingle(m: Match, k: Measure)
    ensures Total([m], k) == Value(k, m)
  {
    assert [m][1..] == [];
  }

  lemma {:induction false} TotalSame(rows: seq<Match>, k1: Measure, k2: Measure)
    requires forall i :: 0 <= i < |rows| ==> Value(k1, rows[i]) == Value(k2, rows[i])
    ensures Total(rows, k1) == Total(rows, k2)
    decreases |rows|
  {
    if |rows| > 0 {
      TotalSame(rows[1..], k1, k2);
    }
  }

  lemma {:induction false} TotalAtMostThree(rows: seq<Match>, k: Measure)
    requires forall i :: 0 <= i < |rows| ==> Value(k, rows[i]) <= 3
    ensures Total(rows, k) <= 3 * |rows|
    decreases |rows|
  {
    if |rows| > 0 {
      TotalAtMostThree(rows[1..], k);
      assert Value(k, rows[0]) <= 3;
    }
  }

  /** `h` keeps `m` exactly when `f` or `g` does, and they never both do. */
  predicate SplitRow(m: Match, f: RowFilter, g: RowFilter, h: RowFilter) {
    && (Keeps(h, m) <==> Keeps(f, m) || Keeps(g, m))
    && !(Keeps(f, m) && Keeps(g, m))
  }

  /** When `h` keeps exactly the rows `f` or `g` keeps, and never both, its column sum
      is the sum of theirs. */
  lemma {:induction false} TotalSplit(rows: seq<Match>, f: RowFilter, g: RowFilter, h: RowFilter, k: Measure)
    requires forall i :: 0 <= i < |rows| ==> SplitRow(rows[i], f, g, h)
    ensures Total(Select(rows, h), k) == Total(Select(rows, f), k) + Total(Select(rows, g), k)
    decreases |rows|
  {
    if |rows| > 0 {
      var rest := rows[1..];
      assert forall i :: 0 <= i < |rest| ==> rest[i] == rows[i + 1];
      TotalSplit(rest, f, g, h, k);
      TotalSplitStep(rows, f, g, h, k);
    }
  }

  lemma TotalSplitStep(rows: seq<Match>, f: RowFilter, g: RowFilter, h: RowFilter, k: Measure)
    requires |rows| > 0 && SplitRow(rows[0], f, g, h)
    requires Total(Select(rows[1..], h), k) == Total(Select(rows[1..], f), k) + Total(Select(rows[1..], g), k)
    ensures Total(Select(rows, h), k) == Total(Select(rows, f), k) + Total(Select(rows, g), k)
  {
    SelectTotalCons(rows, f, k);
    SelectTotalCons(rows, g, k);
    SelectTotalCons(rows, h, k);
  }

  /** The column sum over the kept rows, taking the first row apart. */
  lemma SelectTotalCons(rows: seq<Match>, f: RowFilter, k: Measure)
    requires |rows| > 0
    ensures Total(Select(rows, f), k)
         == (if Keeps(f, rows[0]) then Value(k, rows[0]) else 0) + Total(Select(rows[1..], f), k)
  {
    if Keeps(f, rows[0]) {
      assert ([rows[0]] + Select(rows[1..], f))[1..] == Select(rows[1..], f);
    }
  }

  /** Home and away table points of every row add up to 3. */
  lemma {:induction false} TablePointsPerRow(rows: seq<Match>)
    ensures Total(rows, HomeTablePoints) + Total(rows, AwayTablePoints) == 3 * |rows|
    decreases |rows|
  {
    if |rows| > 0 {
      TablePointsPerRow(rows[1..]);
    }
  }

  // ---------------------------------------------------------------------------
  // Home/away decomposition of a team's rows
  // ---------------------------------------------------------------------------

  /** Without self-matches, a team's rows are its home rows plus its away rows. */
  lemma {:induction false} SplitTotal(rows: seq<Match>, t: string, k: Measure)
    requires NoSelfMatch(rows)
    ensures Total(Select(rows, Involves(t)), k)
         == Total(Select(rows, AtHome(t)), k) + Total(Select(rows, AwayOf(t)), k)
    decreases |rows|
  {
    if |rows| > 0 {
      SplitTotal(rows[1..], t, k);
    }
  }

  lemma {:induction false} SplitCount(rows: seq<Match>, t: string, g: RowFilter)
    requires NoSelfMatch(rows)
    ensures |Select(rows, Involves(t))| == |Select(rows, AtHome(t))| + |Select(rows, AwayOf(t))|
    ensures Count(Select(rows, Involves(t)), g)
         == Count(Select(rows, AtHome(t)), g) + Count(Select(rows, AwayOf(t)), g)
    decreases |rows|
  {
    if |rows| > 0 {
      SplitCount(rows[1..], t, g);
    }
  }

  // ---------------------------------------------------------------------------
  // Season selectors
  // ---------------------------------------------------------------------------

  datatype Scope = AllSeasons | SeasonOnly(season: int)

  predicate InScope(scope: Scope, m: Match) {
    scope.SeasonOnly? ==> m.season == scope.season
  }

  /** An optional season id the engine can read: absent, empty, "all", or digits. */
  predicate OptionalSelectorOk(sel: Option<string>) {
    sel.None? || sel.value == "" || sel.value == "all" || IsNumeral(sel.value)
  }

  /** `if season_id and season_id != "all": SEASON == int(season_id)`. */
  function ScopeOfOptional(sel: Option<string>): Scope
    requires OptionalSelectorOk(sel)
  {
    if sel.Some? && sel.value != "" && sel.value != "all" then SeasonOnly(NumeralValue(sel.value))
    else AllSeasons
  }

  /** A season id as the table and leaderboards take it: "all" or digits. */
  predicate SelectorOk(id: string) {
    id == "all" || IsNumeral(id)
  }

  /** `if season_id == "all": whole log, else SEASON == int(season_id)`. */
  function ScopeOf(id: string): Scope
    requires SelectorOk(id)
  {
    if id == "all" then AllSeasons else SeasonOnly(NumeralValue(id))
  }

  /** The rows a season selector keeps, in log order. */
  function Slice(log: seq<Match>, scope: Scope): (r: seq<Match>)
    ensures |r| <= |log|
    ensures forall m :: m in r <==> m in log && InScope(scope, m)
    ensures scope.AllSeasons? ==> r == log
  {
    match scope
    case AllSeasons => log
    case SeasonOnly(v) => Select(log, InSeason(v))
  }

  /** `season_id or "all"`: the selector's part of a cache key. */
  function SelectorKey(sel: Option<string>): string {
    if sel.None? || sel.value == "" then "all" else sel.value
  }

  // ---------------------------------------------------------------------------
  // Score text and team names
  // ---------------------------------------------------------------------------

  /** `f"{HG}:{AG}"`. */
  function ScoreText(hg: nat, ag: nat): string {
    NatToString(hg) + ":" + NatToString(ag)
  }

  function Homes(rows: seq<Match>): (r: seq<string>)
    ensures |r| == |rows| && forall i :: 0 <= i < |rows| ==> r[i] == rows[i].home
  {
    seq(|rows|, i requires 0 <= i < |rows| => rows[i].home)
  }

  function Aways(rows: seq<Match>): (r: seq<string>)
    ensures |r| == |rows| && forall i :: 0 <= i < |rows| ==> r[i] == rows[i].away
  {
    seq(|rows|, i requires 0 <= i < |rows| => rows[i].away)
  }

  /** `team` is the home or the away team of some row. */
  predicate Plays(rows: seq<Match>, team: string) {
    team in Homes(rows) || team in Aways(rows)
  }

  lemma PlaysIffSomeRow(rows: seq<Match>, team: string)
    ensures Plays(rows, team) <==> Count(rows, Involves(team)) > 0
  {
    if Plays(rows, team) {
      var i :| 0 <= i < |rows| && (rows[i].home == team || rows[i].away == team);
      assert rows[i] in Select(rows, Involves(team));
    }
    if Count(rows, Involves(team)) > 0 {
      var m := Select(rows, Involves(team))[0];
      assert m in rows;
      var i :| 0 <= i < |rows| && rows[i] == m;
      assert Homes(rows)[i] == team || Aways(rows)[i] == team;
    }
  }

  /** The sorted, duplicate-free union of home and away team names. */
  function TeamNames(rows: seq<Match>): (names: seq<string>)
    ensures StrictlyIncreasing(names, LexLess)
    ensures forall t :: t in names <==> Plays(rows, t)
  {
    LexLessIsStrictTotal();
    SortedSetSpec(Homes(rows) + Aways(rows), LexLess);
    SortedSet(Homes(rows) + Aways(rows), LexLess)
  }

  lemma DistinctNames(names: seq<string>)
    requires StrictlyIncreasing(names, LexLess)
    ensures forall i, j :: 0 <= i < j < |names| ==> names[i] != names[j]
  {
    forall i, j | 0 <= i < j < |names|
      ensures names[i] != names[j]
    {
      LexIrreflexive(names[i]);
    }
  }
}
