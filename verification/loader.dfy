/**
 * The data loader: the `SCORE` column it adds to the log, the team and season lists it
 * derives from it, its home/away size check, and its own `get_team_stats`.
 */
module Loader {
  import opened Options
  import opened Text
  import opened Order
  import opened MatchLog
  import opened TeamQueries

  // ---------------------------------------------------------------------------
  // The SCORE column
  // ---------------------------------------------------------------------------

  /** `df['HG'].astype(str) + ':' + df['AG'].astype(str)`. */
  function ScoreColumn(log: seq<Match>): (col: seq<string>)
    ensures |col| == |log|
    ensures forall i :: 0 <= i < |log| ==> ParseScore(col[i]) == Some((log[i].hg, log[i].ag))
  {
    var col := seq(|log|, i requires 0 <= i < |log| => ScoreText(log[i].hg, log[i].ag));
    assert forall i :: 0 <= i < |log| ==> col[i] == ScoreText(log[i].hg, log[i].ag);
    forall i | 0 <= i < |log|
      ensures ParseScore(col[i]) == Some((log[i].hg, log[i].ag))
    {
      ScoreRoundTrip(log[i].hg, log[i].ag);
    }
    col
  }

  /** The position of the first ':' in `s`, or `|s|` when there is none. */
  function ColonIndex(s: string): (i: nat)
    ensures i <= |s|
    ensures i < |s| ==> s[i] == ':'
    ensures forall j :: 0 <= j < i ==> s[j] != ':'
  {
    if |s| == 0 then 0
    else if s[0] == ':' then 0
    else 1 + ColonIndex(s[1..])
  }

  /** Reads a score back: digits, one ':', digits. */
  function ParseScore(s: string): Option<(nat, nat)>
  {
    var i := ColonIndex(s);
    if i < |s| && IsNumeral(s[..i]) && IsNumeral(s[i + 1..])
    then Some((NumeralValue(s[..i]), NumeralValue(s[i + 1..])))
    else None
  }

  /** The number of ':' characters in `s`. */
  function ColonCount(s: string): nat
  {
    if |s| == 0 then 0 else (if s[0] == ':' then 1 else 0) + ColonCount(s[1..])
  }

  lemma {:induction false} ColonCountAppend(a: string, b: string)
    ensures ColonCount(a + b) == ColonCount(a) + ColonCount(b)
    decreases |a|
  {
    if |a| > 0 {
      assert (a + b)[1..] == a[1..] + b;
      ColonCountAppend(a[1..], b);
    } else {
      assert a + b == b;
    }
  }

  lemma {:induction false} NumeralHasNoColon(s: string)
    requires forall i :: 0 <= i < |s| ==> IsDigit(s[i])
    ensures ColonCount(s) == 0
    decreases |s|
  {
    if |s| > 0 {
      assert IsDigit(s[0]);
      NumeralHasNoColon(s[1..]);
    }
  }

  /** A score string holds exactly one ':'. */
  lemma ScoreHasOneColon(hg: nat, ag: nat)
    ensures ColonCount(ScoreText(hg, ag)) == 1
  {
    var h := NatToString(hg);
    var a := NatToString(ag);
    ColonCountAppend(h + ":", a);
    ColonCountAppend(h, ":");
    NumeralHasNoColon(h);
    NumeralHasNoColon(a);
    assert ColonCount(":") == 1 by {
      assert ":"[1..] == [];
    }
  }

  /** Splitting a score at its ':' recovers both goal counts. */
  lemma ScoreRoundTrip(hg: nat, ag: nat)
    ensures ParseScore(ScoreText(hg, ag)) == Some((hg, ag))
  {
    var h := NatToString(hg);
    var a := NatToString(ag);
    var s := ScoreText(hg, ag);
    assert s == h + ":" + a;
    assert s[|h|] == ':';
    assert forall j :: 0 <= j < |h| ==> s[j] == h[j] && s[j] != ':';
    assert ColonIndex(s) == |h|;
    assert s[..|h|] == h;
    assert s[|h| + 1..] == a;
  }

  // ---------------------------------------------------------------------------
  // _get_metadata
  // ---------------------------------------------------------------------------

  /** `teams`, the warning flag and `seasons`. */
  datatype Metadata = Metadata(teams: seq<string>, sizesDiffer: bool, seasons: seq<int>)

  function HomeSet(log: seq<Match>): set<string> {
    set i | 0 <= i < |log| :: log[i].home
  }

  function AwaySet(log: seq<Match>): set<string> {
    set i | 0 <= i < |log| :: log[i].away
  }

  function SeasonColumn(log: seq<Match>): (r: seq<int>)
    ensures |r| == |log| && forall i :: 0 <= i < |log| ==> r[i] == log[i].season
  {
    seq(|log|, i requires 0 <= i < |log| => log[i].season)
  }

  /** `_get_metadata()`: the sorted union of both name columns, whether the two columns
      have different numbers of distinct names, and the sorted distinct seasons. */
  function GetMetadata(log: seq<Match>): (r: Metadata)
    ensures r.teams == TeamNames(log)
    ensures r.sizesDiffer <==> |HomeSet(log)| != |AwaySet(log)|
    ensures StrictlyIncreasing(r.seasons, IntLess)
    ensures forall v :: v in r.seasons <==> exists i :: 0 <= i < |log| && log[i].season == v
  {
    IntLessIsStrictTotal();
    SortedSetSpec(SeasonColumn(log), IntLess);
    Metadata(SortedSet(Homes(log) + Aways(log), LexLess), |HomeSet(log)| != |AwaySet(log)|,
             SortedSet(SeasonColumn(log), IntLess))
  }

  /** The team list holds every name of either column once, in code-point order. */
  lemma TeamsAreSortedUnion(log: seq<Match>)
    ensures var teams := GetMetadata(log).teams;
      && StrictlyIncreasing(teams, LexLess)
      && Distinct(teams)
      && (forall t :: t in teams <==> t in HomeSet(log) || t in AwaySet(log))
  {
    var teams := GetMetadata(log).teams;
    DistinctNames(teams);
    forall t
      ensures t in teams <==> t in HomeSet(log) || t in AwaySet(log)
    {
      if t in HomeSet(log) {
        var i :| 0 <= i < |log| && log[i].home == t;
        assert Homes(log)[i] == t;
      }
      if t in AwaySet(log) {
        var i :| 0 <= i < |log| && log[i].away == t;
        assert Aways(log)[i] == t;
      }
    }
  }

  /** The warning only compares sizes: a log whose home names and away names are
      different sets of the same size raises none. */
  lemma SizeCheckMissesDifferentSets()
    ensures var log := [Match("A", "B", "A", 1, 0, None, 2020, 1), Match("C", "A", "C", 2, 1, None, 2020, 2)];
      && HomeSet(log) != AwaySet(log)
      && !GetMetadata(log).sizesDiffer
  {
    var log := [Match("A", "B", "A", 1, 0, None, 2020, 1), Match("C", "A", "C", 2, 1, None, 2020, 2)];
    assert log[0].home == "A" && log[1].home == "C";
    assert log[0].away == "B" && log[1].away == "A";
    assert HomeSet(log) == {"A", "C"} by {
      assert forall i :: 0 <= i < |log| ==> log[i].home in {"A", "C"};
    }
    assert AwaySet(log) == {"B", "A"} by {
      assert forall i :: 0 <= i < |log| ==> log[i].away in {"B", "A"};
    }
  }

  /** When the warning fires, the two columns name different sets of teams. */
  lemma WarningMeansDifferentSets(log: seq<Match>)
    requires GetMetadata(log).sizesDiffer
    ensures HomeSet(log) != AwaySet(log)
  {
  }

  // ---------------------------------------------------------------------------
  // get_team_stats
  // ---------------------------------------------------------------------------

  /** The loader's record; the `win_rate` text is not modelled. */
  datatype LoaderRecord = LoaderRecord(team: string, games: nat, wins: nat, losses: int)

  /** `loader.get_team_stats(team_name)`; `df` is `None` before a successful load. */
  function LoaderTeamStats(df: Option<seq<Match>>, team: string): (r: Option<LoaderRecord>)
    ensures r.None? <==> df.None? || !Plays(df.value, team)
    ensures r.Some? ==> && r.value.team == team && r.value.games > 0
                        && r.value.wins <= r.value.games
                        && r.value.wins + r.value.losses == r.value.games
  {
    if df.None? then None
    else
      var games := Select(df.value, Involves(team));
      PlaysIffSomeRow(df.value, team);
      if |games| == 0 then None
      else
        var wins := Count(games, WonBy(team));
        Some(LoaderRecord(team, |games|, wins, |games| - wins))
  }

  /** On a loaded log the loader's record has the games, wins and losses of the
      calculator's all-season record. */
  lemma LoaderAgreesWithCalculator(log: seq<Match>, team: string)
    ensures var l := LoaderTeamStats(Some(log), team);
      var c := TeamStats(log, team, None);
      && l.Some? == c.Some?
      && (l.Some? ==> && l.value.games == c.value.games && l.value.wins == c.value.wins
                      && l.value.losses == c.value.losses)
  {
    assert Slice(log, ScopeOfOptional(None)) == log;
    PlaysIffSomeRow(log, team);
  }
}
