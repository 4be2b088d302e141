/**
 * The pure parts of the chat handlers: the season label each screen derives from a
 * season id, and the guards that stop a request before it reaches the engine (two
 * equal teams, a season table for "all").
 */
module Handlers {
  import opened Options
  import opened Text
  import opened Order
  import opened MatchLog
  import opened TeamQueries
  import opened Standings
  import opened Prediction
  import opened QueryText

  // ---------------------------------------------------------------------------
  // Season labels
  // ---------------------------------------------------------------------------

  /** Python's `s[:n]`. */
  function Take(s: string, n: nat): (r: string)
    ensures |r| == if n < |s| then n else |s|
  {
    if n < |s| then s[..n] else s
  }

  /** Python's `s[n:]`. */
  function Drop(s: string, n: nat): (r: string)
    ensures Take(s, n) + r == s
  {
    if n < |s| then s[n..] else ""
  }

  /** The `season_name` the statistics screens compute from a season id: "all" is
      "Все сезоны", a 3-character id `dyy` reads "200d/20yy", any other id `aabb` reads
      "20aa/bb". */
  function SeasonLabel(id: string): string
  {
    if id == "all" then "Все сезоны"
    else if |id| == 3 then "200" + [id[0]] + "/20" + id[1..]
    else "20" + Take(id, 2) + "/" + Drop(id, 2)
  }

  /** The `season_text` of the tops screen, which writes the second year in full. */
  function TopsSeasonText(id: string): string
  {
    if id == "all" then "за все сезоны"
    else if |id| == 3 then "в сезоне 200" + [id[0]] + "/20" + id[1..]
    else "в сезоне 20" + Take(id, 2) + "/20" + Drop(id, 2)
  }

  /** A year of this century is "20" followed by its last two digits. */
  lemma CenturyYear(y: nat)
    requires 2000 <= y <= 2099
    ensures NatToString(y) == "20" + TwoDigits(y)
  {
    FourDigits(y);
    assert y / 1000 == 2 && y / 100 % 10 == 0;
  }

  /** A season id read from a year `y` of a question decodes to "y/" and the last two
      digits of `y + 1` on the statistics screens, and to "y/y+1" on the tops screen. */
  lemma ExtractedSeasonLabels(y: nat)
    requires 2008 <= y <= 2025
    ensures SeasonLabel(YearSeasonId(y)) == NatToString(y) + "/" + TwoDigits(y + 1)
    ensures TopsSeasonText(YearSeasonId(y)) == "в сезоне " + NatToString(y) + "/" + NatToString(y + 1)
  {
    var id := YearSeasonId(y);
    CenturyYear(y);
    CenturyYear(y + 1);
    assert |id| == 4 && id != "all";
    assert Take(id, 2) == TwoDigits(y);
    assert Drop(id, 2) == TwoDigits(y + 1);
  }

  /** The menu ids of the first two seasons have three characters; their labels. */
  lemma MenuLabels()
    ensures SeasonLabel("809") == "2008/2009"
    ensures SeasonLabel("1011") == "2010/11"
    ensures TopsSeasonText("1011") == "в сезоне 2010/2011"
  {
    assert "1011"[..2] == "10" && "1011"[2..] == "11";
  }

  /** The question front end writes the 2008/09 season as "0809" and the menus as "809":
      both select the same season, under two different labels. */
  lemma TwoIdsOneSeason()
    ensures SelectorOk("0809") && SelectorOk("809")
    ensures ScopeOf("0809") == ScopeOf("809") == SeasonOnly(809)
    ensures SeasonLabel("0809") == "2008/09" && SeasonLabel("809") == "2008/2009"
  {
    assert "0809"[..3] == "080" && "080"[..2] == "08" && "08"[..1] == "0" && "0"[..0] == "";
    assert "809"[..2] == "80" && "80"[..1] == "8" && "8"[..0] == "";
    assert NumeralValue("0809") == 809;
    assert NumeralValue("809") == 809;
    assert "0809"[..2] == "08" && "0809"[2..] == "09";
  }

  // ---------------------------------------------------------------------------
  // Guards
  // ---------------------------------------------------------------------------

  /** A handler either refuses the request with an alert or shows the engine's answer. */
  datatype Reply<T> = Refused | Shown(value: T)

  /** The head-to-head handler: two equal teams are refused before the engine is asked. */
  function HeadToHeadReply(log: seq<Match>, team1: string, team2: string, sel: Option<string>)
    : (r: Reply<Option<HeadToHead>>)
    requires OptionalSelectorOk(sel)
    ensures r.Refused? <==> team1 == team2
    ensures r.Shown? ==> r.value == HeadToHeadStats(log, team1, team2, sel)
  {
    if team1 == team2 then Refused else Shown(HeadToHeadStats(log, team1, team2, sel))
  }

  /** What the guard buys: a shown head-to-head never has more wins than meetings. */
  lemma ShownHeadToHeadBounded(log: seq<Match>, team1: string, team2: string, sel: Option<string>)
    requires OptionalSelectorOk(sel)
    requires HeadToHeadReply(log, team1, team2, sel).Shown?
    requires HeadToHeadReply(log, team1, team2, sel).value.Some?
    ensures var h := HeadToHeadReply(log, team1, team2, sel).value.value;
      h.team1Wins + h.team2Wins <= h.totalGames
  {
  }

  /** The prediction handler: two equal teams are refused before `predict_match`. */
  function PredictionReply(log: seq<Match>, clf: Classifier, team1: string, team2: string)
    : (r: Reply<Verdict>)
    requires Fitted(clf, Classes(log))
    ensures r.Refused? <==> team1 == team2
    ensures r.Shown? ==> r.value == PredictMatch(log, clf, team1, team2)
  {
    if team1 == team2 then Refused else Shown(PredictMatch(log, clf, team1, team2))
  }

  /** Because of the guard, the engine's own same-team error never reaches the user:
      a shown verdict is "not found" or a prediction. */
  lemma SameTeamErrorUnreachable(log: seq<Match>, clf: Classifier, team1: string, team2: string)
    requires Fitted(clf, Classes(log))
    requires PredictionReply(log, clf, team1, team2).Shown?
    ensures PredictionReply(log, clf, team1, team2).value != SameTeams
  {
  }

  /** The two season-table handlers: "all" is refused and the season menu shown again;
      any other id gets that season's table. */
  function TableReply(log: seq<Match>, id: string): (r: Reply<seq<StandingsRow>>)
    requires SelectorOk(id)
    ensures r.Refused? <==> id == "all"
    ensures r.Shown? ==> ScopeOf(id) == SeasonOnly(NumeralValue(id)) && r.value == SeasonTable(log, id)
  {
    if id == "all" then Refused else Shown(SeasonTable(log, id))
  }

  /** A shown table covers exactly the teams that played in the one selected season. */
  lemma ShownTableIsOneSeason(log: seq<Match>, id: string)
    requires SelectorOk(id)
    requires TableReply(log, id).Shown?
    ensures var slice := Select(log, InSeason(NumeralValue(id)));
      |TableReply(log, id).value| == |TeamNames(slice)|
  {
  }
}
