/**
 * The string helpers the free-text front end uses on a question before it asks the
 * statistics engine: the team list, team-name matching, the season id read from a year
 * or a keyword, and the decision to show a table directly. Matching is on the
 * lowercased query.
 */
module QueryText {
  import opened Options
  import opened Text
  import opened Order
  import opened MatchLog

  // ---------------------------------------------------------------------------
  // Teams
  // ---------------------------------------------------------------------------

  /** `sorted(set(HOMETEAM + AWAYTEAM))`. */
  function AllTeams(log: seq<Match>): (r: seq<string>)
    ensures StrictlyIncreasing(r, LexLess) && Distinct(r)
    ensures forall t :: t in r <==> Plays(log, t)
  {
    DistinctNames(TeamNames(log));
    TeamNames(log)
  }

  /** Some word of `words` occurs in `q`. */
  predicate AnyWordIn(words: seq<string>, q: string) {
    exists k :: 0 <= k < |words| && Contains(q, words[k])
  }

  /** The test applied to one team: its whole lowercased name occurs in the lowercased
      query `q`, or one of the name's words does and the name is longer than 3. */
  predicate Mentioned(team: string, q: string) {
    var t := Lower(team);
    Contains(q, t) || (AnyWordIn(Words(t), q) && |t| > 3)
  }

  /** `extract_teams_from_query(query)`: the teams of `allTeams` the query mentions, each
      once. The order of `list(set(...))` is not specified; this returns them in list order. */
  method ExtractTeams(allTeams: seq<string>, query: string) returns (found: seq<string>)
    ensures Distinct(found)
    ensures forall t :: t in found <==> t in allTeams && Mentioned(t, Lower(query))
  {
    var q := Lower(query);
    found := [];
    var i := 0;
    while i < |allTeams|
      invariant 0 <= i <= |allTeams|
      invariant Distinct(found)
      invariant forall t :: t in found <==> t in allTeams[..i] && Mentioned(t, q)
    {
      var team := allTeams[i];
      var t := Lower(team);
      if Contains(q, t) || (AnyWordIn(Words(t), q) && |t| > 3) {
        if team !in found {
          found := found + [team];
        }
      }
      assert allTeams[..i + 1] == allTeams[..i] + [team];
      i := i + 1;
    }
    assert allTeams[..i] == allTeams;
  }

  /** The name test in other words: for a name with at least one word, the team is
      mentioned iff one of its words occurs and either the name is longer than 3 or the
      whole name occurs. A name of at most 3 characters needs its whole name. */
  lemma MentionedIff(team: string, q: string)
    requires |Words(Lower(team))| > 0
    ensures Mentioned(team, q)
        <==> AnyWordIn(Words(Lower(team)), q) && (|team| > 3 || Contains(q, Lower(team)))
    ensures |team| <= 3 ==> (Mentioned(team, q) <==> Contains(q, Lower(team)))
  {
    var t := Lower(team);
    if Contains(q, t) {
      ContainsTransitive(q, t, Words(t)[0]);
    }
  }

  // ---------------------------------------------------------------------------
  // Seasons
  // ---------------------------------------------------------------------------

  /** The last two decimal digits of `n`. */
  function TwoDigits(n: nat): (s: string)
    ensures |s| == 2 && IsDigit(s[0]) && IsDigit(s[1])
  {
    [DigitChar(n / 10 % 10), DigitChar(n % 10)]
  }

  /** `str(y)` for a four-digit year is its four digits. */
  lemma FourDigits(y: nat)
    requires 1000 <= y <= 9999
    ensures NatToString(y) == [DigitChar(y / 1000), DigitChar(y / 100 % 10)] + TwoDigits(y)
  {
    assert y / 10 / 10 == y / 100;
    assert y / 100 / 10 == y / 1000;
    assert y / 10 % 10 == y / 10 % 10;
    assert NatToString(y / 1000) == [DigitChar(y / 1000)];
    assert NatToString(y / 100) == NatToString(y / 1000) + [DigitChar(y / 100 % 10)];
    assert NatToString(y / 10) == NatToString(y / 100) + [DigitChar(y / 10 % 10)];
  }

  /** `str(y)` matched in the query. */
  predicate YearIn(q: string, y: nat) {
    Contains(q, NatToString(y))
  }

  /** The first year of `from..2025` whose digits occur in `q`. */
  function FirstYear(q: string, from: nat): (r: Option<nat>)
    ensures r.None? <==> forall y :: from <= y <= 2025 ==> !YearIn(q, y)
    ensures r.Some? ==> && from <= r.value <= 2025 && YearIn(q, r.value)
                        && forall y :: from <= y < r.value ==> !YearIn(q, y)
    decreases 2026 - from
  {
    if from > 2025 then None
    else if YearIn(q, from) then Some(from)
    else FirstYear(q, from + 1)
  }

  /** `f"{str(year)[2:]}{str(year + 1)[2:]}"`. */
  function YearSeasonId(y: nat): (id: string)
    requires 2008 <= y <= 2025
    ensures id == TwoDigits(y) + TwoDigits(y + 1)
  {
    FourDigits(y);
    FourDigits(y + 1);
    NatToString(y)[2..] + NatToString(y + 1)[2..]
  }

  /** `season_keywords`, in insertion order. */
  const SeasonKeywords: seq<(string, string)> := [
    ("сейчас", "2526"),
    ("этом сезоне", "2526"),
    ("текущем сезоне", "2526"),
    ("прошлом сезоне", "2425"),
    ("позапрошлом сезоне", "2324"),
    ("сезоне 24/25", "2425"),
    ("сезоне 23/24", "2324"),
    ("сезоне 22/23", "2223")
  ]

  /** The season of the first keyword of `keywords` from position `k` on that occurs in `q`. */
  function KeywordSeason(q: string, keywords: seq<(string, string)>, k: nat): (r: Option<string>)
    requires k <= |keywords|
    ensures r.None? <==> forall j :: k <= j < |keywords| ==> !Contains(q, keywords[j].0)
    ensures r.Some? ==> exists j :: && k <= j < |keywords| && Contains(q, keywords[j].0)
                                    && r.value == keywords[j].1
                                    && forall i :: k <= i < j ==> !Contains(q, keywords[i].0)
    decreases |keywords| - k
  {
    if k == |keywords| then None
    else if Contains(q, keywords[k].0) then Some(keywords[k].1)
    else KeywordSeason(q, keywords, k + 1)
  }

  /** `extract_season_from_query(query)`. */
  function ExtractSeason(query: string): (r: Option<string>)
    ensures var q := Lower(query);
      FirstYear(q, 2008).Some? ==> r == Some(YearSeasonId(FirstYear(q, 2008).value))
    ensures var q := Lower(query);
      FirstYear(q, 2008).None? ==> r == KeywordSeason(q, SeasonKeywords, 0)
  {
    var q := Lower(query);
    match FirstYear(q, 2008)
    case Some(y) => Some(YearSeasonId(y))
    case None => KeywordSeason(q, SeasonKeywords, 0)
  }

  /** The season read from a year: the smallest year of 2008..2025 written in the query
      gives the last two digits of that year and of the next. */
  lemma SeasonFromYear(query: string, y: nat)
    requires 2008 <= y <= 2025 && YearIn(Lower(query), y)
    requires forall z :: 2008 <= z < y ==> !YearIn(Lower(query), z)
    ensures ExtractSeason(query) == Some(TwoDigits(y) + TwoDigits(y + 1))
  {
    FirstYearIs(Lower(query), y);
  }

  lemma FirstYearIs(q: string, y: nat)
    requires 2008 <= y <= 2025 && YearIn(q, y)
    requires forall z :: 2008 <= z < y ==> !YearIn(q, z)
    ensures FirstYear(q, 2008) == Some(y)
  {
    var r := FirstYear(q, 2008);
    assert r.Some?;
    if r.value < y {
      assert false;
    } else if r.value > y {
      assert false;
    }
  }

  /** With neither a year nor a keyword there is no season. */
  lemma NoSeasonWithoutCue(query: string)
    requires forall y :: 2008 <= y <= 2025 ==> !YearIn(Lower(query), y)
    requires forall j :: 0 <= j < |SeasonKeywords| ==> !Contains(Lower(query), SeasonKeywords[j].0)
    ensures ExtractSeason(query) == None
  {
  }

  lemma OccursAfterPrefix(p: string, s: string)
    ensures OccursAt(p + s, s, |p|)
  {
    assert (p + s)[|p|..|p| + |s|] == s;
  }

  lemma LastInBeforeLast()
    ensures Contains("позапрошлом сезоне", "прошлом сезоне")
  {
    var part := "прошлом сезоне";
    assert "позапрошлом сезоне" == "поза" + part;
    OccursAfterPrefix("поза", part);
    ContainsAt("позапрошлом сезоне", part, 4);
  }

  /** 'позапрошлом сезоне' contains 'прошлом сезоне', which is tried first: a query with no
      year and none of the three current-season keywords yields "2425", never "2324". */
  lemma BeforeLastSeasonIsShadowed(query: string)
    requires Contains(Lower(query), "позапрошлом сезоне")
    requires forall y :: 2008 <= y <= 2025 ==> !YearIn(Lower(query), y)
    requires forall j :: 0 <= j < 3 ==> !Contains(Lower(query), SeasonKeywords[j].0)
    ensures ExtractSeason(query) == Some("2425")
  {
    var q := Lower(query);
    LastInBeforeLast();
    ContainsTransitive(q, "позапрошлом сезоне", "прошлом сезоне");
    assert Contains(q, SeasonKeywords[3].0);
    assert KeywordSeason(q, SeasonKeywords, 3) == Some("2425");
  }

  // ---------------------------------------------------------------------------
  // Table decision
  // ---------------------------------------------------------------------------

  const TableKeywords: seq<string> :=
    ["таблица", "турнирная таблица", "таблицу", "распределение", "standings", "ranking"]

  const TopKeywords: seq<string> :=
    ["топ", "лидеры", "первые места", "лучшие команды", "top", "leaders"]

  /** `any(keyword in q for keyword in keywords)`. */
  predicate AnyIn(q: string, keywords: seq<string>) {
    exists k :: 0 <= k < |keywords| && Contains(q, keywords[k])
  }

  /** `should_show_table_directly(query)`: a table keyword shows the table; otherwise a
      top keyword shows it unless the query says 'не показывай таблицу'. */
  function ShowTableDirectly(query: string): (r: bool)
    ensures r <==> AnyIn(Lower(query), TableKeywords)
                   || (AnyIn(Lower(query), TopKeywords) && !Contains(Lower(query), "не показывай таблицу"))
  {
    var q := Lower(query);
    if AnyIn(q, TableKeywords) then true
    else if AnyIn(q, TopKeywords) then !Contains(q, "не показывай таблицу")
    else false
  }

  /** 'не показывай таблицу' contains the table keyword 'таблицу', so it never hides the
      table: the decision is just "some table or top keyword occurs". */
  lemma RefusalNeverHidesTable(query: string)
    ensures Contains(Lower(query), "не показывай таблицу") ==> ShowTableDirectly(query)
    ensures ShowTableDirectly(query) <==> AnyIn(Lower(query), TableKeywords) || AnyIn(Lower(query), TopKeywords)
  {
    var q := Lower(query);
    if Contains(q, "не показывай таблицу") {
      assert OccursAt("не показывай таблицу", "таблицу", 13);
      ContainsAt("не показывай таблицу", "таблицу", 13);
      ContainsTransitive(q, "не показывай таблицу", "таблицу");
      assert Contains(q, TableKeywords[2]);
    }
  }
}
