/**
 * The statistics engine as the bot runs it: every query first looks up its key in
 * the TTL cache and only on a miss computes its answer and stores it for the
 * query's time-to-live. `get_form_stats` reads its last games through the cache
 * as well. The model's main theorem: when every entry in the store was computed
 * from the current log, and no other query shares the key, a lookup answers
 * exactly what a fresh computation would.
 */
module Engine {
  import opened Options
  import opened Text
  import opened Order
  import opened MatchLog
  import opened TeamQueries
  import opened Standings
  import opened Leaders
  import opened Cache

  datatype Query =
    | TeamQ(team: string, sel: Option<string>)
    | HeadToHeadQ(team1: string, team2: string, sel: Option<string>)
    | HomeQ(team: string, sel: Option<string>)
    | AwayQ(team: string, sel: Option<string>)
    | LastGamesQ(team: string, n: int)
    | FormQ(team: string, n: int)
    | TableQ(id: string)
    | WinnersQ(id: string, limit: int)
    | PointsQ(id: string, limit: int)
    | WinrateQ(id: string, minGames: int, limit: int)
    | ScorersQ(id: string, limit: int)

  /** The value stored under a key: one variant per shape of result. */
  datatype Answer =
    | RecordA(record: Option<TeamRecord>)
    | HeadToHeadA(h2h: Option<HeadToHead>)
    | GamesA(games: seq<GameLine>)
    | FormA(form: Option<Form>)
    | TableA(table: seq<StandingsRow>)
    | BoardA(board: seq<Placed<Tally>>)
    | WinrateA(rates: seq<Placed<WinrateEntry>>)

  /** The season ids each query can read. */
  predicate Answerable(q: Query) {
    match q
    case TeamQ(_, sel) => OptionalSelectorOk(sel)
    case HeadToHeadQ(_, _, sel) => OptionalSelectorOk(sel)
    case HomeQ(_, sel) => OptionalSelectorOk(sel)
    case AwayQ(_, sel) => OptionalSelectorOk(sel)
    case LastGamesQ(_, _) => true
    case FormQ(_, _) => true
    case TableQ(id) => SelectorOk(id)
    case WinnersQ(id, _) => SelectorOk(id)
    case PointsQ(id, _) => SelectorOk(id)
    case WinrateQ(id, _, _) => SelectorOk(id)
    case ScorersQ(id, _) => SelectorOk(id)
  }

  /** The first argument of each `make_cache_key` call ("team_stats", "h2h", ...). */
  function KindName(q: Query): string {
    Join("_", KindWords(q))
  }

  /** The kind names cut at their underscore. */
  function KindWords(q: Query): seq<string> {
    match q
    case TeamQ(_, _) => ["team", "stats"]
    case HeadToHeadQ(_, _, _) => ["h2h"]
    case HomeQ(_, _) => ["home", "stats"]
    case AwayQ(_, _) => ["away", "stats"]
    case LastGamesQ(_, _) => ["last", "games"]
    case FormQ(_, _) => ["form", "stats"]
    case TableQ(_) => ["season", "table"]
    case WinnersQ(_, _) => ["top", "winners"]
    case PointsQ(_, _) => ["top", "points"]
    case WinrateQ(_, _, _) => ["top", "winrate"]
    case ScorersQ(_, _) => ["top", "scorers"]
  }

  /** The remaining, stringified arguments of each `make_cache_key` call. */
  function KeyArgs(q: Query): seq<string> {
    match q
    case TeamQ(t, sel) => [t, SelectorKey(sel)]
    case HeadToHeadQ(a, b, sel) => [a, b, SelectorKey(sel)]
    case HomeQ(t, sel) => [t, SelectorKey(sel)]
    case AwayQ(t, sel) => [t, SelectorKey(sel)]
    case LastGamesQ(t, n) => [t, IntToString(n)]
    case FormQ(t, n) => [t, IntToString(n)]
    case TableQ(id) => [id]
    case WinnersQ(id, limit) => [id, IntToString(limit)]
    case PointsQ(id, limit) => [id, IntToString(limit)]
    case WinrateQ(id, minGames, limit) => [id, IntToString(minGames), IntToString(limit)]
    case ScorersQ(id, limit) => [id, IntToString(limit)]
  }

  /** The `make_cache_key` call of each query: no space, the first word of the kind in
      front, and one underscore between each two words plus one for every space or
      underscore inside an argument. */
  function KeyOf(q: Query): (k: string)
    ensures ' ' !in k
    ensures UntilSep(k) == KindWords(q)[0]
    ensures Underscores(k) == |KeyWords(q)| - 1 + SepTotal(KeyArgs(q))
  {
    KindWordsPlain(q);
    JoinedFirstWord(KindWords(q), KeyArgs(q));
    var args := [KindName(q)] + KeyArgs(q);
    MakeKeyUnderscores(args);
    assert args[1..] == KeyArgs(q);
    KindSeps(q);
    MakeKey(args)
  }

  /** `ttl_seconds` of each `save_to_cache` call: ten minutes for the last games and the
      form, an hour for the season table, half an hour for everything else. */
  function Ttl(q: Query): (t: int)
    ensures t == 600 <==> q.LastGamesQ? || q.FormQ?
    ensures t == 3600 <==> q.TableQ?
    ensures t == 1800 <==> !(q.LastGamesQ? || q.FormQ? || q.TableQ?)
  {
    match q
    case LastGamesQ(_, _) => 600
    case FormQ(_, _) => 600
    case TableQ(_) => 3600
    case _ => 1800
  }

  /** What each query computes on a cache miss: a record dict for the team, home and
      away queries, a list for the last games, the table and the leaderboards. */
  function Eval(log: seq<Match>, hasDate: bool, q: Query): (a: Answer)
    requires Answerable(q)
    ensures q.TeamQ? || q.HomeQ? || q.AwayQ? ==> a.RecordA?
    ensures q.HeadToHeadQ? ==> a.HeadToHeadA?
    ensures q.LastGamesQ? ==> a.GamesA?
    ensures q.FormQ? ==> a.FormA?
    ensures q.TableQ? ==> a.TableA?
    ensures q.WinnersQ? || q.PointsQ? || q.ScorersQ? ==> a.BoardA?
    ensures q.WinrateQ? ==> a.WinrateA?
  {
    match q
    case TeamQ(t, sel) => RecordA(TeamStats(log, t, sel))
    case HeadToHeadQ(a, b, sel) => HeadToHeadA(HeadToHeadStats(log, a, b, sel))
    case HomeQ(t, sel) => RecordA(HomeStats(log, t, sel))
    case AwayQ(t, sel) => RecordA(AwayStats(log, t, sel))
    case LastGamesQ(t, n) => GamesA(LastGames(log, hasDate, t, n))
    case FormQ(t, n) => FormA(FormStats(log, hasDate, t, n))
    case TableQ(id) => TableA(SeasonTable(log, id))
    case WinnersQ(id, limit) => BoardA(TopWinners(log, id, limit))
    case PointsQ(id, limit) => BoardA(TopPoints(log, id, limit))
    case WinrateQ(id, minGames, limit) => WinrateA(TopWinrate(log, id, minGames, limit))
    case ScorersQ(id, limit) => BoardA(TopScorers(log, id, limit))
  }

  /** The list inside a last-games answer. */
  function GamesOf(a: Answer): seq<GameLine> {
    if a.GamesA? then a.games else []
  }

  datatype Served = Served(answer: Answer, store: Store<Answer>)

  /** One query as the engine serves it: look up, else compute and save. */
  function Run(store: Store<Answer>, log: seq<Match>, hasDate: bool, q: Query, now: int): (r: Served)
    requires Answerable(q)
    ensures var look := Get(store, KeyOf(q), now);
      look.result.Some? ==> r.answer == look.result.value && r.store == store
    ensures var look := Get(store, KeyOf(q), now);
      look.result.None? ==> KeyOf(q) in r.store && r.store[KeyOf(q)] == Entry(r.answer, now + Ttl(q))
    ensures var look := Get(store, KeyOf(q), now);
      look.result.None? && !q.FormQ? ==> r.answer == Eval(log, hasDate, q)
    ensures q.FormQ? ==> r.answer.FormA? || Get(store, KeyOf(q), now).result.Some?
    decreases if q.FormQ? then 1 else 0
  {
    var look := Get(store, KeyOf(q), now);
    if look.result.Some? then Served(look.result.value, look.store)
    else if q.FormQ? then
      var inner := Run(look.store, log, hasDate, LastGamesQ(q.team, q.n), now);
      var answer := FormA(FormOf(q.team, GamesOf(inner.answer)));
      Served(answer, Save(inner.store, KeyOf(q), answer, Ttl(q), now))
    else
      var answer := Eval(log, hasDate, q);
      Served(answer, Save(look.store, KeyOf(q), answer, Ttl(q), now))
  }

  // ---------------------------------------------------------------------------
  // Coherence: a hit is a fresh computation
  // ---------------------------------------------------------------------------

  /** Every stored answer is what some query with that key computes on `log`. */
  ghost predicate Coherent(store: Store<Answer>, log: seq<Match>, hasDate: bool) {
    forall k :: k in store ==> exists q :: Answerable(q) && KeyOf(q) == k && store[k].value == Eval(log, hasDate, q)
  }

  /** Every query sharing `q`'s key computes the same answer. */
  ghost predicate KeyUnambiguous(log: seq<Match>, hasDate: bool, q: Query)
    requires Answerable(q)
  {
    forall q' :: Answerable(q') && KeyOf(q') == KeyOf(q) ==> Eval(log, hasDate, q') == Eval(log, hasDate, q)
  }

  /** The no-collision assumption for `q` and, for the form, for the last games it reads. */
  ghost predicate Unambiguous(log: seq<Match>, hasDate: bool, q: Query)
    requires Answerable(q)
  {
    && KeyUnambiguous(log, hasDate, q)
    && (q.FormQ? ==> KeyUnambiguous(log, hasDate, LastGamesQ(q.team, q.n)))
  }

  lemma SubStoreCoherent(store: Store<Answer>, sub: Store<Answer>, log: seq<Match>, hasDate: bool)
    requires Coherent(store, log, hasDate)
    requires sub.Keys <= store.Keys
    requires forall k :: k in sub ==> sub[k] == store[k]
    ensures Coherent(sub, log, hasDate)
  {
    forall k | k in sub
      ensures exists q :: Answerable(q) && KeyOf(q) == k && sub[k].value == Eval(log, hasDate, q)
    {
      assert k in store;
    }
  }

  lemma SaveCoherent(store: Store<Answer>, log: seq<Match>, hasDate: bool, q: Query, ttl: int, now: int)
    requires Answerable(q)
    requires Coherent(store, log, hasDate)
    ensures Coherent(Save(store, KeyOf(q), Eval(log, hasDate, q), ttl, now), log, hasDate)
  {
    var r := Save(store, KeyOf(q), Eval(log, hasDate, q), ttl, now);
    forall k | k in r
      ensures exists q' :: Answerable(q') && KeyOf(q') == k && r[k].value == Eval(log, hasDate, q')
    {
      if k == KeyOf(q) {
        assert Answerable(q) && KeyOf(q) == k && r[k].value == Eval(log, hasDate, q);
      } else {
        assert k in store;
      }
    }
  }

  lemma GetCoherent(store: Store<Answer>, log: seq<Match>, hasDate: bool, key: string, now: int)
    requires Coherent(store, log, hasDate)
    ensures Coherent(Get(store, key, now).store, log, hasDate)
  {
    SubStoreCoherent(store, Get(store, key, now).store, log, hasDate);
  }

  /** A hit on a coherent store with an unambiguous key is the fresh answer. */
  lemma HitIsFresh(store: Store<Answer>, log: seq<Match>, hasDate: bool, q: Query, now: int)
    requires Answerable(q)
    requires Coherent(store, log, hasDate) && KeyUnambiguous(log, hasDate, q)
    requires Get(store, KeyOf(q), now).result.Some?
    ensures Get(store, KeyOf(q), now).result.value == Eval(log, hasDate, q)
  {
    var k := KeyOf(q);
    assert k in store;
    var q' :| Answerable(q') && KeyOf(q') == k && store[k].value == Eval(log, hasDate, q');
  }

  /** The engine answers every unambiguous query with its fresh computation, and the
      store stays coherent. */
  lemma RunIsFresh(store: Store<Answer>, log: seq<Match>, hasDate: bool, q: Query, now: int)
    requires Answerable(q)
    requires Coherent(store, log, hasDate) && Unambiguous(log, hasDate, q)
    ensures Run(store, log, hasDate, q, now).answer == Eval(log, hasDate, q)
    ensures Coherent(Run(store, log, hasDate, q, now).store, log, hasDate)
    decreases if q.FormQ? then 1 else 0
  {
    var look := Get(store, KeyOf(q), now);
    GetCoherent(store, log, hasDate, KeyOf(q), now);
    if look.result.Some? {
      HitIsFresh(store, log, hasDate, q, now);
    } else if q.FormQ? {
      RunIsFresh(look.store, log, hasDate, LastGamesQ(q.team, q.n), now);
      FormMissIsFresh(store, log, hasDate, q, now);
    } else {
      SaveCoherent(look.store, log, hasDate, q, Ttl(q), now);
    }
  }

  /** A form miss whose last games were served fresh is a fresh form. */
  lemma FormMissIsFresh(store: Store<Answer>, log: seq<Match>, hasDate: bool, q: Query, now: int)
    requires q.FormQ? && Get(store, KeyOf(q), now).result.None?
    requires var inner := Run(Get(store, KeyOf(q), now).store, log, hasDate, LastGamesQ(q.team, q.n), now);
      && inner.answer == Eval(log, hasDate, LastGamesQ(q.team, q.n))
      && Coherent(inner.store, log, hasDate)
    ensures Run(store, log, hasDate, q, now).answer == Eval(log, hasDate, q)
    ensures Coherent(Run(store, log, hasDate, q, now).store, log, hasDate)
  {
    var inner := Run(Get(store, KeyOf(q), now).store, log, hasDate, LastGamesQ(q.team, q.n), now);
    assert GamesOf(inner.answer) == LastGames(log, hasDate, q.team, q.n);
    SaveCoherent(inner.store, log, hasDate, q, Ttl(q), now);
  }

  // ---------------------------------------------------------------------------
  // Keys
  // ---------------------------------------------------------------------------

  /** An absent selector, an empty one and "all" share one key and one answer. */
  lemma AllSelectorsShareKey(log: seq<Match>, team: string)
    ensures KeyOf(TeamQ(team, None)) == KeyOf(TeamQ(team, Some("all"))) == KeyOf(TeamQ(team, Some("")))
    ensures Eval(log, false, TeamQ(team, None)) == Eval(log, false, TeamQ(team, Some("all")))
    ensures Eval(log, false, TeamQ(team, None)) == Eval(log, false, TeamQ(team, Some("")))
  {
    assert KeyArgs(TeamQ(team, None)) == KeyArgs(TeamQ(team, Some("all"))) == KeyArgs(TeamQ(team, Some("")));
  }

  // ---------------------------------------------------------------------------
  // When keys cannot collide
  // ---------------------------------------------------------------------------

  /** The underscore-separated words of a key. */
  function KeyWords(q: Query): seq<string> {
    KindWords(q) + KeyArgs(q)
  }

  /** No team name of the query holds a space or an underscore. */
  predicate PlainTeams(q: Query) {
    match q
    case TeamQ(t, _) => Plain(t)
    case HeadToHeadQ(a, b, _) => Plain(a) && Plain(b)
    case HomeQ(t, _) => Plain(t)
    case AwayQ(t, _) => Plain(t)
    case LastGamesQ(t, _) => Plain(t)
    case FormQ(t, _) => Plain(t)
    case _ => true
  }

  lemma NumeralIsPlain(s: string)
    requires IsNumeral(s)
    ensures Plain(s)
  {
    assert forall i :: 0 <= i < |s| ==> s[i] != ' ' && s[i] != '_';
  }

  lemma IntToStringPlain(i: int)
    ensures Plain(IntToString(i))
  {
    if i < 0 {
      NumeralIsPlain(NatToString(-i));
      assert IntToString(i) == "-" + NatToString(-i);
    } else {
      NumeralIsPlain(NatToString(i));
    }
  }

  lemma IntToStringInjective(a: int, b: int)
    requires IntToString(a) == IntToString(b)
    ensures a == b
  {
    if a < 0 && b < 0 {
      assert NatToString(-a) == IntToString(a)[1..] == IntToString(b)[1..] == NatToString(-b);
      NatToStringInjective(-a, -b);
    } else if a >= 0 && b >= 0 {
      NatToStringInjective(a, b);
    }
  }

  lemma SelectorKeyPlain(sel: Option<string>)
    requires OptionalSelectorOk(sel)
    ensures Plain(SelectorKey(sel))
  {
    if SelectorKey(sel) != "all" {
      NumeralIsPlain(sel.value);
    }
  }

  /** Equal selector keys select the same rows. */
  lemma SelectorKeyScope(s1: Option<string>, s2: Option<string>)
    requires OptionalSelectorOk(s1) && OptionalSelectorOk(s2)
    requires SelectorKey(s1) == SelectorKey(s2)
    ensures ScopeOfOptional(s1) == ScopeOfOptional(s2)
  {
  }

  lemma WordsPlain(q: Query)
    requires Answerable(q) && PlainTeams(q)
    ensures forall i :: 0 <= i < |KeyWords(q)| ==> Plain(KeyWords(q)[i])
  {
    ArgsPlain(q);
    KindWordsPlain(q);
    forall i | 0 <= i < |KeyWords(q)|
      ensures Plain(KeyWords(q)[i])
    {
      if i < |KindWords(q)| {
        assert KeyWords(q)[i] == KindWords(q)[i];
      } else {
        assert KeyWords(q)[i] == KeyArgs(q)[i - |KindWords(q)|];
      }
    }
  }

  lemma KindWordsPlain(q: Query)
    ensures forall i :: 0 <= i < |KindWords(q)| ==> Plain(KindWords(q)[i])
  {
  }

  lemma ArgsPlain(q: Query)
    requires Answerable(q) && PlainTeams(q)
    ensures forall i :: 0 <= i < |KeyArgs(q)| ==> Plain(KeyArgs(q)[i])
  {
    match q
    case TeamQ(_, sel) => SelectorKeyPlain(sel);
    case HeadToHeadQ(_, _, sel) => SelectorKeyPlain(sel);
    case HomeQ(_, sel) => SelectorKeyPlain(sel);
    case AwayQ(_, sel) => SelectorKeyPlain(sel);
    case LastGamesQ(_, n) => IntToStringPlain(n);
    case FormQ(_, n) => IntToStringPlain(n);
    case TableQ(id) => if id != "all" { NumeralIsPlain(id); }
    case WinnersQ(id, limit) =>
      if id != "all" { NumeralIsPlain(id); }
      IntToStringPlain(limit);
    case PointsQ(id, limit) =>
      if id != "all" { NumeralIsPlain(id); }
      IntToStringPlain(limit);
    case WinrateQ(id, minGames, limit) =>
      if id != "all" { NumeralIsPlain(id); }
      IntToStringPlain(minGames);
      IntToStringPlain(limit);
    case ScorersQ(id, limit) =>
      if id != "all" { NumeralIsPlain(id); }
      IntToStringPlain(limit);
  }

  /** For plain team names the key is the words joined by underscores. */
  lemma KeyIsWords(q: Query)
    requires Answerable(q) && PlainTeams(q)
    ensures KeyOf(q) == Join("_", KeyWords(q))
  {
    KindWordsPlain(q);
    ArgsPlain(q);
    PlainKeyIsJoin(KindWords(q), KeyArgs(q));
  }

  /** With plain words and arguments, the key joins them all. */
  lemma PlainKeyIsJoin(kw: seq<string>, args: seq<string>)
    requires |kw| > 0 && |args| > 0
    requires forall i :: 0 <= i < |kw| ==> Plain(kw[i])
    requires forall i :: 0 <= i < |args| ==> Plain(args[i])
    ensures MakeKey([Join("_", kw)] + args) == Join("_", kw + args)
  {
    var parts := [Join("_", kw)] + args;
    JoinNoSpace(kw);
    forall i | 0 <= i < |parts|
      ensures ' ' !in parts[i]
    {
      if i > 0 {
        assert parts[i] == args[i - 1];
      }
    }
    MakeKeyOfSpaceFree(parts);
    JoinFlatten("_", kw, args);
  }

  /** The words of a key tell its kind and its arguments apart. */
  lemma SameWordsSameParts(q1: Query, q2: Query)
    requires KeyWords(q1) == KeyWords(q2)
    ensures KindWords(q1) == KindWords(q2) && KeyArgs(q1) == KeyArgs(q2)
  {
    var w := KeyWords(q1);
    assert w[0] == KindWords(q1)[0] == KindWords(q2)[0];
    if w[0] == "top" {
      assert w[1] == KindWords(q1)[1] == KindWords(q2)[1];
    }
    var k := |KindWords(q1)|;
    assert KeyArgs(q1) == w[k..] == KeyArgs(q2);
  }

  /** Queries with the same words compute the same answer. */
  lemma SameWordsSameAnswer(log: seq<Match>, hasDate: bool, q1: Query, q2: Query)
    requires Answerable(q1) && Answerable(q2)
    requires KeyWords(q1) == KeyWords(q2)
    ensures Eval(log, hasDate, q1) == Eval(log, hasDate, q2)
  {
    SameWordsSameParts(q1, q2);
    match q1
    case TeamQ(_, s1) => SelectorKeyScope(s1, q2.sel);
    case HeadToHeadQ(_, _, s1) => SelectorKeyScope(s1, q2.sel);
    case HomeQ(_, s1) => SelectorKeyScope(s1, q2.sel);
    case AwayQ(_, s1) => SelectorKeyScope(s1, q2.sel);
    case LastGamesQ(_, n) => IntToStringInjective(n, q2.n);
    case FormQ(_, n) => IntToStringInjective(n, q2.n);
    case TableQ(_) =>
    case WinnersQ(_, limit) => IntToStringInjective(limit, q2.limit);
    case PointsQ(_, limit) => IntToStringInjective(limit, q2.limit);
    case WinrateQ(_, minGames, limit) =>
      IntToStringInjective(minGames, q2.minGames);
      IntToStringInjective(limit, q2.limit);
    case ScorersQ(_, limit) => IntToStringInjective(limit, q2.limit);
  }

  /** When no team name holds a space or an underscore, queries that share a key
      compute the same answer: the no-collision assumption holds. */
  lemma PlainKeysUnambiguous(log: seq<Match>, hasDate: bool, q1: Query, q2: Query)
    requires Answerable(q1) && Answerable(q2)
    requires PlainTeams(q1) && PlainTeams(q2)
    requires KeyOf(q1) == KeyOf(q2)
    ensures Eval(log, hasDate, q1) == Eval(log, hasDate, q2)
  {
    PlainKeysSameWords(q1, q2);
    SameWordsSameAnswer(log, hasDate, q1, q2);
  }

  /** Plain keys are joins of words without separators, so equal keys have equal words. */
  lemma PlainKeysSameWords(q1: Query, q2: Query)
    requires Answerable(q1) && Answerable(q2)
    requires PlainTeams(q1) && PlainTeams(q2)
    requires KeyOf(q1) == KeyOf(q2)
    ensures KeyWords(q1) == KeyWords(q2)
  {
    KeyIsWords(q1);
    KeyIsWords(q2);
    WordsPlain(q1);
    WordsPlain(q2);
    PlainJoinInjective(KeyWords(q1), KeyWords(q2));
  }

  lemma PlainJoinInjective(w1: seq<string>, w2: seq<string>)
    requires |w1| > 0 && |w2| > 0
    requires forall i :: 0 <= i < |w1| ==> Plain(w1[i])
    requires forall i :: 0 <= i < |w2| ==> Plain(w2[i])
    requires Join("_", w1) == Join("_", w2)
    ensures w1 == w2
  {
    JoinInjective(w1, w2);
  }

  // ---------------------------------------------------------------------------
  // A plain key is shared only by plain queries
  // ---------------------------------------------------------------------------

  /** The queries whose key holds a team name. */
  predicate NamesTeam(q: Query) {
    q.TeamQ? || q.HeadToHeadQ? || q.HomeQ? || q.AwayQ? || q.LastGamesQ? || q.FormQ?
  }

  lemma KindSeps(q: Query)
    ensures Seps(KindName(q)) == |KindWords(q)| - 1
  {
    var kw := KindWords(q);
    KindWordsPlain(q);
    JoinNoSpace(kw);
    MakeKeyOfSpaceFree(kw);
    MakeKeyUnderscores(kw);
    SepTotalZero(kw);
  }

  /** Joining plain words and then further arguments starts with the first word. */
  lemma JoinedFirstWord(kw: seq<string>, args: seq<string>)
    requires 1 <= |kw| <= 2 && |args| > 0
    requires forall i :: 0 <= i < |kw| ==> Plain(kw[i])
    ensures UntilSep(MakeKey([Join("_", kw)] + args)) == kw[0]
  {
    JoinNoSpace(kw);
    MakeKeyCons(Join("_", kw), args);
    NameFirstWord(kw, MakeKey(args));
  }

  lemma NameFirstWord(kw: seq<string>, tail: string)
    requires 1 <= |kw| <= 2
    requires forall i :: 0 <= i < |kw| ==> Plain(kw[i])
    ensures UntilSep(Join("_", kw) + "_" + tail) == kw[0]
  {
    if |kw| == 1 {
      UntilSepOf(kw[0], tail);
    } else {
      assert Join("_", kw) == kw[0] + "_" + kw[1];
      assert Join("_", kw) + "_" + tail == kw[0] + "_" + (kw[1] + "_" + tail);
      UntilSepOf(kw[0], kw[1] + "_" + tail);
    }
  }

  /** The first word of a key tells a query naming a team from every other kind, and
      all of those have four key words. */
  lemma TeamKindWordCount(q: Query, q': Query)
    requires NamesTeam(q') && KindWords(q)[0] == KindWords(q')[0]
    ensures |KeyWords(q)| == 4 && |KeyWords(q')| == 4
  {
  }

  /** A query sharing its key with a query whose team names are plain has plain team
      names itself: it has the same number of key words, so it cannot hide a space or
      an underscore in a name. */
  lemma PlainKeyPartner(q: Query, q': Query)
    requires Answerable(q) && Answerable(q')
    requires PlainTeams(q)
    requires KeyOf(q') == KeyOf(q)
    ensures PlainTeams(q')
  {
    if NamesTeam(q') {
      TeamKindWordCount(q, q');
      ArgsPlain(q);
      SepTotalZero(KeyArgs(q));
      SepTotalZero(KeyArgs(q'));
      assert Plain(KeyArgs(q')[0]);
      assert q'.HeadToHeadQ? ==> Plain(KeyArgs(q')[1]);
    }
  }

  /** The no-collision premise of `RunIsFresh` holds for every query whose team names
      hold no space and no underscore. */
  lemma PlainQueryUnambiguous(log: seq<Match>, hasDate: bool, q: Query)
    requires Answerable(q) && PlainTeams(q)
    ensures Unambiguous(log, hasDate, q)
  {
    forall q' | Answerable(q') && KeyOf(q') == KeyOf(q)
      ensures Eval(log, hasDate, q') == Eval(log, hasDate, q)
    {
      PlainKeyPartner(q, q');
      PlainKeysUnambiguous(log, hasDate, q', q);
    }
    if q.FormQ? {
      var lq := LastGamesQ(q.team, q.n);
      forall q' | Answerable(q') && KeyOf(q') == KeyOf(lq)
        ensures Eval(log, hasDate, q') == Eval(log, hasDate, lq)
      {
        PlainKeyPartner(lq, q');
        PlainKeysUnambiguous(log, hasDate, q', lq);
      }
    }
  }

  /** On a coherent store, every query with plain team names is answered with its
      fresh computation. */
  lemma PlainRunIsFresh(store: Store<Answer>, log: seq<Match>, hasDate: bool, q: Query, now: int)
    requires Answerable(q) && PlainTeams(q)
    requires Coherent(store, log, hasDate)
    ensures Run(store, log, hasDate, q, now).answer == Eval(log, hasDate, q)
    ensures Coherent(Run(store, log, hasDate, q, now).store, log, hasDate)
  {
    PlainQueryUnambiguous(log, hasDate, q);
    RunIsFresh(store, log, hasDate, q, now);
  }

  /** A saved answer is served back, whatever it holds, until the query's time-to-live
      has passed; an empty record or list is a hit like any other. */
  lemma MissThenHit(store: Store<Answer>, log: seq<Match>, hasDate: bool, q: Query, now: int, later: int)
    requires Answerable(q)
    requires Get(store, KeyOf(q), now).result.None?
    requires later < now + Ttl(q)
    ensures var r := Run(store, log, hasDate, q, now);
      Get(r.store, KeyOf(q), later).result == Some(r.answer)
  {
  }

  /** Two team names with underscores in different places make two head-to-head
      queries share a key; the second is then served the first one's answer. */
  lemma CollisionServesOtherAnswer()
    ensures var q1 := HeadToHeadQ("A_B", "C", None);
      var q2 := HeadToHeadQ("A", "B_C", None);
      var log := [Match("A_B", "C", "C", 1, 2, None, 2021, 1)];
      var first := Run(map[], log, false, q1, 0);
      && KeyOf(q1) == KeyOf(q2)
      && Eval(log, false, q1) != Eval(log, false, q2)
      && Run(first.store, log, false, q2, 1).answer == Eval(log, false, q1)
  {
    var q1 := HeadToHeadQ("A_B", "C", None);
    var q2 := HeadToHeadQ("A", "B_C", None);
    var log := [Match("A_B", "C", "C", 1, 2, None, 2021, 1)];
    CollidingKeys();
    CollidingAnswers();
    var first := Run(map[], log, false, q1, 0);
    assert first.answer == Eval(log, false, q1);
    MissThenHit(map[], log, false, q1, 0, 1);
  }

  lemma CollidingKeys()
    ensures KeyOf(HeadToHeadQ("A_B", "C", None)) == KeyOf(HeadToHeadQ("A", "B_C", None))
  {
    var q1 := HeadToHeadQ("A_B", "C", None);
    var q2 := HeadToHeadQ("A", "B_C", None);
    assert [KindName(q1)] + KeyArgs(q1) == ["h2h"] + (["A_B"] + (["C"] + ["all"]));
    assert [KindName(q2)] + KeyArgs(q2) == ["h2h"] + (["A"] + (["B_C"] + ["all"]));
    MakeKeyCons("C", ["all"]);
    MakeKeyCons("A_B", ["C"] + ["all"]);
    MakeKeyCons("h2h", ["A_B"] + (["C"] + ["all"]));
    MakeKeyCons("B_C", ["all"]);
    MakeKeyCons("A", ["B_C"] + ["all"]);
    MakeKeyCons("h2h", ["A"] + (["B_C"] + ["all"]));
    MakeKeyOne("all");
    assert "A_B" + "_" + ("C" + "_" + "all") == "A" + "_" + ("B_C" + "_" + "all");
  }

  lemma CollidingAnswers()
    ensures var log := [Match("A_B", "C", "C", 1, 2, None, 2021, 1)];
      Eval(log, false, HeadToHeadQ("A_B", "C", None)) != Eval(log, false, HeadToHeadQ("A", "B_C", None))
  {
    var m := Match("A_B", "C", "C", 1, 2, None, 2021, 1);
    var log := [m];
    assert Keeps(Meeting("A_B", "C"), m);
    assert !Keeps(Meeting("A", "B_C"), m);
    assert m in Slice(log, ScopeOfOptional(None));
  }
}
