# KHL statistics bot: a verified model of its core

The bot answers questions about KHL hockey games from a log of match rows with the
columns HOMETEAM, AWAYTEAM, WINNER, HG, AG, ADD, SEASON and DATE. This project models
the parts of the bot that compute things, and proves properties of them:

- the statistics engine: team records, home and away records, head-to-head, last games
  and form, the season table and four leaderboards;
- the TTL cache every engine query goes through, and the cache keys;
- the feature engineering of the match predictor, which leaves the classifier abstract;
- the data loader's `SCORE` column and metadata;
- the free-text front end's team, season and table-keyword helpers;
- the season labels and guards of the chat handlers.

The match log is an immutable `seq<Match>` (`MatchLog`). Each query is a pure function
over it, and the cache is a `map` that each operation takes and returns, with the clock
passed in as `now`. The modules follow the program:

| module | file | models |
|---|---|---|
| `MatchLog` | match_log.dfy | rows, filters, column sums, the two point rules, season selectors, team names |
| `TeamQueries` | team_queries.dfy | team/home/away records, head-to-head, last games, form |
| `Standings` | standings.dfy | the season table |
| `Leaders` | leaders.dfy | the four leaderboards |
| `Cache` | cache.dfy | the TTL cache |
| `Engine` | engine.dfy | "look up, else compute and save" for every query |
| `Prediction` | prediction.dfy | team rates, labels, feature rows, `predict_match`, the head-to-head summary |
| `Loader` | loader.dfy | `SCORE`, metadata, the loader's team record |
| `QueryText` | query_text.dfy | team matching, season extraction, the table decision |
| `Handlers` | handlers.dfy | season labels and handler guards |
| `Order`, `Text`, `Options` | order.dfy, text.dfy, options.dfy | sorting, strings, optional values |

The main theorem is `Engine.RunIsFresh`. Take a store whose entries were all computed
from the current log, and a query whose key no other query with a different answer
shares. Then the engine's answer, whether it is a cache hit or a miss, equals a fresh
computation, and the store stays computed from the log. `Engine.PlainQueryUnambiguous`
discharges the no-collision assumption for every query whose team names contain no
space and no underscore: any query sharing such a key has the same number of key words
and so plain team names too (`Engine.PlainKeyPartner`), and `Engine.PlainRunIsFresh`
states the main theorem for those queries without the assumption. `Engine.CollisionServesOtherAnswer` shows that without that assumption the
engine really serves one query another query's answer.

Four behaviours of the season table are modelled as the code is written, and each is
shown by a lemma on a concrete log:

- `place` is a team's alphabetical position, not its rank (`Standings.PlaceIsNotRank`).
- An overtime win also counts as an overtime loss (`Standings.OvertimeWinCountsAsOvertimeLoss`).
- An away team's `goals_for` is read from the HG column
  (`Standings.AwayGoalsForReadsHomeGoals`, `Standings.AwayGoalsInRecord`).
- The record and table point rules disagree on unknown ADD codes (`Standings.PointRulesDisagree`).

## Model

| member | source | states |
|---|---|---|
| MatchLog.Slice | app/stats_calculator.py:21-24 | the season selector keeps exactly the rows of the selected season, in log order; "all" keeps the whole log |
| MatchLog.TeamPointsFor | app/stats_calculator.py:39-45 | a row is worth at most 3 points to a team; on a well-formed row with absent, AOT or PEN decision it gives the home team the table's home points and the away team the rest of 3 |
| MatchLog.TablePointsPerRow | app/stats_calculator.py:387-393 | home and away table points of every row add up to 3 |
| MatchLog.TotalSplit | app/stats_calculator.py:395-423 | when one filter keeps exactly the rows of two disjoint filters, its column sum is the sum of theirs |
| MatchLog.SplitCount | app/stats_calculator.py:182-199 | with no self-match, a team's rows are its home rows plus its away rows, in count and in any sub-count |
| MatchLog.SplitTotal | app/stats_calculator.py:195-199 | with no self-match, a team's column sums are its home sums plus its away sums |
| MatchLog.SelectSelect | app/stats_calculator.py:115-123 | filtering the season slice and then by a condition is filtering by both |
| MatchLog.CountDisjoint | app/stats_calculator.py:123-125 | two conditions no row meets together count at most all rows between them |
| MatchLog.TeamNames | app/stats_calculator.py:395-425 | the team list is strictly increasing in code-point order and holds exactly the teams of some row |
| MatchLog.PlaysIffSomeRow | app/stats_calculator.py:26-32 | a team appears in the log iff some row involves it |
| Order.Head | app/stats_calculator.py:319 | pandas `head(n)`: a prefix of the list, `min(n, len)` long for `n >= 0` and all but the last `-n` items for negative `n` |
| TeamQueries.TeamStats | app/stats_calculator.py:12-96 | the record is `{}` iff no row of the slice involves the team; otherwise games, wins and losses agree and points, goals and difference are consistent |
| TeamQueries.HomeStats | app/stats_calculator.py:169-232 | the home record is `{}` iff the team has no home row in the slice; otherwise it is well formed |
| TeamQueries.AwayStats | app/stats_calculator.py:234-297 | the away record is `{}` iff the team has no away row in the slice; otherwise it is well formed |
| TeamQueries.TeamStatsCountsRows | app/stats_calculator.py:26-37 | games is the number of slice rows involving the team and wins the number of those it won |
| TeamQueries.SideRecordsReadColumns | app/stats_calculator.py:182-199 | reading `{}` as zeros, the home record counts the home rows, the ones won, HG as scored and AG as conceded; the away record counts the away rows with AG scored and HG conceded |
| TeamQueries.TeamGoalsByRole | app/stats_calculator.py:47-58 | with no self-match, the team record's goals scored are HG of its home rows plus AG of its away rows, and conceded the other two sums |
| TeamQueries.GoalsBySide | app/stats_calculator.py:47-55 | on home rows a team scores HG and concedes AG; on away rows the other way round |
| TeamQueries.HomeAwaySplit | app/stats_calculator.py:182-199 | with no self-match, home plus away equals the team record in games, wins, losses, points, goals scored and goals conceded |
| TeamQueries.ExampleTeamRecord | app/stats_calculator.py:39-91 | a 4:2 home win and a 2:3 overtime loss away give games 2, wins 1, scored 6, conceded 5, points 4 |
| TeamQueries.MeetingLines | app/stats_calculator.py:128-150 | every listed meeting keeps its row's home, away, `HG:AG` score and winner, in log order |
| TeamQueries.HeadToHeadStats | app/stats_calculator.py:101-167 | the result is `{}` iff the teams never met in the slice; otherwise total games is the number of meetings, each team's wins are the meetings whose winner it is, and the games are the meetings as played, in order |
| TeamQueries.HeadToHeadCountsRows | app/stats_calculator.py:115-123 | total games and each team's wins count the positions of the slice holding a meeting of the two teams, and a meeting that team won |
| TeamQueries.HeadToHeadSymmetric | app/stats_calculator.py:115-125 | swapping the teams swaps the win counts and keeps the meetings, the total and the listed games |
| TeamQueries.ExampleHeadToHead | app/stats_calculator.py:115-125 | two meetings won once each give total 2 and one win each |
| TeamQueries.LastGames | app/stats_calculator.py:299-337 | without DATE the list is empty; otherwise `min(n, count)` games for `n >= 0` and `max(0, count + n)` for negative `n` (pandas `head`), all of the team, newest first, with the home flag right |
| TeamQueries.LastGamesAreNewest | app/stats_calculator.py:310-334 | with DATE, the lines are those of rows drawn from the team's rows of the whole log, and every game of the team newer than a listed one is listed |
| TeamQueries.NewestRowsCount | app/stats_calculator.py:310-319 | the listed rows are drawn from the team's rows, `min(n, count)` of them for `n >= 0` |
| TeamQueries.NewestRowsAreNewest | app/stats_calculator.py:318-319 | a row of the team newer than some listed row is listed too |
| TeamQueries.NewestRowsInvolve | app/stats_calculator.py:310-313 | every listed row involves the team, whatever the season |
| TeamQueries.FormOf | app/stats_calculator.py:347-363 | the form is `{}` iff the last-games list is empty; otherwise games is its length, wins the lines whose winner is the team, and wins plus losses equals games |
| TeamQueries.FormStats | app/stats_calculator.py:339-366 | no form without DATE; with DATE, `{}` iff `head(n)` keeps no game of the team |
| TeamQueries.FormStatsCountsRows | app/stats_calculator.py:345-355 | with DATE, games is the number of newest rows listed and wins the number of those the team won |
| TeamQueries.FormWinsAreRowWins | app/stats_calculator.py:352-359 | wins counted on the game lines are the rows the team won |
| Standings.TableLine | app/stats_calculator.py:395-447 | a line's wins and overtime losses are bounded by its games, all three outcomes add up to games, and points are at most 3 per game |
| Standings.SeasonTable | app/stats_calculator.py:368-456 | one row per team of the slice; points non-increasing; equal points keep alphabetical order |
| Standings.SortByPoints | app/stats_calculator.py:451 | the stable sort is a permutation with points non-increasing and ties in `place` order |
| Standings.SeasonTableRows | app/stats_calculator.py:430-451 | every row is its team's line at the team's alphabetical position |
| Standings.SeasonTableTeams | app/stats_calculator.py:425-451 | the table lists every team of the slice exactly once and no other |
| Standings.SeasonTableTiesAlphabetical | app/stats_calculator.py:451 | among equal points the alphabetically earlier team comes first |
| Standings.SeasonTablePointsTotal | app/stats_calculator.py:387-393 | the table's points add up to 3 per game of the slice |
| Standings.LinesPointsTotal | app/stats_calculator.py:423 | the unsorted lines' points add up to 3 per row |
| Standings.TableLineAgreesWithRecord | app/stats_calculator.py:395-435 | with no self-match, a table line has the record's games and wins, and its points when every row is sound with a known decision |
| Standings.LinePointsByRecordRule | app/stats_calculator.py:387-393 | on sound rows with known decisions the table points equal the record's point rule |
| Standings.PlaceIsNotRank | app/stats_calculator.py:431-451 | with one away win the table starts with place 2, not 1 |
| Standings.OvertimeWinCountsAsOvertimeLoss | app/stats_calculator.py:397 | an overtime home win counts as a win and an overtime loss, leaving regular losses at -1 |
| Standings.AwayGoalsForReadsHomeGoals | app/stats_calculator.py:414-415 | a team beaten 4:2 away gets 4 goals for and 2 against in the table |
| Standings.AwayGoalsInRecord | app/stats_calculator.py:47-55 | the same team's record has 2 scored and 4 conceded |
| Standings.PointRulesDisagree | app/stats_calculator.py:387-393 | with an ADD code other than AOT or PEN the record gives 0 and 0 points, the table 2 and 1 |
| Leaders.Ranked | app/stats_calculator.py:478-483 | a board holds at most `limit` entries from the list, numbered from 1, values non-increasing, `min(limit, count)` long for `limit >= 0` |
| Leaders.RankedIsTop | app/stats_calculator.py:478 | an entry left off the board has no larger value than any listed one |
| Leaders.RankedDistinct | app/stats_calculator.py:478-483 | distinct entries are listed at most once |
| Leaders.Winners | app/stats_calculator.py:474 | the index of the win counts is exactly the teams that won a row, sorted |
| Leaders.TopWinners | app/stats_calculator.py:458-488 | each row holds a team's positive win count in the slice, values non-increasing, teams distinct, at most `limit` rows |
| Leaders.TopWinnersIsTop | app/stats_calculator.py:474-478 | a team with wins that is not listed has no more wins than any listed team |
| Leaders.TopWinnersLength | app/stats_calculator.py:478 | with `limit >= 0` the board has `min(limit, winners)` rows |
| Leaders.TopPoints | app/stats_calculator.py:490-540 | each row holds a team of the slice with its table points, values non-increasing, teams distinct, at most `limit` rows |
| Leaders.TopPointsIsTop | app/stats_calculator.py:508-530 | a team of the slice that is not listed has no more points than any listed team |
| Leaders.TopPointsMatchTable | app/stats_calculator.py:508-530 | every team on the points board has the points the season table gives it |
| Leaders.TopWinrate | app/stats_calculator.py:542-592 | each row is a team's win/loss entry with at least `min_games` games, rates non-increasing, teams distinct, at most `limit` rows |
| Leaders.WinrateRowFacts | app/stats_calculator.py:558-575 | every row has games, wins plus losses equal its total, and a rate that is the percentage of wins |
| Leaders.AtLeastGames | app/stats_calculator.py:573 | the filter keeps exactly the entries with at least `min_games` games |
| Leaders.TopWinrateIsTop | app/stats_calculator.py:573-578 | a team with enough games that is not listed has no higher rate than any listed team |
| Leaders.DecidedIsPlayed | app/stats_calculator.py:558-569 | on sound rows a team's wins plus losses are its games |
| Leaders.TopScorers | app/stats_calculator.py:594-628 | each row holds a team of the slice with its goals, values non-increasing, teams distinct, at most `limit` rows |
| Leaders.TopScorersIsTop | app/stats_calculator.py:610-614 | a team of the slice that is not listed scored no more than any listed team |
| Leaders.ScorersMatchTeamStats | app/stats_calculator.py:610-624 | with no self-match, a team's goals on the board are its record's goals scored |
| Cache.Save | app/simple_cache.py:5-10 | the key holds the value until `now + ttl`; every other key is unchanged |
| Cache.Get | app/simple_cache.py:12-19 | a hit iff the key is present and unexpired, returning its value; an expired key is deleted and nothing else changes |
| Cache.SaveThenGet | app/simple_cache.py:5-16 | a saved value is returned before its expiry |
| Cache.SaveThenExpire | app/simple_cache.py:12-19 | from its expiry on the value is a miss and the key is gone |
| Cache.SaveOverwrites | app/simple_cache.py:5-10 | a second save of a key replaces the first |
| Cache.SaveKeepsOthers | app/simple_cache.py:5-10 | saving one key does not change what another key looks up to |
| Cache.ExpiredGetDeletesOnlyKey | app/simple_cache.py:17-19 | a lookup of an expired key deletes that key only |
| Cache.GetIsStable | app/simple_cache.py:12-19 | a lookup never changes what other lookups at the same moment answer |
| Cache.MakeKey | app/simple_cache.py:21-23 | a key never contains a space |
| Cache.MakeKeyNotInjective | app/simple_cache.py:21-23 | ("a_b", "c") and ("a", "b_c") give the same key |
| Cache.MakeKeyMergesSpace | app/simple_cache.py:21-23 | a space and an underscore in an argument give the same key |
| Cache.MakeKeyInjective | app/simple_cache.py:21-23 | with no space or underscore in any argument, equal keys mean equal arguments |
| Cache.Clear | app/simple_cache.py:25-28 | returns the previous entry count and leaves a store where every lookup misses |
| Cache.Stats | app/simple_cache.py:30-43 | total is the entry count, active the unexpired keys, expired the rest, and active plus expired is total |
| Cache.LiveExpiredPartition | app/simple_cache.py:35-39 | live and expired keys are disjoint and make up the store |
| Cache.Cleanup | app/simple_cache.py:45-56 | removes exactly the expired entries and returns how many |
| Cache.CleanupLeavesLive | app/simple_cache.py:45-56 | after a cleanup nothing is expired, the live keys are kept, and every lookup answers as before |
| Engine.Run | app/stats_calculator.py:13-20 | a hit answers the stored value and leaves the store as it is; a miss stores its answer under the key until `now + ttl`, and outside the form that answer is the fresh computation |
| Engine.KeyOf | app/simple_cache.py:21-23 | each query's `make_cache_key` call: no space, the kind's first word in front, and one underscore per word boundary plus one per space or underscore inside an argument |
| Engine.Ttl | app/stats_calculator.py:93-628 | 600 seconds exactly for last games and form, 3600 exactly for the season table, 1800 for every other query |
| Engine.Eval | app/stats_calculator.py:98-628 | on a miss each query computes its own kind of answer: a record dict for team, home and away, a head-to-head dict, a form dict, and a list for the last games, the table, the three boards and the win rates |
| Engine.RunIsFresh | app/stats_calculator.py:13-20 | on a store computed from the log and an unambiguous key, every query answers its fresh computation and keeps the store computed from the log |
| Engine.HitIsFresh | app/stats_calculator.py:13-16 | a cache hit on such a store is the fresh answer |
| Engine.SaveCoherent | app/stats_calculator.py:91-94 | saving a fresh answer keeps the store computed from the log |
| Engine.MissThenHit | app/simple_cache.py:13-16 | a saved answer, even an empty record or list, is served until its time-to-live has passed |
| Engine.AllSelectorsShareKey | app/stats_calculator.py:13 | no selector, "" and "all" share one key and one answer |
| Engine.SelectorKeyScope | app/stats_calculator.py:13 | selectors with the same key part select the same rows |
| Engine.KeyIsWords | app/stats_calculator.py:102 | for plain team names a key is its words joined by underscores |
| Engine.PlainKeysUnambiguous | app/stats_calculator.py:102 | when no team name holds a space or underscore, queries sharing a key compute the same answer |
| Engine.PlainKeyPartner | app/simple_cache.py:21-23 | a query that shares its key with a query whose team names are plain has plain team names too |
| Engine.PlainQueryUnambiguous | app/stats_calculator.py:13-16 | the no-collision premise of the main theorem holds for every query with plain team names |
| Engine.PlainRunIsFresh | app/stats_calculator.py:13-20 | on a store computed from the log, every query with plain team names is answered with its fresh computation |
| Engine.CollisionServesOtherAnswer | app/stats_calculator.py:102 | two head-to-head queries for "A_B"/"C" and "A"/"B_C" share a key, and the second is served the first's answer |
| Prediction.TeamStatsTable | app/prediction_engine.py:29-47 | the table's keys are exactly the teams of some row, each with its rate card |
| Prediction.PlayedTeamHasGames | app/prediction_engine.py:33-34 | a team of the table has home plus away games above 0 |
| Prediction.CardShares | app/prediction_engine.py:36-38 | total games are home plus away games; each rate is the share of the matching games won |
| Prediction.ShareBounds | app/prediction_engine.py:36-38 | a share of at most all games lies in [0, 1] |
| Prediction.ShareTimes | app/prediction_engine.py:36-38 | a share times its games gives back the wins |
| Prediction.TableEntries | app/prediction_engine.py:29-47 | every entry has games, a side without games has rate 0, and all rates lie in [0, 1] |
| Prediction.TableMatchesRecords | app/prediction_engine.py:29-47 | with no self-match the rate card agrees with the calculator's all-season team, home and away records |
| Prediction.WinnerCode | app/prediction_engine.py:64-72 | 1 iff the home team won, 0 iff the away team won and not the home team, 2 otherwise |
| Prediction.SoundRowsHaveNoDraw | app/prediction_engine.py:64-72 | on a well-formed row the label is never 2 and tells which side won |
| Prediction.Classes | app/prediction_engine.py:74-97 | the classifier's labels are the distinct labels of the log, increasing, within 0..2 |
| Prediction.DrawLabelIffOddRow | app/prediction_engine.py:64-72 | label 2 occurs iff some row's winner is neither of its teams |
| Prediction.FeatureRow | app/prediction_engine.py:108-123 | the row holds the two encodings, the home team's home rate, the away team's away rate and both overall rates |
| Prediction.TrainingRows | app/prediction_engine.py:50-53 | one feature row per game of the log, built from the same rate table |
| Prediction.QueryMatchesTraining | app/prediction_engine.py:74-78 | a game of the log asked about again gets the feature row it was trained on |
| Prediction.OutcomeCodeInverse | app/prediction_engine.py:129-133 | decoding an outcome's label gives the outcome back |
| Prediction.ProbMap | app/prediction_engine.py:135-142 | an outcome gets a probability iff its label is one of the classes |
| Prediction.ProbMapValues | app/prediction_engine.py:135-142 | with distinct labels each outcome gets the probability at its label's index |
| Prediction.PredictMatch | app/prediction_engine.py:99-153 | "not found" iff either team is unknown; "same team" iff both are known and equal; otherwise the result echoes both teams' cards and has probabilities for exactly the classes |
| Prediction.ClassifierOnlyOnValidPairs | app/prediction_engine.py:101-105 | on an unknown or equal pair every classifier gives the same answer |
| Prediction.PredictionUsesFeatureRow | app/prediction_engine.py:108-142 | a prediction is the classifier's on the pair's feature row, with the classifier's probability per outcome |
| Prediction.DrawOnlyIfLabelled | app/prediction_engine.py:135-142 | "draw" gets a probability iff some row's winner is neither team, so never on a well-formed log |
| Prediction.HeadToHeadSummary | app/prediction_engine.py:155-176 | `{"total_games": 0}` iff the teams never met; otherwise the total is the number of meetings in the whole log, each team's wins the meetings it won, and each rate the team's share |
| Prediction.SummaryCountsRows | app/prediction_engine.py:157-167 | the total and each team's wins count the positions of the log holding a meeting, and a meeting that team won |
| Prediction.LastLines | app/prediction_engine.py:175 | the lines of the final `min(5, n)` meetings, in log order |
| Prediction.SummaryAgreesWithHeadToHead | app/prediction_engine.py:157-166 | the summary counts the same meetings and wins as the calculator's all-season head-to-head |
| Prediction.SummaryLastGames | app/prediction_engine.py:165-175 | the last games are the final `min(5, total)` meetings, each as played |
| Prediction.SummarySwap | app/prediction_engine.py:157-176 | swapping the teams swaps wins and rates and keeps the meetings |
| Prediction.SummaryWinsBounded | app/prediction_engine.py:164-166 | between two different teams the wins never exceed the meetings |
| Loader.ScoreColumn | app/data_loader.py:18 | one score per row, and parsing it gives back that row's HG and AG |
| Loader.ScoreRoundTrip | app/data_loader.py:18 | splitting a score at its ':' recovers both goal counts |
| Loader.ScoreHasOneColon | app/data_loader.py:18 | a score holds exactly one ':' |
| Loader.GetMetadata | app/data_loader.py:27-37 | teams is the sorted team list, the warning flag compares the two set sizes, seasons is strictly increasing and holds exactly the log's seasons |
| Loader.TeamsAreSortedUnion | app/data_loader.py:28-32 | the team list is sorted, duplicate-free, and exactly the union of the two name columns |
| Loader.SizeCheckMissesDifferentSets | app/data_loader.py:34-35 | two different name sets of the same size raise no warning |
| Loader.WarningMeansDifferentSets | app/data_loader.py:34-35 | when the warning fires the two name sets differ |
| Loader.LoaderTeamStats | app/data_loader.py:39-60 | `{}` iff nothing is loaded or the team has no game; otherwise wins plus losses equal games |
| Loader.LoaderAgreesWithCalculator | app/data_loader.py:43-58 | on a loaded log the games, wins and losses are those of the calculator's all-season record |
| QueryText.AllTeams | app/ai_open_bot.py:26 | strictly increasing, duplicate-free, exactly the teams of some row |
| QueryText.ExtractTeams | app/ai_open_bot.py:28-41 | duplicate-free, and a team is returned iff it is in the list and the lowercased query mentions it |
| QueryText.MentionedIff | app/ai_open_bot.py:32-39 | a team is mentioned iff one of its words occurs and its name is longer than 3 or occurs whole |
| QueryText.FirstYear | app/ai_open_bot.py:48-49 | the smallest year from the start to 2025 whose digits occur, or none if none occurs |
| QueryText.YearSeasonId | app/ai_open_bot.py:50-51 | a year's id is its last two digits followed by those of the next year |
| QueryText.KeywordSeason | app/ai_open_bot.py:64-66 | the season of the first listed keyword that occurs, or none |
| QueryText.ExtractSeason | app/ai_open_bot.py:43-68 | a year takes precedence; otherwise the first matching keyword decides |
| QueryText.SeasonFromYear | app/ai_open_bot.py:48-51 | the smallest matching year y gives the digits of y and y + 1 |
| QueryText.NoSeasonWithoutCue | app/ai_open_bot.py:68 | with neither a year nor a keyword there is no season |
| QueryText.BeforeLastSeasonIsShadowed | app/ai_open_bot.py:53-66 | 'позапрошлом сезоне' yields "2425", because its substring 'прошлом сезоне' is tried first |
| QueryText.ShowTableDirectly | app/ai_open_bot.py:70-81 | true iff a table keyword occurs, or a top keyword does and the query does not refuse the table |
| QueryText.RefusalNeverHidesTable | app/ai_open_bot.py:72-79 | the refusal contains a table keyword, so the decision is just "some table or top keyword occurs" |
| Handlers.Drop | app/handlers.py:238-239 | `s[:n] + s[n:]` is `s` |
| Handlers.ExtractedSeasonLabels | app/handlers.py:234-239 | an id built from a year y reads "y/" and the last two digits of y + 1, and "y/y+1" on the tops screen |
| Handlers.MenuLabels | app/handlers.py:236-239 | "809" reads "2008/2009", "1011" reads "2010/11", and "2010/2011" on the tops screen |
| Handlers.TwoIdsOneSeason | app/handlers.py:234-239 | "0809" and "809" select the same season under two different labels |
| Handlers.HeadToHeadReply | app/handlers.py:267-271 | refused iff the two teams are equal; otherwise the engine's head-to-head |
| Handlers.ShownHeadToHeadBounded | app/handlers.py:267-271 | a shown head-to-head never has more wins than meetings |
| Handlers.PredictionReply | app/handlers.py:891-893 | refused iff the two teams are equal; otherwise the engine's verdict |
| Handlers.SameTeamErrorUnreachable | app/handlers.py:891-893 | the engine's same-team error never reaches the user |
| Handlers.TableReply | app/handlers.py:474-478 | refused iff the id is "all"; otherwise that one season's table |
| Handlers.ShownTableIsOneSeason | app/handlers.py:609-617 | a shown table has one row per team of the selected season |

## Left out

- Reading the CSV file and catching its errors, and parsing and printing dates. A date is an integer and DATE's presence is the flag `hasDate`.
- Float formatting: the `"%.1f%%"` win-rate texts, average goals per game and the `round(1)` of the winrate board. Rates are exact `real` quotients.
- scikit-learn: the label encoder, the train/test split, fitting, `predict`/`predict_proba` and the accuracy log. They are the parameter `Classifier`, assumed only to predict one of the training labels and to give one probability per label.
- Prediction.Classes: the training labels are taken to be all labels of the log, because the stratified split keeps every label in the training part.
- The wall clock and the process-wide cache dictionary: time is the `now` argument, the store is passed and returned, and concurrency is not modelled.
- Tie order on the leaderboards and in the last games. pandas' `value_counts` and `sort_values` do not promise an order among equal values, so no tie order is claimed there; only the season table's stable `sorted` is modelled with its order.
- `int(season_id)` raising on an id that is not digits: the queries require `SelectorOk`/`OptionalSelectorOk`.
- Leaders.TopWinrate: sorts by the exact rate; the bot sorts by the rate rounded to one decimal, so teams whose rates round to the same value may be listed in another order.
- QueryText.ExtractTeams: returns the teams in list order; the order of `list(set(...))` is unspecified.
- Lowercasing covers Latin A-Z and the Cyrillic capitals U+0400..U+042F, not all of Unicode.
- The Telegram handlers beyond the season labels and the three guards: callbacks, state machine and message editing.
- The presentation files (keyboards, formatters, text tables, prediction formatter, plots) and `bot.py`.
- The OpenAI call, prompt building and answer orchestration of the free-text front end.
