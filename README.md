# nightclub: paginated ingestion and set replay, in Dafny

This project models the two scripts of the nightclub repository.

- `dump.py` pulls tournaments from the start.gg query API page by page. It records the name of every event. For whitelisted events it pulls every set (match) and stores tournaments and sets by id in one snapshot.
- `skill.py` replays the completed sets of that snapshot in order of completion time. It keeps a registry of players with a rating, a set count and a win count, and prints a leaderboard.

The rating type and the multi-team update (`trueskill.rate`) are left abstract. The rating is a type parameter `R`. The update is a function parameter `rate`. The default rating of a new player is a parameter `default`. The counters, the skip rules, the order of replay and the contents of the leaderboard are modelled exactly. Of the errors the replay can raise, the model keeps the one on a set without exactly two slots. The errors on a null field are not modelled: the record types here have no null in the fields the scripts dereference (see "## Left out").

Modules, one per file:

- `Wrappers` (`wrappers.dfy`): `Option`, `Result` and the one replay failure the model keeps: a set without exactly two slots.
- `Snapshot` (`snapshot.dfy`): the records shared by both scripts: events, tournaments, players, entrants, standings, slots and sets.
- `Pagination` (`pagination.dfy`): the page loop shared by `fetch_sets`, `find_nightclubs` and `find_onlynoobs`. The remote query is a page source: a total function from page number to the nodes returned and the total declared in `pageInfo.total`.
- `Ingestion` (`ingestion.dfy`): the tournament and event loops at the end of `dump.py`, with the event whitelist.
- `Ordering` (`ordering.dfy`): the filter on `completedAt` and the stable sort by completion time.
- `RatingEngine` (`rating_engine.dfy`): the `Player` defaults, the registry (`players`), the body of the replay loop (`Step`, `ReplaySet`) and the replay (`ReplayAll`, `Replay`).
- `Leaderboard` (`leaderboard.dfy`): the table built from the registry and its sort by the conservative estimate (`expose`).

The scripts' loops are methods. The dictionaries they update in place (`sets`, `tourneys`, `event_names`, `players`) are `map` and `set` values that those loops reassign. Each method is proved equal to a specification function, and the properties are proved about the functions. There are two exceptions. `Leaderboard.Build` is characterised by the predicate `Lists`: the rows are exactly the qualifying players, once each, with the order left open. `Leaderboard.Table` is characterised by sortedness, distinct ids and row membership, not by equality to a function.

Where the code and the design description disagree, the model follows the code:

- A slot without a standing only stops the slot loop. The design says such a set is skipped outright. In the code, a bye in the first slot leaves the registry untouched (`FirstSlotByeUnchanged`). A bye in the second slot still rates the set with the first entrant's team alone (`SecondSlotByeStillRated`). Whether `trueskill.rate` accepts a single team is outside this model.
- A skipped set is described as having no effect on state. In the code, an unrated set still creates registry entries for its participants and changes no rating or counter (`UnratedKeepsScores`). The visit also overwrites each participant's prefix and tag, and the name of a single-player entrant (`VisitEntrantWrites`).
- Unpacking `slot1, slot2` raises on a set that does not have exactly two slots. This happens before the year check, and it aborts the whole replay (`StepFailsIffNotTwoSlots`, `ReplayOutcome`). The design does not mention this error. Over the records of this model it is the only error; the script can also fail on a null field (see "## Left out").
- The design asks for a tie-break by id on equal exposure. The code sorts by exposure alone. The sort is stable over the registry's iteration order, and the model leaves that order unspecified.

## Model

| member | source | states |
|---|---|---|
| Pagination.FetchAll | dump.py:153-165 | pages 1, 2, ... are requested in order; the loop ends on the first page after which the running count reaches that page's declared total; it yields the nodes of pages 1 to that page in order, and `count` equals their number and is at least the last declared total |
| Pagination.LastPage | dump.py:162-164 | on a source where the loop ends, the last page is at least 1 and is the first page on which the break condition holds |
| Pagination.FirstStopExists | dump.py:156-165 | if the break condition holds on some page, it first holds on some page at or before it |
| Pagination.StopsAtUnique | dump.py:163-164 | the first page on which the loop breaks is unique |
| Pagination.FetchReachesDeclaredTotal | dump.py:162-164 | the number of nodes fetched is never below the total declared by the last page |
| Pagination.OverDelivery | dump.py:161-164 | nodes beyond the declared total are not trimmed: a first page of three nodes declaring two yields three |
| Pagination.AtLeastOnePage | dump.py:154-164 | page 1 is always requested; when it already holds its declared total the loop ends there |
| Pagination.DeliveredStalls | dump.py:161-162 | empty pages add nothing to what has been yielded |
| Pagination.EmptyPagesNeverStop | dump.py:156-165 | a server that keeps returning empty pages while declaring more than it has delivered makes the loop run forever |
| Pagination.ChunkedPrefix | dump.py:157-161 | a server paging a list in fixed-size chunks has delivered exactly the first n chunks after n pages |
| Pagination.WellBehavedServerYieldsAll | dump.py:153-165 | against a server that pages a list in fixed-size chunks and declares its length, the loop ends and yields exactly that list |
| Ingestion.LastWinsKeys | dump.py:230 | after storing items by key, a key is present iff it was present before or some item carries it |
| Ingestion.LastWinsValue | dump.py:236 | the value stored under a key is the last item carrying that key |
| Ingestion.LastWinsUntouched | dump.py:236 | a key that no item carries keeps its previous entry or absence |
| Ingestion.LastWinsAppend | dump.py:229-236 | storing one stream and then another is storing their concatenation |
| Ingestion.NamesOfComplete | dump.py:231-232 | a name is recorded for a tournament iff one of its events has that name |
| Ingestion.EventNamesComplete | dump.py:225-232 | `event_names` holds the name of every event of every tournament, whitelisted or not, and nothing else |
| Ingestion.EventSetsSource | dump.py:231-236 | a set is pulled for a tournament's events iff some whitelisted event of it yields that set |
| Ingestion.AllSetsSource | dump.py:229-236 | a set is pulled iff some whitelisted event of some fetched tournament yields it |
| Ingestion.MergeSets | dump.py:235-236 | the sets of one event's fetch are stored by id, the last one with an id winning |
| Ingestion.IngestEvents | dump.py:231-236 | the event loop adds every event name and stores by id the sets of exactly the whitelisted events |
| Ingestion.Ingest | dump.py:227-236 | tournaments are stored by id (last wins); `event_names` is every event name seen; `sets` stores by id every set pulled from whitelisted events, in fetch order |
| Ingestion.Dump | dump.py:212-236 | the whole run: fetch the tournaments, then ingest them with the five whitelisted event names |
| Ordering.Replayable | skill.py:33 | the result holds exactly the sets with a completion time |
| Ordering.ReplayableKeepsOrder | skill.py:33 | dropping the sets without a completion time keeps the order of those completed at any given time |
| Ordering.SortByCompletion | skill.py:32-35 | the result is a permutation of the input in non-decreasing completion time |
| Ordering.SortStable | skill.py:32-35 | the sort is stable: sets completed at the same time keep their input order |
| Ordering.ReplayOrderSpec | skill.py:32-35 | the replay order holds each completed set as often as the input does, no other set, in non-decreasing completion time, with ties in input order |
| RatingEngine.NewPlayerCounters | skill.py:11-19 | a player looked up for the first time has no sets, no wins and the default rating |
| RatingEngine.IdsMembers | skill.py:51-57 | an id is a key of `players_map` iff some participant of the entrant has it |
| RatingEngine.TouchAll | skill.py:51-56 | visiting the participants adds exactly their ids to the registry |
| RatingEngine.TouchAllKeeps | skill.py:51-56 | visiting the participants changes only their prefix and tag and leaves every other entry as it was; the values written are stated by `TouchAllValue` |
| RatingEngine.TouchAllValue | skill.py:51-56 | a touched entry carries the prefix and gamer tag of the last participant with that id |
| RatingEngine.LabelNames | skill.py:59-60 | only names change: when the entrant's participants have a single id, that id's entry gets the entrant's name, and no other name changes |
| RatingEngine.VisitEntrantWrites | skill.py:48-60 | after visiting an entrant, a participant's entry has the prefix and tag of the last participant with its id, and the entrant's name if the entrant has one id, else its previous name |
| RatingEngine.TeamRatings | skill.py:50-58 | the team contributed by an entrant holds exactly its participants' ids |
| RatingEngine.VisitEntrantKeeps | skill.py:48-60 | visiting an entrant creates its participants' entries, changes only their prefix, tag and name, and leaves the rest of the registry as it was |
| RatingEngine.TouchParticipants | skill.py:51-58 | the participants loop computes the touched registry, the team's ratings as they stood before the set, and the ids of `players_map` |
| RatingEngine.VisitParticipants | skill.py:48-60 | one entrant's visit computes `VisitEntrant`, whose writes (prefix, tag, and the name of a single-id entrant) are stated by `VisitEntrantWrites` |
| RatingEngine.Standings | skill.py:44-47 | the slot loop visits the standings of a prefix of the slots, stopping at the first slot without a standing |
| RatingEngine.Collect | skill.py:44-65 | the slot loop collects one team and one score per visited standing |
| RatingEngine.CollectShape | skill.py:58-63 | the i-th score is the i-th standing's score, and the i-th team holds exactly the ids of its entrant's participants |
| RatingEngine.CollectKeys | skill.py:44-58 | the slot loop creates exactly the entries of the visited participants |
| RatingEngine.CollectKeepsScores | skill.py:44-65 | the slot loop changes no rating, no set count and no win count |
| RatingEngine.CollectUntouched | skill.py:44-65 | an existing player who took no part in the set is left exactly as they were by the slot loop |
| RatingEngine.CollectSlots | skill.py:44-65 | the slot loop with its `break` computes the collected teams, scores and winners |
| RatingEngine.WinnersNone | skill.py:43-65 | when no visited entrant is the declared winner, nobody counts as a winner |
| RatingEngine.WinnersLast | skill.py:64-65 | otherwise the winners are the participants of the last visited entrant whose id is the declared winner id |
| RatingEngine.Ranks | skill.py:67 | the ranks are the scores negated, one per score |
| RatingEngine.CommitTeam | skill.py:70-75 | the commit of one team gives each of its ids the new rating, one more set and one more win when a winner |
| RatingEngine.CommitRatings | skill.py:69-75 | the commit loops apply the updated teams in order |
| RatingEngine.CommitCounters | skill.py:69-75 | the commit adds one set per updated team holding the player, one win per such team when the player is a winner, and leaves a player in no team untouched |
| RatingEngine.SameShapeOccurrences | skill.py:68-70 | an update that keeps each team's ids puts every player in as many teams as before |
| RatingEngine.CollectOccurrences | skill.py:51-63 | a player is in as many collected teams as there are visited entrants including them |
| RatingEngine.ReplaySet | skill.py:36-75 | the loop body for one set computes `Step` |
| RatingEngine.StepFailsIffNotTwoSlots | skill.py:37 | over the model's records, which have no null fields, one set raises iff it does not have exactly two slots, whatever its year |
| RatingEngine.OtherYearUnchanged | skill.py:40-42 | a set completed in another year leaves the registry exactly as it was |
| RatingEngine.FirstSlotByeUnchanged | skill.py:44-47 | a set whose first slot has no standing leaves the registry exactly as it was |
| RatingEngine.SecondSlotByeStillRated | skill.py:44-66 | a set whose second slot has no standing is still rated, with the first entrant's team alone |
| RatingEngine.UnratedKeepsScores | skill.py:66 | a set with a null or -1 score changes no rating and no counter, and only creates the entries of its participants |
| RatingEngine.RatedSetCounters | skill.py:66-75 | in a rated set, each player gains one set per entrant including them and as many wins when among the winners; everyone else keeps their rating and counters, and a player outside the set is not created |
| RatingEngine.StepKeepsConsistent | skill.py:66-75 | one set keeps `wins <= sets` for every player |
| RatingEngine.Replay | skill.py:32-75 | the replay steps through the replay order from an empty registry and stops at the first error |
| RatingEngine.ReplayAllStopsAtError | skill.py:37 | once one set raises, the whole replay fails with that error |
| RatingEngine.ReplayFailsIffBadSlots | skill.py:32-37 | over the model's records, which have no null fields, a replay fails iff one of its sets does not have exactly two slots |
| RatingEngine.ReplayKeepsConsistent | skill.py:32-75 | a replay keeps `wins <= sets` for every player |
| RatingEngine.ReplayOutcome | skill.py:32-75 | over the model's records, which have no null fields, replaying a snapshot fails iff some completed set does not have exactly two slots; otherwise every player has `wins <= sets` |
| RatingEngine.OneVsOneCollect | skill.py:44-65 | in a set between two single-player entrants with valid scores, both are collected, the set is rated and the first player is the winner |
| RatingEngine.OneVsOneCounters | skill.py:36-75 | in such a set, both players gain a set and only the winner gains a win |
| RatingEngine.SplitSeries | skill.py:32-75 | two players who each win one of two sets of the current year both end with two sets and one win |
| Leaderboard.RowOf | skill.py:80-91 | a row carries the player's id, prefix, tag, rating and counters, and its win rate times the set count is the win count |
| Leaderboard.WinRateBounds | skill.py:90 | a consistent player's win rate lies between 0 and 1 |
| Leaderboard.Build | skill.py:77-92 | the table lists exactly the players with a non-zero set count, once each, and every win rate lies between 0 and 1 when the registry is consistent |
| Leaderboard.SortByExpose | skill.py:93 | the sorted table is a permutation of the rows in non-decreasing exposure, with ties in input order (`SortByExposeStable`) |
| Leaderboard.SortByExposeStable | skill.py:93 | the sort is stable: rows of equal exposure keep their order |
| Leaderboard.SortByExposeDistinct | skill.py:93 | sorting a table whose ids are distinct keeps them distinct |
| Leaderboard.Table | skill.py:77-93 | the printed table holds exactly the rows of the players who played a rated set, once each, ordered by exposure |

## Left out

- The HTTP query, its retry and backoff policy, the rate limiter, `on_backoff` and reading the API key are not modelled. They are I/O. A page source stands in for the server.
- The GraphQL query texts and their variables are not modelled. These are the per-page sizes 32 and 200, the coordinates, the radius, the game id, the owner id and the name filter. They only shape what the server returns, and the page source is arbitrary.
- `find_onlynoobs` is the same page loop as `find_nightclubs` and is covered by `Pagination.FetchAll`. The ingestion run calls `find_nightclubs`.
- Pagination.FetchAll: it requires the loop to end on the given source. A source on which it never ends is characterised by `EmptyPagesNeverStop` instead.
- Python generators are lazy: fetching and storing are interleaved in the scripts. The model fetches a whole stream, then stores it. Nothing in between observes the difference.
- Printing, writing `onlynoobs.json` and reading it back, and `tabulate` are not modelled. `skill.py` receives the stored sets as a sequence in the snapshot's order.
- `datetime.fromtimestamp` and `datetime.now` are not modelled. They are the parameters `yearOf` and `currentYear`.
- The TrueSkill mathematics (`trueskill.Rating`, `trueskill.rate`, `trueskill.expose`, `mu`, `sigma`) is not modelled. The rating is an abstract type and the update a parameter. `rate` is total in the model: its own input checks, such as a single team, are not modelled. Counter lemmas assume only that the update keeps each team's ids.
- Null fields that the scripts dereference unchecked are not modelled. These are a standing's `entrant` (skill.py:48), a participant's `player` (skill.py:52-53), a standing's `stats` object and the `score` object inside it (skill.py:61; a null `value` is modelled as `None`), a set's `slots` (skill.py:37) and a tournament's `events` (dump.py:231). The script raises `TypeError` when one of them is null. The record types here make these fields non-null. `StepFailsIffNotTwoSlots`, `ReplayFailsIffBadSlots` and `ReplayOutcome` hold only for such well-shaped records.
- `query` sends the name `apikey` (dump.py:145), but the module binds `APIKEY` (dump.py:12). As written, every request raises `NameError`. That exception is not among those retried (dump.py:132-137), so the ingestion run stops at its first page request. The model takes the request to succeed: the page source stands for what a working request returns.
- `get_players` is never called and is not modelled.
- Players are values inside the registry map rather than shared objects. `winners` is only consulted by key, so the aliasing in the script cannot be observed.
- Leaderboard.Table: the order of rows with equal exposure is left unspecified. The sort is stable (`SortByExposeStable`), but the order it keeps is the registry's insertion order, which a Dafny map does not keep.
- Leaderboard.RowOf: the win rate is an exact rational, not a floating-point quotient.
- `testy.py` is not part of this model.
