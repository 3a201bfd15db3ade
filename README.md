# Fantasy rugby stats dashboard — a verified model of its data and selection logic

The dashboard follows players of the Six Nations through a fantasy season.
Everything it computes lives in a small data and query layer, plus a few
selection and classification rules in its page and card components. This
project models those parts in Dafny and proves what they promise.

- **MockData** (`mock_data.dfy`) holds the query layer. It has:
  - the six teams, the 15 seed games and the 12 seed players;
  - the load-time loop that synthesizes one statistics record per player and
    completed game of the player's team;
  - the five read-only queries: a player's timeline, the top five by points,
    the biggest cost risers and fallers, and the per-team totals with rounded
    averages.
- **IndexPage** (`index_page.dfy`) holds the page state. A `Dashboard` object
  holds the selected teams, which a click toggles without ever emptying them.
  The player list is filtered by team and by a case-insensitive search over
  name and position.
- **PlayerCard** (`player_card.dfy`) holds the card's classification rules:
  the up/flat/down trend icons, the colour of each form score, and the signed
  change labels.
- **StatsSummary** (`stats_summary.dfy`) holds the team table: one row per
  team, sorted by average points with the highest first.
- Three helper modules support these:
  - **StableSort** (`stable_sort.dfy`) models the stable `Array.prototype.sort`
    with a numeric comparator, and `slice(0, 5)` after it. It also defines the
    subsequence relation that every `filter` result has to its input.
  - **Text** (`text.dfy`) models `toLowerCase`, `includes`, `String(n)` and
    `toFixed(1)`.
  - **Options** (`options.dfy`) holds the `Option` type.

Modelling choices:

- **Costs.** Costs and cost changes are whole tenths of a million, so 10.2 is
  `102` and the icon threshold 0.1 is `1`.
- **Dates.** Dates are the integer `YYYYMMDD`, which orders games the same way
  as the timestamps the source compares.
- **Randomness.** `Math.random` becomes a parameter `rng: nat -> RandomDraw`.
  The k-th record pushed consumes draw `k`. Each draw's scaled values are
  constrained to the ranges the source's expressions produce.
- **Sorting.** JavaScript's sort is stable, and the model sorts by insertion.
  `StableSort.StableSortUnique` proves that any sorted, stable rearrangement
  is this same sequence.
- **Module state.** The source's module-level arrays are values passed to each
  query, so no query can change them.

## Model

| member | source | states |
|---|---|---|
| MockData.EveryTeamListed | src/utils/mockData.ts:16 | the six-team list holds every team exactly once |
| MockData.SeedWellFormed | src/utils/mockData.ts:51-323 | the seed players have distinct ids, the seed games have distinct ids, and no seed game pits a team against itself |
| MockData.OmittedScoreCountsAsCompleted | src/utils/mockData.ts:330 | a game whose score is left out passes the `homeScore !== null` test as written, yet it has no score |
| MockData.SeedScoresWrittenOut | src/utils/mockData.ts:51-187 | every seed game writes its score out, as a number or `null`, so on the seed the written test and the corrected one agree |
| MockData.CompletedGames | src/utils/mockData.ts:330 | the completed games are the listed games that have a score, each as often as listed and in list order; distinct ids stay distinct |
| MockData.MakeStat | src/utils/mockData.ts:333-345 | a record carries the player's and the game's ids; points are 5..19, minutes 40..79, tackles 1..12, tries and assists 0 or 1, linebreaks 0..3; the cost lies within -0.8..+0.7 of the player's cost |
| MockData.SynthesizeStats | src/utils/mockData.ts:326-349 | the nested loop pushes, in players-outer and games-inner order, one record per player and completed game of the player's team; the k-th record is built from the k-th draw |
| MockData.StatPairsMembers | src/utils/mockData.ts:329-332 | a (player, game) pair is visited iff the player is listed, the game is completed and the player's team plays in it |
| MockData.PlayerPairsMembers | src/utils/mockData.ts:330-332 | for one player, the inner loop visits exactly the completed games its team plays in |
| MockData.PlayerPairsUnique | src/utils/mockData.ts:330-332 | for one player, the inner loop visits each game at most once |
| MockData.StatPairsUnique | src/utils/mockData.ts:329-332 | with distinct player ids and game ids, no (player id, game id) pair is visited twice |
| MockData.SynthesizedRecordsSound | src/utils/mockData.ts:329-346 | every record belongs to a listed player and a completed game of that player's team, and keeps the stated bounds |
| MockData.SynthesizedRecordsComplete | src/utils/mockData.ts:329-346 | every listed player has a record for every completed game its team played |
| MockData.SynthesizedRecordsUnique | src/utils/mockData.ts:329-346 | with distinct ids there is at most one record per (player id, game id) |
| MockData.NoRecordsForUnplayedGame | src/utils/mockData.ts:330 | a game without a score has no records |
| MockData.FindGame | src/utils/mockData.ts:355-356 | `find` returns the first listed game with the id, or nothing iff no game has it |
| MockData.FindPlayer | src/utils/mockData.ts:367 | `find` returns the first listed player with the id, or nothing iff no player has it |
| MockData.FindGameDistinct | src/utils/mockData.ts:361 | with distinct game ids, `find` by a game's id returns that game |
| MockData.FindPlayerDistinct | src/utils/mockData.ts:367 | with distinct player ids, `find` by a player's id returns that player |
| MockData.PlayerStats | src/utils/mockData.ts:353 | the filtered records are the records of that player id, each as often as stored and in stored order |
| MockData.SortedPlayerStats | src/utils/mockData.ts:354-358 | the player's records rearranged, by non-decreasing game date, with same-date records in stored order |
| MockData.Opponent | src/utils/mockData.ts:367 | the opponent is a team of the game, and not the player's own team when the player is found, plays in the game and the game is two-sided |
| MockData.PerformanceData | src/utils/mockData.ts:352-370 | one point per record of the player, empty iff there are none, by non-decreasing date; each point carries its game's round and date, the record's points and cost, and the opponent |
| MockData.SynthesizedGamesKnown | src/utils/mockData.ts:355-361 | every synthesized record names a listed game, so each `find` in the timeline returns a game |
| MockData.RecordGameOfPlayer | src/utils/mockData.ts:361-367 | under distinct ids, `find` locates the game of each synthesized record of a player, and the player's team plays in it |
| MockData.UnknownPlayerHasEmptyTimeline | src/utils/mockData.ts:352-353 | an id that belongs to no player yields an empty timeline |
| MockData.TimelineOpponents | src/utils/mockData.ts:360-369 | for synthesized records, distinct ids and two-sided games, no timeline point names the player's own team as opponent |
| MockData.TopPerformers | src/utils/mockData.ts:373-377 | min(5, n) players drawn from the list, by non-increasing points; no player left out has more points than the last listed; ties keep list order |
| MockData.BiggestRisers | src/utils/mockData.ts:380-384 | the same top-five contract by cost change, largest first |
| MockData.BiggestFallers | src/utils/mockData.ts:387-391 | the same top-five contract by cost change, smallest first |
| MockData.DistinctIdsSubMultiset | src/utils/mockData.ts:374 | a selection from a copy of players with distinct ids has distinct ids |
| MockData.RankingsListPlayersOnce | src/utils/mockData.ts:373-391 | none of the three rankings lists a player twice |
| MockData.TopPerformerHasMostPoints | src/utils/mockData.ts:373-377 | the first top performer has at least the points of every player |
| MockData.FirstFallerHasLowestChange | src/utils/mockData.ts:387-391 | the first faller has a cost change no larger than any player's |
| MockData.SoleLeaderTops | src/utils/mockData.ts:373-377 | a player with strictly more points than all others heads the top performers |
| MockData.SoleFallerLeads | src/utils/mockData.ts:387-391 | a player with a strictly lower cost change than all others heads the fallers |
| MockData.SeedTopPerformer | src/utils/mockData.ts:213-223 | on the seed, Duhan van der Merwe (id 3, 69 points) tops the points table |
| MockData.SeedBiggestFaller | src/utils/mockData.ts:290-300 | on the seed, Antoine Dupont (id 10, -0.3) has fallen the most |
| MockData.SeedIrishIds | src/utils/mockData.ts:190-323 | the seed's Irish players are ids 1, 7 and 11 |
| MockData.RoundHalfUp | src/utils/mockData.ts:413 | `Math.round(n / d)`: the result is within half of `n / d`, with halves going up |
| MockData.TeamPerformance | src/utils/mockData.ts:394-418 | every team has an entry; its total is the sum of its players' points, its count their number, and its average the rounded quotient, or 0 for no players |
| MockData.SumsStep | src/utils/mockData.ts:404-407 | adding a player changes the sums over distinct teams only through its own team |
| MockData.NoPlayersSumToZero | src/utils/mockData.ts:395-402 | with no players every team starts at zero |
| MockData.TeamCountsCoverPlayers | src/utils/mockData.ts:404-407 | the team counts add up to the number of players, and the team totals to the sum of all points |
| MockData.EmptyTeamIsZero | src/utils/mockData.ts:412-414 | a team without players has zero total and a zero average |
| MockData.SeedTeamTotals | src/utils/mockData.ts:190-323 | on the seed players: England 70 points over 2 (average 35), France 86 over 2 (43), Ireland 159 over 3 (53), Italy 62 over 2 (31), Scotland 114 over 2 (57), Wales 36 over 1 (36) |
| IndexPage.Dashboard.constructor | src/pages/Index.tsx:19 | the page opens with all six teams selected, england, france, ireland, italy, scotland, wales |
| IndexPage.Dashboard.ToggleTeam | src/pages/Index.tsx:44-53 | a click moves the selection to its toggled value and keeps it non-empty and duplicate-free |
| IndexPage.Without | src/pages/Index.tsx:48 | the filtered selection holds exactly the other teams |
| IndexPage.WithoutRemovesOne | src/pages/Index.tsx:48 | filtering out a team that occurs once removes just that position |
| IndexPage.WithoutKeepsAbsent | src/pages/Index.tsx:48 | filtering out an absent team changes nothing |
| IndexPage.WithoutNoDup | src/pages/Index.tsx:48 | filtering keeps a selection duplicate-free |
| IndexPage.ToggledValid | src/pages/Index.tsx:44-53 | every toggle keeps the selection non-empty and duplicate-free |
| IndexPage.ToggleRemovesSelected | src/pages/Index.tsx:45-48 | with more than one team selected, a click on a selected team removes exactly it and keeps the others in order |
| IndexPage.ToggleKeepsLastTeam | src/pages/Index.tsx:46-47 | a click on the only selected team leaves the selection unchanged |
| IndexPage.ToggleTwiceRestores | src/pages/Index.tsx:50-51 | a click on an unselected team appends it, and a second click restores the selection |
| IndexPage.ToggleMembership | src/pages/Index.tsx:44-53 | a click changes the membership of the clicked team only, and of that one unless it is the last team selected |
| IndexPage.FilterPlayers | src/pages/Index.tsx:38-42 | the listed players are those whose team is selected and whose lower-cased name or position contains the lower-cased term, each as often as in the list and in list order |
| IndexPage.EmptyTermFiltersByTeam | src/pages/Index.tsx:39-41 | with an empty search term only the team selection counts |
| IndexPage.InitialFilterListsEveryone | src/pages/Index.tsx:19 | with all teams selected and no term every player is listed, in order |
| IndexPage.SearchIgnoresCase | src/pages/Index.tsx:40-41 | terms that lower-case alike list the same players |
| IndexPage.LowerCaseTermAlike | src/pages/Index.tsx:40-41 | a term and its lower-case form list the same players |
| Text.Lower | src/pages/Index.tsx:40-41 | `toLowerCase` keeps the length and lower-cases each letter |
| Text.LowerIdempotent | src/pages/Index.tsx:40-41 | lower-casing twice is lower-casing once |
| Text.ContainsIff | src/pages/Index.tsx:40-41 | `includes` holds iff the term occurs at some position |
| Text.ContainsEmpty | src/pages/Index.tsx:40-41 | every text includes the empty term |
| Text.IntText | src/components/PlayerCard.tsx:140 | a number's text starts with '-' iff the number is negative, else with a digit |
| Text.TenthsText | src/components/PlayerCard.tsx:158 | a `toFixed(1)` text starts with '-' iff the number is negative, else with a digit |
| Text.ParseNatText | src/components/PlayerCard.tsx:140 | the digits of a natural number read back as that number |
| Text.IntTextRoundTrip | src/components/PlayerCard.tsx:140 | a number's text reads back as the number |
| Text.TenthsTextRoundTrip | src/components/PlayerCard.tsx:158 | a `toFixed(1)` text reads back as the same tenths |
| PlayerCard.CostTrend | src/components/PlayerCard.tsx:23-27 | up iff the change exceeds 0.1, down iff it is below -0.1, flat iff it is in between |
| PlayerCard.PointsTrend | src/components/PlayerCard.tsx:29-33 | up iff the change exceeds 3, down iff it is below -3, flat from -3 to 3 |
| PlayerCard.TrendsMonotone | src/components/PlayerCard.tsx:23-33 | a larger change never shows a lower trend |
| PlayerCard.TrendsSymmetric | src/components/PlayerCard.tsx:23-33 | negating a change swaps up and down |
| PlayerCard.FormBucket | src/components/PlayerCard.tsx:115-117 | green above 15, primary from 9 to 15, red at 8 and below |
| PlayerCard.FormBuckets | src/components/PlayerCard.tsx:110-122 | one colour per form score, in order |
| PlayerCard.FormBucketMonotone | src/components/PlayerCard.tsx:115-117 | a higher score never gets a lower colour |
| PlayerCard.FormBucketsAppend | src/components/PlayerCard.tsx:110 | the colours of two runs of scores are the two runs' colours side by side |
| PlayerCard.PointsChangeLabel | src/components/PlayerCard.tsx:135-141 | no label iff the change is 0; otherwise green with a '+' iff positive, red with a '-' iff negative |
| PlayerCard.CostChangeLabel | src/components/PlayerCard.tsx:153-159 | the same rule for the cost change, written to one decimal place |
| PlayerCard.PointsLabelRoundTrip | src/components/PlayerCard.tsx:140 | a points label reads back as the change |
| PlayerCard.CostLabelRoundTrip | src/components/PlayerCard.tsx:158 | a cost label reads back as the change in tenths |
| PlayerCard.TrendsAgreeWithLabels | src/components/PlayerCard.tsx:23-33 | an up or down icon always has a label of its own colour beside it |
| PlayerCard.FlatIconWithLabel | src/components/PlayerCard.tsx:23-27 | a flat icon sits beside a visible label exactly for a cost change of ±0.1 and a points change of 1 to 3 either way |
| StatsSummary.TeamIndex | src/utils/mockData.ts:395-402 | each team's position among the totals object's keys |
| StatsSummary.TeamRows | src/components/StatsSummary.tsx:34-38 | one row per team, in key order, carrying that team's totals |
| StatsSummary.RowsInKeyOrder | src/components/StatsSummary.tsx:34 | the rows come in the key order england … wales |
| StatsSummary.RearrangedRows | src/components/StatsSummary.tsx:35-38 | any rearrangement of the rows has a row for every team with that team's totals unchanged |
| StatsSummary.TeamRanking | src/components/StatsSummary.tsx:34-39 | six rows, one per team, each with its totals unchanged, by non-increasing average; equal averages keep key order |
| StatsSummary.SeedRanking | src/components/StatsSummary.tsx:39 | on the seed the table reads Scotland 57, Ireland 53, France 43, Wales 36, England 35, Italy 31 |
| StableSort.SortBy | src/utils/mockData.ts:375 | the stable sort returns a rearrangement, sorted by key, that keeps each key's elements in their order |
| StableSort.StableSortUnique | src/utils/mockData.ts:375 | two sorted sequences that agree on each key's order are equal, so the sort's result does not depend on the engine's algorithm |
| StableSort.TopFive | src/utils/mockData.ts:374-376 | the first min(5, n) of the sorted copy: sorted, drawn from the list, nothing left out ranks before the last, ties in list order |
| StableSort.StableKeepsRank | src/components/StatsSummary.tsx:39 | a stable sort keeps equal-key elements in their original order |
| StableSort.NoDupSubMultiset | src/utils/mockData.ts:374-376 | a selection from a duplicate-free list is duplicate-free |

## Left out

- `Math.random` is left out: its unseeded values cannot be reproduced. Each
  draw is a parameter constrained to the range its expression produces.
- The cost jitter of synthesis is left out: floating point with
  `parseFloat(toFixed(1))`. It becomes a whole-tenths draw of 0..15
  subtracted from the cost plus 0.7. The model does not capture how binary
  floating point rounds at the edges.
- The text of `toFixed(1)` for costs in the compact card, and the risers and
  fallers panels, is left out. This is display only.
- `new Date(...).getTime()` is left out. Dates are `YYYYMMDD` integers, which
  order the same way, and the timeline's `date` field is that integer rather
  than the source's string.
- `MockData.PerformanceData` is stated only for records whose game can be
  found. For any other record `find` returns `undefined` (the `!` is a
  compile-time assertion only), and the source then throws a `TypeError` when
  it reads `date` or `round` from it (`src/utils/mockData.ts` lines 357 and 363). The model leaves that
  path out, and
  `MockData.SynthesizedGamesKnown` shows that synthesized records always
  qualify.
- `Text.Lower` folds ASCII letters only. JavaScript's `toLowerCase` also
  folds other Unicode letters.
- The following are UI or browser I/O and are not modelled:
  - React hooks and the loading `setTimeout`;
  - the selected player;
  - framer-motion animations and CSS class strings;
  - the `teamNames` display map;
  - the optional `image` field of a player;
  - PlayerChart, Header and TeamFilter.
- That no query changes `players`, `games` or the statistics is not stated
  as a lemma. It holds by construction, because every query is a function
  over values.

## Findings

| source | as written | input that shows it | evidently intended | confidence | as-written member | corrected member |
|---|---|---|---|---|---|---|
| src/utils/mockData.ts:330 | `game.homeScore !== null` treats a game as completed unless its score is exactly `null`; `homeScore` is optional (line 24), so a game that leaves it out passes | a game object with no `homeScore` key, e.g. a round-6 England v Wales game | only games with a recorded score are completed and get statistics | low: every seed game writes `null` explicitly, so the seed is unaffected (not executed) | MockData.OmittedScoreCountsAsCompleted | MockData.NoRecordsForUnplayedGame |
