# SaltwaterBot match engine, modelled in Dafny

SaltwaterBot keeps statistics for a league's Overwatch matches. This project models the part of `functions.go` that does the arithmetic.

- **Match-log reader (`readFile` and its helpers).** A log is a sequence of lines, ten per reporting tick, one per player slot. Each line exposes its comma-separated columns: name, hero, ten cumulative stat counters and team. A tick's first line carries a `[H:MM:SS]` timestamp.
  - The first ten lines name the ten slots.
  - Each tick is classified as live or setup by its clock. A live tick adds five seconds of playtime.
  - Setup lines are kept as each slot's previous line.
  - A live line after the first ten credits the counters' movement since the slot's previous line to the hero the player is on.
  - At the end, the last ten lines give each player's match totals verbatim.
- **Leaderboards.** `sortDictsIntoArrays` picks the top ten of each category map by repeatedly extracting a maximum. `generalLeaderboardRanks` finds a player's place on each board. The per-category fill loops (`putPlayerStatsInDicts`, `putPlayerHeroStatsInMaps`) store per-10-minute rates. The 30-minute and 10-minute playtime gates decide who is eligible.
- **Smaller helpers.** This covers the hero alias table, the player comparison (`playerStatsDifference`), per-10-minute normalisation (`calcStatsP10`), and the win/loss/draw tallies of `getTeamMapStats` and `getTeamStats`.

Modules:

- `Text` (text.dfy): `strings.Split`, `strings.ReplaceAll` on one character, `strconv.Atoi` and `strconv.ParseFloat` on the forms the logs use.
- `Stats` (stats.dfy): the records of types.go, stat-line arithmetic, normalisation and the playtime gates.
- `Heroes` (heroes.dfy): the hero roster and the alias table.
- `Slices` (slices.dfy): `findIndexInSlice`.
- `MatchLog` (matchlog.dfy): the reader.
  - It is first defined as functions: `ReadLine` is one pass of the scanner loop and `ReadPrefix` is the loop over the first n lines. The lemmas are proved against these.
  - It is then written as the source's imperative loops over two fixed ten-slot arrays (`ScanLine`, `ScanLines`, `FinishMatch`, `ReadFile`). These methods are proved equal to the functions.
- `Leaderboard` (leaderboard.dfy): top-ten extraction, rank lookup and the rate fill.
- `Teams` (teams.dfy): the team tallies, as folds over the query's rows, together with the source's loops.

Where the source talks to the database, the query result is a parameter:

- a number;
- `Option`, for a query that can fail;
- or a sequence of `Option` rows, where the first `None` is the row whose scan failed.

Go maps the source changes in place are passed in and returned as values.

## Model

| member | source | states |
|---|---|---|
| Text.Split | functions.go:1405-1408 | Go's `strings.Split` on one character: always at least one part; with `JoinSplit`, `SplitJoin` and `SplitPiecesFree` below, the parts are the separator-free pieces that join back to the text. |
| Text.JoinSplit | functions.go:1382-1383 | Splitting at a separator loses nothing: joining the parts with the separator gives back the line. |
| Text.SplitJoin | functions.go:1405-1408 | Parts free of the separator, once joined, split back into exactly those parts. |
| Text.SplitFirst | functions.go:1405 | Splitting `a + sep + b`, with no separator in `a`, gives `a` followed by the parts of `b`. |
| Text.RemoveAll | functions.go:1406-1407 | Removing every copy of a character leaves none of it and never lengthens the text. |
| Text.RemoveAllKeeps | functions.go:1406-1407 | Every other character is kept, and no character is added. |
| Text.SplitPiecesFree | functions.go:1382-1383 | No part of a split contains the separator. |
| Text.RemoveAllConcat | functions.go:1406-1407 | Character removal distributes over concatenation. |
| Text.Atoi | functions.go:1410-1411 | Text that is not an optionally signed digit string reads as 0; the error is ignored. |
| Text.AtoiDecimal | functions.go:1410-1411 | The decimal rendering of n reads back as n, and with a leading `-` as -n. |
| Text.ParseNum | functions.go:1397 | Text that is not a decimal numeral (an optional sign, then digits with at most one point and at least one digit) reads as 0: the parse error is ignored. |
| Text.ParseNumValue | functions.go:1397 | A numeral reads as its unsigned value, negated after a leading `-`. |
| Text.ParseNumRejects | functions.go:1397 | `abc`, a bare `-`, a lone `.` and `1.2.3` each read as 0. |
| Text.ParseNumAtoi | functions.go:1397 | An integer numeral reads as a float with the same value `Atoi` gives it. |
| Text.ParseNumDecimal | functions.go:1397 | The decimal rendering of n, with or without a minus sign, reads back as n or -n. |
| Text.ParseNumUnsigned | functions.go:1397 | An unsigned decimal that starts with a digit reads as its decimal value. |
| Text.ParseNumFraction | functions.go:1397 | `i.f` reads as i plus the fraction's digits over the matching power of ten. |
| Stats.AddHeroStats | functions.go:1363-1378 | Every category of the hero entry grows by the delta's category; the hero name and time stay as they were. |
| Stats.AddSub | functions.go:1380-1390 | Subtraction is the inverse of the per-category addition, in both orders. |
| Stats.DeltasTelescope | functions.go:1342-1347 | An identity of stat-line arithmetic: adding b−a and then c−b adds the same as adding c−a once. |
| Stats.PlayerStatsDifference | functions.go:862-878 | Each category is the first player's value minus the second's, so adding it to the second player's line gives the first's. |
| Stats.Per10 | functions.go:710 | The rate times the duration equals the total times 600 s. |
| Stats.Per10ScaleInvariant | functions.go:710 | Scaling the total and the duration by the same factor leaves the rate unchanged. |
| Stats.Per10Basis | functions.go:710 | Over exactly 600 s the rate is the total, and over a common duration rates are ordered as the totals are. |
| Stats.CalcStatsP10 | functions.go:1044-1058 | Every category becomes its per-10-minute rate over the player's duration; name, team, duration and heroes are kept. |
| Stats.HasGeneralPlaytime | functions.go:718-732 | `check30MinutesTotalPlaytime` on the summed playtime the query read; its thresholds, failure case and monotonicity are stated by `PlaytimeGates`. |
| Stats.HasHeroPlaytime | functions.go:535-549 | `check10MinutesHeroPlaytime` on the hero playtime the query read; its threshold, failure case and monotonicity are stated by `PlaytimeGates`. |
| Stats.PlaytimeGates | functions.go:535-549 | The general gate admits exactly from 1800 s and the hero gate exactly from 600 s. A failed query is refused. Both gates are monotone in playtime. |
| Heroes.HandleWeirdHeroNames | functions.go:764-789 | The alias table; by `AliasesResolveIntoRoster`, `ResolvedNames` and `HandleWeirdHeroNamesIdempotent`, every alias goes to a roster hero, other text is unchanged, and resolving is idempotent. |
| Heroes.AliasesResolveIntoRoster | functions.go:764-789 | Every alias is rewritten to a hero on the roster, and any other text is returned unchanged. |
| Heroes.AliasResolved | functions.go:764-789 | Every alias is rewritten to one of the seven resolved names. |
| Heroes.ResolvedInRoster | functions.go:764-789 | The seven resolved names are roster heroes, and none of them is itself an alias. |
| Heroes.ResolvedReached | functions.go:764-789 | Each resolved name is what some alias is rewritten to. |
| Heroes.ResolvedNames | functions.go:764-789 | `HandleWeirdHeroNames` maps the aliases onto exactly the resolved names: every alias lands on one and each one is reached. Those names are roster heroes and none of them is an alias. |
| Heroes.HandleWeirdHeroNamesIdempotent | functions.go:764-789 | Resolving a name twice gives the same result as resolving it once. |
| Slices.FindIndexInSlice | functions.go:1431-1438 | The result is −1 exactly when the item is absent. Otherwise the item is at that index and appears nowhere before it. |
| Slices.FindIndexUnique | functions.go:1431-1438 | Any index holding the item with no earlier copy is the index the search returns. |
| Slices.FindIndex | functions.go:1431-1438 | The scan that stops at the first equal element returns the first-occurrence index. |
| MatchLog.StringStatsToFloatStats | functions.go:1392-1401 | Category k is column 3+k as a number, 0 when the column does not parse. |
| MatchLog.SubtractStats | functions.go:1380-1390 | Category k is the new line's column 3+k minus the old line's, so adding the delta to the old line's counters gives the new line's. |
| MatchLog.GetCurrentSeconds | functions.go:1403-1414 | `getCurrentSeconds`; `TimestampSeconds` states its value on a `[h:m:s]` line: m·60 + s, with the hour ignored. |
| MatchLog.TimestampSeconds | functions.go:1403-1414 | A line starting `[h:m:s]` followed by a space or the end of the line reads as m·60 + s; the hour is ignored. |
| MatchLog.GetPlayerNames | functions.go:1324-1330 | Line number c (from 1 to 10) names slot c−1 with its second column; every other slot is unchanged. |
| MatchLog.Store | functions.go:1260-1265 | The write-back after `getHeroStats` keeps every slot's name. |
| MatchLog.CreditKnownHero | functions.go:1342-1349 | A hero entry that already exists gains exactly 5 s and the delta in each category. No other entry and no other player field changes. |
| MatchLog.CreditHero | functions.go:1343-1353 | `getHeroStats`'s search of the player's hero list; `CreditKnownHero` states the existing-entry case (+5 s and the delta on that entry only), `FirstSightOfHero` the append of a zero entry, and `CreditHeroLoop` is proved to compute it. |
| MatchLog.HeroTick | functions.go:1332-1361 | `getHeroStats` as a function; its cases are stated by `AttributionToKnownHero`, `FirstSightOfHero` and `UnknownPlayerLine`, and `GetHeroStats` is proved to compute it. |
| MatchLog.AttributionToKnownHero | functions.go:1332-1361 | For a known player already on that hero, the entry gains exactly 5 s and, in each category, the current column minus the slot's previous column. No other entry or player field changes, and the slot's previous line becomes this line. |
| MatchLog.ConsecutiveTicks | functions.go:1256-1268 | The same known player's lines, on a hero with an entry, in two consecutive live ticks (the same slot position, ten lines apart), each passed through `HeroTick` and written back with `Store`: the entry gains 10 s and, in each category, the movement from the slot's previous line to the second line. The per-tick deltas add up to the counters' total movement. |
| MatchLog.FirstSightOfHero | functions.go:1351-1358 | A hero seen for the first time is appended with zero time and zero stats. The tick's delta is dropped and the slot's previous line becomes this line. |
| MatchLog.UnknownPlayerLine | functions.go:1337-1360 | A line whose name no slot holds returns the last slot's record and the previous lines untouched. |
| MatchLog.LiveLineUpdate | functions.go:1256-1268 | On a live line after the first ten, the returned record goes into the line's player's slot only, and the previous lines are those `getHeroStats` returns. With distinct names, an unknown name changes no player and no previous line. |
| MatchLog.ReadLine | functions.go:1233-1269 | One pass of the scanner loop as a function; `ReadLineEffect`, `PhaseStep` and `ReadPrefix` state what it does to the reader, and `ScanLine` is proved to compute it. |
| MatchLog.ReadPrefix | functions.go:1233-1269 | After n lines the slots carry the names of the first ten lines. The clock and phase are those of the latest tick. Every slot's previous line is empty or a stat line. When the first tick is setup, every slot its lines have reached holds a stat line, and likewise for the second tick. |
| MatchLog.PhaseStep | functions.go:1241-1250 | After line n the stored clock is the header of tick n/10, read on every header whether live or not. The setup flag is set exactly when that tick is not live. |
| MatchLog.PhaseAfter | functions.go:1241-1250 | The clock and phase rule applied at a tick's first line. `HeaderPhase` states that the clock becomes that line's seconds and that setup holds exactly when it is over 10 s past the previous clock; `PhaseStep` and `PhaseTime` state the result along the log (clock of tick n/10, setup exactly when the tick is not live, +5 s exactly on a live header). |
| MatchLog.HeaderPhase | functions.go:1241-1250 | At a tick's first line the clock becomes that line's seconds, and setup holds exactly when they are over 10 s past the previous clock. |
| MatchLog.PhaseTime | functions.go:1241-1249 | Line n adds 5 s to the playtime exactly when it is the first line of a live tick, and nothing otherwise. |
| MatchLog.TotalTimeCountsLiveTicks | functions.go:1241-1250 | The total playtime after n lines is 5 s times the number of live headers among them. |
| MatchLog.CleanLogTime | functions.go:1241-1250 | When the first tick is setup and every later tick is at most 10 s after its predecessor, n lines count (n−1)/10 live ticks. |
| MatchLog.SlotReady | functions.go:1252-1258 | On a well-formed log, every live line after the first ten finds a stat line as its slot's previous line, so nothing indexes out of range. |
| MatchLog.GetEndOfGamePlayerStats | functions.go:1293-1322 | The returned record always carries the name of some slot. |
| MatchLog.FinishLines | functions.go:1274-1281 | The end-of-match pass keeps the slot names. |
| MatchLog.Spread | functions.go:1276-1280 | The write-back without `break`: every slot holding the record's name takes it, every other slot is unchanged; `FinishStep` states its effect per final line and `SpreadPlayer` is proved to compute it. |
| MatchLog.UnmatchedFinalLine | functions.go:1293-1322 | With distinct slot names, a final line naming no slot changes no player. |
| MatchLog.FinalRecord | functions.go:1301-1316 | The record a matching final line yields; `FinalRecordOverrides` and `FinalFields` state that it takes columns 3–12, the team and the playtime and keeps the name and heroes. |
| MatchLog.FinalRecordOverrides | functions.go:1301-1316 | A later final line for a player replaces an earlier one's totals, team and duration entirely. |
| MatchLog.FinishStep | functions.go:1271-1281 | One more final line, with distinct slot names, rewrites exactly the slot that holds its name. |
| MatchLog.FinalTotals | functions.go:1271-1281 | Each slot ends up as the last final line naming it made it (that line's columns 3–12 verbatim, its team and the playtime) or unchanged if no final line names it. |
| MatchLog.FinalFields | functions.go:1271-1281 | After the end-of-match pass, names and heroes are kept. A named slot's totals and team are the last such line's columns, and its duration is the match playtime. |
| MatchLog.ReadFileTotals | functions.go:1209-1291 | For ten distinct names in the first ten lines, slot k is line k's player and keeps the heroes the live ticks credited. A slot named in the last ten lines takes that line's totals and team verbatim, with 5 s per live tick as its duration. |
| MatchLog.RosterNames | functions.go:1237-1239 | After all lines, slot k carries line k's name; the slot names are distinct when those ten lines name distinct players. |
| MatchLog.GetHeroStats | functions.go:1332-1361 | The search loops return exactly the record and previous lines that `HeroTick` specifies. |
| MatchLog.CreditHeroLoop | functions.go:1342-1355 | The hero search loop, stopping at the first entry for the hero, computes `CreditHero`. |
| MatchLog.StorePlayer | functions.go:1260-1265 | The array write-back with `break` writes the first slot of that name and nothing else. |
| MatchLog.SpreadPlayer | functions.go:1276-1280 | The array write-back without `break` writes every slot of that name. |
| MatchLog.EndOfGameLoop | functions.go:1293-1322 | The search loop returns the first slot of the line's name with the line's totals, or the last slot when no slot matches. |
| MatchLog.LiveLine | functions.go:1256-1268 | A live line on the arrays: the player array becomes `Store` of `getHeroStats`'s record, and the previous lines become the ones it returns. |
| MatchLog.ScanLine | functions.go:1234-1268 | One pass of the scanner loop over the arrays and scalars computes `ReadLine`. |
| MatchLog.ReadPrefixStep | functions.go:1233-1269 | Each further line can be read without panicking and takes the reader after n lines to the reader after n+1 lines. |
| MatchLog.ScanLines | functions.go:1229-1269 | Run over all lines on fresh buffers, the scanner loop leaves the arrays and the total as `ReadPrefix` describes. |
| MatchLog.FinishMatch | functions.go:1271-1281 | The end-of-match loop over the last ten lines computes `FinishLines`. |
| MatchLog.ReadFile | functions.go:1209-1291 | Returns the players after the scanner loop and the end-of-match pass, with a map playtime of 5 s per live tick. With distinct first-ten names it also guarantees the verbatim passthrough of the last lines' totals, team and duration. |
| Leaderboard.ExtractMax | functions.go:669-684 | The strict-greater scan from 0.0 returns a positive maximum of the map when one exists, and `""` otherwise, whatever the iteration order. |
| Leaderboard.RankedStart | functions.go:661-665 | The empty board before any round already meets the ranked-board invariant described for `SortCategory`. |
| Leaderboard.RankedStep | functions.go:667-685 | One round, which lists the winner when there is one and deletes it from the map (even `""`), keeps the ranked-board invariant. |
| Leaderboard.SortCategory | functions.go:663-686 | Ten rounds leave a board with these properties. (1) At most ten names, all distinct, all positive in the original map. (2) Values are non-increasing and each is at least every value left in the map. (3) The map loses exactly the listed names, plus `""` on a short board. (4) A short board means nothing positive remains when `""` is not positive. |
| Leaderboard.SortDictsIntoArrays | functions.go:657-689 | Each of the first ten category maps yields a board ranked as above, plus the map with its listed players deleted. Maps past the tenth are untouched. |
| Leaderboard.UnlistedBelowBoard | functions.go:657-689 | Without a `""` key, a positive player left off a board means the board is full and scores at least as high as that player. |
| Leaderboard.GeneralLeaderboardRanks | functions.go:634-655 | There is one rank per leaderboard, equal to the 1-based first-occurrence index, or 0. |
| Leaderboard.RankMeaning | functions.go:634-655 | A rank is 0 exactly when the player is not on the board. Otherwise the player is at that place and at no earlier one. |
| Leaderboard.FirstFailure | functions.go:703-708 | Names the first category whose query failed: every earlier query succeeded. |
| Leaderboard.PutPlayerRates | functions.go:691-716 | Each category map before the first failed query gets the player's rate `total/duration*600`; the later maps are unchanged. The result is reported as success exactly when no query failed. |
| Teams.OutcomeOf | functions.go:280-286 | A winner `"draw"` is a draw, checked before the team name. The team's own name is a win. Anything else is a loss. |
| Teams.TallyWinners | functions.go:272-288 | `getTeamMapStats`'s tally as a fold; the team is kept, and `TallyWinnersCounts` states each total's exact growth. |
| Teams.TallyWinnersCounts | functions.go:272-288 | Each team total grows by exactly the number of rows with that outcome; the team and the per-map list are unchanged. |
| Teams.CountsPartition | functions.go:280-286 | Every row is exactly one of win, loss and draw. |
| Teams.GetTeamMapStats | functions.go:257-291 | The result is the tally of the rows read before a failed scan. It is reported as success exactly when every row was read. |
| Teams.AddRow | functions.go:318-352 | One row of `getTeamStats` as a function; `AddRowConsistent`, `AddRowDistinct` and `AddRowTotals` state its effect, and `TeamRow` is proved to compute it. |
| Teams.AddRowConsistent | functions.go:311-354 | One row keeps the team totals equal to the sums over the per-map records, given distinct map names. |
| Teams.AddRowDistinct | functions.go:340-352 | A record is appended only for a map with no record, so map names stay distinct and the row's map has a record afterwards. |
| Teams.AddRowTotals | functions.go:311-354 | With distinct names, one row adds exactly one to the total for its outcome. |
| Teams.TeamRowsConsistent | functions.go:311-354 | Starting from distinct names and agreeing totals, the names stay distinct and the totals keep equalling the per-map sums over all rows. |
| Teams.TeamRows | functions.go:311-354 | `getTeamStats`'s loop over the rows as a fold of `AddRow`; `TeamRowsConsistent`, `TeamRowsTotals`, `TeamRowsPresent` and `TeamRowsDistinct` state what it keeps and how the totals grow. |
| Teams.TeamRowsTotals | functions.go:311-354 | Starting from distinct names, each team total grows by exactly the number of rows with that outcome. |
| Teams.TeamRowsPresent | functions.go:311-354 | After the rows, every row's map has a record. |
| Teams.AddRowKeepsNames | functions.go:318-352 | A map that has a record keeps it after one more row. |
| Teams.TeamRowsDistinct | functions.go:340-352 | Map names stay distinct over all rows, and the team is kept. |
| Teams.TeamRow | functions.go:318-352 | The inner loop, which bumps every record of the map without `break` and then appends a record when none was found, computes `AddRow`. |
| Teams.GetTeamStats | functions.go:293-357 | The result is the fold of `AddRow` over the rows read before a failed scan. It is reported as success exactly when every row was read. |

## Behaviour of the code worth noting

- **Tick length and continuity rule.** Every live tick adds exactly 5 s. A tick is live when its clock is at most 10 s past the previous header's clock; for the first header, the comparison is with 0 (`PhaseStep`, `TotalTimeCountsLiveTicks`).
- **Timestamp.** Only minutes·60 + seconds is read; the hour is ignored (`TimestampSeconds`).
- **A hero's first tick.** When a hero has no entry yet, a zero entry is appended, and that tick's delta and time are dropped (`FirstSightOfHero`).
- **Unknown names.** For a name no slot holds, both `getHeroStats` and `getEndOfGamePlayerStats` hand back the last slot's record, which is then written into the first slot of that name (`getHeroStats`) or into every slot of it (`getEndOfGamePlayerStats`). This changes nothing when the slot names are distinct (`UnmatchedFinalLine`, `LiveLineUpdate`), and more generally when no other slot holds the last slot's name. With a repeated name the last slot's record can be copied into an earlier slot (`UnknownPlayerLine` states the record handed back).
- **Ties.** Among equal maxima, `sortDictsIntoArrays` takes whichever Go's randomised map iteration reaches first, so `ExtractMax` may pick any maximal entry.
- **Deletion in `sortDictsIntoArrays`.** The round's winner is deleted even when it is the `""` sentinel, so a positive `""` entry is removed without being listed (`RankedStep`).

## Left out

- File access and the scanner's error (functions.go:1217-1227, 1285-1288). The log is given as its lines, and `ReadFile` has no error result.
- MatchLog.ReadFile: requires `MatchLogOk`: at least ten lines, at least fourteen columns on every line, a three-part timestamp on every tick's first line, and a setup tick among the first two ticks when there are more than ten lines. This is sufficient for the code to run without a runtime panic, but not necessary. It also excludes logs the code reads to the end, such as a live line after the first ten with fewer than fourteen columns whose name no slot holds (only its name and hero are read), or a log whose first two ticks are both live when no later live line names a slot. The model says nothing about those logs, and a panic is not modelled.
- All SQL: connecting, the queries, `createMap`, `saveStatsToDB` with its "accumulate" UPDATE, `getPlayerStats`, `getTop3Heroes`, `getPlayerTeam` and `getPlayerHeroStats`. The statements' semantics belong to the database; query results enter the model as parameters.
- The gin HTTP handlers (functions.go:17-255, handlers.go, main.go), the JSON save and load of the leaderboards (functions.go:473-508, 597-632), and the `calculate*Leaderboards` drivers that wire queries and files together (functions.go:404-471, 551-595). These are I/O plumbing.
- Message formatting (`formatTeamStatsMessage`, `formatCompareMessage`, `formatPlayerStatsMessage`, `capitalizeFirstLetterOfEachWord`). This is string rendering of floats.
- bot.js (a Discord client), groups.py (a random draw) and structs.go (an older copy of the records in types.go).
- Floating point. Stats are exact reals: there is no rounding, NaN or infinity. `Stats.Per10`, `Stats.CalcStatsP10` and `Leaderboard.PutPlayerRates` (for every query that succeeds) require a positive duration, where Go would divide by zero. For the rate fills the callers guarantee it: `check30MinutesTotalPlaytime` and `check10MinutesHeroPlaytime` gate them on the same playtime sums, at least 1800 s and 600 s (functions.go:446-452, 575-581); the model leaves that caller-side link to the precondition.
- Text.ParseNum: reads an optional sign, digits and an optional fraction, and anything else reads as 0. It does not model `ParseFloat`'s exponents, hexadecimal floats, underscores, `inf`/`nan`, or its range errors.
- Text.Atoi: does not model the out-of-range error for numerals beyond 64 bits.
- Go slice aliasing. `getHeroStats` updates `player.Heroes[j]` through a slice that shares its backing array with `players[i].Heroes`. With distinct slot names, the record is written back into that same slot straight after, so treating records as values gives the same result. With a repeated slot name it does not: a line naming no slot copies `players[9]` into an earlier slot j of the same name (functions.go:1260-1265, 1360), and the two slots then share one hero array. A later live line for that name updates the entry in place through slot j (functions.go:1346-1347), and in Go this also changes `players[9]`. The model's `HeroTick` and `Store` leave `players[9]` as it was.
- Leaderboard.UnlistedBelowBoard: it and the "short board" promise of `Leaderboard.SortCategory` assume no `""` key with a positive value. A `""` key is deleted without being listed (see above).
- MatchLog.UnknownPlayerLine: states the source's return value. That a line naming nobody leaves the state unchanged (`MatchLog.LiveLineUpdate`, `MatchLog.UnmatchedFinalLine`) is proved only for distinct slot names; with a repeated name, the Go code can copy the last slot's record into an earlier slot.
