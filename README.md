# Football stats: the goal ledger, the tables and the small client-side logic

This project models, in Dafny, the logic at the heart of a small web app for a recreational
football league. Players, matches and goals live in three backend tables. A React frontend
enters matches, shows match and player details, and hands the goals of deleted players back
to real players.

The model has three parts.

- **The goal ledger (frontend).**
  - The match entry form (`MatchForm`) turns per-player scorer lines into team scores. An own
    goal counts for the other team. The form also turns the lines into the flat list of goal
    records it submits, and decides when submission is allowed. Its three state fields
    (`date`, the young lines, the old lines) are a class whose handlers replace them.
  - The match detail dialog (`MatchModal`) splits a match's goals by team.
  - The player detail dialog (`PlayerModal`) groups a player's goals into one summary row per
    match. This is an imperative `forEach` loop over a map.
  - The player list (`PlayerList`) ranks players by their regular goals.
- **The tables (backend).** `Crud.Database` is a class holding the three tables as sequences,
  plus the next id of each. `crud.py`'s operations are its methods.
  - Deleting a player hands its goals to the placeholder player "Unknown Player (Deleted)".
  - `reassign_goals` moves selected goals held by the placeholder to a real player.
  - Module `Api` holds the bodies of the HTTP handlers in `main.py` that change the tables
    themselves: edit and delete a player, empty a table, seed the default squad.
- **Client-side state machines and parsers.**
  - The match table's comparators and sort toggle (`MatchList`).
  - The goal selection of the reassignment dialog (`UnknownPlayerManager`).
  - The backup file name taken from a `Content-Disposition` header (`BackupManager`).

Module layout:

| module | models |
|---|---|
| `Schema` | the records of the tables and of the JSON the frontend receives |
| `Seqs` | `filter`, counting and repetition, as used throughout |
| `Sorting` | `Array.prototype.sort` with a comparator that compares one integer key: a stable insertion sort |
| `MatchForm`, `MatchList`, `PlayerModal`, `PlayerList`, `MatchModal`, `UnknownPlayerManager`, `BackupManager` | one each per frontend component |
| `Crud` | `backend/app/crud.py` |
| `Api` | `backend/app/main.py` |

Dates are integers:
- `yyyymmdd` numbers on the backend;
- the ordering key `new Date(...)` gives on the frontend.

Every comparison in the source only looks at the order of two dates, so integers are enough.

Where the code departs from the behaviour its docstrings and tests lead one to expect, the
model follows the code.
- `create_player` refuses a duplicate name only when it is exactly equal. The comparison is
  case-sensitive, not case-insensitive.
- The `DELETE /players/{id}` handler does not reassign goals (see Findings).
- `reassign_goals` does not refuse the placeholder as a target. It silently skips listed goals
  that the placeholder does not hold.
- The player dialog lists its rows in ascending match id, which is the order `Object.values`
  gives integer keys. It is not the order in which the matches first appear.

`delete_player`, `get_unknown_player_goals` and `reassign_goals` (`backend/app/crud.py:36`,
`99` and `112`) call `Player.get_unknown_player`, which no file of the application defines
(`backend/app/models.py` declares the `Player` columns only). The model gives the call the
behaviour its name and the placeholder's name check imply, get-or-create by name:
- the first player named "Unknown Player (Deleted)";
- otherwise a new player of that name, with no birthdate, appended under the next id.

## Model

| member | source | states |
|---|---|---|
| `MatchForm.Clamp` | frontend/src/components/MatchForm.jsx:34 | the count stored is the maximum of 0 and the typed count: a negative count becomes 0, and a non-negative count is kept as typed |
| `MatchForm.WithGoals` | frontend/src/components/MatchForm.jsx:34 | the goals input sets only the line's goal count, clamped to 0 or more; player and own goals unchanged |
| `MatchForm.WithOwnGoals` | frontend/src/components/MatchForm.jsx:44 | the own goals input sets only the line's own-goal count, clamped to 0 or more; player and goals unchanged |
| `MatchForm.Expand` | frontend/src/components/MatchForm.jsx:95-98 | one scorer line becomes `goals` regular records, then `own_goals` own-goal records, each with the line's player and team |
| `MatchForm.ExpandAllLength` | frontend/src/components/MatchForm.jsx:94-102 | one team's flattened records number its goals plus its own goals |
| `MatchForm.FlattenLength` | frontend/src/components/MatchForm.jsx:83-103 | the flat list has one record per goal and own goal entered, and that is the young score plus the old score |
| `MatchForm.ExpandAllCount` | frontend/src/components/MatchForm.jsx:94-102 | in one team's records, counting by team and kind gives that team's goal or own-goal sum, and zero for the other team |
| `MatchForm.FlattenCounts` | frontend/src/components/MatchForm.jsx:94-103 | counting the flat list by team and kind gives back each team's goal and own-goal sums |
| `MatchForm.ScoresMatchGoals` | frontend/src/components/MatchForm.jsx:83-103 | young score = young regular records + old own-goal records, and old score the mirror image: the scores equal the tallies of the submitted goals |
| `MatchForm.ExpandAllShape` | frontend/src/components/MatchForm.jsx:94-102 | every record of one team's part carries that team and the player of one of its lines |
| `MatchForm.FlattenOrder` | frontend/src/components/MatchForm.jsx:94-103 | all young records come first, then all old records, each carrying its team and the player of one of that team's lines |
| `MatchForm.PositiveSums` | frontend/src/components/MatchForm.jsx:118 | a team's goal plus own-goal sum is positive iff one of its lines has a positive count |
| `MatchForm.CanSubmitIff` | frontend/src/components/MatchForm.jsx:118 | submission is enabled iff the date is set and some line of either team has a positive goal or own-goal count |
| `MatchForm.RemoveAt` | frontend/src/components/MatchForm.jsx:73-74 | index `idx` is dropped and the other lines keep their order; an index out of range changes nothing |
| `MatchForm.ReplaceAt` | frontend/src/components/MatchForm.jsx:78-79 | only index `idx` is replaced; every other line is unchanged |
| `MatchForm.RemoveAtSums` | frontend/src/components/MatchForm.jsx:72-75 | removing a line takes exactly its counts out of the sums |
| `MatchForm.AppendZeroSums` | frontend/src/components/MatchForm.jsx:66-70 | appending an empty line leaves both sums unchanged |
| `MatchForm.SumGoals` | frontend/src/components/MatchForm.jsx:84 | the `reduce` over a team's regular-goal counts; definition; specified by `ExpandAllLength`, `ExpandAllCount`, `PositiveSums`, `RemoveAtSums` and `AppendZeroSums` |
| `MatchForm.SumOwnGoals` | frontend/src/components/MatchForm.jsx:85 | the `reduce` over a team's own-goal counts; definition; specified by the same lemmas as `SumGoals` |
| `MatchForm.TeamYoungScore` | frontend/src/components/MatchForm.jsx:83-85 | the young team's regular goals plus the old team's own goals; definition; specified by `ScoresMatchGoals` and `FlattenLength` |
| `MatchForm.TeamOldScore` | frontend/src/components/MatchForm.jsx:86-88 | the old team's regular goals plus the young team's own goals; definition; specified by `ScoresMatchGoals` and `FlattenLength` |
| `MatchForm.CanSubmit` | frontend/src/components/MatchForm.jsx:118 | the `canSubmit` flag; definition; specified by `CanSubmitIff` |
| `MatchForm.ExpandAll` | frontend/src/components/MatchForm.jsx:95-98 | one team's `flatMap` over its lines; definition; specified by `ExpandAllLength`, `ExpandAllCount` and `ExpandAllShape` |
| `MatchForm.FlattenGoals` | frontend/src/components/MatchForm.jsx:94-103 | the submitted goal list, young records then old; definition; specified by `FlattenLength`, `FlattenCounts`, `FlattenOrder` and `ScoresMatchGoals` |
| `MatchForm.FormState.Scores` | frontend/src/components/MatchForm.jsx:138-146 | the two read-only score fields; definition; specified by `ScoresMatchGoals` through `TeamYoungScore` and `TeamOldScore` |
| `MatchForm.FormState.constructor` | frontend/src/components/MatchForm.jsx:54-58 | the form starts with no date and no lines for either team |
| `MatchForm.FormState.SetDate` | frontend/src/components/MatchForm.jsx:129 | the date input changes only the date |
| `MatchForm.FormState.AddGoal` | frontend/src/components/MatchForm.jsx:66-70 | an empty line, whose player is the first loaded player or unset, is appended to the chosen team only; the other team, the date and the scores are unchanged |
| `MatchForm.FormState.RemoveGoal` | frontend/src/components/MatchForm.jsx:72-75 | line `idx` of the chosen team is dropped; the other team and the date are untouched |
| `MatchForm.FormState.GoalChange` | frontend/src/components/MatchForm.jsx:77-80 | line `idx` of the chosen team is replaced; the other team and the date are untouched |
| `MatchForm.FormState.Submit` | frontend/src/components/MatchForm.jsx:90-116 | the payload carries the date, the two scores and the flat goal list of the state before submission; date and both lists are reset only when the `onMatchAdded` callback settles, and kept when it rejects |
| `MatchList.GoalDiff` | frontend/src/components/MatchList.jsx:27-29 | the goal difference is the absolute difference of the two scores; it is zero iff they are equal |
| `MatchList.AscendingComparator` | frontend/src/components/MatchList.jsx:36-48 | negative, zero or positive exactly as the first match's column value is below, equal to or above the second's |
| `MatchList.DescendingComparator` | frontend/src/components/MatchList.jsx:22-34 | for every column, the exact negation of the ascending comparator |
| `MatchList.ComparatorsAntisymmetric` | frontend/src/components/MatchList.jsx:22-48 | both comparators are antisymmetric and give zero on equal arguments |
| `MatchList.CompareAgreesWithKey` | frontend/src/components/MatchList.jsx:97-100 | the sort callback orders two matches exactly as their column value, negated when descending, does |
| `MatchList.SortedMatchesOrdered` | frontend/src/components/MatchList.jsx:97-100 | the sorted copy is a permutation of the matches, and each pair of neighbours compares `<= 0` under the current direction |
| `MatchList.AscendingIsReversedDescending` | frontend/src/components/MatchList.jsx:97-100 | when no two matches share a column value, the ascending table is the reverse of the descending one |
| `MatchList.Key` | frontend/src/components/MatchList.jsx:22-48 | the value each column's comparators compare: the date key, either score, or the goal difference; definition; specified by `AscendingComparator` and `DescendingComparator` |
| `MatchList.Compare` | frontend/src/components/MatchList.jsx:97-99 | the sort callback, descending or ascending by `order`; definition; specified by `CompareAgreesWithKey` |
| `MatchList.SortKey` | frontend/src/components/MatchList.jsx:97-99 | the column value, negated when descending; definition; specified by `CompareAgreesWithKey` |
| `MatchList.SortedMatches` | frontend/src/components/MatchList.jsx:97-100 | the sorted copy of the matches; definition; specified by `SortedMatchesOrdered` and `AscendingIsReversedDescending` |
| `MatchList.MatchTable.Rows` | frontend/src/components/MatchList.jsx:129 | the rows the table renders, the sorted copy under the current column and direction; definition; specified by `SortedMatchesOrdered` |
| `MatchList.MatchTable.constructor` | frontend/src/components/MatchList.jsx:51-56 | the table starts empty, sorted by date, descending |
| `MatchList.MatchTable.SetMatches` | frontend/src/components/MatchList.jsx:58-60 | a fetch replaces the matches and nothing else |
| `MatchList.MatchTable.RequestSort` | frontend/src/components/MatchList.jsx:91-95 | the clicked column becomes active; it is descending only if it was active and ascending before, otherwise ascending |
| `Sorting.Insert` | frontend/src/components/PlayerList.jsx:46-50 | inserting into the sorted list adds exactly one element |
| `Sorting.InsertPermutes` | frontend/src/components/PlayerList.jsx:46-50 | insertion adds exactly the inserted element to the multiset of elements |
| `Sorting.InsertSorted` | frontend/src/components/PlayerList.jsx:46-50 | inserting into a sorted list keeps it sorted |
| `Sorting.Sort` | frontend/src/components/MatchList.jsx:97-100 | the sorted copy has as many elements as the input |
| `Sorting.SortPermutes` | frontend/src/components/MatchList.jsx:97-100 | the sorted copy is a permutation of the input |
| `Sorting.SortSorted` | frontend/src/components/MatchList.jsx:97-100 | the sorted copy is non-decreasing in the compared key |
| `Sorting.InsertStable` | frontend/src/components/PlayerList.jsx:46-50 | inserting keeps the relative order of the elements with any one key |
| `Sorting.SortStable` | frontend/src/components/PlayerList.jsx:46-50 | the sort is stable: the elements with equal keys keep their input order |
| `Sorting.SortStrict` | frontend/src/components/MatchList.jsx:97-100 | with distinct keys the sorted copy is strictly increasing |
| `Sorting.SortedUnique` | frontend/src/components/MatchList.jsx:97-100 | a strictly sorted arrangement of a multiset is the only sorted one |
| `Sorting.SortReverse` | frontend/src/components/MatchList.jsx:97-100 | with distinct keys, sorting by the negated key gives the reverse of sorting by the key |
| `PlayerList.GoalCount` | frontend/src/components/PlayerList.jsx:47-48 | the count is 0 when `goals` is not an array; otherwise the count and the own goals together make up the whole goal list |
| `PlayerList.GoalCountAppend` | frontend/src/components/PlayerList.jsx:47-48 | one more listed goal raises the count by one exactly when it is not an own goal |
| `PlayerList.SortedPlayersSpec` | frontend/src/components/PlayerList.jsx:46-50 | the sorted copy is a permutation of the players, and its goal counts never increase down the list |
| `PlayerList.WithCountMembers` | frontend/src/components/PlayerList.jsx:63 | the players with a given count are exactly those whose regular-goal count is that number |
| `PlayerList.TiesKeepFetchedOrder` | frontend/src/components/PlayerList.jsx:46-50 | players with equal counts appear in the sorted list in their fetched order |
| `PlayerList.GoalNoun` | frontend/src/components/PlayerList.jsx:68 | the label says "goal" exactly when the count is 1, "goals" otherwise |
| `PlayerList.ByGoalsDescending` | frontend/src/components/PlayerList.jsx:46-50 | the sort key the callback `goalsB - goalsA` orders by, the negated count; definition; specified by `SortedPlayersSpec` |
| `PlayerList.SortedPlayers` | frontend/src/components/PlayerList.jsx:46-50 | the sorted copy of the players; definition; specified by `SortedPlayersSpec` and `TiesKeepFetchedOrder` |
| `PlayerList.WithCount` | frontend/src/components/PlayerList.jsx:63 | the players whose regular-goal count is a given number, in list order; definition; specified by `WithCountMembers` and `TiesKeepFetchedOrder` |
| `MatchModal.SplitGoals` | frontend/src/components/MatchModal.jsx:17-21 | a null match renders nothing; missing goals give two empty lists |
| `MatchModal.SplitMembers` | frontend/src/components/MatchModal.jsx:20-21 | `goalsYoung` holds exactly the goals of team "young", and `goalsOld` exactly those of team "old" |
| `MatchModal.SplitOrder` | frontend/src/components/MatchModal.jsx:20-21 | the lists keep the goals' order and multiplicity: a goal list made of two parts splits into the first part's lists followed by the second's, and a single goal lands in its own team's list only |
| `MatchModal.SplitPartition` | frontend/src/components/MatchModal.jsx:20-21 | a goal of any other team is in neither list; if every goal is young or old, the two lists together are the goals, rearranged |
| `MatchModal.PlayerCell` | frontend/src/components/MatchModal.jsx:43 | the cell shows the player's name unless it is missing or empty, and the player id otherwise |
| `MatchModal.OnTeam` | frontend/src/components/MatchModal.jsx:20-21 | the `g.team === ...` test of the two filters; definition; specified by `SplitMembers` and `SplitOrder` |
| `MatchModal.GoalsOrEmpty` | frontend/src/components/MatchModal.jsx:20-21 | `match.goals || []`; definition; specified by `SplitGoals` |
| `PlayerModal.MatchIdsMembers` | frontend/src/components/PlayerModal.jsx:53-55 | a match id is collected iff some goal carries that match |
| `PlayerModal.FirstOf` | frontend/src/components/PlayerModal.jsx:56-64 | the goal that creates a match's row is one of the player's goals in that match |
| `PlayerModal.SummaryOf` | frontend/src/components/PlayerModal.jsx:56-70 | a match's row counts at least one goal or own goal |
| `PlayerModal.MatchIdsAppend` | frontend/src/components/PlayerModal.jsx:53-55 | one more goal adds its match, if it has one, to the collected ids |
| `PlayerModal.FirstOfAppend` | frontend/src/components/PlayerModal.jsx:56-64 | a later goal of a match already seen does not change the goal that filled its row |
| `PlayerModal.FirstOfNew` | frontend/src/components/PlayerModal.jsx:56-64 | the first goal of a match not seen before fills that match's row |
| `PlayerModal.CountOneMore` | frontend/src/components/PlayerModal.jsx:66-70 | one more goal adds one to a count exactly when it matches |
| `PlayerModal.SummaryStep` | frontend/src/components/PlayerModal.jsx:53-71 | counting one goal adds it to its match's row, made fresh from that goal on first sight, and leaves every other row as it was |
| `PlayerModal.InsertKey` | frontend/src/components/PlayerModal.jsx:72 | the key list gains exactly the new key |
| `PlayerModal.InsertKeyIncreasing` | frontend/src/components/PlayerModal.jsx:72 | the key list stays ascending, the order `Object.values` visits integer keys |
| `PlayerModal.SumTalliesEmpty` | frontend/src/components/PlayerModal.jsx:49-50 | no goals tally nothing for any match |
| `PlayerModal.TallyCons` | frontend/src/components/PlayerModal.jsx:66-70 | a goal adds one to the tally of its own match only |
| `PlayerModal.SumTalliesCons` | frontend/src/components/PlayerModal.jsx:53-71 | a goal adds one to the summed tallies exactly when its match is listed |
| `PlayerModal.TalliesCountGoals` | frontend/src/components/PlayerModal.jsx:53-71 | over distinct ids covering every match, the tallies add up to the number of goals with a match |
| `PlayerModal.TotalOfRows` | frontend/src/components/PlayerModal.jsx:72 | the rows' counts add up to the tallies of their matches |
| `PlayerModal.GroupingStep` | frontend/src/components/PlayerModal.jsx:53-71 | counting the goals one more step counts the next goal into the map |
| `PlayerModal.GroupedAppend` | frontend/src/components/PlayerModal.jsx:53-71 | counting one more goal keeps a map with exactly one correct row per match |
| `PlayerModal.GroupingSpec` | frontend/src/components/PlayerModal.jsx:52-71 | the map built by the loop has a row for exactly the matches the goals carry. Each row has the first goal's date, team and scores and the match's regular and own-goal counts |
| `PlayerModal.ValuesInKeyOrder` | frontend/src/components/PlayerModal.jsx:72 | `Object.values` lists the map's rows in the order of the ascending key list |
| `PlayerModal.CountGoal` | frontend/src/components/PlayerModal.jsx:54-70 | one `forEach` step: a goal without a match is skipped; otherwise its match's row is made on first sight and one counter is incremented; the ascending key list follows the map |
| `PlayerModal.GroupByMatch` | frontend/src/components/PlayerModal.jsx:52-71 | the loop builds the map of counting every goal in order, with its keys listed ascending |
| `PlayerModal.MatchDetails` | frontend/src/components/PlayerModal.jsx:48-73 | the rows are empty without goals. Otherwise there is one row per distinct match, in ascending match id, each its match's summary. The counts of all rows add up to the player's goals that carry a match |
| `PlayerModal.PlayerGoals` | frontend/src/components/PlayerModal.jsx:50 | the goals walked: none unless the player is loaded with a goals array; definition; specified by `MatchDetails` |
| `PlayerModal.MatchIds` | frontend/src/components/PlayerModal.jsx:53-55 | the ids of the matches the goals carry; definition; specified by `MatchIdsMembers` and `MatchIdsAppend` |
| `PlayerModal.NewRow` | frontend/src/components/PlayerModal.jsx:57-64 | the fresh row from the first goal of a match, with both counters 0; definition; specified by `FirstOfNew` and `GroupingSpec` |
| `PlayerModal.CountInto` | frontend/src/components/PlayerModal.jsx:53-71 | one `forEach` step on the map; definition; specified by `SummaryStep`, `GroupingStep` and the method `CountGoal` |
| `PlayerModal.Grouping` | frontend/src/components/PlayerModal.jsx:52-71 | the map after the whole `forEach`; definition; specified by `GroupingSpec` and the method `GroupByMatch` |
| `UnknownPlayerManager.Toggle` | frontend/src/components/UnknownPlayerManager.jsx:66-72 | after a toggle the id is selected iff it was not; every other id keeps its selection state |
| `UnknownPlayerManager.ToggleShape` | frontend/src/components/UnknownPlayerManager.jsx:66-72 | an unselected id is appended at the end; a selected one is removed, shortening the list |
| `UnknownPlayerManager.ToggleDeselect` | frontend/src/components/UnknownPlayerManager.jsx:66-68 | in a selection without duplicates, deselecting an id cuts out its one position and keeps the other ids in order |
| `UnknownPlayerManager.ToggleTwice` | frontend/src/components/UnknownPlayerManager.jsx:66-72 | toggling an unselected id twice gives back the selection |
| `UnknownPlayerManager.ToggleKeepsDistinct` | frontend/src/components/UnknownPlayerManager.jsx:66-72 | toggling keeps the selection free of duplicates |
| `UnknownPlayerManager.Ids` | frontend/src/components/UnknownPlayerManager.jsx:134 | the ids of the listed goals, position by position |
| `UnknownPlayerManager.SelectAll` | frontend/src/components/UnknownPlayerManager.jsx:132-138 | checking selects exactly the listed goals' ids in list order; unchecking clears the selection |
| `UnknownPlayerManager.SelectAllChecksHeader` | frontend/src/components/UnknownPlayerManager.jsx:131-138 | select-all checks the header for every list; clearing unchecks it unless the list is empty |
| `UnknownPlayerManager.SelectAllDistinct` | frontend/src/components/UnknownPlayerManager.jsx:134 | when the listed goals have distinct ids, select-all selects no id twice |
| `UnknownPlayerManager.RealPlayersMembers` | frontend/src/components/UnknownPlayerManager.jsx:58 | the choice of target players is exactly the fetched players not named "Unknown Player (Deleted)" |
| `UnknownPlayerManager.HeaderChecked` | frontend/src/components/UnknownPlayerManager.jsx:131 | the header checkbox's `length ===` test; definition; specified by `SelectAllChecksHeader` |
| `UnknownPlayerManager.RealPlayers` | frontend/src/components/UnknownPlayerManager.jsx:58 | the fetched players without the placeholder, in order; definition; specified by `RealPlayersMembers` |
| `UnknownPlayerManager.NoPlayer` | frontend/src/components/UnknownPlayerManager.jsx:75 | `!selectedPlayer`: nothing chosen or the falsy id 0; definition; specified by `ReassignDialog.StartReassign` |
| `UnknownPlayerManager.ReassignDialog.constructor` | frontend/src/components/UnknownPlayerManager.jsx:26-31 | the dialog starts with no goals, players or selection and no message |
| `UnknownPlayerManager.ReassignDialog.LoadUnknownGoals` | frontend/src/components/UnknownPlayerManager.jsx:40-50 | a successful fetch replaces the listed goals |
| `UnknownPlayerManager.ReassignDialog.LoadPlayers` | frontend/src/components/UnknownPlayerManager.jsx:52-64 | a successful fetch replaces the players with the fetched ones minus the placeholder |
| `UnknownPlayerManager.ReassignDialog.GoalSelection` | frontend/src/components/UnknownPlayerManager.jsx:66-72 | a goal checkbox toggles that goal's id in the selection |
| `UnknownPlayerManager.ReassignDialog.SelectAllChanged` | frontend/src/components/UnknownPlayerManager.jsx:132-138 | the header checkbox sets the selection to all listed ids or to none |
| `UnknownPlayerManager.ReassignDialog.ChoosePlayer` | frontend/src/components/UnknownPlayerManager.jsx:172 | picking a target player records it |
| `UnknownPlayerManager.ReassignDialog.StartReassign` | frontend/src/components/UnknownPlayerManager.jsx:74-82 | no request is sent iff nothing is selected or no (truthy) player is chosen, and then the prompt is shown; otherwise the request carries the selection and the player |
| `UnknownPlayerManager.ReassignDialog.FinishReassign` | frontend/src/components/UnknownPlayerManager.jsx:83-97 | on success the count is reported and the selection and the chosen player are cleared; on an error the error is reported and both are kept |
| `BackupManager.LineEnd` | frontend/src/components/BackupManager.jsx:53 | where `.+` must stop: the first line terminator at or after a position, or the end |
| `BackupManager.LastQuote` | frontend/src/components/BackupManager.jsx:53 | the last quote in a range, or none if the range has no quote |
| `BackupManager.MatchAtSpec` | frontend/src/components/BackupManager.jsx:53 | at a position, the greedy match exists iff the expression matches there, and it is the longest |
| `BackupManager.SearchSpec` | frontend/src/components/BackupManager.jsx:53 | the search finds the leftmost match start, and the longest match there; none means no match anywhere after the start |
| `BackupManager.Capture` | frontend/src/components/BackupManager.jsx:53-55 | a captured group is never empty |
| `BackupManager.CaptureNone` | frontend/src/components/BackupManager.jsx:53-54 | there is no capture exactly when the expression matches nowhere in the header |
| `BackupManager.CaptureLeftmostLongest` | frontend/src/components/BackupManager.jsx:53-55 | the capture is the group of the leftmost match, as long as it can be: up to the last quote on its line |
| `BackupManager.CaptureOfQuotedName` | frontend/src/components/BackupManager.jsx:53-55 | `attachment; filename="<name>"`, with no quote or line break inside the name, gives back exactly the name |
| `BackupManager.BackupFilename` | frontend/src/components/BackupManager.jsx:50-57 | the name is "football_backup.db" without a header, with an empty header or with no match, and the capture otherwise; it is never empty |
| `BackupManager.MatchAt` | frontend/src/components/BackupManager.jsx:53 | the expression's greedy match at one start position; definition; specified by `MatchAtSpec` |
| `BackupManager.Search` | frontend/src/components/BackupManager.jsx:53 | the expression's leftmost match, tried at each start in turn; definition; specified by `SearchSpec` |
| `Crud.FindPlayer` | backend/app/crud.py:5-6 | the found player is in the table with that id; none iff no player has the id |
| `Crud.FindByName` | backend/app/crud.py:15 | the found player has exactly that name, compared case-sensitively; none iff no player has it |
| `Crud.FindMatch` | backend/app/crud.py:81 | the found match is in the table with that id; none iff no match has the id |
| `Crud.FindByNameAppend` | backend/app/crud.py:36 | an append does not change which player a name finds, and finds the appended one if the name was missing |
| `Crud.WithPlaceholder` | backend/app/crud.py:36 | after get-or-create the placeholder exists, and the table only grew by at most one row at the end |
| `Crud.RemovePlayerMembers` | backend/app/crud.py:49 | deleting a player removes exactly the rows of its id |
| `Crud.Reassign` | backend/app/crud.py:42-43 | every goal picked is credited to the target and keeps its other fields; every other goal is unchanged; the table keeps its length |
| `Crud.ReassignCount` | backend/app/crud.py:42-43 | after the move, a player holds its unmoved goals, plus all moved goals if it is the target |
| `Crud.MoveAllCounts` | backend/app/crud.py:39-54 | after deletion the deleted player holds no goal and the placeholder gains all of them; every other player's goal count is unchanged |
| `Crud.MoveSelectedCounts` | backend/app/crud.py:115-124 | the target gains exactly the selected goals the placeholder held and the placeholder loses exactly those; every other player is untouched |
| `Crud.NewGoals` | backend/app/crud.py:72-74 | one goal row per requested goal, in request order, all in the new match, under consecutive ids |
| `Crud.NewGoalsSnoc` | backend/app/crud.py:72-74 | adding one more requested goal adds its row at the end |
| `Crud.CreatedMatchGoals` | backend/app/crud.py:67-77 | the new match's goals are exactly the requested goals, in order, whatever scores were submitted |
| `Crud.DropMatchGoals` | backend/app/crud.py:86-94 | the goals left are exactly those of other matches, and the number deleted is the match's goal count |
| `Crud.PlaceholderIsAnotherPlayer` | backend/app/crud.py:31-36 | the placeholder fetched or created is never the player being deleted |
| `Crud.RemovePlayerValid` | backend/app/crud.py:49-50 | deleting a player keeps player ids unique and below the next id |
| `Crud.ReassignValid` | backend/app/crud.py:42-46 | moving goals keeps goal ids unique and every goal's match id valid |
| `Crud.NewGoalsValid` | backend/app/crud.py:72-75 | the added goals keep goal ids unique and below the next id |
| `Crud.FilterGoalsValid` | backend/app/crud.py:86 | deleting goals keeps the goals table valid |
| `Crud.PlaceholderId` | backend/app/crud.py:36 | the id of the placeholder row the get-or-create leaves; definition; specified by `PlaceholderIsAnotherPlayer` and `Database.GetUnknownPlayer` |
| `Crud.RemovePlayer` | backend/app/crud.py:49 | the players table without the deleted player; definition; specified by `RemovePlayerMembers` and `RemovePlayerValid` |
| `Crud.Selected` | backend/app/crud.py:115-118 | the goals `reassign_goals` queries: listed and held by the placeholder; definition; specified by `MoveSelectedCounts` and `Database.ReassignGoals` |
| `Crud.Database.Valid` | backend/app/models.py:6-29 | the tables' invariant: primary keys unique and below each table's next id, and every goal's match id handed out by the matches table; kept by every table operation |
| `Crud.Database.constructor` | backend/app/models.py:6-29 | the three tables start empty, each handing out id 1 first |
| `Crud.Database.GetUnknownPlayer` | backend/app/crud.py:36 | the placeholder's id, after get-or-create of the placeholder row; the tables stay valid |
| `Crud.Database.CreatePlayer` | backend/app/crud.py:13-23 | an exactly equal name is refused and nothing is inserted; otherwise exactly one row is added under the next id |
| `Crud.Database.RetargetGoals` | backend/app/crud.py:39-43 | the loop credits every selected goal to the target, in place, and returns how many there were |
| `Crud.Database.DeletePlayer` | backend/app/crud.py:25-55 | an unknown id and the placeholder are refused with no change. Otherwise the placeholder, never the player itself, receives exactly the player's goals, their number is reported, the row is removed, and all other goals are unchanged |
| `Crud.Database.RetirePlayer` | backend/app/crud.py:38-50 | the player's goals go to the placeholder, their number is counted, and the player's row is removed; the tables stay valid |
| `Crud.Database.CreateMatch` | backend/app/crud.py:67-77 | one match with the given date and scores under the next id, then one goal per requested goal in that match, in order; nothing is checked against the scores |
| `Crud.Database.AddGoals` | backend/app/crud.py:72-75 | the loop appends one goal row per requested goal, in order, under consecutive new ids |
| `Crud.Database.DeleteMatch` | backend/app/crud.py:79-95 | an unknown id is refused with no change. Otherwise the match and exactly its goals are removed, and its date, scores and goal count are reported |
| `Crud.Database.GetUnknownPlayerGoals` | backend/app/crud.py:97-102 | exactly the goals the placeholder holds, the placeholder being created first if missing |
| `Crud.Database.ReassignGoals` | backend/app/crud.py:104-124 | a missing target is refused with no change. Otherwise exactly the listed goals the placeholder holds move to the target, other listed ids are skipped, and the number moved is returned |
| `Api.Renamed` | backend/app/main.py:50-51 | editing keeps the table's length |
| `Api.RenamedRows` | backend/app/main.py:50-51 | only the rows of that id get the new name and birthdate; ids and every other row are unchanged |
| `Api.RenamedLookup` | backend/app/main.py:47-54 | after the edit the player is found under the same id with the new name and birthdate, and every other id finds what it found before |
| `Api.RenamedOthers` | backend/app/main.py:50-51 | the edit does not change what any other id finds |
| `Api.RenamedValid` | backend/app/main.py:50-52 | the edit keeps the players table valid, with no duplicate-name check |
| `Api.UpdatePlayer` | backend/app/main.py:45-54 | 404 iff no player has the id, and then nothing changes; otherwise only that player's name and birthdate are overwritten and the edited row is returned |
| `Api.DeletePlayer` | backend/app/main.py:56-63 | 404 iff no player has the id; otherwise the row is removed directly, with no placeholder check, and the goals table is left as it was (in the running system the ORM then sets those goals' player id to NULL rather than leaving the removed id; either way they belong to no remaining player) |
| `Api.DeletedPlayersGoalsOrphaned` | backend/app/main.py:61-62 | for a player who scored, the tables the direct delete leaves hold a goal of no remaining player and give the placeholder none of the player's goals, while the table operation's reassignment leaves the player none and moves them all to the placeholder |
| `Api.DeleteAllPlayers` | backend/app/main.py:65-70 | the goals and players tables are empty; the matches are kept |
| `Api.DeleteAllMatches` | backend/app/main.py:80-85 | the goals and matches tables are empty; the players are kept |
| `Api.Seeded` | backend/app/main.py:109-114 | the seeded rows are the default players in order, under consecutive ids |
| `Api.SeededSnoc` | backend/app/main.py:109-114 | seeding one more default player adds its row at the end |
| `Api.SeededValid` | backend/app/main.py:109-115 | appending the seeded rows under fresh ids keeps the players table valid, whatever names already exist |
| `Api.AddDefaultPlayers` | backend/app/main.py:87-116 | exactly the 18 default players are appended, with no duplicate check, and 18 is reported |
| `Api.AddPlayers` | backend/app/main.py:109-115 | the loop appends one row per listed player, in order, under consecutive new ids |
| `Api.CreatePlayer` | backend/app/main.py:37-39 | the table operation's result is passed through unchanged |
| `Api.CreateMatch` | backend/app/main.py:72-74 | the table operation's result, the new match, is passed through unchanged |

## Left out

- The database layer is not modelled: SQLAlchemy sessions, `joinedload`, FastAPI routing,
  CORS and dependency injection.
  - Each handler is one step on the in-memory tables.
  - A loop that stages rows before one commit writes the table once, after the loop.
  - Each commit is an assignment, and a failed commit is not modelled.
- `get_players` and `get_matches` are reads with `skip`/`limit` pagination over the same
  tables, and are not modelled. `read_root` returns a constant.
- Some SQLAlchemy effects are not modelled:
  - the nulling of a deleted player's goals' `player_id` that the ORM applies on the direct
    `DELETE /players/{id}`; `Api.DeletePlayer` leaves the goals table as it is;
  - cascades on the bulk deletes.
- Crud.Database.GetUnknownPlayer: `Player.get_unknown_player` is defined nowhere, so as written
  `delete_player` fails after its two refusals, `get_unknown_player_goals` fails at once and
  `reassign_goals` fails after its target check, each before changing anything; the model
  assumes get-or-create of the placeholder instead.
- SQLite's reuse of freed ids is not modelled. Ids come from per-table counters that never go
  back.
- FastAPI's response validation is not modelled. When `create_player` refuses a duplicate, the
  handler returns `None` where a player is declared, so the request fails. `Api.CreatePlayer`
  reports this as `None`.
- The text of the messages is not modelled:
  - `delete_match`'s `"date - old:young"` string, which is modelled as its fields;
  - the alert texts of the reassignment dialog, which are modelled as the `Message` cases;
  - the player list label beyond its "goal"/"goals" noun.
- Dates are integer keys. Parsing, `new Date(...)`, `strptime` and locale formatting are not
  modelled.
- Network I/O, fetches, `window.confirm`/`alert`, loading flags and React effect hooks are not
  modelled. A fetch's answer is a parameter of the handler that consumes it.
- MatchForm.Clamp: counts are integers. In the source they are JavaScript numbers
  (`Math.max(0, Number(...))`), so a typed fraction such as 1.5 is stored and shows up in the
  scores and in `canSubmit` until the browser's step check refuses the form on submission; and
  `Array(n)` throwing for a count of 2^32 or more is not modelled.
- MatchForm.FormState.Submit: a rejected `onMatchAdded` is modelled only as "the form keeps its
  state"; the `loading` flag left set and the exception itself are not modelled.
- The password gate (`LoginModal.jsx`) is not modelled: the backend has no access check for it
  to mirror.
- The rest of `BackupManager.jsx` is not modelled: the blob download, `fetchBackups`, and
  `formatFileSize` (floating point).
- The player select's change in the match form (`MatchForm.jsx:21`) is not modelled on its own.
  It is the `GoalChange` of a line with a new player.
- The match form's sorting of loaded players by name is not modelled (`localeCompare`, a locale
  collation). `AddGoal` takes the loaded player ids as given.
- `Sorting.Sort`: the model gives `Array.prototype.sort` one fixed algorithm, a stable
  insertion sort. Its contracts are the properties every stable sort has: a permutation,
  ordered by the key, and stable.
- `PlayerModal.SummaryOf`: on its own it states only that a row counts at least one goal.
  `GroupingSpec` and `MatchDetails` state what each row holds.

## Findings

| source | as written | input that shows it | evidently intended | confidence | as-written member | corrected member |
|---|---|---|---|---|---|---|
| backend/app/main.py:56-63 | the `DELETE /players/{id}` handler deletes the player row itself. It never calls `crud.delete_player`, so the player's goals are not handed to the placeholder and the placeholder itself can be deleted | a player with id 1 who scored one goal: after `DELETE /players/1` that goal belongs to no remaining player, and the placeholder holds nothing | delete through `crud.delete_player` (docstring: "Delete a player and reassign their goals to the unknown player"): the goals move to the placeholder, which cannot be deleted | medium, not executed | `Api.DeletedPlayersGoalsOrphaned` | `Crud.Database.DeletePlayer` |
