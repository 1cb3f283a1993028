# Baseball situational-scenario ETL, modelled in Dafny

The system is a two-stage batch job over Major League Baseball seasons.

1. **Acquisition** (`data_aq.py`) works on one (team, year) pair at a time:
   - It takes the club's season schedule and the league's game index.
   - It drops schedule rows whose date did not parse and keeps only regular-season games (type `"R"`).
   - It inner-joins the two tables on date, then drops rows whose `game_id` was already seen.
   - For each merged game it fetches the inning-by-inning line score. It sums each side's runs over innings 1-6 and over innings 7 onward, from the point of view of the club under study (home or away).
   - It derives `is_close_scenario`, `is_comeback_scenario`, `no_runs_scored_late`, `held_game` and `final_win`.
   - A game whose detail fetch fails is skipped. Everything else becomes one row of the pair's output file.
2. **Aggregation** (`data_combination.py`) reads each team's per-year files in sorted order:
   - A missing or non-numeric run value counts as 0.
   - It adds two per-row columns: `comeback_wins`, and `lead_1_2_runs_6th` (a lead of 1 or 2 runs after six innings).
   - It sums the flag columns into one summary row per file. Team and year come from the first row.
   - It collects the rows per team and across all teams.

The Dafny modules follow this structure:

- `Wrappers`: `Option` and `Result`.
- `LineScore`: innings, half-innings with optional run counts, and the early/late sums.
- `Reconcile`: the date filter, the regular-season filter, the inner join on date and the `game_id` de-duplication.
- `GameFeatures`: the per-game record and its flags.
- `Acquisition`: the loop over merged games and the per-(team, year) pipeline.
- `Aggregation`: the column counts, the per-file summary and the loops over teams and files.
- `Handoff`: the file written by the first stage and read by the second, and what the summary of such a file satisfies.

Network services are parameters:

- The schedule and the game index are `Option` inputs (`None` means the fetch raised).
- The game-detail service is a function from game id to `Option` of innings.

Three behaviours of the code that are easy to miss:

- When the regular-season game list is empty, the game table is built from an empty list and has no `Date` column. The merge on `Date` then raises, so that (team, year) pair fails and writes no file (`Acquisition.AcquireTeamYear`).
- In the aggregation stage, a team with no per-year file has an empty summary table. Selecting the output columns from it raises, so that team's file, every later team's file and the combined file are never written. The same happens to the combined file when the team list is empty (`Aggregation.AggregateTeams`).
- The inner join emits, for each schedule row in order, the games of that date in index order. This is the left-key order that pandas documents for an inner merge without sorting (`Reconcile.InnerJoinAppend`, `Reconcile.InnerJoinOneDate`, `Reconcile.GamesOnAppend`).

## Model

| member | source | states |
|---|---|---|
| LineScore.SumRunsAppend | data_aq.py:97-136 | A side's run sum over two stretches of innings is the sum of the two stretches' sums |
| LineScore.InningSplits | data_aq.py:97-136 | The four sums, from the club's side and the opponent's. For each side, early sum plus late sum equals that side's runs over the whole line score (`innings[:6]` and `innings[6:]` partition the list) |
| LineScore.MissingHalfScoresNothing | data_aq.py:97-136 | An inning whose half, or whose half's `runs`, is missing adds nothing to that side's sum wherever it stands |
| LineScore.SumRunsZero | data_aq.py:117-136 | A side's sum is 0 exactly when that side has no run in any inning |
| LineScore.ScorelessLateIff | data_aq.py:117-143 | Both late sums are 0 exactly when every inning from the seventh on is scoreless for both sides |
| LineScore.FlipSwapsSplits | data_aq.py:97-136 | Flipping `is_home` swaps the team and opponent values of the early and the late sums |
| LineScore.ShortGameHasNoLateRuns | data_aq.py:97-136 | With six innings or fewer, both late sums are 0 and the early sums are the whole game |
| Reconcile.ParsedDates | data_aq.py:55-58 | Rows whose date did not parse are dropped; the kept dates are exactly the parsed ones, never more rows than the schedule. This states membership; order and multiplicity are stated by `Reconcile.ParsedDatesAppend` |
| Reconcile.RegularSeason | data_aq.py:66-80 | The game table holds exactly the index games whose type is `"R"`. This states membership; order and multiplicity are stated by `Reconcile.RegularSeasonAppend` |
| Reconcile.GamesOn | data_aq.py:82 | The games paired with one date are exactly the games on that date, with no more rows than the game table. Order and multiplicity follow from this bound together with `Reconcile.GamesOnAppend` |
| Reconcile.InnerJoinOnDate | data_aq.py:82 | Every merged row pairs a schedule date with a game of equal date, and every such pair appears. This states membership; order and multiplicity are stated by `Reconcile.InnerJoinAppend` and `Reconcile.InnerJoinOneDate` |
| Reconcile.DropDuplicateIds | data_aq.py:83-85 | After de-duplication game ids are pairwise distinct, the set of ids is unchanged, and only input rows remain |
| Reconcile.DropDuplicatesKeepsOrder | data_aq.py:83-85 | The surviving rows keep their relative order (a subsequence of the input) |
| Reconcile.KeptRowIsFirst | data_aq.py:83-85 | The row kept for a game id is the first input row with that id |
| Reconcile.FirstOccurrenceIsKept | data_aq.py:83-85 | Every first occurrence of a game id survives |
| Reconcile.ParsedDatesAppend | data_aq.py:55-58 | The date filter keeps schedule order and multiplicity: a schedule split in two filters to the two parts' dates, concatenated |
| Reconcile.RegularSeasonAppend | data_aq.py:66-80 | The regular-season filter keeps index order and multiplicity, in the same piecewise sense |
| Reconcile.GamesOnAppend | data_aq.py:82 | The games paired with one date keep game-table order, piece by piece |
| Reconcile.InnerJoinAppend | data_aq.py:82 | The join is taken date by date in schedule order: a split date list joins to the first part's rows followed by the second part's |
| Reconcile.InnerJoinOneDate | data_aq.py:82 | Joining one date gives exactly that date's games, in game-table order |
| Reconcile.MergeSchedule | data_aq.py:82-85 | The merged table has distinct game ids; each row pairs a parsed date with a regular-season game of that date; every game that matched a date is represented |
| GameFeatures.DeriveRecord | data_aq.py:90-162 | The flags agree with the splits: close iff the margin after six is at most 2, comeback iff trailing after six, scoreless late iff both late sums are 0, and held iff close and scoreless late (so held implies both). Early plus late equals each side's line-score total. `final_win` iff the club's final score is strictly greater |
| GameFeatures.BothClubsAgree | data_aq.py:91-144 | The home and away clubs' records of one game mirror each other: splits trade places, close, scoreless-late and held agree, at most one wins, and one is in a comeback scenario exactly when the other led |
| GameFeatures.ShortGameIsHeldIffClose | data_aq.py:117-144 | A game of six innings or fewer is scoreless late, and held exactly when close |
| GameFeatures.NoRunsLateIffScorelessLateInnings | data_aq.py:117-143 | `no_runs_scored_late` holds exactly when no inning from the seventh on has a run for either club |
| GameFeatures.UnmatchedNameReadsAsAway | data_aq.py:91-138 | Home is decided by comparing the home-team name with the club's display name only. When they differ, the club's runs come from the away halves and its win is the away score beating the home score |
| GameFeatures.TieIsNoWin | data_aq.py:137-139 | A tie on the final score is not a win |
| Acquisition.GameRecords | data_aq.py:87-165 | At most one record per merged game; every record's flags agree with its splits, it carries the pair's team and year, and its game id is a merged game's id |
| Acquisition.CollectGameRecords | data_aq.py:87-165 | The loop over the merged table produces exactly the records of the games whose detail fetch succeeded, in merged order |
| Acquisition.GameRecordsAppend | data_aq.py:89-165 | The records of two consecutive stretches of merged games are computed independently and concatenated |
| Acquisition.FailedGameIsSkipped | data_aq.py:93-165 | A game whose detail fetch fails is dropped without changing any other game's record |
| Acquisition.FetchedGameIsRecorded | data_aq.py:93-162 | A game whose fetch succeeds contributes its derived record at its place in merged order |
| Acquisition.RecordIdsDistinct | data_aq.py:83-162 | Distinct game ids in the merged table give distinct game ids in the output |
| Acquisition.FetchedIdIsRecorded | data_aq.py:93-162 | A merged game whose fetch succeeds has a record carrying its game id |
| Acquisition.MergedGamesRecorded | data_aq.py:82-162 | Each record of a merge carries the id of a game whose date is a schedule date; each such game whose fetch succeeds has a record with its id |
| Acquisition.AcquireTeamYear | data_aq.py:47-173 | A pair produces no file exactly when a fetch raised or there is no regular-season game. Otherwise its records are the records of the merged table, in merged order. They have distinct game ids, consistent flags, and the pair's team and year. Every record's id is the id of a regular-season index game on a parsed schedule date, and every such game whose fetch succeeds has a record with its id |
| Handoff.WriteFile | data_aq.py:146-169 | The written file has one row per record, in record order, carrying that record's values. It has a team column exactly when there is at least one record, because a table built from no records has no columns |
| Aggregation.Count | data_combination.py:83-91 | A column sum never exceeds the number of rows |
| Aggregation.CountIsNumberOfRows | data_combination.py:83-91 | A column sum equals the number of rows in which that column is true |
| Aggregation.CountImplied | data_combination.py:73-88 | A column true wherever another is true has a sum at least as large (`comeback_wins` is at most the comeback count and at most the win count) |
| Aggregation.CountPointwise | data_combination.py:83-91 | Two row lists that agree on a column row by row have the same sum for it |
| Aggregation.CountExclusive | data_combination.py:75-91 | Two columns never true together have sums adding up to at most the row count |
| Aggregation.Summarise | data_combination.py:59-93 | A file cannot be summarised exactly when it has no rows. Otherwise `total_games` is the row count. Team is the first row's team when the file has a team column, else the file's team prefix. Year is the first row's. `comeback_wins` is at most the comeback count and the win count, and every count is at most `total_games` |
| Aggregation.SummaryCountsRows | data_combination.py:62-92 | Each count of a summary (the five flags, `comeback_wins`, `lead_1_2_runs_6th` with missing runs as 0) is the number of rows in which that column is true |
| Aggregation.FillMissingRunsWithZero | data_combination.py:62-77 | Missing or non-numeric run values are read as 0 before the margin is taken: a file summarises to the same row as the file with each missing value replaced by a literal 0 and present values kept |
| Aggregation.FileSummaries | data_combination.py:59-95 | A list of files summarises exactly when none is empty, giving one summary per file in file order |
| Aggregation.TeamSummaries | data_combination.py:59-112 | A team's list can be written exactly when the team has at least one file and none is empty. It then holds one summary per file in file order. A team with no file fails with `NoFiles` |
| Aggregation.FileSummariesFail | data_combination.py:80-82 | One empty file makes the whole team's aggregation fail |
| Aggregation.SummariseTeamFiles | data_combination.py:57-112 | The loop over a team's files appends each summary to the team's list and to the all-teams list. Success (`ok`) holds exactly when the team's list can be written, and then the team's list is that list and the all-teams list grew by exactly it. Failure means an empty file or no file, and does not say which file |
| Aggregation.AggregateTeams | data_combination.py:55-133 | Per-team lists are written in team order. The first team with an empty file or with no file stops the run, so that team and the later ones are unwritten and there is no combined list. Otherwise the combined list is the per-team lists concatenated in team order; with no teams at all it is not written |
| Aggregation.TwoGameExample | data_combination.py:72-92 | A file with a 3-1 winning lead and a 1-3 comeback win gives one comeback win, one 1-2 run lead and two games |
| Handoff.WrittenDerivedColumns | data_combination.py:72-77 | On a written row, the 1-2 run lead is read from the record's own early sums with nothing to coerce, and a comeback win is a comeback scenario that was won. With consistent flags, such a lead is close and not a comeback scenario, and a comeback win trailed after six |
| Handoff.AcquiredFileSummary | data_combination.py:59-95 | For a file written by the first stage, the held count is at most the close count and the scoreless-late count. The 1-2 run lead count is at most the close count, and together with the comeback count it is at most `total_games` |
| Handoff.EmptyAcquisitionCannotBeSummarised | data_combination.py:80-82 | A pair whose merged games all failed writes a file that the second stage cannot summarise (in the source it already fails when that column-less file is read, at line 60) |
| Handoff.PairFileSummary | data_combination.py:79-93 | A non-empty file of records with consistent flags, each carrying one team and year, summarises to a row for that team and year with the held, comeback-win and lead relations |
| Handoff.TeamYearSummary | data_combination.py:79-93 | End to end, a (team, year) pair with at least one record summarises to a row for that team and year whose counts obey the relations above |

## Left out

- The schedule, game-index and game-detail fetches are not modelled (data_aq.py:48, 60-65, 94). They are network calls and become inputs: `Option` tables and a `Fetch` function.
- Extracting and parsing the free-text schedule date (data_aq.py:49-57) is not modelled, because it is library parsing. A row whose date did not parse is `ScheduleRow(None)`. The game index's date parse (data_aq.py:71) is taken to succeed.
- Schedule columns other than the date are not carried into merged rows, because nothing downstream reads them.
- Inside the per-game `try`, any exception is folded into the `Fetch` result being `None`. This includes a missing `liveData` key and a non-numeric `runs` value.
- The outer loops over the team table and the year range in data_aq.py (lines 7-45) are not modelled. The pairs are independent, so `AcquireTeamYear` models one pair. The team table, team names and years are parameters.
- CSV writing and reading, `glob` and its sorting, `os.makedirs`, `print` and the output column order are not modelled. This is file I/O and formatting. A team's files are given as a sequence already in sorted order.
- Pandas `astype(bool)` coercion of arbitrary values is not modelled (data_combination.py:67-70). Flags in files are already boolean.
- Non-integer numeric run values are not modelled. File run values are integers or absent, and an absent value coerces to 0.
- A file missing a whole column is not modelled; every `FileRow` has every column. In the source, a missing `is_comeback_scenario` or `final_win` column raises at data_combination.py:73, a missing `team_runs_6` or `opp_runs_6` at line 76, a missing `year` at line 82, and a missing `is_close_scenario`, `no_runs_scored_late` or `held_game` at line 83, 85 or 86. A missing `team_runs_7_9` or `opp_runs_7_9` raises nothing, since those columns are never read after coercion.
- A `year` cell that is empty or not numeric is not modelled. `FileRow.year` is an integer; in the source `int(...)` at data_combination.py:82 raises on such a cell and ends the run.
- A file written from no records has no columns, and the source fails when it reads that file (data_combination.py:60). The model fails on it at the first-row lookup instead (`EmptyFile`); the outcome, a stopped run, is the same.
- Re-running acquisition on the same inputs gives the same output, because every operation is a function of its inputs. No separate statement is made.
