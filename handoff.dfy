/**
 * The file hand-off between the two stages: the acquisition stage writes
 * its records as rows of a per-(team, year) file (data_aq.py, lines
 * 146-169) that the aggregation stage reads back (data_combination.py,
 * lines 59-95).
 */
module Handoff {
  import opened Wrappers
  import opened GameFeatures
  import opened Aggregation
  import opened Reconcile
  import opened Acquisition

  /** A record as its row is read back: every run column present and numeric. */
  function WriteRow(g: GameRecord): FileRow
  {
    FileRow(g.team, g.year, Some(g.teamRuns6), Some(g.oppRuns6), Some(g.teamRunsLate), Some(g.oppRunsLate),
            g.isCloseScenario, g.isComebackScenario, g.noRunsScoredLate, g.heldGame, g.finalWin)
  }

  /**
   * The file written for one (team, year) pair: a team column whenever there
   * is a record (a table built from no records has no columns at all).
   */
  function WriteFile(records: seq<GameRecord>): (file: DataFile)
    ensures file.hasTeamColumn == (records != []) && |file.rows| == |records|
    ensures forall i :: 0 <= i < |records| ==> file.rows[i] == WriteRow(records[i])
  {
    DataFile(records != [], seq(|records|, i requires 0 <= i < |records| => WriteRow(records[i])))
  }

  /**
   * The two columns the second stage derives, on a written row: a 1-2 run
   * lead is read from the record's own early sums, with nothing to coerce,
   * and a comeback win is a comeback scenario that was won. When the
   * record's flags agree with its runs, a 1-2 run lead is a close game that
   * is not a comeback scenario, and a comeback win trailed after six.
   */
  lemma WrittenDerivedColumns(g: GameRecord)
    ensures Holds(WriteRow(g), Lead12Column) <==> 1 <= g.teamRuns6 - g.oppRuns6 <= 2
    ensures Holds(WriteRow(g), ComebackWinsColumn) <==> g.isComebackScenario && g.finalWin
    ensures FlagsAgree(g) && Holds(WriteRow(g), Lead12Column) ==> g.isCloseScenario && !g.isComebackScenario
    ensures FlagsAgree(g) && Holds(WriteRow(g), ComebackWinsColumn) ==> g.teamRuns6 < g.oppRuns6
  {
  }

  /**
   * The summary of a file the acquisition stage wrote, whose flags agree with
   * its runs: team and year are the first record's, the held count is at most
   * the close and the scoreless-late counts, a 1-2 run lead after six is
   * always close and never a comeback scenario.
   */
  lemma AcquiredFileSummary(records: seq<GameRecord>, teamAbbr: string)
    requires records != []
    requires forall i :: 0 <= i < |records| ==> FlagsAgree(records[i])
    ensures Summarise(WriteFile(records), teamAbbr).Ok?
    ensures var s := Summarise(WriteFile(records), teamAbbr).value;
            && s.team == records[0].team && s.year == records[0].year && s.totalGames == |records|
            && s.heldGame <= s.isCloseScenario && s.heldGame <= s.noRunsScoredLate
            && s.lead12Runs6th <= s.isCloseScenario
            && s.lead12Runs6th + s.isComebackScenario <= s.totalGames
  {
    var rows := WriteFile(records).rows;
    CountImplied(rows, HeldColumn, CloseColumn);
    CountImplied(rows, HeldColumn, NoRunsLateColumn);
    CountImplied(rows, Lead12Column, CloseColumn);
    CountExclusive(rows, Lead12Column, ComebackColumn);
  }

  /** A (team, year) pair whose merged games all failed to fetch writes a file that cannot be summarised. */
  lemma EmptyAcquisitionCannotBeSummarised(teamAbbr: string)
    ensures Summarise(WriteFile([]), teamAbbr) == Err(EmptyFile)
  {
  }

  /**
   * End to end: when one (team, year) pair yields at least one record, its
   * file summarises to a row for that team and year whose counts obey the
   * relations above.
   */
  lemma TeamYearSummary(schedule: Option<seq<ScheduleRow>>, index: Option<seq<ApiGame>>,
                        abbr: string, teamName: string, year: int, fetch: Fetch)
    requires AcquireTeamYear(schedule, index, abbr, teamName, year, fetch).Some?
    requires AcquireTeamYear(schedule, index, abbr, teamName, year, fetch).value != []
    ensures var records := AcquireTeamYear(schedule, index, abbr, teamName, year, fetch).value;
            var s := Summarise(WriteFile(records), abbr).value;
            && Summarise(WriteFile(records), abbr).Ok?
            && s.team == abbr && s.year == year && s.totalGames == |records|
            && s.heldGame <= s.isCloseScenario && s.heldGame <= s.noRunsScoredLate
            && s.comebackWins <= s.isComebackScenario && s.comebackWins <= s.finalWin
            && s.lead12Runs6th + s.isComebackScenario <= s.totalGames
  {
    var records := AcquireTeamYear(schedule, index, abbr, teamName, year, fetch).value;
    PairFileSummary(records, abbr, year);
  }

  /** The summary of a non-empty file of one pair's records, each carrying that pair's team and year. */
  lemma PairFileSummary(records: seq<GameRecord>, abbr: string, year: int)
    requires records != []
    requires forall g :: g in records ==> FlagsAgree(g) && g.team == abbr && g.year == year
    ensures var s := Summarise(WriteFile(records), abbr).value;
            && Summarise(WriteFile(records), abbr).Ok?
            && s.team == abbr && s.year == year && s.totalGames == |records|
            && s.heldGame <= s.isCloseScenario && s.heldGame <= s.noRunsScoredLate
            && s.comebackWins <= s.isComebackScenario && s.comebackWins <= s.finalWin
            && s.lead12Runs6th + s.isComebackScenario <= s.totalGames
  {
    assert records[0] in records;
    AcquiredFileSummary(records, abbr);
  }
}
