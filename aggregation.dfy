/**
 * The aggregation stage (data_combination.py, lines 55-95): each
 * per-(team, year) file becomes one summary row of flag counts; the rows
 * are collected per team and across all teams.
 */
module Aggregation {
  import opened Wrappers

  /**
   * One row of a per-(team, year) file as read back. A run value is None when
   * it is missing or not numeric; the flags are taken as already boolean.
   * The date and game-id columns are not used here.
   */
  datatype FileRow = FileRow(
    team: string, year: int,
    teamRuns6: Option<int>, oppRuns6: Option<int>, teamRuns79: Option<int>, oppRuns79: Option<int>,
    isCloseScenario: bool, isComebackScenario: bool, noRunsScoredLate: bool,
    heldGame: bool, finalWin: bool)

  /** A per-(team, year) file: its rows, and whether it has a team column at all. */
  datatype DataFile = DataFile(hasTeamColumn: bool, rows: seq<FileRow>)

  /** One row of a per-team or combined summary file. */
  datatype Summary = Summary(
    team: string, year: int,
    isCloseScenario: nat, isComebackScenario: nat, noRunsScoredLate: nat, heldGame: nat,
    comebackWins: nat, finalWin: nat, lead12Runs6th: nat, totalGames: nat)

  /**
   * Why aggregation stops: a file with no first row to take team and year
   * from, or a team (or a whole run) with no summary row, whose empty table
   * has none of the columns selected for writing.
   */
  datatype AggregationError = EmptyFile | NoFiles

  /** A missing or non-numeric run value counts as 0. */
  function CoerceRuns(v: Option<int>): int
  {
    match v
    case Some(n) => n
    case None => 0
  }

  /** The club's lead after six innings, negative when trailing. */
  function Margin6(row: FileRow): int
  {
    CoerceRuns(row.teamRuns6) - CoerceRuns(row.oppRuns6)
  }

  /** The per-row boolean columns that are summed into a summary. */
  datatype Column =
    | CloseColumn | ComebackColumn | NoRunsLateColumn | HeldColumn | FinalWinColumn
    | ComebackWinsColumn | Lead12Column

  /** The value of column `c` in `row`, the two derived columns included. */
  predicate Holds(row: FileRow, c: Column)
  {
    match c
    case CloseColumn => row.isCloseScenario
    case ComebackColumn => row.isComebackScenario
    case NoRunsLateColumn => row.noRunsScoredLate
    case HeldColumn => row.heldGame
    case FinalWinColumn => row.finalWin
    case ComebackWinsColumn => row.isComebackScenario && row.finalWin
    case Lead12Column => Margin6(row) == 1 || Margin6(row) == 2
  }

  /** The column sum: the number of rows in which `c` is true. */
  function Count(rows: seq<FileRow>, c: Column): (n: nat)
    ensures n <= |rows|
  {
    if rows == [] then 0
    else Count(rows[..|rows| - 1], c) + (if Holds(rows[|rows| - 1], c) then 1 else 0)
  }

  /** The positions of the rows in which `c` is true. */
  function RowsWhere(rows: seq<FileRow>, c: Column): set<int>
  {
    set i | 0 <= i < |rows| && Holds(rows[i], c)
  }

  /** Adding a row adds its position exactly when the column is true in it. */
  lemma RowsWhereSnoc(rows: seq<FileRow>, c: Column)
    requires rows != []
    ensures RowsWhere(rows, c)
            == RowsWhere(rows[..|rows| - 1], c) + (if Holds(rows[|rows| - 1], c) then {|rows| - 1} else {})
  {
  }

  /** The column sum is the number of rows in which the column is true. */
  lemma {:induction false} CountIsNumberOfRows(rows: seq<FileRow>, c: Column)
    ensures Count(rows, c) == |RowsWhere(rows, c)|
  {
    if rows != [] {
      var prefix := rows[..|rows| - 1];
      CountIsNumberOfRows(prefix, c);
      RowsWhereSnoc(rows, c);
      assert |rows| - 1 !in RowsWhere(prefix, c);
    }
  }

  /** A column true wherever another is true has at least as large a sum. */
  lemma {:induction false} CountImplied(rows: seq<FileRow>, c1: Column, c2: Column)
    requires forall i :: 0 <= i < |rows| && Holds(rows[i], c1) ==> Holds(rows[i], c2)
    ensures Count(rows, c1) <= Count(rows, c2)
  {
    if rows != [] {
      var prefix := rows[..|rows| - 1];
      assert forall i :: 0 <= i < |prefix| ==> prefix[i] == rows[i];
      CountImplied(prefix, c1, c2);
    }
  }

  /** Two columns never true in the same row have sums adding up to at most the row count. */
  lemma {:induction false} CountExclusive(rows: seq<FileRow>, c1: Column, c2: Column)
    requires forall i :: 0 <= i < |rows| ==> !(Holds(rows[i], c1) && Holds(rows[i], c2))
    ensures Count(rows, c1) + Count(rows, c2) <= |rows|
  {
    if rows != [] {
      var prefix := rows[..|rows| - 1];
      assert forall i :: 0 <= i < |prefix| ==> prefix[i] == rows[i];
      CountExclusive(prefix, c1, c2);
    }
  }

  /** Two row lists that agree on column `c` row by row have the same sum for it. */
  lemma {:induction false} CountPointwise(rows1: seq<FileRow>, rows2: seq<FileRow>, c: Column)
    requires |rows1| == |rows2|
    requires forall i :: 0 <= i < |rows1| ==> (Holds(rows1[i], c) <==> Holds(rows2[i], c))
    ensures Count(rows1, c) == Count(rows2, c)
  {
    if rows1 != [] {
      var n := |rows1|;
      assert forall i :: 0 <= i < n - 1 ==> rows1[..n - 1][i] == rows1[i] && rows2[..n - 1][i] == rows2[i];
      CountPointwise(rows1[..n - 1], rows2[..n - 1], c);
    }
  }

  /** A run value with a missing value written as 0. */
  function ZeroIfMissing(v: Option<int>): Option<int>
  {
    if v.None? then Some(0) else v
  }

  /** A row with every missing run value written as 0. */
  function FillZero(row: FileRow): FileRow
  {
    row.(teamRuns6 := ZeroIfMissing(row.teamRuns6), oppRuns6 := ZeroIfMissing(row.oppRuns6),
         teamRuns79 := ZeroIfMissing(row.teamRuns79), oppRuns79 := ZeroIfMissing(row.oppRuns79))
  }

  /** A file with every missing or non-numeric run value replaced by 0. */
  function ZeroFilled(file: DataFile): DataFile
  {
    file.(rows := seq(|file.rows|, i requires 0 <= i < |file.rows| => FillZero(file.rows[i])))
  }

  /**
   * Missing or non-numeric run values are read as 0: a file summarises to
   * the same row as the file with those values written as 0.
   */
  lemma FillMissingRunsWithZero(file: DataFile, teamAbbr: string)
    ensures Summarise(file, teamAbbr) == Summarise(ZeroFilled(file), teamAbbr)
  {
    var rows, filled := file.rows, ZeroFilled(file).rows;
    forall c: Column ensures Count(rows, c) == Count(filled, c) {
      CountPointwise(rows, filled, c);
    }
  }

  /**
   * The summary of one file: team and year from its first row (the team
   * prefix when there is no team column), each count the number of rows in
   * which that column is true, and the row count.
   */
  function Summarise(file: DataFile, teamAbbr: string): (r: Result<Summary, AggregationError>)
    ensures r.Err? <==> file.rows == []
    ensures r.Ok? ==> r.value.totalGames == |file.rows|
    ensures r.Ok? ==> r.value.team == (if file.hasTeamColumn then file.rows[0].team else teamAbbr)
    ensures r.Ok? ==> r.value.year == file.rows[0].year
    ensures r.Ok? ==> r.value.comebackWins <= r.value.isComebackScenario
    ensures r.Ok? ==> r.value.comebackWins <= r.value.finalWin
    ensures r.Ok? ==> r.value.isCloseScenario <= r.value.totalGames && r.value.isComebackScenario <= r.value.totalGames
                      && r.value.noRunsScoredLate <= r.value.totalGames && r.value.heldGame <= r.value.totalGames
                      && r.value.finalWin <= r.value.totalGames && r.value.lead12Runs6th <= r.value.totalGames
  {
    var rows := file.rows;
    if rows == [] then Err(EmptyFile)
    else
      CountImplied(rows, ComebackWinsColumn, ComebackColumn);
      CountImplied(rows, ComebackWinsColumn, FinalWinColumn);
      Ok(Summary(
        if file.hasTeamColumn then rows[0].team else teamAbbr,
        rows[0].year,
        Count(rows, CloseColumn), Count(rows, ComebackColumn), Count(rows, NoRunsLateColumn),
        Count(rows, HeldColumn), Count(rows, ComebackWinsColumn), Count(rows, FinalWinColumn),
        Count(rows, Lead12Column), |rows|))
  }

  /** Each count of a summary is the number of the file's rows in which that column is true. */
  lemma SummaryCountsRows(file: DataFile, teamAbbr: string)
    requires file.rows != []
    ensures Summarise(file, teamAbbr).value.isCloseScenario == |RowsWhere(file.rows, CloseColumn)|
    ensures Summarise(file, teamAbbr).value.isComebackScenario == |RowsWhere(file.rows, ComebackColumn)|
    ensures Summarise(file, teamAbbr).value.noRunsScoredLate == |RowsWhere(file.rows, NoRunsLateColumn)|
    ensures Summarise(file, teamAbbr).value.heldGame == |RowsWhere(file.rows, HeldColumn)|
    ensures Summarise(file, teamAbbr).value.finalWin == |RowsWhere(file.rows, FinalWinColumn)|
    ensures Summarise(file, teamAbbr).value.comebackWins == |RowsWhere(file.rows, ComebackWinsColumn)|
    ensures Summarise(file, teamAbbr).value.lead12Runs6th == |RowsWhere(file.rows, Lead12Column)|
  {
    var rows := file.rows;
    CountIsNumberOfRows(rows, CloseColumn);
    CountIsNumberOfRows(rows, ComebackColumn);
    CountIsNumberOfRows(rows, NoRunsLateColumn);
    CountIsNumberOfRows(rows, HeldColumn);
    CountIsNumberOfRows(rows, FinalWinColumn);
    CountIsNumberOfRows(rows, ComebackWinsColumn);
    CountIsNumberOfRows(rows, Lead12Column);
  }

  /** The summaries of a list of files in file order, or the error of a file that cannot be summarised. */
  function FileSummaries(files: seq<DataFile>, teamAbbr: string): (r: Result<seq<Summary>, AggregationError>)
    ensures r.Ok? <==> forall k :: 0 <= k < |files| ==> files[k].rows != []
    ensures r.Ok? ==> |r.value| == |files|
    ensures r.Ok? ==> forall k :: 0 <= k < |files| ==> Summarise(files[k], teamAbbr) == Ok(r.value[k])
  {
    if files == [] then Ok([])
    else
      var prefix := files[..|files| - 1];
      assert forall k :: 0 <= k < |prefix| ==> prefix[k] == files[k];
      match FileSummaries(prefix, teamAbbr)
      case Err(e) => Err(e)
      case Ok(done) =>
        match Summarise(files[|files| - 1], teamAbbr)
        case Err(e) => Err(e)
        case Ok(s) => Ok(done + [s])
  }

  /**
   * The summary list written for one team: one summary per file, in file
   * order. A team with no files has an empty table, and selecting the
   * output columns from it fails.
   */
  function TeamSummaries(files: seq<DataFile>, teamAbbr: string): (r: Result<seq<Summary>, AggregationError>)
    ensures files == [] ==> r == Err(NoFiles)
    ensures r.Ok? <==> files != [] && forall k :: 0 <= k < |files| ==> files[k].rows != []
    ensures r.Ok? ==> |r.value| == |files| > 0
    ensures r.Ok? ==> forall k :: 0 <= k < |files| ==> Summarise(files[k], teamAbbr) == Ok(r.value[k])
  {
    if files == [] then Err(NoFiles) else FileSummaries(files, teamAbbr)
  }

  /** Summarising one more file extends the list by that file's summary. */
  lemma FileSummariesStep(files: seq<DataFile>, k: int, teamAbbr: string, done: seq<Summary>)
    requires 0 <= k < |files| && FileSummaries(files[..k], teamAbbr) == Ok(done)
    requires Summarise(files[k], teamAbbr).Ok?
    ensures FileSummaries(files[..k + 1], teamAbbr) == Ok(done + [Summarise(files[k], teamAbbr).value])
  {
    assert files[..k + 1][..k] == files[..k];
  }

  /** One file that cannot be summarised makes the whole team fail. */
  lemma FileSummariesFail(files: seq<DataFile>, k: int, teamAbbr: string)
    requires 0 <= k < |files| && Summarise(files[k], teamAbbr).Err?
    ensures FileSummaries(files, teamAbbr).Err? && TeamSummaries(files, teamAbbr).Err?
  {
  }

  /** The per-team lists one after the other. */
  function Concat(lists: seq<seq<Summary>>): seq<Summary>
  {
    if lists == [] then [] else Concat(lists[..|lists| - 1]) + lists[|lists| - 1]
  }

  lemma ConcatSnoc(lists: seq<seq<Summary>>, last: seq<Summary>)
    ensures Concat(lists + [last]) == Concat(lists) + last
  {
  }

  /**
   * The loop over one team's files, then the writing of the team's list:
   * each summary is appended both to the team's list and to the list across
   * all teams. `ok` is false when a file cannot be summarised or the team
   * has no file at all; either stops the run before the team's list is
   * written.
   */
  method SummariseTeamFiles(files: seq<DataFile>, team: string, allTeams: seq<Summary>)
    returns (teamData: seq<Summary>, allTeams': seq<Summary>, ok: bool)
    ensures ok <==> TeamSummaries(files, team).Ok?
    ensures ok ==> TeamSummaries(files, team) == Ok(teamData) && allTeams' == allTeams + teamData
  {
    teamData, allTeams' := [], allTeams;
    var k := 0;
    while k < |files|
      invariant 0 <= k <= |files|
      invariant FileSummaries(files[..k], team) == Ok(teamData)
      invariant allTeams' == allTeams + teamData
    {
      var s := Summarise(files[k], team);
      if s.Err? {
        FileSummariesFail(files, k, team);
        return teamData, allTeams', false;
      }
      FileSummariesStep(files, k, team, teamData);
      teamData := teamData + [s.value];
      allTeams' := allTeams' + [s.value];
      k := k + 1;
    }
    assert files[..k] == files;
    ok := teamData != [];
  }

  /**
   * The loop over teams. `written` holds the per-team summary lists that were
   * written, in team order. The first team whose list cannot be produced
   * (an empty file, or no file at all) stops the run, leaving that team and
   * the later ones unwritten and no combined list. Otherwise the combined
   * list is the per-team lists in team order, unless there were no teams:
   * the empty combined table cannot be written either.
   */
  method AggregateTeams(teams: seq<string>, filesOf: string -> seq<DataFile>)
    returns (written: seq<seq<Summary>>, combined: Option<seq<Summary>>)
    ensures |written| <= |teams|
    ensures forall t :: 0 <= t < |written| ==> TeamSummaries(filesOf(teams[t]), teams[t]) == Ok(written[t])
    ensures |written| < |teams| ==> TeamSummaries(filesOf(teams[|written|]), teams[|written|]).Err?
    ensures combined.Some? <==> |written| == |teams| && teams != []
    ensures combined.Some? ==> combined.value == Concat(written)
  {
    written := [];
    var allTeams: seq<Summary> := [];
    var t := 0;
    while t < |teams|
      invariant 0 <= t <= |teams| && |written| == t
      invariant forall u :: 0 <= u < t ==> TeamSummaries(filesOf(teams[u]), teams[u]) == Ok(written[u])
      invariant allTeams == Concat(written)
      invariant t > 0 ==> allTeams != []
    {
      var teamData, ok;
      teamData, allTeams, ok := SummariseTeamFiles(filesOf(teams[t]), teams[t], allTeams);
      if !ok {
        combined := None;
        return;
      }
      ConcatSnoc(written, teamData);
      written := written + [teamData];
      t := t + 1;
    }
    combined := if allTeams == [] then None else Some(allTeams);
  }

  /**
   * A two-game file: a win leading 3-1 after six and a comeback win from
   * 1-3 give one comeback win, one 1-2 run lead, two games.
   */
  lemma TwoGameExample(team: string)
    ensures var lead := FileRow(team, 2015, Some(3), Some(1), Some(0), Some(0), true, false, true, true, true);
            var trail := FileRow(team, 2015, Some(1), Some(3), Some(0), Some(0), true, true, true, true, true);
            var s := Summarise(DataFile(true, [lead, trail]), team).value;
            s.comebackWins == 1 && s.lead12Runs6th == 1 && s.totalGames == 2
  {
    var lead := FileRow(team, 2015, Some(3), Some(1), Some(0), Some(0), true, false, true, true, true);
    var trail := FileRow(team, 2015, Some(1), Some(3), Some(0), Some(0), true, true, true, true, true);
    var rows := [lead, trail];
    assert rows[..1] == [lead] && [lead][..0] == [];
    assert Count(rows, ComebackWinsColumn) == 1;
    assert Count(rows, Lead12Column) == 1;
    CountIsNumberOfRows(rows, ComebackWinsColumn);
    CountIsNumberOfRows(rows, Lead12Column);
  }
}
