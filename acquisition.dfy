/**
 * The acquisition stage for one (team, year) pair (data_aq.py, lines
 * 47-173): merge schedule and game index, then fetch each merged game's
 * line score and derive its record, skipping games whose fetch fails.
 */
module Acquisition {
  import opened Wrappers
  import opened LineScore
  import opened Reconcile
  import opened GameFeatures

  /**
   * The game-detail service: a game id's line-score innings, or None when the
   * fetch or the lookup of its innings raised.
   */
  type Fetch = int -> Option<seq<Inning>>

  /** The records of the merged rows whose detail fetch succeeded, in merged order. */
  function GameRecords(rows: seq<MergedRow>, abbr: string, teamName: string, year: int,
                       fetch: Fetch): (records: seq<GameRecord>)
    ensures |records| <= |rows|
    ensures forall g :: g in records ==> FlagsAgree(g) && g.team == abbr && g.year == year
    ensures forall g :: g in records ==> g.gameId in GameIds(rows)
  {
    if rows == [] then []
    else
      var prefix, row := rows[..|rows| - 1], rows[|rows| - 1];
      assert rows == prefix + [row];
      GameIdsAppend(prefix, row);
      var prior := GameRecords(prefix, abbr, teamName, year, fetch);
      match fetch(row.game.gameId)
      case None => prior
      case Some(innings) => prior + [DeriveRecord(row, abbr, teamName, year, innings)]
  }

  /** The loop over the merged table, appending one record per game whose fetch succeeds. */
  method CollectGameRecords(merged: seq<MergedRow>, abbr: string, teamName: string, year: int,
                            fetch: Fetch) returns (records: seq<GameRecord>)
    ensures records == GameRecords(merged, abbr, teamName, year, fetch)
  {
    records := [];
    var i := 0;
    while i < |merged|
      invariant 0 <= i <= |merged|
      invariant records == GameRecords(merged[..i], abbr, teamName, year, fetch)
    {
      var row := merged[i];
      match fetch(row.game.gameId) {
        case Some(innings) =>
          records := records + [DeriveRecord(row, abbr, teamName, year, innings)];
        case None =>
      }
      assert merged[..i + 1][..i] == merged[..i];
      i := i + 1;
    }
    assert merged[..i] == merged;
  }

  /** Records of consecutive stretches of the merged table are computed independently. */
  lemma {:induction false} GameRecordsAppend(a: seq<MergedRow>, b: seq<MergedRow>, abbr: string,
                                             teamName: string, year: int, fetch: Fetch)
    ensures GameRecords(a + b, abbr, teamName, year, fetch)
            == GameRecords(a, abbr, teamName, year, fetch) + GameRecords(b, abbr, teamName, year, fetch)
    decreases |b|
  {
    if b != [] {
      var b', last := b[..|b| - 1], b[|b| - 1];
      assert (a + b)[..|a + b| - 1] == a + b';
      assert (a + b)[|a + b| - 1] == last;
      GameRecordsAppend(a, b', abbr, teamName, year, fetch);
    } else {
      assert a + b == a;
    }
  }

  /** A game whose detail fetch fails is dropped, and the other games' records are unaffected. */
  lemma FailedGameIsSkipped(before: seq<MergedRow>, row: MergedRow, after: seq<MergedRow>, abbr: string,
                            teamName: string, year: int, fetch: Fetch)
    requires fetch(row.game.gameId).None?
    ensures GameRecords(before + [row] + after, abbr, teamName, year, fetch)
            == GameRecords(before + after, abbr, teamName, year, fetch)
  {
    GameRecordsAppend(before + [row], after, abbr, teamName, year, fetch);
    GameRecordsAppend(before, [row], abbr, teamName, year, fetch);
    GameRecordsAppend(before, after, abbr, teamName, year, fetch);
    assert [row][..0] == [];
  }

  /** A game whose fetch succeeds contributes its derived record, at its place in merged order. */
  lemma FetchedGameIsRecorded(before: seq<MergedRow>, row: MergedRow, after: seq<MergedRow>, abbr: string,
                              teamName: string, year: int, fetch: Fetch)
    requires fetch(row.game.gameId).Some?
    ensures GameRecords(before + [row] + after, abbr, teamName, year, fetch)
            == GameRecords(before, abbr, teamName, year, fetch)
               + [DeriveRecord(row, abbr, teamName, year, fetch(row.game.gameId).value)]
               + GameRecords(after, abbr, teamName, year, fetch)
  {
    GameRecordsAppend(before + [row], after, abbr, teamName, year, fetch);
    GameRecordsAppend(before, [row], abbr, teamName, year, fetch);
    assert [row][..0] == [];
  }

  /** Distinct game ids in the merged table give distinct game ids in the output. */
  lemma {:induction false} RecordIdsDistinct(rows: seq<MergedRow>, abbr: string, teamName: string, year: int,
                                             fetch: Fetch)
    requires IdsDistinct(rows)
    ensures DistinctGameIds(GameRecords(rows, abbr, teamName, year, fetch))
  {
    if rows != [] {
      var prefix, row := rows[..|rows| - 1], rows[|rows| - 1];
      assert IdsDistinct(prefix) by {
        assert forall k :: 0 <= k < |prefix| ==> prefix[k] == rows[k];
      }
      RecordIdsDistinct(prefix, abbr, teamName, year, fetch);
      var prior := GameRecords(prefix, abbr, teamName, year, fetch);
      assert row.game.gameId !in GameIds(prefix) by {
        forall m | m in prefix ensures m.game.gameId != row.game.gameId {
          var k :| 0 <= k < |prefix| && prefix[k] == m;
          assert rows[k] == m;
        }
      }
      match fetch(row.game.gameId) {
        case None =>
        case Some(innings) =>
          var d := DeriveRecord(row, abbr, teamName, year, innings);
          var records := prior + [d];
          assert records == GameRecords(rows, abbr, teamName, year, fetch);
          forall i, j | 0 <= i < j < |records| ensures records[i].gameId != records[j].gameId {
            assert records[i] == prior[i];
            if j == |prior| {
              assert prior[i] in prior;
            } else {
              assert records[j] == prior[j];
            }
          }
      }
    }
  }

  /** A merged game whose fetch succeeds has a record carrying its game id. */
  lemma FetchedIdIsRecorded(rows: seq<MergedRow>, m: MergedRow, abbr: string, teamName: string, year: int,
                            fetch: Fetch)
    requires m in rows && fetch(m.game.gameId).Some?
    ensures exists g :: g in GameRecords(rows, abbr, teamName, year, fetch) && g.gameId == m.game.gameId
  {
    var k :| 0 <= k < |rows| && rows[k] == m;
    assert rows == rows[..k] + [m] + rows[k + 1..];
    FetchedGameIsRecorded(rows[..k], m, rows[k + 1..], abbr, teamName, year, fetch);
    var d := DeriveRecord(m, abbr, teamName, year, fetch(m.game.gameId).value);
    assert d in GameRecords(rows, abbr, teamName, year, fetch);
  }

  /**
   * The records of a merge are exactly about the games that matched a date:
   * each record's id is such a game's id, and each such game whose fetch
   * succeeds has a record.
   */
  lemma MergedGamesRecorded(dates: seq<Date>, games: seq<GameRow>, abbr: string, teamName: string,
                            year: int, fetch: Fetch)
    ensures forall g :: g in GameRecords(MergeSchedule(dates, games), abbr, teamName, year, fetch) ==>
              exists a :: a in games && a.date in dates && a.gameId == g.gameId
    ensures forall a :: a in games && a.date in dates && fetch(a.gameId).Some? ==>
              exists g :: g in GameRecords(MergeSchedule(dates, games), abbr, teamName, year, fetch)
                          && g.gameId == a.gameId
  {
    var merged := MergeSchedule(dates, games);
    var records := GameRecords(merged, abbr, teamName, year, fetch);
    forall g | g in records ensures exists a :: a in games && a.date in dates && a.gameId == g.gameId {
      var m :| m in merged && m.game.gameId == g.gameId;
      assert m.game in games && m.game.date in dates;
    }
    forall a | a in games && a.date in dates && fetch(a.gameId).Some?
      ensures exists g :: g in records && g.gameId == a.gameId
    {
      var i :| 0 <= i < |dates| && dates[i] == a.date;
      var j :| 0 <= j < |games| && games[j] == a;
      assert a.gameId in GameIds(merged);
      var m :| m in merged && m.game.gameId == a.gameId;
      FetchedIdIsRecorded(merged, m, abbr, teamName, year, fetch);
    }
  }

  /**
   * One (team, year) pair: None when a fetch raised or when the game index
   * held no regular-season game (the empty game table has no date column to
   * merge on), and no file is written; otherwise the records of the merged
   * games, with distinct game ids.
   */
  function AcquireTeamYear(schedule: Option<seq<ScheduleRow>>, index: Option<seq<ApiGame>>,
                           abbr: string, teamName: string, year: int, fetch: Fetch)
    : (out: Option<seq<GameRecord>>)
    ensures out.None? <==> schedule.None? || index.None? || RegularSeason(index.value) == []
    ensures out.Some? ==> DistinctGameIds(out.value)
    ensures out.Some? ==> forall g :: g in out.value ==> FlagsAgree(g) && g.team == abbr && g.year == year
    ensures out.Some? ==> out.value == GameRecords(MergeSchedule(ParsedDates(schedule.value),
                                                                 RegularSeason(index.value)),
                                                   abbr, teamName, year, fetch)
    ensures out.Some? ==> forall g :: g in out.value ==>
              exists a :: ApiGame(RegularSeasonType, a) in index.value && ScheduleRow(Some(a.date)) in schedule.value
                          && a.gameId == g.gameId
    ensures out.Some? ==> forall a ::
              (ApiGame(RegularSeasonType, a) in index.value && ScheduleRow(Some(a.date)) in schedule.value
               && fetch(a.gameId).Some?) ==> exists g :: g in out.value && g.gameId == a.gameId
  {
    if schedule.None? || index.None? then None
    else
      var games := RegularSeason(index.value);
      if games == [] then None
      else
        var merged := MergeSchedule(ParsedDates(schedule.value), games);
        RecordIdsDistinct(merged, abbr, teamName, year, fetch);
        MergedGamesRecorded(ParsedDates(schedule.value), games, abbr, teamName, year, fetch);
        Some(GameRecords(merged, abbr, teamName, year, fetch))
  }
}
