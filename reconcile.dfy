/**
 * Reconciling a club's season schedule with the league's game index
 * (data_aq.py, lines 58-85): drop schedule rows whose date did not parse,
 * keep regular-season games, inner-join the two on date, then drop rows
 * whose game id was already seen.
 */
module Reconcile {
  import opened Wrappers

  /** A calendar date; parsing the schedule's free-text date is not modelled. */
  datatype Date = Date(year: int, month: nat, day: nat)

  /** A schedule row: only its date is used, and it is absent when parsing failed. */
  datatype ScheduleRow = ScheduleRow(date: Option<Date>)

  /** A game of the game index, as put into the game table. */
  datatype GameRow = GameRow(date: Date, homeTeam: string, awayTeam: string, gameId: int,
                             homeScore: int, awayScore: int)

  /** A game as the index returns it, with its game-type code. */
  datatype ApiGame = ApiGame(gameType: string, game: GameRow)

  /** A row of the merged table: the join key and the game it was paired with. */
  datatype MergedRow = MergedRow(date: Date, game: GameRow)

  /** The game-type code of a regular-season game. */
  const RegularSeasonType: string := "R"

  /** The schedule dates that parsed, in schedule order. */
  function ParsedDates(schedule: seq<ScheduleRow>): (dates: seq<Date>)
    ensures |dates| <= |schedule|
    ensures forall d :: d in dates <==> ScheduleRow(Some(d)) in schedule
  {
    if schedule == [] then []
    else
      assert forall r :: r in schedule <==> r == schedule[0] || r in schedule[1..];
      (match schedule[0].date
       case Some(d) => [d]
       case None => []) + ParsedDates(schedule[1..])
  }

  /** The regular-season games of the index, in index order. */
  function RegularSeason(games: seq<ApiGame>): (rows: seq<GameRow>)
    ensures |rows| <= |games|
    ensures forall g :: g in rows <==> ApiGame(RegularSeasonType, g) in games
  {
    if games == [] then []
    else
      assert forall a :: a in games <==> a == games[0] || a in games[1..];
      (if games[0].gameType == RegularSeasonType then [games[0].game] else [])
      + RegularSeason(games[1..])
  }

  /** The games played on `date`, each paired with it, in game order. */
  function GamesOn(date: Date, games: seq<GameRow>): (r: seq<MergedRow>)
    ensures forall m :: m in r ==> m.date == date && m.game.date == date && m.game in games
    ensures forall j :: 0 <= j < |games| && games[j].date == date ==> MergedRow(date, games[j]) in r
    ensures |r| <= |games|
  {
    if games == [] then []
    else
      assert forall j :: 1 <= j < |games| ==> games[j] == games[1..][j - 1];
      (if games[0].date == date then [MergedRow(date, games[0])] else []) + GamesOn(date, games[1..])
  }

  /**
   * Inner join on date: for each schedule date in order, the games of that
   * date in game order.
   */
  function InnerJoinOnDate(dates: seq<Date>, games: seq<GameRow>): (r: seq<MergedRow>)
    ensures forall m :: m in r ==> m.date == m.game.date && m.date in dates && m.game in games
    ensures forall i, j :: 0 <= i < |dates| && 0 <= j < |games| && dates[i] == games[j].date ==>
              MergedRow(dates[i], games[j]) in r
  {
    if dates == [] then []
    else
      assert forall i :: 1 <= i < |dates| ==> dates[i] == dates[1..][i - 1];
      GamesOn(dates[0], games) + InnerJoinOnDate(dates[1..], games)
  }

  /** Filtering the schedule keeps order: a split schedule filters piece by piece. */
  lemma {:induction false} ParsedDatesAppend(a: seq<ScheduleRow>, b: seq<ScheduleRow>)
    ensures ParsedDates(a + b) == ParsedDates(a) + ParsedDates(b)
  {
    if a == [] {
      assert a + b == b;
    } else {
      assert (a + b)[1..] == a[1..] + b;
      ParsedDatesAppend(a[1..], b);
    }
  }

  /** Filtering the index keeps order: a split index filters piece by piece. */
  lemma {:induction false} RegularSeasonAppend(a: seq<ApiGame>, b: seq<ApiGame>)
    ensures RegularSeason(a + b) == RegularSeason(a) + RegularSeason(b)
  {
    if a == [] {
      assert a + b == b;
    } else {
      assert (a + b)[1..] == a[1..] + b;
      RegularSeasonAppend(a[1..], b);
    }
  }

  /** The games of one date keep game order: a split game table pairs piece by piece. */
  lemma {:induction false} GamesOnAppend(date: Date, a: seq<GameRow>, b: seq<GameRow>)
    ensures GamesOn(date, a + b) == GamesOn(date, a) + GamesOn(date, b)
  {
    if a == [] {
      assert a + b == b;
    } else {
      assert (a + b)[1..] == a[1..] + b;
      GamesOnAppend(date, a[1..], b);
    }
  }

  /**
   * The join is taken date by date in schedule order: the rows of a split
   * date list are the rows of the first part followed by those of the second.
   */
  lemma {:induction false} InnerJoinAppend(a: seq<Date>, b: seq<Date>, games: seq<GameRow>)
    ensures InnerJoinOnDate(a + b, games) == InnerJoinOnDate(a, games) + InnerJoinOnDate(b, games)
  {
    if a == [] {
      assert a + b == b;
    } else {
      assert (a + b)[1..] == a[1..] + b;
      InnerJoinAppend(a[1..], b, games);
    }
  }

  /** Joining a single date pairs it with its games in game order. */
  lemma InnerJoinOneDate(d: Date, games: seq<GameRow>)
    ensures InnerJoinOnDate([d], games) == GamesOn(d, games)
  {
    assert [d][1..] == [];
  }

  function GameIds(rows: seq<MergedRow>): set<int>
  {
    set m | m in rows :: m.game.gameId
  }

  predicate IdsDistinct(rows: seq<MergedRow>)
  {
    forall i, j :: 0 <= i < j < |rows| ==> rows[i].game.gameId != rows[j].game.gameId
  }

  /** Row `i` is the first row carrying its game id. */
  predicate IsFirstOccurrence(rows: seq<MergedRow>, i: int)
    requires 0 <= i < |rows|
  {
    forall j :: 0 <= j < i ==> rows[j].game.gameId != rows[i].game.gameId
  }

  /** `a` is `b` with some rows left out, the rest in their order. */
  predicate IsSubsequence(a: seq<MergedRow>, b: seq<MergedRow>)
    decreases |b|
  {
    if a == [] then true
    else if b == [] then false
    else if a[|a| - 1] == b[|b| - 1] then IsSubsequence(a[..|a| - 1], b[..|b| - 1])
    else IsSubsequence(a, b[..|b| - 1])
  }

  /** Drop rows whose game id appeared earlier, keeping the first occurrence. */
  function DropDuplicateIds(rows: seq<MergedRow>): (r: seq<MergedRow>)
    ensures IdsDistinct(r)
    ensures GameIds(r) == GameIds(rows)
    ensures forall m :: m in r ==> m in rows
    ensures |r| <= |rows|
  {
    if rows == [] then []
    else
      var prefix := rows[..|rows| - 1];
      var last := rows[|rows| - 1];
      var kept := DropDuplicateIds(prefix);
      assert rows == prefix + [last];
      GameIdsAppend(prefix, last);
      GameIdsAppend(kept, last);
      if last.game.gameId in GameIds(prefix) then kept else kept + [last]
  }

  lemma GameIdsAppend(rows: seq<MergedRow>, x: MergedRow)
    ensures GameIds(rows + [x]) == GameIds(rows) + {x.game.gameId}
  {
  }

  lemma {:induction false} SubsequenceExtend(a: seq<MergedRow>, b: seq<MergedRow>, x: MergedRow)
    requires IsSubsequence(a, b)
    ensures IsSubsequence(a, b + [x])
    decreases |b|, 1
  {
    assert (b + [x])[..|b|] == b;
    if a != [] && a[|a| - 1] == x {
      SubsequenceDropLast(a, b);
    }
  }

  lemma {:induction false} SubsequenceDropLast(a: seq<MergedRow>, b: seq<MergedRow>)
    requires a != [] && IsSubsequence(a, b)
    ensures IsSubsequence(a[..|a| - 1], b)
    decreases |b|, 0
  {
    var b' := b[..|b| - 1];
    assert b == b' + [b[|b| - 1]];
    if a[|a| - 1] == b[|b| - 1] {
      SubsequenceExtend(a[..|a| - 1], b', b[|b| - 1]);
    } else {
      SubsequenceDropLast(a, b');
      SubsequenceExtend(a[..|a| - 1], b', b[|b| - 1]);
    }
  }

  /** Dropping duplicates keeps the surviving rows in their original order. */
  lemma {:induction false} DropDuplicatesKeepsOrder(rows: seq<MergedRow>)
    ensures IsSubsequence(DropDuplicateIds(rows), rows)
  {
    if rows != [] {
      var prefix, last := rows[..|rows| - 1], rows[|rows| - 1];
      var kept := DropDuplicateIds(prefix);
      assert rows == prefix + [last];
      DropDuplicatesKeepsOrder(prefix);
      if last.game.gameId in GameIds(prefix) {
        SubsequenceExtend(kept, prefix, last);
      } else {
        assert (kept + [last])[..|kept|] == kept;
      }
    }
  }

  /** The row kept for a game id is the first row of the input carrying that id. */
  lemma {:induction false} KeptRowIsFirst(rows: seq<MergedRow>, k: int, i: int)
    requires 0 <= k < |DropDuplicateIds(rows)| && 0 <= i < |rows|
    requires IsFirstOccurrence(rows, i)
    requires rows[i].game.gameId == DropDuplicateIds(rows)[k].game.gameId
    ensures DropDuplicateIds(rows)[k] == rows[i]
  {
    var n := |rows|;
    var prefix, last := rows[..n - 1], rows[n - 1];
    var kept := DropDuplicateIds(prefix);
    if last.game.gameId in GameIds(prefix) {
      assert IsFirstOccurrence(prefix, i) by {
        assert forall j :: 0 <= j < i ==> prefix[j] == rows[j];
      }
      KeptRowIsFirst(prefix, k, i);
    } else if k < |kept| {
      assert kept[k].game.gameId in GameIds(kept);
      assert i != n - 1;
      assert IsFirstOccurrence(prefix, i) by {
        assert forall j :: 0 <= j < i ==> prefix[j] == rows[j];
      }
      KeptRowIsFirst(prefix, k, i);
    }
  }

  /** Every first occurrence of a game id survives. */
  lemma {:induction false} FirstOccurrenceIsKept(rows: seq<MergedRow>, i: int)
    requires 0 <= i < |rows| && IsFirstOccurrence(rows, i)
    ensures rows[i] in DropDuplicateIds(rows)
  {
    var n := |rows|;
    var prefix, last := rows[..n - 1], rows[n - 1];
    if i < n - 1 {
      assert IsFirstOccurrence(prefix, i) by {
        assert forall j :: 0 <= j < i ==> prefix[j] == rows[j];
      }
      FirstOccurrenceIsKept(prefix, i);
    }
  }

  /**
   * The merged table: every row pairs a parsed schedule date with a game on
   * that date, game ids are distinct, and every game that matched some date
   * is represented.
   */
  function MergeSchedule(dates: seq<Date>, games: seq<GameRow>): (r: seq<MergedRow>)
    ensures IdsDistinct(r)
    ensures forall m :: m in r ==> m.date == m.game.date && m.date in dates && m.game in games
    ensures forall i, j :: 0 <= i < |dates| && 0 <= j < |games| && dates[i] == games[j].date ==>
              games[j].gameId in GameIds(r)
  {
    var joined := InnerJoinOnDate(dates, games);
    assert forall i, j :: 0 <= i < |dates| && 0 <= j < |games| && dates[i] == games[j].date ==>
             games[j].gameId in GameIds(joined) by {
      forall i, j | 0 <= i < |dates| && 0 <= j < |games| && dates[i] == games[j].date
        ensures games[j].gameId in GameIds(joined)
      {
        assert MergedRow(dates[i], games[j]) in joined;
      }
    }
    DropDuplicateIds(joined)
  }
}
