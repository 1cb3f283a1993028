/**
 * The per-game situational features (data_aq.py, lines 91-162): which club
 * is home, the early/late run splits from that club's side, and the five
 * flags written for the game.
 */
module GameFeatures {
  import opened LineScore
  import opened Reconcile

  /** The largest margin after six innings that still counts as close. */
  const CloseMargin: nat := 2

  function Abs(x: int): nat
  {
    if x < 0 then -x else x
  }

  /** One row of a per-(team, year) output file. */
  datatype GameRecord = GameRecord(
    date: Date, team: string, year: int, gameId: int,
    teamRuns6: nat, oppRuns6: nat, teamRunsLate: nat, oppRunsLate: nat,
    isCloseScenario: bool, isComebackScenario: bool, noRunsScoredLate: bool,
    heldGame: bool, finalWin: bool)

  /** The relations the five flags of a record bear to its run splits. */
  predicate FlagsAgree(g: GameRecord)
  {
    && (g.isCloseScenario <==> Abs(g.teamRuns6 - g.oppRuns6) <= CloseMargin)
    && (g.isComebackScenario <==> g.teamRuns6 < g.oppRuns6)
    && (g.noRunsScoredLate <==> g.teamRunsLate == 0 && g.oppRunsLate == 0)
    && (g.heldGame <==> g.isCloseScenario && g.noRunsScoredLate)
  }

  /** No two records share a game id. */
  predicate DistinctGameIds(records: seq<GameRecord>)
  {
    forall i, j :: 0 <= i < j < |records| ==> records[i].gameId != records[j].gameId
  }

  /** The club is home when the game's home-team name is its display name. */
  function IsHome(row: MergedRow, teamName: string): bool
  {
    row.game.homeTeam == teamName
  }

  /** The final score of the club at home when `home`, else of the club away. */
  function Score(game: GameRow, home: bool): int
  {
    if home then game.homeScore else game.awayScore
  }

  /** The record of one merged game, seen from the club named `teamName` (abbreviation `abbr`). */
  function DeriveRecord(row: MergedRow, abbr: string, teamName: string, year: int,
                        innings: seq<Inning>): (g: GameRecord)
    ensures FlagsAgree(g)
    ensures g.heldGame ==> g.isCloseScenario && g.noRunsScoredLate
    ensures g.date == row.date && g.gameId == row.game.gameId && g.team == abbr && g.year == year
    ensures g.teamRuns6 + g.teamRunsLate == SumRuns(innings, IsHome(row, teamName))
    ensures g.oppRuns6 + g.oppRunsLate == SumRuns(innings, !IsHome(row, teamName))
    ensures g.finalWin <==> Score(row.game, IsHome(row, teamName)) > Score(row.game, !IsHome(row, teamName))
  {
    var isHome := IsHome(row, teamName);
    var s := InningSplits(innings, isHome);
    var teamScore := Score(row.game, isHome);
    var oppScore := Score(row.game, !isHome);
    var close := Abs(s.teamRuns6 - s.oppRuns6) <= CloseMargin;
    var noLate := s.teamRunsLate == 0 && s.oppRunsLate == 0;
    GameRecord(row.date, abbr, year, row.game.gameId,
               s.teamRuns6, s.oppRuns6, s.teamRunsLate, s.oppRunsLate,
               close, s.teamRuns6 < s.oppRuns6, noLate, close && noLate,
               teamScore > oppScore)
  }

  /**
   * The two clubs of one game derive mirror-image records: the run splits
   * trade places, the close, scoreless-late and held flags agree, at most one
   * of them won, and one is in a comeback scenario exactly when the other led.
   */
  lemma BothClubsAgree(row: MergedRow, year: int, innings: seq<Inning>,
                       homeAbbr: string, homeName: string, awayAbbr: string, awayName: string)
    requires row.game.homeTeam == homeName && homeName != awayName
    ensures var h := DeriveRecord(row, homeAbbr, homeName, year, innings);
            var a := DeriveRecord(row, awayAbbr, awayName, year, innings);
            && a.teamRuns6 == h.oppRuns6 && a.oppRuns6 == h.teamRuns6
            && a.teamRunsLate == h.oppRunsLate && a.oppRunsLate == h.teamRunsLate
            && (a.isCloseScenario <==> h.isCloseScenario)
            && (a.noRunsScoredLate <==> h.noRunsScoredLate)
            && (a.heldGame <==> h.heldGame)
            && !(a.finalWin && h.finalWin)
            && (a.isComebackScenario <==> h.teamRuns6 > h.oppRuns6)
  {
  }

  /**
   * A game of six innings or fewer has no late runs, so it is scoreless late
   * and held exactly when it is close.
   */
  lemma ShortGameIsHeldIffClose(row: MergedRow, abbr: string, teamName: string, year: int,
                                innings: seq<Inning>)
    requires |innings| <= EarlyCount
    ensures DeriveRecord(row, abbr, teamName, year, innings).noRunsScoredLate
    ensures DeriveRecord(row, abbr, teamName, year, innings).heldGame
            <==> DeriveRecord(row, abbr, teamName, year, innings).isCloseScenario
  {
  }

  /**
   * A record is scoreless late exactly when no inning from the seventh on
   * has a run for either club.
   */
  lemma NoRunsLateIffScorelessLateInnings(row: MergedRow, abbr: string, teamName: string, year: int,
                                          innings: seq<Inning>)
    ensures DeriveRecord(row, abbr, teamName, year, innings).noRunsScoredLate
            <==> forall i :: EarlyCount <= i < |innings| ==>
                   SideRuns(innings[i], true) == 0 && SideRuns(innings[i], false) == 0
  {
    ScorelessLateIff(innings, IsHome(row, teamName));
  }

  /** A tie on the final score is not a win for either club. */
  lemma TieIsNoWin(row: MergedRow, abbr: string, teamName: string, year: int, innings: seq<Inning>)
    requires row.game.homeScore == row.game.awayScore
    ensures !DeriveRecord(row, abbr, teamName, year, innings).finalWin
  {
  }

  /**
   * Home is decided by display name alone: when the game's home-team name
   * is not the club's name, the club's runs are read from the away halves
   * and its score is the away score, whatever the away-team name is.
   */
  lemma UnmatchedNameReadsAsAway(row: MergedRow, abbr: string, teamName: string, year: int,
                                 innings: seq<Inning>)
    requires row.game.homeTeam != teamName
    ensures !IsHome(row, teamName)
    ensures DeriveRecord(row, abbr, teamName, year, innings).teamRuns6 == SumRuns(Early(innings), false)
    ensures DeriveRecord(row, abbr, teamName, year, innings).oppRuns6 == SumRuns(Early(innings), true)
    ensures DeriveRecord(row, abbr, teamName, year, innings).finalWin <==> row.game.awayScore > row.game.homeScore
  {
  }
}
