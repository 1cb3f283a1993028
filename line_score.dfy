/**
 * The inning-by-inning line score of one game, and the early/late run sums
 * derived from it (data_aq.py, lines 95-136).
 */
module LineScore {
  import opened Wrappers

  /** One club's half of an inning; the run count may be absent (an unplayed half). */
  datatype HalfInning = HalfInning(runs: Option<nat>)

  /** One inning of the line score; either half may be absent altogether. */
  datatype Inning = Inning(home: Option<HalfInning>, away: Option<HalfInning>)

  /** Innings 1 to 6 are "early"; the seventh inning onward is "late". */
  const EarlyCount: nat := 6

  /** Runs of one half: a missing half or a missing run count gives 0. */
  function HalfRuns(half: Option<HalfInning>): nat
  {
    match half
    case Some(HalfInning(Some(r))) => r
    case _ => 0
  }

  /** The half of `inning` that belongs to the home club when `home`, else to the away club. */
  function Half(inning: Inning, home: bool): Option<HalfInning>
  {
    if home then inning.home else inning.away
  }

  function SideRuns(inning: Inning, home: bool): nat
  {
    HalfRuns(Half(inning, home))
  }

  /** Runs of one side (home when `home`) summed over `innings`. */
  function SumRuns(innings: seq<Inning>, home: bool): nat
  {
    if innings == [] then 0 else SideRuns(innings[0], home) + SumRuns(innings[1..], home)
  }

  /** `innings[:6]`: a list shorter than six is taken whole. */
  function Early(innings: seq<Inning>): seq<Inning>
  {
    if |innings| <= EarlyCount then innings else innings[..EarlyCount]
  }

  /** `innings[6:]`: empty when there are six innings or fewer. */
  function Late(innings: seq<Inning>): seq<Inning>
  {
    if |innings| <= EarlyCount then [] else innings[EarlyCount..]
  }

  lemma {:induction false} SumRunsAppend(a: seq<Inning>, b: seq<Inning>, home: bool)
    ensures SumRuns(a + b, home) == SumRuns(a, home) + SumRuns(b, home)
  {
    if a == [] {
      assert a + b == b;
    } else {
      assert (a + b)[0] == a[0];
      assert (a + b)[1..] == a[1..] + b;
      SumRunsAppend(a[1..], b, home);
    }
  }

  /** The four sums of one game, seen from one club: its own runs and its opponent's. */
  datatype Splits = Splits(teamRuns6: nat, oppRuns6: nat, teamRunsLate: nat, oppRunsLate: nat)

  /**
   * The early and late sums from the club's side (home when `isHome`) and
   * the opponent's; for each side, early plus late is its whole-game total.
   */
  function InningSplits(innings: seq<Inning>, isHome: bool): (s: Splits)
    ensures s.teamRuns6 + s.teamRunsLate == SumRuns(innings, isHome)
    ensures s.oppRuns6 + s.oppRunsLate == SumRuns(innings, !isHome)
  {
    assert Early(innings) + Late(innings) == innings;
    SumRunsAppend(Early(innings), Late(innings), isHome);
    SumRunsAppend(Early(innings), Late(innings), !isHome);
    Splits(SumRuns(Early(innings), isHome), SumRuns(Early(innings), !isHome),
           SumRuns(Late(innings), isHome), SumRuns(Late(innings), !isHome))
  }

  /** A side's sum is 0 exactly when that side scored in no inning. */
  lemma {:induction false} SumRunsZero(innings: seq<Inning>, home: bool)
    ensures SumRuns(innings, home) == 0 <==> forall i :: 0 <= i < |innings| ==> SideRuns(innings[i], home) == 0
  {
    if innings != [] {
      SumRunsZero(innings[1..], home);
      assert forall i :: 1 <= i < |innings| ==> innings[i] == innings[1..][i - 1];
    }
  }

  /** An inning whose half (or run count) is missing adds nothing to that side's sum. */
  lemma MissingHalfScoresNothing(before: seq<Inning>, inning: Inning, after: seq<Inning>, home: bool)
    requires Half(inning, home).None? || Half(inning, home).value.runs.None?
    ensures SumRuns(before + [inning] + after, home) == SumRuns(before + after, home)
  {
    SumRunsAppend(before + [inning], after, home);
    SumRunsAppend(before, [inning], home);
    SumRunsAppend(before, after, home);
  }

  /** Neither side scored late exactly when every inning from the seventh on is scoreless for both. */
  lemma ScorelessLateIff(innings: seq<Inning>, isHome: bool)
    ensures (InningSplits(innings, isHome).teamRunsLate == 0 && InningSplits(innings, isHome).oppRunsLate == 0)
            <==> forall i :: EarlyCount <= i < |innings| ==>
                   SideRuns(innings[i], true) == 0 && SideRuns(innings[i], false) == 0
  {
    var late := Late(innings);
    SumRunsZero(late, true);
    SumRunsZero(late, false);
    assert forall i :: EarlyCount <= i < |innings| ==> innings[i] == late[i - EarlyCount];
  }

  /** Seen from the other club, the team and opponent sums trade places. */
  lemma FlipSwapsSplits(innings: seq<Inning>, isHome: bool)
    ensures InningSplits(innings, !isHome)
            == Splits(InningSplits(innings, isHome).oppRuns6, InningSplits(innings, isHome).teamRuns6,
                      InningSplits(innings, isHome).oppRunsLate, InningSplits(innings, isHome).teamRunsLate)
  {
  }

  /** With six innings or fewer nothing is late, and the early sums are the whole game. */
  lemma ShortGameHasNoLateRuns(innings: seq<Inning>, isHome: bool)
    requires |innings| <= EarlyCount
    ensures InningSplits(innings, isHome).teamRunsLate == 0 && InningSplits(innings, isHome).oppRunsLate == 0
    ensures InningSplits(innings, isHome).teamRuns6 == SumRuns(innings, isHome)
    ensures InningSplits(innings, isHome).oppRuns6 == SumRuns(innings, !isHome)
  {
  }
}
