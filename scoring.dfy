/** calculateScores: territory scoring, a side's score being its territory
    plus its prisoners, with komi for White; and the end-of-game call that
    feeds it the session's capture tallies. */
module Scoring {

  /** The komi the engine uses when none is given. */
  const DEFAULT_KOMI: real := 6.5

  datatype Scores = Scores(blackScore: real, whiteScore: real)

  /** Black scores its territory plus the fourth argument, White its
      territory plus the third argument plus komi. */
  function CalculateScores(blackTerritory: int, whiteTerritory: int,
                           numStonesCapturedByBlack: int, numStonesCapturedByWhite: int,
                           komi: real): (s: Scores)
    ensures s.whiteScore - s.blackScore ==
            (whiteTerritory - blackTerritory + numStonesCapturedByBlack - numStonesCapturedByWhite) as real + komi
    ensures s.blackScore - blackTerritory as real == numStonesCapturedByWhite as real
  {
    Scores((blackTerritory + numStonesCapturedByWhite) as real,
           (whiteTerritory + numStonesCapturedByBlack) as real + komi)
  }

  /** calculateScores called without a komi. */
  function CalculateScoresDefault(blackTerritory: int, whiteTerritory: int,
                                  numStonesCapturedByBlack: int, numStonesCapturedByWhite: int): (s: Scores)
    ensures s.blackScore != s.whiteScore
    ensures s.whiteScore - (whiteTerritory + numStonesCapturedByBlack) as real == 6.5
  {
    CalculateScores(blackTerritory, whiteTerritory, numStonesCapturedByBlack, numStonesCapturedByWhite, DEFAULT_KOMI)
  }

  /** Komi is added to White's score only. */
  lemma KomiOnlyForWhite(bt: int, wt: int, a3: int, a4: int, k1: real, k2: real)
    ensures CalculateScores(bt, wt, a3, a4, k1).blackScore == CalculateScores(bt, wt, a3, a4, k2).blackScore
    ensures CalculateScores(bt, wt, a3, a4, k2).whiteScore - CalculateScores(bt, wt, a3, a4, k1).whiteScore == k2 - k1
  {
  }

  /** One more point of a colour's territory adds exactly one point to that
      colour's score and nothing to the other's. */
  lemma TerritoryPointWorthOne(bt: int, wt: int, a3: int, a4: int, komi: real)
    ensures CalculateScores(bt + 1, wt, a3, a4, komi) ==
            Scores(CalculateScores(bt, wt, a3, a4, komi).blackScore + 1.0, CalculateScores(bt, wt, a3, a4, komi).whiteScore)
    ensures CalculateScores(bt, wt + 1, a3, a4, komi) ==
            Scores(CalculateScores(bt, wt, a3, a4, komi).blackScore, CalculateScores(bt, wt, a3, a4, komi).whiteScore + 1.0)
  {
  }

  /** The worked examples the engine is held to. */
  lemma ScoreExamples()
    ensures CalculateScores(0, 0, 0, 0, 0.0) == Scores(0.0, 0.0)
    ensures CalculateScores(10, 5, 2, 3, 6.5) == Scores(13.0, 13.5)
    ensures CalculateScores(10, 5, 0, 0, 6.5) == Scores(10.0, 11.5)
    ensures CalculateScores(0, 0, 2, 3, 6.5) == Scores(3.0, 8.5)
    ensures CalculateScores(0, 0, 0, 0, 7.5).whiteScore == 7.5
    ensures CalculateScores(10, 10, 0, 0, 0.0) == Scores(10.0, 10.0)
  {
  }

  /** displayEndOfGameResults as written: the tally of stones Black captured
      goes in as the third argument and the tally of stones White captured as
      the fourth, so each side's prisoners are added to the other side. */
  function EndScoresAsWritten(blackTerritory: int, whiteTerritory: int,
                              stonesCapturedByBlack: int, stonesCapturedByWhite: int): (s: Scores)
    ensures s.blackScore == (blackTerritory + stonesCapturedByWhite) as real
    ensures s.whiteScore - s.blackScore ==
            (whiteTerritory - blackTerritory + stonesCapturedByBlack - stonesCapturedByWhite) as real + DEFAULT_KOMI
  {
    CalculateScoresDefault(blackTerritory, whiteTerritory, stonesCapturedByBlack, stonesCapturedByWhite)
  }

  /** With no territory, a single stone captured by Black leaves Black on
      nothing and gives White a point on top of komi. */
  lemma CapturesCreditedToOpponent()
    ensures EndScoresAsWritten(0, 0, 1, 0) == Scores(0.0, 7.5)
    ensures EndScoresAsWritten(0, 0, 1, 0).blackScore < EndScoresAsWritten(0, 0, 0, 0).blackScore + 1.0
  {
  }

  /** The end-of-game score with each tally credited to the side that made
      the captures. */
  function EndScores(blackTerritory: int, whiteTerritory: int,
                     stonesCapturedByBlack: int, stonesCapturedByWhite: int): (s: Scores)
    ensures s.blackScore == (blackTerritory + stonesCapturedByBlack) as real
    ensures s.whiteScore == (whiteTerritory + stonesCapturedByWhite) as real + DEFAULT_KOMI
  {
    CalculateScoresDefault(blackTerritory, whiteTerritory, stonesCapturedByWhite, stonesCapturedByBlack)
  }

  /** Every stone a side captures adds one point to that side's own score
      and leaves the other side's score alone. */
  lemma CaptureCountsForCapturer(bt: int, wt: int, byBlack: nat, byWhite: nat)
    ensures EndScores(bt, wt, byBlack, byWhite).blackScore == EndScores(bt, wt, 0, byWhite).blackScore + byBlack as real
    ensures EndScores(bt, wt, byBlack, byWhite).whiteScore == EndScores(bt, wt, byBlack, 0).whiteScore + byWhite as real
    ensures EndScores(bt, wt, byBlack, byWhite).whiteScore == EndScores(bt, wt, 0, byWhite).whiteScore
    ensures EndScores(bt, wt, byBlack, byWhite).blackScore == EndScores(bt, wt, byBlack, 0).blackScore
  {
  }
}
