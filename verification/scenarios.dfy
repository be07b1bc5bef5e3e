/** Worked examples on the first level (a 3 by 3 board, ten seconds). */
module Scenarios {
  import opened GameState

  /** Clicking the odd cell at once scores 100, and the advance then lays out
      the 4 by 4 board of the second level. */
  lemma QuickCorrectClick(r: int, r2: int)
    requires CanInit(0, r) && CanInit(1, r2)
    ensures Click(Mount(r), r).score == 100 && Click(Mount(r), r).showCorrect
    ensures Advance(Click(Mount(r), r), r2).level == 1
    ensures |Advance(Click(Mount(r), r), r2).grid| == 16
  {
  }

  /** Three wrong clicks take the clock from 10 to 1; play goes on and the
      score stays 0. */
  lemma ThreeWrongClicks(r: int, wrong: int)
    requires CanInit(0, r) && wrong != r
    ensures Click(Click(Click(Mount(r), wrong), wrong), wrong).timeLeft == 1
    ensures Click(Click(Click(Mount(r), wrong), wrong), wrong).phase == Playing
    ensures Click(Click(Click(Mount(r), wrong), wrong), wrong).score == 0
  {
  }

  /** Left alone, the first level is still being played after nine ticks and
      is lost, with the clock at zero, at the tenth. */
  lemma TimeRunsOut(r: int)
    requires CanInit(0, r)
    ensures Ticks(Mount(r), 9).phase == Playing && Ticks(Mount(r), 9).timeLeft == 1
    ensures Ticks(Mount(r), 10).phase == Lost && Ticks(Mount(r), 10).timeLeft == 0
  {
  }
}
