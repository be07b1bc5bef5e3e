/** The page component of the game: its state hooks become the fields of one
    object, and each handler a method that updates them in place. Every method
    is proved to move the object's state exactly as the matching transition of
    module GameState does. */
module Page {
  import opened Catalog
  import opened Board
  import opened GameState

  class Home {
    var level: nat
    var grid: array<string>
    var oddIndex: int
    var timeLeft: int
    var score: int
    var gameState: Phase
    var showCorrect: bool

    /** The object's state as a value. */
    ghost function Model(): State
      reads this, grid
    {
      State(level, grid[..], oddIndex, timeLeft, score, gameState, showCorrect)
    }

    ghost predicate Valid()
      reads this, grid
    {
      Inv(Model())
    }

    /** The page as first shown: the hooks take their initial values and the
        first level is laid out, with its odd emoji at `r`. */
    constructor (r: int)
      requires CanInit(0, r)
      ensures Valid() && Model() == Mount(r)
    {
      level := 0;
      grid := new string[0];
      oddIndex := -1;
      timeLeft := Levels[0].time;
      score := 0;
      gameState := Playing;
      showCorrect := false;
      new;
      InitLevel(0, r);
    }

    /** Start level `lvl`, the random draw having picked cell `r`: win once the
        table is exhausted, otherwise fill a new board with the common emoji and
        overwrite cell `r` with the odd one. */
    method InitLevel(lvl: nat, r: int)
      requires CanInit(lvl, r)
      modifies this
      ensures Model() == GameState.InitLevel(old(Model()), lvl, r)
    {
      if lvl >= |Levels| {
        gameState := Won;
        return;
      }
      var current := Levels[lvl];
      var size := current.grid * current.grid;
      var cells := new string[size](_ => current.emoji);
      cells[r] := current.odd;
      assert cells[..] == NewBoard(current, r);
      grid := cells;
      oddIndex := r;
      timeLeft := current.time;
      gameState := Playing;
      showCorrect := false;
    }

    /** The body of the one-second interval timer. */
    method Tick()
      requires Valid()
      modifies this
      ensures Valid() && Model() == GameState.Tick(old(Model()))
    {
      if gameState != Playing {
        return;
      }
      if timeLeft <= 1 {
        gameState := Lost;
        timeLeft := 0;
      } else {
        timeLeft := timeLeft - 1;
      }
    }

    /** A click on the cell at `index`. */
    method HandleClick(index: int)
      requires Valid()
      modifies this
      ensures Valid() && Model() == Click(old(Model()), index)
    {
      if gameState != Playing {
        return;
      }
      if index == oddIndex {
        showCorrect := true;
        score := score + timeLeft * 10;
      } else {
        timeLeft := Max(0, timeLeft - 3);
      }
    }

    /** The deferred advance a correct click schedules: move on to the next
        level, laid out with its odd emoji at `r`. */
    method Advance(r: int)
      requires Valid() && showCorrect && level < |Levels|
      requires CanInit(level + 1, r)
      modifies this
      ensures Valid() && Model() == GameState.Advance(old(Model()), r)
    {
      level := level + 1;
      InitLevel(level, r);
    }

    /** Play again from the first level, laid out with its odd emoji at `r`. */
    method Restart(r: int)
      requires CanInit(0, r)
      modifies this
      ensures Valid() && Model() == GameState.Restart(old(Model()), r)
    {
      level := 0;
      score := 0;
      gameState := Playing;
      InitLevel(0, r);
    }
  }
}
