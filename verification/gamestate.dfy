/** The session state machine of the game, as values: the state the page
    component keeps, and one function per transition. These functions are the
    specification the imperative component in module Page is proved against;
    the lemmas below state what the game promises across whole sequences of
    inputs. */
module GameState {
  import opened Catalog
  import opened Board

  datatype Phase = Playing | Won | Lost

  /** The component's state: the level being played, its board, the index of
      the odd cell, the seconds left, the score, the phase, and whether the
      correct cell is being revealed before the next level starts. */
  datatype State = State(
    level: nat,
    grid: seq<string>,
    oddIndex: int,
    timeLeft: int,
    score: int,
    phase: Phase,
    showCorrect: bool)

  function Max(a: int, b: int): (m: int) {
    if a >= b then a else b
  }

  /** The values the component's state starts with, before the first level is
      laid out: no board, no odd cell, the first level's time budget. */
  const Initial: State := State(0, [], -1, Levels[0].time, 0, Playing, false)

  /** `r` is a cell the random draw can pick on level `lvl` (any value will do
      once the table is exhausted, since then no board is laid out). */
  predicate CanInit(lvl: nat, r: int) {
    lvl < |Levels| ==> 0 <= r < Cells(lvl)
  }

  /** The level whose board the state holds: the current one, or the last of
      the table once every level has been cleared (winning lays out no new
      board, so the last one stays in the state). */
  function BoardLevel(level: nat): (k: nat)
    ensures k < |Levels|
    ensures level < |Levels| ==> k == level
  {
    if level < |Levels| then level else |Levels| - 1
  }

  /** What holds of every state the game can reach after the first level has
      been laid out. */
  predicate Inv(s: State) {
    && s.level <= |Levels|
    && (s.phase == Won <==> s.level == |Levels|)
    && IsBoard(s.grid, s.oddIndex, Levels[BoardLevel(s.level)])
    && 0 <= s.timeLeft <= Levels[BoardLevel(s.level)].time
    && 0 <= s.score
    && (s.phase == Lost ==> s.timeLeft == 0)
  }

  /** Starting level `lvl` with the random cell `r`: past the end of the table
      the game is won and nothing else changes; otherwise a fresh board with
      the odd emoji at `r` is laid out, the clock is set to the level's budget,
      and play resumes with nothing revealed. */
  function InitLevel(s: State, lvl: nat, r: int): (t: State)
    requires CanInit(lvl, r)
    ensures lvl >= |Levels| ==> t.phase == Won && t.(phase := s.phase) == s
    ensures lvl < |Levels| ==>
      && IsBoard(t.grid, t.oddIndex, Levels[lvl])
      && t.oddIndex == r
      && t.timeLeft == Levels[lvl].time
      && t.phase == Playing && !t.showCorrect
      && t.level == s.level && t.score == s.score
  {
    if lvl >= |Levels| then
      s.(phase := Won)
    else
      var l := Levels[lvl];
      State(s.level, NewBoard(l, r), r, l.time, s.score, Playing, false)
  }

  /** The state once the page has been shown: the first level laid out. */
  function Mount(r: int): (t: State)
    requires CanInit(0, r)
    ensures Inv(t) && t.level == 0 && t.score == 0 && t.phase == Playing
  {
    CatalogWellFormed();
    InitLevel(Initial, 0, r)
  }

  /** One tick of the one-second clock. Outside play it does nothing; it only
      ever touches the clock and the phase; and it either takes exactly one
      second off the clock, or, when at most one second was left, stops the
      clock at zero and loses the game. */
  function Tick(s: State): (t: State)
    ensures s.phase != Playing ==> t == s
    ensures t.(timeLeft := s.timeLeft, phase := s.phase) == s
    ensures s.phase == Playing ==>
      if s.timeLeft <= 1 then t.timeLeft == 0 && t.phase == Lost
      else t.timeLeft == s.timeLeft - 1 && t.phase == Playing
    ensures Inv(s) ==> Inv(t)
  {
    if s.phase != Playing then s
    else if s.timeLeft <= 1 then s.(timeLeft := 0, phase := Lost)
    else s.(timeLeft := s.timeLeft - 1)
  }

  /** A click on cell `index`. Outside play it does nothing. A click on the
      odd cell reveals it and scores ten points per second left; any other
      click takes three seconds off the clock, never below zero. Neither kind
      changes the level, the board or the phase: a penalty can empty the clock
      but only the next tick loses the game. */
  function Click(s: State, index: int): (t: State)
    ensures s.phase != Playing ==> t == s
    ensures t.level == s.level && t.grid == s.grid && t.oddIndex == s.oddIndex
    ensures t.phase == s.phase
    ensures s.phase == Playing && index == s.oddIndex ==>
      t.showCorrect && t.score == s.score + 10 * s.timeLeft && t.timeLeft == s.timeLeft
    ensures s.phase == Playing && index != s.oddIndex ==>
      t.showCorrect == s.showCorrect && t.score == s.score && t.timeLeft == Max(0, s.timeLeft - 3)
    ensures Inv(s) ==> Inv(t) && t.score >= s.score
  {
    if s.phase != Playing then s
    else if index == s.oddIndex then s.(showCorrect := true, score := s.score + s.timeLeft * 10)
    else s.(timeLeft := Max(0, s.timeLeft - 3))
  }

  /** The advance scheduled by a correct click: the next level is started,
      with the random cell `r`, or the game is won if there is none. The score
      is carried over. */
  function Advance(s: State, r: int): (t: State)
    requires CanInit(s.level + 1, r)
    ensures t.level == s.level + 1 && t.score == s.score
    ensures s.level + 1 < |Levels| ==>
      && IsBoard(t.grid, t.oddIndex, Levels[s.level + 1])
      && t.oddIndex == r
      && t.timeLeft == Levels[s.level + 1].time
      && t.phase == Playing && !t.showCorrect
    ensures s.level + 1 >= |Levels| ==> t == s.(level := s.level + 1, phase := Won)
    ensures Inv(s) && s.level < |Levels| ==> Inv(t)
  {
    InitLevel(s.(level := s.level + 1), s.level + 1, r)
  }

  /** Play again from the first level with the score cleared. */
  function Restart(s: State, r: int): (t: State)
    requires CanInit(0, r)
    ensures Inv(t)
    ensures t.level == 0 && t.score == 0 && t.phase == Playing && !t.showCorrect
    ensures IsBoard(t.grid, t.oddIndex, Levels[0]) && t.oddIndex == r
    ensures t.timeLeft == Levels[0].time
  {
    CatalogWellFormed();
    InitLevel(s.(level := 0, score := 0, phase := Playing), 0, r)
  }

  /** The playing screen can be drawn: it looks up the grid side of the
      current level in the table, so that level must exist. The won and lost
      screens look nothing up. */
  predicate Renderable(s: State) {
    s.phase == Playing ==> s.level < |Levels|
  }

  /** Every state satisfying the invariant can be drawn. */
  lemma InvIsRenderable(s: State)
    requires Inv(s)
    ensures Renderable(s)
  {
  }

  /** The state the page draws when the advance's timeout has set the next
      level but the effect that starts that level has not run yet: only the
      level has changed. */
  function LevelBumped(s: State): (t: State)
    ensures t.level == s.level + 1 && t.(level := s.level) == s
  {
    s.(level := s.level + 1)
  }

  /** On the last level of the table, the state drawn between setting the
      level and starting it is still playing, at a level past the end of the
      table, so the playing screen cannot be drawn. The atomic advance
      instead reaches the won state, which can be drawn. */
  lemma LastLevelAdvanceIsUndrawable(s: State, r: int)
    requires Inv(s) && s.phase == Playing && s.showCorrect
    requires s.level == |Levels| - 1
    ensures !Renderable(LevelBumped(s))
    ensures Advance(s, r).phase == Won && Renderable(Advance(s, r))
  {
  }

  /** Whatever state a restart comes from, it yields exactly the state the page
      is in when first shown with the same random cell. */
  lemma RestartIsFreshStart(s: State, r: int)
    requires CanInit(0, r)
    ensures Restart(s, r) == Mount(r)
  {
  }

  /** On every reachable board exactly one cell holds the odd emoji, the one
      at `oddIndex`. */
  lemma OddCellIsUnique(s: State)
    requires Inv(s)
    ensures Count(s.grid, Levels[BoardLevel(s.level)].odd) == 1
    ensures forall i :: 0 <= i < |s.grid| ==>
      (s.grid[i] == Levels[BoardLevel(s.level)].odd <==> i == s.oddIndex)
  {
    CatalogWellFormed();
    ExactlyOneOdd(s.grid, s.oddIndex, Levels[BoardLevel(s.level)]);
  }

  // ---------------------------------------------------------------------
  // Sequences of inputs

  /** The inputs the game reacts to. `r` is the random cell drawn when a
      level is laid out. */
  datatype Event =
    | TickEvent
    | ClickEvent(index: int)
    | AdvanceEvent(r: int)
    | RestartEvent(r: int)

  /** Whether event `e` can occur in state `s`: an advance is pending only
      while a correct cell is revealed on a level of the table, and a random
      draw always picks a cell of the board it lays out. */
  predicate Legal(s: State, e: Event) {
    match e
    case TickEvent => true
    case ClickEvent(_) => true
    case AdvanceEvent(r) => s.showCorrect && s.level < |Levels| && CanInit(s.level + 1, r)
    case RestartEvent(r) => CanInit(0, r)
  }

  function Step(s: State, e: Event): (t: State)
    requires Legal(s, e)
  {
    match e
    case TickEvent => Tick(s)
    case ClickEvent(i) => Click(s, i)
    case AdvanceEvent(r) => Advance(s, r)
    case RestartEvent(r) => Restart(s, r)
  }

  /** Every event of `evs` can occur in the state the earlier ones lead to. */
  predicate Admissible(s: State, evs: seq<Event>)
    decreases |evs|
  {
    evs == [] || (Legal(s, evs[0]) && Admissible(Step(s, evs[0]), evs[1..]))
  }

  /** The state reached from `s` by the events `evs`, in order. */
  function Run(s: State, evs: seq<Event>): (t: State)
    requires Admissible(s, evs)
    decreases |evs|
  {
    if evs == [] then s else Run(Step(s, evs[0]), evs[1..])
  }

  /** Every transition keeps the invariant, so every state reached from a
      valid one by any admissible sequence of inputs is valid too. */
  lemma {:induction false} RunKeepsInv(s: State, evs: seq<Event>)
    requires Inv(s) && Admissible(s, evs)
    ensures Inv(Run(s, evs))
    decreases |evs|
  {
    if evs != [] {
      RunKeepsInv(Step(s, evs[0]), evs[1..]);
    }
  }

  /** Across any sequence of ticks, clicks and advances the score never goes
      down; only a restart clears it. */
  lemma {:induction false} ScoreNeverDecreases(s: State, evs: seq<Event>)
    requires Inv(s) && Admissible(s, evs)
    requires forall i :: 0 <= i < |evs| ==> !evs[i].RestartEvent?
    ensures Run(s, evs).score >= s.score
    decreases |evs|
  {
    if evs != [] {
      ScoreNeverDecreases(Step(s, evs[0]), evs[1..]);
    }
  }

  /** Once the game is won or lost, no tick and no click changes anything. */
  lemma {:induction false} FinishedIsFinal(s: State, evs: seq<Event>)
    requires s.phase != Playing
    requires forall i :: 0 <= i < |evs| ==> evs[i].TickEvent? || evs[i].ClickEvent?
    ensures Admissible(s, evs) && Run(s, evs) == s
    decreases |evs|
  {
    if evs != [] {
      FinishedIsFinal(s, evs[1..]);
    }
  }

  /** `n` ticks of the clock in a row. */
  function Ticks(s: State, n: nat): (t: State)
    decreases n
  {
    if n == 0 then s else Ticks(Tick(s), n - 1)
  }

  /** The countdown: while playing with `t` seconds left, the clock loses one
      second per tick and play goes on for the first max(t, 1) - 1 ticks; the
      tick after that sets the clock to zero and loses the game, which then
      stays lost whatever further ticks come. */
  lemma {:induction false} Countdown(s: State, n: nat)
    requires s.phase == Playing && s.timeLeft >= 0
    ensures Ticks(s, n) ==
      if n < Max(s.timeLeft, 1) then s.(timeLeft := s.timeLeft - n)
      else s.(timeLeft := 0, phase := Lost)
    decreases n
  {
    if n > 0 {
      if s.timeLeft <= 1 {
        TicksAfterEnd(Tick(s), n - 1);
      } else {
        Countdown(Tick(s), n - 1);
      }
    }
  }

  /** Ticks change nothing once the game is over. */
  lemma {:induction false} TicksAfterEnd(s: State, n: nat)
    requires s.phase != Playing
    ensures Ticks(s, n) == s
    decreases n
  {
    if n > 0 {
      TicksAfterEnd(s, n - 1);
    }
  }

  /** The clock is not paused while the correct cell is revealed, so a level
      can run out of time between a correct click and the advance it
      scheduled; the advance then still starts the next level and play
      resumes. */
  lemma AdvanceAfterLoss(s: State, r: int)
    requires Inv(s) && s.phase == Playing && s.showCorrect && s.timeLeft <= 1
    requires s.level + 1 < |Levels| && CanInit(s.level + 1, r)
    ensures Tick(s).phase == Lost
    ensures Legal(Tick(s), AdvanceEvent(r))
    ensures Advance(Tick(s), r).phase == Playing
    ensures Advance(Tick(s), r).level == s.level + 1
  {
  }

  /** Nothing blocks clicks while the correct cell is revealed: clicking the
      odd cell a second time before the advance scores its points again. */
  lemma RevealDoesNotBlockClicks(s: State)
    requires Inv(s) && s.phase == Playing
    ensures Click(Click(s, s.oddIndex), s.oddIndex).score == s.score + 20 * s.timeLeft
  {
  }
}
