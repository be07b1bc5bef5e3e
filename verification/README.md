# Find the odd emoji: a verified model of the game session

The game is a single page. It shows a square grid of identical emojis with one
different ("odd") emoji hidden among them. The player must click the odd one
before a countdown runs out. There are fifteen fixed levels. A correct click
scores ten points per second left and, one second later, moves on to the next
level. A wrong click costs three seconds. Running out of time loses the game. A
restart begins again from level one with the score cleared. Clearing the
fifteenth level is meant to win the game and show the won screen. As written,
the page instead tries to draw the playing screen for a sixteenth level that
does not exist (see "## Findings").

This project models the core of that page in Dafny, the level table and the
session state machine, and proves properties of it:

- `catalog.dfy`, module `Catalog`: the level table. Each level has a grid side
  length, a common emoji, an odd emoji and a time budget. The table is shown to
  be well formed and never to get easier.
- `board.dfy`, module `Board`: what a board is, how a new one is laid out, and
  the proof that it holds exactly one odd cell.
- `gamestate.dfy`, module `GameState`: the component's state as a value and one
  function per transition. The transitions are level start, clock tick, click,
  deferred advance and restart. The module also holds the invariant every
  reachable state keeps, and lemmas about whole sequences of inputs: the
  invariant is kept, the score never goes down, finished games stay finished,
  and the countdown behaves exactly as intended.
- `page.dfy`, module `Page`: class `Home`, the page component itself. Its state
  hooks are fields and the grid is an array. Each handler is a method that
  updates the fields in place and is proved to match the `GameState` function
  of the same name.
- `scenarios.dfy`, module `Scenarios`: worked examples on the first level.

Modelling choices:

- The random cell (`Math.floor(Math.random() * size)`) is a parameter `r`. It is
  constrained by `CanInit` to a cell of the board being laid out.
- The interval timer and the one-second timeout are not modelled as timing.
  Their bodies are the methods `Tick` and `Advance`, called by the environment.
- Ticks may arrive while the correct cell is being revealed, as in the source,
  which does not pause the clock then. A level can therefore be lost inside that
  window. The pending advance still fires and starts the next level
  (`GameState.AdvanceAfterLoss`).
- An advance is possible only while the correct cell is revealed on a level of
  the table (`showCorrect` and `level < 15`). Clicking the odd cell twice
  schedules two timeouts, but both set the same next level, and React ignores
  setting a state to the value it already has. The model counts them as one
  advance.
- A second click on the odd cell during the reveal window scores again
  (`GameState.RevealDoesNotBlockClicks`).
- A click on any index other than `oddIndex` costs three seconds, even an
  index outside the board (app/page.tsx:80, 87-88).
- Clicks during the reveal window still score or cost time (app/page.tsx:77-90).
  There is no reveal guard.
- The interval is started only while playing (app/page.tsx:43) and cleared
  when the phase changes (app/page.tsx:55); its callback (app/page.tsx:45-53)
  checks no phase itself. The model's tick therefore does nothing outside play.
- The advance is modelled as one step that sets the next level and starts it.
  This is the intended transition. On the last level the source's render
  (app/page.tsx:155) runs between those two parts and fails (see
  "## Findings").
- The time values are small integers in JavaScript numbers, so the model's
  unbounded `int` is exact.

## Model

| member | source | states |
|---|---|---|
| Catalog.CatalogWellFormed | app/page.tsx:6-27 | the table has exactly 15 levels; every level has a grid of side at least 3, a positive time budget, and an odd emoji different from its common emoji |
| Catalog.DifficultyNonDecreasing | app/page.tsx:6-27 | for any two levels, the later one has a grid at least as large and a time budget at least as long |
| Catalog.Cells | app/page.tsx:65 | a level's board has side times side cells, which is at least 9, so a cell for the odd emoji always exists |
| Board.NewBoard | app/page.tsx:65-68 | the board built by filling with the common emoji and overwriting cell `r` is a board of the level with its odd cell at `r` |
| Board.ExactlyOneOdd | app/page.tsx:66-68 | on a board of a well-formed level exactly one cell holds the odd emoji, the others all hold the common emoji, and a cell holds the odd emoji if and only if it is the odd cell |
| GameState.InitLevel | app/page.tsx:58-75 | past the end of the table the phase becomes won and nothing else changes; otherwise the board has grid² cells with the odd emoji at `r` and the common one elsewhere, `oddIndex` is `r`, the clock is the level's budget, play resumes and nothing is revealed |
| GameState.Mount | app/page.tsx:30-40 | the page starts at level 0 with score 0, playing, in a state that satisfies the session invariant |
| GameState.Tick | app/page.tsx:42-53 | outside play a tick changes nothing; in play it changes only the clock and the phase; with at most 1 second left it sets the clock to 0 and loses, otherwise it takes exactly one second off and play goes on; it keeps the invariant |
| GameState.Click | app/page.tsx:77-90 | outside play a click changes nothing; no click changes the level, the board, the odd cell or the phase; a click on the odd cell reveals it and adds exactly 10 × seconds left to the score without touching the clock; any other click leaves score and reveal as they were and sets the clock to max(0, left − 3); it keeps the invariant and never lowers the score |
| GameState.Advance | app/page.tsx:84-86 | the level goes up by one and the score is carried over; if that level exists its board is laid out with the odd emoji at `r`, with its full time budget, in play and with nothing revealed; otherwise the game is won and nothing but the level and the phase changes; from a valid state on a level of the table it keeps the invariant |
| GameState.InvIsRenderable | app/page.tsx:152-157 | in every state satisfying the invariant, a playing state is at a level of the table, so the playing screen can look up its grid side |
| GameState.LevelBumped | app/page.tsx:84-86 | the state drawn after the timeout's `setLevel(level + 1)` and before the level effect starts that level: the level is one higher and nothing else has changed |
| GameState.LastLevelAdvanceIsUndrawable | app/page.tsx:85-157 | on the last level with the correct cell revealed, the state drawn after `setLevel` is playing at level 15, past the table, so the playing screen cannot be drawn; the atomic advance reaches the won state instead, which can be drawn |
| GameState.Restart | app/page.tsx:92-97 | from any state: level 0, score 0, playing, nothing revealed, a valid level-0 board with the odd emoji at `r`, the full first-level budget, and the invariant holds |
| GameState.RestartIsFreshStart | app/page.tsx:30-97 | a restart from any state yields exactly the state of a freshly shown page with the same random cell |
| GameState.OddCellIsUnique | app/page.tsx:64-71 | in every state satisfying the invariant exactly one cell holds the odd emoji of the level whose board the state holds, and it is the one at `oddIndex` |
| GameState.RunKeepsInv | app/page.tsx:30-97 | every state reached from a valid state by any admissible sequence of ticks, clicks, advances and restarts satisfies the invariant: level in [0, 15], won exactly at level 15, a valid board, 0 ≤ clock ≤ the level's budget, score ≥ 0, and lost only with the clock at 0 |
| GameState.ScoreNeverDecreases | app/page.tsx:80-89 | across any admissible sequence of ticks, clicks and advances from a valid state, the score never goes down |
| GameState.FinishedIsFinal | app/page.tsx:42-90 | once the game is won or lost, any sequence of ticks and clicks is admissible and leaves the state exactly as it was |
| GameState.Countdown | app/page.tsx:45-52 | while playing with t ≥ 0 seconds left, n ticks give t − n seconds and play goes on as long as n < max(t, 1); from then on the clock is 0 and the game is lost, with nothing else changed |
| GameState.TicksAfterEnd | app/page.tsx:42-56 | any number of ticks leaves a won or lost state unchanged |
| GameState.AdvanceAfterLoss | app/page.tsx:42-86 | with the correct cell revealed and at most 1 second left, a tick loses the level, and the pending advance still starts the next level and resumes play |
| GameState.RevealDoesNotBlockClicks | app/page.tsx:77-83 | clicking the odd cell twice before the advance adds 20 × seconds left to the score |
| Scenarios.QuickCorrectClick | app/page.tsx:80-86 | on the first level an immediate correct click scores 100 and reveals the cell; the advance then lays out level 1's 16-cell board |
| Scenarios.ThreeWrongClicks | app/page.tsx:87-89 | on the first level three wrong clicks take the clock from 10 to 1, with play going on and the score still 0 |
| Scenarios.TimeRunsOut | app/page.tsx:45-52 | left alone, the first level is still played with 1 second left after 9 ticks, and is lost with the clock at 0 at the 10th |
| Page.Home.constructor | app/page.tsx:30-40 | the component's fields take their initial hook values and the first level is laid out; the result is the state `GameState.Mount` describes, which satisfies the invariant |
| Page.Home.InitLevel | app/page.tsx:58-75 | updates the fields, with a freshly allocated grid array filled with the common emoji and the odd one written at `r`, into exactly the state `GameState.InitLevel` gives |
| Page.Home.Tick | app/page.tsx:45-53 | the interval body moves the fields exactly as `GameState.Tick` does and keeps the invariant |
| Page.Home.HandleClick | app/page.tsx:77-90 | moves the fields exactly as `GameState.Click` does and keeps the invariant |
| Page.Home.Advance | app/page.tsx:84-86 | increments the level and starts it, moving the fields exactly as `GameState.Advance` does and keeping the invariant |
| Page.Home.Restart | app/page.tsx:92-97 | resets level and score, sets play and starts level 0, moving the fields exactly as `GameState.Restart` does; the result satisfies the invariant |

## Left out

- Rendering (app/page.tsx:99-173): the won, lost and playing screens, the CSS classes and the highlighting of the revealed cell. They are not modelled, except for the one fact that the playing screen looks up the current level in the table (app/page.tsx:155). That lookup is what `GameState.Renderable` records.
- `Math.random`: a foreign, nondeterministic call. The cell it picks is the parameter `r`.
- Real time: the one-second interval and the one-second timeout become explicit `Tick` and `Advance` calls. Starting and clearing the interval when the phase changes is not modelled. The model lets ticks act only while playing: the effect starts the interval only then (app/page.tsx:43) and clears it when the phase changes (app/page.tsx:55).
- React hook mechanics: batching of state updates, effects re-running, and closures over stale `score`, `timeLeft` and `level`. Each handler is an atomic step on the current state. Two effects follow from this:
  - A restart from a level other than the first makes React lay out the first level twice, once from `restart` and once from the effect on `level`. The model lays it out once.
  - A timeout still pending when the player restarts from the lost screen would later set the level from its stale value. The model offers an advance only while a correct cell is revealed, which excludes that case.
- Page.Home.Advance: requires the reveal flag and a level of the table as its stand-in for "a timeout is pending", because the model keeps no queue of pending timeouts.

## Findings

| source | as written | input that shows it | evidently intended | confidence | as-written member | corrected member |
|---|---|---|---|---|---|---|
| app/page.tsx:85-157 | the timeout only sets `level` to `level + 1`, and `initLevel` runs later from the level effect (app/page.tsx:38-40); the render in between still sees `gameState == 'playing'` and evaluates `levels[level].grid` (app/page.tsx:155) | a correct click on level index 14: one second later `level` is 15, `levels[15]` is undefined, and the render fails before the effect can set the won phase | clearing the last level shows the won screen (app/page.tsx:99-112) | high, not executed | GameState.LastLevelAdvanceIsUndrawable (with GameState.LevelBumped) | GameState.Advance (with GameState.InvIsRenderable) |
