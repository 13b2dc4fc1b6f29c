# Snake game engine

A Dafny model of the game-state engine of a single-player grid snake game,
the React hook `useSnakeGame` in `src/components/Snake/useSnakeGame.tsx`.
The hook keeps one state record (snake, food, committed and queued
heading, score, high score, status, grid size, speed) and offers commands
that replace it: `setDirection`, `startGame`, `resetGame`, the tick
`moveSnake`, and `handleGameOver`, which a crash triggers. `generateFood`
places food with a retry loop.

Layout:

- `state.dfy`, module `SnakeState`: positions, headings, the status enum
  (IDLE, PLAYING, GAME_OVER, with no paused status), the state record, and
  the one-cell step.
- `game.dfy`, module `SnakeGame`: each command's updater `prev => next` as
  a function on the record (`SetDirectionUpdate`, `StartUpdate`,
  `GameOverUpdate`, `ResetUpdate`, `MoveUpdate`). The two loops of the
  hook are methods proved against functions: the food retry loop
  (`GenerateFood` against `FirstFree`) and the self-collision scan
  (`FindSelfCollision` against `HitsBody`). The module also holds the
  invariant `Inv` of reachable states.
- `properties.dfy`, module `SnakeProperties`: the effect of each command
  and the proof that each one keeps `Inv`.
- `engine.dfy`, module `SnakeEngine`: the hook as a class `Engine`. Its
  fields are the record, and its methods update them in place. Each
  method is proved to produce exactly the matching updater's result and
  to keep `Inv`. `HighScoreStore` is the persistent `snakeHighScore` slot.
- `runs.dfy`, module `SnakeRuns`: arbitrary sequences of commands. It
  proves that every reachable state satisfies `Inv`, and that the high
  score is the best of its stored value and the scores at each game over.
- `scenarios.dfy`, module `SnakeScenarios`: concrete ticks (eating, wall,
  body, chasing the tail).

`Math.random` becomes a parameter. `draws` is the stream of cells the
generator would yield, each already inside the grid because the source
applies `Math.floor(Math.random() * gridSize)`. The `do … while` loop keeps
the first draw that is not a segment. Its termination is a precondition:
some draw is free.

Where the code differs from a snake game with a paused status, a user-set
base speed and a speed recomputed from it, the model follows the code:

- There is no PAUSED status and no pause or speed command. The page
  destructures `pauseGame` and `setCustomSpeed`, but the hook does not
  return them.
- The speed is not recomputed from a base speed. Each time the new score is
  a multiple of 5, the speed drops by 10 ms, floored at 70 ms.
  `SnakeRuns.ReachableStatesAreValid` proves that in every reachable state
  this equals the staircase `max(70, 150 - 10 * floor(score / 5))`.
- `resetGame` sets the speed back to the constant 150.
- The opening snake and food sit at the fixed cells (10, 10) and (5, 5),
  not at the grid centre. The page only passes grid sizes 15 and 20, so
  the invariant is claimed for grids larger than 10.
- `setDirection` does not look at the status, so a turn can be queued in
  any status.
- With no free cell, the food loop never ends, and there is no fallback.
  The model requires a free draw.
- A crash reaches `handleGameOver` through `setTimeout(…, 0)`. The model
  applies it within the same tick.

## Model

| member | source | states |
|---|---|---|
| `SnakeState.Opposite` | src/components/Snake/useSnakeGame.tsx:120-125 | the 180-degree reverse of a heading is a different heading |
| `SnakeState.Step` | src/components/Snake/useSnakeGame.tsx:145-163 | the new head shares an edge with the old head; UP/DOWN keep x, LEFT/RIGHT keep y |
| `SnakeProperties.StepUndone` | src/components/Snake/useSnakeGame.tsx:148-160 | a step followed by a step the opposite way returns to the start cell; reversing twice is the identity |
| `SnakeProperties.StepInjective` | src/components/Snake/useSnakeGame.tsx:148-160 | two headings that lead from one cell to the same cell are equal |
| `SnakeProperties.ReversalIsOpposite` | src/components/Snake/useSnakeGame.tsx:120-125 | the four refused pairs are exactly "the new heading is the opposite of the committed one", and nothing is refused while no heading is committed |
| `SnakeGame.FirstFree` | src/components/Snake/useSnakeGame.tsx:50-56 | the chosen cell is one of the draws and not a segment, and every earlier draw was a segment |
| `SnakeGame.GenerateFood` | src/components/Snake/useSnakeGame.tsx:46-59 | the retry loop returns the first free draw, a cell inside the grid that is not a segment of the given snake |
| `SnakeGame.FindSelfCollision` | src/components/Snake/useSnakeGame.tsx:177-184 | the scan reports a hit exactly when the new head equals a segment other than the last one |
| `SnakeGame.Staircase` | src/components/Snake/useSnakeGame.tsx:200-204 | the staircase speed is never below 70 ms and, for a non-negative score, never above 150 ms |
| `SnakeProperties.SetDirectionEffect` | src/components/Snake/useSnakeGame.tsx:115-134 | setDirection changes nothing but the queued turn; null or the reverse of the committed heading leaves the state unchanged; any other heading is queued |
| `SnakeProperties.StartEffect` | src/components/Snake/useSnakeGame.tsx:83-88 | startGame changes only status and committed heading; any status but GAME_OVER becomes PLAYING; a committed heading is kept, and a missing one defaults to RIGHT |
| `SnakeProperties.MoveNoOp` | src/components/Snake/useSnakeGame.tsx:139-143 | a tick outside PLAYING, or with neither a queued nor a committed heading, changes nothing |
| `SnakeProperties.MoveCrash` | src/components/Snake/useSnakeGame.tsx:165-184 | a head outside [0, gridSize) on either axis, or on a segment other than the tail, ends the game; the rest of the state stays as it was, and the high score becomes max(score, highScore) |
| `SnakeProperties.MoveAdvance` | src/components/Snake/useSnakeGame.tsx:186-218 | a move without a crash puts the head one cell along the heading in front of the old snake; the tail is dropped unless food was eaten; the heading is committed and the queued turn cleared; eating adds exactly one point and places new food inside the grid, off the snake; not eating keeps food and speed |
| `SnakeProperties.MoveLength` | src/components/Snake/useSnakeGame.tsx:187-208 | the snake grows by exactly one segment when it eats and keeps its length otherwise |
| `SnakeProperties.StaircaseStep` | src/components/Snake/useSnakeGame.tsx:200-204 | the per-meal speed update moves along the staircase max(70, 150 - 10 * floor(score / 5)) |
| `SnakeProperties.SpeedAfterMeal` | src/components/Snake/useSnakeGame.tsx:196-204 | after eating, the speed becomes max(70, speed - 10) when the new score is a multiple of 5 and is unchanged otherwise; it never drops below 70 ms and never rises |
| `SnakeProperties.InitialInv` | src/components/Snake/useSnakeGame.tsx:30-40 | the opening record satisfies the invariant on grids larger than 10 |
| `SnakeProperties.SetDirectionPreservesInv` | src/components/Snake/useSnakeGame.tsx:118-133 | queueing a turn keeps the invariant, including that no queued turn reverses the committed heading of a snake of two or more segments |
| `SnakeProperties.StartPreservesInv` | src/components/Snake/useSnakeGame.tsx:84-88 | starting keeps the invariant |
| `SnakeProperties.GameOverPreservesInv` | src/components/Snake/useSnakeGame.tsx:94-106 | ending the game keeps the invariant |
| `SnakeProperties.ResetPreservesInv` | src/components/Snake/useSnakeGame.tsx:63-73 | a reset on a non-empty grid yields a state that satisfies the invariant, whatever the state before |
| `SnakeProperties.MovePreservesInv` | src/components/Snake/useSnakeGame.tsx:137-220 | a tick keeps the snake inside the grid, free of overlaps and connected cell to cell, keeps the food inside the grid and off the snake, and keeps the speed on the staircase |
| `SnakeProperties.EatPreservesInv` | src/components/Snake/useSnakeGame.tsx:186-204 | a tick that lands on the food keeps the invariant: the grown snake has no overlap because the food was off the snake, the new food is placed off the grown snake, and the speed stays on the staircase after the one-point gain |
| `SnakeProperties.SlidePreservesInv` | src/components/Snake/useSnakeGame.tsx:186-208 | a tick that does not eat keeps the invariant: the head is off every segment but the dropped tail, so the moved snake has no overlap, stays connected and leaves the food untouched |
| `SnakeProperties.NoInstantReversal` | src/components/Snake/useSnakeGame.tsx:119-127 | in a reachable state with two or more segments, the next head is never the second segment |
| `SnakeProperties.GameOverIsSticky` | src/components/Snake/useSnakeGame.tsx:83-89 | in GAME_OVER, setDirection, startGame and moveSnake leave the status GAME_OVER; only resetGame leaves it |
| `SnakeProperties.HighScoreNeverDrops` | src/components/Snake/useSnakeGame.tsx:96-104 | no command lowers the high score, and after handleGameOver it is at least the final score |
| `SnakeProperties.SavedOnlyOnRise` | src/components/Snake/useSnakeGame.tsx:96-99 | the stored high score is rewritten only when the score beats the high score, and then with the new high score |
| `SnakeProperties.ResetEffect` | src/components/Snake/useSnakeGame.tsx:62-73 | reset keeps high score and grid size; the snake becomes the single centre cell; no heading, score 0, IDLE, speed 150; the food is inside the grid and off the snake |
| `SnakeEngine.HighScoreStore.constructor` | src/components/Snake/useSnakeGame.tsx:23-27 | the store holds the given stored value, absent on first use |
| `SnakeEngine.Engine.constructor` | src/components/Snake/useSnakeGame.tsx:21-40 | the fields are the opening record with the high score read from the store (0 when absent), and they satisfy the invariant on grids larger than 10 |
| `SnakeEngine.Engine.SetDirection` | src/components/Snake/useSnakeGame.tsx:115-134 | the fields become SetDirectionUpdate of the old record; the invariant is kept |
| `SnakeEngine.Engine.StartGame` | src/components/Snake/useSnakeGame.tsx:82-90 | the fields become StartUpdate of the old record; the invariant is kept |
| `SnakeEngine.Engine.HandleGameOver` | src/components/Snake/useSnakeGame.tsx:93-112 | the fields become GameOverUpdate of the old record; the store is written only when the high score rises; the invariant is kept |
| `SnakeEngine.Engine.ResetGame` | src/components/Snake/useSnakeGame.tsx:62-79 | the fields become ResetUpdate of the old record; the invariant holds afterwards on a non-empty grid |
| `SnakeEngine.Engine.MoveSnake` | src/components/Snake/useSnakeGame.tsx:137-220 | the fields become MoveUpdate of the old record; the store changes only on a crash, as handleGameOver writes it; the invariant is kept |
| `SnakeRuns.HighScoreStep` | src/components/Snake/useSnakeGame.tsx:96-104 | a command raises the high score to max(score, highScore) when it moves PLAYING to GAME_OVER, and leaves it unchanged otherwise |
| `SnakeRuns.HighScoreIsBestGameOverScore` | src/components/Snake/useSnakeGame.tsx:93-106 | over any sequence of commands, the high score equals the maximum of its starting value and the scores at every game over, so it never decreases |
| `SnakeRuns.ApplyPreservesInv` | src/components/Snake/useSnakeGame.tsx:62-220 | every public command keeps the invariant and the grid size |
| `SnakeRuns.RunPreservesInv` | src/components/Snake/useSnakeGame.tsx:62-220 | any sequence of commands keeps the invariant and the grid size |
| `SnakeRuns.ReachableStatesAreValid` | src/components/Snake/useSnakeGame.tsx:30-220 | every state reached from the opening record on a grid larger than 10 satisfies the invariant, keeps the grid size, and has speed = max(70, 150 - 10 * floor(score / 5)), between 70 and 150 ms |
| `SnakeScenarios.EatingGrows` | src/components/Snake/useSnakeGame.tsx:187-217 | a one-segment snake moving right onto the food becomes two segments, scores 1, and the first free draw becomes the food |
| `SnakeScenarios.WallEndsGame` | src/components/Snake/useSnakeGame.tsx:165-175 | moving left from column 0 ends the game with the snake unchanged |
| `SnakeScenarios.BodyEndsGame` | src/components/Snake/useSnakeGame.tsx:177-184 | a head landing on a middle segment ends the game |
| `SnakeScenarios.ChasingTheTail` | src/components/Snake/useSnakeGame.tsx:177-208 | from a state that satisfies the invariant (moving left, turn down queued), a head moving into the cell the tail vacates is not a collision |

## Left out

- The `requestAnimationFrame` game loop and its elapsed-time rate limit
  (useSnakeGame.tsx:269-288) are scheduling. `moveSnake` is a step that
  any driver may call.
- The keyboard listener (useSnakeGame.tsx:223-266) is input plumbing and
  is not modelled. In the source, an arrow or WASD key in IDLE calls
  `startGame`. It then tests the status captured at the last render, which
  is still IDLE, so that first key press does not queue its direction.
- `Math.random` is replaced by the `draws` parameter. A board without a
  free cell, where the source's loop never ends, is excluded by the
  precondition that some draw is free.
- The `typeof window` test, the `parseInt` of the stored string and
  a stored string that does not parse (NaN) are not modelled. The store
  holds an optional integer.
- The `setTimeout(…, 0)` deferral of `handleGameOver` is not modelled. In
  the source, a command arriving before the deferred call would act on the
  pre-crash record; the model applies the game over within the tick.
- `cancelAnimationFrame` in `resetGame` and `handleGameOver`
  (useSnakeGame.tsx:75-78, 108-111) stops the scheduler, which is not
  modelled.
- React's `useCallback` closures are not modelled. `startGame` tests the
  status of the last render, not `prev`, and `resetGame` and
  `generateFood` use the last render's grid size. The model reads the
  current record, which is the same in a sequential run.
- JavaScript numbers are doubles. The model uses unbounded integers,
  because scores and coordinates never approach 2^53. `%` is compared only
  with 0, where truncated and Euclidean remainders agree.
- `SnakeGame.MoveUpdate` and `SnakeEngine.Engine.MoveSnake` require a
  non-empty snake. The source reads `prev.snake[0]`, and every reachable
  state has at least one segment.
- The rendering files (GameBoard, GameControls, SnakeSegment, ScoreBoard),
  the page with its resize-triggered reset, and the theme context are
  presentation with no game rules.
