# Snake game logic in Dafny

A model of the game-logic engine of the `SnakeGame` class in `script.js`, a
browser snake game on an N-by-N tile grid. The model contains:

- the simulation step `update` with the state effects of `endGame`;
- food placement `generateFood`;
- the direction rule `changeDirection`;
- the keydown handler with `startGame` and the state reset of `restartGame`;
- the tick gate of `gameLoop`.

The game object becomes an immutable `Game` record (`GameState`). Each
operation is a pure function from one record to the next:

| module | file | models |
|---|---|---|
| `Grid` | grid.dfy | tiles, the board bounds, facts about tile sequences |
| `GameState` | state.dfy | the record, the constants (reward 10, interval 150 ms, start snake, fixed food (18,14)), the invariant `Inv` |
| `Food` | food.dfy | `generateFood`, with the random re-roll as an oracle |
| `Simulation` | simulation.dfy | `update` / `endGame` as `Tick` |
| `Input` | input.dfy | `changeDirection`, `startGame`, `restartGame`, the keydown handler |
| `Loop` | loop.dfy | the tick gate, the end of the growth flag, runs of events, reachable-state safety |
| `Scenarios` | scenarios.dfy | concrete runs on a 20-by-20 board |

The grid size `tileCount` is a parameter `n`. Facts about the fixed start
need `n > 18`, so that the food tile (18,14) is on the board.

`Math.random` is an oracle. Each call that may place food receives `rolls`:
the tiles the random source would produce, in order, each on the board.
Placement keeps the first roll that is off the snake. `None` means the
supplied rolls ran out while every one landed on the snake, so `Tick`,
`LoopStep` and `Run` return an `Option`. In the source, each failed roll is a
recursive call of `generateFood` (script.js:203). On a board with a free tile
it keeps rolling until it finds one. On a full board the recursion never ends
and overflows the stack, and `update` aborts after the score and the length
have already grown.

The main result is `Loop.ReachableSafe`. It holds from the state the page
is in before its first frame (`init`'s own first loop iteration is a `Frame`
event), under any sequence of key presses, frames and growth ends. In every
state reached:

- the snake is on the board;
- its tiles are pairwise distinct and each shares an edge with the next;
- the food is on the board and off the snake;
- the score is a non-negative multiple of 10.

Behaviour of `script.js` worth knowing:

- The tail is kept on every tick while `isGrowing` is set. Within a run, only
  the frame-driven growth animation clears that flag (script.js:554-559); a
  restart also clears it (script.js:167). If no frame ends the animation
  before the next tick, the snake grows again without eating
  (`Scenarios.GrowsAgainWithoutFrames`).
- The food placed after eating also avoids the new head. `generateFood` runs
  after `unshift(head)`.
- Restart places the food on the fixed tile (18,14) again.
- The reversal guard compares an arrow with the pending direction, not with
  the direction the snake last moved. Two arrows pressed within one tick
  interval (Up then Left while heading right) turn the snake onto its own
  neck, and the next tick ends the game (`Scenarios.QuickTurnIntoNeck`).

## Model

| member | source | states |
|---|---|---|
| Grid.Shift | script.js:216 | the candidate head differs from the old head by exactly (dx, dy), and shares an edge with it when the direction is an arrow direction |
| Food.FirstFree | script.js:195-206 | the roll kept is off the snake and every earlier roll was on it; None exactly when every roll hits the snake |
| Food.GenerateFood | script.js:190-208 | first call of a run: food (18,14), flag cleared, snake not consulted; later: food placeable iff some roll is off the snake, and then it is on the board, off the snake and one of the rolls; nothing else changes |
| Food.GenerateFoodTakesFirstFree | script.js:195-206 | when roll i is the first free roll, the food is exactly roll i |
| Simulation.EndGame | script.js:252-259 | the game is over and not running, the direction is (0,0), and the snake, score and food are kept |
| Simulation.Tick | script.js:210-250 | no change unless running and not over; a wall or self collision (tail included) ends the game, changing only the flags, the direction and the snapshot; otherwise the head moves by (dx,dy) and the tail is kept iff eating or growing, and a plain move changes only the snake and its snapshot; the time stamp is never touched; eating adds 10 points and one segment, marks the old tail as growing and places food off the grown snake |
| Simulation.TickLength | script.js:232-246 | the length grows by one on a live non-colliding tick that eats or runs while growing, and is unchanged otherwise |
| Simulation.TickKeepsBody | script.js:216-246 | any snake on the board with pairwise distinct tiles is still on the board with pairwise distinct tiles after any tick |
| Simulation.TickKeepsConnected | script.js:216-246 | while moving in an arrow direction, a snake whose consecutive tiles share an edge keeps that shape across any tick |
| Input.Turn | script.js:105-137 | never the exact reverse of a non-zero motion; non-arrow keys keep the direction; from (0,0) every arrow is taken; from an arrow direction an arrow is taken iff it is not the reverse |
| Input.ChangeDirection | script.js:105-137 | only the direction of the game changes; non-arrow keys change nothing; never the exact reverse of a non-zero motion; from (0,0) every arrow is taken; from an arrow direction an arrow is taken iff it is not the reverse |
| Input.TurnIsReverseRule | script.js:105-137 | on every valid direction, the axis-by-axis checks agree with the rule "take any arrow except the exact reverse" |
| Input.StartGame | script.js:139-149 | the game runs and is not over; a non-zero direction is kept, (0,0) becomes rightward; nothing else changes |
| Input.Launched | script.js:15-46 | before its first frame, the page has food (18,14) and the first-placement flag already cleared |
| Input.Restart | script.js:151-180 | snake [(6,14),(5,14),(4,14)], direction (1,0), score 0, not running, not over, not growing, last update 0, food (18,14) |
| Input.RestartIsLaunch | script.js:151-193 | a restart from any state yields the state the page is in before its first frame |
| Input.HandleKey | script.js:67-90 | over: only Space/Enter act, and they restart; not running: an arrow, Space or Enter starts the game, and an arrow then goes through the direction rule; running: only the direction rule |
| Loop.LoopStep | script.js:564-568 | a tick runs and the time is stamped iff more than 150 ms have passed since the last stamp; otherwise nothing changes |
| Loop.FinishGrowth | script.js:547-562 | while live, the growth flag and segment are cleared; otherwise nothing changes; no other field is touched |
| Loop.LaunchedInv | script.js:26-46 | the state before the first frame satisfies the game invariant on any board with n > 18 |
| Loop.TickInv | script.js:210-259 | a tick preserves the game invariant |
| Loop.CollisionInv | script.js:219-230 | a colliding tick yields a state that keeps the game invariant |
| Loop.EatInv | script.js:232-243 | an eating tick keeps the invariant: the new food is off the grown snake and the growing segment is on it |
| Loop.MoveInv | script.js:232-246 | a plain move keeps the invariant: the food stays off the moved snake and a growing segment stays on it |
| Loop.HandleKeyInv | script.js:67-90 | every key press preserves the game invariant |
| Loop.StepInv | script.js:543-568 | every event preserves the game invariant |
| Loop.Run | script.js:543-576 | every state reached by a sequence of events satisfies the game invariant |
| Loop.ReachableSafe | script.js:210-259 | from the state before the first frame, every reachable snake is on the board with distinct, edge-sharing tiles, the food is on the board and off the snake, and the score is a multiple of 10 |
| Scenarios.EatAndReroll | script.js:232-243 | eating at (7,14) gives length 4 and score 10; a roll on the snake is re-rolled |
| Scenarios.GrowsAgainWithoutFrames | script.js:244-246 | with the growth flag still set, the next tick grows the snake again without eating |
| Scenarios.WallEndsGame | script.js:219-222 | heading left from (0,14) ends the game with direction (0,0) |
| Scenarios.BodyEndsGame | script.js:225-230 | turning onto a body tile ends the game with the snake unchanged |
| Scenarios.TailEndsGame | script.js:225-230 | moving onto the tail tile ends the game, although the tail would have moved |
| Scenarios.ReverseRefused | script.js:112-117 | Left while heading right changes nothing |
| Scenarios.QuickTurnIntoNeck | script.js:105-137 | Up then Left within one tick turns the snake onto its neck and ends the game |
| Scenarios.StartWithReverseArrow | script.js:76-85 | Left before the start starts the game but is refused against the default rightward motion |
| Scenarios.GateIsStrict | script.js:565-568 | exactly 150 ms after the last tick nothing moves; at 151 ms the head advances |
| Scenarios.OverOnlyRestarts | script.js:68-74 | when over, an arrow does nothing and Enter restarts |

## Left out

- Drawing and visuals are not modelled: `clearCanvas`, `drawGrassBackground`, `drawCartoonSnake`, `drawSegmentConnections`, `drawSnakeEyes`, `drawCartoonFood`, `draw` and `generateGrassPattern`. They only paint and do not affect game state.
- The float animation counters are not modelled: `animationProgress`, `growthProgress` and the interpolation of segment positions. They are presentational floating point. Their only effect on logic is clearing the growth flag. That is modelled as the event `GrowthDone` (`Loop.FinishGrowth`), which may arrive between any two ticks. The model does not count frames toward it.
- DOM and timers are not modelled: score and final-score text, `classList`, `focus`, the delayed game-over screen (`setTimeout`) and the restart-button click wiring. The button calls the same `restartGame` that `Input.Restart` models.
- The one-shot first-keydown listener (script.js:98-102) is not modelled. It is event plumbing. It means the very first key of a page, of any code, also starts the game.
- `requestAnimationFrame` rescheduling is not modelled. One loop iteration is `Loop.LoopStep` at a given integer time `now`; a run is a sequence of events.
- `Math.random` is not modelled. Its rolls are supplied by the caller. Each roll is assumed to be a tile of the board.
- Food.GenerateFood: returns None when the supplied rolls run out, where the source keeps rolling until it finds a free tile or, on a full board, overflows the stack; nothing is claimed about the distribution of food tiles or about the game after a stack overflow.
- The grid size is not derived from the canvas. `tileCount` is the integer parameter `n`. A canvas width that is not a multiple of 20 would give a fractional bound, which the model does not cover.
