# Snake simulation: a verified Dafny model

This project models the simulation core of a browser Snake game (`script.js`).
The game keeps five module-level variables: the `snake` (an array of cells, head
first), the `direction`, the `food` cell, the `score` and the `gameRunning`
flag. It changes them in four places:

- `update()` runs once per tick. It moves the head one 20-pixel box, then either
  eats the food (score plus one, new food) or pops the tail. It then checks the
  walls and the remaining segments. A clear tick puts the new head in front.
- `collision()` tests whether a cell is one of the segments.
- `placeFood()` draws random box-aligned cells of the 400 x 400 canvas, a 20 x 20
  grid, until one is not on the snake.
- `resetGame()` sets up a new game. The key and button handlers change the
  heading, but never to its exact reverse.

The model has two layers:

- `Rules` and `Controls` hold the state as a value (`Rules.State`), with one
  tick (`Rules.Advance`), the `gameLoop` guard (`Rules.Loop`), the reset
  (`Rules.Restart`) and steering (`Controls.Steer`) as functions. Lemmas about
  those functions are the properties of the game.
- `Engine.Game` is a class with the five variables as fields. Its methods work
  in place, as the source does. Each one is proved to change the fields
  exactly as the matching function says, and to keep the invariant `Rules.Inv`.

`Grid` holds the geometry, `Food` the rejection sampling (as a loop,
`Food.SampleFreeCell`), and `Wrappers` an `Option` type.

Modelling decisions:

- `Math.random()` is replaced by a sequence of draws supplied by the caller.
  Each draw is the column and row index, in `[0, 20)`, that
  `Math.floor(Math.random() * 20)` yields. The food goes to the first draw that
  is not on the snake.
- The source loop never ends when no free cell comes up. So every operation
  that places food requires that some draw is free (`Food.HasFree`).
- `food` starts as `{}`, with no coordinates, so no head ever equals it. It is
  modelled as `Option<Cell>`, starting as `None`.
- There is no wrap-around: leaving the canvas ends the game. There is no
  pending-direction buffer: handlers write the heading at once. There is no
  retry bound and no occupancy set.
- Two orderings are kept as the code has them. The tail is popped before the
  collision check, so the head may move into the cell the tail just left
  (`Rules.ChaseTail`). Food is placed before the new head is added, so it may
  land under the head (`Rules.FoodCanLandOnHead`).
- The state machine keeps one more invariant: while the game runs, the snake is
  one segment longer than the score (part of `Rules.Inv`).
- The object invariant `Valid()` is required by the `Game` methods that run
  during a game. In the source those handlers are only ever reached from states
  that satisfy it.

## Model

| member | source | states |
|---|---|---|
| `Grid.Opposite` | script.js:197-207 | the reverse pairs of the four input guards: Left and Right, Up and Down, each way round; it is never the heading itself |
| `Grid.OppositeTwice` | script.js:197-207 | reversing twice gives back the heading |
| `Grid.Move` | script.js:238-241 | the head moves exactly one box along one axis, in the direction named; there is no wrap-around; a box-aligned cell stays box-aligned |
| `Grid.MoveThenBack` | script.js:238-241 | a move in the opposite heading undoes a move |
| `Grid.Collision` | script.js:269-271 | `collision(head, array)` is true exactly when `head` is one of the segments |
| `Food.DrawCell` | script.js:59-60 | a draw of column and row indices, scaled by the box size, is an aligned cell inside the canvas |
| `Food.DrawCellOnto` | script.js:59-60 | every aligned cell of the canvas is the cell of some draw |
| `Food.DrawCellInjective` | script.js:59-60 | different draws give different cells |
| `Food.FirstFreeIndex` | script.js:58-62 | the draw the loop accepts is free of the snake, and every earlier draw was on the snake |
| `Food.PlacedFood` | script.js:56-65 | the placed food is box-aligned, inside the canvas, not on any segment of the snake it was given, and is one of the draws |
| `Food.FirstDrawFree` | script.js:58-62 | a first draw that is free is taken |
| `Food.FirstDrawTaken` | script.js:58-62 | an occupied first draw is rejected and sampling goes on with the rest |
| `Food.SampleFreeCell` | script.js:57-62 | the do-while loop returns the first free draw's cell, which is on the grid and off the snake |
| `Controls.Steer` | script.js:197-200 | an arrow key sets its heading unless that heading is the reverse of the current one; a rejected or other key leaves the heading unchanged; the result is never the reverse |
| `Controls.SteerSameWay` | script.js:197-200 | the key of the current heading changes nothing |
| `Controls.SteerPerpendicular` | script.js:197-200 | a perpendicular arrow key always turns |
| `Controls.SteerTwice` | script.js:197-200 | the same key twice has the effect of once |
| `Controls.TwoPressesReverse` | script.js:195-207 | with no pending buffer, for every heading some perpendicular press followed by the reverse press reverses it between two ticks |
| `Grid.InBounds` | script.js:254-256 | no contract; inside [0,400) x [0,400), the negation of the wall test |
| `Rules.CanAdvance` | script.js:235-246 | no contract; a head exists and, when the head lands on the food, some draw is free, so that `placeFood` ends |
| `Rules.Inv` | script.js:234-266 | no contract; the invariant itself: segments aligned, inside the canvas and pairwise distinct, placed food on the grid, a running snake one longer than the score; kept by `Rules.AdvanceKeepsInv` and `Rules.LoopKeepsInv` |
| `Rules.NewHead` | script.js:235-241 | no contract; the old head moved one box in the current heading, whose meaning is given by `Grid.Move` |
| `Rules.Eats` | script.js:244 | no contract; the new head equals the food cell |
| `Rules.Advance` | script.js:234-267 | no contract; the model of `update()`, whose meaning is given by `Rules.GameOverExactly`, `Rules.PlainTick`, `Rules.EatingTick`, `Rules.TickWithoutFood` and `Rules.AdvanceKeepsInv` |
| `Rules.Restart` | script.js:48-53 | no contract; the model of `resetGame()`, whose meaning is given by `Rules.RestartFacts` |
| `Rules.Loop` | script.js:273-275 | no tick happens once the game has stopped |
| `Rules.TickWithoutFood` | script.js:243-249 | a tick without food leaves score, food and heading unchanged, and the tail is gone whether or not the tick survives |
| `Rules.PlainTick` | script.js:234-266 | a surviving tick without food gives `[old head + one box] ++ old snake minus its last`; the length, score, food and running flag are unchanged |
| `Rules.EatingTick` | script.js:244-266 | a tick onto the food adds exactly one to the score and keeps the tail; the new food avoids the old snake; on survival the snake grows by exactly one; otherwise it is the old snake and the game stops |
| `Rules.GameOverExactly` | script.js:248-266 | the game ends, and the head is not added, exactly when the new head is off the canvas or on a segment left after the optional tail pop |
| `Rules.ChaseTail` | script.js:248-257 | moving onto the cell of the last segment is legal and rotates the snake by one |
| `Rules.LengthOnlyGrowsByFood` | script.js:244-266 | the length changes by +1 when eating, by 0 otherwise, minus one on a fatal tick |
| `Rules.FoodCanLandOnHead` | script.js:244-266 | food placed before the head is added can end up under the surviving head |
| `Rules.PopKeepsInv` | script.js:248 | popping the tail keeps segments on the grid and distinct |
| `Rules.PushKeepsInv` | script.js:266 | adding a free on-grid head keeps segments on the grid and distinct |
| `Rules.AdvanceKeepsInv` | script.js:234-267 | every tick keeps segments aligned, in the canvas and pairwise distinct, food on the grid, and a running snake one longer than the score |
| `Rules.LoopKeepsInv` | script.js:273-278 | the guarded tick keeps the invariant |
| `Rules.InitialInv` | script.js:33-39 | the state before the first game satisfies the invariant |
| `Rules.RestartFacts` | script.js:48-53 | after a reset the snake is `[(180,200)]` heading right, the score is 0, the food is on the grid and not at (180,200), the running flag is unchanged, and the invariant holds |
| `Rules.RestartPossible` | script.js:48-51 | a reset's food placement succeeds when some draw differs from the start cell |
| `Engine.Game.constructor` | script.js:33-39 | the initial values of the module-level variables |
| `Engine.Game.PlaceFood` | script.js:56-65 | only `food` changes; it becomes the first free draw, on the grid and off the snake; a valid game stays valid |
| `Engine.Game.Reset` | script.js:48-53 | the fields become `Rules.Restart` of the old ones; `gameRunning` is not touched |
| `Engine.Game.Play` | script.js:115-121 | a reset followed by setting the running flag |
| `Engine.Game.Stop` | script.js:135-139 | only the running flag changes, to false |
| `Engine.Game.Update` | script.js:234-267 | the in-place pop, unshift and flag updates give exactly `Rules.Advance` of the old state, and keep the invariant |
| `Engine.Game.Tick` | script.js:273-278 | a tick only while running: exactly `Rules.Loop` of the old state |
| `Engine.Game.KeyDown` | script.js:195-201 | only the heading changes, only while running, by `Controls.Steer`; never to its reverse |
| `Engine.Game.Press` | script.js:204-207 | a button has the effect of the matching arrow key, and none while stopped |
| `Engine.EatScenario` | script.js:234-267 | one tick of a one-segment snake onto the food next to it gives two segments and score 1, and the food moves to the cell of the draw supplied |

## Left out

- Drawing (`draw()`, script.js:209-232), the colour inputs and the background
  image upload through FileReader and Image (script.js:161-167, 174-192): these
  are rendering and browser I/O.
- The overlay helpers and the screen navigation (script.js:67-112, 141-147,
  157-159): they only show and hide DOM elements. `showGameOver` writing the
  final score to the page is part of this.
- Timers: `setTimeout`, `clearTimeout`, `gameSpeed` and the speed slider
  (script.js:37, 169-172, 277). Only the "no tick when not running" guard of
  `gameLoop` is modelled.
- `Engine.Game.Play`: the Play buttons also call `gameLoop()` at once. That
  first tick is not part of `Play`; the caller's next `Tick` is that tick.
- `Math.random()`: replaced by caller-supplied draws. The model proves nothing
  about uniformity, and not that the real loop ends. The real loop does not end
  when the snake fills the grid; the model instead requires a free draw.
- Key names: every key other than the four arrow keys is one value,
  `OtherKey`, which the handler ignores just as the source does.
- JavaScript numbers are doubles. Every coordinate here is a small integer, so
  `int` is exact and no rounding is modelled.
- `service-worker.js` is not part of this model. It only handles caching
  through the Cache and fetch APIs.
