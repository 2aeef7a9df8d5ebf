# Snake: the game controller as a verified state machine

This project models the state machine at the heart of a browser Snake game:
the `GameController` class in `src/game-controller.ts`. The snake is a list of
grid cells with the head first. Each tick of the game loop does three things:

- it asks whether the game has ended;
- it clears the one-key-per-tick latch;
- it advances the snake.

Advancing moves the head one step, wrapping at the canvas edges. The snake
grows by one segment when the head was on the food. Every third piece of food
spawns a power-up. Eating a power-up applies one of six effects chosen at
random. Key presses change the heading, but only the first press after a tick
counts. A press that would reverse the snake leaves the heading as it is, but
still uses up the tick's one key.

The model has two modules:

- `SnakeRules` (`snake_rules.dfy`) holds the value-level rules as functions
  and lemmas:
  - the key handling as a function of the heading and the latch;
  - the step of the head, with its wrap-around;
  - the rounding of random numbers to the 10-pixel grid;
  - the "draw until the cell is free" placement of food and power-ups;
  - the growth of the snake;
  - the power-up effects on the snake's body;
  - the end-of-game test.
- `Snake` (`game_controller.dfy`) holds `GameController` as a class whose
  fields are the source's fields.

Every modelled method updates the same modelled fields as its source
counterpart. The fields for score, speed and timers are not modelled; "Left
out" lists them. Each method is proved against the functions of `SnakeRules`.
The loops of the source stay loops:

- the search for a collision in `didGameEnd`;
- the `pop` loop of `makeSnakeShorter`;
- the `push` loop of `makeSnakeLonger`.

The source retries food and power-up placement by recursion until it finds a
free cell. This becomes a loop over the random draws it consumes.

Randomness is an input. Each call of `Math.random()` is a `Fraction`, a real
in [0, 1). A placement consumes a `Draw`, which is one fraction for `x` and one
for `y`. The canvas size is fixed when the controller is built. The wall cells
of the chosen level and the power-up strength are given to `StartGame`, as the
option menus would give them.

Between ticks the controller keeps an invariant, `Valid`:

- the snake has at least one segment;
- the heading is one of the four unit steps;
- the food counter is within 0..2;
- food and power-up sit on the 10-pixel grid;
- every segment sits on the grid, whenever both canvas sides are multiples of
  10.

The grid part holds through wrap-arounds, through lengthening along the tail
step and through shortening. `StartGame` establishes the invariant, and
`ChangeDirection`, `AdvanceSnake` and `Tick` preserve it.

Some behaviour of the code is surprising. The model keeps it as written:

- **The head can leave the canvas, and drift without bound.** Stepping left
  from column 0 puts the head at `x == width`, one column past the last cell.
  If the next step goes up from the top row, it puts the head at `y == -10`
  with no vertical wrap. This happens because the right-edge test fires
  first, and an `x` wrap skips the `y` tests for that step.
  `HeadCanLeaveCanvas` states both steps. Alternating left and up repeats this
  indefinitely. After n rounds the head is at (0, -10n), so no bound holds on
  how far above the canvas it gets. `HeadDriftsUpward` states this.
- **Food and power-ups are checked against the head before it moves.** A
  piece is eaten on the tick after the head reaches its cell.
- **A new power-up does not avoid the food.** It avoids only the snake and the
  walls, and it may land on the food.
- **A new power-up can be cleared at once.** When one tick eats both the third
  piece of food and a power-up, the new power-up is spawned and then sent to
  the off-canvas cell (1000, 1000) straight away. `Stepped` records this
  order.
- **"Longer" throws on a one-segment snake.** With a single segment, the
  "longer" power-up reads a segment before the head, which does not exist,
  and throws. The model keeps this as the `Crashed` outcome of a tick. The
  snake is left unchanged and the eaten power-up keeps its cell.
- **`startGame` does not clear the key latch.** Clearing it is left to the
  first tick.

## Model

| member | source | states |
|---|---|---|
| SnakeRules.Turn | src/game-controller.ts:229-255 | a direction key turns the snake to that key's heading exactly when this is not the reverse of the current heading; a reversing key leaves the heading as it was; other keys leave the heading; the result is always a unit heading and never the reverse |
| SnakeRules.KeyEvent | src/game-controller.ts:234-236 | any key event sets the latch; when the latch was already set the heading is unchanged, otherwise the heading is `Turn`'s |
| SnakeRules.LatchedKeysIgnored | src/game-controller.ts:234-236 | once latched, any sequence of key events leaves the heading unchanged and the latch set |
| SnakeRules.OnlyFirstKeyTurns | src/game-controller.ts:229-255 | a run of key events after a tick leaves the heading the first key alone would give (`Turn`), with the latch set |
| SnakeRules.NextHead | src/game-controller.ts:90-100 | each coordinate of the new head is either the stepped coordinate or one of the wrap targets 0 and the canvas size; `x` stays within 0..width |
| SnakeRules.NextHeadStep | src/game-controller.ts:90-100 | the head moves by the heading unless the test of an edge fires. Past the right or bottom edge the coordinate becomes 0; past the left or top edge it becomes width or height, one cell beyond the canvas. An `x` wrap still moves `y` by `dy`, without the vertical tests |
| SnakeRules.NextHeadFromCanvas | src/game-controller.ts:90-100 | from a cell on the canvas with a unit heading, the new head is aligned to the grid and within 0..width by 0..height |
| SnakeRules.HeadCanLeaveCanvas | src/game-controller.ts:90-100 | stepping left from (0,0) reaches (width,0), and stepping up from there reaches (0,-10), which is off the canvas |
| SnakeRules.HeadDriftsUpward | src/game-controller.ts:90-100 | n rounds of a left step then an up step from (0,0) end at (0, -10n); for every n > 0 this is above the canvas |
| SnakeRules.NextHeadOnGrid | src/game-controller.ts:90-100 | on a canvas whose sides are multiples of 10, a step from a grid cell with a unit heading lands on a grid cell, even off the canvas |
| SnakeRules.RandomTen | src/game-controller.ts:258-260 | the result is a multiple of 10, and it lies between the bounds when both are multiples of 10 with min <= max |
| SnakeRules.RoundedBetween | src/game-controller.ts:258-260 | rounding a value scaled into [min, max] to the nearest multiple of 10 stays within [min, max] |
| SnakeRules.DrawnCell | src/game-controller.ts:263-264 | a drawn cell is aligned to the 10-pixel grid, and it is on the canvas when both canvas sizes are positive multiples of 10 |
| SnakeRules.FirstFree | src/game-controller.ts:262-279 | the index of the first draw whose cell is neither on the snake nor on a wall: that draw is free and every earlier one is not |
| SnakeRules.Advanced | src/game-controller.ts:103-115 | the new head goes in front, every old segment moves one place back, and the last one is dropped unless the snake ate; the length grows by one exactly when it ate |
| SnakeRules.InitialSnakeOnGrid | src/game-controller.ts:58-67 | the starting snake is the vertical line (10, 60 - 10i) of grid cells |
| SnakeRules.FirstTickExample | src/game-controller.ts:58-67 | the first tick of a new game heading down moves the head from (10,60) to (10,70) and drops (10,10) |
| SnakeRules.Shortened | src/game-controller.ts:156-162 | "shorter" keeps a prefix of the snake, dropping `strength` tail segments but never the last one |
| SnakeRules.Extension | src/game-controller.ts:171-176 | the segments "longer" appends number exactly `strength` (none for a strength of 0 or less) |
| SnakeRules.ExtensionOnGrid | src/game-controller.ts:171-176 | cells continued from a grid cell in grid steps are all on the grid |
| SnakeRules.ExtensionAt | src/game-controller.ts:171-176 | the i-th appended segment is the old tail plus i+1 times the tail's direction |
| SnakeRules.LengthenedContinuesTail | src/game-controller.ts:164-177 | "longer" keeps the old snake as a prefix and continues the last two segments' direction in a straight line for `strength` segments |
| SnakeRules.PickIndex | src/game-controller.ts:124-135 | floor(6u) is an index into the six power-ups, and u*6 lies within [i, i+1) |
| SnakeRules.Affected | src/game-controller.ts:124-177 | a power-up's effect on the body. "Longer" on two or more segments keeps the snake as a prefix and adds max(strength, 0) segments; on fewer it changes nothing. "Shorter" keeps a prefix of length max(min(n,1), n - max(strength,0)). The four other power-ups leave the body as it was. The snake never becomes empty |
| SnakeRules.AffectedStaysOnGrid | src/game-controller.ts:124-177 | no power-up takes a segment of a grid-aligned snake off the grid |
| Snake.GameController.constructor | src/game-controller.ts:27-43 | a new controller records the canvas size and starts with the key latch clear |
| Snake.GameController.CreateSnake | src/game-controller.ts:58-67 | the snake becomes the six-segment starting snake from (10,60) up to (10,10) |
| Snake.GameController.StartGame | src/game-controller.ts:367-382 | a new game heads down, has no power-up on the board, no food counted, wall-phase off, the chosen level and strength, the starting snake, and food on the first free draw; the new state is valid, grid alignment included |
| Snake.GameController.ChangeDirection | src/game-controller.ts:219-256 | the new heading and latch are exactly `KeyEvent` of the old ones, and a valid state stays valid |
| Snake.GameController.CreateFood | src/game-controller.ts:262-279 | the food lands on the first draw's cell that is neither on the snake nor on a wall |
| Snake.GameController.CreatePowerUp | src/game-controller.ts:288-305 | the power-up lands on the first draw's cell that is neither on the snake nor on a wall |
| Snake.GameController.AdvanceSnake | src/game-controller.ts:83-122 | one step of the snake: it moves, eats, maybe spawns a power-up, and applies an eaten power-up, exactly as `Stepped` relates the old and new state; the state stays valid, so every segment stays on the grid on a canvas whose sides are multiples of 10 |
| Snake.GameController.MoveAndFeed | src/game-controller.ts:84-115 | the snake is `Advanced` by the new head, food and the food counter are renewed when the old head was on the food, the counter stays within 0..2, and food and segments stay on the grid |
| Snake.GameController.EatFood | src/game-controller.ts:105-114 | new food on the first free draw; the counter goes up by one, and on reaching three it resets to 0 and a power-up appears on its first free draw |
| Snake.GameController.EatPowerUp | src/game-controller.ts:117-121 | the effect is applied, and the power-up leaves the board unless the effect threw; a grid-aligned snake stays grid-aligned |
| Snake.GameController.ApplyPowerup | src/game-controller.ts:124-135 | the effect picked by floor(6u) changes the snake as `Affected` says, turns on wall-phase only for the first power-up, and throws only for "longer" on a one-segment snake |
| Snake.GameController.AllowWalkThroughWalls | src/game-controller.ts:138-146 | wall-phase is turned on |
| Snake.GameController.EndWalkThroughWalls | src/game-controller.ts:143-145 | the timed reset turns wall-phase off |
| Snake.GameController.MakeSnakeShorter | src/game-controller.ts:156-162 | the snake becomes `Shortened` by the power-up strength |
| Snake.GameController.MakeSnakeLonger | src/game-controller.ts:164-177 | with two or more segments the snake becomes `Lengthened` by the strength; with one segment it reports failure and is unchanged |
| Snake.GameController.DidGameEnd | src/game-controller.ts:314-327 | the game ends exactly when the head is on another segment, or on a wall while wall-phase is off |
| Snake.GameController.Tick | src/game-controller.ts:199-217 | an ended game changes nothing; otherwise the latch is cleared and the snake takes one `Stepped` step, reported as crashed when the power-up threw; a valid state stays valid |

## Left out

- The score is not modelled. This covers `scoreUpdate`, `addBonusPoints`, `setLevelScoreModificator`, the score element and the score archive. The "bonus points" power-up therefore has no effect in the model.
- The game speed is not modelled. `speedUp` and `slowDown` only change the loop delay (`speedEfector`), so they have no effect in the model.
- `startGame` also resets `speedEfector` and the score element. Both resets are left out with the score and the speed.
- Timers are left out. The loop's `setTimeout` becomes one `Tick` per call. The end of wall-phase after `powerupDuartion` seconds is the separate method `EndWalkThroughWalls`, so when it fires relative to ticks is open.
- Drawing and the canvas context are left out. This covers `clearCanvas`, `drawSnake`, `drawFood`, `drawPowerUp`, `drawLevel` and the console logging.
- The DOM is left out: `collectOptions`, the option menus, `displayScoreTable` and `src/main.ts`. The level's wall cells and the power-up strength are parameters of `StartGame`. The level tables and the game speed are not part of this model.
- Key events are given as key codes to `ChangeDirection`. Subscribing the handler to the document is not modelled.
- `Math.random()` becomes the `Fraction` values in `Draw` sequences and the power-up pick.
- Snake.GameController.CreateFood: the model sees only a finite list of draws and requires that one of them is free. A board with no free cell is not modelled. On such a board the source recurses until the stack overflows.
- Snake.GameController.CreatePowerUp: the same finite-draw requirement applies as for `CreateFood`.
- The power-up strength is an integer. The source reads it with `+value` from a menu whose entries are whole numbers.
- Snake.GameController.constructor: the source has no width or height fields; the model takes the canvas size once, at construction, because it never changes during a game.
