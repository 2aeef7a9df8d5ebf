/** The snake game's state machine: the fields of the game controller that
    a game changes, and the operations that change them. */
module Snake {
  import opened SnakeRules

  /** How one pass of the game loop ends. `Crashed`: the tick threw before it
      finished, so the loop stops without ending the game. */
  datatype Outcome = Running | Ended | Crashed

  class GameController {
    // canvas size in pixels
    const width: int
    const height: int

    var snake: seq<Point>          // head first
    var chosenLevel: seq<Point>    // obstacle cells
    var dx: int
    var dy: int
    var changingDirection: bool    // a key event was taken since the last tick
    var foodX: int
    var foodY: int
    var powerupX: int
    var powerupY: int
    var powerupStrength: int
    var canWalkThroughWalls: bool
    var foodCollected: int

    /** The state between two ticks of a started game. Food and power-up
        always sit on the 10-pixel grid; the snake does too whenever the
        canvas sides are multiples of 10, wrap-arounds included. */
    ghost predicate Valid()
      reads this
    {
      && |snake| >= 1 && IsHeading(dx, dy) && 0 <= foodCollected <= 2
      && OnGrid(Food()) && OnGrid(PowerUpCell())
      && (width % 10 == 0 && height % 10 == 0 ==> AllOnGrid(snake))
    }

    function Food(): Point
      reads this
    {
      Point(foodX, foodY)
    }

    function PowerUpCell(): Point
      reads this
    {
      Point(powerupX, powerupY)
    }

    /** Food and power-ups are taken where the head is before it moves. */
    predicate AteFood()
      reads this
    {
      |snake| >= 1 && snake[0] == Food()
    }

    predicate AtePowerUp()
      reads this
    {
      |snake| >= 1 && snake[0] == PowerUpCell()
    }

    /** The snake with the next head put in front and no segment dropped:
        what the food and power-up placements must avoid during a tick. */
    function Grown(): seq<Point>
      reads this
      requires |snake| >= 1
    {
      [NextHead(snake[0], dx, dy, width, height)] + snake
    }

    /** The draws a tick is given contain a free cell for every placement
        the tick makes. */
    ghost predicate CanAdvance(foodDraws: seq<Draw>, powerupDraws: seq<Draw>)
      reads this
    {
      |snake| >= 1 &&
      (AteFood() ==>
         HasFreeDraw(foodDraws, Grown(), chosenLevel, width, height) &&
         (foodCollected == 2 ==> HasFreeDraw(powerupDraws, Grown(), chosenLevel, width, height)))
    }

    /** What one advance of the snake does to the game. */
    twostate predicate Stepped(foodDraws: seq<Draw>, powerupDraws: seq<Draw>, pick: Fraction, crashed: bool)
      requires old(Valid()) && old(CanAdvance(foodDraws, powerupDraws))
      reads this
    {
      var grown := old(Grown());
      var ateFood := old(AteFood());
      var atePowerUp := old(AtePowerUp());
      var spawn := ateFood && old(foodCollected) == 2;
      var moved := Advanced(old(snake), grown[0], ateFood);
      var effect := PowerUps[PickIndex(pick)];
      && crashed == (atePowerUp && effect == Longer && |moved| < 2)
      && snake == (if atePowerUp then Affected(effect, moved, old(powerupStrength)) else moved)
      && canWalkThroughWalls == (old(canWalkThroughWalls) || (atePowerUp && effect == WalkThroughWalls))
      && Food() == (if ateFood
                    then DrawnCell(foodDraws[FirstFree(foodDraws, grown, old(chosenLevel), width, height)], width, height)
                    else old(Food()))
      && foodCollected == (if spawn then 0 else if ateFood then old(foodCollected) + 1 else old(foodCollected))
      && PowerUpCell() == (if atePowerUp && !crashed then Point(Sentinel, Sentinel)
                           else if spawn
                           then DrawnCell(powerupDraws[FirstFree(powerupDraws, grown, old(chosenLevel), width, height)], width, height)
                           else old(PowerUpCell()))
    }

    /** The other fields stay undefined until a game starts. */
    constructor(width: int, height: int)
      ensures this.width == width && this.height == height
      ensures !changingDirection
    {
      this.width := width;
      this.height := height;
      changingDirection := false;
    }

    method CreateSnake()
      modifies this`snake
      ensures snake == InitialSnake
    {
      snake := InitialSnake;
    }

    /** Resets the game; the latch is left as it is. */
    method StartGame(level: seq<Point>, strength: int, foodDraws: seq<Draw>)
      requires HasFreeDraw(foodDraws, InitialSnake, level, width, height)
      modifies this`dx, this`dy, this`powerupX, this`powerupY, this`foodCollected,
               this`canWalkThroughWalls, this`chosenLevel, this`powerupStrength,
               this`snake, this`foodX, this`foodY
      ensures Valid()
      ensures dx == 0 && dy == 10
      ensures PowerUpCell() == Point(Sentinel, Sentinel)
      ensures foodCollected == 0 && !canWalkThroughWalls
      ensures chosenLevel == level && powerupStrength == strength
      ensures snake == InitialSnake
      ensures Food() == DrawnCell(foodDraws[FirstFree(foodDraws, InitialSnake, level, width, height)], width, height)
      ensures IsFree(Food(), snake, chosenLevel)
    {
      dx := 0;
      dy := 10;
      powerupX := Sentinel;
      powerupY := Sentinel;
      foodCollected := 0;
      canWalkThroughWalls := false;
      chosenLevel := level;
      powerupStrength := strength;
      CreateSnake();
      CreateFood(foodDraws);
      InitialSnakeOnGrid();
    }

    /** A key event. Whatever the key, it sets the latch; only the first
        event after a tick can change the heading. */
    method ChangeDirection(key: int)
      modifies this`dx, this`dy, this`changingDirection
      ensures (dx, dy, changingDirection) == KeyEvent(old(dx), old(dy), old(changingDirection), key)
      ensures old(Valid()) ==> Valid()
    {
      var goingUp := dy == -10;
      var goingDown := dy == 10;
      var goingRight := dx == 10;
      var goingLeft := dx == -10;

      if changingDirection {
        return;
      }
      changingDirection := true;

      if IsLeftKey(key) && !goingRight {
        dx, dy := -10, 0;
      }
      if IsUpKey(key) && !goingDown {
        dx, dy := 0, -10;
      }
      if IsRightKey(key) && !goingLeft {
        dx, dy := 10, 0;
      }
      if IsDownKey(key) && !goingUp {
        dx, dy := 0, 10;
      }
    }

    /** Places the food on the first attempt that is off the snake and off
        every obstacle. */
    method CreateFood(draws: seq<Draw>)
      requires HasFreeDraw(draws, snake, chosenLevel, width, height)
      modifies this`foodX, this`foodY
      ensures Food() == DrawnCell(draws[FirstFree(draws, snake, chosenLevel, width, height)], width, height)
      ensures IsFree(Food(), snake, chosenLevel)
    {
      ghost var first := FirstFree(draws, snake, chosenLevel, width, height);
      var k := 0;
      foodX := RandomTen(0, width - 10, draws[k].u);
      foodY := RandomTen(0, height - 10, draws[k].v);
      while Food() in snake || Food() in chosenLevel
        invariant 0 <= k <= first
        invariant Food() == DrawnCell(draws[k], width, height)
        decreases first - k
      {
        k := k + 1;
        foodX := RandomTen(0, width - 10, draws[k].u);
        foodY := RandomTen(0, height - 10, draws[k].v);
      }
    }

    /** Places the power-up on the first attempt that is off the snake and
        off every obstacle (the food cell is not avoided). */
    method CreatePowerUp(draws: seq<Draw>)
      requires HasFreeDraw(draws, snake, chosenLevel, width, height)
      modifies this`powerupX, this`powerupY
      ensures PowerUpCell() == DrawnCell(draws[FirstFree(draws, snake, chosenLevel, width, height)], width, height)
      ensures IsFree(PowerUpCell(), snake, chosenLevel)
    {
      ghost var first := FirstFree(draws, snake, chosenLevel, width, height);
      var k := 0;
      powerupX := RandomTen(0, width - 10, draws[k].u);
      powerupY := RandomTen(0, height - 10, draws[k].v);
      while PowerUpCell() in snake || PowerUpCell() in chosenLevel
        invariant 0 <= k <= first
        invariant PowerUpCell() == DrawnCell(draws[k], width, height)
        decreases first - k
      {
        k := k + 1;
        powerupX := RandomTen(0, width - 10, draws[k].u);
        powerupY := RandomTen(0, height - 10, draws[k].v);
      }
    }

    /** One tick of the snake: it moves one cell and eats what its head was
        on before moving; `crashed` when a power-up threw. */
    method AdvanceSnake(foodDraws: seq<Draw>, powerupDraws: seq<Draw>, pick: Fraction) returns (crashed: bool)
      requires Valid() && CanAdvance(foodDraws, powerupDraws)
      modifies this`snake, this`foodX, this`foodY, this`powerupX, this`powerupY,
               this`foodCollected, this`canWalkThroughWalls
      ensures Valid()
      ensures Stepped(foodDraws, powerupDraws, pick, crashed)
    {
      var didEatPowerup := snake[0].x == powerupX && snake[0].y == powerupY;
      MoveAndFeed(foodDraws, powerupDraws);
      crashed := false;
      if didEatPowerup {
        crashed := EatPowerUp(pick);
      }
    }

    /** The move and the food: the new head goes in front, and the tail
        segment is dropped unless the head was on the food. */
    method MoveAndFeed(foodDraws: seq<Draw>, powerupDraws: seq<Draw>)
      requires Valid() && CanAdvance(foodDraws, powerupDraws)
      modifies this`snake, this`foodX, this`foodY, this`powerupX, this`powerupY, this`foodCollected
      ensures Valid()
      ensures snake == Advanced(old(snake), old(Grown())[0], old(AteFood()))
      ensures Food() == if old(AteFood())
                        then DrawnCell(foodDraws[FirstFree(foodDraws, old(Grown()), chosenLevel, width, height)], width, height)
                        else old(Food())
      ensures foodCollected == if old(AteFood()) && old(foodCollected) == 2 then 0
                               else if old(AteFood()) then old(foodCollected) + 1
                               else old(foodCollected)
      ensures PowerUpCell() == if old(AteFood()) && old(foodCollected) == 2
                               then DrawnCell(powerupDraws[FirstFree(powerupDraws, old(Grown()), chosenLevel, width, height)], width, height)
                               else old(PowerUpCell())
    {
      var didEatFood := snake[0].x == foodX && snake[0].y == foodY;
      var head := NextHead(snake[0], dx, dy, width, height);
      ghost var grid := width % 10 == 0 && height % 10 == 0;
      if grid {
        NextHeadOnGrid(snake[0], dx, dy, width, height);
      }

      snake := [head] + snake;
      assert grid ==> AllOnGrid(snake) by {
        if grid {
          forall i | 1 <= i < |snake|
            ensures OnGrid(snake[i])
          {
            assert snake[i] == old(snake)[i - 1];
          }
        }
      }

      if didEatFood {
        EatFood(foodDraws, powerupDraws);
      } else {
        snake := snake[..|snake| - 1];
      }
    }

    /** Eating the food: a new food cell, and a power-up on every third food. */
    method EatFood(foodDraws: seq<Draw>, powerupDraws: seq<Draw>)
      requires 0 <= foodCollected <= 2
      requires HasFreeDraw(foodDraws, snake, chosenLevel, width, height)
      requires foodCollected == 2 ==> HasFreeDraw(powerupDraws, snake, chosenLevel, width, height)
      modifies this`foodX, this`foodY, this`powerupX, this`powerupY, this`foodCollected
      ensures Food() == DrawnCell(foodDraws[FirstFree(foodDraws, snake, chosenLevel, width, height)], width, height)
      ensures foodCollected == if old(foodCollected) == 2 then 0 else old(foodCollected) + 1
      ensures PowerUpCell() == if old(foodCollected) == 2
                               then DrawnCell(powerupDraws[FirstFree(powerupDraws, snake, chosenLevel, width, height)], width, height)
                               else old(PowerUpCell())
    {
      CreateFood(foodDraws);
      foodCollected := foodCollected + 1;
      if foodCollected == 3 {
        CreatePowerUp(powerupDraws);
        foodCollected := 0;
      }
    }

    /** Eating the power-up: its effect, then the power-up is parked off the
        board, unless the effect threw. */
    method EatPowerUp(pick: Fraction) returns (crashed: bool)
      modifies this`snake, this`canWalkThroughWalls, this`powerupX, this`powerupY
      ensures var effect := PowerUps[PickIndex(pick)];
        && crashed == (effect == Longer && |old(snake)| < 2)
        && snake == Affected(effect, old(snake), powerupStrength)
        && canWalkThroughWalls == (old(canWalkThroughWalls) || effect == WalkThroughWalls)
        && PowerUpCell() == if crashed then old(PowerUpCell()) else Point(Sentinel, Sentinel)
      ensures AllOnGrid(old(snake)) ==> AllOnGrid(snake)
    {
      if AllOnGrid(snake) {
        AffectedStaysOnGrid(PowerUps[PickIndex(pick)], snake, powerupStrength);
      }
      crashed := ApplyPowerup(pick);
      if !crashed {
        powerupX := Sentinel;
        powerupY := Sentinel;
      }
    }

    /** Applies the power-up the draw picks; `crashed` when the lengthening
        power-up finds fewer than two segments. */
    method ApplyPowerup(pick: Fraction) returns (crashed: bool)
      modifies this`snake, this`canWalkThroughWalls
      ensures var effect := PowerUps[PickIndex(pick)];
        && crashed == (effect == Longer && |old(snake)| < 2)
        && snake == Affected(effect, old(snake), powerupStrength)
        && canWalkThroughWalls == (old(canWalkThroughWalls) || effect == WalkThroughWalls)
    {
      var effect := PowerUps[PickIndex(pick)];
      crashed := false;
      match effect
      case WalkThroughWalls =>
        AllowWalkThroughWalls();
      case BonusPoints =>
        // changes only the score
      case Longer =>
        var ok := MakeSnakeLonger();
        crashed := !ok;
      case Shorter =>
        MakeSnakeShorter();
      case SpeedUp =>
        // changes only the loop delay
      case SlowDown =>
        // changes only the loop delay
    }

    method AllowWalkThroughWalls()
      modifies this`canWalkThroughWalls
      ensures canWalkThroughWalls
    {
      canWalkThroughWalls := true;
    }

    /** The timed reset that ends wall-phase. */
    method EndWalkThroughWalls()
      modifies this`canWalkThroughWalls
      ensures !canWalkThroughWalls
    {
      canWalkThroughWalls := false;
    }

    /** Drops up to `powerupStrength` tail segments, never the last one. */
    method MakeSnakeShorter()
      modifies this`snake
      ensures snake == Shortened(old(snake), powerupStrength)
    {
      var i := 0;
      while i < powerupStrength
        invariant 0 <= i <= Max(powerupStrength, 0)
        invariant snake == old(snake)[..Max(Min(|old(snake)|, 1), |old(snake)| - i)]
      {
        if |snake| > 1 {
          snake := snake[..|snake| - 1];
        }
        i := i + 1;
      }
      assert i == Max(powerupStrength, 0);
    }

    /** Adds `powerupStrength` segments past the tail along the tail's last
        step. With fewer than two segments the second-to-last one does not
        exist and the operation fails (`ok` false) before changing anything. */
    method MakeSnakeLonger() returns (ok: bool)
      modifies this`snake
      ensures ok == (|old(snake)| >= 2)
      ensures ok ==> snake == Lengthened(old(snake), powerupStrength)
      ensures !ok ==> snake == old(snake)
    {
      if |snake| < 2 {
        return false;
      }
      var xDirection := snake[|snake| - 1].x - snake[|snake| - 2].x;
      var yDirection := snake[|snake| - 1].y - snake[|snake| - 2].y;
      var lastElement := snake[|snake| - 1];

      var i := 1;
      while i <= powerupStrength
        invariant 1 <= i <= Max(powerupStrength, 0) + 1
        invariant snake == old(snake) + Extension(lastElement, Point(xDirection, yDirection), i - 1)
      {
        snake := snake + [Point(lastElement.x + xDirection * i, lastElement.y + yDirection * i)];
        i := i + 1;
      }
      assert i - 1 == Max(powerupStrength, 0);
      assert Point(xDirection, yDirection) == TailStep(old(snake));
      assert Extension(lastElement, Point(xDirection, yDirection), i - 1)
          == Extension(lastElement, Point(xDirection, yDirection), powerupStrength);
      ok := true;
    }

    /** The end-of-game test: a segment after the head on the head's cell,
        or the head on an obstacle while wall-phase is off. */
    method DidGameEnd() returns (ended: bool)
      requires |snake| >= 1
      ensures ended == GameOver(snake, chosenLevel, canWalkThroughWalls)
      ensures canWalkThroughWalls ==> (ended <==> HitsItself(snake))
      ensures |snake| == 1 ==> (ended <==> !canWalkThroughWalls && snake[0] in chosenLevel)
    {
      var i := 1;
      while i < |snake|
        invariant 1 <= i <= |snake|
        invariant forall j :: 1 <= j < i ==> snake[j] != snake[0]
      {
        if snake[i].x == snake[0].x && snake[i].y == snake[0].y {
          return true;
        }
        i := i + 1;
      }

      var k := 0;
      while k < |chosenLevel|
        invariant 0 <= k <= |chosenLevel|
        invariant forall j :: 0 <= j < k ==> !(snake[0] == chosenLevel[j] && !canWalkThroughWalls)
      {
        if snake[0] == chosenLevel[k] && !canWalkThroughWalls {
          return true;
        }
        k := k + 1;
      }
      return false;
    }

    /** One pass of the game loop: stop if the game is over; otherwise clear
        the latch and advance the snake. */
    method Tick(foodDraws: seq<Draw>, powerupDraws: seq<Draw>, pick: Fraction) returns (outcome: Outcome)
      requires Valid() && CanAdvance(foodDraws, powerupDraws)
      modifies this`snake, this`foodX, this`foodY, this`powerupX, this`powerupY,
               this`foodCollected, this`canWalkThroughWalls, this`changingDirection
      ensures Valid()
      ensures outcome == Ended <==> old(GameOver(snake, chosenLevel, canWalkThroughWalls))
      ensures outcome == Ended ==> unchanged(this)
      ensures outcome != Ended ==> !changingDirection && Stepped(foodDraws, powerupDraws, pick, outcome == Crashed)
    {
      var ended := DidGameEnd();
      if ended {
        return Ended;
      }
      changingDirection := false;
      var crashed := AdvanceSnake(foodDraws, powerupDraws, pick);
      outcome := if crashed then Crashed else Running;
    }
  }
}
