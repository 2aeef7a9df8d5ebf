/** The pure rules of the snake game: grid cells, headings and key codes,
    one step of the head with its edge wrap-around, the random placement of
    food and power-ups, the changes a tick and the two length power-ups make
    to the segment list, the power-up draw, and the end-of-game test. */
module SnakeRules {

  /** A cell position in canvas pixels; cells are 10 pixels wide. */
  datatype Point = Point(x: int, y: int)

  /** Where a power-up is parked while none is on the board. */
  const Sentinel: int := 1000

  /** The snake every game starts with: vertical, head at the bottom. */
  const InitialSnake: seq<Point> :=
    [Point(10, 60), Point(10, 50), Point(10, 40), Point(10, 30), Point(10, 20), Point(10, 10)]

  /** The starting snake is a vertical line of grid cells, head at (10, 60). */
  lemma InitialSnakeOnGrid()
    ensures AllOnGrid(InitialSnake)
    ensures forall i :: 0 <= i < |InitialSnake| ==> InitialSnake[i] == Point(10, 60 - 10 * i)
  {
    forall i | 0 <= i < |InitialSnake|
      ensures InitialSnake[i] == Point(10, 60 - 10 * i) && OnGrid(InitialSnake[i])
    {
      if i == 0 {} else if i == 1 {} else if i == 2 {} else if i == 3 {} else if i == 4 {} else {}
    }
  }

  function Min(a: int, b: int): int { if a <= b then a else b }
  function Max(a: int, b: int): int { if a >= b then a else b }

  // ---------------------------------------------------------------------
  // Headings and keys

  /** One cell per tick along exactly one axis. */
  predicate IsHeading(dx: int, dy: int) {
    (dx == 0 && (dy == 10 || dy == -10)) || (dy == 0 && (dx == 10 || dx == -10))
  }

  // keyCode values the game reacts to: the arrows and W, A, S, D
  const LeftKey: int := 37
  const AltLeftKey: int := 65
  const RightKey: int := 39
  const AltRightKey: int := 68
  const UpKey: int := 38
  const AltUpKey: int := 87
  const DownKey: int := 40
  const AltDownKey: int := 83

  predicate IsLeftKey(key: int) { key == LeftKey || key == AltLeftKey }
  predicate IsRightKey(key: int) { key == RightKey || key == AltRightKey }
  predicate IsUpKey(key: int) { key == UpKey || key == AltUpKey }
  predicate IsDownKey(key: int) { key == DownKey || key == AltDownKey }

  predicate IsDirectionKey(key: int) {
    IsLeftKey(key) || IsUpKey(key) || IsRightKey(key) || IsDownKey(key)
  }

  /** The heading a direction key asks for. */
  function KeyHeading(key: int): (int, int)
    requires IsDirectionKey(key)
  {
    if IsLeftKey(key) then (-10, 0)
    else if IsUpKey(key) then (0, -10)
    else if IsRightKey(key) then (10, 0)
    else (0, 10)
  }

  /** The key asks to go back the way the snake is moving: left while
      going right, up while going down, right while going left, down while
      going up. */
  predicate Reverses(key: int, dx: int, dy: int) {
    (IsLeftKey(key) && dx == 10) || (IsUpKey(key) && dy == 10) ||
    (IsRightKey(key) && dx == -10) || (IsDownKey(key) && dy == -10)
  }

  /** The heading after a key event that the latch lets through: a direction
      key is obeyed unless it reverses the snake; any other key changes nothing. */
  function Turn(dx: int, dy: int, key: int): (r: (int, int))
    ensures IsHeading(dx, dy) ==> IsHeading(r.0, r.1)
    ensures IsHeading(dx, dy) ==> r != (-dx, -dy)
    ensures !IsDirectionKey(key) ==> r == (dx, dy)
    ensures IsHeading(dx, dy) && IsDirectionKey(key) ==>
              (r == KeyHeading(key) <==> KeyHeading(key) != (-dx, -dy))
    ensures IsHeading(dx, dy) && IsDirectionKey(key) && KeyHeading(key) == (-dx, -dy) ==>
              r == (dx, dy)
  {
    if IsDirectionKey(key) && !Reverses(key, dx, dy) then KeyHeading(key) else (dx, dy)
  }

  /** Heading and latch after one key event: while the latch is set the
      event is ignored; otherwise it sets the latch and may turn. */
  function KeyEvent(dx: int, dy: int, latched: bool, key: int): (r: (int, int, bool))
    ensures r.2
    ensures latched ==> r.0 == dx && r.1 == dy
    ensures !latched ==> (r.0, r.1) == Turn(dx, dy, key)
  {
    if latched then (dx, dy, true)
    else var h := Turn(dx, dy, key); (h.0, h.1, true)
  }

  /** Heading and latch after a run of key events between two ticks. */
  function KeyEvents(dx: int, dy: int, latched: bool, keys: seq<int>): (int, int, bool)
    decreases |keys|
  {
    if keys == [] then (dx, dy, latched)
    else
      var r := KeyEvent(dx, dy, latched, keys[0]);
      KeyEvents(r.0, r.1, r.2, keys[1..])
  }

  /** Once latched, no run of key events changes the heading. */
  lemma {:induction false} LatchedKeysIgnored(dx: int, dy: int, keys: seq<int>)
    ensures KeyEvents(dx, dy, true, keys) == (dx, dy, true)
    decreases |keys|
  {
    if keys != [] {
      LatchedKeysIgnored(dx, dy, keys[1..]);
    }
  }

  /** Between two ticks only the first key event can turn the snake, and
      it sets the latch whether or not it is a direction key. */
  lemma {:induction false} OnlyFirstKeyTurns(dx: int, dy: int, keys: seq<int>)
    requires keys != []
    ensures KeyEvents(dx, dy, false, keys) ==
              (Turn(dx, dy, keys[0]).0, Turn(dx, dy, keys[0]).1, true)
  {
    var h := Turn(dx, dy, keys[0]);
    LatchedKeysIgnored(h.0, h.1, keys[1..]);
  }

  // ---------------------------------------------------------------------
  // Movement

  /** The head after one tick. The tests are made in this order and only the
      first that holds applies: past the right edge the head goes to x = 0,
      past the left edge to x = width, past the bottom to y = 0, past the top
      to y = height; otherwise it moves by (dx, dy). */
  function NextHead(head: Point, dx: int, dy: int, width: int, height: int): (r: Point)
    ensures width >= 0 ==> 0 <= r.x <= width
    ensures r.x == head.x + dx || r.x == 0 || r.x == width
    ensures r.y == head.y + dy || r.y == 0 || r.y == height
  {
    if head.x + dx > width - 2 then Point(0, head.y + dy)
    else if head.x + dx < 0 then Point(width, head.y + dy)
    else if head.y + dy > height - 2 then Point(head.x + dx, 0)
    else if head.y + dy < 0 then Point(head.x + dx, height)
    else Point(head.x + dx, head.y + dy)
  }

  /** The step and the wrap of each edge. A horizontal wrap leaves the y step
      unchecked, since the x tests come first. */
  lemma NextHeadStep(head: Point, dx: int, dy: int, width: int, height: int)
    requires width >= 2 && height >= 2
    ensures var r := NextHead(head, dx, dy, width, height);
      && (0 <= head.x + dx <= width - 2 && 0 <= head.y + dy <= height - 2 ==>
            r == Point(head.x + dx, head.y + dy))
      && (head.x + dx > width - 2 ==> r == Point(0, head.y + dy))
      && (head.x + dx < 0 ==> r == Point(width, head.y + dy))
      && (0 <= head.x + dx <= width - 2 && head.y + dy > height - 2 ==> r == Point(head.x + dx, 0))
      && (0 <= head.x + dx <= width - 2 && head.y + dy < 0 ==> r == Point(head.x + dx, height))
  {
  }

  /** A cell of the 10-pixel grid. */
  predicate OnGrid(p: Point) {
    p.x % 10 == 0 && p.y % 10 == 0
  }

  predicate AllOnGrid(s: seq<Point>) {
    forall i :: 0 <= i < |s| ==> OnGrid(s[i])
  }

  /** A cell drawn inside a canvas whose sides are multiples of 10. */
  predicate OnCanvas(p: Point, width: int, height: int) {
    0 <= p.x <= width - 10 && 0 <= p.y <= height - 10 && OnGrid(p)
  }

  /** From a cell on the canvas the head stays grid-aligned and lands within
      0..width by 0..height: the left and top wraps put it one cell beyond
      the canvas, at x = width or y = height. */
  lemma NextHeadFromCanvas(head: Point, dx: int, dy: int, width: int, height: int)
    requires IsHeading(dx, dy)
    requires width >= 10 && height >= 10 && width % 10 == 0 && height % 10 == 0
    requires OnCanvas(head, width, height)
    ensures var r := NextHead(head, dx, dy, width, height);
      0 <= r.x <= width && 0 <= r.y <= height && r.x % 10 == 0 && r.y % 10 == 0
  {
  }

  /** The head can leave the canvas: going left from (0, 0) wraps to
      (width, 0), and turning up from there hits the right-edge test first,
      which puts the head at (0, -10) with no vertical wrap. */
  lemma HeadCanLeaveCanvas(width: int, height: int)
    requires width >= 10 && height >= 10
    ensures NextHead(Point(0, 0), -10, 0, width, height) == Point(width, 0)
    ensures NextHead(Point(width, 0), 0, -10, width, height) == Point(0, -10)
  {
  }

  /** The drift is unbounded: alternating a step left and a step up from
      (0, 0), each round ends at (0, -10 * n), one row further above the
      canvas than the round before. */
  function LeftThenUp(p: Point, n: nat, width: int, height: int): Point
  {
    if n == 0 then p
    else
      var q := LeftThenUp(p, n - 1, width, height);
      NextHead(NextHead(q, -10, 0, width, height), 0, -10, width, height)
  }

  lemma {:induction false} HeadDriftsUpward(width: int, height: int, n: nat)
    requires width >= 10 && height >= 10
    ensures LeftThenUp(Point(0, 0), n, width, height) == Point(0, -10 * n)
    ensures n > 0 ==> LeftThenUp(Point(0, 0), n, width, height).y < 0
  {
    if n > 0 {
      HeadDriftsUpward(width, height, n - 1);
      var q := LeftThenUp(Point(0, 0), n - 1, width, height);
      var left := NextHead(q, -10, 0, width, height);
      assert left == Point(width, -10 * (n - 1));
      assert NextHead(left, 0, -10, width, height) == Point(0, -10 * n);
    }
  }

  /** A step from a grid cell on a canvas whose sides are multiples of 10
      lands on a grid cell, wherever the head is, on the canvas or off it. */
  lemma NextHeadOnGrid(head: Point, dx: int, dy: int, width: int, height: int)
    requires IsHeading(dx, dy) && OnGrid(head)
    requires width % 10 == 0 && height % 10 == 0
    ensures OnGrid(NextHead(head, dx, dy, width, height))
  {
  }

  // ---------------------------------------------------------------------
  // Random placement

  /** A value of Math.random(). */
  type Fraction = u: real | 0.0 <= u < 1.0

  /** The two random values one placement attempt uses, for x and for y. */
  datatype Draw = Draw(u: Fraction, v: Fraction)

  /** The result of rounding `u` scaled to min..max to the nearest multiple
      of 10 (Math.round rounds halves up). */
  function RandomTen(min: int, max: int, u: Fraction): (r: int)
    ensures r % 10 == 0
    ensures min % 10 == 0 && max % 10 == 0 && min <= max ==> min <= r <= max
  {
    var r := Round(Scaled(min, max, u) / 10.0) * 10;
    assert min % 10 == 0 && max % 10 == 0 && min <= max ==> min <= r <= max by {
      if min % 10 == 0 && max % 10 == 0 && min <= max {
        RoundedBetween(min, max, u);
      }
    }
    r
  }

  /** Math.round: the nearest integer, halves rounded up. */
  function Round(z: real): int {
    (z + 0.5).Floor
  }

  /** Math.random() * (max - min) + min */
  function Scaled(min: int, max: int, u: Fraction): real {
    u * (max - min) as real + min as real
  }

  lemma RoundedBetween(min: int, max: int, u: Fraction)
    requires min % 10 == 0 && max % 10 == 0 && min <= max
    ensures min <= Round(Scaled(min, max, u) / 10.0) * 10 <= max
  {
    var d := (max - min) as real;
    ScaleBetween(u, d);
    var p := u * d;
    assert 0.0 <= p <= d;
    var a, b := min / 10, max / 10;
    assert min == 10 * a && max == 10 * b;
    assert min as real == 10.0 * a as real && max as real == 10.0 * b as real;
    var z := (p + min as real) / 10.0;
    assert Scaled(min, max, u) / 10.0 == z;
    assert a as real <= z <= b as real;
    var f := (z + 0.5).Floor;
    assert f as real <= z + 0.5 < f as real + 1.0;
    assert a <= f <= b;
  }

  lemma ScaleBetween(u: Fraction, d: real)
    requires 0.0 <= d
    ensures 0.0 <= u * d <= d
  {
    assert d - u * d == (1.0 - u) * d;
  }

  /** The cell a placement attempt picks on a width by height canvas. */
  function DrawnCell(d: Draw, width: int, height: int): (r: Point)
    ensures OnGrid(r)
    ensures width >= 10 && height >= 10 && width % 10 == 0 && height % 10 == 0 ==>
              OnCanvas(r, width, height)
  {
    Point(RandomTen(0, width - 10, d.u), RandomTen(0, height - 10, d.v))
  }

  /** Off every snake segment and off every obstacle. */
  predicate IsFree(p: Point, snake: seq<Point>, level: seq<Point>) {
    p !in snake && p !in level
  }

  predicate HasFreeDraw(draws: seq<Draw>, snake: seq<Point>, level: seq<Point>, width: int, height: int) {
    exists i :: 0 <= i < |draws| && IsFree(DrawnCell(draws[i], width, height), snake, level)
  }

  /** The attempt a placement settles on: the first whose cell is free. */
  function FirstFree(draws: seq<Draw>, snake: seq<Point>, level: seq<Point>, width: int, height: int): (k: nat)
    requires HasFreeDraw(draws, snake, level, width, height)
    ensures k < |draws| && IsFree(DrawnCell(draws[k], width, height), snake, level)
    ensures forall j :: 0 <= j < k ==> !IsFree(DrawnCell(draws[j], width, height), snake, level)
    decreases |draws|
  {
    if IsFree(DrawnCell(draws[0], width, height), snake, level) then 0
    else
      assert HasFreeDraw(draws[1..], snake, level, width, height) by {
        var i :| 0 <= i < |draws| && IsFree(DrawnCell(draws[i], width, height), snake, level);
        assert draws[1..][i - 1] == draws[i];
      }
      1 + FirstFree(draws[1..], snake, level, width, height)
  }

  // ---------------------------------------------------------------------
  // The segment list

  /** The segments after the head moves to `head`: it is put in front and
      the tail segment is dropped unless the snake grows. */
  function Advanced(s: seq<Point>, head: Point, grow: bool): (r: seq<Point>)
    requires |s| >= 1
    ensures |r| == if grow then |s| + 1 else |s|
    ensures r[0] == head
    ensures forall i :: 1 <= i < |r| ==> r[i] == s[i - 1]
  {
    [head] + (if grow then s else s[..|s| - 1])
  }

  /** The first tick of a game on a canvas large enough not to wrap: the
      head moves down from (10, 60) to (10, 70) and the tail (10, 10) goes. */
  lemma FirstTickExample(width: int, height: int)
    requires width >= 30 && height >= 90
    ensures Advanced(InitialSnake, NextHead(InitialSnake[0], 0, 10, width, height), false) ==
              [Point(10, 70), Point(10, 60), Point(10, 50), Point(10, 40), Point(10, 30), Point(10, 20)]
  {
  }

  /** The segments after `k` rounds of dropping the tail segment, each round
      only while more than one segment is left. */
  function Shortened(s: seq<Point>, k: int): (r: seq<Point>)
    ensures |r| == Max(Min(|s|, 1), |s| - Max(k, 0))
    ensures r == s[..|r|]
    decreases k
  {
    if k <= 0 then s
    else if |s| > 1 then Shortened(s[..|s| - 1], k - 1)
    else Shortened(s, k - 1)
  }

  /** `k` cells that continue a line from `last` in steps of `d`: the i-th
      (counting from 1) is last + i * d. */
  function Extension(last: Point, d: Point, k: int): (r: seq<Point>)
    ensures |r| == Max(k, 0)
    decreases k
  {
    if k <= 0 then []
    else Extension(last, d, k - 1) + [Point(last.x + d.x * k, last.y + d.y * k)]
  }

  lemma {:induction false} ExtensionAt(last: Point, d: Point, k: int, i: int)
    requires 0 <= i < k
    ensures Extension(last, d, k)[i] == Point(last.x + d.x * (i + 1), last.y + d.y * (i + 1))
    decreases k
  {
    if i < k - 1 {
      ExtensionAt(last, d, k - 1, i);
    }
  }

  /** a + b * k is a multiple of 10 when a and b are. */
  lemma GridSum(a: int, b: int, k: int)
    requires a % 10 == 0 && b % 10 == 0
    ensures (a + b * k) % 10 == 0
  {
    var p, q := a / 10, b / 10;
    assert a + b * k == 10 * (p + q * k) by {
      assert b * k == 10 * (q * k);
    }
  }

  /** A line of cells continued from a grid cell in grid steps stays on the
      grid. */
  lemma {:induction false} ExtensionOnGrid(last: Point, d: Point, k: int)
    requires OnGrid(last) && OnGrid(d)
    ensures AllOnGrid(Extension(last, d, k))
    decreases k
  {
    if k > 0 {
      var prev := Extension(last, d, k - 1);
      var cell := Point(last.x + d.x * k, last.y + d.y * k);
      ExtensionOnGrid(last, d, k - 1);
      GridSum(last.x, d.x, k);
      GridSum(last.y, d.y, k);
      assert OnGrid(cell);
      assert Extension(last, d, k) == prev + [cell];
      forall i | 0 <= i < |prev| + 1
        ensures OnGrid((prev + [cell])[i])
      {
        if i < |prev| {
          assert (prev + [cell])[i] == prev[i];
        }
      }
    }
  }

  /** The step from the second-to-last segment to the last one. */
  function TailStep(s: seq<Point>): Point
    requires |s| >= 2
  {
    Point(s[|s| - 1].x - s[|s| - 2].x, s[|s| - 1].y - s[|s| - 2].y)
  }

  /** The segments after the lengthening power-up: `k` more cells past the
      tail, continuing the tail's last step. */
  function Lengthened(s: seq<Point>, k: int): seq<Point>
    requires |s| >= 2
  {
    s + Extension(s[|s| - 1], TailStep(s), k)
  }

  /** Lengthening keeps every segment and adds max(k, 0) more, and each new
      cell is one tail step beyond the one before it. */
  lemma LengthenedContinuesTail(s: seq<Point>, k: int)
    requires |s| >= 2
    ensures var r := Lengthened(s, k);
      && |r| == |s| + Max(k, 0)
      && r[..|s|] == s
      && forall j :: |s| - 1 <= j < |r| ==>
           r[j] == Point(r[j - 1].x + TailStep(s).x, r[j - 1].y + TailStep(s).y)
  {
    var r := Lengthened(s, k);
    var last, d := s[|s| - 1], TailStep(s);
    assert r[..|s|] == s;
    forall j | |s| - 1 <= j < |r|
      ensures r[j] == Point(r[j - 1].x + d.x, r[j - 1].y + d.y)
    {
      if j == |s| {
        ExtensionAt(last, d, k, 0);
      } else if j > |s| {
        var m := j - |s|;
        ExtensionAt(last, d, k, m);
        ExtensionAt(last, d, k, m - 1);
        assert d.x * (m + 1) == d.x * m + d.x;
        assert d.y * (m + 1) == d.y * m + d.y;
      }
    }
  }

  // ---------------------------------------------------------------------
  // Power-ups

  datatype PowerUp = WalkThroughWalls | BonusPoints | Longer | Shorter | SpeedUp | SlowDown

  /** The power-ups in the order of the list the draw indexes. */
  const PowerUps: seq<PowerUp> := [WalkThroughWalls, BonusPoints, Longer, Shorter, SpeedUp, SlowDown]

  /** The list index Math.floor(u * 6) picks: every index owns a sixth of
      the range of `u`. */
  function PickIndex(u: Fraction): (i: int)
    ensures 0 <= i < |PowerUps|
    ensures i as real <= u * 6.0 < (i + 1) as real
  {
    (u * 6.0).Floor
  }

  /** The segments after a power-up takes effect with strength `k`. A
      lengthening on fewer than two segments fails before it changes
      anything. */
  function Affected(e: PowerUp, s: seq<Point>, k: int): (r: seq<Point>)
    ensures |r| >= Min(|s|, 1)
    ensures e != Longer && e != Shorter ==> r == s
    ensures e == Longer && |s| < 2 ==> r == s
    ensures e == Longer && |s| >= 2 ==> |r| == |s| + Max(k, 0) && r[..|s|] == s
    ensures e == Shorter ==> |r| == Max(Min(|s|, 1), |s| - Max(k, 0)) && r == s[..|r|]
  {
    match e
    case Longer => if |s| >= 2 then Lengthened(s, k) else s
    case Shorter => Shortened(s, k)
    case _ => s
  }

  /** No power-up takes a segment off the grid. */
  lemma AffectedStaysOnGrid(e: PowerUp, s: seq<Point>, k: int)
    requires AllOnGrid(s)
    ensures AllOnGrid(Affected(e, s, k))
  {
    if e == Longer && |s| >= 2 {
      var d := TailStep(s);
      assert OnGrid(s[|s| - 1]) && OnGrid(s[|s| - 2]);
      assert OnGrid(d);
      ExtensionOnGrid(s[|s| - 1], d, k);
      var r := Lengthened(s, k);
      var ext := Extension(s[|s| - 1], d, k);
      assert r == s + ext;
      forall i | 0 <= i < |r|
        ensures OnGrid(r[i])
      {
        if i >= |s| {
          assert r[i] == ext[i - |s|];
        }
      }
    }
  }

  // ---------------------------------------------------------------------
  // End of the game

  /** Some segment after the head sits on the head's cell. */
  predicate HitsItself(s: seq<Point>) {
    exists i :: 1 <= i < |s| && s[i] == s[0]
  }

  /** The game is over when the snake runs into itself, or into an obstacle
      while wall-phase is off. */
  predicate GameOver(s: seq<Point>, level: seq<Point>, walls: bool)
    requires |s| >= 1
  {
    HitsItself(s) || (!walls && s[0] in level)
  }
}
