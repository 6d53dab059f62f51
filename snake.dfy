/**
 * Snake on a canvas divided into 20-pixel squares. Every tick the head moves one square in the
 * current direction, wrapping around the edges; eating the food grows the snake by one and
 * scores a point, every second point adds an obstacle. Hitting an obstacle or the snake's own
 * body ends the game, and so does the 60-second timer running out. Positions are pixel
 * coordinates of a square's top-left corner.
 */
module Snake {

  import opened Wrappers

  datatype Pos = Pos(x: int, y: int)

  datatype Dir = Left | Up | Right | Down

  /** The square size in pixels. */
  const Box: int := 20

  /** The colours a new body segment can get. */
  const Palette: seq<string> := ["#ff4b5c", "#ffb400", "#4caf50", "#9c27b0", "#ff9800", "#00bcd4", "#e91e63"]

  const StartTime: int := 60

  function Opposite(d: Dir): (r: Dir)
    ensures r != d
  {
    match d
    case Left => Right
    case Right => Left
    case Up => Down
    case Down => Up
  }

  /**
   * The direction after asking for `requested` (an arrow key or a touch button): any change is
   * taken except straight back against the current direction.
   */
  function NextDirection(current: Dir, requested: Dir): (r: Dir)
    ensures r != Opposite(current)
    ensures r == requested <==> requested != Opposite(current)
    ensures r != requested ==> r == current
  {
    if requested == Opposite(current) then current else requested
  }

  /** The arrow key names the keyboard handler reacts to. */
  function KeyDirection(key: string): (r: Option<Dir>)
    ensures r.Some? <==> key in {"ArrowLeft", "ArrowUp", "ArrowRight", "ArrowDown"}
    ensures r == Some(Left) <==> key == "ArrowLeft"
    ensures r == Some(Up) <==> key == "ArrowUp"
    ensures r == Some(Right) <==> key == "ArrowRight"
    ensures r == Some(Down) <==> key == "ArrowDown"
  {
    if key == "ArrowLeft" then Some(Left)
    else if key == "ArrowUp" then Some(Up)
    else if key == "ArrowRight" then Some(Right)
    else if key == "ArrowDown" then Some(Down)
    else None
  }

  /**
   * The guard only looks at the current direction, not at the last step taken: whatever the
   * direction, two presses between ticks (a perpendicular one, then the reverse) turn the snake
   * straight back.
   */
  lemma TwoKeysReverse(current: Dir, turn: Dir)
    requires turn != current && turn != Opposite(current)
    ensures NextDirection(NextDirection(current, turn), Opposite(current)) == Opposite(current)
  {
  }

  /**
   * The head position after one step in direction d, wrapping at the canvas edges. On a canvas
   * whose sides are whole numbers of squares, a step from a square is one square on a torus:
   * the coordinates move by one square size modulo the canvas size, and land on a square.
   */
  function NextHead(p: Pos, d: Dir, width: int, height: int): (r: Pos)
    requires width > 0 && height > 0
    ensures width % Box == 0 && height % Box == 0 && IsSquare(p, width, height) ==>
      && r == Pos((p.x + DeltaX(d) * Box) % width, (p.y + DeltaY(d) * Box) % height)
      && IsSquare(r, width, height)
  {
    var x := if d == Left then p.x - Box else if d == Right then p.x + Box else p.x;
    var y := if d == Up then p.y - Box else if d == Down then p.y + Box else p.y;
    var x1 := if x < 0 then width - Box else x;
    var y1 := if y < 0 then height - Box else y;
    var x2 := if x1 >= width then 0 else x1;
    var y2 := if y1 >= height then 0 else y1;
    assert width % Box == 0 && height % Box == 0 && IsSquare(p, width, height) ==>
      x == p.x + DeltaX(d) * Box && x2 == x % width && OnGrid(x2, width) &&
      y == p.y + DeltaY(d) * Box && y2 == y % height && OnGrid(y2, height) by {
      if width % Box == 0 && height % Box == 0 && IsSquare(p, width, height) {
        WrapStep(p.x, x, width);
        WrapStep(p.y, y, height);
      }
    }
    Pos(x2, y2)
  }

  function DeltaX(d: Dir): int {
    if d == Left then -1 else if d == Right then 1 else 0
  }

  function DeltaY(d: Dir): int {
    if d == Up then -1 else if d == Down then 1 else 0
  }

  /** A square's corner: a multiple of the square size inside 0..width-1. */
  predicate OnGrid(v: int, size: int) {
    0 <= v < size && v % Box == 0
  }

  predicate IsSquare(p: Pos, width: int, height: int) {
    OnGrid(p.x, width) && OnGrid(p.y, height)
  }

  /** One square's move along a side of the canvas, wrapped, is the move modulo the side length. */
  lemma WrapStep(v: int, moved: int, size: int)
    requires size > 0 && size % Box == 0 && OnGrid(v, size)
    requires moved == v - Box || moved == v || moved == v + Box
    ensures var wrapped := if moved < 0 then size - Box else moved;
      (if wrapped >= size then 0 else wrapped) == moved % size
    ensures OnGrid(moved % size, size)
  {
    var a, b := v / Box, size / Box;
    assert v == Box * a && size == Box * b;
    if moved < 0 {
      WrapBelow(moved, size);
    } else if moved >= size {
      WrapAbove(v, moved, size);
    } else {
      WrapInside(v, moved, size);
    }
  }

  lemma WrapBelow(moved: int, size: int)
    requires size > 0 && size % Box == 0 && moved == -Box
    ensures moved % size == size - Box && OnGrid(size - Box, size)
  {
    var b := size / Box;
    assert size == Box * b;
    assert size - Box == Box * (b - 1);
  }

  lemma WrapAbove(v: int, moved: int, size: int)
    requires size > 0 && size % Box == 0 && OnGrid(v, size)
    requires moved >= size && (moved == v - Box || moved == v || moved == v + Box)
    ensures moved == size && moved % size == 0
  {
    var a, b := v / Box, size / Box;
    assert v == Box * a && size == Box * b;
  }

  lemma WrapInside(v: int, moved: int, size: int)
    requires size > 0 && OnGrid(v, size) && 0 <= moved < size
    requires moved == v - Box || moved == v || moved == v + Box
    ensures moved % size == moved && OnGrid(moved, size)
  {
    var a := v / Box;
    assert v == Box * a;
    assert moved == Box * (a - 1) || moved == Box * a || moved == Box * (a + 1);
  }

  /** `collision(head, array)`: the head lies on one of the given parts. */
  function Collision(head: Pos, parts: seq<Pos>): (r: bool)
    ensures r <==> head in parts
  {
    if |parts| == 0 then false
    else (head.x == parts[0].x && head.y == parts[0].y) || Collision(head, parts[1..])
  }

  /** The snake after its head moves to `head`: it keeps its tail when it has eaten. */
  function Advance(snake: seq<Pos>, head: Pos, ate: bool): (r: seq<Pos>)
    requires |snake| >= 1
    ensures |r| == |snake| + (if ate then 1 else 0)
    ensures r[0] == head && r[1..] == if ate then snake else snake[..|snake| - 1]
  {
    if ate then [head] + snake else [head] + snake[..|snake| - 1]
  }

  /**
   * A snake of three or more squares that steps straight back onto its neck dies; a snake of
   * two squares only swaps its head and tail.
   */
  lemma ReversalKills(snake: seq<Pos>, head: Pos)
    requires |snake| >= 2 && head == snake[1]
    ensures Collision(head, Advance(snake, head, false)[1..]) <==> head in snake[..|snake| - 1]
    ensures |snake| >= 3 ==> Collision(head, Advance(snake, head, false)[1..])
    ensures Collision(head, Advance(snake, head, true)[1..])
  {
    if |snake| >= 3 {
      assert snake[..|snake| - 1][1] == head;
    }
  }

  class SnakeGame {
    var snake: seq<Pos>
    var snakeColors: seq<string>
    var direction: Dir
    var food: Pos
    var badFoods: seq<Pos>
    var score: nat
    var bestScore: nat
    var gameOver: bool
    var timeLeft: int
    /** The canvas size in pixels. */
    const width: int
    const height: int

    ghost predicate Valid()
      reads this
    {
      && width > 0 && height > 0
      && |snake| == 1 + score
      && |snakeColors| == |snake| - 1
      && (forall i | 0 <= i < |snakeColors| :: snakeColors[i] in Palette)
      && |badFoods| == 1 + score / 2
      && IsSquare(food, width, height)
      && (forall i | 0 <= i < |badFoods| :: IsSquare(badFoods[i], width, height))
      && (gameOver ==> bestScore >= score)
    }

    /** `randomPosition()`: the corner of an arbitrary square of the canvas. */
    method RandomPosition() returns (p: Pos)
      requires width > 0 && height > 0
      ensures IsSquare(p, width, height)
    {
      assert OnGrid(0, width) && OnGrid(0, height);
      var x :| 0 <= x < width && x % Box == 0;
      var y :| 0 <= y < height && y % Box == 0;
      p := Pos(x, y);
    }

    /** `getRandomColor()`: an arbitrary colour of the palette. */
    method RandomColor() returns (color: string)
      ensures color in Palette
    {
      var k :| 0 <= k < |Palette|;
      color := Palette[k];
    }

    /** A canvas of the given size with a new game on it; `storedBest` is the saved best score. */
    constructor (canvasWidth: int, canvasHeight: int, storedBest: nat)
      requires canvasWidth > 0 && canvasHeight > 0
      ensures Valid() && width == canvasWidth && height == canvasHeight
      ensures snake == [Pos(200, 200)] && snakeColors == [] && direction == Right
      ensures score == 0 && bestScore == storedBest && !gameOver && timeLeft == StartTime
      ensures |badFoods| == 1
      ensures IsSquare(snake[0], width, height) <==> width > 200 && height > 200
    {
      width, height := canvasWidth, canvasHeight;
      snake, snakeColors, badFoods := [Pos(200, 200)], [], [Pos(0, 0)];
      direction, score, bestScore, gameOver, timeLeft := Right, 0, 0, false, StartTime;
      food := Pos(0, 0);
      new;
      InitGame(storedBest);
    }

    /**
     * `initGame()`: a one-square snake at (200, 200) heading right, no score, a full minute,
     * the food and one obstacle on arbitrary squares.
     */
    method InitGame(storedBest: nat)
      requires width > 0 && height > 0
      modifies this
      ensures Valid()
      ensures snake == [Pos(200, 200)] && snakeColors == [] && direction == Right
      ensures score == 0 && bestScore == storedBest && !gameOver && timeLeft == StartTime
      ensures |badFoods| == 1
      ensures IsSquare(snake[0], width, height) <==> width > 200 && height > 200
    {
      snake := [Pos(200, 200)];
      snakeColors := [];
      direction := Right;
      score := 0;
      gameOver := false;
      timeLeft := StartTime;
      bestScore := storedBest;
      food := RandomPosition();
      var bad := RandomPosition();
      badFoods := [bad];
    }

    /** `setDirection(dir)`: a touch button asks for a direction. */
    method SetDirection(dir: Dir)
      modifies this
      ensures direction == NextDirection(old(direction), dir)
      ensures snake == old(snake) && score == old(score) && gameOver == old(gameOver)
      ensures food == old(food) && badFoods == old(badFoods) && snakeColors == old(snakeColors)
      ensures bestScore == old(bestScore) && timeLeft == old(timeLeft)
    {
      if dir == Left && direction != Right {
        direction := Left;
      } else if dir == Up && direction != Down {
        direction := Up;
      } else if dir == Right && direction != Left {
        direction := Right;
      } else if dir == Down && direction != Up {
        direction := Down;
      }
    }

    /** The keyboard handler: the arrow keys ask for a direction, other keys do nothing. */
    method KeyDown(key: string)
      modifies this
      ensures direction == match KeyDirection(key)
                           case Some(d) => NextDirection(old(direction), d)
                           case None => old(direction)
      ensures snake == old(snake) && score == old(score) && gameOver == old(gameOver)
      ensures food == old(food) && badFoods == old(badFoods) && snakeColors == old(snakeColors)
      ensures bestScore == old(bestScore) && timeLeft == old(timeLeft)
    {
      var requested := KeyDirection(key);
      if requested.Some? {
        SetDirection(requested.value);
      }
    }

    /**
     * `endGame(message)`: the game is over and the best score is raised to the final score;
     * the result says whether the new best score is written to storage.
     */
    method EndGame() returns (saved: bool)
      modifies this
      ensures gameOver && bestScore == (if score > old(bestScore) then score else old(bestScore))
      ensures saved <==> score > old(bestScore)
      ensures snake == old(snake) && score == old(score) && direction == old(direction)
      ensures food == old(food) && badFoods == old(badFoods) && snakeColors == old(snakeColors)
      ensures timeLeft == old(timeLeft)
    {
      gameOver := true;
      saved := false;
      if score > bestScore {
        bestScore := score;
        saved := true;
      }
    }

    /** `updateTimer()`: one second passes; at zero the game ends. */
    method UpdateTimer()
      requires Valid()
      modifies this
      ensures Valid()
      ensures timeLeft == old(timeLeft) - 1
      ensures gameOver == (old(gameOver) || timeLeft <= 0)
      ensures timeLeft <= 0 ==> bestScore == (if score > old(bestScore) then score else old(bestScore))
      ensures timeLeft > 0 ==> bestScore == old(bestScore)
      ensures snake == old(snake) && score == old(score) && direction == old(direction)
      ensures food == old(food) && badFoods == old(badFoods) && snakeColors == old(snakeColors)
    {
      timeLeft := timeLeft - 1;
      if timeLeft <= 0 {
        var _ := EndGame();
      }
    }

    /** The head hits one of the obstacles (the `for (let bad of badFoods)` scan). */
    method HitsObstacle(head: Pos) returns (hit: bool)
      ensures hit <==> head in badFoods
    {
      for i := 0 to |badFoods|
        invariant forall j | 0 <= j < i :: badFoods[j] != head
      {
        if head.x == badFoods[i].x && head.y == badFoods[i].y {
          return true;
        }
      }
      return false;
    }

    /**
     * The growth step of `draw()`: on the food the snake keeps its tail, gets a new segment
     * colour, the score rises, new food appears and, at every even score, a new obstacle;
     * elsewhere the tail follows the head.
     */
    method EatOrMove(newHead: Pos)
      requires Valid() && !gameOver
      modifies this
      ensures Valid() && !gameOver && direction == old(direction) && timeLeft == old(timeLeft)
      ensures bestScore == old(bestScore)
      ensures var ate := newHead == old(food);
        && snake == Advance(old(snake), newHead, ate)
        && score == old(score) + (if ate then 1 else 0)
        && (ate ==> |snakeColors| == |old(snakeColors)| + 1 && snakeColors[1..] == old(snakeColors))
        && (!ate ==> snakeColors == old(snakeColors) && food == old(food) && badFoods == old(badFoods))
        && |badFoods| >= |old(badFoods)| && badFoods[..|old(badFoods)|] == old(badFoods)
    {
      if newHead.x == food.x && newHead.y == food.y {
        var s := score + 1;
        var f := RandomPosition();
        var color := RandomColor();
        var bads := badFoods;
        if s % 2 == 0 {
          var bad := RandomPosition();
          bads := bads + [bad];
        }
        assert bads[..|badFoods|] == badFoods;
        score, food, snake, snakeColors, badFoods := s, f, [newHead] + snake, [color] + snakeColors, bads;
      } else {
        snake := [newHead] + snake[..|snake| - 1];
      }
    }

    /**
     * `draw()`, one tick: nothing happens once the game is over. Otherwise the head moves one
     * square and the snake eats or moves on; the game ends when the head lands on an obstacle or
     * on the snake's own body.
     */
    method Draw()
      requires Valid()
      modifies this
      ensures Valid() && direction == old(direction) && timeLeft == old(timeLeft)
      ensures old(gameOver) ==>
        snake == old(snake) && score == old(score) && food == old(food) && badFoods == old(badFoods) &&
        snakeColors == old(snakeColors) && bestScore == old(bestScore) && gameOver
      ensures !old(gameOver) ==>
        var head := NextHead(old(snake)[0], direction, width, height);
        var ate := head == old(food);
        && snake == Advance(old(snake), head, ate)
        && score == old(score) + (if ate then 1 else 0)
        && (ate ==> |snakeColors| == |old(snakeColors)| + 1 && snakeColors[1..] == old(snakeColors))
        && (!ate ==> snakeColors == old(snakeColors) && food == old(food) && badFoods == old(badFoods))
        && |badFoods| >= |old(badFoods)| && badFoods[..|old(badFoods)|] == old(badFoods)
        && (gameOver <==> head in badFoods || head in snake[1..])
        && bestScore == (if gameOver && score > old(bestScore) then score else old(bestScore))
    {
      if gameOver {
        return;
      }
      var newHead := NextHead(snake[0], direction, width, height);
      EatOrMove(newHead);
      var hit := HitsObstacle(newHead);
      if hit {
        var _ := EndGame();
        return;
      }
      if Collision(newHead, snake[1..]) {
        var _ := EndGame();
        return;
      }
    }
  }
}
