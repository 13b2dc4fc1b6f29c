/**
 * The rules of the engine. Each command of the hook hands React an updater
 * `prev => next`; here each updater is a function from the old state record
 * to the new one. The two loops of the hook (the retry loop that places food
 * and the scan for a collision with the body) are methods proved against
 * the functions that specify them.
 *
 * Math.random is a parameter: `draws` is the stream of cells the random
 * generator would produce, each already inside the grid.
 */
module SnakeGame {
  import opened SnakeState

  // ---------------------------------------------------------------- food

  predicate DrawsInGrid(draws: seq<Position>, gridSize: int)
  {
    forall p | p in draws :: InGrid(p, gridSize)
  }

  /** Some draw of the random stream lands off the snake, so the retry loop ends. */
  predicate HasFree(draws: seq<Position>, snake: seq<Position>)
  {
    exists i :: 0 <= i < |draws| && draws[i] !in snake
  }

  /** The cell the retry loop settles on: the first draw that is not a segment. */
  function FirstFree(draws: seq<Position>, snake: seq<Position>): (p: Position)
    requires HasFree(draws, snake)
    ensures p in draws && p !in snake
    ensures exists k :: 0 <= k < |draws| && draws[k] == p && forall j :: 0 <= j < k ==> draws[j] in snake
  {
    if draws[0] !in snake then
      draws[0]
    else
      assert HasFree(draws[1..], snake) by {
        var i :| 0 <= i < |draws| && draws[i] !in snake;
        assert draws[1..][i - 1] == draws[i];
      }
      var p := FirstFree(draws[1..], snake);
      var k :| 0 <= k < |draws[1..]| && draws[1..][k] == p && forall j :: 0 <= j < k ==> draws[1..][j] in snake;
      assert draws[k + 1] == p;
      assert forall j :: 0 <= j < k + 1 ==> draws[j] in snake by {
        forall j | 0 <= j < k + 1 ensures draws[j] in snake {
          if j > 0 { assert draws[j] == draws[1..][j - 1]; }
        }
      }
      p
  }

  /**
   * generateFood: draw cells until one is not on the snake. Math.floor of
   * Math.random() * gridSize is the next element of `draws`.
   */
  method GenerateFood(snake: seq<Position>, gridSize: int, draws: seq<Position>) returns (food: Position)
    requires DrawsInGrid(draws, gridSize)
    requires HasFree(draws, snake)
    ensures food == FirstFree(draws, snake)
    ensures InGrid(food, gridSize) && food !in snake
  {
    var i := 0;
    food := draws[0];
    while food in snake
      invariant 0 <= i < |draws| && food == draws[i]
      invariant HasFree(draws[i..], snake)
      invariant FirstFree(draws[i..], snake) == FirstFree(draws, snake)
      decreases |draws| - i
    {
      assert draws[i..][0] in snake;
      assert draws[i..][1..] == draws[i + 1..];
      i := i + 1;
      food := draws[i];
    }
    assert draws[i..][0] == food;
  }

  // ------------------------------------------------------------ commands

  /** The four pairs the hook refuses as a 180-degree turn. */
  predicate IsReversal(current: Option<Direction>, d: Direction)
  {
    || (current == Some(Up) && d == Down)
    || (current == Some(Down) && d == Up)
    || (current == Some(Left) && d == Right)
    || (current == Some(Right) && d == Left)
  }

  /** setDirection: queue a turn unless it is null or reverses the committed heading. */
  function SetDirectionUpdate(s: GameState, d: Option<Direction>): GameState
  {
    if d.None? then s
    else if IsReversal(s.direction, d.value) then s
    else s.(nextDirection := d)
  }

  /** startGame: anything but GAME_OVER becomes PLAYING; the heading defaults to RIGHT. */
  function StartUpdate(s: GameState): GameState
  {
    if s.gameStatus != GameOver then
      s.(gameStatus := Playing, direction := if s.direction.Some? then s.direction else Some(Right))
    else s
  }

  /** handleGameOver: end the run and keep the better of score and high score. */
  function GameOverUpdate(s: GameState): GameState
  {
    s.(gameStatus := GameOver, highScore := Max(s.score, s.highScore))
  }

  /** What handleGameOver leaves in the stored 'snakeHighScore' slot. */
  function SavedAfterGameOver(s: GameState, saved: Option<int>): Option<int>
  {
    var newHighScore := Max(s.score, s.highScore);
    if newHighScore > s.highScore then Some(newHighScore) else saved
  }

  /** The centre cell `resetGame` puts the one-segment snake on (Math.floor of half the grid). */
  function Center(gridSize: int): Position
  {
    Position(gridSize / 2, gridSize / 2)
  }

  predicate ResetDrawsOk(s: GameState, draws: seq<Position>)
  {
    DrawsInGrid(draws, s.gridSize) && HasFree(draws, [Center(s.gridSize)])
  }

  /** resetGame: back to IDLE with a one-segment snake; high score and grid size are kept. */
  function ResetUpdate(s: GameState, draws: seq<Position>): GameState
    requires ResetDrawsOk(s, draws)
  {
    var center := Center(s.gridSize);
    s.(snake := [center], food := FirstFree(draws, [center]), direction := None,
       nextDirection := None, score := 0, gameStatus := Idle, speed := InitialSpeed)
  }

  /** The heading of the next move: the queued turn if any, else the committed heading. */
  function Heading(s: GameState): Option<Direction>
  {
    if s.nextDirection.Some? then s.nextDirection else s.direction
  }

  /** The new head meets a segment other than the tail. */
  predicate HitsBody(snake: seq<Position>, head: Position)
  {
    exists i :: 0 <= i < |snake| - 1 && snake[i] == head
  }

  predicate Collides(s: GameState, head: Position)
  {
    !InGrid(head, s.gridSize) || HitsBody(s.snake, head)
  }

  /** The move would end the game (the hook schedules handleGameOver). */
  predicate Crashes(s: GameState)
    requires |s.snake| > 0
  {
    s.gameStatus == Playing && Heading(s).Some? && Collides(s, Step(s.snake[0], Heading(s).value))
  }

  /** The move lands on the food. */
  predicate Eats(s: GameState)
    requires |s.snake| > 0
  {
    s.gameStatus == Playing && Heading(s).Some? && !Crashes(s) && Step(s.snake[0], Heading(s).value) == s.food
  }

  /** Speed after eating: 10 ms faster whenever the new score is a multiple of 5, never under 70 ms. */
  function NextSpeed(newScore: int, speed: int): int
  {
    if newScore % PointsPerSpeedUp == 0 then Max(MinSpeed, speed - SpeedStep) else speed
  }

  /** The snake is non-empty, and a move that eats can place new food. */
  predicate FoodDrawsOk(s: GameState, draws: seq<Position>)
  {
    && |s.snake| > 0
    && DrawsInGrid(draws, s.gridSize)
    && (Eats(s) ==> HasFree(draws, [s.food] + s.snake))
  }

  /** moveSnake: one tick. */
  function MoveUpdate(s: GameState, draws: seq<Position>): GameState
    requires FoodDrawsOk(s, draws)
  {
    if s.gameStatus != Playing || Heading(s).None? then s
    else if Crashes(s) then GameOverUpdate(s)
    else
      var d := Heading(s).value;
      var head := Step(s.snake[0], d);
      if head == s.food then
        var grown := [head] + s.snake;
        var score := s.score + 1;
        s.(snake := grown, food := FirstFree(draws, grown), direction := Some(d),
           nextDirection := None, score := score, speed := NextSpeed(score, s.speed))
      else
        s.(snake := [head] + s.snake[..|s.snake| - 1], direction := Some(d), nextDirection := None)
  }

  /**
   * The self-collision scan of moveSnake: every segment but the last is
   * compared with the new head.
   */
  method FindSelfCollision(snake: seq<Position>, head: Position) returns (hit: bool)
    ensures hit <==> HitsBody(snake, head)
    ensures hit ==> head in snake
  {
    var i := 0;
    while i < |snake| - 1
      invariant 0 <= i
      invariant forall j :: 0 <= j < i && j < |snake| - 1 ==> snake[j] != head
    {
      if snake[i] == head {
        return true;
      }
      i := i + 1;
    }
    return false;
  }

  // ----------------------------------------------------------- the start

  /** The stored high score as the hook reads it: absent means 0. */
  function StoredHighScore(saved: Option<int>): int
  {
    match saved
    case Some(v) => v
    case None => 0
  }

  /** The record the hook starts with; snake and food are fixed cells, not the grid centre. */
  function Initial(gridSize: int, saved: Option<int>): GameState
  {
    GameState([Position(10, 10)], Position(5, 5), None, None, 0, StoredHighScore(saved),
              Idle, gridSize, InitialSpeed)
  }

  // ----------------------------------------------------------- invariant

  predicate InsideGrid(snake: seq<Position>, gridSize: int)
  {
    forall p | p in snake :: InGrid(p, gridSize)
  }

  predicate Distinct(snake: seq<Position>)
  {
    forall i, j :: 0 <= i < j < |snake| ==> snake[i] != snake[j]
  }

  /** Consecutive segments share an edge. */
  predicate Connected(snake: seq<Position>)
  {
    forall i :: 0 <= i < |snake| - 1 ==> Adjacent(snake[i], snake[i + 1])
  }

  /** The staircase the incremental speed updates follow: 10 ms faster per 5 points, floor 70 ms. */
  function Staircase(score: int): (ms: int)
    ensures ms >= MinSpeed
    ensures score >= 0 ==> ms <= InitialSpeed
  {
    Max(MinSpeed, InitialSpeed - SpeedStep * (score / PointsPerSpeedUp))
  }

  /**
   * A snake of two or more segments has a committed heading that brought
   * the head from the second segment, and no queued turn reverses it.
   */
  predicate HeadingSafe(s: GameState)
  {
    |s.snake| >= 2 ==>
      && s.direction.Some?
      && s.snake[0] == Step(s.snake[1], s.direction.value)
      && (s.nextDirection.Some? ==> s.nextDirection.value != Opposite(s.direction.value))
  }

  /** What holds of every state the engine reaches. */
  predicate Inv(s: GameState)
  {
    && s.gridSize > 0
    && |s.snake| > 0
    && InsideGrid(s.snake, s.gridSize)
    && Distinct(s.snake)
    && Connected(s.snake)
    && InGrid(s.food, s.gridSize)
    && s.food !in s.snake
    && s.score >= 0
    && s.speed == Staircase(s.score)
    && HeadingSafe(s)
  }
}
