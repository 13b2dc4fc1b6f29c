/**
 * What the rules promise: the effect of each command on the state record,
 * the invariant every command keeps, and the speed staircase.
 */
module SnakeProperties {
  import opened SnakeState
  import opened SnakeGame

  // ------------------------------------------------------------ geometry

  /** Moving along a heading and then along its opposite returns to the start. */
  lemma StepUndone(p: Position, d: Direction)
    ensures Step(Step(p, d), Opposite(d)) == p
    ensures Opposite(Opposite(d)) == d
  {
  }

  /** Different headings lead to different cells. */
  lemma StepInjective(p: Position, d: Direction, e: Direction)
    requires Step(p, d) == Step(p, e)
    ensures d == e
  {
  }

  /** The four refused pairs are exactly "the opposite of the committed heading". */
  lemma ReversalIsOpposite(current: Option<Direction>, d: Direction)
    ensures IsReversal(current, d) <==> current.Some? && d == Opposite(current.value)
  {
  }

  // ------------------------------------------------------- setDirection

  /**
   * setDirection touches nothing but the queued turn; null and the reverse
   * of the committed heading change nothing, any other heading is queued.
   */
  lemma SetDirectionEffect(s: GameState, d: Option<Direction>)
    ensures SetDirectionUpdate(s, d).(nextDirection := s.nextDirection) == s
    ensures d.None? ==> SetDirectionUpdate(s, d) == s
    ensures d.Some? && s.direction.Some? && d.value == Opposite(s.direction.value) ==>
              SetDirectionUpdate(s, d) == s
    ensures d.Some? && !(s.direction.Some? && d.value == Opposite(s.direction.value)) ==>
              SetDirectionUpdate(s, d).nextDirection == d
  {
  }

  // ---------------------------------------------------------- startGame

  /**
   * startGame touches only status and heading: anything but GAME_OVER
   * becomes PLAYING, a committed heading is kept, and a missing one
   * defaults to RIGHT.
   */
  lemma StartEffect(s: GameState)
    ensures StartUpdate(s).(gameStatus := s.gameStatus, direction := s.direction) == s
    ensures s.gameStatus != GameOver ==> StartUpdate(s).gameStatus == Playing
    ensures s.direction.Some? ==> StartUpdate(s).direction == s.direction
    ensures s.gameStatus != GameOver && s.direction.None? ==> StartUpdate(s).direction == Some(Right)
  {
  }

  // --------------------------------------------------------- moveSnake

  /** Outside PLAYING, or with no heading at all, a tick changes nothing. */
  lemma MoveNoOp(s: GameState, draws: seq<Position>)
    requires FoodDrawsOk(s, draws)
    requires s.gameStatus != Playing || Heading(s).None?
    ensures MoveUpdate(s, draws) == s
  {
  }

  /**
   * A head that leaves the grid or meets a segment other than the tail ends
   * the game: snake, food, score and headings stay as they were.
   */
  lemma MoveCrash(s: GameState, draws: seq<Position>, d: Direction)
    requires FoodDrawsOk(s, draws)
    requires s.gameStatus == Playing && Heading(s) == Some(d)
    requires var head := Step(s.snake[0], d);
             head.x < 0 || head.y < 0 || head.x >= s.gridSize || head.y >= s.gridSize ||
             head in s.snake[..|s.snake| - 1]
    ensures var t := MoveUpdate(s, draws);
            && t.gameStatus == GameOver
            && t.highScore == Max(s.score, s.highScore)
            && t.(gameStatus := s.gameStatus, highScore := s.highScore) == s
  {
  }

  /**
   * A tick that does not crash moves the head one cell along the heading,
   * keeps the old snake behind it (minus the tail unless food was eaten),
   * commits the heading and clears the queued turn; eating adds exactly one
   * point and places the new food on a free cell inside the grid.
   */
  lemma MoveAdvance(s: GameState, draws: seq<Position>, d: Direction)
    requires FoodDrawsOk(s, draws)
    requires s.gameStatus == Playing && Heading(s) == Some(d) && !Crashes(s)
    ensures var t := MoveUpdate(s, draws);
            var ate := Step(s.snake[0], d) == s.food;
            && |t.snake| > 0 && t.snake[0] == Step(s.snake[0], d)
            && Adjacent(t.snake[0], s.snake[0])
            && t.snake[1..] == (if ate then s.snake else s.snake[..|s.snake| - 1])
            && |t.snake| == (if ate then |s.snake| + 1 else |s.snake|)
            && t.direction == Some(d) && t.nextDirection == None
            && t.score == (if ate then s.score + 1 else s.score)
            && (ate ==> InGrid(t.food, s.gridSize) && t.food !in t.snake)
            && (!ate ==> t.food == s.food && t.speed == s.speed)
            && t.gameStatus == Playing && t.highScore == s.highScore && t.gridSize == s.gridSize
  {
  }

  /** Growth happens exactly on eating and is by one segment; otherwise the length is kept. */
  lemma MoveLength(s: GameState, draws: seq<Position>)
    requires FoodDrawsOk(s, draws)
    ensures |MoveUpdate(s, draws).snake| == |s.snake| + (if Eats(s) then 1 else 0)
  {
  }

  // -------------------------------------------------------------- speed

  /**
   * The hook never recomputes the speed from the score, but the per-meal
   * update keeps it on the staircase max(70, 150 - 10 * floor(score / 5)).
   */
  lemma StaircaseStep(score: int)
    requires score >= 0
    ensures Staircase(score + 1) == NextSpeed(score + 1, Staircase(score))
  {
  }

  /**
   * A meal's new speed: max(70, speed - 10) when the new score is a multiple
   * of 5, unchanged otherwise; never below 70 ms and never higher than before.
   */
  lemma SpeedAfterMeal(s: GameState, draws: seq<Position>)
    requires Inv(s) && FoodDrawsOk(s, draws) && Eats(s)
    ensures var t := MoveUpdate(s, draws);
            && t.score == s.score + 1
            && t.speed == (if t.score % 5 == 0 then Max(70, s.speed - 10) else s.speed)
            && t.speed >= 70
            && t.speed <= s.speed
  {
  }

  // ---------------------------------------------------------- invariant

  lemma InitialInv(gridSize: int, saved: Option<int>)
    requires gridSize > 10
    ensures Inv(Initial(gridSize, saved))
  {
  }

  lemma SetDirectionPreservesInv(s: GameState, d: Option<Direction>)
    requires Inv(s)
    ensures Inv(SetDirectionUpdate(s, d))
  {
  }

  lemma StartPreservesInv(s: GameState)
    requires Inv(s)
    ensures Inv(StartUpdate(s))
  {
  }

  lemma GameOverPreservesInv(s: GameState)
    requires Inv(s)
    ensures Inv(GameOverUpdate(s))
  {
  }

  /** resetGame restores the invariant from any state of a non-empty grid. */
  lemma ResetPreservesInv(s: GameState, draws: seq<Position>)
    requires s.gridSize > 0 && ResetDrawsOk(s, draws)
    ensures Inv(ResetUpdate(s, draws))
  {
  }

  /** A tick keeps the snake inside the grid, free of overlaps and connected, and the food off it. */
  lemma MovePreservesInv(s: GameState, draws: seq<Position>)
    requires Inv(s) && FoodDrawsOk(s, draws)
    ensures Inv(MoveUpdate(s, draws))
  {
    if s.gameStatus != Playing || Heading(s).None? {
    } else if Crashes(s) {
      GameOverPreservesInv(s);
    } else if Step(s.snake[0], Heading(s).value) == s.food {
      EatPreservesInv(s, draws);
    } else {
      SlidePreservesInv(s, draws);
    }
  }

  /** A tick that eats: the head lands on the old food, which was off the snake. */
  lemma EatPreservesInv(s: GameState, draws: seq<Position>)
    requires Inv(s) && FoodDrawsOk(s, draws)
    requires s.gameStatus == Playing && Heading(s).Some? && !Crashes(s)
    requires Step(s.snake[0], Heading(s).value) == s.food
    ensures Inv(MoveUpdate(s, draws))
  {
    var t := MoveUpdate(s, draws);
    assert t.snake == [s.food] + s.snake;
    StaircaseStep(s.score);
  }

  /** A tick that only slides: the head is off every segment but the tail, which is dropped. */
  lemma SlidePreservesInv(s: GameState, draws: seq<Position>)
    requires Inv(s) && FoodDrawsOk(s, draws)
    requires s.gameStatus == Playing && Heading(s).Some? && !Crashes(s)
    requires Step(s.snake[0], Heading(s).value) != s.food
    ensures Inv(MoveUpdate(s, draws))
  {
    var d := Heading(s).value;
    var head := Step(s.snake[0], d);
    var body := s.snake[..|s.snake| - 1];
    var t := MoveUpdate(s, draws);
    assert t.snake == [head] + body;
    assert head !in body;
  }

  /**
   * The reversal guard does its job: with two or more segments the next
   * head is never the second segment.
   */
  lemma NoInstantReversal(s: GameState)
    requires Inv(s) && |s.snake| >= 2 && Heading(s).Some?
    ensures Step(s.snake[0], Heading(s).value) != s.snake[1]
  {
  }

  // ------------------------------------------------------- status machine

  /** Only resetGame leaves GAME_OVER; the high score never goes down. */
  lemma GameOverIsSticky(s: GameState, d: Option<Direction>, draws: seq<Position>)
    requires s.gameStatus == GameOver && FoodDrawsOk(s, draws)
    ensures SetDirectionUpdate(s, d).gameStatus == GameOver
    ensures StartUpdate(s) == s
    ensures MoveUpdate(s, draws) == s
  {
  }

  /** The high score never drops, and after handleGameOver it is at least the final score. */
  lemma HighScoreNeverDrops(s: GameState, d: Option<Direction>, draws: seq<Position>)
    requires FoodDrawsOk(s, draws) && ResetDrawsOk(s, draws)
    ensures SetDirectionUpdate(s, d).highScore == s.highScore
    ensures StartUpdate(s).highScore == s.highScore
    ensures ResetUpdate(s, draws).highScore == s.highScore
    ensures MoveUpdate(s, draws).highScore >= s.highScore
    ensures GameOverUpdate(s).highScore >= s.highScore
    ensures GameOverUpdate(s).highScore >= s.score
  {
  }

  /** The stored value is rewritten only when the high score strictly rises, and then to the new value. */
  lemma SavedOnlyOnRise(s: GameState, saved: Option<int>)
    ensures SavedAfterGameOver(s, saved) != saved ==>
              s.score > s.highScore && SavedAfterGameOver(s, saved) == Some(GameOverUpdate(s).highScore)
    ensures s.score > s.highScore ==> SavedAfterGameOver(s, saved) == Some(s.score)
    ensures s.score <= s.highScore ==> SavedAfterGameOver(s, saved) == saved
  {
  }

  /** resetGame keeps the high score and grid size and restores the opening position. */
  lemma ResetEffect(s: GameState, draws: seq<Position>)
    requires ResetDrawsOk(s, draws)
    ensures var t := ResetUpdate(s, draws);
            && t.highScore == s.highScore && t.gridSize == s.gridSize
            && t.snake == [Position(s.gridSize / 2, s.gridSize / 2)]
            && t.direction == None && t.nextDirection == None
            && t.score == 0 && t.gameStatus == Idle && t.speed == 150
            && InGrid(t.food, s.gridSize) && t.food !in t.snake
  {
  }
}
