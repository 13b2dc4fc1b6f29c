/** Concrete ticks on a 20 x 20 grid. */
module SnakeScenarios {
  import opened SnakeState
  import opened SnakeGame

  function Playing20(snake: seq<Position>, direction: Direction, food: Position): GameState
  {
    GameState(snake, food, Some(direction), None, 0, 0, Playing, 20, InitialSpeed)
  }

  /** A one-segment snake moving right onto the food grows to two segments and scores a point. */
  lemma EatingGrows()
    ensures FoodDrawsOk(Playing20([Position(10, 10)], Right, Position(11, 10)), [Position(10, 10), Position(3, 4)])
    ensures var t := MoveUpdate(Playing20([Position(10, 10)], Right, Position(11, 10)), [Position(10, 10), Position(3, 4)]);
            && t.snake == [Position(11, 10), Position(10, 10)]
            && t.score == 1
            && t.food == Position(3, 4)
            && t.speed == 150
            && t.gameStatus == Playing
  {
    var s := Playing20([Position(10, 10)], Right, Position(11, 10));
    var draws := [Position(10, 10), Position(3, 4)];
    assert !HitsBody(s.snake, Position(11, 10));
    assert draws[1] !in [Position(11, 10)] + s.snake;
    assert FirstFree(draws, [Position(11, 10)] + s.snake) == Position(3, 4);
  }

  /** Moving left from column 0 hits the wall: the game ends and the snake stays put. */
  lemma WallEndsGame()
    ensures var s := Playing20([Position(0, 5)], Left, Position(7, 7));
            var t := MoveUpdate(s, []);
            && t.gameStatus == GameOver && t.snake == s.snake && t.score == s.score
  {
  }

  /** A head landing on a segment that is not the tail ends the game. */
  lemma BodyEndsGame()
    ensures var s := Playing20([Position(5, 5), Position(5, 6), Position(5, 7)], Down, Position(0, 0));
            var t := MoveUpdate(s, []);
            && t.gameStatus == GameOver && t.snake == s.snake
  {
    var s := Playing20([Position(5, 5), Position(5, 6), Position(5, 7)], Down, Position(0, 0));
    assert s.snake[1] == Position(5, 6);
    assert HitsBody(s.snake, Position(5, 6));
  }

  /**
   * A head moving into the cell the tail leaves this tick is not a collision.
   * The snake came left into (5, 5) and has a turn down queued.
   */
  lemma ChasingTheTail()
    ensures var s := Playing20([Position(5, 5), Position(6, 5), Position(6, 6), Position(5, 6)], Left, Position(0, 0))
                       .(nextDirection := Some(Down));
            var t := MoveUpdate(s, []);
            && Inv(s)
            && t.gameStatus == Playing
            && t.snake == [Position(5, 6), Position(5, 5), Position(6, 5), Position(6, 6)]
  {
  }
}
