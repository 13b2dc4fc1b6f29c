/**
 * The hook as an object: the fields are the state record, each command is a
 * method that updates them in place, and the browser's local storage slot
 * 'snakeHighScore' is a separate object the engine writes to on game over.
 */
module SnakeEngine {
  import opened SnakeState
  import opened SnakeGame
  import SnakeProperties

  /** The persistent 'snakeHighScore' slot; absent on first use. */
  class HighScoreStore {
    var saved: Option<int>

    constructor (saved: Option<int>)
      ensures this.saved == saved
    {
      this.saved := saved;
    }
  }

  class Engine {
    var snake: seq<Position>
    var food: Position
    var direction: Option<Direction>
    var nextDirection: Option<Direction>
    var score: int
    var highScore: int
    var gameStatus: GameStatus
    var gridSize: int
    var speed: int
    const store: HighScoreStore

    /** The record the renderer sees. */
    function State(): GameState
      reads this
    {
      GameState(snake, food, direction, nextDirection, score, highScore, gameStatus, gridSize, speed)
    }

    ghost predicate Valid()
      reads this
    {
      Inv(State())
    }

    /** useSnakeGame(initialGridSize): the opening record, high score read from the store. */
    constructor (initialGridSize: int, store: HighScoreStore)
      ensures this.store == store
      ensures State() == Initial(initialGridSize, store.saved)
      ensures initialGridSize > 10 ==> Valid()
    {
      snake := [Position(10, 10)];
      food := Position(5, 5);
      direction := None;
      nextDirection := None;
      score := 0;
      highScore := match store.saved case Some(v) => v case None => 0;
      gameStatus := Idle;
      gridSize := initialGridSize;
      speed := InitialSpeed;
      this.store := store;
      new;
      if initialGridSize > 10 {
        SnakeProperties.InitialInv(initialGridSize, store.saved);
      }
    }

    method SetDirection(newDirection: Option<Direction>)
      modifies this
      ensures State() == SetDirectionUpdate(old(State()), newDirection)
      ensures old(Valid()) ==> Valid()
    {
      if newDirection.None? {
        return;
      }
      if || (direction == Some(Up) && newDirection == Some(Down))
         || (direction == Some(Down) && newDirection == Some(Up))
         || (direction == Some(Left) && newDirection == Some(Right))
         || (direction == Some(Right) && newDirection == Some(Left))
      {
        return;
      }
      ghost var before := State();
      nextDirection := newDirection;
      if Inv(before) {
        SnakeProperties.SetDirectionPreservesInv(before, newDirection);
      }
    }

    method StartGame()
      modifies this
      ensures State() == StartUpdate(old(State()))
      ensures old(Valid()) ==> Valid()
    {
      ghost var before := State();
      if gameStatus != GameOver {
        gameStatus := Playing;
        direction := if direction.Some? then direction else Some(Right);
      }
      if Inv(before) {
        SnakeProperties.StartPreservesInv(before);
      }
    }

    method HandleGameOver()
      modifies this, store
      ensures State() == GameOverUpdate(old(State()))
      ensures store.saved == SavedAfterGameOver(old(State()), old(store.saved))
      ensures old(Valid()) ==> Valid()
    {
      ghost var before := State();
      var newHighScore := Max(score, highScore);
      if newHighScore > highScore {
        store.saved := Some(newHighScore);
      }
      gameStatus := GameOver;
      highScore := newHighScore;
      if Inv(before) {
        SnakeProperties.GameOverPreservesInv(before);
      }
    }

    method ResetGame(draws: seq<Position>)
      requires ResetDrawsOk(State(), draws)
      modifies this
      ensures State() == ResetUpdate(old(State()), draws)
      ensures gridSize > 0 ==> Valid()
    {
      var center := gridSize / 2;
      var newFood := GenerateFood([Position(center, center)], gridSize, draws);
      snake := [Position(center, center)];
      food := newFood;
      direction := None;
      nextDirection := None;
      score := 0;
      gameStatus := Idle;
      speed := InitialSpeed;
      if gridSize > 0 {
        SnakeProperties.ResetPreservesInv(State(), draws);
      }
    }

    method MoveSnake(draws: seq<Position>)
      requires FoodDrawsOk(State(), draws)
      modifies this, store
      ensures State() == MoveUpdate(old(State()), draws)
      ensures store.saved == if Crashes(old(State())) then SavedAfterGameOver(old(State()), old(store.saved))
                             else old(store.saved)
      ensures old(Valid()) ==> Valid()
    {
      ghost var before := State();
      if Inv(before) {
        SnakeProperties.MovePreservesInv(before, draws);
      }
      if gameStatus != Playing {
        return;
      }
      var currentDirection := if nextDirection.Some? then nextDirection else direction;
      if currentDirection.None? {
        return;
      }
      var head := Step(snake[0], currentDirection.value);
      if head.x < 0 || head.y < 0 || head.x >= gridSize || head.y >= gridSize {
        assert Crashes(before);
        HandleGameOver();
        return;
      }
      var hit := FindSelfCollision(snake, head);
      if hit {
        assert Crashes(before);
        HandleGameOver();
        return;
      }
      assert !Crashes(before);
      var newSnake := [head] + snake;
      var newFood := food;
      var newScore := score;
      var newSpeed := speed;
      if head == food {
        newFood := GenerateFood(newSnake, gridSize, draws);
        newScore := score + 1;
        if newScore % 5 == 0 {
          newSpeed := Max(70, speed - 10);
        }
      } else {
        newSnake := newSnake[..|newSnake| - 1];
        assert newSnake == [head] + snake[..|snake| - 1];
      }
      snake, food, direction, nextDirection, score, speed :=
        newSnake, newFood, currentDirection, None, newScore, newSpeed;
    }
  }
}
