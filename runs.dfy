/**
 * Sequences of the hook's public commands applied from a starting record:
 * what holds of every state the engine can reach, and what the high score
 * amounts to over a whole session.
 */
module SnakeRuns {
  import opened SnakeState
  import opened SnakeGame
  import SnakeProperties

  /** The commands the hook hands to the page; the tick carries its random draws. */
  datatype Command =
    | SetDirection(d: Option<Direction>)
    | StartGame
    | MoveSnake(draws: seq<Position>)
    | ResetGame(draws: seq<Position>)

  /** The random draws a command uses are inside the grid and eventually hit a free cell. */
  predicate Enabled(s: GameState, c: Command)
  {
    match c
    case MoveSnake(draws) => FoodDrawsOk(s, draws)
    case ResetGame(draws) => ResetDrawsOk(s, draws)
    case _ => true
  }

  function Apply(s: GameState, c: Command): GameState
    requires Enabled(s, c)
  {
    match c
    case SetDirection(d) => SetDirectionUpdate(s, d)
    case StartGame => StartUpdate(s)
    case MoveSnake(draws) => MoveUpdate(s, draws)
    case ResetGame(draws) => ResetUpdate(s, draws)
  }

  predicate ValidRun(s: GameState, cmds: seq<Command>)
    decreases |cmds|
  {
    |cmds| == 0 || (Enabled(s, cmds[0]) && ValidRun(Apply(s, cmds[0]), cmds[1..]))
  }

  function Run(s: GameState, cmds: seq<Command>): GameState
    requires ValidRun(s, cmds)
    decreases |cmds|
  {
    if |cmds| == 0 then s else Run(Apply(s, cmds[0]), cmds[1..])
  }

  /** The command moves the run from PLAYING into GAME_OVER. */
  predicate EndsGame(s: GameState, c: Command)
    requires Enabled(s, c)
  {
    s.gameStatus == Playing && Apply(s, c).gameStatus == GameOver
  }

  /** The scores the run had at each moment it entered GAME_OVER, in order. */
  function GameOverScores(s: GameState, cmds: seq<Command>): seq<int>
    requires ValidRun(s, cmds)
    decreases |cmds|
  {
    if |cmds| == 0 then []
    else (if EndsGame(s, cmds[0]) then [s.score] else []) + GameOverScores(Apply(s, cmds[0]), cmds[1..])
  }

  function MaxOf(start: int, xs: seq<int>): int
    decreases |xs|
  {
    if |xs| == 0 then start else MaxOf(Max(start, xs[0]), xs[1..])
  }

  /** One command either ends the game, raising the high score to the score, or leaves it alone. */
  lemma HighScoreStep(s: GameState, c: Command)
    requires Enabled(s, c)
    ensures Apply(s, c).highScore == if EndsGame(s, c) then Max(s.score, s.highScore) else s.highScore
  {
  }

  /**
   * Over any run, the high score is the best of its starting value and the
   * scores at every game over; in particular it never decreases.
   */
  lemma {:induction false} HighScoreIsBestGameOverScore(s: GameState, cmds: seq<Command>)
    requires ValidRun(s, cmds)
    ensures Run(s, cmds).highScore == MaxOf(s.highScore, GameOverScores(s, cmds))
    ensures Run(s, cmds).highScore >= s.highScore
    decreases |cmds|
  {
    if |cmds| > 0 {
      var t := Apply(s, cmds[0]);
      HighScoreStep(s, cmds[0]);
      HighScoreIsBestGameOverScore(t, cmds[1..]);
      MaxOfAtLeastStart(t.highScore, GameOverScores(t, cmds[1..]));
      var rest := GameOverScores(t, cmds[1..]);
      if EndsGame(s, cmds[0]) {
        assert GameOverScores(s, cmds) == [s.score] + rest;
        assert ([s.score] + rest)[1..] == rest;
      } else {
        assert GameOverScores(s, cmds) == rest;
      }
    }
  }

  lemma {:induction false} MaxOfAtLeastStart(start: int, xs: seq<int>)
    ensures MaxOf(start, xs) >= start
    decreases |xs|
  {
    if |xs| > 0 {
      MaxOfAtLeastStart(Max(start, xs[0]), xs[1..]);
    }
  }

  /** Every command keeps the invariant and the grid size. */
  lemma ApplyPreservesInv(s: GameState, c: Command)
    requires Inv(s) && Enabled(s, c)
    ensures Inv(Apply(s, c)) && Apply(s, c).gridSize == s.gridSize
  {
    match c
    case SetDirection(d) => SnakeProperties.SetDirectionPreservesInv(s, d);
    case StartGame => SnakeProperties.StartPreservesInv(s);
    case MoveSnake(draws) => SnakeProperties.MovePreservesInv(s, draws);
    case ResetGame(draws) => SnakeProperties.ResetPreservesInv(s, draws);
  }

  lemma {:induction false} RunPreservesInv(s: GameState, cmds: seq<Command>)
    requires Inv(s) && ValidRun(s, cmds)
    ensures Inv(Run(s, cmds)) && Run(s, cmds).gridSize == s.gridSize
    decreases |cmds|
  {
    if |cmds| > 0 {
      ApplyPreservesInv(s, cmds[0]);
      RunPreservesInv(Apply(s, cmds[0]), cmds[1..]);
    }
  }

  /**
   * Every state reached from the opening record on a grid larger than 10:
   * snake and food inside the grid, snake without overlap, food off the
   * snake, speed on the staircase and so never below 70 ms.
   */
  lemma ReachableStatesAreValid(gridSize: int, saved: Option<int>, cmds: seq<Command>)
    requires gridSize > 10 && ValidRun(Initial(gridSize, saved), cmds)
    ensures var t := Run(Initial(gridSize, saved), cmds);
            && Inv(t)
            && t.gridSize == gridSize
            && MinSpeed <= t.speed <= InitialSpeed
            && t.speed == Max(70, 150 - 10 * (t.score / 5))
  {
    SnakeProperties.InitialInv(gridSize, saved);
    RunPreservesInv(Initial(gridSize, saved), cmds);
  }
}
