/**
 * The value types of the snake game engine: positions on the square grid,
 * the four headings, the game status and the whole state record the hook
 * keeps in one React state cell.
 */
module SnakeState {

  /** `null` in the source: a heading that has not been chosen yet. */
  datatype Option<T> = None | Some(value: T)

  datatype Direction = Up | Down | Left | Right

  /** A grid cell; x grows to the right, y grows downwards. */
  datatype Position = Position(x: int, y: int)

  /** There is no paused status in the engine. */
  datatype GameStatus = Idle | Playing | GameOver

  /** The record held by the hook's single state cell. */
  datatype GameState = GameState(
    snake: seq<Position>,            // head first, tail last
    food: Position,
    direction: Option<Direction>,    // heading used by the last move
    nextDirection: Option<Direction>,// turn queued for the next move
    score: int,
    highScore: int,
    gameStatus: GameStatus,
    gridSize: int,
    speed: int)                      // milliseconds between moves

  const InitialSpeed: int := 150
  const MinSpeed: int := 70
  const SpeedStep: int := 10
  const PointsPerSpeedUp: int := 5

  function Abs(n: int): (r: nat)
    ensures r == n || r == -n
  {
    if n < 0 then -n else n
  }

  function Max(a: int, b: int): (r: int)
    ensures r >= a && r >= b
    ensures r == a || r == b
  {
    if a >= b then a else b
  }

  /** Two cells sharing an edge. */
  predicate Adjacent(p: Position, q: Position)
  {
    Abs(p.x - q.x) + Abs(p.y - q.y) == 1
  }

  predicate InGrid(p: Position, gridSize: int)
  {
    0 <= p.x < gridSize && 0 <= p.y < gridSize
  }

  /** The 180-degree turn of a heading. */
  function Opposite(d: Direction): (r: Direction)
    ensures r != d
  {
    match d
    case Up => Down
    case Down => Up
    case Left => Right
    case Right => Left
  }

  /** The cell one step from `p` along `d` (y grows downwards, so Up decrements y). */
  function Step(p: Position, d: Direction): (q: Position)
    ensures Adjacent(p, q)
    ensures d == Up || d == Down ==> q.x == p.x
    ensures d == Left || d == Right ==> q.y == p.y
  {
    match d
    case Up => Position(p.x, p.y - 1)
    case Down => Position(p.x, p.y + 1)
    case Left => Position(p.x - 1, p.y)
    case Right => Position(p.x + 1, p.y)
  }
}
