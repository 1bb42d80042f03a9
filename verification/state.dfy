/** The state of one `SnakeGame` object, restricted to the fields that decide
    game logic, with its constants and the invariant every reachable state
    keeps (script.js:10-37). */
module GameState {
  import opened Wrappers
  import opened Grid

  /** Points added to the score per food eaten (script.js:236). */
  const Reward := 10

  /** Milliseconds that must strictly elapse between two simulation steps
      (script.js:565). */
  const TickInterval := 150

  /** The fixed food tile of a fresh run (script.js:31, 192). */
  const InitialFood := Tile(18, 14)

  /** The snake of a fresh run, head first (script.js:26-30, 153). */
  const StartSnake := [Tile(6, 14), Tile(5, 14), Tile(4, 14)]

  /** `previousSnake` is the snapshot the animation interpolates from; the
      float animation counters are not part of this record. */
  datatype Game = Game(
    snake: seq<Tile>,
    previousSnake: seq<Tile>,
    food: Tile,
    dx: int,
    dy: int,
    score: int,
    running: bool,
    over: bool,
    isGrowing: bool,
    growingSegment: Option<Tile>,
    isInitialState: bool,
    lastUpdateTime: int)

  /** A game in progress: the only state in which a step moves the snake. */
  predicate Live(g: Game) {
    g.running && !g.over
  }

  /** The fields as the constructor leaves them, before `init` places the
      first food (script.js:15-37). */
  function Constructed(): Game {
    Game(StartSnake, StartSnake, InitialFood, 1, 0, 0, false, false, false, None, true, 0)
  }

  /** What every reachable state satisfies on an n-by-n board. */
  predicate Inv(n: int, g: Game) {
    && |g.snake| >= 1
    && AllInBounds(n, g.snake)
    && Distinct(g.snake)
    && Connected(g.snake)
    && InBounds(n, g.food)
    && g.food !in g.snake
    && ValidDirection(g.dx, g.dy)
    && (g.running ==> IsUnit(g.dx, g.dy))
    && (g.over ==> !g.running && g.dx == 0 && g.dy == 0)
    && !g.isInitialState
    && g.score >= 0 && g.score % Reward == 0
    && (g.isGrowing <==> g.growingSegment.Some?)
    && (g.growingSegment.Some? ==> g.growingSegment.value in g.snake)
  }
}
