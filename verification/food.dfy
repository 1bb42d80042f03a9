/** Food placement, `generateFood` (script.js:190-208). The random re-roll is
    replaced by an oracle: the caller supplies the tiles `Math.random` would
    produce, in order, and placement takes the first that is off the snake. */
module Food {
  import opened Wrappers
  import opened Grid
  import opened GameState

  /** Every roll is a board tile: `floor(random * n)` lies in [0, n). */
  predicate RollsInBounds(n: int, rolls: seq<Tile>) {
    forall i :: 0 <= i < |rolls| ==> InBounds(n, rolls[i])
  }

  /** The position of the first roll that is off the snake, or None when
      every roll lands on it (script.js:195-206). */
  function FirstFree(snake: seq<Tile>, rolls: seq<Tile>): (r: Option<nat>)
    ensures r.Some? ==> r.value < |rolls| && rolls[r.value] !in snake
    ensures r.Some? ==> forall j :: 0 <= j < r.value ==> rolls[j] in snake
    ensures r.None? ==> forall j :: 0 <= j < |rolls| ==> rolls[j] in snake
    decreases |rolls|
  {
    if |rolls| == 0 then None
    else if rolls[0] !in snake then Some(0)
    else
      match FirstFree(snake, rolls[1..])
      case None => None
      case Some(i) => Some(i + 1)
  }

  /** The first call of a fresh run yields the fixed tile without looking at
      the snake; every later call keeps the first roll that is off the snake.
      None means the supplied rolls ran out while every one hit the snake:
      the source would roll again, and on a full board its recursion would
      overflow the stack. */
  function GenerateFood(g: Game, n: int, rolls: seq<Tile>): (r: Option<Game>)
    requires RollsInBounds(n, rolls)
    ensures g.isInitialState ==> r == Some(g.(food := InitialFood, isInitialState := false))
    ensures !g.isInitialState ==>
      (r.Some? <==> exists i :: 0 <= i < |rolls| && rolls[i] !in g.snake)
    ensures r.Some? ==> r.value == g.(food := r.value.food, isInitialState := false)
    ensures !g.isInitialState && r.Some? ==>
      && InBounds(n, r.value.food)
      && r.value.food !in g.snake
      && r.value.food in rolls
  {
    if g.isInitialState then
      Some(g.(food := InitialFood, isInitialState := false))
    else
      match FirstFree(g.snake, rolls)
      case None => None
      case Some(i) => Some(g.(food := rolls[i], isInitialState := false))
  }

  /** The roll kept is the earliest free one: every roll before it was on
      the snake and was re-rolled. */
  lemma {:induction false} GenerateFoodTakesFirstFree(g: Game, n: int, rolls: seq<Tile>, i: nat)
    requires RollsInBounds(n, rolls) && !g.isInitialState
    requires i < |rolls| && rolls[i] !in g.snake
    requires forall j :: 0 <= j < i ==> rolls[j] in g.snake
    ensures GenerateFood(g, n, rolls) == Some(g.(food := rolls[i], isInitialState := false))
  {
    var f := FirstFree(g.snake, rolls);
    assert f.Some?;
  }
}
