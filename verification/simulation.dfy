/** One simulation step, `update` (script.js:210-250), with the state effects
    of `endGame` (script.js:252-259). */
module Simulation {
  import opened Wrappers
  import opened Grid
  import opened GameState
  import opened Food

  /** The candidate head: the current head moved by the direction
      (script.js:216). */
  function NextHead(g: Game): Tile
    requires |g.snake| > 0
  {
    Shift(g.snake[0], g.dx, g.dy)
  }

  /** The candidate head leaves the board, or lands on a current segment, the
      tail about to be dropped included (script.js:219, 225-230). */
  predicate Collides(n: int, g: Game)
    requires |g.snake| > 0
  {
    !InBounds(n, NextHead(g)) || NextHead(g) in g.snake
  }

  /** The candidate head lands on the food. */
  predicate Eats(g: Game)
    requires |g.snake| > 0
  {
    NextHead(g) == g.food
  }

  /** The state part of `endGame`: stop, mark over, stand still. */
  function EndGame(g: Game): (r: Game)
    ensures r.over && !r.running && r.dx == 0 && r.dy == 0
    ensures r.snake == g.snake && r.score == g.score && r.food == g.food
    ensures r.previousSnake == g.previousSnake && r.isGrowing == g.isGrowing
  {
    g.(over := true, running := false, dx := 0, dy := 0)
  }

  /** One tick. None only when the snake eats and every supplied roll for the
      new food lands on the grown snake. */
  function Tick(g: Game, n: int, rolls: seq<Tile>): (r: Option<Game>)
    requires Live(g) ==> |g.snake| > 0
    requires RollsInBounds(n, rolls)
    // Nothing happens unless the game is live.
    ensures !Live(g) ==> r == Some(g)
    // The tick never touches the time stamp; the loop sets it.
    ensures r.Some? ==> r.value.lastUpdateTime == g.lastUpdateTime
    // A live tick always snapshots the snake it starts from.
    ensures Live(g) && r.Some? ==> r.value.previousSnake == g.snake
    // A collision ends the game and leaves snake, score and food alone.
    ensures Live(g) && Collides(n, g) ==>
      && r.Some?
      && r.value.over && !r.value.running
      && r.value.dx == 0 && r.value.dy == 0
      && r.value.snake == g.snake && r.value.score == g.score && r.value.food == g.food
    // ... and touches nothing but the flags, the direction and the snapshot.
    ensures Live(g) && Collides(n, g) ==>
      r.value.(over := g.over, running := g.running, dx := g.dx, dy := g.dy,
               previousSnake := g.previousSnake) == g
    // Otherwise the new head is in front, the game keeps running in the same
    // direction, and the tail is kept exactly when eating or growing.
    ensures Live(g) && !Collides(n, g) && r.Some? ==>
      && Live(r.value)
      && r.value.dx == g.dx && r.value.dy == g.dy
      && |r.value.snake| > 0
      && r.value.snake[0] == NextHead(g)
      && r.value.snake[1..] == (if Eats(g) || g.isGrowing then g.snake else g.snake[..|g.snake| - 1])
    // Not eating: the score, food and growth state stay.
    ensures Live(g) && !Collides(n, g) && !Eats(g) ==>
      && r.Some?
      && r.value.score == g.score && r.value.food == g.food
      && r.value.isGrowing == g.isGrowing && r.value.growingSegment == g.growingSegment
    // ... and nothing but the snake and its snapshot changes.
    ensures Live(g) && !Collides(n, g) && !Eats(g) ==>
      r.value == g.(previousSnake := g.snake, snake := r.value.snake)
    // Eating: food can be placed exactly when the first placement of a run is
    // pending or some roll is off the grown snake.
    ensures Live(g) && !Collides(n, g) && Eats(g) ==>
      (r.Some? <==>
        g.isInitialState ||
        exists i :: 0 <= i < |rolls| && rolls[i] !in [NextHead(g)] + g.snake)
    // Eating: ten points, one more segment, and the old tail starts growing.
    ensures Live(g) && !Collides(n, g) && Eats(g) && r.Some? ==>
      && r.value.score == g.score + Reward
      && |r.value.snake| == |g.snake| + 1
      && r.value.isGrowing
      && r.value.growingSegment == Some(r.value.snake[|r.value.snake| - 1])
      && r.value.growingSegment == Some(g.snake[|g.snake| - 1])
      && !r.value.isInitialState
      && (!g.isInitialState ==> InBounds(n, r.value.food) && r.value.food !in r.value.snake)
  {
    if !Live(g) then Some(g)
    else
      var g1 := g.(previousSnake := g.snake);
      var head := NextHead(g);
      if !InBounds(n, head) || head in g.snake then Some(EndGame(g1))
      else
        var grown := g1.(snake := [head] + g.snake);
        if head == g.food then
          match GenerateFood(grown.(score := g.score + Reward), n, rolls)
          case None => None
          case Some(fed) =>
            Some(fed.(isGrowing := true, growingSegment := Some(fed.snake[|fed.snake| - 1])))
        else if !g.isGrowing then
          Some(grown.(snake := [head] + g.snake[..|g.snake| - 1]))
        else
          Some(grown)
  }

  /** Length changes only on a live, non-colliding tick, and then by exactly
      one when eating or while the growth flag is still set. */
  lemma TickLength(g: Game, n: int, rolls: seq<Tile>)
    requires Live(g) ==> |g.snake| > 0
    requires RollsInBounds(n, rolls)
    requires Tick(g, n, rolls).Some?
    ensures |Tick(g, n, rolls).value.snake| ==
      |g.snake| + (if Live(g) && !Collides(n, g) && (Eats(g) || g.isGrowing) then 1 else 0)
  {
  }

  /** A snake on the board with pairwise distinct tiles stays on the board
      with pairwise distinct tiles across any tick. */
  lemma {:induction false} TickKeepsBody(g: Game, n: int, rolls: seq<Tile>)
    requires |g.snake| > 0
    requires AllInBounds(n, g.snake) && Distinct(g.snake)
    requires RollsInBounds(n, rolls)
    requires Tick(g, n, rolls).Some?
    ensures var s := Tick(g, n, rolls).value.snake;
      |s| > 0 && AllInBounds(n, s) && Distinct(s)
  {
    if Live(g) && !Collides(n, g) {
      var k := if Eats(g) || g.isGrowing then |g.snake| else |g.snake| - 1;
      var head := NextHead(g);
      var s := Tick(g, n, rolls).value.snake;
      assert s[1..] == g.snake[..k];
      assert s == [head] + g.snake[..k] by {
        assert s == [s[0]] + s[1..];
      }
      PrependFreshDistinct(head, g.snake, k);
      PrependInBounds(n, head, g.snake, k);
    }
  }

  /** While moving in an arrow direction, a snake whose consecutive tiles
      share an edge keeps that shape across any tick. */
  lemma {:induction false} TickKeepsConnected(g: Game, n: int, rolls: seq<Tile>)
    requires |g.snake| > 0 && Connected(g.snake)
    requires Live(g) ==> IsUnit(g.dx, g.dy)
    requires RollsInBounds(n, rolls)
    requires Tick(g, n, rolls).Some?
    ensures Connected(Tick(g, n, rolls).value.snake)
  {
    if Live(g) && !Collides(n, g) {
      var k := if Eats(g) || g.isGrowing then |g.snake| else |g.snake| - 1;
      var head := NextHead(g);
      var s := Tick(g, n, rolls).value.snake;
      assert Neighbours(head, g.snake[0]);
      assert s[1..] == g.snake[..k];
      assert s == [head] + g.snake[..k] by {
        assert s == [s[0]] + s[1..];
      }
      if k > 0 {
        PrependNeighbourConnected(head, g.snake, k);
      } else {
        assert |s| == 1;
      }
    }
  }

}
