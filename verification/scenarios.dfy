/** Concrete runs on a 20-by-20 board, one per behaviour worth seeing on an
    actual state. */
module Scenarios {
  import opened Wrappers
  import opened Grid
  import opened GameState
  import opened Food
  import opened Simulation
  import opened Input
  import opened Loop

  /** The fresh snake heading right with food right in front of it. */
  function FedStart(): Game {
    Launched().(running := true, food := Tile(7, 14))
  }

  /** Eating grows the snake by one, adds ten points, marks the old tail as
      growing, and the first roll, which lands on the snake, is re-rolled. */
  lemma EatAndReroll()
    ensures var r := Tick(FedStart(), 20, [Tile(5, 14), Tile(0, 0)]);
      && r.Some?
      && r.value.snake == [Tile(7, 14), Tile(6, 14), Tile(5, 14), Tile(4, 14)]
      && r.value.score == 10
      && r.value.food == Tile(0, 0)
      && r.value.isGrowing && r.value.growingSegment == Some(Tile(4, 14))
  {
    var g := FedStart();
    assert NextHead(g) == Tile(7, 14);
    assert Tile(7, 14) !in g.snake;
    assert Tile(5, 14) in [Tile(7, 14)] + g.snake;
    assert Tile(0, 0) !in [Tile(7, 14)] + g.snake;
  }

  /** Without a frame ending the growth animation before the next tick, the
      snake grows once more although it eats nothing. */
  lemma GrowsAgainWithoutFrames()
    ensures var r := Tick(FedStart(), 20, [Tile(0, 0)]);
      && r.Some?
      && |r.value.snake| == 4
      && var r2 := Tick(r.value, 20, []);
        r2.Some? && |r2.value.snake| == 5 && r2.value.score == 10
  {
    var g := FedStart();
    assert NextHead(g) == Tile(7, 14);
    assert Tile(0, 0) !in [Tile(7, 14)] + g.snake;
    var r := Tick(g, 20, [Tile(0, 0)]).value;
    assert r.snake == [Tile(7, 14)] + g.snake;
    assert NextHead(r) == Tile(8, 14);
    assert Tile(8, 14) !in r.snake;
  }

  /** Moving left off the left edge ends the game and stops the snake. */
  lemma WallEndsGame()
    ensures var g := Launched().(snake := [Tile(0, 14), Tile(1, 14), Tile(2, 14)], dx := -1, running := true);
      var r := Tick(g, 20, []);
      r == Some(g.(previousSnake := g.snake, over := true, running := false, dx := 0, dy := 0))
  {
  }

  /** Turning up into a body tile ends the game with the snake as it was. */
  lemma BodyEndsGame()
    ensures var g := Launched().(
        snake := [Tile(5, 7), Tile(6, 7), Tile(6, 6), Tile(5, 6), Tile(4, 6)],
        dx := 0, dy := -1, running := true);
      var r := Tick(g, 20, []);
      r.Some? && r.value.over && r.value.snake == g.snake
  {
    var g := Launched().(
      snake := [Tile(5, 7), Tile(6, 7), Tile(6, 6), Tile(5, 6), Tile(4, 6)],
      dx := 0, dy := -1, running := true);
    assert NextHead(g) == g.snake[3];
  }

  /** Moving onto the tile the tail is about to leave still ends the game:
      the self check runs before the tail is dropped. */
  lemma TailEndsGame()
    ensures var g := Launched().(
        snake := [Tile(5, 5), Tile(6, 5), Tile(6, 6), Tile(5, 6)],
        dx := 0, dy := 1, running := true);
      var r := Tick(g, 20, []);
      r.Some? && r.value.over && !r.value.running
  {
    var g := Launched().(
      snake := [Tile(5, 5), Tile(6, 5), Tile(6, 6), Tile(5, 6)],
      dx := 0, dy := 1, running := true);
    assert NextHead(g) == g.snake[3];
  }

  /** Pressing the reverse arrow while heading right changes nothing. */
  lemma ReverseRefused()
    ensures var g := Launched().(running := true);
      HandleKey(g, Left) == g
  {
  }

  /** The direction rule compares with the pending direction, not with the
      last move: two arrows pressed within one tick interval turn the snake
      back onto its own neck, and the next tick ends the game. */
  lemma QuickTurnIntoNeck()
    ensures var g := HandleKey(HandleKey(Launched().(running := true), Up), Left);
      g.dx == -1 && g.dy == 0 &&
      var r := Tick(g, 20, []);
      r.Some? && r.value.over
  {
    var g := HandleKey(HandleKey(Launched().(running := true), Up), Left);
    assert NextHead(g) == g.snake[1];
  }

  /** Before the game starts, a Left arrow starts it but is refused as a
      reverse of the default rightward motion. */
  lemma StartWithReverseArrow()
    ensures var r := HandleKey(Launched(), Left);
      Live(r) && r.dx == 1 && r.dy == 0
  {
  }

  /** The gate is strict: exactly the tick interval after the last tick
      nothing happens; one millisecond later the snake moves. */
  lemma GateIsStrict()
    ensures var g := Launched().(running := true, lastUpdateTime := 1000);
      && LoopStep(g, 1150, 20, []) == Some(g)
      && var r := LoopStep(g, 1151, 20, []);
        r.Some? && r.value.lastUpdateTime == 1151 && r.value.snake[0] == Tile(7, 14)
  {
    var g := Launched().(running := true, lastUpdateTime := 1000);
    assert NextHead(g) == Tile(7, 14);
    assert Tile(7, 14) !in g.snake;
  }

  /** Over: an arrow does nothing, Enter restarts. */
  lemma OverOnlyRestarts()
    ensures var g := EndGame(Launched().(running := true, score := 40));
      HandleKey(g, Up) == g && HandleKey(g, Enter) == Launched()
  {
    RestartIsLaunch(EndGame(Launched().(running := true, score := 40)));
  }
}
