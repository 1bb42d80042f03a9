/** The game-logic part of `gameLoop` (script.js:543-576): the tick gate, the
    frame-driven end of the growth flag, and runs of input and frame events
    from a fresh page, with the invariant every reachable state keeps. */
module Loop {
  import opened Wrappers
  import opened Grid
  import opened GameState
  import opened Food
  import opened Simulation
  import opened Input

  /** Strictly more than the tick interval has passed since the last tick
      (script.js:565). */
  predicate Due(g: Game, now: int) {
    now - g.lastUpdateTime > TickInterval
  }

  /** One loop iteration at time `now`, in integer milliseconds: when due,
      run a tick and remember `now`; otherwise leave the state alone. The
      stamp is taken even when the tick itself does nothing. */
  function LoopStep(g: Game, now: int, n: int, rolls: seq<Tile>): (r: Option<Game>)
    requires Live(g) ==> |g.snake| > 0
    requires RollsInBounds(n, rolls)
    ensures !Due(g, now) ==> r == Some(g)
    ensures Due(g, now) ==> (r.Some? <==> Tick(g, n, rolls).Some?)
    ensures Due(g, now) && r.Some? ==>
      r.value.lastUpdateTime == now &&
      r.value == Tick(g, n, rolls).value.(lastUpdateTime := now)
  {
    if Due(g, now) then
      match Tick(g, n, rolls)
      case None => None
      case Some(t) => Some(t.(lastUpdateTime := now))
    else
      Some(g)
  }

  /** The end of the growth animation (script.js:554-559): the flag is
      cleared by frames, and frames advance it only while the game is live. */
  function FinishGrowth(g: Game): (r: Game)
    ensures Live(g) ==> !r.isGrowing
    ensures Live(g) && g.isGrowing ==> r.growingSegment == None
    ensures !Live(g) || !g.isGrowing ==> r == g
    ensures r.snake == g.snake && r.food == g.food && r.score == g.score
    ensures r.running == g.running && r.over == g.over && r.dx == g.dx && r.dy == g.dy
    ensures r == g.(isGrowing := r.isGrowing, growingSegment := r.growingSegment)
  {
    if Live(g) && g.isGrowing then g.(isGrowing := false, growingSegment := None) else g
  }

  /** What can happen to the game between two observations. */
  datatype Event =
    | KeyDown(key: Key)
    | Frame(now: int, rolls: seq<Tile>)
    | GrowthDone

  predicate EventsValid(n: int, evs: seq<Event>) {
    forall i :: 0 <= i < |evs| ==> (evs[i].Frame? ==> RollsInBounds(n, evs[i].rolls))
  }

  function Step(g: Game, n: int, e: Event): Option<Game>
    requires Live(g) ==> |g.snake| > 0
    requires e.Frame? ==> RollsInBounds(n, e.rolls)
  {
    match e
    case KeyDown(k) => Some(HandleKey(g, k))
    case Frame(now, rolls) => LoopStep(g, now, n, rolls)
    case GrowthDone => Some(FinishGrowth(g))
  }

  /** The state before the first frame is a valid state on any board larger
      than the column of the fixed food. */
  lemma LaunchedInv(n: int)
    requires n > 18
    ensures Inv(n, Launched())
  {
    assert StartSnake[0] == Tile(6, 14);
    assert StartSnake[1] == Tile(5, 14);
    assert StartSnake[2] == Tile(4, 14);
  }

  lemma TickInv(g: Game, n: int, rolls: seq<Tile>)
    requires Inv(n, g) && RollsInBounds(n, rolls)
    requires Tick(g, n, rolls).Some?
    ensures Inv(n, Tick(g, n, rolls).value)
  {
    if Live(g) {
      if Collides(n, g) {
        CollisionInv(g, n, rolls);
      } else if Eats(g) {
        EatInv(g, n, rolls);
      } else {
        MoveInv(g, n, rolls);
      }
    }
  }

  lemma CollisionInv(g: Game, n: int, rolls: seq<Tile>)
    requires Inv(n, g) && RollsInBounds(n, rolls)
    requires Live(g) && Collides(n, g)
    ensures Tick(g, n, rolls).Some? && Inv(n, Tick(g, n, rolls).value)
  {
  }

  lemma EatInv(g: Game, n: int, rolls: seq<Tile>)
    requires Inv(n, g) && RollsInBounds(n, rolls)
    requires Live(g) && !Collides(n, g) && Eats(g)
    requires Tick(g, n, rolls).Some?
    ensures Inv(n, Tick(g, n, rolls).value)
  {
    TickKeepsBody(g, n, rolls);
    TickKeepsConnected(g, n, rolls);
    var r := Tick(g, n, rolls).value;
    assert r.snake[|r.snake| - 1] in r.snake;
  }

  lemma MoveInv(g: Game, n: int, rolls: seq<Tile>)
    requires Inv(n, g) && RollsInBounds(n, rolls)
    requires Live(g) && !Collides(n, g) && !Eats(g)
    ensures Tick(g, n, rolls).Some? && Inv(n, Tick(g, n, rolls).value)
  {
    TickKeepsBody(g, n, rolls);
    TickKeepsConnected(g, n, rolls);
    var r := Tick(g, n, rolls).value;
    var tail := r.snake[1..];
    assert r.snake == [NextHead(g)] + tail;
    assert forall t :: t in tail ==> t in g.snake;
    assert g.food !in tail;
    if g.isGrowing {
      assert tail == g.snake;
      assert g.growingSegment.value in tail;
    }
  }

  lemma HandleKeyInv(g: Game, n: int, k: Key)
    requires n > 18 && Inv(n, g)
    ensures Inv(n, HandleKey(g, k))
  {
    if g.over && IsConfirm(k) {
      RestartIsLaunch(g);
      LaunchedInv(n);
    }
  }

  lemma StepInv(g: Game, n: int, e: Event)
    requires n > 18 && Inv(n, g)
    requires e.Frame? ==> RollsInBounds(n, e.rolls)
    requires Step(g, n, e).Some?
    ensures Inv(n, Step(g, n, e).value)
  {
    match e
    case KeyDown(k) => HandleKeyInv(g, n, k);
    case Frame(now, rolls) =>
      if Due(g, now) {
        TickInv(g, n, rolls);
      }
    case GrowthDone =>
  }

  /** Apply the events in order. None when some tick ran out of supplied
      food rolls. Every state reached keeps the invariant. */
  function Run(g: Game, n: int, evs: seq<Event>): (r: Option<Game>)
    requires n > 18 && Inv(n, g) && EventsValid(n, evs)
    ensures r.Some? ==> Inv(n, r.value)
    decreases |evs|
  {
    if |evs| == 0 then Some(g)
    else
      match Step(g, n, evs[0])
      case None => None
      case Some(g') =>
        StepInv(g, n, evs[0]);
        assert EventsValid(n, evs[1..]) by {
          forall i | 0 <= i < |evs| - 1
            ensures evs[1..][i].Frame? ==> RollsInBounds(n, evs[1..][i].rolls)
          {
            assert evs[1..][i] == evs[i + 1];
          }
        }
        Run(g', n, evs[1..])
  }

  /** Safety of every reachable state: starting from the state the page is
      in before its first frame,
      whatever keys, frames and growth ends arrive, the snake stays on the
      board with pairwise distinct, edge-sharing tiles, the food stays on the
      board and off the snake, and the score is a multiple of the reward. */
  lemma {:induction false} ReachableSafe(n: int, evs: seq<Event>)
    requires n > 18 && EventsValid(n, evs)
    ensures Inv(n, Launched())
    ensures var r := Run(Launched(), n, evs);
      r.Some? ==>
        && |r.value.snake| >= 1
        && AllInBounds(n, r.value.snake)
        && Distinct(r.value.snake)
        && Connected(r.value.snake)
        && InBounds(n, r.value.food)
        && r.value.food !in r.value.snake
        && r.value.score >= 0 && r.value.score % Reward == 0
  {
    LaunchedInv(n);
  }
}
