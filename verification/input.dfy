/** Keyboard input: the direction rule `changeDirection` (script.js:105-137),
    `startGame` (script.js:139-149), the state reset of `restartGame`
    (script.js:151-180) and the keydown handler (script.js:67-90). */
module Input {
  import opened Wrappers
  import opened Grid
  import opened GameState
  import opened Food

  /** The key codes the handler distinguishes; every other code is `Other`. */
  datatype Key = Left | Up | Right | Down | Space | Enter | Other

  predicate IsArrow(k: Key) {
    k.Left? || k.Up? || k.Right? || k.Down?
  }

  predicate IsConfirm(k: Key) {
    k.Space? || k.Enter?
  }

  /** The direction an arrow key asks for (y grows downward). */
  function ArrowX(k: Key): int {
    match k
    case Left => -1
    case Right => 1
    case _ => 0
  }

  function ArrowY(k: Key): int {
    match k
    case Up => -1
    case Down => 1
    case _ => 0
  }

  /** The direction after key k while moving (dx, dy): an arrow is refused
      only when the current motion along its axis is the opposite one. */
  function Turn(dx: int, dy: int, k: Key): (r: (int, int))
    ensures !IsArrow(k) ==> r == (dx, dy)
    ensures IsArrow(k) ==> r == (dx, dy) || r == (ArrowX(k), ArrowY(k))
    // Never the exact reverse of a motion.
    ensures (dx != 0 || dy != 0) ==> r != (-dx, -dy)
    // Standing still, every arrow is taken.
    ensures IsArrow(k) && dx == 0 && dy == 0 ==> r == (ArrowX(k), ArrowY(k))
    // Moving along an arrow direction, an arrow is taken exactly when it is
    // not the reverse.
    ensures IsArrow(k) && IsUnit(dx, dy) ==>
      (r == (ArrowX(k), ArrowY(k)) <==> (ArrowX(k), ArrowY(k)) != (-dx, -dy))
    ensures ValidDirection(dx, dy) ==> ValidDirection(r.0, r.1)
    ensures IsUnit(dx, dy) ==> IsUnit(r.0, r.1)
  {
    var goingUp := dy == -1;
    var goingDown := dy == 1;
    var goingRight := dx == 1;
    var goingLeft := dx == -1;
    match k
    case Left => if !goingRight then (-1, 0) else (dx, dy)
    case Up => if !goingDown then (0, -1) else (dx, dy)
    case Right => if !goingLeft then (1, 0) else (dx, dy)
    case Down => if !goingUp then (0, 1) else (dx, dy)
    case _ => (dx, dy)
  }

  /** The arrow asks for the exact opposite of the current motion. */
  predicate IsReverse(dx: int, dy: int, k: Key) {
    ArrowX(k) == -dx && ArrowY(k) == -dy
  }

  /** The rule as stated for the game: an arrow is taken unless it is the
      exact reverse; any other key keeps the direction. On every direction
      the game can hold, the axis-by-axis checks of `Turn` are this rule. */
  lemma TurnIsReverseRule(dx: int, dy: int, k: Key)
    requires ValidDirection(dx, dy)
    ensures Turn(dx, dy, k) ==
      (if IsArrow(k) && !IsReverse(dx, dy, k) then (ArrowX(k), ArrowY(k)) else (dx, dy))
  {
  }

  /** `changeDirection`: only the direction of the game changes, and never to
      the exact reverse of a motion. */
  function ChangeDirection(g: Game, k: Key): (r: Game)
    ensures r.(dx := g.dx, dy := g.dy) == g
    ensures !IsArrow(k) ==> r == g
    ensures (g.dx != 0 || g.dy != 0) ==> (r.dx, r.dy) != (-g.dx, -g.dy)
    ensures IsArrow(k) && g.dx == 0 && g.dy == 0 ==> (r.dx, r.dy) == (ArrowX(k), ArrowY(k))
    ensures IsArrow(k) && IsUnit(g.dx, g.dy) ==>
      ((r.dx, r.dy) == (ArrowX(k), ArrowY(k)) <==> !IsReverse(g.dx, g.dy, k))
  {
    var d := Turn(g.dx, g.dy, k);
    g.(dx := d.0, dy := d.1)
  }

  /** Run, not over, and moving rightward when standing still. */
  function StartGame(g: Game): (r: Game)
    ensures Live(r)
    ensures r.snake == g.snake && r.food == g.food && r.score == g.score
    ensures (g.dx != 0 || g.dy != 0) ==> r.dx == g.dx && r.dy == g.dy
    ensures (g.dx == 0 && g.dy == 0) ==> r.dx == 1 && r.dy == 0
    ensures ValidDirection(g.dx, g.dy) ==> IsUnit(r.dx, r.dy)
    ensures r == g.(running := true, over := false, dx := r.dx, dy := r.dy)
  {
    var r := g.(running := true, over := false);
    if g.dx == 0 && g.dy == 0 then r.(dx := 1, dy := 0) else r
  }

  /** The state after the constructor and `init`'s first food placement
      (script.js:15-46), before `init`'s first loop iteration (script.js:48);
      a `Frame` event models that iteration. */
  function Launched(): (r: Game)
    ensures r.food == InitialFood && !r.isInitialState
  {
    var c := Constructed();
    // The first placement of a run never reads the board size.
    GenerateFood(c, 0, []).value
  }

  /** The full state reset of a restart, ending with the fixed first food. */
  function Restart(g: Game): (r: Game)
    ensures r.snake == StartSnake && r.previousSnake == StartSnake
    ensures r.dx == 1 && r.dy == 0 && r.score == 0
    ensures !r.running && !r.over && !r.isGrowing && r.growingSegment == None
    ensures r.lastUpdateTime == 0 && r.food == InitialFood && !r.isInitialState
  {
    var reset := g.(
      snake := StartSnake,
      previousSnake := StartSnake,
      dx := 1,
      dy := 0,
      score := 0,
      running := false,
      over := false,
      isInitialState := true,
      lastUpdateTime := 0,
      isGrowing := false,
      growingSegment := None);
    // The first placement of a run never reads the board size.
    GenerateFood(reset, 0, []).value
  }

  /** A restart forgets everything: it lands on the state the page is in
      before its first frame, whatever came before. */
  lemma RestartIsLaunch(g: Game)
    ensures Restart(g) == Launched()
  {
  }

  /** The keydown handler. Over: only Space or Enter act, and they restart.
      Not running: an arrow, Space or Enter starts the game, and an arrow is
      then applied through the direction rule. Running: the direction rule. */
  function HandleKey(g: Game, k: Key): (r: Game)
    ensures g.over && IsConfirm(k) ==> r == Restart(g)
    ensures g.over && !IsConfirm(k) ==> r == g
    ensures !g.over && !g.running && !IsArrow(k) && !IsConfirm(k) ==> r == g
    ensures !g.over && !g.running && (IsArrow(k) || IsConfirm(k)) ==>
      && Live(r)
      && r.snake == g.snake && r.food == g.food && r.score == g.score
      && (ValidDirection(g.dx, g.dy) ==> IsUnit(r.dx, r.dy))
    ensures !g.over && !g.running && IsConfirm(k) ==> r == StartGame(g)
    ensures !g.over && !g.running && IsArrow(k) ==> r == ChangeDirection(StartGame(g), k)
    ensures Live(g) ==> r == ChangeDirection(g, k)
  {
    if g.over then
      if IsConfirm(k) then Restart(g) else g
    else if !g.running then
      if IsConfirm(k) || IsArrow(k) then
        var s := StartGame(g);
        if IsArrow(k) then ChangeDirection(s, k) else s
      else g
    else ChangeDirection(g, k)
  }
}
