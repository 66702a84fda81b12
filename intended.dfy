/** Two ways in which the turn logic lets the snake turn straight back into its own neck, shown on the model
    of the code as written, and the corrected definitions under which a tick never reverses the snake.

    1. queueDirectionChange refuses the negation of `direction`, the direction of the last move, but a turn
       is applied after every turn queued before it. With W then S pressed within one tick, both are queued;
       the first tick turns +y and the second -y, straight into the neck.
    2. restartGame resets the directions to +x but keeps the queue. A turn left queued when the game ended
       is applied by the first tick of the new game, and -x runs the new head into the second segment. */
module Intended {
  import opened Wrappers
  import opened Grid
  import opened Rules

  /* ---------------- As written ---------------- */

  /** The start state after W and then S, both pressed before the first tick. */
  function TwoKeysPressed(): GameState {
    QueueChange(QueueChange(Initial(Vec(0, 0, 0)), PosY), NegY)
  }

  /** Two keys within one tick: from the start position (heading +x), W and S are both accepted, and the two
      ticks that follow move +y and then -y, ending the game on the snake's own neck. */
  lemma DoubleTurnReversesIntoNeck()
    ensures Accepts(Initial(Vec(0, 0, 0)), PosY)
    ensures Accepts(QueueChange(Initial(Vec(0, 0, 0)), PosY), NegY)
    ensures !Step(TwoKeysPressed(), []).isGameOver && Step(TwoKeysPressed(), []).direction == PosY
    ensures Step(Step(TwoKeysPressed(), []), []).direction == NegY
    ensures Step(Step(TwoKeysPressed(), []), []).isGameOver
  {
    var g0 := Initial(Vec(0, 0, 0));
    var g1 := QueueChange(g0, PosY);
    assert Accepts(g0, PosY);
    assert Accepts(g1, NegY);
    var g2 := TwoKeysPressed();
    assert g2.queue == [PosY, NegY];
    var s1 := Step(g2, []);
    assert s1.snake == [Vec(4, 5, 4), Vec(4, 4, 4), Vec(3, 4, 4)] && s1.queue == [NegY];
    assert BodyHit(s1.snake, Vec(4, 4, 4)) by {
      assert s1.snake[1] == Vec(4, 4, 4);
    }
  }

  /** The state of RestartReplaysStaleTurn just before the keys are pressed: a well-formed snake heading +z
      with its head in the corner cell (4, 7, 7). */
  function CornerState(): (g: GameState)
    ensures Shape(g)
  {
    var g := GameState([Vec(4, 7, 7), Vec(4, 7, 6), Vec(4, 7, 5)], Vec(0, 0, 0), PosZ, PosZ, [], 0, false);
    assert Vec(g.snake[1].x - g.snake[0].x, g.snake[1].y - g.snake[0].y, g.snake[1].z - g.snake[0].z) == NegZ;
    assert Vec(g.snake[2].x - g.snake[1].x, g.snake[2].y - g.snake[1].y, g.snake[2].z - g.snake[1].z) == NegZ;
    g
  }

  /** From the corner, W and then the Left arrow are both queued, and the +y tick leaves the grid, ending the
      game with -x still queued. */
  lemma CornerCrashLeavesTurnQueued()
    ensures var gB := QueueChange(QueueChange(CornerState(), PosY), NegX);
      var gC := Step(gB, []);
      gB.queue == [PosY, NegX] && gC.isGameOver && gC.queue == [NegX]
  {
    var gA := CornerState();
    var gA1 := QueueChange(gA, PosY);
    assert gA1 == gA.(queue := [PosY], nextDirection := PosY);
    var gB := QueueChange(gA1, NegX);
    assert gB == gA.(queue := [PosY, NegX], nextDirection := PosY);
    assert OutOfBounds(Vec(4, 8, 7));
  }

  /** A fresh snake whose next turn is -x runs into its own second segment on the first tick. */
  lemma FreshSnakeTurningBackDies(r: GameState, next: seq<GridCell>)
    requires r.snake == InitialSnake() && !r.isGameOver && r.queue != [] && r.queue[0] == NegX
    ensures Step(r, next).isGameOver && Step(r, next).direction == NegX
  {
    StepTakesQueueFront(r, next);
    StepEndsGameIff(r, next);
    assert NextHead(r) == Vec(3, 4, 4) == r.snake[..2][1];
  }

  /** A turn left in the queue survives a restart: whenever a game ends with -x at the front of the queue
      (as after CornerCrashLeavesTurnQueued), restartGame starts a fresh snake heading +x, and its first tick
      takes the stale -x and ends the new game on the second segment. */
  lemma RestartReplaysStaleTurn(g: GameState, draws: seq<GridCell>, next: seq<GridCell>)
    requires g.queue != [] && g.queue[0] == NegX
    ensures var r := Restarted(g, draws);
      && !r.isGameOver && r.direction == PosX && r.queue == g.queue
      && Step(r, next).isGameOver && Step(r, next).direction == NegX
  {
    var r := Restarted(g, draws);
    assert r.snake == InitialSnake() && !r.isGameOver && r.queue == g.queue;
    FreshSnakeTurningBackDies(r, next);
  }

  /* ---------------- Corrected ---------------- */

  /** The intended guard: refuse a turn that reverses, or repeats, the turn it will follow, which is the last
      queued turn (or nextDirection, equal to direction when the queue is empty). */
  predicate AcceptsGuarded(g: GameState, d: Vec) {
    !IsReversal(LastQueued(g), d) && d != LastQueued(g)
  }

  /** queueDirectionChange with the intended guard: an accepted turn is enqueued, a refused one changes
      nothing. */
  function QueueChangeGuarded(g: GameState, d: Vec): (r: GameState)
    ensures r != g ==> LastQueued(r) == d && r.queue == g.queue + [d]
    ensures r != g && IsUnitAxis(LastQueued(g)) ==> d != Neg(LastQueued(g))
    ensures IsUnitAxis(LastQueued(g)) && IsUnitAxis(d) ==>
      (r != g <==> d != Neg(LastQueued(g)) && d != LastQueued(g))
  {
    if IsUnitAxis(LastQueued(g)) && IsUnitAxis(d) then
      ReversalIsNegation(LastQueued(g), d);
      if AcceptsGuarded(g, d) then Enqueued(g, d) else g
    else if AcceptsGuarded(g, d) then Enqueued(g, d) else g
  }

  /** The intended restart: as restartGame, but the queue starts empty. */
  function RestartedClearing(g: GameState, draws: seq<GridCell>): (r: GameState)
    ensures r == Initial(r.food)
    ensures r.snake == Restarted(g, draws).snake && r.food == Restarted(g, draws).food
  {
    Restarted(g, draws).(queue := [])
  }

  /** No turn the snake will take is the reverse of the one before it: each queued turn differs from the
      negation of its predecessor (direction for the first), and with an empty queue the next tick keeps
      direction. */
  ghost predicate NoPendingReversal(g: GameState) {
    && (g.queue == [] ==> g.nextDirection == g.direction)
    && (g.queue != [] ==> g.queue[0] != Neg(g.direction))
    && (forall i :: 0 < i < |g.queue| ==> g.queue[i] != Neg(g.queue[i - 1]))
  }

  /** An accepted turn never reverses the turn it follows. */
  lemma GuardRefusesReversal(g: GameState, d: Vec)
    requires IsUnitAxis(LastQueued(g)) && IsUnitAxis(d) && AcceptsGuarded(g, d)
    ensures d != Neg(LastQueued(g))
  {
    ReversalIsNegation(LastQueued(g), d);
  }

  lemma GuardedQueueKeepsNoReversal(g: GameState, d: Vec)
    requires NoPendingReversal(g) && IsUnitAxis(LastQueued(g)) && IsUnitAxis(d)
    ensures NoPendingReversal(QueueChangeGuarded(g, d))
  {
    if AcceptsGuarded(g, d) {
      GuardRefusesReversal(g, d);
      EnqueueKeepsNoReversal(g, d);
    }
  }

  lemma EnqueueKeepsNoReversal(g: GameState, d: Vec)
    requires NoPendingReversal(g) && d != Neg(LastQueued(g))
    ensures NoPendingReversal(Enqueued(g, d))
  {
    var r := Enqueued(g, d);
    var n := |g.queue|;
    assert r.queue == g.queue + [d] && r.direction == g.direction;
    if n == 0 {
      assert LastQueued(g) == g.direction;
    } else {
      assert r.queue[0] == g.queue[0];
      forall i | 0 < i < |r.queue|
        ensures r.queue[i] != Neg(r.queue[i - 1])
      {
        if i < n {
          assert r.queue[i] == g.queue[i] && r.queue[i - 1] == g.queue[i - 1];
        } else {
          assert r.queue[i - 1] == g.queue[n - 1] == LastQueued(g);
        }
      }
    }
  }

  lemma StepKeepsNoReversal(g: GameState, draws: seq<GridCell>)
    requires |g.snake| > 0 && NoPendingReversal(g)
    ensures NoPendingReversal(Step(g, draws))
  {
    if !g.isGameOver && |g.queue| > 0 {
      StepTakesQueueFront(g, draws);
      var r := Step(g, draws);
      if |r.queue| > 0 {
        assert r.queue[0] == g.queue[1];
      }
      forall i | 0 < i < |r.queue|
        ensures r.queue[i] != Neg(r.queue[i - 1])
      {
        assert r.queue[i] == g.queue[i + 1] && r.queue[i - 1] == g.queue[i];
      }
    }
  }

  /** Under the invariant a tick never turns the snake straight back. */
  lemma StepNeverReverses(g: GameState, draws: seq<GridCell>)
    requires |g.snake| > 0 && IsUnitAxis(g.direction) && NoPendingReversal(g) && !g.isGameOver
    ensures Step(g, draws).direction != Neg(g.direction)
  {
    StepTakesQueueFront(g, draws);
    if |g.queue| == 0 {
      AxisIsNotOwnReverse(g.direction);
    } else {
      assert g.queue[0] != Neg(g.direction);
    }
  }

  /** The events of play, reduced to what they do to the state: a turn from a key or swipe (always an axis
      direction), a tick, and a restart. */
  datatype Move = Turn(d: Vec) | Tick(draws: seq<GridCell>) | Reset(draws: seq<GridCell>)

  function ApplyGuarded(g: GameState, m: Move): (r: GameState)
    requires |g.snake| > 0
    ensures |r.snake| > 0
  {
    match m
    case Turn(d) => QueueChangeGuarded(g, d)
    case Tick(draws) => Step(g, draws)
    case Reset(draws) => RestartedClearing(g, draws)
  }

  function RunGuarded(g: GameState, moves: seq<Move>): (r: GameState)
    requires |g.snake| > 0
    ensures |r.snake| > 0
    decreases |moves|
  {
    if moves == [] then g else RunGuarded(ApplyGuarded(g, moves[0]), moves[1..])
  }

  ghost predicate AxisTurns(moves: seq<Move>) {
    forall i :: 0 <= i < |moves| && moves[i].Turn? ==> IsUnitAxis(moves[i].d)
  }

  lemma ApplyGuardedKeeps(g: GameState, m: Move)
    requires Shape(g) && NoPendingReversal(g)
    requires m.Turn? ==> IsUnitAxis(m.d)
    ensures Shape(ApplyGuarded(g, m)) && NoPendingReversal(ApplyGuarded(g, m))
  {
    match m
    case Turn(d) =>
      LastQueuedIsAxis(g);
      GuardedQueueKeepsNoReversal(g, d);
      EnqueuedKeepsShape(g, d);
    case Tick(draws) =>
      StepKeepsShape(g, draws);
      StepKeepsNoReversal(g, draws);
    case Reset(draws) =>
      RestartClearingKeeps(g, draws);
  }

  lemma RestartClearingKeeps(g: GameState, draws: seq<GridCell>)
    ensures Shape(RestartedClearing(g, draws)) && NoPendingReversal(RestartedClearing(g, draws))
  {
    var r := RestartedClearing(g, draws);
    InitialSnakeWellFormed(r.food);
    assert r == Initial(r.food);
  }

  /** With both corrections, from the start of a game and whatever turns, ticks and restarts follow, the
      next tick of a running game never turns the snake straight back into its neck. */
  lemma {:induction false} GuardedPlayNeverReverses(g: GameState, moves: seq<Move>, draws: seq<GridCell>)
    requires Shape(g) && NoPendingReversal(g) && AxisTurns(moves)
    ensures var r := RunGuarded(g, moves);
      Shape(r) && NoPendingReversal(r) && (!r.isGameOver ==> Step(r, draws).direction != Neg(r.direction))
    decreases |moves|
  {
    if moves == [] {
      if !g.isGameOver {
        StepNeverReverses(g, draws);
      }
    } else {
      ApplyGuardedKeeps(g, moves[0]);
      assert AxisTurns(moves[1..]) by {
        forall i | 0 <= i < |moves[1..]| && moves[1..][i].Turn?
          ensures IsUnitAxis(moves[1..][i].d)
        {
          assert moves[1..][i] == moves[i + 1];
        }
      }
      GuardedPlayNeverReverses(ApplyGuarded(g, moves[0]), moves[1..], draws);
    }
  }

  /** The first tick after the intended restart always succeeds: the fresh snake heads +x into a free cell. */
  lemma RestartClearingFirstTickSafe(g: GameState, draws: seq<GridCell>, next: seq<GridCell>)
    ensures !Step(RestartedClearing(g, draws), next).isGameOver
    ensures Step(RestartedClearing(g, draws), next).direction == PosX
  {
    var r := RestartedClearing(g, draws);
    assert r.snake == InitialSnake();
    assert !BodyHit(r.snake, Vec(5, 4, 4));
  }

  /** A game that has just started satisfies the invariant of the corrected turn logic. */
  lemma InitialHasNoPendingReversal(food: Cell)
    ensures NoPendingReversal(Initial(food)) && Shape(Initial(food))
  {
    InitialSnakeWellFormed(food);
  }
}
