/** The game's state and its transitions as functions on values: the direction queue, the move step (one tick
    of the game timer), the food placement, restart and the input handlers. The class in module SnakeGame
    updates the same state in place and is proved to follow these functions; the lemmas here state what the
    game promises about them. */
module Rules {
  import opened Wrappers
  import opened Grid
  import opened Controls

  /** Cell index of the centre on each axis: Math.floor(GRID_SIZE / 2) for GRID_SIZE 8. */
  const START: int := 4
  const INITIAL_LENGTH: int := 3
  const FOOD_POINTS: int := 10

  /** The game's module-level variables: the snake's cells from head (index 0) to tail, the food cell, the
      direction of the last move, the direction the next move takes when the queue is empty, the queue of
      pending turns, the score and the game-over flag. */
  datatype GameState = GameState(
    snake: seq<Cell>,
    food: Cell,
    direction: Vec,
    nextDirection: Vec,
    queue: seq<Vec>,
    score: int,
    isGameOver: bool)

  /** Segment i of a new snake: i cells behind the centre along -x. */
  function Segment(i: int): Cell {
    Vec(START - i, START, START)
  }

  function InitialSnake(): seq<Cell> {
    [Segment(0), Segment(1), Segment(2)]
  }

  /** The state after start-up, once the food has been placed. */
  function Initial(food: Cell): (r: GameState)
    ensures r.food == food && r.snake == InitialSnake() && !r.isGameOver && r.score == 0
    ensures r.queue == [] && r.direction == PosX && LastQueued(r) == PosX
  {
    GameState(InitialSnake(), food, PosX, PosX, [], 0, false)
  }

  /* ---------------- Invariants ---------------- */

  ghost predicate Contiguous(s: seq<Cell>) {
    forall i :: 0 <= i < |s| - 1 ==> Adjacent(s[i], s[i + 1])
  }

  ghost predicate Distinct(s: seq<Cell>) {
    forall i, j :: 0 <= i < j < |s| ==> s[i] != s[j]
  }

  /** What every reachable state keeps: at least three segments, all inside the grid and each one step from
      the next, a score of 10 per segment grown, and axis directions everywhere. */
  ghost predicate Shape(g: GameState) {
    && |g.snake| >= INITIAL_LENGTH
    && (forall i :: 0 <= i < |g.snake| ==> InGrid(g.snake[i]))
    && Contiguous(g.snake)
    && g.score == FOOD_POINTS * (|g.snake| - INITIAL_LENGTH)
    && IsUnitAxis(g.direction)
    && IsUnitAxis(g.nextDirection)
    && (forall i :: 0 <= i < |g.queue| ==> IsUnitAxis(g.queue[i]))
  }

  /** The food lies inside the grid and off the snake. */
  ghost predicate FoodFree(g: GameState) {
    InGrid(g.food) && g.food !in g.snake
  }

  /** The new snake is well formed: it satisfies the invariants, its cells are distinct and it heads +x. */
  lemma InitialSnakeWellFormed(food: Cell)
    ensures Shape(Initial(food))
    ensures Distinct(InitialSnake())
    ensures InitialSnake()[0] == Add(InitialSnake()[1], PosX)
  {
    var s := InitialSnake();
    assert Vec(s[1].x - s[0].x, s[1].y - s[0].y, s[1].z - s[0].z) == NegX;
    assert Vec(s[2].x - s[1].x, s[2].y - s[1].y, s[2].z - s[1].z) == NegX;
    assert Contiguous(s);
  }

  /* ---------------- Food placement ---------------- */

  /** createFood's rejection loop run on a finite supply of random cells: the first draw not on the snake, or
      none when every draw lands on the snake (where the source would go on drawing). */
  function FirstFree(draws: seq<GridCell>, snake: seq<Cell>): (r: Option<Cell>)
    ensures r.Some? ==> InGrid(r.value) && r.value !in snake && r.value in draws
    ensures r.None? <==> forall i :: 0 <= i < |draws| ==> draws[i] in snake
  {
    if draws == [] then None
    else if draws[0] !in snake then Some(draws[0])
    else FirstFree(draws[1..], snake)
  }

  /** When the snake fills the grid no draw is ever free: the source's placement loop never ends. */
  lemma {:induction false} FullGridNeverPlaces(draws: seq<GridCell>, snake: seq<Cell>)
    requires forall c: Cell :: InGrid(c) ==> c in snake
    ensures FirstFree(draws, snake) == None
  {
    if draws != [] {
      assert draws[0] in snake;
      FullGridNeverPlaces(draws[1..], snake);
    }
  }

  /* ---------------- Direction queue ---------------- */

  /** The direction the newest turn is compared with: the last queued turn, or nextDirection when the queue
      is empty. */
  function LastQueued(g: GameState): Vec {
    if |g.queue| > 0 then g.queue[|g.queue| - 1] else g.nextDirection
  }

  /** queueDirectionChange's result: refused when it reverses the current direction (compared with
      `direction`, not with the queue) or repeats the last queued turn. */
  predicate Accepts(g: GameState, d: Vec): (r: bool)
    ensures r ==> d != LastQueued(g)
  {
    !IsReversal(g.direction, d) && d != LastQueued(g)
  }

  /** The turn d at the back of the queue; it becomes nextDirection if it is the only entry. */
  function Enqueued(g: GameState, d: Vec): (r: GameState)
    ensures |r.queue| == |g.queue| + 1 && r.queue[..|g.queue|] == g.queue && LastQueued(r) == d
    ensures g.queue != [] ==> r.nextDirection == g.nextDirection
    ensures r == g.(queue := r.queue, nextDirection := r.nextDirection)
  {
    var q := g.queue + [d];
    g.(queue := q, nextDirection := if |q| == 1 then q[0] else g.nextDirection)
  }

  /** queueDirectionChange's effect: an accepted turn is enqueued, a refused one changes nothing. */
  function QueueChange(g: GameState, d: Vec): (r: GameState)
    ensures r.queue == g.queue || r.queue == g.queue + [d]
    ensures r == g.(queue := r.queue, nextDirection := r.nextDirection)
  {
    if Accepts(g, d) then Enqueued(g, d) else g
  }

  /** For axis directions a turn is accepted exactly when it is not the reverse of the current direction
      and differs from the last queued turn. */
  lemma QueueAcceptsIff(g: GameState, d: Vec)
    requires IsUnitAxis(g.direction) && IsUnitAxis(d)
    ensures Accepts(g, d) <==> d != Neg(g.direction) && d != LastQueued(g)
  {
    ReversalIsNegation(g.direction, d);
  }

  /** The turn a new one is compared with is an axis direction. */
  lemma LastQueuedIsAxis(g: GameState)
    requires Shape(g)
    ensures IsUnitAxis(LastQueued(g))
  {
  }

  /** An accepted turn is appended at the back of the queue and becomes nextDirection when the queue was
      empty; nothing else changes, and a refused turn changes nothing at all. */
  lemma QueueChangeEffect(g: GameState, d: Vec)
    ensures var r := QueueChange(g, d);
      if Accepts(g, d) then
        && r.queue == g.queue + [d]
        && r.nextDirection == (if g.queue == [] then d else g.nextDirection)
        && r == g.(queue := r.queue, nextDirection := r.nextDirection)
      else r == g
  {
    var r := QueueChange(g, d);
    if Accepts(g, d) {
      assert r.queue == g.queue + [d];
      assert |r.queue| == 1 <==> g.queue == [];
    }
  }

  /** A refused reversal: the exact negation of `direction` never enters the queue, even when the queue ends
      with a different turn. */
  lemma QueueRefusesReversal(g: GameState)
    requires IsUnitAxis(g.direction)
    ensures !Accepts(g, Neg(g.direction))
    ensures QueueChange(g, Neg(g.direction)) == g
  {
    assert IsUnitAxis(Neg(g.direction));
    ReversalIsNegation(g.direction, Neg(g.direction));
  }

  /** No two neighbouring entries of the queue are equal. */
  ghost predicate NoRepeats(q: seq<Vec>) {
    forall i :: 0 <= i < |q| - 1 ==> q[i] != q[i + 1]
  }

  /** Since a repeat of the last queued turn is refused, the queue never holds the same turn twice in a row,
      and a tick, which only removes the front, keeps it so. */
  lemma QueueKeepsNoRepeats(g: GameState, d: Vec, draws: seq<GridCell>)
    requires NoRepeats(g.queue)
    ensures NoRepeats(QueueChange(g, d).queue)
    ensures |g.snake| > 0 ==> NoRepeats(Step(g, draws).queue)
  {
    var r := QueueChange(g, d);
    if Accepts(g, d) && |g.queue| > 0 {
      assert r.queue[|g.queue| - 1] == LastQueued(g);
    }
  }

  /* ---------------- The move step ---------------- */

  /** The start of moveSnake: the front of a non-empty queue becomes nextDirection, and direction becomes
      nextDirection. */
  function Dequeued(g: GameState): (r: GameState)
    ensures r.direction == r.nextDirection
    ensures g.queue != [] ==> [r.direction] + r.queue == g.queue
    ensures g.queue == [] ==> r.direction == g.nextDirection && r.queue == []
  {
    var nd := if |g.queue| > 0 then g.queue[0] else g.nextDirection;
    g.(nextDirection := nd, direction := nd, queue := if |g.queue| > 0 then g.queue[1..] else g.queue)
  }

  /** The self-collision test: c is a segment other than the tail. */
  predicate BodyHit(snake: seq<Cell>, c: Cell): (r: bool)
    ensures r ==> c in snake
    ensures |snake| > 0 ==> (r <==> c in snake[..|snake| - 1])
  {
    exists i :: 0 <= i < |snake| - 1 && snake[i] == c
  }

  /** The head cell the next move aims at. */
  function NextHead(g: GameState): Cell
    requires |g.snake| > 0
  {
    Add(g.snake[0], Dequeued(g).direction)
  }

  /** moveSnake, one tick of the game: nothing when the game is over; otherwise take the next direction,
      end the game on leaving the grid or running into the body (the tail excluded), else push the new head
      and drop the tail, or keep the tail, score 10 and place new food when the head lands on the food. */
  function Step(g: GameState, draws: seq<GridCell>): (r: GameState)
    requires |g.snake| > 0
    ensures |r.snake| == |g.snake| || |r.snake| == |g.snake| + 1
    ensures r.score == g.score + FOOD_POINTS * (|r.snake| - |g.snake|)
    ensures g.isGameOver ==> r == g
  {
    if g.isGameOver then g
    else
      var g1 := Dequeued(g);
      var head := Add(g1.snake[0], g1.direction);
      if OutOfBounds(head) || BodyHit(g1.snake, head) then
        g1.(isGameOver := true)
      else if head == g1.food then
        var s := [head] + g1.snake;
        g1.(snake := s, score := g1.score + FOOD_POINTS, food := FirstFree(draws, s).GetOr(g1.food))
      else
        g1.(snake := [head] + g1.snake[..|g1.snake| - 1])
  }

  /** A tick of a finished game changes nothing. */
  lemma StepWhenOverIsNoop(g: GameState, draws: seq<GridCell>)
    requires |g.snake| > 0 && g.isGameOver
    ensures Step(g, draws) == g
  {
  }

  /** The queue is first in, first out: a tick takes the direction at the front of a non-empty queue, or
      keeps nextDirection when the queue is empty, and makes it the current direction. */
  lemma StepTakesQueueFront(g: GameState, draws: seq<GridCell>)
    requires |g.snake| > 0 && !g.isGameOver
    ensures var r := Step(g, draws);
      && r.direction == r.nextDirection
      && (|g.queue| > 0 ==> r.direction == g.queue[0] && r.queue == g.queue[1..])
      && (|g.queue| == 0 ==> r.direction == g.nextDirection && r.queue == [])
  {
  }

  /** A tick ends the game exactly when the new head leaves the grid or lands on a segment other than the
      tail; the snake, score and food then stay as they were. */
  lemma StepEndsGameIff(g: GameState, draws: seq<GridCell>)
    requires |g.snake| > 0 && !g.isGameOver
    ensures var r := Step(g, draws); var head := NextHead(g);
      && (r.isGameOver <==> !InGrid(head) || head in g.snake[..|g.snake| - 1])
      && (r.isGameOver ==> r.snake == g.snake && r.score == g.score && r.food == g.food)
  {
    var head := NextHead(g);
    if head in g.snake[..|g.snake| - 1] {
      var i :| 0 <= i < |g.snake| - 1 && g.snake[..|g.snake| - 1][i] == head;
      assert g.snake[i] == head;
    }
    if BodyHit(g.snake, head) {
      var i :| 0 <= i < |g.snake| - 1 && g.snake[i] == head;
      assert g.snake[..|g.snake| - 1][i] == head;
    }
  }

  /** A successful tick puts the new head, one step from the old head, at index 0 and keeps the old snake
      behind it: without food it drops the tail (same length, same score), on the food it keeps the tail
      (one longer, 10 more points) and places the new food off the grown snake when a draw allows it. */
  lemma StepMovesHead(g: GameState, draws: seq<GridCell>)
    requires Shape(g) && !g.isGameOver
    requires !Step(g, draws).isGameOver
    ensures var r := Step(g, draws);
      && r.snake[0] == NextHead(g)
      && Adjacent(g.snake[0], r.snake[0])
      && (NextHead(g) != g.food ==>
            |r.snake| == |g.snake| && r.snake[1..] == g.snake[..|g.snake| - 1]
            && r.score == g.score && r.food == g.food)
      && (NextHead(g) == g.food ==>
            |r.snake| == |g.snake| + 1 && r.snake[1..] == g.snake && r.score == g.score + FOOD_POINTS
            && (FirstFree(draws, r.snake).Some? ==> InGrid(r.food) && r.food !in r.snake))
  {
    StepIsAdjacent(g.snake[0], Dequeued(g).direction);
    var r := Step(g, draws);
    assert r.snake[1..] == if NextHead(g) == g.food then g.snake else g.snake[..|g.snake| - 1];
  }

  /** Chasing the tail is allowed: on a well-formed snake, a head aimed at the tail's cell does not end the
      game, and the snake keeps its length. */
  lemma StepIntoTailIsAllowed(g: GameState, draws: seq<GridCell>)
    requires Shape(g) && Distinct(g.snake) && FoodFree(g) && !g.isGameOver
    requires NextHead(g) == g.snake[|g.snake| - 1]
    ensures !Step(g, draws).isGameOver
    ensures Step(g, draws).snake[0] == g.snake[|g.snake| - 1]
    ensures |Step(g, draws).snake| == |g.snake|
  {
    var head := NextHead(g);
    forall i | 0 <= i < |g.snake| - 1
      ensures g.snake[i] != head
    {
      assert i < |g.snake| - 1;
    }
    assert !BodyHit(g.snake, head);
    assert head != g.food;
  }

  /** A tick keeps the invariants: the snake stays inside the grid and contiguous, at least three long, and
      the score stays 10 points per segment grown. */
  lemma StepKeepsShape(g: GameState, draws: seq<GridCell>)
    requires Shape(g)
    ensures Shape(Step(g, draws))
  {
    if !g.isGameOver {
      var g1 := Dequeued(g);
      assert IsUnitAxis(g1.direction);
      var r := Step(g, draws);
      if !r.isGameOver {
        var head := NextHead(g);
        StepIsAdjacent(g.snake[0], g1.direction);
        assert r.snake[0] == head && InGrid(head);
        assert forall i :: 1 <= i < |r.snake| ==> r.snake[i] == g.snake[i - 1];
        forall i | 0 <= i < |r.snake| - 1
          ensures Adjacent(r.snake[i], r.snake[i + 1])
        {
          if i > 0 {
            assert Adjacent(g.snake[i - 1], g.snake[i]);
          }
        }
      }
    }
  }

  /** A tick keeps the segments distinct, and keeps the food off the snake, except after eating when the
      supplied draws held no free cell (the source would still be drawing). */
  lemma StepKeepsDistinctAndFoodFree(g: GameState, draws: seq<GridCell>)
    requires Shape(g) && Distinct(g.snake) && FoodFree(g)
    ensures var r := Step(g, draws);
      && Distinct(r.snake)
      && (FoodFree(r) || (r.score == g.score + FOOD_POINTS && FirstFree(draws, r.snake).None?))
  {
    var r := Step(g, draws);
    if !g.isGameOver && !r.isGameOver {
      var head := NextHead(g);
      var n := |g.snake|;
      assert !BodyHit(g.snake, head);
      assert forall i :: 1 <= i < |r.snake| ==> r.snake[i] == g.snake[i - 1];
      forall i, j | 0 <= i < j < |r.snake|
        ensures r.snake[i] != r.snake[j]
      {
        if i == 0 {
          if j - 1 < n - 1 {
            assert g.snake[j - 1] != head;
          } else {
            assert head == g.food;
          }
        }
      }
      if head != g.food {
        forall k | 0 <= k < |r.snake|
          ensures r.snake[k] != g.food
        {
          if k > 0 {
            assert g.snake[k - 1] in g.snake;
          }
        }
      }
    }
  }

  /* ---------------- Restart and input ---------------- */

  /** restartGame: score 0, game running, both directions +x, a new three-cell snake and new food checked
      against it. The queue of pending turns is kept as it was. */
  function Restarted(g: GameState, draws: seq<GridCell>): (r: GameState)
    ensures r.queue == g.queue && r.snake == InitialSnake() && !r.isGameOver && r.score == 0
    ensures r.direction == PosX && r.nextDirection == PosX
    ensures FirstFree(draws, r.snake).Some? ==> InGrid(r.food) && r.food !in r.snake
    ensures FirstFree(draws, r.snake).None? ==> r.food == g.food
  {
    var s := InitialSnake();
    g.(snake := s, score := 0, isGameOver := false, direction := PosX, nextDirection := PosX,
       food := FirstFree(draws, s).GetOr(g.food))
  }

  /** A restart starts the game over with a fresh snake whatever the state, keeps the pending queue, and
      puts the food off the snake when a draw allows it. */
  lemma RestartSpec(g: GameState, draws: seq<GridCell>)
    requires forall i :: 0 <= i < |g.queue| ==> IsUnitAxis(g.queue[i])
    ensures Shape(Restarted(g, draws)) && Distinct(Restarted(g, draws).snake)
    ensures !Restarted(g, draws).isGameOver && Restarted(g, draws).score == 0
    ensures Restarted(g, draws).queue == g.queue
    ensures FirstFree(draws, InitialSnake()).Some? ==> FoodFree(Restarted(g, draws))
  {
    var r := Restarted(g, draws);
    InitialSnakeWellFormed(g.food);
    var s := InitialSnake();
    assert Contiguous(s) && |s| == INITIAL_LENGTH && Distinct(s);
    assert forall i :: 0 <= i < |s| ==> InGrid(s[i]);
    assert r.snake == s;
  }

  /** handleKeyPress: Enter restarts a finished game and is otherwise ignored; when the game is running,
      a movement key queues its direction. */
  function KeyPressed(g: GameState, key: string, draws: seq<GridCell>): (r: GameState)
    ensures r != g ==> (key == "Enter" <==> g.isGameOver)
    ensures key != "Enter" && r != g ==> KeyDirection(key).Some? && r == QueueChange(g, KeyDirection(key).value)
    ensures key == "Enter" && g.isGameOver ==> r == Restarted(g, draws)
    ensures key != "Enter" && !g.isGameOver && KeyDirection(key).Some? ==>
      r == QueueChange(g, KeyDirection(key).value)
  {
    if key == "Enter" then
      if g.isGameOver then Restarted(g, draws) else g
    else if g.isGameOver then g
    else match KeyDirection(key)
      case None => g
      case Some(d) => QueueChange(g, d)
  }

  /** handleTouchEnd: when the game is running, a classified swipe queues its direction. */
  function TouchEnded(g: GameState, start: Option<Touch>, end: Touch): (r: GameState)
    ensures r != g ==> !g.isGameOver && Swipe(start, end).Some?
    ensures r != g ==> r.queue == g.queue + [Swipe(start, end).value]
    ensures !g.isGameOver && Swipe(start, end).Some? ==> r == QueueChange(g, Swipe(start, end).value)
  {
    if g.isGameOver then g
    else match Swipe(start, end)
      case None => g
      case Some(d) => QueueChange(g, d)
  }

  /** Keys and swipes only ever touch the queue and nextDirection of a running game: the snake, food,
      score, direction and flag stay, and every queued entry is an axis direction. */
  lemma InputOnlyQueues(g: GameState, key: string, start: Option<Touch>, end: Touch, draws: seq<GridCell>)
    requires !g.isGameOver
    ensures var r := KeyPressed(g, key, draws);
      r == g.(queue := r.queue, nextDirection := r.nextDirection)
    ensures var r := TouchEnded(g, start, end);
      r == g.(queue := r.queue, nextDirection := r.nextDirection)
  {
  }

  /** The events that drive the game: a key press, the end of a touch, a tick of the move timer, and a click
      on the restart button. Each carries the random draws that a food placement would consume. */
  datatype Event =
    | KeyDown(key: string, draws: seq<GridCell>)
    | TouchEnd(start: Option<Touch>, end: Touch)
    | Tick(draws: seq<GridCell>)
    | RestartClick(draws: seq<GridCell>)

  function Apply(g: GameState, e: Event): (r: GameState)
    requires |g.snake| > 0
    ensures |r.snake| > 0
  {
    match e
    case KeyDown(key, draws) => KeyPressed(g, key, draws)
    case TouchEnd(start, end) => TouchEnded(g, start, end)
    case Tick(draws) => Step(g, draws)
    case RestartClick(draws) => Restarted(g, draws)
  }

  function Run(g: GameState, events: seq<Event>): (r: GameState)
    requires |g.snake| > 0
    ensures |r.snake| > 0
    decreases |events|
  {
    if events == [] then g else Run(Apply(g, events[0]), events[1..])
  }

  lemma ApplyKeepsShape(g: GameState, e: Event)
    requires Shape(g)
    ensures Shape(Apply(g, e))
  {
    match e
    case KeyDown(key, draws) =>
      if key == "Enter" && g.isGameOver {
        RestartSpec(g, draws);
      } else if key != "Enter" && !g.isGameOver && KeyDirection(key).Some? {
        QueueKeepsShape(g, KeyDirection(key).value);
      }
    case TouchEnd(start, end) =>
      if !g.isGameOver && Swipe(start, end).Some? {
        QueueKeepsShape(g, Swipe(start, end).value);
      }
    case Tick(draws) => StepKeepsShape(g, draws);
    case RestartClick(draws) => RestartSpec(g, draws);
  }

  /** Queueing an axis direction keeps the invariants. */
  lemma EnqueuedKeepsShape(g: GameState, d: Vec)
    requires Shape(g) && IsUnitAxis(d)
    ensures Shape(Enqueued(g, d))
  {
    var r := Enqueued(g, d);
    assert forall i :: 0 <= i < |r.queue| ==> r.queue[i] == if i < |g.queue| then g.queue[i] else d;
  }

  lemma QueueKeepsShape(g: GameState, d: Vec)
    requires Shape(g) && IsUnitAxis(d)
    ensures Shape(QueueChange(g, d))
  {
    EnqueuedKeepsShape(g, d);
  }

  /** From start-up onward, whatever keys, swipes, ticks and restarts happen, the snake stays contiguous and
      inside the grid, every direction is an axis direction, and score == 10 * (|snake| - 3). */
  lemma {:induction false} RunKeepsShape(g: GameState, events: seq<Event>)
    requires Shape(g)
    ensures Shape(Run(g, events))
    decreases |events|
  {
    if events != [] {
      ApplyKeepsShape(g, events[0]);
      RunKeepsShape(Apply(g, events[0]), events[1..]);
    }
  }
}
