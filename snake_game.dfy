/** The game as the source runs it: its module-level variables become the fields of one object, and each
    function of the source that updates them becomes a method. Each method with a counterpart in module Rules
    (the constructor, QueueDirectionChange, HandleKeyPress, HandleTouchEnd, MoveSnake, Restart) is proved to
    leave the object in the state that function gives for the old state. CreateSnake, CreateFood, OnSnake and
    HitsBody are proved against their own postconditions, and GameOver sets the flag and nothing else. */
module SnakeGame {
  import opened Wrappers
  import opened Grid
  import opened Controls
  import opened Rules

  class Game {
    var snake: seq<Cell>
    var food: Cell
    var direction: Vec
    var nextDirection: Vec
    var directionQueue: seq<Vec>
    var score: int
    var isGameOver: bool

    /** The current values of the fields. */
    function State(): GameState
      reads this
    {
      GameState(snake, food, direction, nextDirection, directionQueue, score, isGameOver)
    }

    /** init: an empty snake and queue, then createSnake and createFood. The draws must contain a free cell,
        which is what makes the source's placement loop stop. */
    constructor (draws: seq<GridCell>)
      requires FirstFree(draws, InitialSnake()).Some?
      ensures State() == Initial(FirstFree(draws, InitialSnake()).value)
      ensures Shape(State()) && Distinct(snake) && FoodFree(State())
    {
      snake := [];
      directionQueue := [];
      score := 0;
      isGameOver := false;
      direction := PosX;
      nextDirection := PosX;
      new;
      CreateSnake();
      assert snake == InitialSnake();
      var placed := CreateFood(draws);
      assert food == FirstFree(draws, InitialSnake()).value;
      assert State() == Initial(food);
      InitialSnakeWellFormed(food);
    }

    /** createSnake: appends three segments running back from the centre along -x and heads +x. */
    method CreateSnake()
      modifies this`snake, this`direction, this`nextDirection
      ensures snake == old(snake) + InitialSnake()
      ensures direction == PosX && nextDirection == PosX
    {
      for i := 0 to INITIAL_LENGTH
        invariant snake == old(snake) + InitialSnake()[..i]
      {
        snake := snake + [Segment(i)];
      }
      direction := PosX;
      nextDirection := PosX;
    }

    /** The scan of createFood over every segment: whether cell c is on the snake. */
    method OnSnake(c: Cell) returns (on: bool)
      ensures on <==> c in snake
    {
      on := false;
      var i := 0;
      while i < |snake|
        invariant 0 <= i <= |snake|
        invariant !on ==> c !in snake[..i]
        invariant on ==> c in snake
      {
        if snake[i] == c {
          on := true;
          break;
        }
        i := i + 1;
      }
      if !on {
        assert snake[..i] == snake;
      }
    }

    /** createFood: draws random cells until one is off the snake and puts the food there. With a finite
        supply of draws it reports whether a draw was free; when none was, the food stays where it was. */
    method CreateFood(draws: seq<GridCell>) returns (placed: bool)
      modifies this`food
      ensures placed == FirstFree(draws, snake).Some?
      ensures food == FirstFree(draws, snake).GetOr(old(food))
      ensures placed ==> InGrid(food) && food !in snake
    {
      placed := false;
      var k := 0;
      while !placed && k < |draws|
        invariant 0 <= k <= |draws|
        invariant FirstFree(draws, snake) == if placed then Some(food) else FirstFree(draws[k..], snake)
        invariant !placed ==> food == old(food)
        decreases |draws| - k, if placed then 0 else 1
      {
        var on := OnSnake(draws[k]);
        assert draws[k..][1..] == draws[k + 1..];
        if !on {
          food := draws[k];
          placed := true;
        } else {
          k := k + 1;
        }
      }
      if !placed {
        assert draws[k..] == [];
      }
    }

    /** queueDirectionChange: whether the turn was queued. */
    method QueueDirectionChange(d: Vec) returns (accepted: bool)
      modifies this`directionQueue, this`nextDirection
      ensures accepted == Accepts(old(State()), d)
      ensures State() == QueueChange(old(State()), d)
    {
      if IsReversal(direction, d) {
        return false;
      }
      var lastQueued := if |directionQueue| > 0 then directionQueue[|directionQueue| - 1] else nextDirection;
      if lastQueued != d {
        directionQueue := directionQueue + [d];
        if |directionQueue| == 1 {
          nextDirection := directionQueue[0];
        }
        return true;
      }
      return false;
    }

    /** handleKeyPress, with the draws a restart would use. */
    method HandleKeyPress(key: string, draws: seq<GridCell>)
      modifies this
      ensures State() == KeyPressed(old(State()), key, draws)
    {
      if key == "Enter" {
        if isGameOver {
          Restart(draws);
        }
        return;
      }
      if isGameOver {
        return;
      }
      var d := KeyDirection(key);
      if d.Some? {
        var _ := QueueDirectionChange(d.value);
      }
    }

    /** handleTouchEnd, given the stored touch start and the touch end. */
    method HandleTouchEnd(start: Option<Touch>, end: Touch)
      modifies this
      ensures State() == TouchEnded(old(State()), start, end)
    {
      if isGameOver {
        return;
      }
      var d := Swipe(start, end);
      if d.Some? {
        var _ := QueueDirectionChange(d.value);
      }
    }

    /** The collision loop of moveSnake: whether c is on a segment other than the tail. */
    method HitsBody(c: Cell) returns (hit: bool)
      ensures hit == BodyHit(snake, c)
    {
      hit := false;
      var i := 0;
      while i < |snake| - 1
        invariant 0 <= i <= |snake|
        invariant !hit ==> forall j :: 0 <= j < i ==> snake[j] != c
        invariant hit ==> BodyHit(snake, c)
      {
        if snake[i] == c {
          hit := true;
          break;
        }
        i := i + 1;
      }
    }

    /** moveSnake: one tick of the game timer. On a state that keeps the invariants it keeps them. */
    method MoveSnake(draws: seq<GridCell>)
      requires |snake| > 0
      modifies this
      ensures State() == Step(old(State()), draws)
      ensures old(Shape(State())) ==> Shape(State())
    {
      ghost var g := State();
      if Shape(g) {
        StepKeepsShape(g, draws);
      }
      if isGameOver {
        return;
      }
      if |directionQueue| > 0 {
        nextDirection := directionQueue[0];
        directionQueue := directionQueue[1..];
      }
      direction := nextDirection;
      var head := Add(snake[0], direction);
      if OutOfBounds(head) {
        GameOver();
        return;
      }
      var hit := HitsBody(head);
      if hit {
        GameOver();
        return;
      }
      var isEating := head == food;
      snake := [head] + snake;
      if !isEating {
        snake := snake[..|snake| - 1];
      } else {
        score := score + FOOD_POINTS;
        var _ := CreateFood(draws);
      }
    }

    /** gameOver: raises the flag and changes nothing else. */
    method GameOver()
      modifies this`isGameOver
      ensures isGameOver
    {
      isGameOver := true;
    }

    /** restartGame: resets score, flag and directions and rebuilds snake and food; the queue is kept. */
    method Restart(draws: seq<GridCell>)
      modifies this
      ensures State() == Restarted(old(State()), draws)
    {
      score := 0;
      isGameOver := false;
      direction := PosX;
      nextDirection := PosX;
      snake := [];
      CreateSnake();
      assert snake == InitialSnake();
      var _ := CreateFood(draws);
    }
  }
}
