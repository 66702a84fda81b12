# 3D snake: turn logic, move step and food placement

A model of the game logic of `game.js`, a snake game in an 8 × 8 × 8 volume. It covers the game's own state:
the snake's cells from head to tail, the food, the current direction, the direction the next move takes, the
queue of pending turns, the score and the game-over flag. It also covers everything that changes that state:

- queueing a turn;
- the move step that runs on every tick of the game timer;
- building the snake and placing the food;
- game over and restart;
- the keyboard switch and the swipe classifier that turn input into one of the six axis directions.

A position in the source is a cell index times `UNIT_SIZE`, and the desktop code compares positions by exact
equality. The model works on integer cells `(x, y, z)` with `0 <= c < 8` on every axis. It therefore
computes in exact arithmetic, where the source uses floating point; "## Left out" says where the two differ.

Modules:

- `Grid` (grid.dfy): cells and direction vectors, the boundary test, the reversal test.
- `Controls` (controls.dfy): `handleKeyPress`'s key switch and `handleTouchEnd`'s swipe classification, as
  pure functions.
- `Rules` (rules.dfy): the state as a value (`GameState`). Each operation is a function on it: `QueueChange`,
  `Step` (one tick), `Restarted`, `KeyPressed`, `TouchEnded`, and `FirstFree` for the food placement loop.
  The lemmas state what the game promises about these functions. The main ones: the snake stays contiguous
  and inside the grid, its cells stay distinct, the food stays off it, and `score == 10 * (|snake| - 3)`.
- `SnakeGame` (snake_game.dfy): class `Game`. The source's module-level variables are its fields, and the
  source's functions that update them are its methods. Each method that has a `Rules` counterpart is proved
  to produce the state that function gives for the old state. `CreateSnake`, `CreateFood`, `OnSnake` and
  `HitsBody` are proved against their own postconditions. `GameOver` sets the flag, and its frame keeps
  everything else. The collision loop and the food placement loops are
  loops here, proved against their specifications.
- `Intended` (intended.dfy): two defects of the turn logic, shown on the as-written model, and corrected
  definitions with the property the code evidently intends (see Findings).

## Model

| member | source | states |
|---|---|---|
| `Grid.OutOfBounds` | game.js:713-716 | On integer cells, the desktop boundary test (below -UNIT_SIZE/4 or above 7.5 × UNIT_SIZE on some axis) fails exactly when the cell is outside the 8 × 8 × 8 grid |
| `Grid.ReversalIsNegation` | game.js:599-603 | For axis directions, the component-wise "can't go backwards" test holds exactly when the new direction is the negation of the current one |
| `Grid.IsReversal` | game.js:599-601 | The component-wise "can't go backwards" test never rejects a turn to the current axis direction |
| `Grid.StepIsAdjacent` | game.js:701-705 | The new head (old head plus an axis direction) is one unit step from the old head |
| `Controls.KeyDirection` | game.js:650-676 | Every key the switch maps gives one of the six axis directions: only the Left/Right arrows give x, only w/W/s/S give y, only the Up/Down arrows give z |
| `Controls.EveryAxisHasAKey` | game.js:650-676 | Each of the six axis directions is produced by some key |
| `Controls.PairedKeysAreOpposite` | game.js:650-676 | ArrowRight gives +x, w gives +y, ArrowDown gives +z and ArrowUp gives -z. The other key of each axis gives the opposite direction, and W/S do not depend on letter case |
| `Controls.SwipeDirection` | game.js:554-593 | A swipe gives nothing exactly when it took over 600 ms or moved under 20 px on both axes; otherwise it gives an axis direction |
| `Controls.SwipeClassification` | game.js:564-593 | x exactly when 2·abs(dx) > 3·abs(dy), with the sign of dx. y exactly when 2·abs(dy) > 3·abs(dx), with y = -sign(dy). Otherwise z, where both deltas are nonzero and z = -1 exactly when they have opposite signs |
| `Controls.ReversedSwipe` | game.js:564-593 | Swiping the opposite way negates an x or y result and keeps a z result |
| `Controls.Swipe` | game.js:539-593 | A swipe is classified only when a touch start with nonzero coordinates was recorded. With such a start it gives nothing exactly when it took over 600 ms or moved under 20 px on both axes; otherwise it gives an axis direction |
| `Rules.InitialSnakeWellFormed` | game.js:390-408 | `InitialSnake`: the new snake has 3 distinct, contiguous cells inside the grid, with the body behind the head along -x. The start state heads +x, keeps the invariants and has score 0 |
| `Rules.Initial` | game.js:109-115 | The state after start-up: the given food, the new snake, score 0, running, heading +x, no pending turn |
| `Rules.FirstFree` | game.js:430-449 | The placement loop ends on a draw inside the grid and off every snake segment; it finds none exactly when every draw lands on the snake |
| `Rules.FullGridNeverPlaces` | game.js:430-449 | When the snake covers the whole grid, no sequence of draws ends the placement loop |
| `Rules.Accepts` | game.js:605-612 | A turn equal to the last queued turn (`nextDirection` if none is queued) is never accepted |
| `Rules.Enqueued` | game.js:613-620 | Appending a turn makes it the last queued turn and keeps the queue before it. `nextDirection` changes only when the queue was empty, and nothing else changes |
| `Rules.QueueChange` | game.js:597-626 | `queueDirectionChange` either leaves the queue as it was or appends the new turn at the back, and changes nothing but the queue and `nextDirection` |
| `Rules.QueueAcceptsIff` | game.js:597-626 | For axis directions, a turn is accepted exactly when it is not the negation of `direction` and differs from the last queued turn (`nextDirection` if the queue is empty) |
| `Rules.QueueChangeEffect` | game.js:613-625 | An accepted turn is appended at the back of the queue and becomes `nextDirection` when it is the only entry; nothing else changes; a refused turn changes nothing |
| `Rules.QueueRefusesReversal` | game.js:599-603 | The negation of `direction` is refused and changes nothing, whatever the queue holds |
| `Rules.QueueKeepsNoRepeats` | game.js:606-625 | The queue never holds the same turn twice in a row, and a tick keeps it so |
| `Rules.QueueKeepsShape` | game.js:613-620 | Queueing an axis direction keeps the game invariants |
| `Rules.Dequeued` | game.js:691-697 | The start of a tick: a non-empty queue gives up its front, which becomes the new direction (first in, first out). With an empty queue, `nextDirection` becomes the direction. The new direction and `nextDirection` are equal |
| `Rules.BodyHit` | game.js:731-760 | The collision test holds exactly when the cell is on a segment other than the tail |
| `Rules.Step` | game.js:685-815 | `moveSnake`: a tick grows the snake by at most one cell and adds 10 points for each cell it grows. A finished game is left unchanged |
| `Rules.StepWhenOverIsNoop` | game.js:686 | A tick of a finished game changes nothing |
| `Rules.StepTakesQueueFront` | game.js:691-697 | A tick takes the front of a non-empty queue (FIFO), or keeps `nextDirection` when the queue is empty, and makes it `direction` |
| `Rules.StepEndsGameIff` | game.js:713-765 | A tick ends the game exactly when the new head is outside the grid or on a segment other than the tail; the snake, score and food then stay unchanged |
| `Rules.StepMovesHead` | game.js:800-814 | After a successful tick the new head is at index 0, one step from the old head. Without food: same length, old snake minus its tail behind the head, same score. On food: one longer, the whole old snake behind the head, score + 10, new food off the snake when a draw allows |
| `Rules.StepIntoTailIsAllowed` | game.js:733-760 | Moving into the tail's current cell does not end the game and keeps the length |
| `Rules.StepKeepsShape` | game.js:685-815 | A tick keeps the snake inside the grid, contiguous, at least 3 long, every direction an axis direction, and score == 10 × (length − 3) |
| `Rules.StepKeepsDistinctAndFoodFree` | game.js:730-814 | A tick keeps the segments distinct and the food off the snake, except after eating when no supplied draw was free |
| `Rules.Restarted` | game.js:833-869 | `restartGame`: the queue is kept, with a fresh snake, score 0, running and both directions +x. The food is inside the grid and off the new snake when a draw is free; otherwise it stays where it was |
| `Rules.RestartSpec` | game.js:833-869 | Restart gives a running game with score 0, a fresh well-formed snake and new food off it when a draw allows; the pending queue is kept |
| `Rules.KeyPressed` | game.js:629-682 | `handleKeyPress`: Enter in a finished game restarts it, and a key of the switch in a running game queues its direction as `queueDirectionChange` does. Every other key, Enter in a running game and any other key in a finished one, changes nothing |
| `Rules.TouchEnded` | game.js:527-593 | `handleTouchEnd`: in a running game a classified swipe queues its direction as `queueDirectionChange` does. A finished game or an unclassified swipe changes nothing |
| `Rules.InputOnlyQueues` | game.js:629-682 | In a running game, key presses and swipes change only the queue and `nextDirection` |
| `Rules.RunKeepsShape` | game.js:800-814 | From start-up on, after any keys, swipes, ticks and restarts, the snake stays contiguous and inside the grid and score == 10 × (length − 3) |
| `SnakeGame.Game.constructor` | game.js:109-115 | Start-up: the 3-cell snake heading +x, empty queue, score 0, food on the first free draw; the state satisfies every invariant |
| `SnakeGame.Game.CreateSnake` | game.js:381-409 | Appends the three start segments to the snake and sets both directions to +x |
| `SnakeGame.Game.OnSnake` | game.js:439-448 | The segment scan returns true exactly when the cell is on the snake |
| `SnakeGame.Game.CreateFood` | game.js:412-457 | Places the food on the first draw off the snake, reports whether one existed, and leaves the food in place otherwise |
| `SnakeGame.Game.QueueDirectionChange` | game.js:597-626 | Returns whether the turn was accepted and updates the queue and `nextDirection` as `QueueChange` does |
| `SnakeGame.Game.HandleKeyPress` | game.js:629-682 | Enter restarts a finished game; other keys are ignored once the game is over; a movement key queues its direction |
| `SnakeGame.Game.HandleTouchEnd` | game.js:527-593 | Ignored once the game is over; otherwise a classified swipe queues its direction |
| `SnakeGame.Game.HitsBody` | game.js:731-760 | The collision loop returns true exactly when the cell is on a segment other than the tail |
| `SnakeGame.Game.MoveSnake` | game.js:685-815 | Updates the fields as `Step` does, and keeps the invariants |
| `SnakeGame.Game.GameOver` | game.js:818-819 | Sets the game-over flag and nothing else |
| `SnakeGame.Game.Restart` | game.js:833-869 | Updates the fields as `Restarted` does: score 0, running, +x, fresh snake and food, queue kept |
| `Intended.DoubleTurnReversesIntoNeck` | game.js:597-626 | As written: from the start, W then S within one tick are both accepted; the next two ticks move +y then -y, and the second ends the game on the neck |
| `Intended.CornerCrashLeavesTurnQueued` | game.js:691-727 | As written: a snake heading +z at (4,7,7) queues W and Left; the +y tick leaves the grid and ends the game with -x still queued |
| `Intended.FreshSnakeTurningBackDies` | game.js:731-765 | A fresh snake whose next turn is -x hits its second segment on the first tick |
| `Intended.RestartReplaysStaleTurn` | game.js:833-869 | As written: a game that ended with -x queued restarts heading +x with the queue kept, and its first tick reverses into the body |
| `Intended.GuardRefusesReversal` | game.js:599-603 | The corrected guard never accepts the negation of the last queued turn |
| `Intended.QueueChangeGuarded` | game.js:597-626 | For axis directions, the corrected `queueDirectionChange` accepts a turn exactly when it neither reverses nor repeats the last queued turn, and appends an accepted turn at the back of the queue |
| `Intended.EnqueueKeepsNoReversal` | game.js:613-620 | Appending a turn that does not reverse the last queued one keeps every pending turn from reversing its predecessor |
| `Intended.GuardedQueueKeepsNoReversal` | game.js:597-626 | With the corrected guard, no pending turn ever reverses the one before it |
| `Intended.StepKeepsNoReversal` | game.js:691-697 | A tick keeps that invariant |
| `Intended.StepNeverReverses` | game.js:691-697 | Under that invariant a tick never sets `direction` to the negation of the previous one |
| `Intended.RestartedClearing` | game.js:833-869 | The corrected restart gives exactly a start state: empty queue, score 0, running, both directions +x, with the fresh snake and the food that `restartGame` gives |
| `Intended.RestartClearingKeeps` | game.js:833-869 | The corrected restart gives a state with all invariants and no pending reversal |
| `Intended.RestartClearingFirstTickSafe` | game.js:833-869 | After the corrected restart, the first tick moves +x and never ends the game |
| `Intended.ApplyGuardedKeeps` | game.js:597-626 | Turns, ticks and restarts of the corrected game keep the invariants and the no-pending-reversal invariant |
| `Intended.GuardedPlayNeverReverses` | game.js:597-626 | With both corrections, after any turns, ticks and restarts from a start state, the next tick of a running game never turns straight back |
| `Intended.InitialHasNoPendingReversal` | game.js:381-409 | A newly started game satisfies the invariant of the corrected logic |

## Left out

- Rendering through Three.js is left out: the scene, camera, meshes, grid and axis drawing, `animate` and `handleResize`.
- DOM work is left out: instructions, the score board and game-over screen text, the mobile button construction and styling, including `hexToRgb`.
- The mobile branch is left out: position clamping, distance-tolerance collision and eating checks, pinch-to-zoom scaling. All of it is floating-point logic, and the model follows the desktop branch.
- Mobile direction buttons are left out. They call `queueDirectionChange` directly with the six axis vectors, even while the game is over.
- `UNIT_SIZE` scaling is left out. Positions are integer cells, and arithmetic is exact. The source works in IEEE doubles, and on the desktop this differs from the model. There, a head position is a running sum of `± 0.95` steps from 3.8, while a food position is the product `k × 0.95`. Walking from 3.8 reaches one value per column, and it equals `k × 0.95` only for columns 3, 4 and 5. Column 1 is reached as 0.9499999999999997, not 0.95; columns 0, 2, 6 and 7 differ the same way. So on the desktop, food with any coordinate outside {3, 4, 5} is never eaten, while in the model every food cell can be. The overlap test of `createFood` compares the same walked positions with the products `k × 0.95`, so it misses segments in columns 0–2 and 6–7. For example, a segment walked to column 1 has x = 0.9499999999999997 while the food draw has x = 0.95. So the source can place food under the snake, which the model rules out.
- Timers are left out: `setInterval`/`clearInterval` in `init`, `gameOver` and `restartGame`, and `lastMoveTime`. One tick is one call of `MoveSnake`.
- `Date.now` and touch coordinates are parameters. Touch coordinates are whole pixels here, while the browser may report fractional ones.
- `handleTouchStart` is not a method. It only records the touch start, which `HandleTouchEnd` takes as a parameter.
- `Math.random` in `createFood` is replaced by a finite sequence of drawn cells, each inside the grid as `Math.floor(Math.random() * GRID_SIZE)` guarantees.
- SnakeGame.Game.CreateFood: the source loops until a draw is free, and never ends when the grid is full. The model stops when the supplied draws run out. It then reports `placed == false` and keeps the old food, so "food is off the snake" is promised only when a draw was free.
- SnakeGame.Game.constructor: requires a free cell among the draws, which is the condition under which the source's first `createFood` returns.
- `MIN_SWIPE_INTERVAL`, `lastSwipeTime`, `QUICK_RESPONSE_DELAY` and `GRID_UNITS` are declared in the source but never used by the logic.

## Findings

| source | as written | input that shows it | evidently intended | confidence | as-written member | corrected member |
|---|---|---|---|---|---|---|
| game.js:598-603 | The reversal guard compares a new turn with `direction`, the direction of the last move, although the turn is applied only after every turn already queued | From the start (heading +x), press W then S before the next tick: both are queued, the ticks move +y then -y, and the second runs into the neck | Refuse a turn that reverses the last queued turn, so that no tick turns the snake straight back | medium; not executed | `Intended.DoubleTurnReversesIntoNeck` | `Intended.QueueChangeGuarded`, with `Intended.GuardedPlayNeverReverses` proved about it |
| game.js:833-869 | `restartGame` resets the directions to +x but keeps `directionQueue`, so a turn queued before the game ended is applied by the first tick of the new game | Heading +z at (4,7,7), press W then Left within one tick: +y leaves the grid, -x stays queued, and after Enter the first tick moves -x into the second segment | Clear the queue on restart so that the new game starts heading +x | medium; not executed | `Intended.RestartReplaysStaleTurn` | `Intended.RestartedClearing`, with `Intended.RestartClearingFirstTickSafe` proved about it |

Class `SnakeGame.Game` and module `Rules` model the code as written. The corrected definitions live in
module `Intended`. The proof that no tick reverses the snake needs both corrections together. With only the
corrected guard, a stale queued turn still reverses the fresh snake after a restart.
