/** The two input classifiers of the game: the keyboard switch of handleKeyPress and the swipe classification
    of handleTouchEnd. Both map an input to one of the six axis directions, or to nothing. */
module Controls {
  import opened Wrappers
  import opened Grid

  /** Direction for a key: Left/Right arrows move along x, W/S (either case) along y, Up/Down arrows along z
      (ArrowUp is into the screen, -z). Every other key, Enter included, gives none. */
  function KeyDirection(key: string): (r: Option<Vec>)
    ensures r.Some? ==> IsUnitAxis(r.value)
    ensures r.Some? && r.value.x != 0 ==> key == "ArrowLeft" || key == "ArrowRight"
    ensures r.Some? && r.value.y != 0 ==> key in {"w", "W", "s", "S"}
    ensures r.Some? && r.value.z != 0 ==> key == "ArrowUp" || key == "ArrowDown"
  {
    if key == "ArrowLeft" then Some(NegX)
    else if key == "ArrowRight" then Some(PosX)
    else if key == "w" || key == "W" then Some(PosY)
    else if key == "s" || key == "S" then Some(NegY)
    else if key == "ArrowUp" then Some(NegZ)
    else if key == "ArrowDown" then Some(PosZ)
    else None
  }

  /** Every one of the six axis directions can be chosen from the keyboard. */
  lemma EveryAxisHasAKey(d: Vec)
    requires IsUnitAxis(d)
    ensures exists key :: KeyDirection(key) == Some(d)
  {
    if d == NegX {
      assert KeyDirection("ArrowLeft") == Some(d);
    } else if d == PosX {
      assert KeyDirection("ArrowRight") == Some(d);
    } else if d == PosY {
      assert KeyDirection("w") == Some(d);
    } else if d == NegY {
      assert KeyDirection("s") == Some(d);
    } else if d == NegZ {
      assert KeyDirection("ArrowUp") == Some(d);
    } else {
      assert KeyDirection("ArrowDown") == Some(d);
    }
  }

  /** The two keys of one axis give opposite directions, ArrowRight, w and ArrowDown the positive ones, and
      W/S ignore letter case. */
  lemma PairedKeysAreOpposite()
    ensures KeyDirection("ArrowRight") == Some(PosX) && KeyDirection("w") == Some(PosY)
    ensures KeyDirection("ArrowDown") == Some(PosZ) && KeyDirection("ArrowUp") == Some(NegZ)
    ensures KeyDirection("ArrowLeft") == Some(Neg(KeyDirection("ArrowRight").value))
    ensures KeyDirection("s") == Some(Neg(KeyDirection("w").value))
    ensures KeyDirection("ArrowUp") == Some(Neg(KeyDirection("ArrowDown").value))
    ensures KeyDirection("W") == KeyDirection("w") && KeyDirection("S") == KeyDirection("s")
  {
  }

  /** Where a touch started or ended, in whole pixels, and when, in milliseconds. */
  datatype Touch = Touch(x: int, y: int, time: int)

  const MIN_SWIPE_DISTANCE: int := 20
  const MAX_SWIPE_TIME: int := 600

  function Abs(n: int): nat {
    if n < 0 then -n else n
  }

  function Sign(n: int): int {
    if n > 0 then 1 else if n < 0 then -1 else 0
  }

  /** A swipe that is too slow, or too short on both axes, is ignored. */
  predicate Ignored(dx: int, dy: int, dt: int) {
    dt > MAX_SWIPE_TIME || (Abs(dx) < MIN_SWIPE_DISTANCE && Abs(dy) < MIN_SWIPE_DISTANCE)
  }

  /** The classification of a swipe with displacement (dx, dy) on screen (y grows downwards) taking dt ms.
      "|a| > |b| * 1.5" is written over the integers as 2 * |a| > 3 * |b|. */
  function SwipeDirection(dx: int, dy: int, dt: int): (r: Option<Vec>)
    ensures r.None? <==> Ignored(dx, dy, dt)
    ensures r.Some? ==> IsUnitAxis(r.value)
  {
    if Ignored(dx, dy, dt) then None
    else if 2 * Abs(dx) > 3 * Abs(dy) then
      Some(if dx > 0 then PosX else NegX)
    else if 2 * Abs(dy) > 3 * Abs(dx) then
      Some(if dy < 0 then PosY else NegY)
    else if (dy < 0 && dx > 0) || (dy > 0 && dx < 0) then
      Some(NegZ)
    else
      Some(PosZ)
  }

  /** What each classified direction means: x when the horizontal distance dominates by more than 1.5, with
      the sign of dx; y when the vertical one does, against the sign of dy (an upward swipe is +y); z when
      neither dominates, in which case both distances are nonzero, and -z exactly when they have opposite
      signs. */
  lemma SwipeClassification(dx: int, dy: int, dt: int, v: Vec)
    requires SwipeDirection(dx, dy, dt) == Some(v)
    ensures v.x != 0 <==> 2 * Abs(dx) > 3 * Abs(dy)
    ensures v.x != 0 ==> v.x == Sign(dx)
    ensures v.y != 0 <==> 2 * Abs(dy) > 3 * Abs(dx)
    ensures v.y != 0 ==> v.y == -Sign(dy)
    ensures v.z != 0 ==> dx != 0 && dy != 0
    ensures v.z == -1 <==> v.z != 0 && Sign(dx) == -Sign(dy)
  {
    if 2 * Abs(dx) > 3 * Abs(dy) {
      assert dx != 0;
    } else if 2 * Abs(dy) > 3 * Abs(dx) {
      assert dy != 0;
    } else {
      assert Abs(dx) >= MIN_SWIPE_DISTANCE || Abs(dy) >= MIN_SWIPE_DISTANCE;
      assert dx != 0 && dy != 0;
    }
  }

  /** Swiping the opposite way reverses an x or y direction but keeps a z direction: the two diagonals of one
      line give the same z. */
  lemma ReversedSwipe(dx: int, dy: int, dt: int)
    ensures SwipeDirection(-dx, -dy, dt) ==
      match SwipeDirection(dx, dy, dt)
      case None => None
      case Some(v) => Some(Vec(-v.x, -v.y, v.z))
  {
    assert Abs(-dx) == Abs(dx) && Abs(-dy) == Abs(dy);
  }

  /** handleTouchEnd's classification from the stored touch start (none if no touch started) and the touch
      end. A start coordinate of 0 counts as "no start registered", as the source tests it for falsiness. */
  function Swipe(start: Option<Touch>, end: Touch): (r: Option<Vec>)
    ensures r.Some? ==> IsUnitAxis(r.value)
    ensures r.Some? ==> start.Some? && start.value.x != 0 && start.value.y != 0
    ensures r.Some? ==> end.time - start.value.time <= MAX_SWIPE_TIME
    ensures start.Some? && start.value.x != 0 && start.value.y != 0 ==>
      (r.None? <==> Ignored(end.x - start.value.x, end.y - start.value.y, end.time - start.value.time))
  {
    if start.None? || start.value.x == 0 || start.value.y == 0 then None
    else SwipeDirection(end.x - start.value.x, end.y - start.value.y, end.time - start.value.time)
  }
}
