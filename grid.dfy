/** Cells and direction vectors of the game's 8 x 8 x 8 volume.

    The game stores a position as a cell index times UNIT_SIZE, and on the desktop compares positions by exact
    equality; the model keeps the integer cell index (x, y, z) instead of the scaled position. */
module Grid {

  /** A cell of the grid, or a direction vector. */
  datatype Vec = Vec(x: int, y: int, z: int)

  type Cell = Vec

  /** Number of cells along each axis (GRID_SIZE). */
  const GRID_SIZE: int := 8

  /** The six directions the snake can take: along the red x axis, the green y axis and the blue z axis. */
  const PosX: Vec := Vec(1, 0, 0)
  const NegX: Vec := Vec(-1, 0, 0)
  const PosY: Vec := Vec(0, 1, 0)
  const NegY: Vec := Vec(0, -1, 0)
  const PosZ: Vec := Vec(0, 0, 1)
  const NegZ: Vec := Vec(0, 0, -1)

  predicate IsUnitAxis(v: Vec) {
    v == PosX || v == NegX || v == PosY || v == NegY || v == PosZ || v == NegZ
  }

  function Add(a: Vec, b: Vec): Vec {
    Vec(a.x + b.x, a.y + b.y, a.z + b.z)
  }

  function Neg(v: Vec): Vec {
    Vec(-v.x, -v.y, -v.z)
  }

  /** The cells the snake may occupy: 0 <= c < GRID_SIZE on every axis. */
  predicate InGrid(c: Cell) {
    0 <= c.x < GRID_SIZE && 0 <= c.y < GRID_SIZE && 0 <= c.z < GRID_SIZE
  }

  /** A cell that the random food placement can produce. */
  type GridCell = c: Cell | InGrid(c) witness Vec(0, 0, 0)

  /** Two cells one unit step apart along one axis. */
  predicate Adjacent(a: Cell, b: Cell) {
    IsUnitAxis(Vec(b.x - a.x, b.y - a.y, b.z - a.z))
  }

  /** The desktop boundary test on one coordinate, multiplied through by 4 / UNIT_SIZE: a coordinate is
      rejected below -UNIT_SIZE / 4 or above GRID_SIZE * UNIT_SIZE - UNIT_SIZE / 2. */
  predicate BeyondEdge(c: int) {
    4 * c < -1 || 4 * c > 4 * GRID_SIZE - 2
  }

  /** The head position test of the move step; on integer cells it is exactly "outside the grid". */
  predicate OutOfBounds(p: Cell): (r: bool)
    ensures r <==> !InGrid(p)
  {
    BeyondEdge(p.x) || BeyondEdge(p.y) || BeyondEdge(p.z)
  }

  /** The test that refuses a turn "directly backwards": some nonzero component of `current` appears negated
      in `next`. For the six axis directions this is exactly `next == Neg(current)`. */
  predicate IsReversal(current: Vec, next: Vec): (r: bool)
    ensures r && IsUnitAxis(current) ==> next != current
  {
    || (current.x != 0 && next.x == -current.x)
    || (current.y != 0 && next.y == -current.y)
    || (current.z != 0 && next.z == -current.z)
  }

  lemma ReversalIsNegation(current: Vec, next: Vec)
    requires IsUnitAxis(current) && IsUnitAxis(next)
    ensures IsReversal(current, next) <==> next == Neg(current)
  {
    if current == PosX || current == NegX {
      assert current.y == 0 && current.z == 0;
    } else if current == PosY || current == NegY {
      assert current.x == 0 && current.z == 0;
    } else {
      assert current.x == 0 && current.y == 0;
    }
  }

  /** No axis direction is its own reverse. */
  lemma AxisIsNotOwnReverse(v: Vec)
    requires IsUnitAxis(v)
    ensures v != Neg(v)
  {
    assert v.x != 0 || v.y != 0 || v.z != 0;
  }

  /** A step along an axis direction lands on an adjacent cell. */
  lemma StepIsAdjacent(c: Cell, d: Vec)
    requires IsUnitAxis(d)
    ensures Adjacent(c, Add(c, d))
  {
    assert Vec(Add(c, d).x - c.x, Add(c, d).y - c.y, Add(c, d).z - c.z) == d;
  }
}
