/**
  Grid cells and the ray between two of them.

  The ray is defined without reference to any loop: along the longer axis it moves one cell at a
  time, and along the shorter axis it takes the nearest cell to the ideal line, halves rounded
  towards the first end point.  The incremental Bresenham state (x, y, err) that the occupancy map
  keeps in its two ray loops is shown to walk exactly these cells.
*/
module GridRay {

  datatype Cell = Cell(x: int, y: int)

  function Abs(a: int): int {
    if a < 0 then -a else a
  }

  function Max(a: int, b: int): int {
    if a < b then b else a
  }

  function Min(a: int, b: int): int {
    if a < b then a else b
  }

  /** Direction of travel along one axis; an axis without travel counts as backwards. */
  function Sign(from: int, to: int): int {
    if from < to then 1 else -1
  }

  function DeltaX(a: Cell, b: Cell): int {
    Abs(b.x - a.x)
  }

  function DeltaY(a: Cell, b: Cell): int {
    Abs(b.y - a.y)
  }

  /** Number of steps from `a` to `b`: the Chebyshev distance. */
  function RaySteps(a: Cell, b: Cell): int {
    Max(DeltaX(a, b), DeltaY(a, b))
  }

  /** r is num / den rounded to the nearest integer, halves down. */
  ghost predicate IsRounded(num: int, den: int, r: int) {
    -den <= 2 * (r * den - num) < den
  }

  lemma RoundingExists(num: int, den: int)
    requires num >= 0 && den > 0
    ensures exists r :: r >= 0 && IsRounded(num, den, r)
  {
    var n, d := 2 * num + den - 1, 2 * den;
    var r := n / d;
    assert n == d * r + n % d;
    assert d * r == 2 * (r * den);
    assert IsRounded(num, den, r);
  }

  ghost function RoundHalfDown(num: int, den: int): (r: int)
    requires num >= 0 && den > 0
    ensures r >= 0 && IsRounded(num, den, r)
  {
    RoundingExists(num, den);
    var r :| r >= 0 && IsRounded(num, den, r);
    r
  }

  lemma MulLess(a: int, b: int, m: int)
    requires a < b && m >= 0
    ensures a * m + m <= b * m
  {
    assert (b - a - 1) * m >= 0;
  }

  lemma RoundHalfDownUnique(num: int, den: int, r: int)
    requires num >= 0 && den > 0 && IsRounded(num, den, r)
    ensures r == RoundHalfDown(num, den)
  {
    var q := RoundHalfDown(num, den);
    if r < q {
      MulLess(r, q, den);
    } else if q < r {
      MulLess(q, r, den);
    }
  }

  /** How far along each axis the ray has come after `k` steps. */
  ghost function RayOffset(dx: int, dy: int, k: nat): (o: (int, int))
    requires dx >= 0 && dy >= 0
    ensures o.0 >= 0 && o.1 >= 0
  {
    if dx == 0 && dy == 0 then (0, 0)
    else if dx >= dy then (k, RoundHalfDown(k * dy, dx))
    else (RoundHalfDown(k * dx, dy), k)
  }

  /** The k-th cell of the ray from `a` to `b`. */
  ghost function RayCell(a: Cell, b: Cell, k: nat): Cell {
    var (i, j) := RayOffset(DeltaX(a, b), DeltaY(a, b), k);
    Cell(a.x + Sign(a.x, b.x) * i, a.y + Sign(a.y, b.y) * j)
  }

  /** The error term of the loop at offset (i, j). */
  function RayError(dx: int, dy: int, i: int, j: int): int {
    j * dx - i * dy + dx - dy
  }

  /** The incremental state of the ray loop after `k` steps. */
  ghost predicate RayState(a: Cell, b: Cell, k: nat, x: int, y: int, err: int) {
    var dx, dy := DeltaX(a, b), DeltaY(a, b);
    var (i, j) := RayOffset(dx, dy, k);
    && Cell(x, y) == RayCell(a, b, k)
    && err == RayError(dx, dy, i, j)
  }

  /** The error after `k` steps along the longer axis, seen from that axis. */
  ghost function MajorError(major: int, minor: int, k: nat): int
    requires 0 <= minor <= major && 0 < major
  {
    RoundHalfDown(k * minor, major) * major - k * minor + major - minor
  }

  lemma MulSucc(a: int, m: int)
    ensures (a + 1) * m == a * m + m
  {
  }

  /** Rounding advances exactly when the error says so, and the longer axis always moves. */
  lemma RoundStep(major: int, minor: int, k: nat)
    requires 0 <= minor <= major && 0 < major
    ensures 2 * MajorError(major, minor, k) > -minor
    ensures RoundHalfDown((k + 1) * minor, major)
            == RoundHalfDown(k * minor, major) + if 2 * MajorError(major, minor, k) < major then 1 else 0
  {
    var r := RoundHalfDown(k * minor, major);
    if minor == major {
      RoundHalfDownUnique(k * minor, major, k);
    }
    MulSucc(k, minor);
    MulSucc(r, major);
    RoundHalfDownUnique((k + 1) * minor, major, if 2 * MajorError(major, minor, k) < major then r + 1 else r);
  }

  /** One turn of the loop: the axes that move, and the error term that results. */
  ghost predicate RayTurn(dx: int, dy: int, k: nat)
    requires dx >= 0 && dy >= 0
  {
    var (i, j) := RayOffset(dx, dy, k);
    var err := RayError(dx, dy, i, j);
    var i' := if 2 * err > -dy then i + 1 else i;
    var j' := if 2 * err < dx then j + 1 else j;
    && (i', j') == RayOffset(dx, dy, k + 1)
    && RayError(dx, dy, i', j') == err + (if 2 * err > -dy then -dy else 0) + (if 2 * err < dx then dx else 0)
  }

  lemma ErrorStep(dx: int, dy: int, i: int, j: int)
    ensures RayError(dx, dy, i + 1, j) == RayError(dx, dy, i, j) - dy
    ensures RayError(dx, dy, i, j + 1) == RayError(dx, dy, i, j) + dx
    ensures RayError(dx, dy, i + 1, j + 1) == RayError(dx, dy, i, j) - dy + dx
  {
    MulSucc(j, dx);
    MulSucc(i, dy);
  }

  lemma RayDecision(dx: int, dy: int, k: nat)
    requires dx >= 0 && dy >= 0 && k < Max(dx, dy)
    ensures RayTurn(dx, dy, k)
  {
    var (i, j) := RayOffset(dx, dy, k);
    ErrorStep(dx, dy, i, j);
    if dx >= dy {
      RoundStep(dx, dy, k);
      assert RayError(dx, dy, i, j) == MajorError(dx, dy, k);
    } else {
      RoundStep(dy, dx, k);
      assert RayError(dx, dy, i, j) == -MajorError(dy, dx, k);
    }
  }

  lemma RayStarts(a: Cell, b: Cell)
    ensures RayState(a, b, 0, a.x, a.y, DeltaX(a, b) - DeltaY(a, b))
  {
    var dx, dy := DeltaX(a, b), DeltaY(a, b);
    if dx >= dy && dx > 0 {
      RoundHalfDownUnique(0, dx, 0);
    } else if dy > 0 {
      RoundHalfDownUnique(0, dy, 0);
    }
  }

  /** One turn of the Bresenham loop moves from the k-th cell of the ray to the next one. */
  lemma RayAdvances(a: Cell, b: Cell, k: nat, x: int, y: int, err: int)
    requires RayState(a, b, k, x, y, err)
    requires k < RaySteps(a, b)
    ensures
      var dx, dy := DeltaX(a, b), DeltaY(a, b);
      var moveX, moveY := 2 * err > -dy, 2 * err < dx;
      RayState(a, b, k + 1,
               if moveX then x + Sign(a.x, b.x) else x,
               if moveY then y + Sign(a.y, b.y) else y,
               err + (if moveX then -dy else 0) + (if moveY then dx else 0))
  {
    RayDecision(DeltaX(a, b), DeltaY(a, b), k);
  }

  /** The ray reaches its target after exactly RaySteps(a, b) steps and not before. */
  lemma RayReachesTarget(a: Cell, b: Cell, k: nat)
    requires k <= RaySteps(a, b)
    ensures RayCell(a, b, k) == b <==> k == RaySteps(a, b)
  {
    var dx, dy := DeltaX(a, b), DeltaY(a, b);
    if dx >= dy && dx > 0 {
      assert dx * dy == dy * dx;
      RoundHalfDownUnique(dx * dy, dx, dy);
    } else if dy > 0 {
      assert dx * dy == dy * dx;
      RoundHalfDownUnique(dy * dx, dy, dx);
    }
  }

  /** Consecutive cells of a ray are distinct and touch, by an edge or by a corner. */
  lemma RayIsConnected(a: Cell, b: Cell, k: nat)
    requires k < RaySteps(a, b)
    ensures RaySteps(RayCell(a, b, k), RayCell(a, b, k + 1)) == 1
  {
    RayDecision(DeltaX(a, b), DeltaY(a, b), k);
  }

  /** Cross product of the offset reached with the whole offset: zero exactly on the ideal line. */
  function LineDeviation(a: Cell, b: Cell, c: Cell): int {
    (c.y - a.y) * (b.x - a.x) - (c.x - a.x) * (b.y - a.y)
  }

  /** No cell of a ray is further than half a cell from the ideal line, measured along the shorter axis. */
  lemma RayIsStraight(a: Cell, b: Cell, k: nat)
    requires k <= RaySteps(a, b)
    ensures 2 * Abs(LineDeviation(a, b, RayCell(a, b, k))) <= RaySteps(a, b)
  {
    var dx, dy := DeltaX(a, b), DeltaY(a, b);
    var (i, j) := RayOffset(dx, dy, k);
    var sx, sy := Sign(a.x, b.x), Sign(a.y, b.y);
    SignedCross(sx, sy, i, j, dx, dy);
    assert 2 * Abs(j * dx - i * dy) <= Max(dx, dy);
  }

  lemma SignedCross(sx: int, sy: int, i: int, j: int, dx: int, dy: int)
    requires (sx == 1 || sx == -1) && (sy == 1 || sy == -1)
    ensures Abs((sy * j) * (sx * dx) - (sx * i) * (sy * dy)) == Abs(j * dx - i * dy)
  {
  }

  /** The ray between two touching cells consists of just these two. */
  lemma RayBetweenNeighbours(a: Cell, b: Cell, k: nat)
    requires k <= RaySteps(a, b) <= 1
    ensures RayCell(a, b, k) == a || RayCell(a, b, k) == b
  {
    if k == 0 {
      RayStarts(a, b);
    } else {
      RayReachesTarget(a, b, k);
    }
  }
}
