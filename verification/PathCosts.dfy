/**
  What the search minimises: the cost of a legal path is the length of the way through the centres
  of its cells.
*/
module PathCosts {
  import opened GridRay
  import opened GridSearch
  import opened OccupancyGrid
  import opened AStar

  /** Cells as points, a resolution apart. */
  function Centre(c: Cell, resolution: real): Point {
    Point(c.x as real * resolution, c.y as real * resolution)
  }

  function Centres(p: seq<Cell>, resolution: real): (w: seq<Point>)
    ensures |w| == |p|
  {
    seq(|p|, i requires 0 <= i < |p| => Centre(p[i], resolution))
  }

  lemma RootIsUnique(a: real, b: real)
    requires a >= 0.0 && b >= 0.0 && a * a == b * b
    ensures a == b
  {
    AbsLeqFromSquares(a, b);
    AbsLeqFromSquares(b, a);
  }

  /** A difference of -1, 0 or 1 times the resolution, squared. */
  lemma OffsetSquared(x: int, y: int, resolution: real, d: real)
    requires -1 <= y - x <= 1 && d == y as real * resolution - x as real * resolution
    ensures d * d == if x == y then 0.0 else resolution * resolution
  {
    if y == x + 1 {
      OneApart(x as real, y as real, resolution);
      assert d == resolution;
    } else if x == y + 1 {
      OneApart(y as real, x as real, resolution);
      assert d == -resolution;
    }
  }

  lemma OneApart(x: real, y: real, r: real)
    requires y == x + 1.0
    ensures y * r == x * r + r
  {
  }

  lemma DiagonalSquared(sqrt2: real, resolution: real, d: real)
    requires sqrt2 * sqrt2 == 2.0 && d == sqrt2 * resolution
    ensures d * d == 2.0 * (resolution * resolution)
  {
    assert d * d == sqrt2 * sqrt2 * (resolution * resolution);
  }

  /** Steps between neighbours cost the distance of their centres. */
  ghost predicate Metric(pb: Problem, resolution: real, sqrt2: real) {
    && resolution > 0.0 && sqrt2 > 0.0 && sqrt2 * sqrt2 == 2.0
    && pb.straight == resolution && pb.diagonal == sqrt2 * resolution
  }

  lemma StepSquared(pb: Problem, resolution: real, sqrt2: real, a: Cell, b: Cell, c: real)
    requires Metric(pb, resolution, sqrt2) && RaySteps(a, b) == 1 && c == StepCost(pb, a, b)
    ensures c >= 0.0
    ensures c * c == (if a.x == b.x then 0.0 else resolution * resolution)
                   + (if a.y == b.y then 0.0 else resolution * resolution)
  {
    if a.x != b.x && a.y != b.y {
      DiagonalSquared(sqrt2, resolution, c);
      RealMulLess(0.0, sqrt2, resolution);
    }
  }

  lemma StepIsHypot(pb: Problem, resolution: real, sqrt2: real, a: Cell, b: Cell, d: real, e: real, c: real, h: real)
    requires Metric(pb, resolution, sqrt2) && RaySteps(a, b) == 1 && c == StepCost(pb, a, b)
    requires d == b.x as real * resolution - a.x as real * resolution
    requires e == b.y as real * resolution - a.y as real * resolution
    requires h >= 0.0 && h * h == d * d + e * e
    ensures c == h
  {
    OffsetSquared(a.x, b.x, resolution, d);
    OffsetSquared(a.y, b.y, resolution, e);
    StepSquared(pb, resolution, sqrt2, a, b, c);
    RootIsUnique(c, h);
  }

  lemma StepIsDistance(pb: Problem, resolution: real, sqrt2: real, hypot: (real, real) -> real, a: Cell, b: Cell)
    requires Metric(pb, resolution, sqrt2) && IsHypot(hypot) && RaySteps(a, b) == 1
    ensures StepCost(pb, a, b) == Segment(hypot, Centre(a, resolution), Centre(b, resolution))
  {
    var p, q := Centre(a, resolution), Centre(b, resolution);
    var d, e := q.x - p.x, q.y - p.y;
    StepIsHypot(pb, resolution, sqrt2, a, b, d, e, StepCost(pb, a, b), hypot(d, e));
  }

  /** The cost of a path is its length, however it winds. */
  lemma {:induction false} CostIsLength(pb: Problem, resolution: real, sqrt2: real, hypot: (real, real) -> real,
                                        p: seq<Cell>)
    requires Metric(pb, resolution, sqrt2) && IsHypot(hypot) && Moves(pb.free, p)
    ensures PathCost(pb, p) == PathLength(hypot, Centres(p, resolution))
    decreases |p|
  {
    if |p| > 1 {
      var n := |p| - 1;
      CostIsLength(pb, resolution, sqrt2, hypot, p[..n]);
      StepIsDistance(pb, resolution, sqrt2, hypot, p[n - 1], p[n]);
      assert Centres(p, resolution)[..n] == Centres(p[..n], resolution);
    }
  }
}
