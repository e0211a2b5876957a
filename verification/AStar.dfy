/**
  The A* planner: preflight checks, best-first search, path reconstruction, conversion to world
  coordinates, line-of-sight smoothing and the metric length of the result.
*/
module AStar {
  import opened Wrappers
  import opened GridRay
  import opened GridSearch
  import opened OccupancyGrid

  datatype PlannedPath = PlannedPath(waypoints: seq<Point>, totalDistance: real, expandedNodes: int, isSmoothed: bool)

  /** Outcome of the grid search: the cell path, its cost in metres and the number of cells expanded. */
  datatype Found = Found(path: seq<Cell>, cost: real, expanded: int)

  datatype Motion = Motion(dx: int, dy: int, cost: real)

  /** What is assumed of math.hypot: the non-negative root of the sum of squares. */
  ghost predicate IsHypot(hypot: (real, real) -> real) {
    forall dx, dy :: hypot(dx, dy) >= 0.0 && hypot(dx, dy) * hypot(dx, dy) == dx * dx + dy * dy
  }

  function Segment(hypot: (real, real) -> real, p: Point, q: Point): real {
    hypot(q.x - p.x, q.y - p.y)
  }

  function PathLength(hypot: (real, real) -> real, w: seq<Point>): real {
    if |w| <= 1 then 0.0 else PathLength(hypot, w[..|w| - 1]) + Segment(hypot, w[|w| - 2], w[|w| - 1])
  }

  // ---------------------------------------------------------------------
  // The octile heuristic
  // ---------------------------------------------------------------------

  /** The longer and the shorter of the two axis distances. */
  function Far(c: Cell, target: Cell): int {
    Max(Abs(c.x - target.x), Abs(c.y - target.y))
  }

  function Near(c: Cell, target: Cell): int {
    Min(Abs(c.x - target.x), Abs(c.y - target.y))
  }

  /** The cost of `n` steps of one kind. */
  ghost function Steps(n: int, unit: real): real
    decreases n
  {
    if n <= 0 then 0.0 else unit + Steps(n - 1, unit)
  }

  lemma {:induction false} StepsIsProduct(n: int, unit: real)
    requires n >= 0
    ensures Steps(n, unit) == n as real * unit
    decreases n
  {
    if n > 0 {
      StepsIsProduct(n - 1, unit);
      assert n as real * unit == (n - 1) as real * unit + unit;
    }
  }

  /** Octile distance: as many diagonal steps as the shorter distance allows, straight steps for the rest. */
  ghost function OctileSteps(straight: real, diagonal: real, far: int, near: int): real {
    Steps(far - near, straight) + Steps(near, diagonal)
  }

  ghost function Octile(straight: real, diagonal: real, c: Cell, target: Cell): real {
    OctileSteps(straight, diagonal, Far(c, target), Near(c, target))
  }

  lemma TwoKinds(v: real, straight: real, diagonal: real, rest: int, near: int)
    requires 0 <= near && 0 <= rest
    requires v == rest as real * straight + near as real * diagonal
    ensures v == Steps(rest, straight) + Steps(near, diagonal)
  {
    StepsIsProduct(rest, straight);
    StepsIsProduct(near, diagonal);
  }

  /** The closed formula that the planner evaluates. */
  function OctileFormula(sqrt2: real, resolution: real, far: real, near: real): real {
    (far + (sqrt2 - 1.0) * near) * resolution
  }

  lemma Regroup(sqrt2: real, resolution: real, far: real, near: real, rest: real)
    requires rest == far - near
    ensures OctileFormula(sqrt2, resolution, far, near) == rest * resolution + near * (sqrt2 * resolution)
  {
    assert far == rest + near;
    assert rest + near + (sqrt2 - 1.0) * near == rest + sqrt2 * near;
  }

  /** It is the cost of the straight and the diagonal steps. */
  lemma OctileFormulaIsSteps(sqrt2: real, resolution: real, diagonal: real, far: int, near: int)
    requires 0 <= near <= far && diagonal == sqrt2 * resolution
    ensures OctileFormula(sqrt2, resolution, far as real, near as real) == OctileSteps(resolution, diagonal, far, near)
  {
    Regroup(sqrt2, resolution, far as real, near as real, (far - near) as real);
    TwoKinds(OctileFormula(sqrt2, resolution, far as real, near as real), resolution, diagonal, far - near, near);
  }

  /** A move changes the longer and the shorter distance by at most one; a straight move not both upwards. */
  lemma MoveChangesDistance(a: Cell, b: Cell, target: Cell)
    requires RaySteps(a, b) == 1
    ensures
      var far, near := Far(a, target) - Far(b, target), Near(a, target) - Near(b, target);
      && -1 <= far <= 1 && -1 <= near <= 1
      && (a.x == b.x || a.y == b.y ==> far + near <= 1)
  {
  }

  /** Changing the number of steps by up to two. */
  lemma StepsNearby(n: int, m: int, unit: real)
    requires 0 <= n && 0 <= m && -2 <= n - m <= 2 && unit > 0.0
    ensures n == m + 2 ==> Steps(n, unit) == Steps(m, unit) + unit + unit
    ensures n == m + 1 ==> Steps(n, unit) == Steps(m, unit) + unit
    ensures n == m ==> Steps(n, unit) == Steps(m, unit)
    ensures n == m - 1 ==> Steps(n, unit) == Steps(m, unit) - unit
    ensures n == m - 2 ==> Steps(n, unit) == Steps(m, unit) - unit - unit
  {
  }

  /** The search problem posed by a grid: octile estimates towards `goal`. */
  ghost function GridProblem(free: set<Cell>, straight: real, diagonal: real, start: Cell, goal: Cell): Problem {
    Problem(free, start, straight, diagonal, c => Octile(straight, diagonal, c, goal))
  }

  /** A diagonal step costs more than one straight step and less than two. */
  lemma DiagonalBounds(sqrt2: real, resolution: real)
    requires sqrt2 > 0.0 && sqrt2 * sqrt2 == 2.0 && resolution > 0.0
    ensures resolution < sqrt2 * resolution < resolution + resolution
  {
    assert 1.0 < sqrt2 < 2.0;
    RealMulLess(1.0, sqrt2, resolution);
    RealMulLess(sqrt2, 2.0, resolution);
  }

  /** The octile heuristic never drops by more than the cost of a move, and is zero at the goal. */
  lemma OctileConsistent(free: set<Cell>, straight: real, diagonal: real, start: Cell, goal: Cell)
    requires 0.0 < straight < diagonal < straight + straight
    ensures Consistent(GridProblem(free, straight, diagonal, start, goal))
    ensures GridProblem(free, straight, diagonal, start, goal).h(goal) == 0.0
  {
    var pb := GridProblem(free, straight, diagonal, start, goal);
    forall a, b | RaySteps(a, b) == 1
      ensures pb.h(a) <= StepCost(pb, a, b) + pb.h(b)
    {
      OctileConsistentAt(straight, diagonal, a, b, goal);
    }
    OctileZero(straight, diagonal, goal, goal);
  }

  lemma {:induction false} StepsSign(n: int, unit: real)
    requires n >= 0 && unit > 0.0
    ensures Steps(n, unit) >= 0.0 && (Steps(n, unit) == 0.0 <==> n == 0)
    decreases n
  {
    if n > 0 {
      StepsSign(n - 1, unit);
    }
  }

  /** It is never negative, and zero at the goal only. */
  lemma OctileZero(straight: real, diagonal: real, c: Cell, goal: Cell)
    requires straight > 0.0 && diagonal > 0.0
    ensures Octile(straight, diagonal, c, goal) >= 0.0
    ensures Octile(straight, diagonal, c, goal) == 0.0 <==> c == goal
  {
    StepsSign(Far(c, goal) - Near(c, goal), straight);
    StepsSign(Near(c, goal), diagonal);
  }

  lemma OctileConsistentAt(straight: real, diagonal: real, a: Cell, b: Cell, goal: Cell)
    requires 0.0 < straight < diagonal < straight + straight
    requires RaySteps(a, b) == 1
    ensures Octile(straight, diagonal, a, goal)
            <= (if a.x != b.x && a.y != b.y then diagonal else straight) + Octile(straight, diagonal, b, goal)
  {
    MoveChangesDistance(a, b, goal);
    StepsNearby(Far(a, goal) - Near(a, goal), Far(b, goal) - Near(b, goal), straight);
    StepsNearby(Near(a, goal), Near(b, goal), diagonal);
  }

  // ---------------------------------------------------------------------
  // Length of a shortcut
  // ---------------------------------------------------------------------

  lemma AbsLeqFromSquares(x: real, y: real)
    requires x >= 0.0 && y >= 0.0 && x * x <= y * y
    ensures x <= y
  {
    if y < x {
      SquareLess(y, x);
    }
  }

  /** Cauchy-Schwarz: the scalar product is at most the product of the lengths. */
  lemma ScalarProduct(a: real, b: real, c: real, d: real, m: real, n: real)
    requires m >= 0.0 && n >= 0.0
    requires m * m == a * a + b * b && n * n == c * c + d * d
    ensures a * c + b * d <= m * n
  {
    var s, t := a * c + b * d, m * n;
    SquaresOfProducts(a, b, c, d, m, n);
    NonNegativeProduct(m, n);
    if s > t {
      SquareLess(t, s);
    }
  }

  lemma NonNegativeProduct(m: real, n: real)
    requires m >= 0.0 && n >= 0.0
    ensures m * n >= 0.0
  {
  }

  lemma SquaresOfProducts(a: real, b: real, c: real, d: real, m: real, n: real)
    requires m * m == a * a + b * b && n * n == c * c + d * d
    ensures (a * c + b * d) * (a * c + b * d) <= (m * n) * (m * n)
  {
    var cross := a * d - b * c;
    assert cross * cross >= 0.0;
    assert (m * n) * (m * n) == (m * m) * (n * n);
    assert (m * m) * (n * n) == (a * a + b * b) * (c * c + d * d);
    assert (a * a + b * b) * (c * c + d * d) == (a * c + b * d) * (a * c + b * d) + cross * cross;
  }

  lemma TriangleInequality(hypot: (real, real) -> real, p: Point, q: Point, r: Point)
    requires IsHypot(hypot)
    ensures Segment(hypot, p, r) <= Segment(hypot, p, q) + Segment(hypot, q, r)
  {
    var a, b, c, d := q.x - p.x, q.y - p.y, r.x - q.x, r.y - q.y;
    var m, n, h := hypot(a, b), hypot(c, d), hypot(r.x - p.x, r.y - p.y);
    ScalarProduct(a, b, c, d, m, n);
    assert r.x - p.x == a + c && r.y - p.y == b + d;
    SumOfSquares(a, b, c, d, m, n);
    assert h * h <= (m + n) * (m + n);
    AbsLeqFromSquares(h, m + n);
  }

  lemma SumOfSquares(a: real, b: real, c: real, d: real, m: real, n: real)
    requires m * m == a * a + b * b && n * n == c * c + d * d
    requires a * c + b * d <= m * n
    ensures (a + c) * (a + c) + (b + d) * (b + d) <= (m + n) * (m + n)
  {
    assert (a + c) * (a + c) + (b + d) * (b + d) == (a * a + b * b) + (c * c + d * d) + 2.0 * (a * c + b * d);
    assert (m + n) * (m + n) == m * m + n * n + 2.0 * (m * n);
  }

  /** No detour shortens the way. */
  ghost predicate Triangular(hypot: (real, real) -> real) {
    forall p, q, r :: Segment(hypot, p, r) <= Segment(hypot, p, q) + Segment(hypot, q, r)
  }

  lemma HypotTriangular(hypot: (real, real) -> real)
    requires IsHypot(hypot)
    ensures Triangular(hypot)
  {
    forall p, q, r
      ensures Segment(hypot, p, r) <= Segment(hypot, p, q) + Segment(hypot, q, r)
    {
      TriangleInequality(hypot, p, q, r);
    }
  }

  lemma LastSegment(hypot: (real, real) -> real, w: seq<Point>, k: nat)
    requires 0 < k < |w|
    ensures PathLength(hypot, w[..k + 1]) == PathLength(hypot, w[..k]) + Segment(hypot, w[k - 1], w[k])
  {
    assert w[..k + 1][..k] == w[..k];
  }

  /** Going straight from one waypoint to a later one is no longer than following the waypoints between. */
  lemma {:induction false} ShortcutNotLonger(hypot: (real, real) -> real, w: seq<Point>, i: nat, j: nat)
    requires Triangular(hypot) && i < j < |w|
    ensures PathLength(hypot, w[..i + 1]) + Segment(hypot, w[i], w[j]) <= PathLength(hypot, w[..j + 1])
    decreases j
  {
    LastSegment(hypot, w, j);
    if i + 1 < j {
      ShortcutNotLonger(hypot, w, i, j - 1);
      assert Segment(hypot, w[i], w[j]) <= Segment(hypot, w[i], w[j - 1]) + Segment(hypot, w[j - 1], w[j]);
    }
  }

  // ---------------------------------------------------------------------
  // Smoothing
  // ---------------------------------------------------------------------

  /** Strictly increasing waypoint indices from the first to the last. */
  ghost predicate AreHops(hops: seq<int>, n: int) {
    && |hops| > 0 && hops[0] == 0 && hops[|hops| - 1] == n - 1
    && Ascending(hops)
  }

  ghost predicate Ascending(hops: seq<int>) {
    forall i, j :: 0 <= i < j < |hops| ==> hops[i] < hops[j]
  }

  /** `out` visits exactly the waypoints named by `hops`. */
  ghost predicate Selects(out: seq<Point>, w: seq<Point>, hops: seq<int>) {
    && |out| == |hops|
    && forall k :: 0 <= k < |hops| ==> 0 <= hops[k] < |w| && out[k] == w[hops[k]]
  }

  lemma OneHopNotLonger(hypot: (real, real) -> real, w: seq<Point>, out: seq<Point>, i: nat, j: nat, k: nat)
    requires Triangular(hypot) && i < j < |w| && 0 < k < |out| && out[k - 1] == w[i] && out[k] == w[j]
    requires PathLength(hypot, out[..k]) <= PathLength(hypot, w[..i + 1])
    ensures PathLength(hypot, out[..k + 1]) <= PathLength(hypot, w[..j + 1])
  {
    ShortcutNotLonger(hypot, w, i, j);
    LastSegment(hypot, out, k);
  }

  lemma {:induction false} SmoothedNotLonger(hypot: (real, real) -> real, w: seq<Point>, out: seq<Point>,
                                             hops: seq<int>, k: nat)
    requires Triangular(hypot) && AreHops(hops, |w|) && Selects(out, w, hops) && k < |hops|
    ensures PathLength(hypot, out[..k + 1]) <= PathLength(hypot, w[..hops[k] + 1])
    decreases k
  {
    if k > 0 {
      var i, j := hops[k - 1], hops[k];
      SmoothedNotLonger(hypot, w, out, hops, k - 1);
      OneHopNotLonger(hypot, w, out, i, j, k);
    }
  }

  /** The list leads from `start` to `goal`. */
  predicate Joins(start: Point, goal: Point, w: seq<Point>) {
    |w| >= 2 && w[0] == start && w[|w| - 1] == goal
  }

  /**
    `w` is a subsequence of the raw waypoints with both ends kept, the raw list itself unless
    smoothed, and no longer.
  */
  ghost predicate Follows(hypot: (real, real) -> real, raw: seq<Point>, smooth: bool, w: seq<Point>) {
    && (!smooth ==> w == raw)
    && (exists hops :: AreHops(hops, |raw|) && Selects(w, raw, hops))
    && PathLength(hypot, w) <= PathLength(hypot, raw)
  }

  lemma HopsFollow(hypot: (real, real) -> real, raw: seq<Point>, smooth: bool, w: seq<Point>, hops: seq<int>)
    requires Triangular(hypot)
    requires AreHops(hops, |raw|) && Selects(w, raw, hops) && (!smooth ==> w == raw)
    ensures Follows(hypot, raw, smooth, w)
    ensures forall start, goal :: Joins(start, goal, raw) ==> Joins(start, goal, w)
  {
    SmoothedNotLonger(hypot, raw, w, hops, |hops| - 1);
    assert w[..|hops|] == w && raw[..|raw|] == raw;
  }

  class AStarPlanner {
    const gridMap: OccupancyGridMap
    const sqrt2: real
    const hypot: (real, real) -> real
    const motions: seq<Motion>

    ghost predicate Valid() {
      && gridMap.Shaped()
      && sqrt2 > 0.0 && sqrt2 * sqrt2 == 2.0
      && forall motion :: motion in motions <==> IsMotion(motion)
    }

    /** One of the eight unit steps, at its cost in cells. */
    predicate IsMotion(motion: Motion) {
      && -1 <= motion.dx <= 1 && -1 <= motion.dy <= 1 && !(motion.dx == 0 && motion.dy == 0)
      && motion.cost == if motion.dx != 0 && motion.dy != 0 then sqrt2 else 1.0
    }

    constructor (gridMap: OccupancyGridMap, sqrt2: real, hypot: (real, real) -> real)
      requires gridMap.Shaped() && sqrt2 > 0.0 && sqrt2 * sqrt2 == 2.0
      ensures Valid() && this.gridMap == gridMap && this.hypot == hypot
    {
      this.gridMap, this.sqrt2, this.hypot := gridMap, sqrt2, hypot;
      motions := [Motion(1, 0, 1.0), Motion(-1, 0, 1.0), Motion(0, 1, 1.0), Motion(0, -1, 1.0),
                  Motion(1, 1, sqrt2), Motion(1, -1, sqrt2), Motion(-1, 1, sqrt2), Motion(-1, -1, sqrt2)];
    }

    /** The search problem of one request. */
    ghost function ProblemFor(start: Cell, goal: Cell, includeInflated: bool): Problem
      requires gridMap.Shaped()
      reads gridMap.cells
    {
      GridProblem(gridMap.FreeCells(includeInflated), gridMap.resolution, sqrt2 * gridMap.resolution, start, goal)
    }

    /** `pb` is the search problem of a request for `goal`. */
    ghost predicate Poses(pb: Problem, goal: Cell) {
      && pb.straight == gridMap.resolution && pb.diagonal == sqrt2 * gridMap.resolution
      && pb == GridProblem(pb.free, pb.straight, pb.diagonal, pb.start, goal)
    }

    /** The estimate in metres, by the closed formula. */
    function Heuristic(c: Cell, target: Cell): real {
      OctileFormula(sqrt2, gridMap.resolution, Far(c, target) as real, Near(c, target) as real)
    }

    /** The estimate is the octile distance. */
    lemma HeuristicIsOctile(pb: Problem, c: Cell, target: Cell)
      requires Poses(pb, target)
      ensures Heuristic(c, target) == pb.h(c)
    {
      OctileFormulaIsSteps(sqrt2, pb.straight, pb.diagonal, Far(c, target), Near(c, target));
    }

    /** Extracting the least entry of the priority queue. */
    method HeapPop(open: seq<Entry>) returns (e: Entry, rest: seq<Entry>)
      requires open != []
      ensures e in open && forall o :: o in open ==> e.f < o.f || (e.f == o.f && e.count <= o.count)
      ensures multiset(open) == multiset(rest) + multiset{e}
      ensures |rest| == |open| - 1 && forall o :: o in open <==> o == e || o in rest
    {
      var best := 0;
      for i := 1 to |open|
        invariant 0 <= best < i
        invariant forall j :: 0 <= j < i ==>
          open[best].f < open[j].f || (open[best].f == open[j].f && open[best].count <= open[j].count)
      {
        if open[i].f < open[best].f || (open[i].f == open[best].f && open[i].count < open[best].count) {
          best := i;
        }
      }
      e, rest := open[best], open[..best] + open[best + 1..];
      assert open == open[..best] + [e] + open[best + 1..];
      assert forall o :: o in open <==> o in multiset(open);
      assert forall o :: o in rest <==> o in multiset(rest);
    }

    /** The grid's own test whether a motion out of a free cell is legal. */
    method IsLegal(curr: Cell, motion: Motion, includeInflated: bool) returns (legal: bool)
      requires gridMap.Shaped() && IsMotion(motion) && curr in gridMap.FreeCells(includeInflated)
      ensures legal <==> Move(gridMap.FreeCells(includeInflated), curr, Cell(curr.x + motion.dx, curr.y + motion.dy))
    {
      var dx, dy := motion.dx, motion.dy;
      var nbr := Cell(curr.x + dx, curr.y + dy);
      gridMap.FreeCellsMeaning(nbr, includeInflated);
      gridMap.FreeCellsMeaning(Cell(curr.x + dx, curr.y), includeInflated);
      gridMap.FreeCellsMeaning(Cell(curr.x, curr.y + dy), includeInflated);
      if !gridMap.InBounds(nbr) {
        return false;
      }
      if gridMap.IsGridOccupied(nbr, includeInflated) {
        return false;
      }
      if dx != 0 && dy != 0 {
        if gridMap.IsGridOccupied(Cell(curr.x + dx, curr.y), includeInflated)
           || gridMap.IsGridOccupied(Cell(curr.x, curr.y + dy), includeInflated) {
          return false;
        }
      }
      return true;
    }

    function Neighbour(c: Cell, motion: Motion): Cell {
      Cell(c.x + motion.dx, c.y + motion.dy)
    }

    /** The neighbours of a cell in the order of the motion table. */
    ghost function Neighbours(c: Cell): (nbrs: seq<Cell>)
      ensures |nbrs| == |motions|
    {
      seq(|motions|, i requires 0 <= i < |motions| => Neighbour(c, motions[i]))
    }

    lemma NeighboursComplete(c: Cell)
      requires Valid()
      ensures forall b :: RaySteps(c, b) == 1 ==> b in Neighbours(c)
    {
      forall b | RaySteps(c, b) == 1
        ensures b in Neighbours(c)
      {
        var motion := Motion(b.x - c.x, b.y - c.y, if b.x != c.x && b.y != c.y then sqrt2 else 1.0);
        assert IsMotion(motion);
        var k :| 0 <= k < |motions| && motions[k] == motion;
        assert Neighbours(c)[k] == b;
      }
    }

    /** The new score and queue priority that a legal motion offers. */
    method Score(ghost pb: Problem, curr: Cell, motion: Motion, goal: Cell, g: real) returns (tentative: real, f: real)
      requires gridMap.Shaped() && IsMotion(motion)
      requires Poses(pb, goal)
      ensures tentative == g + StepCost(pb, curr, Neighbour(curr, motion))
      ensures f == tentative + pb.h(Neighbour(curr, motion))
    {
      tentative := g + motion.cost * gridMap.resolution;
      HeuristicIsOctile(pb, Neighbour(curr, motion), goal);
      f := tentative + Heuristic(Neighbour(curr, motion), goal);
    }

    /** One turn of the inner loop. */
    method Relax(ghost pb: Problem, curr: Cell, motion: Motion, includeInflated: bool, goal: Cell, s: State,
                 counter: int)
      returns (s': State, counter': int)
      requires gridMap.Shaped() && IsMotion(motion)
      requires Poses(pb, goal) && pb.free == gridMap.FreeCells(includeInflated)
      requires curr in s.g && curr in pb.free
      ensures (s', counter') == RelaxMove(pb, s, curr, Neighbour(curr, motion), counter)
    {
      s', counter' := s, counter;
      var legal := IsLegal(curr, motion, includeInflated);
      if !legal {
        return;
      }
      var nbr := Neighbour(curr, motion);
      var tentative, f := Score(pb, curr, motion, goal, s.g[curr]);
      if nbr !in s.g || tentative < s.g[nbr] {
        counter' := counter + 1;
        s' := Improve(s, curr, nbr, tentative, f, counter');
      }
      RelaxMoveCases(pb, s, curr, nbr, tentative, counter);
    }

    /** The inner loop: relaxes the motions out of the cell just closed, in table order. */
    method Expand(ghost pb: Problem, curr: Cell, includeInflated: bool, goal: Cell, s: State, counter: int)
      returns (s': State, counter': int)
      requires Valid()
      requires Poses(pb, goal) && pb.free == gridMap.FreeCells(includeInflated)
      requires curr in s.g && curr in pb.free
      ensures (s', counter') == RelaxAll(pb, s, curr, Neighbours(curr), counter)
    {
      ghost var nbrs := Neighbours(curr);
      s', counter' := s, counter;
      var k := 0;
      while k < |motions|
        invariant 0 <= k <= |motions|
        invariant (s', counter') == RelaxAll(pb, s, curr, nbrs[..k], counter)
      {
        var nbr := Neighbour(curr, motions[k]);
        assert nbrs[..k + 1][..k] == nbrs[..k] && nbrs[k] == nbr;
        s', counter' := Relax(pb, curr, motions[k], includeInflated, goal, s', counter');
        k := k + 1;
      }
      assert nbrs[..k] == nbrs;
    }

    /**
      The search proper.  It returns nothing exactly when no legal path exists; otherwise the path
      it returns is legal, its cost is the final score of the goal, and no legal path is cheaper.
      Every expanded cell is free and expanded once.
    */
    method Search(start: Cell, goal: Cell, includeInflated: bool) returns (r: Option<Found>)
      requires Valid()
      requires start in gridMap.FreeCells(includeInflated) && goal in gridMap.FreeCells(includeInflated)
      ensures r.None? <==> !Reachable(gridMap.FreeCells(includeInflated), start, goal)
      ensures r.Some? ==>
                && IsShortest(ProblemFor(start, goal, includeInflated), goal, r.value.path)
                && r.value.cost == PathCost(ProblemFor(start, goal, includeInflated), r.value.path)
                && 0 < r.value.expanded <= |gridMap.FreeCells(includeInflated)|
    {
      ghost var pb := ProblemFor(start, goal, includeInflated);
      DiagonalBounds(sqrt2, gridMap.resolution);
      OctileConsistent(pb.free, pb.straight, pb.diagonal, start, goal);
      HeuristicIsOctile(pb, start, goal);
      var counter := 0;
      var s := StartState(start, 0.0 + Heuristic(start, goal));
      ghost var paths: Paths := map[start := [start]];
      InitialState(pb, 0.0 + Heuristic(start, goal));
      var expanded := 0;
      while s.open != []
        invariant SearchInvariant(pb, s, paths, s.closed)
        invariant goal !in s.closed
        invariant s.closed <= pb.free && expanded == |s.closed|
        invariant start in s.closed || (s.closed == {} && forall e :: e in s.open ==> e.cell == start)
        decreases pb.free - s.closed, |s.open|
      {
        ghost var before := s.closed;
        var e, rest := HeapPop(s.open);
        var curr := e.cell;
        ScoredIsFree(pb, s, paths);
        if curr in s.closed {
          SkipPreserves(pb, s, paths, e, rest);
          s := State(s.g, s.cameFrom, s.closed, rest);
          continue;
        }
        ClosePreserves(pb, s, paths, e, rest);
        s := State(s.g, s.cameFrom, s.closed + {curr}, rest);
        expanded := expanded + 1;
        InsertCardinality(before, curr);
        if curr == goal {
          SubsetCardinality(s.closed, pb.free);
          assert expanded == |s.closed| <= |pb.free|;
          ClosedGoalIsShortest(pb, s, paths, before, goal);
          var path := Reconstruct(pb, goal, s, paths);
          return Some(Found(path, s.g[goal], expanded));
        }
        NeighboursComplete(curr);
        paths := ExpandPreserves(pb, s, paths, before, curr, Neighbours(curr), counter);
        s, counter := Expand(pb, curr, includeInflated, goal, s, counter);
        assert curr in pb.free - before && curr !in pb.free - s.closed;
      }
      ExhaustedMeansUnreachable(pb, s, paths, goal);
      return None;
    }

    lemma InsertCardinality(a: set<Cell>, x: Cell)
      ensures x !in a ==> |a + {x}| == |a| + 1
    {
    }

    lemma SubsetCardinality(a: set<Cell>, b: set<Cell>)
      requires a <= b
      ensures |a| <= |b|
    {
      if a != {} {
        var x :| x in a;
        SubsetCardinality(a - {x}, b - {x});
      }
    }

    /** Walks the predecessors from the goal back to the start. */
    method Reconstruct(ghost pb: Problem, goal: Cell, s: State, ghost paths: Paths) returns (path: seq<Cell>)
      requires PathsAgree(pb, s, paths) && goal in s.g
      ensures goal in paths && path == paths[goal]
    {
      var curr := goal;
      path := [curr];
      while curr in s.cameFrom
        invariant curr in s.g && |path| > 0 && path[0] == curr
        invariant paths[goal] == paths[curr] + path[1..]
        decreases |paths[curr]|
      {
        assert ExtendsPredecessor(s, paths, curr);
        assert [curr] + path[1..] == path;
        assert paths[s.cameFrom[curr]] + ([curr] + path[1..]) == paths[curr] + path[1..];
        curr := s.cameFrom[curr];
        path := [curr] + path;
      }
      assert [pb.start] + path[1..] == path;
    }

    /** Cell centres for the inner cells, the exact requested points at both ends. */
    ghost function RawWaypoints(start: Point, goal: Point, path: seq<Cell>): (w: seq<Point>)
      requires |path| >= 2
      ensures |w| == |path|
    {
      seq(|path|, i requires 0 <= i < |path| =>
        if i == 0 then start else if i == |path| - 1 then goal else gridMap.GridToWorld(path[i]))
    }

    method ToWorld(start: Point, goal: Point, path: seq<Cell>) returns (w: seq<Point>)
      requires |path| >= 2
      ensures w == RawWaypoints(start, goal, path) && Joins(start, goal, w)
    {
      w := [start];
      for i := 1 to |path| - 1
        invariant |w| == i && w[0] == start
        invariant forall k :: 1 <= k < i ==> w[k] == gridMap.GridToWorld(path[k])
      {
        w := w + [gridMap.GridToWorld(path[i])];
      }
      w := w + [goal];
    }

    /** Line of sight between two waypoints of the list. */
    ghost predicate Sees(w: seq<Point>, i: int, j: int)
      requires gridMap.Shaped() && 0 <= i < |w| && 0 <= j < |w|
      reads gridMap.cells
    {
      HopClear(true, w[i], w[j])
    }

    /** From `i` the greedy choice is the furthest waypoint in sight, or the next one if none is. */
    ghost predicate IsFurthest(w: seq<Point>, i: int, j: int)
      requires gridMap.Shaped() && 0 <= i < |w|
      reads gridMap.cells
    {
      && i < j < |w|
      && (j == i + 1 || Sees(w, i, j))
      && forall k :: j < k < |w| ==> !Sees(w, i, k)
    }

    /** The inner loop of smoothing: tries the waypoints from the last one downwards. */
    method FurthestVisible(w: seq<Point>, currIdx: int, p0: Point) returns (furthest: int)
      requires gridMap.Shaped() && 0 <= currIdx < |w| - 1 && p0 == w[currIdx]
      ensures IsFurthest(w, currIdx, furthest)
    {
      furthest := |w| - 1;
      while furthest > currIdx + 1
        invariant currIdx < furthest < |w|
        invariant forall k :: furthest < k < |w| ==> !Sees(w, currIdx, k)
      {
        var clear := gridMap.IsLineClear(p0, w[furthest]);
        if clear {
          break;
        }
        furthest := furthest - 1;
      }
    }

    /** Every hop is greedy. */
    ghost predicate GreedyHops(w: seq<Point>, hops: seq<int>)
      requires gridMap.Shaped() && forall k :: 0 <= k < |hops| ==> 0 <= hops[k] < |w|
      reads gridMap.cells
    {
      forall k :: 0 < k < |hops| ==> IsFurthest(w, hops[k - 1], hops[k])
    }

    /** The waypoints w are chosen from the raw ones greedily: each is the furthest in sight of the one before. */
    ghost predicate ChosenGreedily(raw: seq<Point>, w: seq<Point>)
      requires gridMap.Shaped()
      reads gridMap.cells
    {
      exists hops :: AreHops(hops, |raw|) && Selects(w, raw, hops) && GreedyHops(raw, hops)
    }

    /** Every hop is a single step or in line of sight. */
    ghost predicate SafeHops(w: seq<Point>, hops: seq<int>)
      requires gridMap.Shaped() && forall k :: 0 <= k < |hops| ==> 0 <= hops[k] < |w|
      reads gridMap.cells
    {
      forall k :: 0 < k < |hops| ==> hops[k] == hops[k - 1] + 1 || Sees(w, hops[k - 1], hops[k])
    }

    /**
      Greedy line-of-sight smoothing.  The ghost result names the waypoints kept: the ends stay,
      the order stays, and every hop goes to the furthest waypoint in sight.
    */
    method SmoothPath(w: seq<Point>) returns (out: seq<Point>, ghost hops: seq<int>)
      requires gridMap.Shaped() && |w| >= 2
      ensures AreHops(hops, |w|) && Selects(out, w, hops)
      ensures SafeHops(w, hops)
      ensures |w| > 2 ==> GreedyHops(w, hops)
    {
      if |w| <= 2 {
        return w, [0, 1];
      }
      out, hops := [w[0]], [0];
      var currIdx := 0;
      while currIdx < |w| - 1
        invariant 0 <= currIdx < |w|
        invariant |hops| > 0 && hops[0] == 0 && hops[|hops| - 1] == currIdx
        invariant Ascending(hops) && Selects(out, w, hops)
        invariant GreedyHops(w, hops)
      {
        var furthest := FurthestVisible(w, currIdx, out[|out| - 1]);
        out, hops := out + [w[furthest]], hops + [furthest];
        currIdx := furthest;
      }
    }

    method CalculatePathDistance(w: seq<Point>) returns (dist: real)
      ensures dist == PathLength(hypot, w)
    {
      dist := 0.0;
      var i := 0;
      while i < |w| - 1
        invariant 0 <= i && (|w| > 0 ==> i < |w| && dist == PathLength(hypot, w[..i + 1]))
        invariant |w| == 0 ==> dist == 0.0
      {
        dist := dist + hypot(w[i + 1].x - w[i].x, w[i + 1].y - w[i].y);
        i := i + 1;
        assert w[..i + 1][..i] == w[..i];
      }
      if |w| > 0 {
        assert w[..i + 1] == w;
      }
    }

    /** Every grid cell on the straight line between two points is free. */
    ghost predicate HopClear(includeInflated: bool, p: Point, q: Point)
      requires gridMap.Shaped()
      reads gridMap.cells
    {
      RayClear(gridMap.FreeCells(includeInflated), gridMap.WorldToGrid(p), gridMap.WorldToGrid(q))
    }

    /** The waypoints can be visited one after the other in straight lines through free cells. */
    ghost predicate Walkable(includeInflated: bool, w: seq<Point>)
      requires gridMap.Shaped()
      reads gridMap.cells
    {
      |w| <= 1 || (Walkable(includeInflated, w[..|w| - 1]) && HopClear(includeInflated, w[|w| - 2], w[|w| - 1]))
    }

    lemma {:induction false} WalkableAt(includeInflated: bool, w: seq<Point>, i: nat)
      requires gridMap.Shaped() && Walkable(includeInflated, w) && i < |w| - 1
      ensures HopClear(includeInflated, w[i], w[i + 1])
      decreases |w|
    {
      if i < |w| - 2 {
        WalkableAt(includeInflated, w[..|w| - 1], i);
      }
    }

    /** Raw waypoints fall back into the cells of the path they came from. */
    lemma RawWaypointsInCells(start: Point, goal: Point, path: seq<Cell>, i: nat)
      requires gridMap.resolution > 0.0001 && |path| >= 2 && i < |path|
      requires path[0] == gridMap.WorldToGrid(start) && path[|path| - 1] == gridMap.WorldToGrid(goal)
      ensures gridMap.WorldToGrid(RawWaypoints(start, goal, path)[i]) == path[i]
    {
      gridMap.GridToWorldAndBack(path[i]);
    }

    lemma NeighboursClear(free: set<Cell>, c: Cell, d: Cell)
      requires Move(free, c, d)
      ensures RayClear(free, c, d)
    {
      forall k: nat | k <= RaySteps(c, d)
        ensures RayCell(c, d, k) in free
      {
        RayBetweenNeighbours(c, d, k);
      }
    }

    lemma {:induction false} RawWalkable(includeInflated: bool, start: Point, goal: Point, path: seq<Cell>, n: nat)
      requires gridMap.Shaped() && gridMap.resolution > 0.0001 && |path| >= 2 && n <= |path|
      requires IsPath(gridMap.FreeCells(includeInflated), gridMap.WorldToGrid(start), gridMap.WorldToGrid(goal), path)
      ensures Walkable(includeInflated, RawWaypoints(start, goal, path)[..n])
      decreases n
    {
      if n >= 2 {
        var w, free := RawWaypoints(start, goal, path), gridMap.FreeCells(includeInflated);
        RawWalkable(includeInflated, start, goal, path, n - 1);
        assert w[..n][..n - 1] == w[..n - 1];
        RawWaypointsInCells(start, goal, path, n - 2);
        RawWaypointsInCells(start, goal, path, n - 1);
        MoveAt(free, path, n - 2);
        NeighboursClear(free, path[n - 2], path[n - 1]);
      }
    }

    /** Hops that are either single steps of a walkable list or in line of sight stay walkable. */
    lemma {:induction false} SmoothedWalkable(includeInflated: bool, w: seq<Point>, out: seq<Point>,
                                              hops: seq<int>, n: nat)
      requires gridMap.Shaped() && gridMap.FreeCells(true) <= gridMap.FreeCells(includeInflated)
      requires Walkable(includeInflated, w) && AreHops(hops, |w|) && Selects(out, w, hops) && n <= |out|
      requires SafeHops(w, hops)
      ensures Walkable(includeInflated, out[..n])
      decreases n
    {
      if n >= 2 {
        SmoothedWalkable(includeInflated, w, out, hops, n - 1);
        assert out[..n][..n - 1] == out[..n - 1];
        if hops[n - 1] == hops[n - 2] + 1 {
          WalkableAt(includeInflated, w, hops[n - 2]);
        } else {
          assert HopClear(true, out[n - 2], out[n - 1]);
        }
      }
    }

    /** Resolution permitting, the waypoints made from a legal path are walkable, smoothed or not. */
    lemma PathWalkable(includeInflated: bool, start: Point, goal: Point, path: seq<Cell>, raw: seq<Point>,
                       out: seq<Point>, hops: seq<int>)
      requires gridMap.Shaped() && gridMap.resolution > 0.0001 && |path| >= 2
      requires gridMap.FreeCells(true) <= gridMap.FreeCells(includeInflated)
      requires IsPath(gridMap.FreeCells(includeInflated), gridMap.WorldToGrid(start), gridMap.WorldToGrid(goal), path)
      requires raw == RawWaypoints(start, goal, path)
      requires AreHops(hops, |raw|) && Selects(out, raw, hops) && SafeHops(raw, hops)
      ensures Walkable(includeInflated, out)
    {
      RawWalkable(includeInflated, start, goal, path, |raw|);
      assert raw[..|raw|] == raw;
      SmoothedWalkable(includeInflated, raw, out, hops, |out|);
      assert out[..|out|] == out;
    }

    /** `path` is what the search may return for this request. */
    ghost predicate IsPlanFor(start: Point, goal: Point, includeInflated: bool, path: seq<Cell>)
      requires gridMap.Shaped()
      reads gridMap.cells
    {
      var a, b := gridMap.WorldToGrid(start), gridMap.WorldToGrid(goal);
      IsShortest(ProblemFor(a, b, includeInflated), b, path)
    }

    /**
      Planning from one point to another.  There is no plan exactly when an end lies outside the
      free cells or no legal grid path joins them.  Otherwise the waypoints start and end at the
      requested points, follow a shortest grid path and can be walked in straight lines through free
      cells.  Smoothed, every waypoint is the furthest of the path in sight of the one before it.
    */
    method Plan(start: Point, goal: Point, smooth: bool := true, includeInflated: bool := true)
      returns (r: Option<PlannedPath>)
      requires Valid() && gridMap.Valid() && IsHypot(hypot)
      ensures var free := gridMap.FreeCells(includeInflated);
              var a, b := gridMap.WorldToGrid(start), gridMap.WorldToGrid(goal);
              r.None? <==> a !in free || b !in free || !Reachable(free, a, b)
      ensures r.Some? ==>
                var w := r.value.waypoints;
                && Joins(start, goal, w)
                && r.value.totalDistance == PathLength(hypot, w) && r.value.isSmoothed == smooth
                && (gridMap.resolution > 0.0001 ==> Walkable(includeInflated, w))
      ensures r.Some? && gridMap.WorldToGrid(start) == gridMap.WorldToGrid(goal) ==> r.value.expandedNodes == 0
      ensures r.Some? && gridMap.WorldToGrid(start) != gridMap.WorldToGrid(goal) ==>
                0 < r.value.expandedNodes <= |gridMap.FreeCells(includeInflated)|
      ensures r.Some? && gridMap.WorldToGrid(start) != gridMap.WorldToGrid(goal) ==>
                exists path :: IsPlanFor(start, goal, includeInflated, path)
                            && |path| >= 2 && Follows(hypot, RawWaypoints(start, goal, path), smooth, r.value.waypoints)
                            && (smooth && |path| > 2 ==>
                                  ChosenGreedily(RawWaypoints(start, goal, path), r.value.waypoints))
    {
      var a, b := gridMap.WorldToGrid(start), gridMap.WorldToGrid(goal);
      ghost var free := gridMap.FreeCells(includeInflated);
      gridMap.FreeCellsMeaning(a, includeInflated);
      gridMap.FreeCellsMeaning(b, includeInflated);
      if !gridMap.InBounds(a) {
        return None;
      }
      if !gridMap.InBounds(b) {
        return None;
      }
      if gridMap.IsGridOccupied(a, includeInflated) {
        return None;
      }
      if gridMap.IsGridOccupied(b, includeInflated) {
        return None;
      }
      if a == b {
        TrivialPlan(start, goal, includeInflated);
        return Some(PlannedPath([start, goal], hypot(goal.x - start.x, goal.y - start.y), 0, smooth));
      }
      var found := Search(a, b, includeInflated);
      if found.None? {
        return None;
      }
      HypotTriangular(hypot);
      gridMap.InflationOnlyBlocks();
      var plan := ToPlan(start, goal, smooth, includeInflated, found.value);
      assert IsPlanFor(start, goal, includeInflated, found.value.path);
      return Some(plan);
    }

    /** Keeping every waypoint. */
    lemma IdentityHops(w: seq<Point>) returns (hops: seq<int>)
      requires gridMap.Shaped() && |w| > 0
      ensures AreHops(hops, |w|) && Selects(w, w, hops) && SafeHops(w, hops)
    {
      hops := seq(|w|, i => i);
    }

    /** Turns a grid path into waypoints. */
    method ToPlan(start: Point, goal: Point, smooth: bool, includeInflated: bool, found: Found) returns (r: PlannedPath)
      requires Valid() && Triangular(hypot)
      requires gridMap.FreeCells(true) <= gridMap.FreeCells(includeInflated)
      requires |found.path| >= 2
      requires IsPath(gridMap.FreeCells(includeInflated), gridMap.WorldToGrid(start), gridMap.WorldToGrid(goal),
                      found.path)
      ensures var w := r.waypoints;
              && Joins(start, goal, w)
              && r.totalDistance == PathLength(hypot, w) && r.isSmoothed == smooth
              && (gridMap.resolution > 0.0001 ==> Walkable(includeInflated, w))
      ensures Follows(hypot, RawWaypoints(start, goal, found.path), smooth, r.waypoints)
      ensures smooth && |found.path| > 2 ==> ChosenGreedily(RawWaypoints(start, goal, found.path), r.waypoints)
      ensures r.expandedNodes == found.expanded
    {
      var path := found.path;
      var raw := ToWorld(start, goal, path);
      var out := raw;
      ghost var hops := IdentityHops(raw);
      if smooth {
        out, hops := SmoothPath(raw);
      }
      HopsFollow(hypot, raw, smooth, out, hops);
      if gridMap.resolution > 0.0001 {
        PathWalkable(includeInflated, start, goal, path, raw, out, hops);
      }
      var total := CalculatePathDistance(out);
      return PlannedPath(out, total, found.expanded, smooth);
    }

    /** Start and goal in one free cell. */
    lemma TrivialPlan(start: Point, goal: Point, includeInflated: bool)
      requires gridMap.Shaped()
      requires gridMap.WorldToGrid(start) == gridMap.WorldToGrid(goal)
      requires gridMap.WorldToGrid(start) in gridMap.FreeCells(includeInflated)
      ensures Reachable(gridMap.FreeCells(includeInflated), gridMap.WorldToGrid(start), gridMap.WorldToGrid(goal))
      ensures Joins(start, goal, [start, goal]) && Walkable(includeInflated, [start, goal])
      ensures PathLength(hypot, [start, goal]) == hypot(goal.x - start.x, goal.y - start.y)
    {
      var a, free := gridMap.WorldToGrid(start), gridMap.FreeCells(includeInflated);
      assert IsPath(free, a, a, [a]);
      RayStarts(a, a);
      assert [start, goal][..1] == [start] && Walkable(includeInflated, [start]);
      assert HopClear(includeInflated, start, goal);
    }
  }
}
