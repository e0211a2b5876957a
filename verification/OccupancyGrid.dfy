/**
  The occupancy grid map: a row-major cell array kept in step with the set of raw obstacles,
  obstacle rasterisation, radial inflation and ray casting.
*/
module OccupancyGrid {
  import opened GridRay
  import opened Rounding

  const FREE: int := 0
  const OBSTACLE: int := 1
  const INFLATED: int := 2

  datatype Point = Point(x: real, y: real)

  /** The grid index of a coordinate along one axis. */
  function AxisToGrid(origin: real, resolution: real, v: real): int
    requires resolution > 0.0
  {
    ((v - origin) / resolution).Floor
  }

  /** The rounded centre of a grid index along one axis. */
  function AxisToWorld(origin: real, resolution: real, g: int): real {
    Round4(origin + (g as real + 0.5) * resolution)
  }

  lemma RealMulLess(a: real, b: real, m: real)
    requires a < b && m > 0.0
    ensures a * m < b * m
  {
    assert (b - a) * m > 0.0;
  }

  lemma Covers(q: real, k: real, m: real)
    requires q <= k && m > 0.0
    ensures q * m <= k * m
  {
    if q < k {
      RealMulLess(q, k, m);
    }
  }

  lemma QuotientFloor(d: real, r: real, g: int)
    requires r > 0.0 && g as real * r <= d < (g as real + 1.0) * r
    ensures (d / r).Floor == g
  {
    var q := d / r;
    assert q * r == d;
    if q < g as real {
      RealMulLess(q, g as real, r);
    } else if q >= g as real + 1.0 {
      if q > g as real + 1.0 {
        RealMulLess(g as real + 1.0, q, r);
      }
    }
  }

  /** A coordinate belongs to the cell between whose borders it lies, the lower border included. */
  lemma CellOfCoordinate(origin: real, resolution: real, v: real, g: int)
    requires resolution > 0.0
    ensures AxisToGrid(origin, resolution, v) == g
       <==> origin + g as real * resolution <= v < origin + (g as real + 1.0) * resolution
  {
    var d, low, high := v - origin, g as real * resolution, (g as real + 1.0) * resolution;
    if AxisToGrid(origin, resolution, v) == g {
      QuotientBounds(d, resolution, g, low, high);
    } else if low <= d < high {
      QuotientFloor(d, resolution, g);
    }
  }

  lemma QuotientBounds(d: real, r: real, g: int, low: real, high: real)
    requires r > 0.0 && (d / r).Floor == g && low == g as real * r && high == (g as real + 1.0) * r
    ensures low <= d < high
  {
    var q := d / r;
    assert q * r == d;
    ProductBetween(q, g as real, g as real + 1.0, r, d, low, high);
  }

  lemma ProductBetween(q: real, a: real, b: real, r: real, d: real, low: real, high: real)
    requires r > 0.0 && a <= q < b && d == q * r && low == a * r && high == b * r
    ensures low <= d < high
  {
    Covers(a, q, r);
    RealMulLess(q, b, r);
  }

  /** The centre of a cell is in the middle between its borders, up to the rounding. */
  lemma CentreOfCell(origin: real, resolution: real, g: int)
    requires resolution > 0.0
    ensures var w, lo, hi := AxisToWorld(origin, resolution, g), origin + g as real * resolution,
                             origin + (g as real + 1.0) * resolution;
      -0.0001 <= 2.0 * w - (lo + hi) <= 0.0001
  {
    assert (g as real + 0.5) * resolution == g as real * resolution + 0.5 * resolution;
    assert (g as real + 1.0) * resolution == g as real * resolution + resolution;
  }

  /** A rounded cell centre lies in its own cell whenever a cell is wider than the rounding step. */
  lemma CentreInOwnCell(origin: real, resolution: real, g: int)
    requires resolution > 0.0001
    ensures AxisToGrid(origin, resolution, AxisToWorld(origin, resolution, g)) == g
  {
    var w := AxisToWorld(origin, resolution, g);
    assert (g as real + 0.5) * resolution == g as real * resolution + 0.5 * resolution;
    assert (g as real + 1.0) * resolution == g as real * resolution + resolution;
    QuotientFloor(w - origin, resolution, g);
  }

  /** At any finer resolution there is a map origin for which cell 0 has its centre rounded out of it. */
  lemma CentreOutsideOwnCell(resolution: real) returns (origin: real)
    requires 0.0 < resolution <= 0.0001
    ensures AxisToGrid(origin, resolution, AxisToWorld(origin, resolution, 0)) != 0
  {
    origin := 0.00015 - 0.5 * resolution;
    var centre := origin + (0 as real + 0.5) * resolution;
    assert centre == 0.00015;
    HalfUp();
    AtLeastOne(0.0002 - origin, resolution);
  }

  lemma HalfUp()
    ensures Round4(0.00015) == 0.0002
  {
    assert RoundHalfEven(1.5) == 2;
  }

  lemma AtLeastOne(d: real, r: real)
    requires 0.0 < r <= d
    ensures (d / r).Floor >= 1
  {
    var q := d / r;
    assert q * r == d;
    if q < 1.0 {
      RealMulLess(q, 1.0, r);
    }
  }

  /**
    Converting a cell to its centre and back is the identity for every map origin and every cell
    exactly when the resolution exceeds the rounding step of 0.0001.
  */
  lemma CentreRoundTripExactly(resolution: real)
    requires resolution > 0.0
    ensures (forall origin: real, g: int ::
               AxisToGrid(origin, resolution, AxisToWorld(origin, resolution, g)) == g)
            <==> resolution > 0.0001
  {
    if resolution > 0.0001 {
      forall origin: real, g: int
        ensures AxisToGrid(origin, resolution, AxisToWorld(origin, resolution, g)) == g
      {
        CentreInOwnCell(origin, resolution, g);
      }
    } else {
      var origin := CentreOutsideOwnCell(resolution);
      assert AxisToGrid(origin, resolution, AxisToWorld(origin, resolution, 0)) != 0;
    }
  }

  /** Number of cells needed to cover a stretch of the map. */
  function CellCount(lo: real, hi: real, resolution: real): (n: int)
    requires lo < hi && resolution > 0.0
    ensures n > 0
  {
    assert (hi - lo) / resolution > 0.0;
    Ceil((hi - lo) / resolution)
  }

  /** The cells cover the stretch, and one cell less would not. */
  lemma CellsCoverExactly(lo: real, hi: real, resolution: real, k: int)
    requires lo < hi && resolution > 0.0
    ensures k as real * resolution >= hi - lo <==> k >= CellCount(lo, hi, resolution)
  {
    var q, n := (hi - lo) / resolution, CellCount(lo, hi, resolution);
    assert q * resolution == hi - lo;
    if k >= n {
      Covers(q, k as real, resolution);
    } else {
      RealMulLess(k as real, q, resolution);
    }
  }

  lemma IndexInRange(w: int, h: int, x: int, y: int)
    requires 0 <= x < w && 0 <= y < h
    ensures 0 <= y * w + x < w * h
  {
    MulLess(y, h, w);
    assert y * w >= 0;
  }

  lemma IndexInjective(w: int, x: int, y: int, x': int, y': int)
    requires 0 <= x < w && 0 <= x' < w
    requires y * w + x == y' * w + x'
    ensures x == x' && y == y'
  {
    if y < y' {
      MulLess(y, y', w);
    } else if y' < y {
      MulLess(y', y, w);
    }
  }

  function SquaredDistance(a: Cell, b: Cell): int {
    (a.x - b.x) * (a.x - b.x) + (a.y - b.y) * (a.y - b.y)
  }

  /** The cells whose centres lie within `radius` cells of `centre`. */
  predicate InDisc(centre: Cell, radius: real, c: Cell) {
    SquaredDistance(c, centre) as real <= radius * radius
  }

  /** Cells of a disc lie within its bounding square. */
  lemma DiscWithinSquare(centre: Cell, radius: real, c: Cell)
    requires radius > -1.0 && InDisc(centre, radius, c)
    ensures Abs(c.x - centre.x) <= Ceil(radius) && Abs(c.y - centre.y) <= Ceil(radius)
  {
    SquareBound(c.x - centre.x, c.y - centre.y, radius);
    SquareBound(c.y - centre.y, c.x - centre.x, radius);
  }

  lemma SquareLess(x: real, y: real)
    requires 0.0 <= x < y
    ensures x * x < y * y
  {
    var gap := y - x;
    assert y * y == x * x + gap * (x + y);
    RealMulLess(0.0, gap, x + y);
  }

  lemma SquareBound(d: int, e: int, radius: real)
    requires radius > -1.0 && (d * d + e * e) as real <= radius * radius
    ensures Abs(d) <= Ceil(radius)
  {
    var a := Abs(d) as real;
    var r := if radius < 0.0 then -radius else radius;
    assert a * a == (d * d) as real && e * e >= 0 && r * r == radius * radius;
    if a > r {
      SquareLess(r, a);
    }
  }

  /** `c` lies in the box spanned by two corner cells. */
  predicate InBox(a: Cell, b: Cell, c: Cell) {
    Min(a.x, b.x) <= c.x <= Max(a.x, b.x) && Min(a.y, b.y) <= c.y <= Max(a.y, b.y)
  }

  class OccupancyGridMap {
    const minX: real
    const minY: real
    const maxX: real
    const maxY: real
    const resolution: real
    const widthCells: int
    const heightCells: int
    const cells: array<int>
    var rawObstacles: set<Cell>

    /**
      The raw-obstacle set names exactly the cells stored as OBSTACLE, and every stored value is
      one of the three cell kinds.
    */
    ghost predicate Valid()
      reads this, cells
    {
      && Shaped()
      && (forall c :: c in rawObstacles ==> InBounds(c))
      && (forall c :: InBounds(c) ==> At(c) in {FREE, OBSTACLE, INFLATED})
      && (forall c :: InBounds(c) ==> (At(c) == OBSTACLE <==> c in rawObstacles))
    }

    ghost predicate Shaped() {
      && resolution > 0.0
      && widthCells > 0 && heightCells > 0
      && cells.Length == widthCells * heightCells
    }

    constructor (minX: real, minY: real, maxX: real, maxY: real, resolution: real)
      requires minX < maxX && minY < maxY && resolution > 0.0
      ensures Valid() && fresh(cells)
      ensures this.minX == minX && this.minY == minY && this.maxX == maxX && this.maxY == maxY
      ensures this.resolution == resolution
      ensures widthCells == CellCount(minX, maxX, resolution) && heightCells == CellCount(minY, maxY, resolution)
      ensures rawObstacles == {} && forall c :: InBounds(c) ==> At(c) == FREE
    {
      this.minX, this.minY, this.maxX, this.maxY := minX, minY, maxX, maxY;
      this.resolution := resolution;
      var w, h := CellCount(minX, maxX, resolution), CellCount(minY, maxY, resolution);
      IndexInRange(w, h, 0, 0);
      widthCells, heightCells := w, h;
      var size := w * h;
      cells := new int[size](_ => FREE);
      rawObstacles := {};
      new;
      forall c | InBounds(c)
        ensures At(c) == FREE
      {
        IndexInRange(widthCells, heightCells, c.x, c.y);
      }
    }

    /** The checked form of construction: null stands for the error of the program. */
    static method Create(minX: real, minY: real, maxX: real, maxY: real, resolution: real)
      returns (m: OccupancyGridMap?)
      ensures m == null <==> maxX <= minX || maxY <= minY || resolution <= 0.0
      ensures m != null ==> fresh(m) && fresh(m.cells) && m.Valid() && m.rawObstacles == {}
    {
      if maxX <= minX || maxY <= minY {
        return null;
      }
      if resolution <= 0.0 {
        return null;
      }
      m := new OccupancyGridMap(minX, minY, maxX, maxY, resolution);
    }

    function WorldToGrid(p: Point): Cell
      requires resolution > 0.0
    {
      Cell(AxisToGrid(minX, resolution, p.x), AxisToGrid(minY, resolution, p.y))
    }

    function GridToWorld(c: Cell): Point {
      Point(AxisToWorld(minX, resolution, c.x), AxisToWorld(minY, resolution, c.y))
    }

    lemma GridToWorldAndBack(c: Cell)
      requires resolution > 0.0001
      ensures WorldToGrid(GridToWorld(c)) == c
    {
      CentreInOwnCell(minX, resolution, c.x);
      CentreInOwnCell(minY, resolution, c.y);
    }

    predicate InBounds(c: Cell) {
      0 <= c.x < widthCells && 0 <= c.y < heightCells
    }

    /** The stored kind of a cell. */
    function At(c: Cell): int
      requires Shaped() && InBounds(c)
      reads cells
    {
      IndexInRange(widthCells, heightCells, c.x, c.y);
      cells[c.y * widthCells + c.x]
    }

    method SetCell(c: Cell, value: int)
      requires Shaped() && InBounds(c)
      modifies cells
      ensures At(c) == value
      ensures forall d :: InBounds(d) && d != c ==> At(d) == old(At(d))
    {
      IndexInRange(widthCells, heightCells, c.x, c.y);
      cells[c.y * widthCells + c.x] := value;
      forall d | InBounds(d) && d != c
        ensures At(d) == old(At(d))
      {
        IndexInRange(widthCells, heightCells, d.x, d.y);
        if d.y * widthCells + d.x == c.y * widthCells + c.x {
          IndexInjective(widthCells, d.x, d.y, c.x, c.y);
        }
      }
    }

    /** Cells outside the map count as occupied. */
    predicate IsGridOccupied(c: Cell, includeInflated: bool := true)
      requires Shaped()
      reads cells
    {
      if !InBounds(c) then true
      else if includeInflated then At(c) != FREE
      else At(c) == OBSTACLE
    }

    /** The cells a planner may enter. */
    ghost function FreeCells(includeInflated: bool): set<Cell>
      requires Shaped()
      reads cells
    {
      set x, y | 0 <= x < widthCells && 0 <= y < heightCells && !IsGridOccupied(Cell(x, y), includeInflated)
        :: Cell(x, y)
    }

    lemma FreeCellsMeaning(c: Cell, includeInflated: bool)
      requires Shaped()
      ensures c in FreeCells(includeInflated) <==> !IsGridOccupied(c, includeInflated)
    {
      assert c == Cell(c.x, c.y);
    }

    /** Ignoring the inflation layer frees cells and never blocks one. */
    lemma InflationOnlyBlocks()
      requires Valid()
      ensures FreeCells(true) <= FreeCells(false)
      ensures forall c :: InBounds(c) ==> (c in FreeCells(false) <==> c !in rawObstacles)
    {
      forall c | InBounds(c)
        ensures c in FreeCells(false) <==> c !in rawObstacles
      {
        FreeCellsMeaning(c, false);
      }
    }

    /** The in-bounds cells of the box spanned by two corner cells, given in any order. */
    ghost function BoxCells(a: Cell, b: Cell): (shape: set<Cell>)
      ensures forall c :: c in shape <==> InBounds(c) && InBox(a, b, c)
    {
      var shape := set x, y | 0 <= x < widthCells && 0 <= y < heightCells && InBox(a, b, Cell(x, y)) :: Cell(x, y);
      assert forall c :: InBounds(c) && InBox(a, b, c) ==> c == Cell(c.x, c.y) && c in shape;
      shape
    }

    /** The in-bounds cells of a disc; a radius of -1 cell or less has none. */
    ghost function DiscCells(centre: Cell, r: real): (shape: set<Cell>)
      ensures forall c :: c in shape <==> InBounds(c) && r > -1.0 && InDisc(centre, r, c)
    {
      var shape := set x, y | 0 <= x < widthCells && 0 <= y < heightCells && r > -1.0 && InDisc(centre, r, Cell(x, y))
        :: Cell(x, y);
      assert forall c :: InBounds(c) && r > -1.0 && InDisc(centre, r, c) ==> c == Cell(c.x, c.y) && c in shape;
      shape
    }

    /** The in-bounds cells of the ray between two cells. */
    ghost function RayCells(a: Cell, b: Cell): (shape: set<Cell>)
      ensures forall c :: c in shape <==> InBounds(c) && OnRay(a, b, RaySteps(a, b), c)
    {
      var shape := set x, y | 0 <= x < widthCells && 0 <= y < heightCells && OnRay(a, b, RaySteps(a, b), Cell(x, y))
        :: Cell(x, y);
      assert forall c :: InBounds(c) && OnRay(a, b, RaySteps(a, b), c) ==> c == Cell(c.x, c.y) && c in shape;
      shape
    }

    /** Exactly the cells of `shape` became obstacles. */
    twostate predicate Rasterized(shape: set<Cell>)
      requires Shaped()
      reads this, cells
    {
      && rawObstacles == old(rawObstacles) + shape
      && (forall c :: InBounds(c) ==> At(c) == if c in shape then OBSTACLE else old(At(c)))
    }

    method Mark(c: Cell)
      requires Valid() && InBounds(c)
      modifies this`rawObstacles, cells
      ensures Valid() && Rasterized({c})
    {
      SetCell(c, OBSTACLE);
      rawObstacles := rawObstacles + {c};
    }

    method SetObstacle(p: Point)
      requires Valid()
      modifies this`rawObstacles, cells
      ensures Valid()
      ensures Rasterized(if InBounds(WorldToGrid(p)) then {WorldToGrid(p)} else {})
    {
      var c := WorldToGrid(p);
      if InBounds(c) {
        Mark(c);
      }
    }

    /**
      The raster scan shared by rectangles and circles: rows from `y0` to `y1`, columns from `x0`
      to `x1`, marking the cells accepted by `inside`.
    */
    method Scan(x0: int, y0: int, x1: int, y1: int, inside: Cell -> bool, ghost shape: set<Cell>)
      requires Valid()
      requires 0 <= x0 && x1 < widthCells && 0 <= y0 && y1 < heightCells
      requires forall c :: c in shape <==> x0 <= c.x <= x1 && y0 <= c.y <= y1 && inside(c)
      modifies this`rawObstacles, cells
      ensures Valid() && Rasterized(shape)
    {
      ghost var before := rawObstacles;
      var gy := y0;
      while gy <= y1
        invariant Valid() && y0 <= gy
        invariant forall c :: InBounds(c) ==>
                    At(c) == if c in shape && c.y < gy then OBSTACLE else old(At(c))
        invariant forall c :: c in rawObstacles <==> c in before || (c in shape && c.y < gy)
      {
        var gx := x0;
        while gx <= x1
          invariant Valid() && x0 <= gx
          invariant forall c :: InBounds(c) ==>
                      At(c) == if c in shape && (c.y < gy || (c.y == gy && c.x < gx)) then OBSTACLE else old(At(c))
          invariant forall c :: c in rawObstacles <==>
                      c in before || (c in shape && (c.y < gy || (c.y == gy && c.x < gx)))
        {
          if inside(Cell(gx, gy)) {
            Mark(Cell(gx, gy));
          }
          gx := gx + 1;
        }
        gy := gy + 1;
      }
    }

    method AddRectangularObstacle(a: Point, b: Point)
      requires Valid()
      modifies this`rawObstacles, cells
      ensures Valid() && Rasterized(BoxCells(WorldToGrid(a), WorldToGrid(b)))
    {
      var g0, g1 := WorldToGrid(a), WorldToGrid(b);
      var minGx, maxGx := Max(0, Min(g0.x, g1.x)), Min(widthCells - 1, Max(g0.x, g1.x));
      var minGy, maxGy := Max(0, Min(g0.y, g1.y)), Min(heightCells - 1, Max(g0.y, g1.y));
      Scan(minGx, minGy, maxGx, maxGy, c => true, BoxCells(g0, g1));
    }

    /** The scanned square misses no cell of the disc. */
    lemma DiscScan(cg: Cell, r: real, minGx: int, minGy: int, maxGx: int, maxGy: int)
      requires minGx == Max(0, cg.x - Ceil(r)) && maxGx == Min(widthCells - 1, cg.x + Ceil(r))
      requires minGy == Max(0, cg.y - Ceil(r)) && maxGy == Min(heightCells - 1, cg.y + Ceil(r))
      ensures forall c :: c in DiscCells(cg, r) <==>
                minGx <= c.x <= maxGx && minGy <= c.y <= maxGy && InDisc(cg, r, c)
    {
      forall c | r > -1.0 && InDisc(cg, r, c)
        ensures Abs(c.x - cg.x) <= Ceil(r) && Abs(c.y - cg.y) <= Ceil(r)
      {
        DiscWithinSquare(cg, r, c);
      }
    }

    method AddCircularObstacle(centre: Point, radius: real)
      requires Valid()
      modifies this`rawObstacles, cells
      ensures Valid() && Rasterized(DiscCells(WorldToGrid(centre), radius / resolution))
    {
      var cg := WorldToGrid(centre);
      var r := radius / resolution;
      var rCells := Ceil(r);
      var minGx, maxGx := Max(0, cg.x - rCells), Min(widthCells - 1, cg.x + rCells);
      var minGy, maxGy := Max(0, cg.y - rCells), Min(heightCells - 1, cg.y + rCells);
      DiscScan(cg, r, minGx, minGy, maxGx, maxGy);
      Scan(minGx, minGy, maxGx, maxGy, (c: Cell) => InDisc(cg, r, c), DiscCells(cg, r));
    }

    /** Rasterises the ray between two points: exactly its in-bounds cells become obstacles. */
    method AddLineObstacle(p0: Point, p1: Point)
      requires Valid()
      modifies this`rawObstacles, cells
      ensures Valid() && Rasterized(RayCells(WorldToGrid(p0), WorldToGrid(p1)))
    {
      var a, b := WorldToGrid(p0), WorldToGrid(p1);
      var dx, dy := DeltaX(a, b), DeltaY(a, b);
      var sx, sy := Sign(a.x, b.x), Sign(a.y, b.y);
      var err := dx - dy;
      var currX, currY := a.x, a.y;
      ghost var k := 0;
      ghost var before := rawObstacles;
      RayStarts(a, b);
      while true
        invariant Valid() && 0 <= k <= RaySteps(a, b)
        invariant RayState(a, b, k, currX, currY, err)
        invariant forall c :: InBounds(c) ==>
                    At(c) == if OnRay(a, b, k - 1, c) then OBSTACLE else old(At(c))
        invariant forall c :: c in rawObstacles <==> c in before || (InBounds(c) && OnRay(a, b, k - 1, c))
        decreases RaySteps(a, b) - k
      {
        var curr := Cell(currX, currY);
        forall c ensures OnRay(a, b, k, c) <==> OnRay(a, b, k - 1, c) || c == curr {
          OnRayStep(a, b, k, c);
        }
        if InBounds(curr) {
          Mark(curr);
        }
        RayReachesTarget(a, b, k);
        if currX == b.x && currY == b.y {
          break;
        }
        RayAdvances(a, b, k, currX, currY, err);
        var e2 := 2 * err;
        if e2 > -dy {
          err := err - dy;
          currX := currX + sx;
        }
        if e2 < dx {
          err := err + dx;
          currY := currY + sy;
        }
        k := k + 1;
      }
    }

    /** What one obstacle or free cell becomes under inflation by `r` cells. */
    ghost function InflatedKind(c: Cell, r: real): int
      reads this`rawObstacles
    {
      if c in rawObstacles then OBSTACLE
      else if exists o :: o in rawObstacles && InDisc(o, r, c) then INFLATED
      else FREE
    }

    /** Kernel offsets of radius r, without the origin. */
    method KernelOffsets(r: real) returns (offsets: seq<Cell>)
      requires r > 0.0
      ensures forall d :: d in offsets <==> d != Cell(0, 0) && InDisc(Cell(0, 0), r, d)
    {
      var rCells := Ceil(r);
      offsets := [];
      var dy := -rCells;
      while dy <= rCells
        invariant -rCells <= dy <= rCells + 1
        invariant forall d :: d in offsets <==>
                    && d != Cell(0, 0) && InDisc(Cell(0, 0), r, d)
                    && -rCells <= d.x <= rCells && -rCells <= d.y < dy
      {
        var dx := -rCells;
        while dx <= rCells
          invariant -rCells <= dx <= rCells + 1
          invariant forall d :: d in offsets <==>
                      && d != Cell(0, 0) && InDisc(Cell(0, 0), r, d)
                      && -rCells <= d.x <= rCells && -rCells <= d.y <= dy
                      && (d.y < dy || d.x < dx)
        {
          if !(dx == 0 && dy == 0) {
            if (dx * dx + dy * dy) as real <= r * r {
              assert SquaredDistance(Cell(dx, dy), Cell(0, 0)) == dx * dx + dy * dy;
              offsets := offsets + [Cell(dx, dy)];
            } else {
              assert SquaredDistance(Cell(dx, dy), Cell(0, 0)) == dx * dx + dy * dy;
            }
          }
          dx := dx + 1;
        }
        dy := dy + 1;
      }
      forall d | d != Cell(0, 0) && InDisc(Cell(0, 0), r, d)
        ensures d in offsets
      {
        DiscWithinSquare(Cell(0, 0), r, d);
      }
    }

    method ClearInflation()
      requires Valid()
      modifies cells
      ensures Valid()
      ensures forall c :: InBounds(c) ==> At(c) == if c in rawObstacles then OBSTACLE else FREE
    {
      var gy := 0;
      while gy < heightCells
        invariant Valid() && 0 <= gy <= heightCells
        invariant forall c :: InBounds(c) && c.y < gy ==> At(c) != INFLATED
      {
        var gx := 0;
        while gx < widthCells
          invariant Valid() && 0 <= gx <= widthCells
          invariant forall c :: InBounds(c) && (c.y < gy || (c.y == gy && c.x < gx)) ==> At(c) != INFLATED
        {
          if At(Cell(gx, gy)) == INFLATED {
            SetCell(Cell(gx, gy), FREE);
          }
          gx := gx + 1;
        }
        gy := gy + 1;
      }
    }

    /** Inflates the neighbourhood of one obstacle. */
    method InflateAround(o: Cell, offsets: seq<Cell>, ghost r: real)
      requires Valid()
      requires forall d :: d in offsets <==> d != Cell(0, 0) && InDisc(Cell(0, 0), r, d)
      modifies cells
      ensures Valid()
      ensures forall c :: InBounds(c) ==>
                At(c) == if c != o && InDisc(o, r, c) && old(At(c)) == FREE then INFLATED else old(At(c))
    {
      var i := 0;
      while i < |offsets|
        invariant Valid() && 0 <= i <= |offsets|
        invariant forall c :: InBounds(c) ==>
                    At(c) == if old(At(c)) == FREE && Cell(c.x - o.x, c.y - o.y) in offsets[..i] then INFLATED
                              else old(At(c))
      {
        var c := Cell(o.x + offsets[i].x, o.y + offsets[i].y);
        if InBounds(c) && At(c) == FREE {
          SetCell(c, INFLATED);
        }
        assert offsets[..i + 1] == offsets[..i] + [offsets[i]];
        i := i + 1;
      }
      assert offsets[..i] == offsets;
      forall c | InBounds(c)
        ensures Cell(c.x - o.x, c.y - o.y) in offsets <==> c != o && InDisc(o, r, c)
      {
        assert SquaredDistance(Cell(c.x - o.x, c.y - o.y), Cell(0, 0)) == SquaredDistance(c, o);
      }
    }

    /**
      Inflation by a positive radius: afterwards a cell that is not a raw obstacle is INFLATED
      exactly when it lies within the disc of some raw obstacle, whatever was inflated before.
      A radius of zero or less leaves the map, and any earlier inflation, as it is.
    */
    method InflateObstacles(robotRadius: real)
      requires Valid()
      modifies cells
      ensures Valid()
      ensures robotRadius <= 0.0 ==> forall c :: InBounds(c) ==> At(c) == old(At(c))
      ensures robotRadius > 0.0 ==> forall c :: InBounds(c) ==> At(c) == InflatedKind(c, robotRadius / resolution)
    {
      if robotRadius <= 0.0 {
        return;
      }
      var r := robotRadius / resolution;
      assert r > 0.0;
      var offsets := KernelOffsets(r);
      ClearInflation();
      var todo := rawObstacles;
      while todo != {}
        invariant Valid() && todo <= rawObstacles
        invariant forall c :: InBounds(c) ==>
                    At(c) == if c in rawObstacles then OBSTACLE
                             else if exists o :: o in rawObstacles - todo && InDisc(o, r, c) then INFLATED
                             else FREE
        decreases todo
      {
        var o :| o in todo;
        InflateAround(o, offsets, r);
        forall c
          ensures (exists p :: p in rawObstacles - (todo - {o}) && InDisc(p, r, c)) <==>
                  (exists p :: p in rawObstacles - todo && InDisc(p, r, c)) || InDisc(o, r, c)
        {
          assert o in rawObstacles - (todo - {o});
          assert forall p :: p in rawObstacles - todo ==> p in rawObstacles - (todo - {o});
        }
        todo := todo - {o};
      }
      assert rawObstacles - todo == rawObstacles;
    }

    /**
      Line of sight: true exactly when every cell of the ray between the two points lies in the
      map and is free of obstacles and of inflation.
    */
    method IsLineClear(p0: Point, p1: Point) returns (clear: bool)
      requires Shaped()
      ensures clear <==> RayClear(FreeCells(true), WorldToGrid(p0), WorldToGrid(p1))
    {
      var a, b := WorldToGrid(p0), WorldToGrid(p1);
      var dx, dy := DeltaX(a, b), DeltaY(a, b);
      var sx, sy := Sign(a.x, b.x), Sign(a.y, b.y);
      var err := dx - dy;
      var currX, currY := a.x, a.y;
      ghost var k := 0;
      RayStarts(a, b);
      while true
        invariant 0 <= k <= RaySteps(a, b)
        invariant RayState(a, b, k, currX, currY, err)
        invariant forall j :: 0 <= j < k ==> RayCell(a, b, j) in FreeCells(true)
        decreases RaySteps(a, b) - k
      {
        var curr := Cell(currX, currY);
        FreeCellsMeaning(curr, true);
        if !InBounds(curr) || IsGridOccupied(curr) {
          return false;
        }
        RayReachesTarget(a, b, k);
        if currX == b.x && currY == b.y {
          break;
        }
        RayAdvances(a, b, k, currX, currY, err);
        var e2 := 2 * err;
        if e2 > -dy {
          err := err - dy;
          currX := currX + sx;
        }
        if e2 < dx {
          err := err + dx;
          currY := currY + sy;
        }
        k := k + 1;
      }
      return true;
    }
  }

  /** `c` is one of the cells 0 .. last of the ray from `a` to `b`. */
  ghost predicate OnRay(a: Cell, b: Cell, last: int, c: Cell) {
    exists k :: 0 <= k <= last && RayCell(a, b, k) == c
  }

  lemma OnRayStep(a: Cell, b: Cell, k: nat, c: Cell)
    ensures OnRay(a, b, k, c) <==> OnRay(a, b, k - 1, c) || c == RayCell(a, b, k)
  {
    if OnRay(a, b, k - 1, c) {
      var j :| 0 <= j <= k - 1 && RayCell(a, b, j) == c;
    }
  }

  /** Every cell of the ray from `a` to `b` is free. */
  ghost predicate RayClear(free: set<Cell>, a: Cell, b: Cell) {
    forall k :: 0 <= k <= RaySteps(a, b) ==> RayCell(a, b, k) in free
  }
}
