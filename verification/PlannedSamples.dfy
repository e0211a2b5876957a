/**
  What the samples of a plan say about each other and about the waypoints: the four rows of a sample
  are a position and its derivatives.
*/
module PlannedSamples {
  import opened Wrappers
  import opened Quintic
  import opened QuinticLimits
  import opened Turns
  import opened TrajectoryPlanner
  import opened ViaLimits

  // ---------------------------------------------------------------------
  // At the waypoints
  // ---------------------------------------------------------------------

  /** The joints of the sample are where waypoint k is, with the velocities and accelerations chosen for it. */
  ghost predicate AtWaypoint(p: Sample, w: seq<Joints>, d: seq<real>, l: Limits, k: nat)
    requires |d| == |w| - 1 && k < |w| && SameLength(w, |w[0]|) && AllCover(l, |w[0]|)
  {
    && p.positions == w[k] && |p.velocities| == |p.accelerations| == |w[0]|
    && (forall j :: 0 <= j < |w[0]| ==> p.velocities[j] == ViaVelocity(w, d, l, k, j))
    && (forall j :: 0 <= j < |w[0]| ==> p.accelerations[j] == ViaAcceleration(w, d, l, k, j))
  }

  lemma StartOfSegmentIsWaypoint(w: seq<Joints>, d: seq<real>, l: Limits, k: nat)
    requires |w| >= 2 && |d| == |w| - 1 && k < |d| && SameLength(w, |w[0]|) && AllCover(l, |w[0]|) && Positive(d)
    ensures AtWaypoint(SampleOf(SegmentOf(w, d, l, k), 0.0), w, d, l, k)
    ensures AtWaypoint(SampleOf(SegmentOf(w, d, l, k), d[k]), w, d, l, k + 1)
  {
    forall j | 0 <= j < |w[0]|
      ensures StateAt(SegmentOf(w, d, l, k).polynomials[j], 0.0) == Via(w, d, l, k, j)
      ensures StateAt(SegmentOf(w, d, l, k).polynomials[j], d[k]) == Via(w, d, l, k + 1, j)
    {
      SegmentMeetsWaypoints(w, d, l, k, j);
    }
  }

  /** Waypoint k is where segment k begins, and the last one where the last segment ends. */
  lemma WaypointTime(d: seq<real>, k: nat, index: nat)
    requires Positive(d) && 0 < |d| && k <= |d| && ActiveAt(d, index, StartTime(d, k))
    ensures index == (if k < |d| then k else k - 1)
  {
    if k < |d| {
      StartTimesGrow(d, k, k + 1);
      OneIsActive(d, index, k, StartTime(d, k));
    } else {
      StartTimesGrow(d, k - 1, k);
      OneIsActive(d, index, k - 1, StartTime(d, k));
    }
  }

  /** A sample taken at the time of a waypoint is at the waypoint. */
  lemma SampleAtWaypoint(segments: seq<Trajectory>, w: seq<Joints>, d: seq<real>, l: Limits, p: Sample, k: nat)
    requires IsPlan(segments, w, d, l) && k <= |d| && Shows(segments, d, p, StartTime(d, k))
    ensures AtWaypoint(p, w, d, l, k)
  {
    var c := StartTime(d, k);
    var index: nat :| ShowsSegment(segments, d, index, p, c);
    WaypointTime(d, k, index);
    StartOfSegmentIsWaypoint(w, d, l, index);
    SameSample(segments[index], c - StartTime(d, index), if k < |d| then 0.0 else d[index]);
  }

  // ---------------------------------------------------------------------
  // Between two waypoints that are alone
  // ---------------------------------------------------------------------

  ghost predicate Between(x: real, a: real, b: real) {
    Min(a, b) <= x <= Max(a, b)
  }

  lemma LoneSegment(l: Limits, roots: Roots, a: Joints, b: Joints, segments: seq<Trajectory>, d: real, p: Sample,
                    c: real)
    requires |a| == |b| && IsPlan(segments, [a, b], [d], l) && Shows(segments, [d], p, c)
    ensures p == SampleOf(SegmentOf([a, b], [d], l, 0), c).(time := c)
  {
    var index: nat :| ShowsSegment(segments, [d], index, p, c);
    SameSample(segments[0], c - StartTime([d], 0), c);
  }

  /**
    With automatic duration, the samples between two waypoints keep every positive velocity limit,
    and no joint leaves the way between its two positions.
  */
  lemma TwoWaypointSamples(l: Limits, roots: Roots, a: Joints, b: Joints, segments: seq<Trajectory>, d: real, p: Sample,
                           c: real, j: nat)
    requires |a| == |b| && IsPlan(segments, [a, b], [d], l) && d == AutomaticDuration(l, roots, a, b)
    requires Shows(segments, [d], p, c) && j < |a|
    ensures |p.positions| == |p.velocities| == |a| && Between(p.positions[j], a[j], b[j])
    ensures LimitOf(l.velocity, j) > 0.0 ==> Abs(p.velocities[j]) <= LimitOf(l.velocity, j)
  {
    LoneSegment(l, roots, a, b, segments, d, p, c);
    var s := SegmentOf([a, b], [d], l, 0).polynomials[j];
    assert [d][0] == d && s == Segment(Rest(a[j]), Rest(b[j]), d);
    StaysBetween(s, a[j], b[j], d, c);
    if LimitOf(l.velocity, j) > 0.0 {
      TwoWaypointsKeepSpeedLimit(l, roots, a, b, j, c);
    }
  }

  // ---------------------------------------------------------------------
  // Boole's rule: five values at equal distances give the area under a polynomial of degree five or less
  // ---------------------------------------------------------------------

  function Boole(a: real, p: real, m: real, q: real, b: real): real {
    7.0 * a + 32.0 * p + 12.0 * m + 32.0 * q + 7.0 * b
  }

  /** Over the length h, the weighed values v say that a function grows by d. */
  ghost predicate BooleArea(h: real, v: real, d: real) {
    h * v == 90.0 * d
  }

  /** What the k-th power grows by is k times what the weighed values w of the power below say. */
  ghost predicate Moment(k: real, h: real, w: real, d: real) {
    k * (h * w) == 90.0 * d
  }

  function Square(x: real): real {
    x * x
  }

  function Cube(x: real): real {
    x * x * x
  }

  function Fourth(x: real): real {
    x * x * x * x
  }

  function Fifth(x: real): real {
    x * x * x * x * x
  }

  lemma OnEitherSide(m: real, s: real)
    ensures Square(m + s) + Square(m - s) == 2.0 * Square(m) + 2.0 * Square(s)
    ensures Cube(m + s) + Cube(m - s) == 2.0 * Cube(m) + 6.0 * (m * Square(s))
    ensures Fourth(m + s) + Fourth(m - s) == 2.0 * Fourth(m) + 12.0 * (Square(m) * Square(s)) + 2.0 * Fourth(s)
  {
  }

  lemma FromSideToSide(m: real, s: real)
    ensures Square(m + s) - Square(m - s) == 4.0 * (m * s)
    ensures Cube(m + s) - Cube(m - s) == 6.0 * (Square(m) * s) + 2.0 * Cube(s)
    ensures Fourth(m + s) - Fourth(m - s) == 8.0 * (Cube(m) * s) + 8.0 * (m * Cube(s))
    ensures Fifth(m + s) - Fifth(m - s) == 10.0 * (Fourth(m) * s) + 20.0 * (Square(m) * Cube(s)) + 2.0 * Fifth(s)
  {
  }

  /** The mean of a power over the span of four steps u around m, weighed: it is what the next power grows by. */
  lemma MomentOfLine(m: real, u: real, h: real, w: real)
    requires h == 4.0 * u && w == Boole(m - 2.0 * u, m - u, m, m + u, m + 2.0 * u)
    ensures Moment(2.0, h, w, Square(m + 2.0 * u) - Square(m - 2.0 * u))
  {
    FromSideToSide(m, 2.0 * u);
    assert w == 90.0 * m;
  }

  lemma MomentOfSquare(m: real, u: real, h: real, w: real)
    requires h == 4.0 * u
    requires w == Boole(Square(m - 2.0 * u), Square(m - u), Square(m), Square(m + u), Square(m + 2.0 * u))
    ensures Moment(3.0, h, w, Cube(m + 2.0 * u) - Cube(m - 2.0 * u))
  {
    OnEitherSide(m, u);
    OnEitherSide(m, 2.0 * u);
    FromSideToSide(m, 2.0 * u);
    assert w == 90.0 * Square(m) + 120.0 * Square(u);
  }

  lemma MomentOfCube(m: real, u: real, h: real, w: real)
    requires h == 4.0 * u
    requires w == Boole(Cube(m - 2.0 * u), Cube(m - u), Cube(m), Cube(m + u), Cube(m + 2.0 * u))
    ensures Moment(4.0, h, w, Fourth(m + 2.0 * u) - Fourth(m - 2.0 * u))
  {
    OnEitherSide(m, u);
    OnEitherSide(m, 2.0 * u);
    FromSideToSide(m, 2.0 * u);
    assert w == 90.0 * Cube(m) + 360.0 * (m * Square(u));
  }

  lemma MomentOfFourth(m: real, u: real, h: real, w: real)
    requires h == 4.0 * u
    requires w == Boole(Fourth(m - 2.0 * u), Fourth(m - u), Fourth(m), Fourth(m + u), Fourth(m + 2.0 * u))
    ensures Moment(5.0, h, w, Fifth(m + 2.0 * u) - Fifth(m - 2.0 * u))
  {
    OnEitherSide(m, u);
    OnEitherSide(m, 2.0 * u);
    FromSideToSide(m, 2.0 * u);
    assert w == 90.0 * Fourth(m) + 720.0 * (Square(m) * Square(u)) + 288.0 * Fourth(u);
  }

  /** The weighed powers. */
  function BooleOf(a: Six, p: Six, m: Six, q: Six, b: Six, k: nat): real
    requires k <= 5
  {
    Boole(a[k], p[k], m[k], q[k], b[k])
  }

  ghost predicate Moments(a: Six, b: Six, h: real, w1: real, w2: real, w3: real, w4: real) {
    && h == b[1] - a[1]
    && Moment(2.0, h, w1, b[2] - a[2]) && Moment(3.0, h, w2, b[3] - a[3])
    && Moment(4.0, h, w3, b[4] - a[4]) && Moment(5.0, h, w4, b[5] - a[5])
  }

  lemma MomentsOf(m: real, u: real, a: Six, p: Six, x: Six, q: Six, b: Six)
    requires a == Powers(m - 2.0 * u) && p == Powers(m - u) && x == Powers(m)
    requires q == Powers(m + u) && b == Powers(m + 2.0 * u)
    ensures Moments(a, b, 4.0 * u, BooleOf(a, p, x, q, b, 1), BooleOf(a, p, x, q, b, 2), BooleOf(a, p, x, q, b, 3),
                    BooleOf(a, p, x, q, b, 4))
  {
    var h := 4.0 * u;
    MomentOfLine(m, u, h, BooleOf(a, p, x, q, b, 1));
    MomentOfSquare(m, u, h, BooleOf(a, p, x, q, b, 2));
    MomentOfCube(m, u, h, BooleOf(a, p, x, q, b, 3));
    MomentOfFourth(m, u, h, BooleOf(a, p, x, q, b, 4));
  }

  lemma Distributed(k: real, a: real, p: real, x: real, q: real, b: real, w: real)
    requires w == Boole(a, p, x, q, b)
    ensures Boole(k * a, k * p, k * x, k * q, k * b) == k * w
  {
    assert k * (7.0 * a) == 7.0 * (k * a) && k * (32.0 * p) == 32.0 * (k * p) && k * (12.0 * x) == 12.0 * (k * x);
    assert k * (32.0 * q) == 32.0 * (k * q) && k * (7.0 * b) == 7.0 * (k * b);
    assert k * w == k * (7.0 * a) + k * (32.0 * p) + k * (12.0 * x) + k * (32.0 * q) + k * (7.0 * b);
  }

  /** The coefficient of the n-th power in a velocity. */
  function Factor(s: Quintic, n: nat): real {
    if n == 1 then 2.0 * s.c2 else if n == 2 then 3.0 * s.c3 else if n == 3 then 4.0 * s.c4 else 5.0 * s.c5
  }

  /** One term of a velocity at a time with these powers. */
  function Term(s: Quintic, x: Six, n: nat): real
    requires n <= 5
  {
    Factor(s, n) * x[n]
  }

  function TermsOf(s: Quintic, x: Six): (t: Six) {
    [0.0, Term(s, x, 1), Term(s, x, 2), Term(s, x, 3), Term(s, x, 4), 0.0]
  }

  function Sum(c: real, t: Six): real {
    c + t[1] + t[2] + t[3] + t[4]
  }

  lemma SumOfTerms(s: Quintic, x: Six)
    ensures VelocityAt(s, x) == Sum(s.c1, TermsOf(s, x))
  {
  }

  lemma BooleOfSums(c: real, a: Six, p: Six, x: Six, q: Six, b: Six)
    ensures Boole(Sum(c, a), Sum(c, p), Sum(c, x), Sum(c, q), Sum(c, b))
         == 90.0 * c + BooleOf(a, p, x, q, b, 1) + BooleOf(a, p, x, q, b, 2) + BooleOf(a, p, x, q, b, 3)
            + BooleOf(a, p, x, q, b, 4)
  {
  }

  /** What the n-th power contributes to a weighed velocity. */
  ghost predicate Contributes(u: real, s: Quintic, n: nat, w: real) {
    u == Factor(s, n) * w
  }

  lemma WeighedTerm(s: Quintic, a: Six, p: Six, x: Six, q: Six, b: Six, n: nat, w: real)
    requires 1 <= n <= 4 && w == BooleOf(a, p, x, q, b, n)
    ensures Contributes(BooleOf(TermsOf(s, a), TermsOf(s, p), TermsOf(s, x), TermsOf(s, q), TermsOf(s, b), n), s, n, w)
  {
    Distributed(Factor(s, n), a[n], p[n], x[n], q[n], b[n], w);
  }

  lemma WeighedVelocities(s: Quintic, a: Six, p: Six, x: Six, q: Six, b: Six, w1: real, w2: real, w3: real, w4: real)
      returns (u1: real, u2: real, u3: real, u4: real)
    requires w1 == BooleOf(a, p, x, q, b, 1) && w2 == BooleOf(a, p, x, q, b, 2)
    requires w3 == BooleOf(a, p, x, q, b, 3) && w4 == BooleOf(a, p, x, q, b, 4)
    ensures Boole(VelocityAt(s, a), VelocityAt(s, p), VelocityAt(s, x), VelocityAt(s, q), VelocityAt(s, b))
         == 90.0 * s.c1 + u1 + u2 + u3 + u4
    ensures Contributes(u1, s, 1, w1) && Contributes(u2, s, 2, w2)
    ensures Contributes(u3, s, 3, w3) && Contributes(u4, s, 4, w4)
  {
    var ta, tp, tx, tq, tb := TermsOf(s, a), TermsOf(s, p), TermsOf(s, x), TermsOf(s, q), TermsOf(s, b);
    SumOfTerms(s, a);
    SumOfTerms(s, p);
    SumOfTerms(s, x);
    SumOfTerms(s, q);
    SumOfTerms(s, b);
    BooleOfSums(s.c1, ta, tp, tx, tq, tb);
    WeighedTerm(s, a, p, x, q, b, 1, w1);
    WeighedTerm(s, a, p, x, q, b, 2, w2);
    WeighedTerm(s, a, p, x, q, b, 3, w3);
    WeighedTerm(s, a, p, x, q, b, 4, w4);
    u1, u2 := BooleOf(ta, tp, tx, tq, tb, 1), BooleOf(ta, tp, tx, tq, tb, 2);
    u3, u4 := BooleOf(ta, tp, tx, tq, tb, 3), BooleOf(ta, tp, tx, tq, tb, 4);
  }

  /** Over the length h, the n-th power contributes the n+1st coefficient times the growth of the next power. */
  lemma ContributedGrowth(u: real, k: real, m: real, c: real, h: real, w: real, d: real)
    requires u == k * w && k == m * c && Moment(m, h, w, d)
    ensures h * u == 90.0 * (c * d)
  {
    assert h * u == c * (m * (h * w));
  }

  lemma Growth(s: Quintic, a: Six, b: Six, h: real, u1: real, u2: real, u3: real, u4: real, v: real)
    requires v == 90.0 * s.c1 + u1 + u2 + u3 + u4 && h == b[1] - a[1]
    requires h * u1 == 90.0 * (s.c2 * (b[2] - a[2])) && h * u2 == 90.0 * (s.c3 * (b[3] - a[3]))
    requires h * u3 == 90.0 * (s.c4 * (b[4] - a[4])) && h * u4 == 90.0 * (s.c5 * (b[5] - a[5]))
    ensures BooleArea(h, v, PositionAt(s, b) - PositionAt(s, a))
  {
    assert h * v == 90.0 * (s.c1 * h) + h * u1 + h * u2 + h * u3 + h * u4;
  }

  lemma WeighedGrowth(s: Quintic, a: Six, b: Six, h: real, w1: real, w2: real, w3: real, w4: real,
                      u1: real, u2: real, u3: real, u4: real, v: real)
    requires Moments(a, b, h, w1, w2, w3, w4) && v == 90.0 * s.c1 + u1 + u2 + u3 + u4
    requires Contributes(u1, s, 1, w1) && Contributes(u2, s, 2, w2)
    requires Contributes(u3, s, 3, w3) && Contributes(u4, s, 4, w4)
    ensures BooleArea(h, v, PositionAt(s, b) - PositionAt(s, a))
  {
    ContributedGrowth(u1, Factor(s, 1), 2.0, s.c2, h, w1, b[2] - a[2]);
    ContributedGrowth(u2, Factor(s, 2), 3.0, s.c3, h, w2, b[3] - a[3]);
    ContributedGrowth(u3, Factor(s, 3), 4.0, s.c4, h, w3, b[4] - a[4]);
    ContributedGrowth(u4, Factor(s, 4), 5.0, s.c5, h, w4, b[5] - a[5]);
    Growth(s, a, b, h, u1, u2, u3, u4, v);
  }

  /** A segment moves by what its velocities at five times say. */
  lemma MovesByVelocities(s: Quintic, m: real, u: real, v: real)
    requires v == Boole(VelocityAt(s, Powers(m - 2.0 * u)), VelocityAt(s, Powers(m - u)), VelocityAt(s, Powers(m)),
                        VelocityAt(s, Powers(m + u)), VelocityAt(s, Powers(m + 2.0 * u)))
    ensures BooleArea(4.0 * u, v, PositionAt(s, Powers(m + 2.0 * u)) - PositionAt(s, Powers(m - 2.0 * u)))
  {
    var a, p, x, q, b := Powers(m - 2.0 * u), Powers(m - u), Powers(m), Powers(m + u), Powers(m + 2.0 * u);
    var w1, w2 := BooleOf(a, p, x, q, b, 1), BooleOf(a, p, x, q, b, 2);
    var w3, w4 := BooleOf(a, p, x, q, b, 3), BooleOf(a, p, x, q, b, 4);
    MomentsOf(m, u, a, p, x, q, b);
    var u1, u2, u3, u4 := WeighedVelocities(s, a, p, x, q, b, w1, w2, w3, w4);
    WeighedGrowth(s, a, b, 4.0 * u, w1, w2, w3, w4, u1, u2, u3, u4, v);
  }

  /** The powers of a time are those of its place. */
  ghost predicate PowersOfPlace(x: Six, p: Place) {
    x[1] == p.x && x[2] == p.x2 && x[3] == p.x3
  }

  lemma PowersArePlace(t: real)
    ensures PowersOfPlace(Powers(t), PlaceOf(t))
  {
  }

  lemma DerivativesAtPlace(s: Quintic, x: Six, p: Place)
    requires PowersOfPlace(x, p)
    ensures AccelerationAt(s, x) == ValueAt(SurgePolynomial(s), p) && JerkAt(s, x) == ValueAt(JoltPolynomial(s), p)
  {
  }

  lemma DerivativesAreValues(s: Quintic, t: real)
    ensures AccelerationAt(s, Powers(t)) == Value(SurgePolynomial(s), t)
    ensures JerkAt(s, Powers(t)) == Value(JoltPolynomial(s), t)
  {
    PowersArePlace(t);
    DerivativesAtPlace(s, Powers(t), PlaceOf(t));
  }

  /** Over the span from a to b with the middle m, f grows by what its derivative g says. */
  ghost predicate GrowsBetween(f: real -> real, g: real -> real, a: real, m: real, b: real) {
    Area(b - a, Simpson(g(a), g(m), g(b)), f(b) - f(a))
  }

  lemma PrimitiveGrows(f: real -> real, g: real -> real, c: Cubic, v: real, a: real, m: real, b: real)
    requires 2.0 * m == a + b
    requires f(a) == Primitive(c, v, a) && f(b) == Primitive(c, v, b)
    requires g(a) == Value(c, a) && g(m) == Value(c, m) && g(b) == Value(c, b)
    ensures GrowsBetween(f, g, a, m, b)
  {
    AreaUnder(c, v, a, b, m, Simpson(g(a), g(m), g(b)), f(b) - f(a));
  }

  /** The states of a joint, by the time. */
  datatype Course = Course(pos: real -> real, vel: real -> real, acc: real -> real, jerk: real -> real)

  function CourseOf(s: Quintic): Course {
    Course((t: real) => PositionAt(s, Powers(t)), (t: real) => VelocityAt(s, Powers(t)),
           (t: real) => AccelerationAt(s, Powers(t)), (t: real) => JerkAt(s, Powers(t)))
  }

  lemma VelocityGrows(s: Quintic, a: real, m: real, b: real, c: Course)
    requires 2.0 * m == a + b && c == CourseOf(s)
    ensures GrowsBetween(c.vel, c.acc, a, m, b)
  {
    SpeedPrimitive(s, a);
    SpeedPrimitive(s, b);
    DerivativesAreValues(s, a);
    DerivativesAreValues(s, m);
    DerivativesAreValues(s, b);
    PrimitiveGrows(c.vel, c.acc, SurgePolynomial(s), s.c1, a, m, b);
  }

  lemma AccelerationGrows(s: Quintic, a: real, m: real, b: real, c: Course)
    requires 2.0 * m == a + b && c == CourseOf(s)
    ensures GrowsBetween(c.acc, c.jerk, a, m, b)
  {
    SurgePrimitive(s, a);
    SurgePrimitive(s, b);
    DerivativesAreValues(s, a);
    DerivativesAreValues(s, m);
    DerivativesAreValues(s, b);
    PrimitiveGrows(c.acc, c.jerk, JoltPolynomial(s), 2.0 * s.c2, a, m, b);
  }

  ghost predicate MovesAround(c: Course, m: real, u: real) {
    BooleArea(4.0 * u, Boole(c.vel(m - 2.0 * u), c.vel(m - u), c.vel(m), c.vel(m + u), c.vel(m + 2.0 * u)),
              c.pos(m + 2.0 * u) - c.pos(m - 2.0 * u))
  }

  lemma MovesByCourse(s: Quintic, m: real, u: real, c: Course)
    requires c == CourseOf(s)
    ensures MovesAround(c, m, u)
  {
    MovesByVelocities(s, m, u, Boole(c.vel(m - 2.0 * u), c.vel(m - u), c.vel(m), c.vel(m + u), c.vel(m + 2.0 * u)));
  }

  // ---------------------------------------------------------------------
  // Samples of one segment
  // ---------------------------------------------------------------------

  /** The sample belongs to segment k, and its time is not behind the end of the plan. */
  ghost predicate SampledIn(segments: seq<Trajectory>, d: seq<real>, k: nat, p: Sample) {
    ShowsSegment(segments, d, k, p, p.time) && p.time <= StartTime(d, |d|)
  }

  /** The four rows of a sample have these values for joint j. */
  ghost predicate Reads(p: Sample, j: nat, c: Course, t: real) {
    && j < |p.positions| == |p.velocities| == |p.accelerations| == |p.jerks|
    && p.positions[j] == c.pos(t) && p.velocities[j] == c.vel(t)
    && p.accelerations[j] == c.acc(t) && p.jerks[j] == c.jerk(t)
  }

  /** The local time is inside of the segment, so the sample is that of the polynomials. */
  lemma SampleIn(segments: seq<Trajectory>, w: seq<Joints>, d: seq<real>, l: Limits, k: nat, p: Sample, j: nat,
                 s: Quintic, t: real)
    requires IsPlan(segments, w, d, l) && SampledIn(segments, d, k, p) && j < |w[0]|
    requires s == segments[k].polynomials[j] && t == p.time - StartTime(d, k)
    ensures Reads(p, j, CourseOf(s), t)
  {
    SameSample(segments[k], p.time - StartTime(d, k), t);
    assert StartTime(d, k + 1) == StartTime(d, k) + d[k];
    assert s == SegmentOf(w, d, l, k).polynomials[j] && s.duration == d[k];
    assert Clamp(s, t) == t;
  }

  /** The samples of segment k follow this course, and it is one of a position and its derivatives. */
  ghost predicate Follow(segments: seq<Trajectory>, d: seq<real>, k: nat, j: nat, c: Course) {
    && (forall m: real, u: real :: MovesAround(c, m, u))
    && (forall a: real, m: real, b: real :: 2.0 * m == a + b ==>
          GrowsBetween(c.vel, c.acc, a, m, b) && GrowsBetween(c.acc, c.jerk, a, m, b))
    && forall p: Sample :: SampledIn(segments, d, k, p) ==> Reads(p, j, c, p.time - StartTime(d, k))
  }

  lemma SamplesFollow(segments: seq<Trajectory>, w: seq<Joints>, d: seq<real>, l: Limits, k: nat, j: nat, c: Course)
    requires IsPlan(segments, w, d, l) && j < |w[0]| && k < |d| && c == CourseOf(segments[k].polynomials[j])
    ensures Follow(segments, d, k, j, c)
  {
    var s := segments[k].polynomials[j];
    forall m: real, u: real
      ensures MovesAround(c, m, u)
    {
      MovesByCourse(s, m, u, c);
    }
    forall a: real, m: real, b: real | 2.0 * m == a + b
      ensures GrowsBetween(c.vel, c.acc, a, m, b) && GrowsBetween(c.acc, c.jerk, a, m, b)
    {
      VelocityGrows(s, a, m, b, c);
      AccelerationGrows(s, a, m, b, c);
    }
    forall p: Sample | SampledIn(segments, d, k, p)
      ensures Reads(p, j, c, p.time - StartTime(d, k))
    {
      SampleIn(segments, w, d, l, k, p, j, s, p.time - StartTime(d, k));
    }
  }

  lemma ReadsAt(segments: seq<Trajectory>, d: seq<real>, k: nat, j: nat, c: Course, p: Sample, t: real)
    requires Follow(segments, d, k, j, c) && SampledIn(segments, d, k, p) && t == p.time - StartTime(d, k)
    ensures Reads(p, j, c, t)
  {
  }

  /** From p to r, with q halfway, velocity and acceleration of the joint grow by what acceleration and jerk say. */
  ghost predicate GrowsBy(p: Sample, q: Sample, r: Sample, j: nat) {
    && j < |p.velocities| == |p.accelerations| == |p.jerks| && j < |q.accelerations| == |q.jerks|
    && j < |r.velocities| == |r.accelerations| == |r.jerks|
    && Area(r.time - p.time, Simpson(p.accelerations[j], q.accelerations[j], r.accelerations[j]),
            r.velocities[j] - p.velocities[j])
    && Area(r.time - p.time, Simpson(p.jerks[j], q.jerks[j], r.jerks[j]), r.accelerations[j] - p.accelerations[j])
  }

  /** Over the span of four steps u, the position of the joint grows by what the five velocities say. */
  ghost predicate MovesBy(a: Sample, p: Sample, x: Sample, q: Sample, b: Sample, j: nat, u: real) {
    && j < |a.positions| == |a.velocities| && j < |b.positions| == |b.velocities|
    && j < |p.velocities| && j < |x.velocities| && j < |q.velocities|
    && BooleArea(4.0 * u, Boole(a.velocities[j], p.velocities[j], x.velocities[j], q.velocities[j], b.velocities[j]),
                 b.positions[j] - a.positions[j])
  }

  lemma CourseGrows(p: Sample, q: Sample, r: Sample, j: nat, c: Course, a: real, m: real, b: real)
    requires Reads(p, j, c, a) && Reads(q, j, c, m) && Reads(r, j, c, b) && b - a == r.time - p.time
    requires GrowsBetween(c.vel, c.acc, a, m, b) && GrowsBetween(c.acc, c.jerk, a, m, b)
    ensures GrowsBy(p, q, r, j)
  {
  }

  lemma CourseMoves(a: Sample, p: Sample, x: Sample, q: Sample, b: Sample, j: nat, c: Course, m: real, u: real,
                    ta: real, tp: real, tq: real, tb: real)
    requires ta == m - 2.0 * u && tp == m - u && tq == m + u && tb == m + 2.0 * u
    requires Reads(a, j, c, ta) && Reads(p, j, c, tp) && Reads(x, j, c, m) && Reads(q, j, c, tq) && Reads(b, j, c, tb)
    requires MovesAround(c, m, u)
    ensures MovesBy(a, p, x, q, b, j, u)
  {
  }

  /**
    Between three samples of a segment at equal distances, the velocity of each joint grows by what the
    accelerations say, and its acceleration by what the jerks say.
  */
  lemma SamplesGrow(segments: seq<Trajectory>, w: seq<Joints>, d: seq<real>, l: Limits, k: nat, j: nat,
                    p: Sample, q: Sample, r: Sample)
    requires IsPlan(segments, w, d, l) && j < |w[0]| && 2.0 * q.time == p.time + r.time
    requires SampledIn(segments, d, k, p) && SampledIn(segments, d, k, q) && SampledIn(segments, d, k, r)
    ensures GrowsBy(p, q, r, j)
  {
    var c := CourseOf(segments[k].polynomials[j]);
    SamplesFollow(segments, w, d, l, k, j, c);
    FollowersGrow(segments, d, k, j, c, p, q, r);
  }

  lemma FollowersGrow(segments: seq<Trajectory>, d: seq<real>, k: nat, j: nat, c: Course, p: Sample, q: Sample,
                      r: Sample)
    requires Follow(segments, d, k, j, c) && 2.0 * q.time == p.time + r.time
    requires SampledIn(segments, d, k, p) && SampledIn(segments, d, k, q) && SampledIn(segments, d, k, r)
    ensures GrowsBy(p, q, r, j)
  {
    var start := StartTime(d, k);
    var a, m, b := p.time - start, q.time - start, r.time - start;
    ReadsAt(segments, d, k, j, c, p, a);
    ReadsAt(segments, d, k, j, c, q, m);
    ReadsAt(segments, d, k, j, c, r, b);
    assert GrowsBetween(c.vel, c.acc, a, m, b) && GrowsBetween(c.acc, c.jerk, a, m, b);
    CourseGrows(p, q, r, j, c, a, m, b);
  }

  /** Between five samples at equal distances u, the position of each joint grows by what the velocities say. */
  lemma SamplesMove(segments: seq<Trajectory>, w: seq<Joints>, d: seq<real>, l: Limits, k: nat, j: nat,
                    a: Sample, p: Sample, x: Sample, q: Sample, b: Sample, u: real)
    requires IsPlan(segments, w, d, l) && j < |w[0]|
    requires p.time == a.time + u && x.time == p.time + u && q.time == x.time + u && b.time == q.time + u
    requires SampledIn(segments, d, k, a) && SampledIn(segments, d, k, p) && SampledIn(segments, d, k, x)
    requires SampledIn(segments, d, k, q) && SampledIn(segments, d, k, b)
    ensures MovesBy(a, p, x, q, b, j, u)
  {
    var c := CourseOf(segments[k].polynomials[j]);
    SamplesFollow(segments, w, d, l, k, j, c);
    FollowersMove(segments, d, k, j, c, a, p, x, q, b, u);
  }

  lemma FollowersMove(segments: seq<Trajectory>, d: seq<real>, k: nat, j: nat, c: Course,
                      a: Sample, p: Sample, x: Sample, q: Sample, b: Sample, u: real)
    requires Follow(segments, d, k, j, c)
    requires p.time == a.time + u && x.time == p.time + u && q.time == x.time + u && b.time == q.time + u
    requires SampledIn(segments, d, k, a) && SampledIn(segments, d, k, p) && SampledIn(segments, d, k, x)
    requires SampledIn(segments, d, k, q) && SampledIn(segments, d, k, b)
    ensures MovesBy(a, p, x, q, b, j, u)
  {
    var m := x.time - StartTime(d, k);
    var ta, tp, tq, tb := m - 2.0 * u, m - u, m + u, m + 2.0 * u;
    ReadsAt(segments, d, k, j, c, a, ta);
    ReadsAt(segments, d, k, j, c, p, tp);
    ReadsAt(segments, d, k, j, c, x, m);
    ReadsAt(segments, d, k, j, c, q, tq);
    ReadsAt(segments, d, k, j, c, b, tb);
    assert MovesAround(c, m, u);
    CourseMoves(a, p, x, q, b, j, c, m, u, ta, tp, tq, tb);
  }
}
