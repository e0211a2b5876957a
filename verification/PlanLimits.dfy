/**
  Which limits a plan with automatic durations keeps between two waypoints.
*/
module PlanLimits {
  import opened Rounding
  import opened Quintic
  import opened QuinticLimits
  import opened Turns
  import opened TrajectoryPlanner

  // ---------------------------------------------------------------------
  // Two waypoints: exactly when the rounded duration is long enough
  // ---------------------------------------------------------------------

  /** Joint j of the plan from a to b in the time d. */
  function Only(l: Limits, a: Joints, b: Joints, d: real, j: nat): Quintic
    requires |a| == |b| && AllCover(l, |a|) && j < |a|
  {
    SegmentOf([a, b], [d], l, 0).polynomials[j]
  }

  lemma OnlyIsFromRest(l: Limits, a: Joints, b: Joints, d: real, j: nat)
    requires |a| == |b| && AllCover(l, |a|) && j < |a| && d > 0.0
    ensures FromRest(Only(l, a, b, d, j), a[j], b[j], d)
  {
    assert Only(l, a, b, d, j) == Segment(Rest(a[j]), Rest(b[j]), d);
  }

  /** Ten divided by the square root of three. */
  ghost predicate IsTenByRootThree(ten: real) {
    ten > 0.0 && ten * ten == 100.0 / 3.0
  }

  lemma RootOfThree(ten: real, inverse: real)
    requires IsTenByRootThree(ten) && inverse == ten / 10.0
    ensures 3.0 * inverse > 0.0 && (3.0 * inverse) * (3.0 * inverse) == 3.0 && inverse * (3.0 * inverse) == 1.0
  {
    assert inverse * inverse == ten * ten / 100.0;
  }

  /** With the values of the products. */
  lemma SurgeKept(p: Quintic, q0: real, q1: real, d: real, ten: real, inverse: real, limit: real,
                  bound: real, m: real, room: real)
    requires FromRest(p, q0, q1, d) && IsTenByRootThree(ten) && ten == 10.0 * inverse
    requires bound == Abs(q1 - q0) * ten && m == Powers(d)[2] && room == limit * m
    ensures Keeps(Surge(p), limit) <==> bound <= room
  {
    RootOfThree(ten, inverse);
    AccelerationLimitExact(p, q0, q1, d, m, 3.0 * inverse, inverse, limit, bound);
  }

  lemma JoltKept(p: Quintic, q0: real, q1: real, d: real, limit: real, bound: real, m: real, room: real)
    requires FromRest(p, q0, q1, d) && bound == Abs(q1 - q0) * 60.0 && m == Powers(d)[3] && room == limit * m
    ensures Keeps(Jolt(p), limit) <==> bound <= room
  {
    JerkLimitExact(p, q0, q1, d, m, limit, bound);
  }

  lemma SurgeKeptIn(p: Quintic, q0: real, q1: real, d: real, ten: real, limit: real)
    requires FromRest(p, q0, q1, d) && IsTenByRootThree(ten)
    ensures Keeps(Surge(p), limit) <==> Abs(q1 - q0) * ten <= limit * (d * d)
  {
    SurgeKept(p, q0, q1, d, ten, ten / 10.0, limit, Abs(q1 - q0) * ten, d * d, limit * (d * d));
  }

  lemma JoltKeptIn(p: Quintic, q0: real, q1: real, d: real, limit: real)
    requires FromRest(p, q0, q1, d)
    ensures Keeps(Jolt(p), limit) <==> Abs(q1 - q0) * 60.0 <= limit * (d * d * d)
  {
    JoltKept(p, q0, q1, d, limit, Abs(q1 - q0) * 60.0, d * d * d, limit * (d * d * d));
  }

  /** The acceleration stays within a limit exactly when the rounded duration is long enough for it. */
  lemma AccelerationKeptExactly(l: Limits, roots: Roots, a: Joints, b: Joints, j: nat, limit: real, d: real)
    requires |a| == |b| && AllCover(l, |a|) && j < |a| && IsTenByRootThree(roots.tenByRootThree)
    requires d == AutomaticDuration(l, roots, a, b)
    ensures Keeps(Surge(Only(l, a, b, d, j)), limit) <==> Abs(b[j] - a[j]) * roots.tenByRootThree <= limit * (d * d)
  {
    RoundedTime(SegmentTime(l, roots, a, b, |a|));
    OnlyIsFromRest(l, a, b, d, j);
    SurgeKeptIn(Only(l, a, b, d, j), a[j], b[j], d, roots.tenByRootThree, limit);
  }

  /** The jerk stays within a limit exactly when the rounded duration is long enough for it. */
  lemma JerkKeptExactly(l: Limits, roots: Roots, a: Joints, b: Joints, j: nat, limit: real, d: real)
    requires |a| == |b| && AllCover(l, |a|) && j < |a| && d == AutomaticDuration(l, roots, a, b)
    ensures Keeps(Jolt(Only(l, a, b, d, j)), limit) <==> Abs(b[j] - a[j]) * 60.0 <= limit * (d * d * d)
  {
    RoundedTime(SegmentTime(l, roots, a, b, |a|));
    OnlyIsFromRest(l, a, b, d, j);
    JoltKeptIn(Only(l, a, b, d, j), a[j], b[j], d, limit);
  }

  // ---------------------------------------------------------------------
  // Exact roots
  // ---------------------------------------------------------------------

  ghost predicate IsCubeRoot(r: real, x: real) {
    r >= 0.0 && r * r * r == x
  }

  ghost predicate ExactRoots(roots: Roots) {
    && IsTenByRootThree(roots.tenByRootThree)
    && ExactSquare(roots.square)
    && (forall x: real :: x >= 0.0 ==> IsCubeRoot(roots.cube(x), x))
  }

  lemma SquareRootAtMost(r: real, x: real, s: real)
    requires IsSquareRoot(r, x) && s >= 0.0 && x <= s * s
    ensures r <= s
  {
    RootOrder(r, s, x, s * s);
  }

  lemma CubeOrder(a: real, b: real, a3: real, b3: real)
    requires 0.0 <= a < b && a3 == a * a * a && b3 == b * b * b
    ensures a3 < b3
  {
    var s := b * b + a * b + a * a;
    ProductPositive(b, b, b * b);
    ProductNonNegative(a, b, a * b);
    ProductNonNegative(a, a, a * a);
    ProductPositive(b - a, s, (b - a) * s);
    assert (b - a) * s == b * s - a * s;
    assert b * s == b3 + a * b * b + a * a * b && a * s == a * b * b + a * a * b + a3;
  }

  lemma CubeRootAtMost(r: real, x: real, s: real, s3: real)
    requires IsCubeRoot(r, x) && s >= 0.0 && s3 == s * s * s && x <= s3
    ensures r <= s
  {
    if r > s {
      CubeOrder(s, r, s3, x);
    }
  }

  lemma CubeRootAtLeast(r: real, x: real, s: real, s3: real)
    requires IsCubeRoot(r, x) && s >= 0.0 && s3 == s * s * s && x >= s3
    ensures r >= s
  {
    if r < s {
      CubeOrder(r, s, x, s3);
    }
  }

  /** Ten divided by the root of three is about 5.77. */
  lemma TenByRootThree(ten: real)
    requires IsTenByRootThree(ten)
    ensures 5.771 <= ten <= 5.774
  {
    RootOrder(5.771, ten, 5.771 * 5.771, ten * ten);
    RootOrder(ten, 5.774, ten * ten, 5.774 * 5.774);
  }

  // ---------------------------------------------------------------------
  // Durations that were not rounded down
  // ---------------------------------------------------------------------

  lemma SquareCovers(r: real, x: real, y: real, limit: real, d: real)
    requires limit > 0.0 && x * limit == y && IsSquareRoot(r, x) && d >= r
    ensures y <= limit * (d * d)
  {
    ProductNonNegative(d - r, d + r, d * d - r * r);
    ProductNonNegative(d * d - x, limit, limit * (d * d) - y);
  }

  lemma CubeCovers(r: real, x: real, y: real, limit: real, d: real)
    requires limit > 0.0 && x * limit == y && IsCubeRoot(r, x) && d >= r
    ensures y <= limit * (d * d * d)
  {
    if d > r {
      CubeOrder(r, d, x, d * d * d);
    }
    ProductNonNegative(d * d * d - x, limit, limit * (d * d * d) - y);
  }

  lemma SurgeTimesLimit(roots: Roots, dq: real, limit: real)
    requires IsTenByRootThree(roots.tenByRootThree) && dq >= 0.0 && limit > 0.0
    ensures SurgeTimeSquared(roots, dq, limit) * limit == roots.tenByRootThree * dq
    ensures SurgeTimeSquared(roots, dq, limit) >= 0.0
  {
    ProductNonNegative(roots.tenByRootThree, dq, roots.tenByRootThree * dq);
    RatioSign(roots.tenByRootThree * dq, limit);
  }

  lemma SurgeCovered(p: Quintic, q0: real, q1: real, d: real, roots: Roots, dq: real, limit: real)
    requires FromRest(p, q0, q1, d) && ExactRoots(roots) && dq == Abs(q1 - q0)
    requires limit > 0.0 && d >= SurgeTime(roots, dq, limit)
    ensures Keeps(Surge(p), limit)
  {
    SurgeTimesLimit(roots, dq, limit);
    SquareCovers(roots.square(SurgeTimeSquared(roots, dq, limit)), SurgeTimeSquared(roots, dq, limit),
                 roots.tenByRootThree * dq, limit, d);
    SurgeKeptIn(p, q0, q1, d, roots.tenByRootThree, limit);
  }

  lemma JoltCovered(p: Quintic, q0: real, q1: real, d: real, roots: Roots, dq: real, limit: real)
    requires FromRest(p, q0, q1, d) && ExactRoots(roots) && dq == Abs(q1 - q0)
    requires limit > 0.0 && d >= JoltTime(roots, dq, limit)
    ensures Keeps(Jolt(p), limit)
  {
    var x := JoltTimeCubed(dq, limit);
    RatioSign(60.0 * dq, limit);
    CubeCovers(roots.cube(x), x, 60.0 * dq, limit, d);
    JoltKeptIn(p, q0, q1, d, limit);
  }

  /** A plan whose duration is not rounded down keeps its positive limits of acceleration and jerk. */
  lemma KeptUnlessRoundedDown(l: Limits, roots: Roots, a: Joints, b: Joints, j: nat, d: real)
    requires |a| == |b| && AllCover(l, |a|) && j < |a| && ExactRoots(roots)
    requires LimitOf(l.acceleration, j) > 0.0 && LimitOf(l.jerk, j) > 0.0
    requires d == AutomaticDuration(l, roots, a, b) && d >= SegmentTime(l, roots, a, b, |a|)
    ensures Keeps(Surge(Only(l, a, b, d, j)), LimitOf(l.acceleration, j))
    ensures Keeps(Jolt(Only(l, a, b, d, j)), LimitOf(l.jerk, j))
  {
    SegmentTimeCovers(l, roots, a, b, |a|, j);
    OnlyIsFromRest(l, a, b, d, j);
    SurgeCovered(Only(l, a, b, d, j), a[j], b[j], d, roots, Abs(b[j] - a[j]), LimitOf(l.acceleration, j));
    JoltCovered(Only(l, a, b, d, j), a[j], b[j], d, roots, Abs(b[j] - a[j]), LimitOf(l.jerk, j));
  }

  // ---------------------------------------------------------------------
  // Durations that were rounded down
  // ---------------------------------------------------------------------

  /** The largest of a tenth and the three times of the only joint. */
  lemma OneJoint(l: Limits, roots: Roots, q: real)
    requires AllCover(l, 1) && q >= 0.0
    ensures SegmentTime(l, roots, [0.0], [q], 1) == Max(0.1, JointTime(l, roots, q, 0))
  {
    assert SegmentTime(l, roots, [0.0], [q], 0) == 0.1;
  }

  lemma RoundsTo(x: real, n: int)
    requires n as real - 0.5 < x < n as real + 0.5
    ensures RoundHalfEven(x) == n
  {
  }

  /** The limits 10, 1 and 1000. */
  function TightAcceleration(): Limits {
    Limits(Same(10.0), Same(1.0), Same(1000.0))
  }

  /** A way of 0.001733 takes a little more than a tenth of a second, and is rounded down to that. */
  lemma AccelerationRoundedDown(roots: Roots, q: real)
    requires ExactRoots(roots) && q == 0.001733
    ensures AutomaticDuration(TightAcceleration(), roots, [0.0], [q]) == 0.1
  {
    var l, ten := TightAcceleration(), roots.tenByRootThree;
    TenByRootThree(ten);
    OneJoint(l, roots, q);
    SurgeTimesLimit(roots, q, 1.0);
    SquareRootAtMost(roots.square(SurgeTimeSquared(roots, q, 1.0)), SurgeTimeSquared(roots, q, 1.0), 0.10004);
    CubeRootAtMost(roots.cube(JoltTimeCubed(q, 1000.0)), JoltTimeCubed(q, 1000.0), 0.1, 0.001);
    RoundsTo(SegmentTime(l, roots, [0.0], [q], 1) * 10000.0, 1000);
  }

  lemma SurgeBroken(l: Limits, roots: Roots, q: real, d: real, limit: real)
    requires AllCover(l, 1) && IsTenByRootThree(roots.tenByRootThree) && q >= 0.0
    requires d == AutomaticDuration(l, roots, [0.0], [q]) && q * roots.tenByRootThree > limit * (d * d)
    ensures !Keeps(Surge(Only(l, [0.0], [q], d, 0)), limit)
  {
    assert Abs([q][0] - [0.0][0]) == q;
    AccelerationKeptExactly(l, roots, [0.0], [q], 0, limit, d);
  }

  lemma TooShort(q: real, ten: real, d: real)
    requires q == 0.001733 && ten >= 5.771 && d == 0.1
    ensures q * ten > 1.0 * (d * d)
  {
  }

  /**
    The acceleration limit is not always kept: the duration of this way, as planned with the limits
    10, 1 and 1000, is rounded down so far that the acceleration exceeds its limit of 1.
  */
  lemma RoundingBreaksAccelerationLimit(roots: Roots, q: real)
    requires ExactRoots(roots) && q == 0.001733
    ensures var d := AutomaticDuration(TightAcceleration(), roots, [0.0], [q]);
      d == 0.1 && !Keeps(Surge(Only(TightAcceleration(), [0.0], [q], d, 0)), 1.0)
  {
    AccelerationRoundedDown(roots, q);
    TenByRootThree(roots.tenByRootThree);
    var d := AutomaticDuration(TightAcceleration(), roots, [0.0], [q]);
    TooShort(q, roots.tenByRootThree, d);
    SurgeBroken(TightAcceleration(), roots, q, d, 1.0);
  }

  /** The limits of a planner that is made without naming any. */
  function DefaultLimits(): Limits {
    Limits(Same(1.5), Same(3.0), Same(15.0))
  }

  /** A way that takes 0.19004 seconds, rounded 0.19, because of the jerk. */
  lemma JerkRoundedDown(roots: Roots, q: real)
    requires ExactRoots(roots) && 4.0 * q == 0.19004 * 0.19004 * 0.19004
    ensures AutomaticDuration(DefaultLimits(), roots, [0.0], [q]) == 0.19
  {
    var l, ten := DefaultLimits(), roots.tenByRootThree;
    TenByRootThree(ten);
    ProductNonNegative(5.8 - ten, q, 5.8 * q - ten * q);
    ProductNonNegative(ten, q, ten * q);
    OneJoint(l, roots, q);
    SquareRootAtMost(roots.square(SurgeTimeSquared(roots, q, 3.0)), SurgeTimeSquared(roots, q, 3.0), 0.19);
    CubeRootAtMost(roots.cube(JoltTimeCubed(q, 15.0)), JoltTimeCubed(q, 15.0), 0.19004, 4.0 * q);
    CubeRootAtLeast(roots.cube(JoltTimeCubed(q, 15.0)), JoltTimeCubed(q, 15.0), 0.19004, 4.0 * q);
    RoundsTo(0.19004 * 10000.0, 1900);
  }

  /** Nor is the jerk limit, even the default one of 15. */
  lemma RoundingBreaksJerkLimit(roots: Roots, q: real)
    requires ExactRoots(roots) && 4.0 * q == 0.19004 * 0.19004 * 0.19004
    ensures var d := AutomaticDuration(DefaultLimits(), roots, [0.0], [q]);
      d == 0.19 && !Keeps(Jolt(Only(DefaultLimits(), [0.0], [q], d, 0)), 15.0)
  {
    JerkRoundedDown(roots, q);
    JerkKeptExactly(DefaultLimits(), roots, [0.0], [q], 0, 15.0, 0.19);
  }
}
