/**
  Which limits a plan keeps between its via-points: exactly when it keeps them where the derivatives
  turn, and what follows from the waypoints alone.
*/
module ViaLimits {
  import opened Rounding
  import opened Quintic
  import opened QuinticLimits
  import opened SegmentSpeed
  import opened Turns
  import opened TrajectoryPlanner
  import opened PlanLimits

  // ---------------------------------------------------------------------
  // The derivatives of a segment as polynomials in the time
  // ---------------------------------------------------------------------

  function SurgePolynomial(p: Quintic): Cubic {
    Cubic(2.0 * p.c2, 6.0 * p.c3, 12.0 * p.c4, 20.0 * p.c5)
  }

  function JoltPolynomial(p: Quintic): Cubic {
    Cubic(6.0 * p.c3, 24.0 * p.c4, 60.0 * p.c5, 0.0)
  }

  /** The derivative of the jerk. */
  function SnapPolynomial(p: Quintic): Cubic {
    Cubic(24.0 * p.c4, 120.0 * p.c5, 0.0, 0.0)
  }

  lemma SpeedPrimitive(p: Quintic, t: real)
    ensures VelocityAt(p, Powers(t)) == Primitive(SurgePolynomial(p), p.c1, t)
  {
  }

  lemma SurgePrimitive(p: Quintic, t: real)
    ensures AccelerationAt(p, Powers(t)) == Primitive(JoltPolynomial(p), 2.0 * p.c2, t)
  {
  }

  lemma JoltPrimitive(p: Quintic, t: real)
    ensures JerkAt(p, Powers(t)) == Primitive(SnapPolynomial(p), 6.0 * p.c3, t)
  {
  }

  lemma SpeedDerivative(p: Quintic)
    requires p.duration > 0.0
    ensures HasDerivative(Speed(p), SurgePolynomial(p), p.duration)
  {
    forall x: real
      ensures Speed(p)(x) == Primitive(SurgePolynomial(p), Speed(p)(0.0), Max(0.0, Min(p.duration, x)))
    {
      SpeedPrimitive(p, Clamp(p, x));
      StartOfSegment(p);
    }
  }

  lemma SurgeDerivative(p: Quintic)
    requires p.duration > 0.0
    ensures HasDerivative(Surge(p), JoltPolynomial(p), p.duration)
  {
    forall x: real
      ensures Surge(p)(x) == Primitive(JoltPolynomial(p), Surge(p)(0.0), Max(0.0, Min(p.duration, x)))
    {
      SurgePrimitive(p, Clamp(p, x));
      StartOfSegment(p);
    }
  }

  lemma JoltDerivative(p: Quintic)
    requires p.duration > 0.0
    ensures HasDerivative(Jolt(p), SnapPolynomial(p), p.duration)
  {
    forall x: real
      ensures Jolt(p)(x) == Primitive(SnapPolynomial(p), Jolt(p)(0.0), Max(0.0, Min(p.duration, x)))
    {
      JoltPrimitive(p, Clamp(p, x));
      JoltPrimitive(p, 0.0);
    }
  }

  // ---------------------------------------------------------------------
  // Limits of any segment, exactly
  // ---------------------------------------------------------------------

  /** Where the speed of a segment turns, z being a zero of the acceleration if that is of third degree. */
  function SpeedTurns(p: Quintic, z: real, square: real -> real): seq<real> {
    CubicZeros(SurgePolynomial(p), z, square)
  }

  /** Where its acceleration turns. */
  function SurgeTurns(p: Quintic, square: real -> real): seq<real> {
    QuadraticZeros(JoltPolynomial(p), square)
  }

  /** Where its jerk turns; no root is taken. */
  function JoltTurns(p: Quintic): seq<real> {
    QuadraticZeros(SnapPolynomial(p), Constant(0.0))
  }

  lemma SpeedKeptExactly(p: Quintic, limit: real, z: real, square: real -> real)
    requires p.duration > 0.0 && ExactSquare(square) && ZeroOf(SurgePolynomial(p), z)
    ensures Keeps(Speed(p), limit) <==> KeptAtTurns(Speed(p), p.duration, SpeedTurns(p, z, square), limit)
  {
    SpeedDerivative(p);
    CubicTurns(SurgePolynomial(p), z, square);
    KeptExactly(Speed(p), SurgePolynomial(p), p.duration, SpeedTurns(p, z, square), limit);
  }

  lemma SurgeKeptExactly(p: Quintic, limit: real, square: real -> real)
    requires p.duration > 0.0 && ExactSquare(square)
    ensures Keeps(Surge(p), limit) <==> KeptAtTurns(Surge(p), p.duration, SurgeTurns(p, square), limit)
  {
    SurgeDerivative(p);
    QuadraticTurns(JoltPolynomial(p), square);
    KeptExactly(Surge(p), JoltPolynomial(p), p.duration, SurgeTurns(p, square), limit);
  }

  lemma JoltKeptExactly(p: Quintic, limit: real)
    requires p.duration > 0.0
    ensures Keeps(Jolt(p), limit) <==> KeptAtTurns(Jolt(p), p.duration, JoltTurns(p), limit)
  {
    JoltDerivative(p);
    QuadraticTurns(SnapPolynomial(p), Constant(0.0));
    KeptExactly(Jolt(p), SnapPolynomial(p), p.duration, JoltTurns(p), limit);
  }

  // ---------------------------------------------------------------------
  // Limits of a plan, exactly
  // ---------------------------------------------------------------------

  /** Joint j between waypoint k and the next. */
  function Piece(w: seq<Joints>, d: seq<real>, l: Limits, k: nat, j: nat): Quintic
    requires |d| == |w| - 1 && k < |d| && SameLength(w, |w[0]|) && j < |w[0]| && AllCover(l, |w[0]|)
  {
    SegmentOf(w, d, l, k).polynomials[j]
  }

  lemma PieceIs(w: seq<Joints>, d: seq<real>, l: Limits, k: nat, j: nat)
    requires |d| == |w| - 1 && k < |d| && SameLength(w, |w[0]|) && j < |w[0]| && AllCover(l, |w[0]|)
    ensures Piece(w, d, l, k, j) == Segment(Via(w, d, l, k, j), Via(w, d, l, k + 1, j), d[k])
    ensures Piece(w, d, l, k, j).duration == d[k]
  {
  }

  /** The limit is kept wherever the derivative turns. */
  ghost predicate WithinAll(v: real -> real, limit: real, times: seq<real>) {
    forall t <- times :: Within(v, limit, t)
  }

  lemma ViaEnds(w: seq<Joints>, d: seq<real>, l: Limits, k: nat, j: nat)
    requires |d| == |w| - 1 && k < |d| && SameLength(w, |w[0]|) && j < |w[0]| && AllCover(l, |w[0]|) && d[k] > 0.0
    ensures var p, lv, la := Piece(w, d, l, k, j), Abs(LimitOf(l.velocity, j)), Abs(LimitOf(l.acceleration, j));
      && Within(Speed(p), lv, 0.0) && Within(Speed(p), lv, d[k])
      && Within(Surge(p), la, 0.0) && Within(Surge(p), la, d[k])
  {
    SegmentMeetsWaypoints(w, d, l, k, j);
    ViaVelocityIsModest(w, d, l, k, j);
    ViaVelocityIsModest(w, d, l, k + 1, j);
    ViaAccelerationIsModest(w, d, l, k, j);
    ViaAccelerationIsModest(w, d, l, k + 1, j);
    var p := Piece(w, d, l, k, j);
    assert StateAt(p, 0.0) == Via(w, d, l, k, j) && StateAt(p, d[k]) == Via(w, d, l, k + 1, j);
  }

  /** Between any two waypoints the velocity limit is kept exactly when it is kept where the speed turns. */
  lemma ViaSpeedKeptExactly(w: seq<Joints>, d: seq<real>, l: Limits, k: nat, j: nat, z: real, square: real -> real)
    requires |d| == |w| - 1 && k < |d| && SameLength(w, |w[0]|) && j < |w[0]| && AllCover(l, |w[0]|) && d[k] > 0.0
    requires ExactSquare(square) && ZeroOf(SurgePolynomial(Piece(w, d, l, k, j)), z)
    ensures var p, limit := Piece(w, d, l, k, j), LimitOf(l.velocity, j);
      Keeps(Speed(p), limit) <==> limit >= 0.0 && WithinAll(Speed(p), limit, SpeedTurns(p, z, square))
  {
    PieceIs(w, d, l, k, j);
    ViaEnds(w, d, l, k, j);
    SpeedKeptExactly(Piece(w, d, l, k, j), LimitOf(l.velocity, j), z, square);
  }

  /** Likewise for the acceleration limit. */
  lemma ViaSurgeKeptExactly(w: seq<Joints>, d: seq<real>, l: Limits, k: nat, j: nat, square: real -> real)
    requires |d| == |w| - 1 && k < |d| && SameLength(w, |w[0]|) && j < |w[0]| && AllCover(l, |w[0]|) && d[k] > 0.0
    requires ExactSquare(square)
    ensures var p, limit := Piece(w, d, l, k, j), LimitOf(l.acceleration, j);
      Keeps(Surge(p), limit) <==> limit >= 0.0 && WithinAll(Surge(p), limit, SurgeTurns(p, square))
  {
    PieceIs(w, d, l, k, j);
    ViaEnds(w, d, l, k, j);
    SurgeKeptExactly(Piece(w, d, l, k, j), LimitOf(l.acceleration, j), square);
  }

  /** The jerk is not planned at the waypoints, so its limit has to be kept there as well. */
  lemma ViaJoltKeptExactly(w: seq<Joints>, d: seq<real>, l: Limits, k: nat, j: nat)
    requires |d| == |w| - 1 && k < |d| && SameLength(w, |w[0]|) && j < |w[0]| && AllCover(l, |w[0]|) && d[k] > 0.0
    ensures var p, limit := Piece(w, d, l, k, j), LimitOf(l.jerk, j);
      Keeps(Jolt(p), limit) <==> WithinAll(Jolt(p), limit, [0.0, d[k]] + JoltTurns(p))
  {
    PieceIs(w, d, l, k, j);
    var p, limit := Piece(w, d, l, k, j), LimitOf(l.jerk, j);
    JoltKeptExactly(p, limit);
    TwoMore(Jolt(p), limit, 0.0, d[k], JoltTurns(p));
  }

  lemma TwoMore(v: real -> real, limit: real, a: real, b: real, times: seq<real>)
    ensures WithinAll(v, limit, [a, b] + times)
       <==> Within(v, limit, a) && Within(v, limit, b) && WithinAll(v, limit, times)
  {
    var all := [a, b] + times;
    assert all[0] == a && all[1] == b;
    assert forall t :: t in all <==> t == a || t == b || t in times;
  }

  // ---------------------------------------------------------------------
  // What the waypoints alone say about the velocity limit
  // ---------------------------------------------------------------------

  /** The way and the demands at the ends leave room below the limit for the time t, with the square t2. */
  ghost predicate LongEnough(s: End, e: End, t: real, t2: real, limit: real) {
    1.875 * Abs(e.q - s.q) + Abs(s.v) * t + Abs(e.v) * t + 0.25 * (Abs(s.a) * t2) + 0.25 * (Abs(e.a) * t2) <= limit * t
  }

  lemma AtMostWithin(v: real, s: End, e: End, t: real, t2: real, limit: real)
    requires t > 0.0 && AtMost(v, s, e, t, t2) && LongEnough(s, e, t, t2, limit)
    ensures Abs(v) <= limit
  {
    LessAfterDivision(Abs(v), limit, t, Abs(v) * t, limit * t);
  }

  /** A segment that is long enough keeps the velocity limit. */
  lemma LongEnoughKeeps(s: End, e: End, t: real, t2: real, limit: real)
    requires t > 0.0 && t2 == t * t && LongEnough(s, e, t, t2, limit)
    ensures Keeps(Speed(Segment(s, e, t)), limit)
  {
    forall at: real
      ensures Within(Speed(Segment(s, e, t)), limit, at)
    {
      AnySpeedBound(s, e, t, t2, at);
      assert AtMost(Velocity(Segment(s, e, t), at), s, e, t, t2);
      AtMostWithin(Velocity(Segment(s, e, t), at), s, e, t, t2, limit);
    }
  }

  /** The shares of a segment in the middle of its time. */
  function HalfwayShare(): Five {
    Five(1.875, -0.4375, -0.4375, -0.03125, 0.03125)
  }

  /** What the middle of the time demands. */
  ghost predicate HalfwayWithin(r: Five, t: real, limit: real) {
    Abs(1.875 * r.way - 0.4375 * r.v0 - 0.4375 * r.v1 - 0.03125 * r.a0 + 0.03125 * r.a1) <= limit * t
  }

  lemma HalfwayMade(vt: real, v: real, r: Five, t: real, limit: real)
    requires t > 0.0 && vt == v * t && MadeOf(vt, r, HalfwayShare()) && Abs(v) <= limit
    ensures HalfwayWithin(r, t, limit)
  {
    AbsOfTimes(v, t, vt);
    LessAfterDivision(Abs(v), limit, t, Abs(v) * t, limit * t);
  }

  /** A segment that keeps the velocity limit keeps it in the middle of its time. */
  lemma KeepsOnlyIf(r: Five, s: End, e: End, t: real, t2: real, limit: real)
    requires t > 0.0 && t2 == t * t && DemandIs(r, s, e, t, t2) && Keeps(Speed(Segment(s, e, t)), limit)
    ensures HalfwayWithin(r, t, limit)
  {
    var at := 0.5 * t;
    var v := Velocity(Segment(s, e, t), at);
    HalfwayVelocity(r, s, e, t, t2, at);
    assert Within(Speed(Segment(s, e, t)), limit, at);
    HalfwayMade(v * t, v, r, t, limit);
  }

  // ---------------------------------------------------------------------
  // Equal velocities and no accelerations at both ends
  // ---------------------------------------------------------------------

  /** A straight line in the share of the way stays within what it is at both ends. */
  lemma LineWithin(p: real, q: real, f: real, qf: real, bound: real)
    requires 0.0 <= f <= 1.875 && qf == q * f && Abs(p) <= bound && Abs(p + 1.875 * q) <= bound
    ensures Abs(p + qf) <= bound
  {
    if q >= 0.0 {
      ProductNonNegative(q, f, qf);
      ProductNonNegative(q, 1.875 - f, 1.875 * q - qf);
    } else {
      ProductNonNegative(-q, f, -qf);
      ProductNonNegative(-q, 1.875 - f, -1.875 * q + qf);
    }
  }

  lemma EqualEndsMade(vt: real, r: Five, f: Five)
    requires MadeOf(vt, r, f) && r.v0 == r.v1 && r.a0 == 0.0 && r.a1 == 0.0 && f.v0 + f.v1 == 1.0 - f.way
    ensures vt == r.v0 + (r.way - r.v0) * f.way
  {
    assert r.v0 * f.v0 + r.v1 * f.v1 == r.v0 * (f.v0 + f.v1) == r.v0 * (1.0 - f.way);
  }

  lemma EqualEndsAt(r: Five, s: End, e: End, t: real, t2: real, at: real, v: real, bound: real)
    requires t > 0.0 && t2 == t * t && DemandIs(r, s, e, t, t2) && v == Velocity(Segment(s, e, t), at)
    requires r.v0 == r.v1 && r.a0 == 0.0 && r.a1 == 0.0
    requires Abs(r.v0) <= bound && Abs(1.875 * r.way - 0.875 * r.v0) <= bound
    ensures Abs(v * t) <= bound
  {
    var f := AnyShares(r, s, e, t, t2, at, v);
    EqualEndsMade(v * t, r, f);
    LineWithin(r.v0, r.way - r.v0, f.way, (r.way - r.v0) * f.way, bound);
  }

  ghost predicate EqualEnds(r: Five) {
    r.v0 == r.v1 && r.a0 == 0.0 && r.a1 == 0.0
  }

  /** At the start such a segment has the velocity v0, and in the middle what is left of the way without it. */
  ghost predicate EqualEndsWithin(r: Five, bound: real) {
    Abs(r.v0) <= bound && Abs(1.875 * r.way - 0.875 * r.v0) <= bound
  }

  lemma EqualEndsKeep(r: Five, s: End, e: End, t: real, t2: real, limit: real)
    requires t > 0.0 && t2 == t * t && DemandIs(r, s, e, t, t2) && EqualEnds(r) && EqualEndsWithin(r, limit * t)
    ensures Keeps(Speed(Segment(s, e, t)), limit)
  {
    forall at: real
      ensures Within(Speed(Segment(s, e, t)), limit, at)
    {
      var v := Velocity(Segment(s, e, t), at);
      EqualEndsAt(r, s, e, t, t2, at, v, limit * t);
      WithinAfterDivision(v, v * t, t, limit);
    }
  }

  lemma WithinAfterDivision(v: real, vt: real, t: real, limit: real)
    requires t > 0.0 && vt == v * t
    ensures Abs(vt) <= limit * t <==> Abs(v) <= limit
  {
    AbsOfTimes(v, t, vt);
    LessAfterDivision(Abs(v), limit, t, Abs(v) * t, limit * t);
  }

  lemma KeptEqualEnds(r: Five, s: End, e: End, t: real, t2: real, limit: real)
    requires t > 0.0 && t2 == t * t && DemandIs(r, s, e, t, t2) && EqualEnds(r)
    requires Keeps(Speed(Segment(s, e, t)), limit)
    ensures EqualEndsWithin(r, limit * t)
  {
    KeepsOnlyIf(r, s, e, t, t2, limit);
    BoundaryConditions(s, e, t);
    assert Within(Speed(Segment(s, e, t)), limit, 0.0);
    assert StateAt(Segment(s, e, t), 0.0).v == s.v;
    WithinAfterDivision(s.v, r.v0, t, limit);
  }

  /** With equal velocities and no accelerations at both ends, this decides about the velocity limit. */
  lemma EqualEndsKeptExactly(r: Five, s: End, e: End, t: real, t2: real, limit: real)
    requires t > 0.0 && t2 == t * t && DemandIs(r, s, e, t, t2)
    requires s.v == e.v && s.a == 0.0 && e.a == 0.0
    ensures Keeps(Speed(Segment(s, e, t)), limit) <==> EqualEndsWithin(r, limit * t)
  {
    assert EqualEnds(r);
    if EqualEndsWithin(r, limit * t) {
      EqualEndsKeep(r, s, e, t, t2, limit);
    }
    if Keeps(Speed(Segment(s, e, t)), limit) {
      KeptEqualEnds(r, s, e, t, t2, limit);
    }
  }

  /**
    What the ends alone say about the limit of a speed v: it is kept when the segment is long
    enough, only if it is kept in the middle, and with equal ends exactly under one condition.
  */
  ghost predicate DecidedByEnds(v: real -> real, r: Five, s: End, e: End, t: real, t2: real, limit: real) {
    && (LongEnough(s, e, t, t2, limit) ==> Keeps(v, limit))
    && (Keeps(v, limit) ==> HalfwayWithin(r, t, limit))
    && (s.v == e.v && s.a == 0.0 && e.a == 0.0 ==> (Keeps(v, limit) <==> EqualEndsWithin(r, limit * t)))
  }

  lemma FromEnds(r: Five, s: End, e: End, t: real, t2: real, limit: real)
    requires t > 0.0 && t2 == t * t && DemandIs(r, s, e, t, t2)
    ensures DecidedByEnds(Speed(Segment(s, e, t)), r, s, e, t, t2, limit)
  {
    if LongEnough(s, e, t, t2, limit) {
      LongEnoughKeeps(s, e, t, t2, limit);
    }
    if Keeps(Speed(Segment(s, e, t)), limit) {
      KeepsOnlyIf(r, s, e, t, t2, limit);
    }
    if s.v == e.v && s.a == 0.0 && e.a == 0.0 {
      EqualEndsKeptExactly(r, s, e, t, t2, limit);
    }
  }

  /** The same for any two waypoints of a plan. */
  lemma ViaSpeedFromWaypoints(w: seq<Joints>, d: seq<real>, l: Limits, k: nat, j: nat, t: real, t2: real, r: Five)
    requires |d| == |w| - 1 && k < |d| && SameLength(w, |w[0]|) && j < |w[0]| && AllCover(l, |w[0]|)
    requires t == d[k] && t > 0.0 && t2 == t * t && DemandIs(r, Via(w, d, l, k, j), Via(w, d, l, k + 1, j), t, t2)
    ensures DecidedByEnds(Speed(Piece(w, d, l, k, j)), r, Via(w, d, l, k, j), Via(w, d, l, k + 1, j), t, t2,
                          LimitOf(l.velocity, j))
  {
    PieceIs(w, d, l, k, j);
    var s, e := Via(w, d, l, k, j), Via(w, d, l, k + 1, j);
    FromEnds(r, s, e, t, t2, LimitOf(l.velocity, j));
    assert Piece(w, d, l, k, j) == Segment(s, e, t);
    assert DecidedByEnds(Speed(Segment(s, e, t)), r, s, e, t, t2, LimitOf(l.velocity, j));
  }

  /** What is possible within a velocity limit and an acceleration limit at the ends. */
  ghost predicate ViaAtMost(v: real, dq: real, lv: real, la: real, t: real, t2: real) {
    Abs(v) * t <= 1.875 * Abs(dq) + 2.0 * (lv * t) + 0.5 * (la * t2)
  }

  lemma AtMostGrows(v: real, s: End, e: End, t: real, t2: real, lv: real, la: real)
    requires t > 0.0 && t2 > 0.0 && AtMost(v, s, e, t, t2)
    requires Abs(s.v) <= lv && Abs(e.v) <= lv && Abs(s.a) <= la && Abs(e.a) <= la
    ensures ViaAtMost(v, e.q - s.q, lv, la, t, t2)
  {
    Grows(Abs(v) * t, 1.875 * Abs(e.q - s.q), Abs(s.v), Abs(e.v), Abs(s.a), Abs(e.a), t, t2, lv, la);
  }

  lemma Grows(x: real, q: real, a: real, b: real, c: real, d: real, t: real, t2: real, lv: real, la: real)
    requires t > 0.0 && t2 > 0.0 && a <= lv && b <= lv && c <= la && d <= la
    requires x <= q + a * t + b * t + 0.25 * (c * t2) + 0.25 * (d * t2)
    ensures x <= q + 2.0 * (lv * t) + 0.5 * (la * t2)
  {
    TimesGrows(a, lv, t);
    TimesGrows(b, lv, t);
    TimesGrows(c, la, t2);
    TimesGrows(d, la, t2);
  }

  lemma TimesGrows(a: real, b: real, m: real)
    requires a <= b && m > 0.0
    ensures a * m <= b * m
  {
    ProductNonNegative(b - a, m, b * m - a * m);
  }

  lemma ViaSpeedWithin(s: End, e: End, t: real, t2: real, at: real, lv: real, la: real)
    requires t > 0.0 && t2 == t * t
    requires Abs(s.v) <= lv && Abs(e.v) <= lv && Abs(s.a) <= la && Abs(e.a) <= la
    ensures ViaAtMost(Velocity(Segment(s, e, t), at), e.q - s.q, lv, la, t, t2)
  {
    AnySpeedBound(s, e, t, t2, at);
    ProductPositive(t, t, t2);
    assert AtMost(Velocity(Segment(s, e, t), at), s, e, t, t2);
    AtMostGrows(Velocity(Segment(s, e, t), at), s, e, t, t2, lv, la);
  }

  /** The speed between any two waypoints of a plan, whatever its durations are. */
  lemma ViaSpeedBound(w: seq<Joints>, d: seq<real>, l: Limits, k: nat, j: nat, at: real, t: real, t2: real)
    requires |d| == |w| - 1 && k < |d| && SameLength(w, |w[0]|) && j < |w[0]| && AllCover(l, |w[0]|)
    requires t == d[k] && t > 0.0 && t2 == t * t
    ensures ViaAtMost(Velocity(SegmentOf(w, d, l, k).polynomials[j], at), w[k + 1][j] - w[k][j],
                      Abs(LimitOf(l.velocity, j)), Abs(LimitOf(l.acceleration, j)), t, t2)
  {
    ViaVelocityIsModest(w, d, l, k, j);
    ViaVelocityIsModest(w, d, l, k + 1, j);
    ViaAccelerationIsModest(w, d, l, k, j);
    ViaAccelerationIsModest(w, d, l, k + 1, j);
    var s, e := Via(w, d, l, k, j), Via(w, d, l, k + 1, j);
    assert SegmentOf(w, d, l, k).polynomials[j] == Segment(s, e, t);
    ViaSpeedWithin(s, e, t, t2, at, Abs(LimitOf(l.velocity, j)), Abs(LimitOf(l.acceleration, j)));
  }

  /** Four waypoints of one joint that turns back in the middle. */
  function Zigzag(): seq<Joints> {
    [[0.0], [10.0], [9.0], [19.0]]
  }

  /** The time that a way takes with the default limits, before and after rounding. */
  lemma DefaultTime(roots: Roots, p: real, q: real)
    requires ExactRoots(roots)
    ensures SegmentTime(DefaultLimits(), roots, [p], [q], 1)
         == Max(0.1, JointTime(DefaultLimits(), roots, Abs(q - p), 0))
  {
    assert SegmentTime(DefaultLimits(), roots, [p], [q], 0) == 0.1;
  }

  /** A way of 10 takes 14.6667 seconds, because of the speed. */
  lemma LongWay(roots: Roots, p: real, q: real)
    requires ExactRoots(roots) && q - p == 10.0
    ensures AutomaticDuration(DefaultLimits(), roots, [p], [q]) == 14.6667
  {
    var ten := roots.tenByRootThree;
    TenByRootThree(ten);
    DefaultTime(roots, p, q);
    SquareRootAtMost(roots.square(SurgeTimeSquared(roots, 10.0, 3.0)), SurgeTimeSquared(roots, 10.0, 3.0), 5.0);
    CubeRootAtMost(roots.cube(JoltTimeCubed(10.0, 15.0)), 40.0, 4.0, 64.0);
    RoundsTo(22.0 / 1.5 * 10000.0, 146667);
  }

  /** A way of 1 takes 1.5874 seconds, because of the jerk. */
  lemma WayBack(roots: Roots, p: real, q: real)
    requires ExactRoots(roots) && q - p == -1.0
    ensures AutomaticDuration(DefaultLimits(), roots, [p], [q]) == 1.5874
  {
    var ten := roots.tenByRootThree;
    var r := roots.cube(JoltTimeCubed(1.0, 15.0));
    TenByRootThree(ten);
    DefaultTime(roots, p, q);
    SquareRootAtMost(roots.square(SurgeTimeSquared(roots, 1.0, 3.0)), SurgeTimeSquared(roots, 1.0, 3.0), 1.4);
    CubeRootAtLeast(r, 4.0, 1.5874, 1.5874 * 1.5874 * 1.5874);
    CubeRootAtMost(r, 4.0, 1.58742, 1.58742 * 1.58742 * 1.58742);
    RoundsTo(r * 10000.0, 15874);
  }

  /** What the middle segment starts and ends with. */
  lemma Middle(d: seq<real>)
    requires d == [14.6667, 1.5874, 14.6667]
    ensures var s, e := Via(Zigzag(), d, DefaultLimits(), 1, 0), Via(Zigzag(), d, DefaultLimits(), 2, 0);
      TurnsBack(s, e)
  {
    var w, l := Zigzag(), DefaultLimits();
    var v := 9.0 / 16.2541;
    assert 0.55 <= v <= 0.56;
    assert ViaVelocity(w, d, l, 0, 0) == 0.0;
    assert ViaVelocity(w, d, l, 1, 0) == v;
    assert ViaVelocity(w, d, l, 2, 0) == v;
    assert ViaAcceleration(w, d, l, 1, 0) == Bound(3.0, 2.0 * (v - 0.0) / 14.6667);
    assert ViaAcceleration(w, d, l, 2, 0) == Bound(3.0, 2.0 * (v - v) / 1.5874);
  }

  /** The middle of the way back is passed too fast. */
  lemma TooFast(r: Five, s: End, e: End, t: real, t2: real, v: real)
    requires TurnsBack(s, e)
    requires DemandIs(r, s, e, t, t2) && t == 1.5874 && t2 >= 0.0
    requires MadeOf(v * t, r, HalfwayShare())
    ensures v < -1.6
  {
    ProductNonNegative(s.a, t2, r.a0);
    assert v * t <= -1.875 - 0.875 * (0.55 * 1.5874);
  }

  /** The jerk at the start of a segment, times the cube of the duration. */
  ghost predicate StartJoltIs(jt: real, r: Five) {
    jt == 60.0 * r.way - 24.0 * r.v1 - 36.0 * r.v0 - 9.0 * r.a0 + 3.0 * r.a1
  }

  /** The acceleration after a fifth of the time, times the square of the duration. */
  ghost predicate FifthSurgeIs(at2: real, r: Five) {
    at2 == 5.76 * r.way - 1.92 * r.v1 - 3.84 * r.v0 - 0.16 * r.a0 + 0.2 * r.a1
  }

  lemma JoltFromDemand(r: Five, p: Quintic, s: End, e: End, x: Six, j: real, t3: real)
    requires Fits(p, s, e, x) && DemandIs(r, s, e, x[1], x[2]) && j == 6.0 * p.c3 && t3 == x[3]
    ensures StartJoltIs(j * t3, r)
  {
    HalvesOf(s, e, x[1], x[2]);
    assert j * t3 == 6.0 * (p.c3 * x[3]);
  }

  lemma StartJolt(p: Quintic)
    requires p.duration > 0.0
    ensures Jolt(p)(0.0) == 6.0 * p.c3
  {
    JoltPrimitive(p, 0.0);
    assert Clamp(p, 0.0) == 0.0;
  }

  lemma JoltAtStartOf(r: Five, s: End, e: End, t: real, t2: real, t3: real, j: real)
    requires t > 0.0 && t2 == t * t && t3 == Powers(t)[3] && DemandIs(r, s, e, t, t2)
    requires j == Jolt(Segment(s, e, t))(0.0)
    ensures StartJoltIs(j * t3, r)
  {
    var p := Segment(s, e, t);
    SegmentFits(s, e, t);
    StartJolt(p);
    JoltFromDemand(r, p, s, e, Powers(t), j, t3);
  }

  /** The terms of an acceleration times the square of the duration. */
  lemma SurgeTerms(p: Quintic, x: Six, y: Six, z: Six, a0: real, w3: real, w4: real, w5: real, a: real, t2: real)
    requires Scaled(x, y, z) && w3 == p.c3 * x[3] && w4 == p.c4 * x[4] && w5 == p.c5 * x[5]
    requires a == AccelerationAt(p, z) && t2 == x[2] && a0 == 2.0 * p.c2 * t2
    ensures a * t2 == a0 + 6.0 * (w3 * y[1]) + 12.0 * (w4 * y[2]) + 20.0 * (w5 * y[3])
  {
    OneShare(p.c3, x, y, z, 1, 2, 3, w3);
    OneShare(p.c4, x, y, z, 2, 2, 4, w4);
    OneShare(p.c5, x, y, z, 3, 2, 5, w5);
    SumTimes(a, 2.0 * p.c2, p.c3 * z[1], p.c4 * z[2], p.c5 * z[3], t2);
  }

  lemma SumTimes(a: real, k0: real, u3: real, u4: real, u5: real, t2: real)
    requires a == k0 + 6.0 * u3 + 12.0 * u4 + 20.0 * u5
    ensures a * t2 == k0 * t2 + 6.0 * (u3 * t2) + 12.0 * (u4 * t2) + 20.0 * (u5 * t2)
  {
  }

  lemma FifthAt(p: Quintic, t: real, at: real, y: Six)
    requires t > 0.0 && p.duration == t && at == 0.2 * t && y == Powers(0.2)
    ensures Clamp(p, at) == at && Scaled(Powers(t), y, Powers(at))
    ensures y[1] == 0.2 && y[2] == 0.04 && y[3] == 0.008
  {
    PowersArePowers(0.2);
    PowersArePowers(t);
    PowersArePowers(at);
  }

  lemma FifthFromDemand(r: Five, p: Quintic, s: End, e: End, x: Six, y: Six, z: Six, a: real, t2: real)
    requires Scaled(x, y, z) && Fits(p, s, e, x) && DemandIs(r, s, e, x[1], x[2])
    requires y[1] == 0.2 && y[2] == 0.04 && y[3] == 0.008 && a == AccelerationAt(p, z) && t2 == x[2]
    ensures FifthSurgeIs(a * t2, r)
  {
    SurgeTerms(p, x, y, z, r.a0, p.c3 * x[3], p.c4 * x[4], p.c5 * x[5], a, t2);
    HalvesOf(s, e, x[1], x[2]);
  }

  /** The acceleration after a fifth of the time. */
  lemma SurgeAtFifth(r: Five, s: End, e: End, t: real, t2: real, at: real, a: real)
    requires t > 0.0 && t2 == t * t && at == 0.2 * t && DemandIs(r, s, e, t, t2)
    requires a == Surge(Segment(s, e, t))(at)
    ensures FifthSurgeIs(a * t2, r)
  {
    var p := Segment(s, e, t);
    SegmentFits(s, e, t);
    FifthAt(p, t, at, Powers(0.2));
    FifthFromDemand(r, p, s, e, Powers(t), Powers(0.2), Powers(at), a, t2);
  }

  /**
    Between via-points the velocity limit is not kept: with the default limits and automatic
    durations, a joint sent through 0, 10, 9 and 19 gets faster than 1.6, and its limit is 1.5.
  */
  lemma ViaPointsBreakSpeedLimit(roots: Roots, d: seq<real>)
    requires ExactRoots(roots) && |d| == 3
    requires forall k :: 0 <= k < 3 ==> d[k] == AutomaticDuration(DefaultLimits(), roots, Zigzag()[k], Zigzag()[k + 1])
    ensures Velocity(SegmentOf(Zigzag(), d, DefaultLimits(), 1).polynomials[0], 0.7937) < -1.6
  {
    ZigzagDurations(roots, d);
    Middle(d);
    var s, e := Via(Zigzag(), d, DefaultLimits(), 1, 0), Via(Zigzag(), d, DefaultLimits(), 2, 0);
    var t2 := 1.5874 * 1.5874;
    var r := Five(e.q - s.q, s.v * 1.5874, e.v * 1.5874, s.a * t2, e.a * t2);
    HalfwayVelocity(r, s, e, 1.5874, t2, 0.7937);
    TooFast(r, s, e, 1.5874, t2, Velocity(Segment(s, e, 1.5874), 0.7937));
  }

  /** What turning back demands, as for the velocity. */
  ghost predicate TurnsBack(s: End, e: End) {
    s.q == 10.0 && e.q == 9.0 && s.v == e.v && 0.55 <= s.v && s.a >= 0.0 && e.a == 0.0
  }

  lemma TooHard(r: Five, s: End, e: End, t: real, t2: real, a: real)
    requires TurnsBack(s, e) && DemandIs(r, s, e, t, t2) && t == 1.5874 && t2 == 2.51983876
    requires FifthSurgeIs(a * t2, r)
    ensures a < -4.0
  {
    ProductNonNegative(s.a, t2, r.a0);
    assert r.v0 >= 0.55 * 1.5874;
  }

  lemma TooJerky(r: Five, s: End, e: End, t: real, t2: real, t3: real, j: real)
    requires TurnsBack(s, e) && DemandIs(r, s, e, t, t2) && t == 1.5874 && t2 >= 0.0 && 0.0 < t3 <= 4.1
    requires StartJoltIs(j * t3, r)
    ensures j < -25.0
  {
    ProductNonNegative(s.a, t2, r.a0);
    assert r.v0 >= 0.55 * 1.5874;
    if j >= -25.0 {
      ProductNonNegative(j + 25.0, t3, j * t3 + 25.0 * t3);
    }
  }

  /** The durations that are planned for the way there, back and there. */
  lemma ZigzagDurations(roots: Roots, d: seq<real>)
    requires ExactRoots(roots) && |d| == 3
    requires forall k :: 0 <= k < 3 ==> d[k] == AutomaticDuration(DefaultLimits(), roots, Zigzag()[k], Zigzag()[k + 1])
    ensures d == [14.6667, 1.5874, 14.6667]
  {
    LongWay(roots, 0.0, 10.0);
    WayBack(roots, 10.0, 9.0);
    LongWay(roots, 9.0, 19.0);
    assert Zigzag()[0] == [0.0] && Zigzag()[1] == [10.0] && Zigzag()[2] == [9.0] && Zigzag()[3] == [19.0];
  }

  /** Neither are the acceleration limit of 3 and the jerk limit of 15, on the same way. */
  lemma ViaPointsBreakOtherLimits(roots: Roots, d: seq<real>)
    requires ExactRoots(roots) && |d| == 3
    requires forall k :: 0 <= k < 3 ==> d[k] == AutomaticDuration(DefaultLimits(), roots, Zigzag()[k], Zigzag()[k + 1])
    ensures Surge(Piece(Zigzag(), d, DefaultLimits(), 1, 0))(0.31748) < -4.0
    ensures Jolt(Piece(Zigzag(), d, DefaultLimits(), 1, 0))(0.0) < -25.0
  {
    ZigzagDurations(roots, d);
    Middle(d);
    PieceIs(Zigzag(), d, DefaultLimits(), 1, 0);
    var s, e := Via(Zigzag(), d, DefaultLimits(), 1, 0), Via(Zigzag(), d, DefaultLimits(), 2, 0);
    TurnedBack(s, e, 1.5874, 1.5874 * 1.5874, Powers(1.5874)[3]);
  }

  lemma TurnedBack(s: End, e: End, t: real, t2: real, t3: real)
    requires TurnsBack(s, e) && t == 1.5874 && t2 == t * t && t3 == Powers(t)[3]
    ensures Surge(Segment(s, e, t))(0.31748) < -4.0 && Jolt(Segment(s, e, t))(0.0) < -25.0
  {
    var r := Five(e.q - s.q, s.v * t, e.v * t, s.a * t2, e.a * t2);
    var a, j := Surge(Segment(s, e, t))(0.31748), Jolt(Segment(s, e, t))(0.0);
    SurgeAtFifth(r, s, e, t, t2, 0.31748, a);
    TooHard(r, s, e, t, t2, a);
    JoltAtStartOf(r, s, e, t, t2, t3, j);
    TooJerky(r, s, e, t, t2, t3, j);
  }
}
