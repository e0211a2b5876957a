/**
  The multi-segment trajectory planner: durations from the limits, velocities and accelerations at
  the via-points, and segments that join there.
*/
module TrajectoryPlanner {
  import opened Wrappers
  import opened Rounding
  import opened Quintic
  import opened QuinticLimits

  type Joints = seq<real>

  /** One limit for all joints, or one for each. */
  datatype Limit = Same(limit: real) | Each(limits: seq<real>)

  predicate Covers(l: Limit, joints: nat) {
    l.Each? ==> joints <= |l.limits|
  }

  function LimitOf(l: Limit, j: nat): real
    requires Covers(l, j + 1)
  {
    if l.Same? then l.limit else l.limits[j]
  }

  datatype Limits = Limits(velocity: Limit, acceleration: Limit, jerk: Limit)

  predicate AllCover(l: Limits, joints: nat) {
    Covers(l.velocity, joints) && Covers(l.acceleration, joints) && Covers(l.jerk, joints)
  }

  /** Square and cube root as the runtime computes them, and ten divided by the square root of three. */
  datatype Roots = Roots(square: real -> real, cube: real -> real, tenByRootThree: real)

  predicate SameLength(w: seq<Joints>, joints: nat) {
    forall k :: 0 <= k < |w| ==> |w[k]| == joints
  }

  // ---------------------------------------------------------------------
  // Durations
  // ---------------------------------------------------------------------

  /** A quotient; limits and durations that it is taken by are never zero. */
  function Ratio(n: real, d: real): real {
    if d != 0.0 then n / d else 0.0
  }

  function SpeedTime(dq: real, limit: real): real {
    if limit > 0.0 then 2.2 * (dq / limit) else 0.1
  }

  function SurgeTimeSquared(roots: Roots, dq: real, limit: real): real {
    Ratio(roots.tenByRootThree * dq, limit)
  }

  function JoltTimeCubed(dq: real, limit: real): real {
    Ratio(60.0 * dq, limit)
  }

  function SurgeTime(roots: Roots, dq: real, limit: real): real {
    if limit > 0.0 then roots.square(SurgeTimeSquared(roots, dq, limit)) else 0.1
  }

  function JoltTime(roots: Roots, dq: real, limit: real): real {
    if limit > 0.0 then roots.cube(JoltTimeCubed(dq, limit)) else 0.1
  }

  function JointTime(l: Limits, roots: Roots, dq: real, j: nat): real
    requires AllCover(l, j + 1)
  {
    Max(SpeedTime(dq, LimitOf(l.velocity, j)),
        Max(SurgeTime(roots, dq, LimitOf(l.acceleration, j)), JoltTime(roots, dq, LimitOf(l.jerk, j))))
  }

  /** The time the first n joints need, at least a tenth of a second. */
  function SegmentTime(l: Limits, roots: Roots, a: Joints, b: Joints, n: nat): (t: real)
    requires AllCover(l, n) && n <= |a| && n <= |b|
    ensures t >= 0.1
  {
    if n == 0 then 0.1
    else Max(SegmentTime(l, roots, a, b, n - 1), JointTime(l, roots, Abs(b[n - 1] - a[n - 1]), n - 1))
  }

  lemma {:induction false} SegmentTimeCovers(l: Limits, roots: Roots, a: Joints, b: Joints, n: nat, j: nat)
    requires AllCover(l, n) && n <= |a| && n <= |b| && j < n
    ensures SegmentTime(l, roots, a, b, n) >= SpeedTime(Abs(b[j] - a[j]), LimitOf(l.velocity, j))
    ensures SegmentTime(l, roots, a, b, n) >= SurgeTime(roots, Abs(b[j] - a[j]), LimitOf(l.acceleration, j))
    ensures SegmentTime(l, roots, a, b, n) >= JoltTime(roots, Abs(b[j] - a[j]), LimitOf(l.jerk, j))
    decreases n
  {
    if j < n - 1 {
      SegmentTimeCovers(l, roots, a, b, n - 1, j);
    }
  }

  /** A tenth is a tenth after rounding, and rounding takes away at most half of a ten-thousandth. */
  lemma RoundedTime(t: real)
    requires t >= 0.1
    ensures Round4(t) >= 0.1 && Round4(t) >= t - 0.00005
  {
    assert t * 10000.0 >= 1000.0;
    assert RoundHalfEven(t * 10000.0) >= 1000;
  }

  /** The arithmetic behind the factor 2.2: it leaves room for the rounding. */
  lemma RoomForRounding(dq: real, v: real, seg: real, t: real, q: real)
    requires dq >= 0.0 && v > 0.0 && q == dq / v && seg >= 2.2 * q && seg >= 0.1 && t >= seg - 0.00005
    ensures dq * 1.875 <= v * t
  {
    assert q * v == dq;
    assert t >= 0.9995 * seg >= 2.1989 * q;
    assert q >= 0.0 by {
      if q < 0.0 {
        ProductPositive(-q, v, -dq);
      }
    }
    ProductNonNegative(t - 1.875 * q, v, v * t - 1.875 * dq);
  }

  // ---------------------------------------------------------------------
  // Via-points
  // ---------------------------------------------------------------------

  function Bound(limit: real, x: real): real {
    Max(-limit, Min(limit, x))
  }

  predicate Inner(w: seq<Joints>, k: nat) {
    0 < k < |w| - 1
  }

  /** The velocity of joint j at waypoint k: central difference, zero at both ends. */
  function ViaVelocity(w: seq<Joints>, d: seq<real>, l: Limits, k: nat, j: nat): real
    requires |d| == |w| - 1 && k < |w| && SameLength(w, |w[0]|) && j < |w[0]| && AllCover(l, |w[0]|)
  {
    if !Inner(w, k) then 0.0
    else Bound(LimitOf(l.velocity, j), Ratio(w[k + 1][j] - w[k - 1][j], d[k - 1] + d[k]))
  }

  /** The acceleration of joint j at waypoint k, from the velocities before and at it. */
  function ViaAcceleration(w: seq<Joints>, d: seq<real>, l: Limits, k: nat, j: nat): real
    requires |d| == |w| - 1 && k < |w| && SameLength(w, |w[0]|) && j < |w[0]| && AllCover(l, |w[0]|)
  {
    if !Inner(w, k) then 0.0
    else Bound(LimitOf(l.acceleration, j),
               Ratio(2.0 * (ViaVelocity(w, d, l, k, j) - ViaVelocity(w, d, l, k - 1, j)), d[k - 1]))
  }

  lemma BoundIsWithin(limit: real, x: real)
    ensures Abs(Bound(limit, x)) <= Abs(limit)
    ensures Abs(Bound(limit, x)) < limit ==> Bound(limit, x) == x
    ensures limit >= 0.0 && x >= 0.0 ==> Bound(limit, x) >= 0.0
    ensures limit >= 0.0 && x <= 0.0 ==> Bound(limit, x) <= 0.0
  {
  }

  lemma RatioSign(n: real, d: real)
    requires d > 0.0
    ensures (n >= 0.0 ==> Ratio(n, d) >= 0.0) && (n <= 0.0 ==> Ratio(n, d) <= 0.0)
    ensures Ratio(n, d) * d == n
  {
    var q := n / d;
    assert q * d == n;
    if n >= 0.0 && q < 0.0 {
      ProductPositive(-q, d, -n);
    } else if n <= 0.0 && q > 0.0 {
      ProductPositive(q, d, n);
    }
  }

  /** At a via-point no joint is planned faster than its limit, and at both ends it stands still. */
  lemma ViaVelocityIsModest(w: seq<Joints>, d: seq<real>, l: Limits, k: nat, j: nat)
    requires |d| == |w| - 1 && k < |w| && SameLength(w, |w[0]|) && j < |w[0]| && AllCover(l, |w[0]|)
    ensures Abs(ViaVelocity(w, d, l, k, j)) <= Abs(LimitOf(l.velocity, j))
    ensures !Inner(w, k) ==> ViaVelocity(w, d, l, k, j) == 0.0
  {
    if Inner(w, k) {
      BoundIsWithin(LimitOf(l.velocity, j), Ratio(w[k + 1][j] - w[k - 1][j], d[k - 1] + d[k]));
    }
  }

  /**
    It never moves against the direction from the waypoint before to the one after, and stands
    still where the two are the same; within the limit it has the mean speed between them.
  */
  lemma ViaVelocityFollowsPath(w: seq<Joints>, d: seq<real>, l: Limits, k: nat, j: nat)
    requires |d| == |w| - 1 && Inner(w, k) && SameLength(w, |w[0]|) && j < |w[0]| && AllCover(l, |w[0]|)
    requires Positive(d) && LimitOf(l.velocity, j) >= 0.0
    ensures w[k - 1][j] <= w[k + 1][j] ==> ViaVelocity(w, d, l, k, j) >= 0.0
    ensures w[k - 1][j] >= w[k + 1][j] ==> ViaVelocity(w, d, l, k, j) <= 0.0
    ensures var v, t := ViaVelocity(w, d, l, k, j), d[k - 1] + d[k];
      Abs(v) < LimitOf(l.velocity, j) ==> v * t == w[k + 1][j] - w[k - 1][j]
  {
    var n, t := w[k + 1][j] - w[k - 1][j], d[k - 1] + d[k];
    RatioSign(n, t);
    BoundIsWithin(LimitOf(l.velocity, j), Ratio(n, t));
  }

  lemma ViaAccelerationIsModest(w: seq<Joints>, d: seq<real>, l: Limits, k: nat, j: nat)
    requires |d| == |w| - 1 && k < |w| && SameLength(w, |w[0]|) && j < |w[0]| && AllCover(l, |w[0]|)
    ensures Abs(ViaAcceleration(w, d, l, k, j)) <= Abs(LimitOf(l.acceleration, j))
    ensures !Inner(w, k) ==> ViaAcceleration(w, d, l, k, j) == 0.0
  {
    if Inner(w, k) {
      BoundIsWithin(LimitOf(l.acceleration, j),
                    Ratio(2.0 * (ViaVelocity(w, d, l, k, j) - ViaVelocity(w, d, l, k - 1, j)), d[k - 1]));
    }
  }

  /** Within its limit, the acceleration is what a steady change between the two velocities takes, twice over. */
  lemma ViaAccelerationFollowsVelocities(w: seq<Joints>, d: seq<real>, l: Limits, k: nat, j: nat)
    requires |d| == |w| - 1 && Inner(w, k) && SameLength(w, |w[0]|) && j < |w[0]| && AllCover(l, |w[0]|)
    requires Positive(d) && LimitOf(l.acceleration, j) >= 0.0
    ensures var a, u, v := ViaAcceleration(w, d, l, k, j), ViaVelocity(w, d, l, k - 1, j), ViaVelocity(w, d, l, k, j);
      && (u <= v ==> a >= 0.0) && (u >= v ==> a <= 0.0)
      && (Abs(a) < LimitOf(l.acceleration, j) ==> a * d[k - 1] == 2.0 * (v - u))
  {
    var n, t := 2.0 * (ViaVelocity(w, d, l, k, j) - ViaVelocity(w, d, l, k - 1, j)), d[k - 1];
    RatioSign(n, t);
    BoundIsWithin(LimitOf(l.acceleration, j), Ratio(n, t));
  }

  /** What joint j has to do at waypoint k. */
  function Via(w: seq<Joints>, d: seq<real>, l: Limits, k: nat, j: nat): End
    requires |d| == |w| - 1 && k < |w| && SameLength(w, |w[0]|) && j < |w[0]| && AllCover(l, |w[0]|)
  {
    End(w[k][j], ViaVelocity(w, d, l, k, j), ViaAcceleration(w, d, l, k, j))
  }

  // ---------------------------------------------------------------------
  // Segments
  // ---------------------------------------------------------------------

  /** All joints between two waypoints. */
  datatype Trajectory = Trajectory(duration: real, polynomials: seq<Quintic>)

  datatype Sample = Sample(time: real, positions: Joints, velocities: Joints, accelerations: Joints, jerks: Joints)

  function SampleOf(s: Trajectory, t: real): (p: Sample)
    ensures |p.positions| == |p.velocities| == |p.accelerations| == |p.jerks| == |s.polynomials|
  {
    Sample(t,
      seq(|s.polynomials|, j requires 0 <= j < |s.polynomials| => Position(s.polynomials[j], t)),
      seq(|s.polynomials|, j requires 0 <= j < |s.polynomials| => Velocity(s.polynomials[j], t)),
      seq(|s.polynomials|, j requires 0 <= j < |s.polynomials| => Acceleration(s.polynomials[j], t)),
      seq(|s.polynomials|, j requires 0 <= j < |s.polynomials| => Jerk(s.polynomials[j], t)))
  }

  /** The joints' polynomials from waypoint k to the next. */
  function SegmentOf(w: seq<Joints>, d: seq<real>, l: Limits, k: nat): (s: Trajectory)
    requires |d| == |w| - 1 && k < |d| && SameLength(w, |w[0]|) && AllCover(l, |w[0]|)
  {
    Trajectory(d[k], seq(|w[0]|, j requires 0 <= j < |w[0]| =>
      Segment(Via(w, d, l, k, j), Via(w, d, l, k + 1, j), d[k])))
  }

  ghost predicate Positive(d: seq<real>) {
    forall k :: 0 <= k < |d| ==> d[k] > 0.0
  }

  /** These segments go through the waypoints in the given durations. */
  ghost predicate IsPlan(segments: seq<Trajectory>, w: seq<Joints>, d: seq<real>, l: Limits) {
    && |w| >= 2 && |d| == |w| - 1 == |segments| && SameLength(w, |w[0]|) && AllCover(l, |w[0]|) && Positive(d)
    && forall k :: 0 <= k < |d| ==> segments[k] == SegmentOf(w, d, l, k)
  }

  /** When segment k starts. */
  function StartTime(d: seq<real>, k: nat): real
    requires k <= |d|
  {
    if k == 0 then 0.0 else StartTime(d, k - 1) + d[k - 1]
  }

  lemma {:induction false} StartTimesGrow(d: seq<real>, i: nat, k: nat)
    requires Positive(d) && i < k <= |d|
    ensures StartTime(d, i) + d[i] <= StartTime(d, k)
    decreases k
  {
    if i < k - 1 {
      StartTimesGrow(d, i, k - 1);
    }
  }

  lemma StartLater(d: seq<real>, i: nat, k: nat)
    requires Positive(d) && i < k < |d|
    ensures StartTime(d, i + 1) <= StartTime(d, k)
  {
    StartTimesGrow(d, i, k);
  }

  // ---------------------------------------------------------------------
  // Continuity and limits of a plan
  // ---------------------------------------------------------------------

  /** Each segment starts and ends with what its waypoints demand. */
  lemma SegmentMeetsWaypoints(w: seq<Joints>, d: seq<real>, l: Limits, k: nat, j: nat)
    requires |d| == |w| - 1 && k < |d| && SameLength(w, |w[0]|) && j < |w[0]| && AllCover(l, |w[0]|) && d[k] > 0.0
    ensures var p := SegmentOf(w, d, l, k).polynomials[j];
      StateAt(p, 0.0) == Via(w, d, l, k, j) && StateAt(p, d[k]) == Via(w, d, l, k + 1, j)
  {
    BoundaryConditions(Via(w, d, l, k, j), Via(w, d, l, k + 1, j), d[k]);
  }

  /** Adjacent segments agree in position, velocity and acceleration of every joint. */
  lemma SegmentsJoin(w: seq<Joints>, d: seq<real>, l: Limits, k: nat, j: nat)
    requires |d| == |w| - 1 && k + 1 < |d| && SameLength(w, |w[0]|) && j < |w[0]| && AllCover(l, |w[0]|)
    requires Positive(d)
    ensures StateAt(SegmentOf(w, d, l, k).polynomials[j], d[k])
         == StateAt(SegmentOf(w, d, l, k + 1).polynomials[j], 0.0)
  {
    SegmentMeetsWaypoints(w, d, l, k, j);
    SegmentMeetsWaypoints(w, d, l, k + 1, j);
  }

  function AutomaticDuration(l: Limits, roots: Roots, a: Joints, b: Joints): real
    requires |a| == |b| && AllCover(l, |a|)
  {
    Round4(SegmentTime(l, roots, a, b, |a|))
  }

  /** With automatic duration, no joint exceeds its positive speed limit between two waypoints. */
  lemma TwoWaypointsKeepSpeedLimit(l: Limits, roots: Roots, a: Joints, b: Joints, j: nat, at: real)
    requires |a| == |b| && AllCover(l, |a|) && j < |a| && LimitOf(l.velocity, j) > 0.0
    ensures var d := AutomaticDuration(l, roots, a, b);
      Abs(Velocity(SegmentOf([a, b], [d], l, 0).polynomials[j], at)) <= LimitOf(l.velocity, j)
  {
    var v := LimitOf(l.velocity, j);
    var seg := SegmentTime(l, roots, a, b, |a|);
    var d := AutomaticDuration(l, roots, a, b);
    var dq := Abs(b[j] - a[j]);
    SegmentTimeCovers(l, roots, a, b, |a|, j);
    RoundedTime(seg);
    RoomForRounding(dq, v, seg, d, dq / v);
    var p := SegmentOf([a, b], [d], l, 0).polynomials[j];
    assert p == Segment(Rest(a[j]), Rest(b[j]), d);
    SpeedLimitExact(p, a[j], b[j], d, v, dq * 1.875);
    assert Within(Speed(p), v, at);
  }

  // ---------------------------------------------------------------------
  // States of a plan
  // ---------------------------------------------------------------------

  /** The segment with this index spans the time c. */
  ghost predicate ActiveAt(d: seq<real>, index: nat, c: real) {
    index < |d| && StartTime(d, index) <= c && (index + 1 < |d| ==> c < StartTime(d, index + 1))
  }

  lemma OneIsActive(d: seq<real>, i: nat, k: nat, c: real)
    requires Positive(d) && ActiveAt(d, i, c) && ActiveAt(d, k, c)
    ensures i == k
  {
    if i < k {
      StartLater(d, i, k);
    } else if k < i {
      StartLater(d, k, i);
    }
  }

  /** The sample is the state of the active segment, the one with this index, at the time c of the plan. */
  ghost predicate ShowsSegment(segments: seq<Trajectory>, d: seq<real>, index: nat, p: Sample, c: real) {
    ActiveAt(d, index, c) && index < |segments| && p == SampleOf(segments[index], c - StartTime(d, index)).(time := c)
  }

  ghost predicate Shows(segments: seq<Trajectory>, d: seq<real>, p: Sample, c: real) {
    exists index: nat :: ShowsSegment(segments, d, index, p, c)
  }

  lemma ShowsActive(segments: seq<Trajectory>, d: seq<real>, index: nat, p: Sample, c: real, local: real)
    requires ActiveAt(d, index, c) && index < |segments| && local == c - StartTime(d, index)
    requires p == SampleOf(segments[index], local).(time := c)
    ensures ShowsSegment(segments, d, index, p, c) && Shows(segments, d, p, p.time)
  {
    SameSample(segments[index], local, c - StartTime(d, index));
    assert ShowsSegment(segments, d, index, p, p.time);
  }

  lemma SameSample(s: Trajectory, t: real, u: real)
    requires t == u
    ensures SampleOf(s, t) == SampleOf(s, u)
  {
  }

  /** Every sample shows the state at its time. */
  ghost predicate Sampled(segments: seq<Trajectory>, d: seq<real>, ps: seq<Sample>) {
    forall p :: p in ps ==> Shows(segments, d, p, p.time)
  }

  // ---------------------------------------------------------------------
  // The planner
  // ---------------------------------------------------------------------

  class MultiSegmentTrajectoryPlanner {
    const limits: Limits
    const roots: Roots
    var waypoints: seq<Joints>
    var segments: seq<Trajectory>
    var segmentDurations: seq<real>
    var segmentStartTimes: seq<real>
    var totalDuration: real
    ghost var route: seq<Joints>

    /** Nothing is planned yet, or the fields belong to one plan. */
    ghost predicate Valid()
      reads this
    {
      segments == [] || Planned(route, segmentDurations)
    }

    ghost predicate Planned(w: seq<Joints>, d: seq<real>)
      reads this
    {
      && IsPlan(segments, w, d, limits) && |segmentStartTimes| == |d|
      && (forall k :: 0 <= k < |d| ==> segmentStartTimes[k] == StartTime(d, k))
      && totalDuration == StartTime(d, |d|)
    }

    constructor (limits: Limits, roots: Roots)
      ensures Valid() && segments == [] && this.limits == limits && this.roots == roots
    {
      this.limits, this.roots := limits, roots;
      waypoints, segments, segmentDurations, segmentStartTimes := [], [], [], [];
      totalDuration, route := 0.0, [];
    }

    /** The time for one segment. */
    method Duration(a: Joints, b: Joints) returns (seg: real)
      requires |a| == |b| && AllCover(limits, |a|)
      ensures seg == SegmentTime(limits, roots, a, b, |a|)
    {
      seg := 0.1;
      for j := 0 to |a|
        invariant seg == SegmentTime(limits, roots, a, b, j)
      {
        var dq := Abs(b[j] - a[j]);
        var tVel := SpeedTime(dq, LimitOf(limits.velocity, j));
        var tAcc := SurgeTime(roots, dq, LimitOf(limits.acceleration, j));
        var tJrk := JoltTime(roots, dq, LimitOf(limits.jerk, j));
        seg := Max(seg, Max(tVel, Max(tAcc, tJrk)));
      }
    }

    /** The durations that are used: those given, but not below a hundredth, or automatic ones. */
    method Durations(w: seq<Joints>, given: Option<seq<real>>) returns (d: Option<seq<real>>)
      requires |w| >= 2 && SameLength(w, |w[0]|) && AllCover(limits, |w[0]|)
      ensures d.None? <==> given.Some? && |given.value| != |w| - 1
      ensures d.Some? ==> |d.value| == |w| - 1 && Positive(d.value)
      ensures d.Some? && given.Some? ==> forall k :: 0 <= k < |d.value| ==> d.value[k] == Max(0.01, given.value[k])
      ensures d.Some? && given.None? ==>
        forall k :: 0 <= k < |d.value| ==> d.value[k] == AutomaticDuration(limits, roots, w[k], w[k + 1])
    {
      var ds: seq<real> := [];
      if given.Some? {
        if |given.value| != |w| - 1 {
          return None;
        }
        ds := seq(|w| - 1, k requires 0 <= k < |w| - 1 => Max(0.01, given.value[k]));
      } else {
        for k := 0 to |w| - 1
          invariant |ds| == k && Positive(ds)
          invariant forall i :: 0 <= i < k ==> ds[i] == AutomaticDuration(limits, roots, w[i], w[i + 1])
        {
          var seg := Duration(w[k], w[k + 1]);
          RoundedTime(seg);
          ds := ds + [Round4(seg)];
        }
      }
      d := Some(ds);
    }

    /** The velocities of all joints at all waypoints. */
    method Velocities(w: seq<Joints>, d: seq<real>) returns (v: seq<Joints>)
      requires |w| >= 2 && |d| == |w| - 1 && SameLength(w, |w[0]|) && AllCover(limits, |w[0]|)
      ensures |v| == |w| && SameLength(v, |w[0]|)
      ensures forall k, j :: 0 <= k < |w| && 0 <= j < |w[0]| ==> v[k][j] == ViaVelocity(w, d, limits, k, j)
      ensures forall j :: 0 <= j < |w[0]| ==> v[0][j] == 0.0 && v[|w| - 1][j] == 0.0
      ensures forall k, j :: 0 <= k < |w| && 0 <= j < |w[0]| ==> Abs(v[k][j]) <= Abs(LimitOf(limits.velocity, j))
    {
      v := [];
      for k := 0 to |w|
        invariant |v| == k && SameLength(v, |w[0]|)
        invariant forall i, j :: 0 <= i < k && 0 <= j < |w[0]| ==> v[i][j] == ViaVelocity(w, d, limits, i, j)
        invariant forall i, j :: 0 <= i < k && 0 <= j < |w[0]| ==> Abs(v[i][j]) <= Abs(LimitOf(limits.velocity, j))
      {
        var row: Joints := seq(|w[0]|, j requires 0 <= j < |w[0]| => ViaVelocity(w, d, limits, k, j));
        forall j | 0 <= j < |w[0]|
          ensures Abs(row[j]) <= Abs(LimitOf(limits.velocity, j))
        {
          ViaVelocityIsModest(w, d, limits, k, j);
        }
        v := v + [row];
      }
    }

    /** The accelerations, from the velocities. */
    method Accelerations(w: seq<Joints>, d: seq<real>, v: seq<Joints>) returns (a: seq<Joints>)
      requires |w| >= 2 && |d| == |w| - 1 && SameLength(w, |w[0]|) && AllCover(limits, |w[0]|)
      requires |v| == |w| && SameLength(v, |w[0]|)
      requires forall k, j :: 0 <= k < |w| && 0 <= j < |w[0]| ==> v[k][j] == ViaVelocity(w, d, limits, k, j)
      ensures |a| == |w| && SameLength(a, |w[0]|)
      ensures forall k, j :: 0 <= k < |w| && 0 <= j < |w[0]| ==> a[k][j] == ViaAcceleration(w, d, limits, k, j)
    {
      a := [];
      for k := 0 to |w|
        invariant |a| == k && SameLength(a, |w[0]|)
        invariant forall i, j :: 0 <= i < k && 0 <= j < |w[0]| ==> a[i][j] == ViaAcceleration(w, d, limits, i, j)
      {
        var row: Joints := seq(|w[0]|, j requires 0 <= j < |w[0]| =>
          if !Inner(w, k) then 0.0
          else Bound(LimitOf(limits.acceleration, j), Ratio(2.0 * (v[k][j] - v[k - 1][j]), d[k - 1])));
        a := a + [row];
      }
    }

    /** The segments, when each of them starts, and when the last one ends. */
    method Construct(w: seq<Joints>, d: seq<real>) returns (segs: seq<Trajectory>, starts: seq<real>, total: real)
      requires |w| >= 2 && |d| == |w| - 1 && SameLength(w, |w[0]|) && AllCover(limits, |w[0]|)
      ensures |segs| == |starts| == |d| && total == StartTime(d, |d|)
      ensures forall k :: 0 <= k < |d| ==> segs[k] == SegmentOf(w, d, limits, k)
      ensures forall k :: 0 <= k < |d| ==> starts[k] == StartTime(d, k)
    {
      var v := Velocities(w, d);
      var a := Accelerations(w, d, v);
      segs, starts, total := [], [], 0.0;
      for k := 0 to |d|
        invariant |segs| == |starts| == k && total == StartTime(d, k)
        invariant forall i :: 0 <= i < k ==> segs[i] == SegmentOf(w, d, limits, i)
        invariant forall i :: 0 <= i < k ==> starts[i] == StartTime(d, i)
      {
        starts := starts + [total];
        var s := Trajectory(d[k], seq(|w[0]|, j requires 0 <= j < |w[0]| =>
          Segment(End(w[k][j], v[k][j], a[k][j]), End(w[k + 1][j], v[k + 1][j], a[k + 1][j]), d[k])));
        assert s.polynomials == SegmentOf(w, d, limits, k).polynomials;
        segs := segs + [s];
        total := total + d[k];
      }
    }

    /**
      Plans through the waypoints; false where the program raises. A wrong number of durations is
      noticed only after the waypoints have been stored, so they are then not those of the segments.
    */
    method Plan(w: seq<Joints>, durations: Option<seq<real>>) returns (ok: bool)
      requires Valid()
      requires |w| > 0 ==> AllCover(limits, |w[0]|)
      modifies this
      ensures Valid()
      ensures ok <==> |w| >= 2 && SameLength(w, |w[0]|) && (durations.Some? ==> |durations.value| == |w| - 1)
      ensures ok ==> waypoints == route == w && Planned(w, segmentDurations)
      ensures !ok ==> route == old(route) && segments == old(segments) && totalDuration == old(totalDuration)
      ensures waypoints == if |w| >= 2 && SameLength(w, |w[0]|) then w else old(waypoints)
      ensures ok && durations.None? ==> forall k :: 0 <= k < |segmentDurations| ==>
        segmentDurations[k] == AutomaticDuration(limits, roots, w[k], w[k + 1])
      ensures ok && durations.Some? ==> forall k :: 0 <= k < |segmentDurations| ==>
        segmentDurations[k] == Max(0.01, durations.value[k])
    {
      if |w| < 2 {
        return false;
      }
      for i := 0 to |w|
        invariant forall k :: 0 <= k < i ==> |w[k]| == |w[0]|
      {
        if |w[i]| != |w[0]| {
          return false;
        }
      }
      waypoints := w;
      var d := Durations(w, durations);
      if d.None? {
        return false;
      }
      var newSegments, starts, total := Construct(w, d.value);
      segments, segmentDurations, segmentStartTimes, totalDuration := newSegments, d.value, starts, total;
      route := w;
      ok := true;
    }

    /** The segment that is active at a time, and the state there; None before anything is planned. */
    method Evaluate(t: real) returns (r: Option<Sample>, ghost index: nat)
      requires Valid()
      ensures r.None? <==> segments == []
      ensures r.Some? ==> r.value.time == Max(0.0, Min(totalDuration, t))
      ensures r.Some? ==> ShowsSegment(segments, segmentDurations, index, r.value, r.value.time)
      ensures r.Some? ==> Shows(segments, segmentDurations, r.value, r.value.time)
    {
      index := 0;
      if segments == [] {
        return None, 0;
      }
      var c := Max(0.0, Min(totalDuration, t));
      var segIdx := 0;
      var i := 0;
      StartTimesGrow(segmentDurations, 0, |segmentDurations|);
      while i < |segmentStartTimes|
        invariant 0 <= i <= |segmentStartTimes| && segIdx == (if i == 0 then 0 else i - 1)
        invariant segmentStartTimes[segIdx] <= c
      {
        if c >= segmentStartTimes[i] {
          segIdx := i;
        } else {
          break;
        }
        i := i + 1;
      }
      index := segIdx;
      var local := c - segmentStartTimes[segIdx];
      var point := SampleOf(segments[segIdx], local);
      r := Some(point.(time := c));
      ShowsActive(segments, segmentDurations, index, r.value, c, local);
    }

    /** Samples at equal distances, the last one at the end. */
    method Samples(dt: real) returns (points: Option<seq<Sample>>)
      requires Valid()
      ensures points.None? <==> segments == [] || dt <= 0.0
      ensures points.Some? ==> |points.value| >= 2 && Spaced(points.value, totalDuration, dt)
      ensures points.Some? ==> points.value[|points.value| - 1].time == totalDuration
      ensures points.Some? ==> Sampled(segments, segmentDurations, points.value)
    {
      if segments == [] || dt <= 0.0 {
        return None;
      }
      StartTimesGrow(segmentDurations, 0, |segmentDurations|);
      var steps := Ceil(totalDuration / dt) + 1;
      if steps < 2 {
        steps := 2;
      }
      var ps: seq<Sample> := [];
      for step := 0 to steps
        invariant |ps| == step && Spaced(ps, totalDuration, dt)
        invariant Sampled(segments, segmentDurations, ps)
      {
        var t := StepTime(totalDuration, dt, step);
        StepTimeInside(totalDuration, dt, step);
        var point, _ := Evaluate(t);
        OneMoreSample(segments, segmentDurations, totalDuration, ps, point.value, dt);
        ps := ps + [point.value];
      }
      LastSample(ps, totalDuration, dt);
      points := Some(ps);
    }
  }

  /** The time of a sample. */
  function StepTime(total: real, dt: real, step: nat): real {
    Min(total, step as real * dt)
  }

  ghost predicate Spaced(ps: seq<Sample>, total: real, dt: real) {
    forall i :: 0 <= i < |ps| ==> ps[i].time == StepTime(total, dt, i)
  }

  lemma StepTimeInside(total: real, dt: real, step: nat)
    requires dt > 0.0 && total >= 0.0
    ensures 0.0 <= StepTime(total, dt, step) <= total
  {
    ProductNonNegative(step as real, dt, step as real * dt);
  }

  /** Samples start at zero, and the next one is never more than dt away. */
  lemma StepTimesGrow(total: real, dt: real, step: nat)
    requires dt > 0.0 && total >= 0.0
    ensures StepTime(total, dt, 0) == 0.0
    ensures StepTime(total, dt, step) <= StepTime(total, dt, step + 1) <= StepTime(total, dt, step) + dt
  {
    assert (step + 1) as real * dt == step as real * dt + dt;
  }

  lemma OneMoreSample(segments: seq<Trajectory>, d: seq<real>, total: real, ps: seq<Sample>, p: Sample, dt: real)
    requires Spaced(ps, total, dt) && Sampled(segments, d, ps)
    requires p.time == StepTime(total, dt, |ps|) && Shows(segments, d, p, p.time)
    ensures Spaced(ps + [p], total, dt) && Sampled(segments, d, ps + [p])
  {
  }

  lemma LastSample(ps: seq<Sample>, total: real, dt: real)
    requires dt > 0.0 && total >= 0.0 && |ps| >= Ceil(total / dt) + 1 && |ps| >= 1 && Spaced(ps, total, dt)
    ensures ps[|ps| - 1].time == total
  {
    LastStep(total, dt, |ps|);
    assert ps[|ps| - 1].time == StepTime(total, dt, |ps| - 1);
  }

  lemma LastStep(total: real, dt: real, steps: nat)
    requires dt > 0.0 && total >= 0.0 && steps >= Ceil(total / dt) + 1 && steps >= 1
    ensures StepTime(total, dt, steps - 1) == total
  {
    var q := total / dt;
    assert q * dt == total;
    ProductNonNegative((steps - 1) as real - q, dt, (steps - 1) as real * dt - total);
  }

  // ---------------------------------------------------------------------
  // What a plan does at its waypoints
  // ---------------------------------------------------------------------

  /** At the start time of a segment, all joints stand at its first waypoint. */
  lemma PassesThroughWaypoint(w: seq<Joints>, d: seq<real>, l: Limits, k: nat)
    requires |w| >= 2 && |d| == |w| - 1 && k < |d| && SameLength(w, |w[0]|) && AllCover(l, |w[0]|) && Positive(d)
    ensures SampleOf(SegmentOf(w, d, l, k), 0.0).positions == w[k]
    ensures SampleOf(SegmentOf(w, d, l, k), d[k]).positions == w[k + 1]
  {
    forall j | 0 <= j < |w[0]|
      ensures Position(SegmentOf(w, d, l, k).polynomials[j], 0.0) == w[k][j]
      ensures Position(SegmentOf(w, d, l, k).polynomials[j], d[k]) == w[k + 1][j]
    {
      SegmentMeetsWaypoints(w, d, l, k, j);
    }
  }
}
