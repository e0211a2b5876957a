/**
  Quintic polynomial segments: the six boundary conditions they are made for, and the exact limits
  of speed, acceleration and jerk between two points of rest.
*/
module Quintic {

  // ---------------------------------------------------------------------
  // Powers, listed from the zeroth to the fifth
  // ---------------------------------------------------------------------

  type Six = x: seq<real> | |x| == 6 witness [1.0, 0.0, 0.0, 0.0, 0.0, 0.0]

  ghost predicate NextPower(x: Six, k: nat) {
    k < 5 ==> x[k + 1] == x[k] * x[1]
  }

  ghost predicate ArePowers(x: Six) {
    x[0] == 1.0 && forall k: nat :: NextPower(x, k)
  }

  function Powers(t: real): (x: Six)
    ensures x[1] == t
  {
    var t2 := t * t;
    var t3 := t2 * t;
    var t4 := t3 * t;
    var t5 := t4 * t;
    [1.0, t, t2, t3, t4, t5]
  }

  lemma PowersArePowers(t: real)
    ensures ArePowers(Powers(t))
  {
    var x := Powers(t);
    forall k: nat
      ensures NextPower(x, k)
    {
      if k < 5 {
        PowersStep(t, k);
      }
    }
  }

  lemma PowersStep(t: real, k: nat)
    requires k < 5
    ensures NextPower(Powers(t), k)
  {
    var x := Powers(t);
    if k == 0 {
      assert x[1] == x[0] * x[1];
    } else if k == 1 {
      assert x[2] == x[1] * x[1];
    } else if k == 2 {
      assert x[3] == x[2] * x[1];
    } else if k == 3 {
      assert x[4] == x[3] * x[1];
    } else {
      assert x[5] == x[4] * x[1];
    }
  }

  lemma ProductPositive(a: real, b: real, ab: real)
    requires a > 0.0 && b > 0.0 && ab == a * b
    ensures ab > 0.0
  {
  }

  lemma {:induction false} PowerPositive(x: Six, k: nat)
    requires ArePowers(x) && x[1] > 0.0 && k <= 5
    ensures x[k] > 0.0
    decreases k
  {
    if k > 0 {
      PowerPositive(x, k - 1);
      assert NextPower(x, k - 1);
      ProductPositive(x[k - 1], x[1], x[k]);
    }
  }

  lemma {:induction false} PowersAdd(x: Six, j: nat, k: nat)
    requires ArePowers(x) && j + k <= 5
    ensures x[j + k] == x[j] * x[k]
    decreases k
  {
    if k > 0 {
      PowersAdd(x, j, k - 1);
      assert NextPower(x, k - 1) && NextPower(x, j + k - 1);
      Group(x[j], x[k - 1], x[1], x[j + k - 1], x[k]);
    }
  }

  lemma Group(a: real, b: real, c: real, ab: real, bc: real)
    requires ab == a * b && bc == b * c
    ensures ab * c == a * bc
  {
  }

  lemma ScaledPower(ps: real, pt: real, pu: real, s: real, t: real, u: real, ns: real, nt: real, nu: real)
    requires pu == ps * pt && u == s * t
    requires ns == ps * s && nt == pt * t && nu == pu * u
    ensures nu == ns * nt
  {
    assert pu * u == ps * pt * (s * t) == (ps * s) * (pt * t);
  }

  /** The powers of a product are the products of the powers. */
  lemma {:induction false} PowersScale(y: Six, x: Six, z: Six, k: nat)
    requires ArePowers(x) && ArePowers(y) && ArePowers(z) && z[1] == y[1] * x[1] && k <= 5
    ensures z[k] == y[k] * x[k]
    decreases k
  {
    if k > 0 {
      PowersScale(y, x, z, k - 1);
      assert NextPower(x, k - 1) && NextPower(y, k - 1) && NextPower(z, k - 1);
      ScaledPower(y[k - 1], x[k - 1], z[k - 1], y[1], x[1], z[1], y[k], x[k], z[k]);
    }
  }

  // ---------------------------------------------------------------------
  // Segments
  // ---------------------------------------------------------------------

  function Min(a: real, b: real): real {
    if a <= b then a else b
  }

  function Max(a: real, b: real): real {
    if a >= b then a else b
  }

  datatype Quintic = Quintic(c0: real, c1: real, c2: real, c3: real, c4: real, c5: real, duration: real)

  /** Position, velocity and acceleration at one end of a segment. */
  datatype End = End(q: real, v: real, a: real)

  function Numerator3(s: End, e: End, t: real, t2: real): real {
    20.0 * (e.q - s.q) - (8.0 * e.v + 12.0 * s.v) * t - (3.0 * s.a - e.a) * t2
  }

  function Numerator4(s: End, e: End, t: real, t2: real): real {
    30.0 * (s.q - e.q) + (14.0 * e.v + 16.0 * s.v) * t + (3.0 * s.a - 2.0 * e.a) * t2
  }

  function Numerator5(s: End, e: End, t: real, t2: real): real {
    12.0 * (e.q - s.q) - 6.0 * (e.v + s.v) * t + (e.a - s.a) * t2
  }

  /** The quotient, or zero where there is none. */
  function Half(n: real, d: real): real {
    if d > 0.0 then n / (2.0 * d) else 0.0
  }

  /** The segment from s to e that takes the time t. */
  function Segment(s: End, e: End, t: real): Quintic {
    var x := Powers(t);
    Quintic(s.q, s.v, 0.5 * s.a, Half(Numerator3(s, e, t, x[2]), x[3]), Half(Numerator4(s, e, t, x[2]), x[4]),
            Half(Numerator5(s, e, t, x[2]), x[5]), t)
  }

  /** Evaluation keeps to the segment's time. */
  function Clamp(p: Quintic, t: real): real {
    Max(0.0, Min(p.duration, t))
  }

  function PositionAt(p: Quintic, x: Six): real {
    p.c0 + p.c1 * x[1] + p.c2 * x[2] + p.c3 * x[3] + p.c4 * x[4] + p.c5 * x[5]
  }

  function VelocityAt(p: Quintic, x: Six): real {
    p.c1 + 2.0 * p.c2 * x[1] + 3.0 * p.c3 * x[2] + 4.0 * p.c4 * x[3] + 5.0 * p.c5 * x[4]
  }

  function AccelerationAt(p: Quintic, x: Six): real {
    2.0 * p.c2 + 6.0 * p.c3 * x[1] + 12.0 * p.c4 * x[2] + 20.0 * p.c5 * x[3]
  }

  function JerkAt(p: Quintic, x: Six): real {
    6.0 * p.c3 + 24.0 * p.c4 * x[1] + 60.0 * p.c5 * x[2]
  }

  function Position(p: Quintic, t: real): real {
    PositionAt(p, Powers(Clamp(p, t)))
  }

  function Velocity(p: Quintic, t: real): real {
    VelocityAt(p, Powers(Clamp(p, t)))
  }

  function Acceleration(p: Quintic, t: real): real {
    AccelerationAt(p, Powers(Clamp(p, t)))
  }

  function Jerk(p: Quintic, t: real): real {
    JerkAt(p, Powers(Clamp(p, t)))
  }

  // ---------------------------------------------------------------------
  // Boundary conditions
  // ---------------------------------------------------------------------

  lemma DivideBack(x: real, m: real)
    requires m > 0.0
    ensures x * m / m == x
  {
  }

  lemma Cancel(x: real, y: real, m: real)
    requires m > 0.0 && x * m == y * m
    ensures x == y
  {
    DivideBack(x, m);
    DivideBack(y, m);
  }

  lemma HalfTimes(n: real, d: real, q: real)
    requires d > 0.0 && q == Half(n, d)
    ensures q * d == 0.5 * n
  {
    assert q * (2.0 * d) == n;
  }

  /** What the three upper coefficients contribute at the end of the segment. */
  ghost predicate Fits(p: Quintic, s: End, e: End, x: Six) {
    && p.c0 == s.q && p.c1 == s.v && p.c2 == 0.5 * s.a
    && p.c3 * x[3] == 0.5 * Numerator3(s, e, x[1], x[2])
    && p.c4 * x[4] == 0.5 * Numerator4(s, e, x[1], x[2])
    && p.c5 * x[5] == 0.5 * Numerator5(s, e, x[1], x[2])
  }

  lemma SegmentFits(s: End, e: End, t: real)
    requires t > 0.0
    ensures Fits(Segment(s, e, t), s, e, Powers(t)) && ArePowers(Powers(t))
  {
    var x := Powers(t);
    var p := Segment(s, e, t);
    PowersArePowers(t);
    PowerPositive(x, 3);
    PowerPositive(x, 4);
    PowerPositive(x, 5);
    HalfTimes(Numerator3(s, e, t, x[2]), x[3], p.c3);
    HalfTimes(Numerator4(s, e, t, x[2]), x[4], p.c4);
    HalfTimes(Numerator5(s, e, t, x[2]), x[5], p.c5);
  }

  /** The numerators with the weights of the position, the velocity and the acceleration. */
  lemma WeightedNumerators(s: End, e: End, t: real, t2: real)
    ensures 0.5 * Numerator3(s, e, t, t2) + 0.5 * Numerator4(s, e, t, t2) + 0.5 * Numerator5(s, e, t, t2)
         == e.q - s.q - s.v * t - 0.5 * (s.a * t2)
    ensures 1.5 * Numerator3(s, e, t, t2) + 2.0 * Numerator4(s, e, t, t2) + 2.5 * Numerator5(s, e, t, t2)
         == e.v * t - s.v * t - s.a * t2
    ensures 3.0 * Numerator3(s, e, t, t2) + 6.0 * Numerator4(s, e, t, t2) + 10.0 * Numerator5(s, e, t, t2)
         == e.a * t2 - s.a * t2
  {
  }

  lemma EndPosition(s: End, e: End, p: Quintic, x: Six)
    requires Fits(p, s, e, x)
    ensures PositionAt(p, x) == e.q
  {
    WeightedNumerators(s, e, x[1], x[2]);
  }

  /** A product of three, grouped the other way, when the last two make ab. */
  lemma Outside(c: real, a: real, b: real, ab: real)
    requires ab == a * b
    ensures c * a * b == c * ab
  {
  }

  lemma Raise(c: real, x: Six, j: nat, n: nat)
    requires ArePowers(x) && j + n <= 5
    ensures c * x[j] * x[n] == c * x[j + n]
  {
    PowersAdd(x, j, n);
    Outside(c, x[j], x[n], x[j + n]);
  }

  lemma Weigh(k3: real, v3: real, k4: real, v4: real, k5: real, v5: real, m: real)
    ensures (k3 * v3 + k4 * v4 + k5 * v5) * m == k3 * (v3 * m) + k4 * (v4 * m) + k5 * (v5 * m)
  {
  }

  /** The upper terms of the n-th derivative, times the n-th power. */
  lemma UpperTerms(p: Quintic, x: Six, n: nat, k3: real, k4: real, k5: real)
    requires ArePowers(x) && n <= 3
    ensures (k3 * (p.c3 * x[3 - n]) + k4 * (p.c4 * x[4 - n]) + k5 * (p.c5 * x[5 - n])) * x[n]
         == k3 * (p.c3 * x[3]) + k4 * (p.c4 * x[4]) + k5 * (p.c5 * x[5])
  {
    Raise(p.c3, x, 3 - n, n);
    Raise(p.c4, x, 4 - n, n);
    Raise(p.c5, x, 5 - n, n);
    Weigh(k3, p.c3 * x[3 - n], k4, p.c4 * x[4 - n], k5, p.c5 * x[5 - n], x[n]);
  }

  /** If the terms times m are the value times m, they are the value. */
  lemma SumIs(lower: real, upper: real, m: real, lm: real, um: real, v: real)
    requires m > 0.0 && lm == lower * m && um == upper * m && lm + um == v * m
    ensures lower + upper == v
  {
    assert (lower + upper) * m == lm + um;
    Cancel(lower + upper, v, m);
  }

  lemma LowerTerms(v: real, a: real, x: Six)
    requires ArePowers(x)
    ensures (v + a * x[1]) * x[1] == v * x[1] + a * x[2]
  {
    Raise(a, x, 1, 1);
  }

  lemma FirstDerivative(v: real, a: real, x: Six, upper: real, um: real, target: real)
    requires ArePowers(x) && x[1] > 0.0 && um == upper * x[1] && v * x[1] + a * x[2] + um == target * x[1]
    ensures v + a * x[1] + upper == target
  {
    LowerTerms(v, a, x);
    SumIs(v + a * x[1], upper, x[1], v * x[1] + a * x[2], um, target);
  }

  /** The velocity is v when its terms times the duration sum up to v times the duration. */
  lemma VelocityIs(p: Quintic, x: Six, v: real)
    requires ArePowers(x) && x[1] > 0.0
    requires p.c1 * x[1] + 2.0 * p.c2 * x[2] + (3.0 * (p.c3 * x[3]) + 4.0 * (p.c4 * x[4]) + 5.0 * (p.c5 * x[5]))
          == v * x[1]
    ensures VelocityAt(p, x) == v
  {
    var upper := 3.0 * (p.c3 * x[2]) + 4.0 * (p.c4 * x[3]) + 5.0 * (p.c5 * x[4]);
    UpperTerms(p, x, 1, 3.0, 4.0, 5.0);
    FirstDerivative(p.c1, 2.0 * p.c2, x, upper,
                    3.0 * (p.c3 * x[3]) + 4.0 * (p.c4 * x[4]) + 5.0 * (p.c5 * x[5]), v);
  }

  lemma EndVelocity(s: End, e: End, p: Quintic, x: Six)
    requires ArePowers(x) && x[1] > 0.0 && Fits(p, s, e, x)
    ensures VelocityAt(p, x) == e.v
  {
    WeightedNumerators(s, e, x[1], x[2]);
    VelocityIs(p, x, e.v);
  }

  lemma AccelerationIs(p: Quintic, x: Six, a: real)
    requires ArePowers(x) && x[1] > 0.0
    requires 2.0 * p.c2 * x[2] + (6.0 * (p.c3 * x[3]) + 12.0 * (p.c4 * x[4]) + 20.0 * (p.c5 * x[5])) == a * x[2]
    ensures AccelerationAt(p, x) == a
  {
    var upper := 6.0 * (p.c3 * x[1]) + 12.0 * (p.c4 * x[2]) + 20.0 * (p.c5 * x[3]);
    UpperTerms(p, x, 2, 6.0, 12.0, 20.0);
    PowerPositive(x, 2);
    SumIs(2.0 * p.c2, upper, x[2], 2.0 * p.c2 * x[2],
          6.0 * (p.c3 * x[3]) + 12.0 * (p.c4 * x[4]) + 20.0 * (p.c5 * x[5]), a);
  }

  lemma EndAcceleration(s: End, e: End, p: Quintic, x: Six)
    requires ArePowers(x) && x[1] > 0.0 && Fits(p, s, e, x)
    ensures AccelerationAt(p, x) == e.a
  {
    WeightedNumerators(s, e, x[1], x[2]);
    AccelerationIs(p, x, e.a);
  }

  lemma StartOfSegment(p: Quintic)
    ensures PositionAt(p, Powers(0.0)) == p.c0 && VelocityAt(p, Powers(0.0)) == p.c1
    ensures AccelerationAt(p, Powers(0.0)) == 2.0 * p.c2
  {
    var x := Powers(0.0);
    assert x[1] == 0.0 && x[2] == 0.0 && x[3] == 0.0 && x[4] == 0.0 && x[5] == 0.0;
  }

  /** What a segment does at a time. */
  function StateAt(p: Quintic, t: real): End {
    End(Position(p, t), Velocity(p, t), Acceleration(p, t))
  }

  /** A segment starts at s and ends at e, in position, velocity and acceleration, whatever its duration. */
  lemma BoundaryConditions(s: End, e: End, t: real)
    requires t > 0.0
    ensures StateAt(Segment(s, e, t), 0.0) == s && StateAt(Segment(s, e, t), t) == e
  {
    var p := Segment(s, e, t);
    SegmentFits(s, e, t);
    EndPosition(s, e, p, Powers(t));
    EndVelocity(s, e, p, Powers(t));
    EndAcceleration(s, e, p, Powers(t));
    StartOfSegment(p);
    assert Clamp(p, 0.0) == 0.0 && Clamp(p, t) == t;
  }

  // ---------------------------------------------------------------------
  // From rest to rest: x are the powers of the duration, y of the share of it, z of the time itself
  // ---------------------------------------------------------------------

  function Rest(q: real): End {
    End(q, 0.0, 0.0)
  }

  ghost predicate Moves(p: Quintic, q0: real, d: real, x: Six) {
    && p.c0 == q0 && p.c1 == 0.0 && p.c2 == 0.0
    && p.c3 * x[3] == 10.0 * d && p.c4 * x[4] == -15.0 * d && p.c5 * x[5] == 6.0 * d
  }

  lemma RestMoves(q0: real, q1: real, t: real)
    requires t > 0.0
    ensures Moves(Segment(Rest(q0), Rest(q1), t), q0, q1 - q0, Powers(t)) && ArePowers(Powers(t))
  {
    SegmentFits(Rest(q0), Rest(q1), t);
  }

  /** A coefficient that contributes v at the end contributes the share a of it. */
  lemma Share(c: real, a: real, b: real, ab: real, m: real, bm: real, v: real)
    requires ab == a * b && bm == b * m && c * bm == v
    ensures c * ab * m == v * a
  {
    assert c * ab * m == c * (b * m) * a;
  }

  lemma Factor(k3: real, v3: real, a3: real, k4: real, v4: real, a4: real, k5: real, v5: real, a5: real, d: real)
    requires v3 == 10.0 * d && v4 == -15.0 * d && v5 == 6.0 * d
    ensures k3 * (v3 * a3) + k4 * (v4 * a4) + k5 * (v5 * a5)
         == d * (k3 * 10.0 * a3 + k4 * -15.0 * a4 + k5 * 6.0 * a5)
  {
  }

  lemma OneShare(c: real, x: Six, y: Six, z: Six, j: nat, n: nat, k: nat, v: real)
    requires ArePowers(x) && ArePowers(y) && ArePowers(z) && z[1] == y[1] * x[1] && j + n == k <= 5 && c * x[k] == v
    ensures c * z[j] * x[n] == v * y[j]
  {
    PowersScale(y, x, z, j);
    PowersAdd(x, j, n);
    Share(c, y[j], x[j], z[j], x[n], x[k], v);
  }

  lemma WeighShares(k3: real, v3: real, w3: real, a3: real, k4: real, v4: real, w4: real, a4: real,
                    k5: real, v5: real, w5: real, a5: real, m: real, d: real)
    requires v3 * m == w3 * a3 && v4 * m == w4 * a4 && v5 * m == w5 * a5
    requires w3 == 10.0 * d && w4 == -15.0 * d && w5 == 6.0 * d
    ensures (k3 * v3 + k4 * v4 + k5 * v5) * m == d * (k3 * 10.0 * a3 + k4 * -15.0 * a4 + k5 * 6.0 * a5)
  {
    Weigh(k3, v3, k4, v4, k5, v5, m);
    Factor(k3, w3, a3, k4, w4, a4, k5, w5, a5, d);
  }

  /** The upper coefficients with the weights and the powers of the n-th derivative. */
  lemma Shares(p: Quintic, q0: real, d: real, x: Six, y: Six, z: Six,
               n: nat, j3: nat, j4: nat, j5: nat, k3: real, k4: real, k5: real)
    requires ArePowers(x) && ArePowers(y) && ArePowers(z) && z[1] == y[1] * x[1] && Moves(p, q0, d, x)
    requires j3 + n == 3 && j4 + n == 4 && j5 + n == 5
    ensures (k3 * (p.c3 * z[j3]) + k4 * (p.c4 * z[j4]) + k5 * (p.c5 * z[j5])) * x[n]
         == d * (k3 * 10.0 * y[j3] + k4 * -15.0 * y[j4] + k5 * 6.0 * y[j5])
  {
    var w3, w4, w5 := p.c3 * x[3], p.c4 * x[4], p.c5 * x[5];
    OneShare(p.c3, x, y, z, j3, n, 3, w3);
    OneShare(p.c4, x, y, z, j4, n, 4, w4);
    OneShare(p.c5, x, y, z, j5, n, 5, w5);
    WeighShares(k3, p.c3 * z[j3], w3, y[j3], k4, p.c4 * z[j4], w4, y[j4], k5, p.c5 * z[j5], w5, y[j5], x[n], d);
  }

  /** The share of the way done after the share y[1] of the time. */
  function Progress(y: Six): real {
    10.0 * y[3] - 15.0 * y[4] + 6.0 * y[5]
  }

  lemma RestPosition(p: Quintic, q0: real, d: real, x: Six, y: Six, z: Six)
    requires ArePowers(x) && ArePowers(y) && ArePowers(z) && z[1] == y[1] * x[1] && Moves(p, q0, d, x)
    ensures PositionAt(p, z) == q0 + d * Progress(y)
  {
    Shares(p, q0, d, x, y, z, 0, 3, 4, 5, 1.0, 1.0, 1.0);
  }

  lemma RestVelocity(p: Quintic, q0: real, d: real, x: Six, y: Six, z: Six)
    requires ArePowers(x) && ArePowers(y) && ArePowers(z) && z[1] == y[1] * x[1] && Moves(p, q0, d, x)
    ensures VelocityAt(p, z) * x[1] == d * (30.0 * y[2] - 60.0 * y[3] + 30.0 * y[4])
  {
    Shares(p, q0, d, x, y, z, 1, 2, 3, 4, 3.0, 4.0, 5.0);
  }

  lemma RestAcceleration(p: Quintic, q0: real, d: real, x: Six, y: Six, z: Six)
    requires ArePowers(x) && ArePowers(y) && ArePowers(z) && z[1] == y[1] * x[1] && Moves(p, q0, d, x)
    ensures AccelerationAt(p, z) * x[2] == d * (60.0 * y[1] - 180.0 * y[2] + 120.0 * y[3])
  {
    Shares(p, q0, d, x, y, z, 2, 1, 2, 3, 6.0, 12.0, 20.0);
  }

  lemma RestJerk(p: Quintic, q0: real, d: real, x: Six, y: Six, z: Six)
    requires ArePowers(x) && ArePowers(y) && ArePowers(z) && z[1] == y[1] * x[1] && Moves(p, q0, d, x)
    ensures JerkAt(p, z) * x[3] == d * (60.0 - 360.0 * y[1] + 360.0 * y[2])
  {
    Shares(p, q0, d, x, y, z, 3, 0, 1, 2, 6.0, 24.0, 60.0);
  }
}
