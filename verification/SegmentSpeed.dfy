/**
  How fast a quintic segment between any two ends gets: what the way, the velocities and the
  accelerations at its ends contribute to the velocity in between.
*/
module SegmentSpeed {
  import opened Quintic
  import opened QuinticLimits

  // ---------------------------------------------------------------------
  // The shares of the five contributions, as polynomials in the share of the time
  // ---------------------------------------------------------------------

  function WayShare(y: Six): real {
    30.0 * y[2] - 60.0 * y[3] + 30.0 * y[4]
  }

  function StartVelocityShare(y: Six): real {
    1.0 - 18.0 * y[2] + 32.0 * y[3] - 15.0 * y[4]
  }

  function EndVelocityShare(y: Six): real {
    -12.0 * y[2] + 28.0 * y[3] - 15.0 * y[4]
  }

  function StartAccelerationShare(y: Six): real {
    y[1] - 4.5 * y[2] + 6.0 * y[3] - 2.5 * y[4]
  }

  function EndAccelerationShare(y: Six): real {
    1.5 * y[2] - 4.0 * y[3] + 2.5 * y[4]
  }

  ghost predicate PowersOf(s: real, s2: real, s3: real, s4: real) {
    0.0 <= s <= 1.0 && s2 == s * s && s3 == s2 * s && s4 == s3 * s
  }

  lemma FourthPower(s: real, s2: real, s3: real, s4: real)
    requires PowersOf(s, s2, s3, s4)
    ensures s4 == s2 * s2 && s3 == s * s2
  {
  }

  /** A square times a factor that is not negative. */
  lemma SquareTimesFactor(x: real, x2: real, g: real, f: real)
    requires x2 == x * x && g >= 0.0 && f == x2 * g
    ensures f >= 0.0
  {
    SquareNonNegative(x, x2);
    ProductNonNegative(x2, g, f);
  }

  lemma StartVelocityRange(s: real, s2: real, s3: real, s4: real, f: real)
    requires PowersOf(s, s2, s3, s4) && f == 1.0 - 18.0 * s2 + 32.0 * s3 - 15.0 * s4
    ensures -1.0 <= f <= 1.0
  {
    FourthPower(s, s2, s3, s4);
    var g := 18.0 - 32.0 * s + 15.0 * s2;
    assert s2 * g == 18.0 * s2 - 32.0 * s3 + 15.0 * s4;
    TopPositive(s, s2, g);
    SquareTimesFactor(s, s2, g, 1.0 - f);
    var r2 := (s - 0.6) * (s - 0.6);
    assert r2 == s2 - 1.2 * s + 0.36;
    var h := 4.2 + 14.0 * s - 15.0 * s2;
    Concave(s, s2, h, 4.2, 3.2);
    assert r2 * h == 1.512 - 18.0 * s2 + 32.0 * s3 - 15.0 * s4 by {
      TimesConcave(s, s2, s3, s4, r2, h);
    }
    SquareTimesFactor(s - 0.6, r2, h, f + 0.512);
  }

  lemma TopPositive(s: real, s2: real, g: real)
    requires s2 == s * s && g == 18.0 - 32.0 * s + 15.0 * s2
    ensures g >= 0.0
  {
    var c := s - 16.0 / 15.0;
    assert c * c == s2 - 32.0 / 15.0 * s + 256.0 / 225.0;
    SquareNonNegative(c, c * c);
  }

  /** A parabola that opens downwards is not below the line between its values at 0 and 1. */
  lemma Concave(s: real, s2: real, h: real, low: real, high: real)
    requires 0.0 <= s <= 1.0 && s2 == s * s && low >= 0.0 && high >= 0.0
    requires h == low + (high - low + 15.0) * s - 15.0 * s2
    ensures h >= 0.0
  {
    ProductNonNegative(s, 1.0 - s, s - s2);
    ProductNonNegative(low, 1.0 - s, low - low * s);
    ProductNonNegative(high, s, high * s);
    assert (high - low + 15.0) * s == high * s - low * s + 15.0 * s;
  }

  lemma TimesConcave(s: real, s2: real, s3: real, s4: real, r2: real, h: real)
    requires s2 == s * s && s3 == s2 * s && s4 == s2 * s2
    requires r2 == s2 - 1.2 * s + 0.36 && h == 4.2 + 14.0 * s - 15.0 * s2
    ensures r2 * h == 1.512 - 18.0 * s2 + 32.0 * s3 - 15.0 * s4
  {
    assert r2 * s == s3 - 1.2 * s2 + 0.36 * s;
    assert r2 * s2 == s4 - 1.2 * s3 + 0.36 * s2;
    assert r2 * h == 4.2 * r2 + 14.0 * (r2 * s) - 15.0 * (r2 * s2);
  }

  /** Seen from the end, it is the share of the velocity at the start. */
  lemma EndVelocityRange(s: real, s2: real, s3: real, s4: real, f: real)
    requires PowersOf(s, s2, s3, s4) && f == -12.0 * s2 + 28.0 * s3 - 15.0 * s4
    ensures -1.0 <= f <= 1.0
  {
    FourthPower(s, s2, s3, s4);
    var r := 1.0 - s;
    var r2, r3, r4 := 1.0 - 2.0 * s + s2, 1.0 - 3.0 * s + 3.0 * s2 - s3, 1.0 - 4.0 * s + 6.0 * s2 - 4.0 * s3 + s4;
    assert r2 == r * r;
    assert r2 * s == s - 2.0 * s2 + s3;
    assert r3 == r2 * r;
    assert r3 * s == s - 3.0 * s2 + 3.0 * s3 - s4;
    assert r4 == r3 * r;
    StartVelocityRange(r, r2, r3, r4, f);
  }

  lemma StartAccelerationRange(s: real, s2: real, s3: real, s4: real, f: real)
    requires PowersOf(s, s2, s3, s4) && f == s - 4.5 * s2 + 6.0 * s3 - 2.5 * s4
    ensures -0.25 <= f <= 0.25
  {
    FourthPower(s, s2, s3, s4);
    var w, g := s - s2, 1.0 - 3.5 * s + 2.5 * s2;
    BellRange(s, s2, w, (s - 0.5) * (s - 0.5));
    SquareNonNegative(s - 0.7, (s - 0.7) * (s - 0.7));
    assert (s - 0.7) * (s - 0.7) == s2 - 1.4 * s + 0.49;
    assert w * g == w - 3.5 * (w * s) + 2.5 * (w * s2);
    assert w * s == s2 - s3 && w * s2 == s3 - s4;
    ProductNonNegative(w, 1.0 - g, w - f);
    ProductNonNegative(w, 1.0 + g, w + f);
  }

  lemma EndAccelerationRange(s: real, s2: real, s3: real, s4: real, f: real)
    requires PowersOf(s, s2, s3, s4) && f == 1.5 * s2 - 4.0 * s3 + 2.5 * s4
    ensures -0.25 <= f <= 0.25
  {
    FourthPower(s, s2, s3, s4);
    var w, g := s - s2, 1.5 * s - 2.5 * s2;
    BellRange(s, s2, w, (s - 0.5) * (s - 0.5));
    SquareNonNegative(s - 0.3, (s - 0.3) * (s - 0.3));
    assert (s - 0.3) * (s - 0.3) == s2 - 0.6 * s + 0.09;
    assert w * g == 1.5 * (w * s) - 2.5 * (w * s2);
    assert w * s == s2 - s3 && w * s2 == s3 - s4;
    ProductNonNegative(w, 1.0 - g, w - f);
    ProductNonNegative(w, 1.0 + g, w + f);
  }

  // ---------------------------------------------------------------------
  // The velocity is the sum of the contributions
  // ---------------------------------------------------------------------

  /** A value for the way, for the velocity at the start and at the end, and for the acceleration at both. */
  datatype Five = Five(way: real, v0: real, v1: real, a0: real, a1: real)

  /** The five shares. */
  ghost predicate SharesAre(f: Five, y: Six) {
    && f.way == WayShare(y) && f.v0 == StartVelocityShare(y) && f.v1 == EndVelocityShare(y)
    && f.a0 == StartAccelerationShare(y) && f.a1 == EndAccelerationShare(y)
  }

  /** What the ends demand, with the velocities times the duration and the accelerations times its square. */
  ghost predicate DemandIs(r: Five, s: End, e: End, t: real, t2: real) {
    r.way == e.q - s.q && r.v0 == s.v * t && r.v1 == e.v * t && r.a0 == s.a * t2 && r.a1 == e.a * t2
  }

  /** The velocity times the duration is made of the demands in their shares. */
  ghost predicate MadeOf(vt: real, r: Five, f: Five) {
    vt == r.way * f.way + r.v0 * f.v0 + r.v1 * f.v1 + r.a0 * f.a0 + r.a1 * f.a1
  }

  /** The terms of a velocity, and what the upper ones of them contribute at the end of the time. */
  datatype Terms = Terms(u2: real, u3: real, u4: real, u5: real, w3: real, w4: real, w5: real)

  ghost predicate TermsAre(k: Terms, p: Quintic, s: End, x: Six, z: Six) {
    && k.u2 == s.a * z[1] && k.u3 == p.c3 * z[2] && k.u4 == p.c4 * z[3] && k.u5 == p.c5 * z[4]
    && k.w3 == p.c3 * x[3] && k.w4 == p.c4 * x[4] && k.w5 == p.c5 * x[5]
  }

  /** The terms add up to the velocity v. */
  ghost predicate AddUp(k: Terms, v0: real, v: real) {
    v == v0 + k.u2 + 3.0 * k.u3 + 4.0 * k.u4 + 5.0 * k.u5
  }

  /** Times the duration, each term is a share of what it contributes at the end. */
  ghost predicate Contribute(k: Terms, t: real, a0: real, y: Six) {
    && k.u2 * t == a0 * y[1] && k.u3 * t == k.w3 * y[2]
    && k.u4 * t == k.w4 * y[3] && k.u5 * t == k.w5 * y[4]
  }

  ghost predicate Demanded(k: Terms, r: Five) {
    && k.w3 == 10.0 * r.way - 4.0 * r.v1 - 6.0 * r.v0 - 1.5 * r.a0 + 0.5 * r.a1
    && k.w4 == -15.0 * r.way + 7.0 * r.v1 + 8.0 * r.v0 + 1.5 * r.a0 - r.a1
    && k.w5 == 6.0 * r.way - 3.0 * r.v1 - 3.0 * r.v0 - 0.5 * r.a0 + 0.5 * r.a1
  }

  lemma TermsContribute(k: Terms, p: Quintic, s: End, x: Six, y: Six, z: Six, t: real, a0: real)
    requires Scaled(x, y, z) && TermsAre(k, p, s, x, z) && t == x[1] && a0 == s.a * x[2]
    ensures Contribute(k, t, a0, y)
  {
    OneShare(s.a, x, y, z, 1, 1, 2, a0);
    OneShare(p.c3, x, y, z, 2, 1, 3, k.w3);
    OneShare(p.c4, x, y, z, 3, 1, 4, k.w4);
    OneShare(p.c5, x, y, z, 4, 1, 5, k.w5);
  }

  lemma TermsAddUp(k: Terms, p: Quintic, s: End, e: End, x: Six, z: Six, v: real)
    requires Fits(p, s, e, x) && TermsAre(k, p, s, x, z) && v == VelocityAt(p, z)
    ensures AddUp(k, s.v, v)
  {
  }

  lemma TermsDemanded(k: Terms, r: Five, p: Quintic, s: End, e: End, x: Six, z: Six)
    requires Fits(p, s, e, x) && TermsAre(k, p, s, x, z) && DemandIs(r, s, e, x[1], x[2])
    ensures Demanded(k, r)
  {
    HalvesOf(s, e, x[1], x[2]);
  }

  lemma HalvesOf(s: End, e: End, t: real, t2: real)
    ensures 0.5 * Numerator3(s, e, t, t2)
         == 10.0 * (e.q - s.q) - 4.0 * (e.v * t) - 6.0 * (s.v * t) - 1.5 * (s.a * t2) + 0.5 * (e.a * t2)
    ensures 0.5 * Numerator4(s, e, t, t2)
         == -15.0 * (e.q - s.q) + 7.0 * (e.v * t) + 8.0 * (s.v * t) + 1.5 * (s.a * t2) - e.a * t2
    ensures 0.5 * Numerator5(s, e, t, t2)
         == 6.0 * (e.q - s.q) - 3.0 * (e.v * t) - 3.0 * (s.v * t) - 0.5 * (s.a * t2) + 0.5 * (e.a * t2)
  {
  }

  /** The velocity times the duration, in the terms' contributions. */
  ghost predicate Spread(vt: real, k: Terms, r: Five, y: Six) {
    vt == r.v0 + r.a0 * y[1] + 3.0 * (k.w3 * y[2]) + 4.0 * (k.w4 * y[3]) + 5.0 * (k.w5 * y[4])
  }

  /** Ordered by what they contain of the demands. */
  lemma Collect(vt: real, k: Terms, r: Five, f: Five, y: Six)
    requires Spread(vt, k, r, y) && Demanded(k, r) && SharesAre(f, y)
    ensures MadeOf(vt, r, f)
  {
  }

  lemma TimesDuration(k: Terms, v0: real, v: real, t: real)
    requires AddUp(k, v0, v)
    ensures v * t == v0 * t + k.u2 * t + 3.0 * (k.u3 * t) + 4.0 * (k.u4 * t) + 5.0 * (k.u5 * t)
  {
  }

  lemma TermsSpread(k: Terms, r: Five, y: Six, v0: real, v: real, t: real, vt: real)
    requires AddUp(k, v0, v) && r.v0 == v0 * t && Contribute(k, t, r.a0, y) && vt == v * t
    ensures Spread(vt, k, r, y)
  {
    TimesDuration(k, v0, v, t);
  }

  lemma VelocityOfTerms(k: Terms, r: Five, f: Five, p: Quintic, s: End, e: End, x: Six, y: Six, z: Six,
                        v: real, t: real)
    requires Scaled(x, y, z) && Fits(p, s, e, x) && SharesAre(f, y) && TermsAre(k, p, s, x, z)
    requires v == VelocityAt(p, z) && t == x[1] && DemandIs(r, s, e, x[1], x[2])
    ensures MadeOf(v * t, r, f)
  {
    TermsContribute(k, p, s, x, y, z, t, r.a0);
    TermsAddUp(k, p, s, e, x, z, v);
    TermsDemanded(k, r, p, s, e, x, z);
    TermsSpread(k, r, y, s.v, v, t, v * t);
    assert Spread(v * t, k, r, y);
    Collect(v * t, k, r, f, y);
  }

  lemma VelocityOf(r: Five, f: Five, p: Quintic, s: End, e: End, x: Six, y: Six, z: Six, v: real, t: real)
    requires Scaled(x, y, z) && Fits(p, s, e, x) && SharesAre(f, y)
    requires v == VelocityAt(p, z) && t == x[1] && DemandIs(r, s, e, x[1], x[2])
    ensures MadeOf(v * t, r, f)
  {
    var k := Terms(s.a * z[1], p.c3 * z[2], p.c4 * z[3], p.c5 * z[4], p.c3 * x[3], p.c4 * x[4], p.c5 * x[5]);
    VelocityOfTerms(k, r, f, p, s, e, x, y, z, v, t);
  }

  // ---------------------------------------------------------------------
  // Bounds
  // ---------------------------------------------------------------------

  /** The absolute value of a product whose second factor is positive. */
  lemma AbsOfTimes(a: real, m: real, am: real)
    requires m > 0.0 && am == a * m
    ensures Abs(am) == Abs(a) * m
  {
    AbsOfProduct(am, 1.0, a, m);
  }

  lemma WeighedAtMost(a: real, f: real, k: real, af: real)
    requires -k <= f <= k && af == a * f
    ensures -(k * Abs(a)) <= af <= k * Abs(a)
  {
    AbsTimes(af, 1.0, a, f, k);
  }

  ghost predicate InRange(f: Five) {
    && 0.0 <= f.way <= 1.875 && -1.0 <= f.v0 <= 1.0 && -1.0 <= f.v1 <= 1.0
    && -0.25 <= f.a0 <= 0.25 && -0.25 <= f.a1 <= 0.25
  }

  lemma SharesInRange(f: Five, y: Six)
    requires ArePowers(y) && 0.0 <= y[1] <= 1.0 && SharesAre(f, y)
    ensures InRange(f)
  {
    Squares(y);
    SpeedFactor(y, f.way);
    StartVelocityRange(y[1], y[2], y[3], y[4], f.v0);
    EndVelocityRange(y[1], y[2], y[3], y[4], f.v1);
    StartAccelerationRange(y[1], y[2], y[3], y[4], f.a0);
    EndAccelerationRange(y[1], y[2], y[3], y[4], f.a1);
  }

  ghost predicate WithinDemand(vt: real, r: Five) {
    Abs(vt) <= 1.875 * Abs(r.way) + Abs(r.v0) + Abs(r.v1) + 0.25 * Abs(r.a0) + 0.25 * Abs(r.a1)
  }

  /** With the five products. */
  lemma ProductsAtMost(vt: real, r: Five, f: Five, p: Five)
    requires InRange(f) && vt == p.way + p.v0 + p.v1 + p.a0 + p.a1
    requires p.way == r.way * f.way && p.v0 == r.v0 * f.v0 && p.v1 == r.v1 * f.v1
    requires p.a0 == r.a0 * f.a0 && p.a1 == r.a1 * f.a1
    ensures WithinDemand(vt, r)
  {
    WeighedAtMost(r.way, f.way, 1.875, p.way);
    WeighedAtMost(r.v0, f.v0, 1.0, p.v0);
    WeighedAtMost(r.v1, f.v1, 1.0, p.v1);
    WeighedAtMost(r.a0, f.a0, 0.25, p.a0);
    WeighedAtMost(r.a1, f.a1, 0.25, p.a1);
  }

  lemma PartsAtMost(vt: real, r: Five, f: Five)
    requires MadeOf(vt, r, f) && InRange(f)
    ensures WithinDemand(vt, r)
  {
    ProductsAtMost(vt, r, f, Five(r.way * f.way, r.v0 * f.v0, r.v1 * f.v1, r.a0 * f.a0, r.a1 * f.a1));
  }

  /** What the way, the velocities and the accelerations at the ends allow, for the time t and its square t2. */
  ghost predicate AtMost(v: real, s: End, e: End, t: real, t2: real) {
    Abs(v) * t <= 1.875 * Abs(e.q - s.q) + Abs(s.v) * t + Abs(e.v) * t + 0.25 * (Abs(s.a) * t2) + 0.25 * (Abs(e.a) * t2)
  }

  /** The same for the absolute values. */
  ghost predicate AbsDemandIs(r: Five, s: End, e: End, t: real, t2: real) {
    && Abs(r.v0) == Abs(s.v) * t && Abs(r.v1) == Abs(e.v) * t
    && Abs(r.a0) == Abs(s.a) * t2 && Abs(r.a1) == Abs(e.a) * t2
  }

  lemma AbsDemand(r: Five, s: End, e: End, t: real, t2: real)
    requires DemandIs(r, s, e, t, t2) && t > 0.0 && t2 > 0.0
    ensures AbsDemandIs(r, s, e, t, t2)
  {
    AbsOfTimes(s.v, t, r.v0);
    AbsOfTimes(e.v, t, r.v1);
    AbsOfTimes(s.a, t2, r.a0);
    AbsOfTimes(e.a, t2, r.a1);
  }

  lemma AbsDemandAtMost(v: real, vt: real, r: Five, s: End, e: End, t: real, t2: real)
    requires Abs(vt) == Abs(v) * t && WithinDemand(vt, r) && AbsDemandIs(r, s, e, t, t2) && r.way == e.q - s.q
    ensures AtMost(v, s, e, t, t2)
  {
  }

  lemma DemandAtMost(v: real, vt: real, r: Five, s: End, e: End, t: real, t2: real)
    requires vt == v * t && WithinDemand(vt, r) && DemandIs(r, s, e, t, t2) && t > 0.0 && t2 > 0.0
    ensures AtMost(v, s, e, t, t2)
  {
    AbsOfTimes(v, t, vt);
    AbsDemand(r, s, e, t, t2);
    assert AbsDemandIs(r, s, e, t, t2);
    AbsDemandAtMost(v, vt, r, s, e, t, t2);
  }

  /** The share of the time, and its powers. */
  lemma ShareOf(p: Quintic, t: real, at: real) returns (y: Six)
    requires t > 0.0 && p.duration == t
    ensures Scaled(Powers(t), y, Powers(Clamp(p, at)))
  {
    var c := Clamp(p, at);
    var s := c / t;
    QuotientRange(c, t, s);
    y := Powers(s);
    PowersArePowers(s);
    PowersArePowers(t);
    PowersArePowers(c);
  }

  /** No segment is faster at any time than its way, its velocities and its accelerations allow. */
  lemma AnySpeedBound(s: End, e: End, t: real, t2: real, at: real)
    requires t > 0.0 && t2 == t * t
    ensures AtMost(Velocity(Segment(s, e, t), at), s, e, t, t2)
  {
    var r := Five(e.q - s.q, s.v * t, e.v * t, s.a * t2, e.a * t2);
    var v := Velocity(Segment(s, e, t), at);
    AnyVelocity(r, s, e, t, t2, at, v);
    ProductPositive(t, t, t2);
    DemandAtMost(v, v * t, r, s, e, t, t2);
  }

  lemma AnyVelocity(r: Five, s: End, e: End, t: real, t2: real, at: real, v: real)
    requires t > 0.0 && t2 == t * t && DemandIs(r, s, e, t, t2) && v == Velocity(Segment(s, e, t), at)
    ensures WithinDemand(v * t, r)
  {
    var f := AnyShares(r, s, e, t, t2, at, v);
    PartsAtMost(v * t, r, f);
  }

  lemma SharesAddUp(f: Five, y: Six)
    requires SharesAre(f, y)
    ensures f.v0 + f.v1 == 1.0 - f.way
  {
  }

  /** The shares at a time. */
  lemma AnyShares(r: Five, s: End, e: End, t: real, t2: real, at: real, v: real) returns (f: Five)
    requires t > 0.0 && t2 == t * t && DemandIs(r, s, e, t, t2) && v == Velocity(Segment(s, e, t), at)
    ensures MadeOf(v * t, r, f) && InRange(f) && f.v0 + f.v1 == 1.0 - f.way
  {
    var p := Segment(s, e, t);
    var y := ShareOf(p, t, at);
    SegmentFits(s, e, t);
    f := Five(WayShare(y), StartVelocityShare(y), EndVelocityShare(y), StartAccelerationShare(y),
              EndAccelerationShare(y));
    VelocityOf(r, f, p, s, e, Powers(t), y, Powers(Clamp(p, at)), v, t);
    SharesInRange(f, y);
    SharesAddUp(f, y);
  }

  lemma HalfwayAt(p: Quintic, t: real, at: real)
    requires t > 0.0 && p.duration == t && at == 0.5 * t
    ensures Clamp(p, at) == at && Scaled(Powers(t), Powers(0.5), Powers(at))
  {
    PowersArePowers(0.5);
    PowersArePowers(t);
    PowersArePowers(at);
  }

  lemma HalfwayShares(y: Six)
    requires ArePowers(y) && y[1] == 0.5
    ensures SharesAre(Five(1.875, -0.4375, -0.4375, -0.03125, 0.03125), y)
  {
    Squares(y);
  }

  /** The velocity in the middle of the time: the velocities at the ends count against the way. */
  lemma HalfwayVelocity(r: Five, s: End, e: End, t: real, t2: real, at: real)
    requires t > 0.0 && t2 == t * t && at == 0.5 * t && DemandIs(r, s, e, t, t2)
    ensures MadeOf(Velocity(Segment(s, e, t), at) * t, r, Five(1.875, -0.4375, -0.4375, -0.03125, 0.03125))
  {
    var p := Segment(s, e, t);
    HalfwayAt(p, t, at);
    SegmentFits(s, e, t);
    HalfwayShares(Powers(0.5));
    VelocityOf(r, Five(1.875, -0.4375, -0.4375, -0.03125, 0.03125), p, s, e, Powers(t), Powers(0.5), Powers(at),
               Velocity(p, at), t);
  }
}
