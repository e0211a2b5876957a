/**
  How fast a quintic segment from rest to rest gets: exact limits of position, speed,
  acceleration and jerk.
*/
module QuinticLimits {
  import opened Quintic

  function Abs(x: real): (r: real)
    ensures r >= 0.0 && (r == x || r == -x)
  {
    if x < 0.0 then -x else x
  }

  // ---------------------------------------------------------------------
  // Polynomials in the share of the time
  // ---------------------------------------------------------------------

  /** The share done times the share left; s2 is the square of s. */
  lemma BellRange(s: real, s2: real, w: real, h2: real)
    requires 0.0 <= s <= 1.0 && s2 == s * s && w == s - s2 && h2 == (s - 0.5) * (s - 0.5)
    ensures 0.0 <= w <= 0.25
  {
    assert w == s * (1.0 - s);
    assert h2 == 0.25 - w;
    SquareNonNegative(s - 0.5, h2);
    ProductNonNegative(s, 1.0 - s, w);
  }

  lemma SquareNonNegative(x: real, x2: real)
    requires x2 == x * x
    ensures x2 >= 0.0
  {
  }

  lemma ProductNonNegative(a: real, b: real, ab: real)
    requires a >= 0.0 && b >= 0.0 && ab == a * b
    ensures ab >= 0.0
  {
  }

  lemma BellSquare(s: real, s2: real, s3: real, s4: real, w: real, w2: real)
    requires s2 == s * s && s3 == s * s2 && s4 == s2 * s2 && w == s - s2 && w2 == w * w
    ensures w2 == s2 - 2.0 * s3 + s4
  {
    assert w * w == s * s - 2.0 * (s * s2) + s2 * s2;
  }

  lemma SmallSquare(w: real, w2: real)
    requires 0.0 <= w <= 0.25 && w2 == w * w
    ensures 0.0 <= w2 <= 0.0625
  {
    ProductNonNegative(w, 0.25 - w, w * (0.25 - w));
    assert w * (0.25 - w) == 0.25 * w - w2;
    SquareNonNegative(w, w2);
  }

  /** The cubic that bounds the square of the acceleration. */
  lemma CubicBound(w: real, w2: real, w3: real)
    requires 0.0 <= w <= 0.25 && w2 == w * w && w3 == w2 * w
    ensures 0.0 <= w2 - 4.0 * w3 <= 1.0 / 108.0
  {
    var g := w - 1.0 / 6.0;
    var g2 := g * g;
    SquareNonNegative(g, g2);
    assert g2 == w2 - w / 3.0 + 1.0 / 36.0;
    ProductNonNegative(g2, 4.0 * w + 1.0 / 3.0, g2 * (4.0 * w + 1.0 / 3.0));
    assert g2 * (4.0 * w + 1.0 / 3.0) == 4.0 * (g2 * w) + g2 / 3.0;
    assert g2 * w == w3 - w2 / 3.0 + w / 36.0;
    SquareNonNegative(w, w2);
    ProductNonNegative(w2, 1.0 - 4.0 * w, w2 - 4.0 * w3);
  }

  lemma AccelerationFactors(s: real, s2: real, s3: real, w: real, f: real)
    requires s2 == s * s && s3 == s * s2 && w == s - s2 && f == 60.0 * s - 180.0 * s2 + 120.0 * s3
    ensures f == 60.0 * (w * (1.0 - 2.0 * s))
  {
    assert w * (1.0 - 2.0 * s) == w - 2.0 * (s * w);
    assert s * w == s2 - s3;
  }

  lemma AccelerationSquare(s: real, s2: real, w: real, w2: real, w3: real, f: real, f2: real)
    requires s2 == s * s && w == s - s2 && w2 == w * w && w3 == w2 * w
    requires f == 60.0 * (w * (1.0 - 2.0 * s)) && f2 == f * f
    ensures f2 == 3600.0 * (w2 - 4.0 * w3)
  {
    var c := 1.0 - 2.0 * s;
    assert c * c == 1.0 - 4.0 * w;
    SquareOfProduct(w, c, w2, 1.0 - 4.0 * w);
    assert w2 * (1.0 - 4.0 * w) == w2 - 4.0 * w3;
    assert f * f == 3600.0 * ((w * c) * (w * c));
  }

  lemma SquareOfProduct(a: real, b: real, a2: real, b2: real)
    requires a2 == a * a && b2 == b * b
    ensures (a * b) * (a * b) == a2 * b2
  {
    assert (a * b) * (a * b) == (a * a) * (b * b);
  }

  lemma ProgressRange(s: real, s2: real, s3: real, s4: real, s5: real, f: real)
    requires 0.0 <= s <= 1.0 && s2 == s * s && s3 == s2 * s && s4 == s3 * s && s5 == s4 * s
    requires f == 10.0 * s3 - 15.0 * s4 + 6.0 * s5
    ensures 0.0 <= f <= 1.0
  {
    SquareNonNegative(s, s2);
    ProductNonNegative(s2, s, s3);
    ProgressLow(s, s2, s3, s4, s5, f);
    ProgressHigh(s, s2, s3, s4, s5, f);
  }

  lemma ProgressLow(s: real, s2: real, s3: real, s4: real, s5: real, f: real)
    requires s3 >= 0.0 && s2 == s * s && s4 == s3 * s && s5 == s4 * s
    requires f == 10.0 * s3 - 15.0 * s4 + 6.0 * s5
    ensures f >= 0.0
  {
    var g := 10.0 - 15.0 * s + 6.0 * s2;
    SquareNonNegative(s - 1.25, (s - 1.25) * (s - 1.25));
    assert (s - 1.25) * (s - 1.25) == s2 - 2.5 * s + 1.5625;
    assert g >= 0.0;
    assert s3 * s2 == s5;
    assert s3 * g == f;
    ProductNonNegative(s3, g, f);
  }

  lemma ProgressHigh(s: real, s2: real, s3: real, s4: real, s5: real, f: real)
    requires 0.0 <= s <= 1.0 && s2 >= 0.0 && s2 == s * s && s3 == s2 * s && s4 == s3 * s && s5 == s4 * s
    requires f == 10.0 * s3 - 15.0 * s4 + 6.0 * s5
    ensures f <= 1.0
  {
    var r := 1.0 - s;
    var r2 := r * r;
    var r3 := r2 * r;
    SquareNonNegative(r, r2);
    ProductNonNegative(r2, r, r3);
    assert r2 == 1.0 - 2.0 * s + s2;
    assert r2 * s == s - 2.0 * s2 + s3;
    assert r3 == r2 - r2 * s;
    assert r3 == 1.0 - 3.0 * s + 3.0 * s2 - s3;
    var g := 1.0 + 3.0 * s + 6.0 * s2;
    Expand(s, s2, s3, s4, s5, r3);
    ProductNonNegative(r3, g, r3 * g);
    assert r3 * g == r3 + 3.0 * (r3 * s) + 6.0 * (r3 * s2);
  }

  lemma Expand(s: real, s2: real, s3: real, s4: real, s5: real, r3: real)
    requires s2 == s * s && s3 == s2 * s && s4 == s3 * s && s5 == s4 * s && r3 == 1.0 - 3.0 * s + 3.0 * s2 - s3
    ensures r3 * s == s - 3.0 * s2 + 3.0 * s3 - s4
    ensures r3 * s2 == s2 - 3.0 * s3 + 3.0 * s4 - s5
  {
    assert s2 * s2 == s4 && s3 * s2 == s5;
  }

  // ---------------------------------------------------------------------
  // The motion at a time
  // ---------------------------------------------------------------------

  ghost predicate FromRest(p: Quintic, q0: real, q1: real, t: real) {
    t > 0.0 && p == Segment(Rest(q0), Rest(q1), t)
  }

  /** The share of the time, and its powers. */
  lemma ShareOfTime(p: Quintic, q0: real, q1: real, t: real, at: real) returns (y: Six)
    requires FromRest(p, q0, q1, t)
    ensures Scaled(Powers(t), y, Powers(Clamp(p, at)))
    ensures Moves(p, q0, q1 - q0, Powers(t))
  {
    var c := Clamp(p, at);
    var s := c / t;
    QuotientRange(c, t, s);
    y := Powers(s);
    PowersArePowers(s);
    PowersArePowers(t);
    PowersArePowers(c);
    RestMoves(q0, q1, t);
  }

  lemma QuotientRange(c: real, t: real, s: real)
    requires t > 0.0 && 0.0 <= c <= t && s == c / t
    ensures s * t == c && 0.0 <= s <= 1.0
  {
    assert s * t == c;
    if s < 0.0 {
      ProductPositive(-s, t, -s * t);
    } else if s > 1.0 {
      ProductPositive(s - 1.0, t, (s - 1.0) * t);
    }
  }

  lemma Squares(y: Six)
    requires ArePowers(y)
    ensures y[2] == y[1] * y[1] && y[3] == y[1] * y[2] && y[3] == y[2] * y[1]
    ensures y[4] == y[2] * y[2] && y[4] == y[3] * y[1] && y[5] == y[4] * y[1]
  {
    PowersAdd(y, 1, 1);
    PowersAdd(y, 1, 2);
    PowersAdd(y, 2, 1);
    PowersAdd(y, 2, 2);
    PowersAdd(y, 3, 1);
    PowersAdd(y, 4, 1);
  }

  lemma Between(q0: real, d: real, f: real, fd: real)
    requires 0.0 <= f <= 1.0 && fd == d * f
    ensures d >= 0.0 ==> q0 <= q0 + fd <= q0 + d
    ensures d <= 0.0 ==> q0 + d <= q0 + fd <= q0
  {
    if d >= 0.0 {
      ProductNonNegative(d, f, fd);
      ProductNonNegative(d, 1.0 - f, d - fd);
    } else {
      ProductNonNegative(-d, f, -fd);
      ProductNonNegative(-d, 1.0 - f, -d + fd);
    }
  }

  ghost predicate Scaled(x: Six, y: Six, z: Six) {
    ArePowers(x) && ArePowers(y) && ArePowers(z) && z[1] == y[1] * x[1] && 0.0 <= y[1] <= 1.0 && x[1] > 0.0
  }

  lemma ProgressFactor(y: Six)
    requires ArePowers(y) && 0.0 <= y[1] <= 1.0
    ensures 0.0 <= Progress(y) <= 1.0
  {
    Squares(y);
    ProgressRange(y[1], y[2], y[3], y[4], y[5], Progress(y));
  }

  lemma PositionBetween(p: Quintic, q0: real, d: real, x: Six, y: Six, z: Six)
    requires Scaled(x, y, z) && Moves(p, q0, d, x)
    ensures d >= 0.0 ==> q0 <= PositionAt(p, z) <= q0 + d
    ensures d <= 0.0 ==> q0 + d <= PositionAt(p, z) <= q0
  {
    RestPosition(p, q0, d, x, y, z);
    ProgressFactor(y);
    Between(q0, d, Progress(y), d * Progress(y));
  }

  /** A segment from rest to rest never leaves the interval between its ends. */
  lemma StaysBetween(p: Quintic, q0: real, q1: real, t: real, at: real)
    requires FromRest(p, q0, q1, t)
    ensures Min(q0, q1) <= Position(p, at) <= Max(q0, q1)
  {
    var y := ShareOfTime(p, q0, q1, t, at);
    PositionBetween(p, q0, q1 - q0, Powers(t), y, Powers(Clamp(p, at)));
  }

  lemma AbsTimes(v: real, m: real, d: real, f: real, k: real)
    requires m > 0.0 && v * m == d * f && -k <= f <= k
    ensures Abs(v) * m <= Abs(d) * k
  {
    if d >= 0.0 {
      ProductNonNegative(d, k - f, d * k - d * f);
      ProductNonNegative(d, k + f, d * k + d * f);
    } else {
      ProductNonNegative(-d, k - f, -d * k + d * f);
      ProductNonNegative(-d, k + f, -d * k - d * f);
    }
  }

  lemma SpeedFactor(y: Six, f: real)
    requires ArePowers(y) && 0.0 <= y[1] <= 1.0 && f == 30.0 * y[2] - 60.0 * y[3] + 30.0 * y[4]
    ensures 0.0 <= f <= 1.875
  {
    Squares(y);
    var w := y[1] - y[2];
    BellRange(y[1], y[2], w, (y[1] - 0.5) * (y[1] - 0.5));
    BellSquare(y[1], y[2], y[3], y[4], w, w * w);
    SmallSquare(w, w * w);
  }

  lemma SpeedOf(p: Quintic, q0: real, d: real, x: Six, y: Six, z: Six, v: real, t: real)
    requires Scaled(x, y, z) && Moves(p, q0, d, x) && v == VelocityAt(p, z) && t == x[1]
    ensures Abs(v) * t <= Abs(d) * 1.875
  {
    var f := 30.0 * y[2] - 60.0 * y[3] + 30.0 * y[4];
    RestVelocity(p, q0, d, x, y, z);
    SpeedFactor(y, f);
    AbsTimes(v, t, d, f, 1.875);
  }

  lemma SpeedBound(p: Quintic, q0: real, q1: real, t: real, at: real)
    requires FromRest(p, q0, q1, t)
    ensures Abs(Velocity(p, at)) * t <= Abs(q1 - q0) * 1.875
  {
    var y := ShareOfTime(p, q0, q1, t, at);
    SpeedOf(p, q0, q1 - q0, Powers(t), y, Powers(Clamp(p, at)), Velocity(p, at), t);
  }

  lemma JerkFactor(y: Six, f: real)
    requires ArePowers(y) && 0.0 <= y[1] <= 1.0 && f == 60.0 - 360.0 * y[1] + 360.0 * y[2]
    ensures -60.0 <= f <= 60.0
  {
    Squares(y);
    BellRange(y[1], y[2], y[1] - y[2], (y[1] - 0.5) * (y[1] - 0.5));
  }

  lemma JerkOf(p: Quintic, q0: real, d: real, x: Six, y: Six, z: Six, j: real, m: real)
    requires Scaled(x, y, z) && Moves(p, q0, d, x) && j == JerkAt(p, z) && m == x[3]
    ensures Abs(j) * m <= Abs(d) * 60.0
  {
    var f := 60.0 - 360.0 * y[1] + 360.0 * y[2];
    RestJerk(p, q0, d, x, y, z);
    JerkFactor(y, f);
    PowerPositive(x, 3);
    AbsTimes(j, m, d, f, 60.0);
  }

  lemma JerkBound(p: Quintic, q0: real, q1: real, t: real, at: real)
    requires FromRest(p, q0, q1, t)
    ensures Abs(Jerk(p, at)) * Powers(t)[3] <= Abs(q1 - q0) * 60.0
  {
    var y := ShareOfTime(p, q0, q1, t, at);
    JerkOf(p, q0, q1 - q0, Powers(t), y, Powers(Clamp(p, at)), Jerk(p, at), Powers(t)[3]);
  }

  /** The square of the factor of the acceleration is at most a hundred thirds. */
  lemma AccelerationFactor(y: Six, f: real, f2: real)
    requires ArePowers(y) && 0.0 <= y[1] <= 1.0
    requires f == 60.0 * y[1] - 180.0 * y[2] + 120.0 * y[3] && f2 == f * f
    ensures f2 <= 100.0 / 3.0
  {
    Squares(y);
    var w := y[1] - y[2];
    var w2 := w * w;
    var w3 := w2 * w;
    BellRange(y[1], y[2], w, (y[1] - 0.5) * (y[1] - 0.5));
    CubicBound(w, w2, w3);
    AccelerationFactors(y[1], y[2], y[3], w, f);
    AccelerationSquare(y[1], y[2], w, w2, w3, f, f2);
  }

  lemma SquareTimes(am: real, d: real, f: real, d2: real, f2: real, k: real, am2: real)
    requires am == d * f && d2 == d * d && f2 == f * f && f2 <= k && am2 == am * am
    ensures am2 <= d2 * k
  {
    SquareOfProduct(d, f, d2, f2);
    SquareNonNegative(d, d2);
    ProductNonNegative(d2, k - f2, d2 * k - d2 * f2);
  }

  lemma AccelerationOf(p: Quintic, q0: real, d: real, x: Six, y: Six, z: Six, a: real, m: real,
                       d2: real, am: real, am2: real)
    requires Scaled(x, y, z) && Moves(p, q0, d, x) && d2 == d * d
    requires a == AccelerationAt(p, z) && m == x[2] && am == a * m && am2 == am * am
    ensures am2 <= d2 * (100.0 / 3.0)
  {
    var f := 60.0 * y[1] - 180.0 * y[2] + 120.0 * y[3];
    RestAcceleration(p, q0, d, x, y, z);
    AccelerationFactor(y, f, f * f);
    SquareTimes(am, d, f, d2, f * f, 100.0 / 3.0, am2);
  }

  lemma AccelerationBound(p: Quintic, q0: real, q1: real, t: real, at: real, a: real, m: real,
                          d2: real, am: real, am2: real)
    requires FromRest(p, q0, q1, t) && d2 == (q1 - q0) * (q1 - q0)
    requires a == Acceleration(p, at) && m == Powers(t)[2] && am == a * m && am2 == am * am
    ensures am2 <= d2 * (100.0 / 3.0)
  {
    var y := ShareOfTime(p, q0, q1, t, at);
    AccelerationOf(p, q0, q1 - q0, Powers(t), y, Powers(Clamp(p, at)), a, m, d2, am, am2);
  }

  // ---------------------------------------------------------------------
  // The bounds are reached, so a limit is kept exactly when the duration is long enough
  // ---------------------------------------------------------------------

  lemma LessAfterDivision(a: real, b: real, m: real, am: real, bm: real)
    requires m > 0.0 && am == a * m && bm == b * m
    ensures am <= bm <==> a <= b
  {
    if a < b {
      ProductPositive(b - a, m, bm - am);
    } else if b < a {
      ProductPositive(a - b, m, am - bm);
    }
  }

  lemma AbsOfProduct(v: real, m: real, d: real, k: real)
    requires m > 0.0 && k >= 0.0 && v * m == d * k
    ensures Abs(v) * m == Abs(d) * k
  {
    if d >= 0.0 {
      ProductNonNegative(d, k, d * k);
    } else {
      ProductNonNegative(-d, k, -d * k);
    }
    if v > 0.0 {
      ProductPositive(v, m, v * m);
    } else if v < 0.0 {
      ProductPositive(-v, m, -v * m);
    }
  }

  /** The motion at the share s of the time. */
  lemma AtShare(p: Quintic, q0: real, q1: real, t: real, s: real, at: real)
    requires FromRest(p, q0, q1, t) && 0.0 <= s <= 1.0 && at == s * t
    ensures Clamp(p, at) == at && Scaled(Powers(t), Powers(s), Powers(at))
    ensures Moves(p, q0, q1 - q0, Powers(t))
  {
    ProductNonNegative(s, t, at);
    ProductNonNegative(1.0 - s, t, t - at);
    PowersArePowers(s);
    PowersArePowers(t);
    PowersArePowers(at);
    RestMoves(q0, q1, t);
  }

  ghost predicate Bounded(v: real -> real, m: real, bound: real, at: real) {
    Abs(v(at)) * m <= bound
  }

  ghost predicate Within(v: real -> real, limit: real, at: real) {
    Abs(v(at)) <= limit
  }

  /** The limit is kept at all times. */
  ghost predicate Keeps(v: real -> real, limit: real) {
    forall at: real :: Within(v, limit, at)
  }

  lemma BoundedBy(v: real -> real, m: real, bound: real, at: real, x: real)
    requires x == v(at) && Abs(x) * m <= bound
    ensures Bounded(v, m, bound, at)
  {
  }

  /** When the bound is reached somewhere, a limit is kept exactly when it is not below the bound. */
  lemma LimitExact(v: real -> real, m: real, bound: real, limit: real, peak: real)
    requires m > 0.0 && (forall at: real :: Bounded(v, m, bound, at)) && Abs(v(peak)) * m == bound
    ensures (forall at: real :: Within(v, limit, at)) <==> bound <= limit * m
  {
    if bound <= limit * m {
      forall at: real
        ensures Within(v, limit, at)
      {
        assert Bounded(v, m, bound, at);
        LessAfterDivision(Abs(v(at)), limit, m, Abs(v(at)) * m, limit * m);
      }
    }
    if forall at: real :: Within(v, limit, at) {
      assert Within(v, limit, peak);
      LessAfterDivision(Abs(v(peak)), limit, m, Abs(v(peak)) * m, limit * m);
    }
  }

  function Speed(p: Quintic): real -> real {
    (at: real) => Velocity(p, at)
  }

  function Surge(p: Quintic): real -> real {
    (at: real) => Acceleration(p, at)
  }

  function Jolt(p: Quintic): real -> real {
    (at: real) => Jerk(p, at)
  }

  lemma HalfwayOf(p: Quintic, q0: real, d: real, x: Six, y: Six, z: Six, v: real, t: real)
    requires Scaled(x, y, z) && Moves(p, q0, d, x) && y[1] == 0.5 && v == VelocityAt(p, z) && t == x[1]
    ensures Abs(v) * t == Abs(d) * 1.875
  {
    Squares(y);
    RestVelocity(p, q0, d, x, y, z);
    AbsOfProduct(v, t, d, 1.875);
  }

  lemma FastestHalfway(p: Quintic, q0: real, q1: real, t: real, at: real, bound: real)
    requires FromRest(p, q0, q1, t) && at == 0.5 * t && bound == Abs(q1 - q0) * 1.875
    ensures Abs(Speed(p)(at)) * t == bound
  {
    AtShare(p, q0, q1, t, 0.5, at);
    HalfwayOf(p, q0, q1 - q0, Powers(t), Powers(0.5), Powers(at), Speed(p)(at), t);
  }

  lemma SpeedBoundedAt(p: Quintic, q0: real, q1: real, t: real, bound: real, at: real, v: real)
    requires FromRest(p, q0, q1, t) && bound == Abs(q1 - q0) * 1.875 && v == Velocity(p, at)
    ensures Bounded(Speed(p), t, bound, at)
  {
    SpeedBound(p, q0, q1, t, at);
    BoundedBy(Speed(p), t, bound, at, v);
  }

  lemma SpeedBounded(p: Quintic, q0: real, q1: real, t: real, bound: real)
    requires FromRest(p, q0, q1, t) && bound == Abs(q1 - q0) * 1.875
    ensures forall at: real :: Bounded(Speed(p), t, bound, at)
  {
    forall at: real
      ensures Bounded(Speed(p), t, bound, at)
    {
      SpeedBoundedAt(p, q0, q1, t, bound, at, Velocity(p, at));
    }
  }

  /** A limit of the speed is kept exactly when the duration is long enough. */
  lemma SpeedLimitExact(p: Quintic, q0: real, q1: real, t: real, limit: real, bound: real)
    requires FromRest(p, q0, q1, t) && bound == Abs(q1 - q0) * 1.875
    ensures (forall at: real :: Within(Speed(p), limit, at)) <==> bound <= limit * t
  {
    SpeedBounded(p, q0, q1, t, bound);
    FastestHalfway(p, q0, q1, t, 0.5 * t, bound);
    LimitExact(Speed(p), t, bound, limit, 0.5 * t);
  }

  lemma StartOf(p: Quintic, q0: real, d: real, x: Six, y: Six, z: Six, j: real, m: real)
    requires Scaled(x, y, z) && Moves(p, q0, d, x) && y[1] == 0.0 && j == JerkAt(p, z) && m == x[3]
    ensures m > 0.0 && Abs(j) * m == Abs(d) * 60.0
  {
    Squares(y);
    RestJerk(p, q0, d, x, y, z);
    PowerPositive(x, 3);
    AbsOfProduct(j, m, d, 60.0);
  }

  lemma JoltAtStart(p: Quintic, q0: real, q1: real, t: real, m: real, bound: real)
    requires FromRest(p, q0, q1, t) && m == Powers(t)[3] && bound == Abs(q1 - q0) * 60.0
    ensures m > 0.0 && Abs(Jolt(p)(0.0)) * m == bound
  {
    AtShare(p, q0, q1, t, 0.0, 0.0);
    StartOf(p, q0, q1 - q0, Powers(t), Powers(0.0), Powers(0.0), Jolt(p)(0.0), m);
  }

  lemma JoltBounded(p: Quintic, q0: real, q1: real, t: real, m: real, bound: real)
    requires FromRest(p, q0, q1, t) && m == Powers(t)[3] && bound == Abs(q1 - q0) * 60.0
    ensures forall at: real :: Bounded(Jolt(p), m, bound, at)
  {
    forall at: real
      ensures Bounded(Jolt(p), m, bound, at)
    {
      JerkBound(p, q0, q1, t, at);
      BoundedBy(Jolt(p), m, bound, at, Jerk(p, at));
    }
  }

  /** A limit of the jerk is kept exactly when the cube of the duration, m, is large enough. */
  lemma JerkLimitExact(p: Quintic, q0: real, q1: real, t: real, m: real, limit: real, bound: real)
    requires FromRest(p, q0, q1, t) && m == Powers(t)[3] && bound == Abs(q1 - q0) * 60.0
    ensures (forall at: real :: Within(Jolt(p), limit, at)) <==> bound <= limit * m
  {
    JoltAtStart(p, q0, q1, t, m, bound);
    JoltBounded(p, q0, q1, t, m, bound);
    LimitExact(Jolt(p), m, bound, limit, 0.0);
  }

  /** The share of the time at which the acceleration peaks, for the root of three. */
  lemma PeakShare(root: real, inverse: real, s: real, s2: real, s3: real)
    requires root > 0.0 && root * root == 3.0 && inverse * root == 1.0 && s == 0.5 - 0.5 * inverse
    requires s2 == s * s && s3 == s * s2
    ensures 0.0 <= s <= 1.0 && 60.0 * s - 180.0 * s2 + 120.0 * s3 == 10.0 * inverse
  {
    InverseOfRoot(root, inverse);
    var w := s - s2;
    assert s * s == 0.25 - 0.5 * inverse + 0.25 * (inverse * inverse);
    assert w == 1.0 / 6.0;
    AccelerationFactors(s, s2, s3, w, 60.0 * s - 180.0 * s2 + 120.0 * s3);
    assert w * (1.0 - 2.0 * s) == inverse / 6.0;
  }

  lemma InverseOfRoot(root: real, inverse: real)
    requires root > 0.0 && root * root == 3.0 && inverse * root == 1.0
    ensures inverse * inverse == 1.0 / 3.0 && 0.0 < inverse < 1.0
  {
    assert inverse == inverse * (root * root) / 3.0 == root / 3.0;
    assert inverse * inverse == root * root / 9.0;
    if root >= 3.0 {
      ProductPositive(root, root - 1.0, root * (root - 1.0));
      ProductNonNegative(root, root - 3.0, root * (root - 3.0));
    }
  }

  lemma PeakOf(p: Quintic, q0: real, d: real, x: Six, y: Six, z: Six, root: real, inverse: real, a: real, m: real)
    requires Scaled(x, y, z) && Moves(p, q0, d, x) && a == AccelerationAt(p, z) && m == x[2]
    requires root > 0.0 && root * root == 3.0 && inverse * root == 1.0 && y[1] == 0.5 - 0.5 * inverse
    ensures m > 0.0 && Abs(a) * m == Abs(d) * (10.0 * inverse)
  {
    Squares(y);
    PeakShare(root, inverse, y[1], y[2], y[3]);
    InverseOfRoot(root, inverse);
    RestAcceleration(p, q0, d, x, y, z);
    PowerPositive(x, 2);
    AbsOfProduct(a, m, d, 10.0 * inverse);
  }

  lemma SurgePeaks(p: Quintic, q0: real, q1: real, t: real, m: real, root: real, inverse: real, at: real, bound: real)
    requires FromRest(p, q0, q1, t) && root > 0.0 && root * root == 3.0 && inverse * root == 1.0
    requires m == Powers(t)[2] && at == (0.5 - 0.5 * inverse) * t && bound == Abs(q1 - q0) * (10.0 * inverse)
    ensures m > 0.0 && Abs(Surge(p)(at)) * m == bound
  {
    InverseOfRoot(root, inverse);
    AtShare(p, q0, q1, t, 0.5 - 0.5 * inverse, at);
    PeakOf(p, q0, q1 - q0, Powers(t), Powers(0.5 - 0.5 * inverse), Powers(at), root, inverse, Surge(p)(at), m);
  }

  lemma RootOrder(a: real, b: real, a2: real, b2: real)
    requires a >= 0.0 && b >= 0.0 && a2 == a * a && b2 == b * b && a2 <= b2
    ensures a <= b
  {
    if a > b {
      ProductPositive(a - b, a + b, a2 - b2);
    }
  }

  lemma AbsSquare(a: real, m: real, am: real)
    requires m > 0.0 && am == a * m
    ensures (Abs(a) * m) * (Abs(a) * m) == am * am && Abs(a) * m >= 0.0
  {
    ProductNonNegative(Abs(a), m, Abs(a) * m);
  }

  lemma PeakSquare(d: real, d2: real, inverse: real, peak: real)
    requires d2 == d * d && inverse * inverse == 1.0 / 3.0 && peak == Abs(d) * (10.0 * inverse)
    ensures peak * peak == d2 * (100.0 / 3.0)
  {
    assert Abs(d) * Abs(d) == d2;
    SquareOfProduct(Abs(d), 10.0 * inverse, d2, 100.0 * (inverse * inverse));
  }

  /** From the bound of the square to the bound itself. */
  lemma SurgeAtMost(a: real, m: real, am: real, d: real, inverse: real, peak: real)
    requires m > 0.0 && am == a * m && 0.0 < inverse && inverse * inverse == 1.0 / 3.0
    requires am * am <= (d * d) * (100.0 / 3.0) && peak == Abs(d) * (10.0 * inverse)
    ensures Abs(a) * m <= peak
  {
    AbsSquare(a, m, am);
    PeakSquare(d, d * d, inverse, peak);
    ProductNonNegative(Abs(d), 10.0 * inverse, peak);
    RootOrder(Abs(a) * m, peak, am * am, peak * peak);
  }

  lemma SurgeBoundedAt(p: Quintic, q0: real, q1: real, t: real, m: real, inverse: real, bound: real,
                       at: real, a: real)
    requires FromRest(p, q0, q1, t) && 0.0 < inverse && inverse * inverse == 1.0 / 3.0
    requires m == Powers(t)[2] && m > 0.0 && bound == Abs(q1 - q0) * (10.0 * inverse) && a == Surge(p)(at)
    ensures Bounded(Surge(p), m, bound, at)
  {
    AccelerationBound(p, q0, q1, t, at, a, m, (q1 - q0) * (q1 - q0), a * m, (a * m) * (a * m));
    SurgeAtMost(a, m, a * m, q1 - q0, inverse, bound);
    BoundedBy(Surge(p), m, bound, at, a);
  }

  lemma SurgeBounded(p: Quintic, q0: real, q1: real, t: real, m: real, inverse: real, bound: real)
    requires FromRest(p, q0, q1, t) && 0.0 < inverse && inverse * inverse == 1.0 / 3.0
    requires m == Powers(t)[2] && m > 0.0 && bound == Abs(q1 - q0) * (10.0 * inverse)
    ensures forall at: real :: Bounded(Surge(p), m, bound, at)
  {
    forall at: real
      ensures Bounded(Surge(p), m, bound, at)
    {
      SurgeBoundedAt(p, q0, q1, t, m, inverse, bound, at, Surge(p)(at));
    }
  }

  /** A limit of the acceleration is kept exactly when the square of the duration, m, is large enough. */
  lemma AccelerationLimitExact(p: Quintic, q0: real, q1: real, t: real, m: real, root: real, inverse: real,
                               limit: real, bound: real)
    requires FromRest(p, q0, q1, t) && root > 0.0 && root * root == 3.0 && inverse * root == 1.0
    requires m == Powers(t)[2] && bound == Abs(q1 - q0) * (10.0 * inverse)
    ensures (forall at: real :: Within(Surge(p), limit, at)) <==> bound <= limit * m
  {
    var peak := (0.5 - 0.5 * inverse) * t;
    InverseOfRoot(root, inverse);
    SurgePeaks(p, q0, q1, t, m, root, inverse, peak, bound);
    SurgeBounded(p, q0, q1, t, m, inverse, bound);
    LimitExact(Surge(p), m, bound, limit, peak);
  }
}
