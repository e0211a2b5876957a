/**
  Where a polynomial of degree four or less is largest: a limit is kept over a span of time exactly
  when it is kept at both ends and where the derivative turns.
*/
module Turns {
  import opened Quintic
  import opened QuinticLimits

  // ---------------------------------------------------------------------
  // Cubic derivatives and what they belong to
  // ---------------------------------------------------------------------

  datatype Cubic = Cubic(k0: real, k1: real, k2: real, k3: real)

  function Value(c: Cubic, x: real): real {
    ValueAt(c, PlaceOf(x))
  }

  /** The function with this derivative that starts at v. */
  function Primitive(c: Cubic, v: real, x: real): real {
    PrimitiveAt(c, v, PlaceOf(x))
  }

  lemma Distribute(h: real, k0: real, k1: real, k2: real, k3: real, p1: real, p2: real, p3: real, s: real)
    requires s == 6.0 * k0 + k1 * p1 + k2 * p2 + k3 * p3
    ensures h * s == 6.0 * (k0 * h) + k1 * (h * p1) + k2 * (h * p2) + k3 * (h * p3)
  {
  }

  /** A place and its powers. */
  datatype Place = Place(x: real, x2: real, x3: real, x4: real)

  function PlaceOf(x: real): Place {
    Place(x, x * x, x * x * x, x * x * x * x)
  }

  function ValueAt(c: Cubic, p: Place): real {
    c.k0 + c.k1 * p.x + c.k2 * p.x2 + c.k3 * p.x3
  }

  function PrimitiveAt(c: Cubic, v: real, p: Place): real {
    v + c.k0 * p.x + c.k1 / 2.0 * p.x2 + c.k2 / 3.0 * p.x3 + c.k3 / 4.0 * p.x4
  }

  /** The place m lies in the middle, as far as lines, squares and cubes can tell. */
  ghost predicate Middle(a: Place, b: Place, m: Place, h: real) {
    && h == b.x - a.x
    && h * (a.x + 4.0 * m.x + b.x) == 3.0 * (b.x2 - a.x2)
    && h * (a.x2 + 4.0 * m.x2 + b.x2) == 2.0 * (b.x3 - a.x3)
    && h * (a.x3 + 4.0 * m.x3 + b.x3) == 1.5 * (b.x4 - a.x4)
  }

  /** What the values at both ends and in the middle, weighed and added up, say about the growth d over the length h. */
  ghost predicate Area(h: real, s: real, d: real) {
    h * s == 6.0 * d
  }

  function Simpson(u: real, v: real, w: real): real {
    u + 4.0 * v + w
  }

  lemma SumOfValues(c: Cubic, a: Place, b: Place, m: Place, w1: real, w2: real, w3: real)
    requires w1 == a.x + 4.0 * m.x + b.x && w2 == a.x2 + 4.0 * m.x2 + b.x2 && w3 == a.x3 + 4.0 * m.x3 + b.x3
    ensures Simpson(ValueAt(c, a), ValueAt(c, m), ValueAt(c, b)) == 6.0 * c.k0 + c.k1 * w1 + c.k2 * w2 + c.k3 * w3
  {
  }

  lemma DifferenceOf(c: Cubic, v: real, a: Place, b: Place, h: real, d2: real, d3: real, d4: real, d: real)
    requires h == b.x - a.x && d2 == 3.0 * (b.x2 - a.x2) && d3 == 2.0 * (b.x3 - a.x3) && d4 == 1.5 * (b.x4 - a.x4)
    requires d == PrimitiveAt(c, v, b) - PrimitiveAt(c, v, a)
    ensures 6.0 * d == 6.0 * (c.k0 * h) + c.k1 * d2 + c.k2 * d3 + c.k3 * d4
  {
  }

  lemma AreaBetween(c: Cubic, v: real, a: Place, b: Place, m: Place, h: real, w1: real, w2: real, w3: real,
                    s: real, d: real)
    requires w1 == a.x + 4.0 * m.x + b.x && w2 == a.x2 + 4.0 * m.x2 + b.x2 && w3 == a.x3 + 4.0 * m.x3 + b.x3
    requires s == Simpson(ValueAt(c, a), ValueAt(c, m), ValueAt(c, b))
    requires d == PrimitiveAt(c, v, b) - PrimitiveAt(c, v, a) && Middle(a, b, m, h)
    ensures Area(h, s, d)
  {
    SumOfValues(c, a, b, m, w1, w2, w3);
    DifferenceOf(c, v, a, b, h, h * w1, h * w2, h * w3, d);
    Distribute(h, c.k0, c.k1, c.k2, c.k3, w1, w2, w3, s);
  }

  lemma SameFactor(a: real, b: real, c: real)
    requires b == c
    ensures a * b == a * c
  {
  }

  lemma AreaOfLine(a: real, b: real, m: real)
    requires 2.0 * m == a + b
    ensures (b - a) * (a + 4.0 * m + b) == 3.0 * (b * b - a * a)
  {
  }

  lemma AreaOfSquare(a: real, b: real, m: real)
    requires 2.0 * m == a + b
    ensures (b - a) * (a * a + 4.0 * (m * m) + b * b) == 2.0 * (b * b * b - a * a * a)
  {
    assert 4.0 * (m * m) == (a + b) * (a + b);
  }

  /** Here p is a a b and q is a b b. */
  lemma Telescope(a: real, b: real, a3: real, p: real, q: real, b3: real, a4: real, b4: real)
    requires b * a3 == a * p && b * p == a * q && b * q == a * b3 && a4 == a * a3 && b4 == b * b3
    ensures (b - a) * (a3 + p + q + b3) == b4 - a4
  {
    assert (b - a) * (a3 + p + q + b3) == b * a3 - a * a3 + b * p - a * p + b * q - a * q + b * b3 - a * b3;
  }

  lemma CubeOfMiddle(a: real, b: real, m: real, m3: real)
    requires 2.0 * m == a + b && m3 == m * m * m
    ensures 8.0 * m3 == a * a * a + 3.0 * (a * a * b) + 3.0 * (a * b * b) + b * b * b
  {
    assert 8.0 * m3 == (2.0 * m) * (2.0 * m) * (2.0 * m);
    assert (a + b) * (a + b) * (a + b) == a * a * a + 3.0 * (a * a * b) + 3.0 * (a * b * b) + b * b * b;
  }

  lemma AreaOfCube(a: real, b: real, m: real, h: real, w: real, d: real)
    requires 2.0 * m == a + b && h == b - a && w == a * a * a + 4.0 * (m * m * m) + b * b * b
    requires d == b * b * b * b - a * a * a * a
    ensures h * w == 1.5 * d
  {
    var s := a * a * a + a * a * b + a * b * b + b * b * b;
    CubeOfMiddle(a, b, m, m * m * m);
    Telescope(a, b, a * a * a, a * a * b, a * b * b, b * b * b, a * a * a * a, b * b * b * b);
    SameFactor(h, w, 1.5 * s);
    assert h * (1.5 * s) == 1.5 * (h * s);
  }

  lemma MiddleOfLine(p: Place, q: Place, r: Place)
    requires p == PlaceOf(p.x) && q == PlaceOf(q.x) && r == PlaceOf(r.x) && 2.0 * r.x == p.x + q.x
    ensures (q.x - p.x) * (p.x + 4.0 * r.x + q.x) == 3.0 * (q.x2 - p.x2)
  {
    AreaOfLine(p.x, q.x, r.x);
  }

  lemma MiddleOfSquare(p: Place, q: Place, r: Place)
    requires p == PlaceOf(p.x) && q == PlaceOf(q.x) && r == PlaceOf(r.x) && 2.0 * r.x == p.x + q.x
    ensures (q.x - p.x) * (p.x2 + 4.0 * r.x2 + q.x2) == 2.0 * (q.x3 - p.x3)
  {
    AreaOfSquare(p.x, q.x, r.x);
    SameFactor(q.x - p.x, p.x * p.x + 4.0 * (r.x * r.x) + q.x * q.x, p.x2 + 4.0 * r.x2 + q.x2);
  }

  lemma MiddleOfCube(p: Place, q: Place, r: Place)
    requires p == PlaceOf(p.x) && q == PlaceOf(q.x) && r == PlaceOf(r.x) && 2.0 * r.x == p.x + q.x
    ensures (q.x - p.x) * (p.x3 + 4.0 * r.x3 + q.x3) == 1.5 * (q.x4 - p.x4)
  {
    AreaOfCube(p.x, q.x, r.x, q.x - p.x, p.x3 + 4.0 * r.x3 + q.x3, q.x4 - p.x4);
  }

  lemma MiddleOf(p: Place, q: Place, r: Place)
    requires p == PlaceOf(p.x) && q == PlaceOf(q.x) && r == PlaceOf(r.x) && 2.0 * r.x == p.x + q.x
    ensures Middle(p, q, r, q.x - p.x)
  {
    MiddleOfLine(p, q, r);
    MiddleOfSquare(p, q, r);
    MiddleOfCube(p, q, r);
  }

  /** Simpson's rule is exact up to degree three. */
  lemma AreaUnder(c: Cubic, v: real, a: real, b: real, m: real, s: real, d: real)
    requires 2.0 * m == a + b && s == Simpson(Value(c, a), Value(c, m), Value(c, b))
    requires d == Primitive(c, v, b) - Primitive(c, v, a)
    ensures Area(b - a, s, d)
  {
    var p, q, r := PlaceOf(a), PlaceOf(b), PlaceOf(m);
    MiddleOf(p, q, r);
    AreaBetween(c, v, p, q, r, b - a, p.x + 4.0 * r.x + q.x, p.x2 + 4.0 * r.x2 + q.x2, p.x3 + 4.0 * r.x3 + q.x3, s, d);
  }

  /** The derivative does not change its sign between a and b. */
  ghost predicate Rising(c: Cubic, a: real, b: real) {
    forall x: real :: a <= x <= b ==> Value(c, x) >= 0.0
  }

  ghost predicate Falling(c: Cubic, a: real, b: real) {
    forall x: real :: a <= x <= b ==> Value(c, x) <= 0.0
  }

  lemma GrowsBy(h: real, s: real, d: real)
    requires h >= 0.0 && Area(h, s, d)
    ensures s >= 0.0 ==> d >= 0.0
    ensures s <= 0.0 ==> d <= 0.0
  {
    SignOfProduct(h, s, 6.0 * d);
  }

  lemma SignOfProduct(a: real, b: real, ab: real)
    requires ab == a * b
    ensures (a >= 0.0 && b >= 0.0) || (a <= 0.0 && b <= 0.0) ==> ab >= 0.0
    ensures (a >= 0.0 && b <= 0.0) || (a <= 0.0 && b >= 0.0) ==> ab <= 0.0
  {
  }

  lemma RisesFrom(c: Cubic, v: real, a: real, b: real)
    requires a <= b && Rising(c, a, b)
    ensures Primitive(c, v, a) <= Primitive(c, v, b)
  {
    var m := (a + b) / 2.0;
    assert Value(c, a) >= 0.0 && Value(c, m) >= 0.0 && Value(c, b) >= 0.0;
    var s, d := Simpson(Value(c, a), Value(c, m), Value(c, b)), Primitive(c, v, b) - Primitive(c, v, a);
    AreaUnder(c, v, a, b, m, s, d);
    GrowsBy(b - a, s, d);
  }

  lemma FallsFrom(c: Cubic, v: real, a: real, b: real)
    requires a <= b && Falling(c, a, b)
    ensures Primitive(c, v, a) >= Primitive(c, v, b)
  {
    var m := (a + b) / 2.0;
    assert Value(c, a) <= 0.0 && Value(c, m) <= 0.0 && Value(c, b) <= 0.0;
    var s, d := Simpson(Value(c, a), Value(c, m), Value(c, b)), Primitive(c, v, b) - Primitive(c, v, a);
    AreaUnder(c, v, a, b, m, s, d);
    GrowsBy(b - a, s, d);
  }

  // ---------------------------------------------------------------------
  // Between two turns a polynomial stays between its values there
  // ---------------------------------------------------------------------

  /** None of these lies inside. */
  ghost predicate Free(zs: seq<real>, a: real, b: real) {
    forall z <- zs :: z <= a || b <= z
  }

  ghost predicate OneWay(c: Cubic, a: real, b: real) {
    Rising(c, a, b) || Falling(c, a, b)
  }

  ghost predicate OneWayWhenFree(c: Cubic, zs: seq<real>, a: real, b: real) {
    a <= b && Free(zs, a, b) ==> OneWay(c, a, b)
  }

  /** The cubic changes its sign nowhere else. */
  ghost predicate TurnsOnlyAt(c: Cubic, zs: seq<real>) {
    forall a: real, b: real :: OneWayWhenFree(c, zs, a, b)
  }

  /** The turns, or ends, next to x. */
  lemma {:induction false} Bracket(zs: seq<real>, t: real, x: real) returns (a: real, b: real)
    requires 0.0 <= x <= t
    ensures 0.0 <= a <= x <= b <= t && (a == 0.0 || a in zs) && (b == t || b in zs) && Free(zs, a, b)
    decreases |zs|
  {
    if zs == [] {
      return 0.0, t;
    }
    a, b := Bracket(zs[1..], t, x);
    assert zs == [zs[0]] + zs[1..];
    if a < zs[0] <= x {
      a := zs[0];
    } else if x < zs[0] < b {
      b := zs[0];
    }
  }

  /** On the span from 0 to t the function v has the derivative c; before and after it stands still. */
  ghost predicate HasDerivative(v: real -> real, c: Cubic, t: real) {
    forall x: real :: v(x) == Primitive(c, v(0.0), Max(0.0, Min(t, x)))
  }

  lemma StaysBetweenTurns(v: real -> real, c: Cubic, t: real, a: real, x: real, b: real)
    requires HasDerivative(v, c, t) && 0.0 <= a <= x <= b <= t && OneWay(c, a, b)
    ensures v(a) <= v(x) <= v(b) || v(b) <= v(x) <= v(a)
  {
    if Rising(c, a, b) {
      RisesFrom(c, v(0.0), a, x);
      RisesFrom(c, v(0.0), x, b);
    } else {
      FallsFrom(c, v(0.0), a, x);
      FallsFrom(c, v(0.0), x, b);
    }
  }

  ghost predicate KeptAtTurns(v: real -> real, t: real, zs: seq<real>, limit: real) {
    Within(v, limit, 0.0) && Within(v, limit, t) && forall z <- zs :: Within(v, limit, z)
  }

  lemma BetweenIsWithin(v: real -> real, limit: real, a: real, x: real, b: real)
    requires Within(v, limit, a) && Within(v, limit, b)
    requires v(a) <= v(x) <= v(b) || v(b) <= v(x) <= v(a)
    ensures Within(v, limit, x)
  {
  }

  lemma KeptInside(v: real -> real, c: Cubic, t: real, zs: seq<real>, limit: real, x: real)
    requires HasDerivative(v, c, t) && TurnsOnlyAt(c, zs) && KeptAtTurns(v, t, zs, limit) && 0.0 <= x <= t
    ensures Within(v, limit, x)
  {
    var a, b := Bracket(zs, t, x);
    assert OneWayWhenFree(c, zs, a, b);
    StaysBetweenTurns(v, c, t, a, x, b);
    BetweenIsWithin(v, limit, a, x, b);
  }

  /** A limit is kept at all times exactly when it is kept at both ends and wherever the derivative turns. */
  lemma KeptExactly(v: real -> real, c: Cubic, t: real, zs: seq<real>, limit: real)
    requires t > 0.0 && HasDerivative(v, c, t) && TurnsOnlyAt(c, zs)
    ensures Keeps(v, limit) <==> KeptAtTurns(v, t, zs, limit)
  {
    if KeptAtTurns(v, t, zs, limit) {
      forall at: real
        ensures Within(v, limit, at)
      {
        var x := Max(0.0, Min(t, at));
        KeptInside(v, c, t, zs, limit, x);
        assert v(at) == v(x);
      }
    }
  }

  // ---------------------------------------------------------------------
  // Where a cubic turns
  // ---------------------------------------------------------------------

  function Product(zs: seq<real>, x: real): real {
    if zs == [] then 1.0 else (x - zs[0]) * Product(zs[1..], x)
  }

  ghost predicate NeverNegative(f: real -> real) {
    forall x: real :: f(x) >= 0.0
  }

  ghost predicate NeverPositive(f: real -> real) {
    forall x: real :: f(x) <= 0.0
  }

  /** The cubic is this product, and what is left does not change its sign. */
  ghost predicate Factored(c: Cubic, zs: seq<real>, f: real -> real) {
    && (NeverNegative(f) || NeverPositive(f))
    && forall x: real :: Value(c, x) == Product(zs, x) * f(x)
  }

  ghost predicate ProductSign(zs: seq<real>, a: real, b: real, up: bool) {
    forall x: real :: a <= x <= b ==> if up then Product(zs, x) >= 0.0 else Product(zs, x) <= 0.0
  }

  lemma FreeParts(zs: seq<real>, a: real, b: real)
    requires zs != [] && Free(zs, a, b)
    ensures (zs[0] <= a || b <= zs[0]) && Free(zs[1..], a, b)
  {
    assert zs[0] in zs;
    forall z | z in zs[1..]
      ensures z <= a || b <= z
    {
      assert z in zs;
    }
  }

  lemma {:induction false} ProductOneWay(zs: seq<real>, a: real, b: real) returns (up: bool)
    requires a <= b && Free(zs, a, b)
    ensures ProductSign(zs, a, b, up)
    decreases |zs|
  {
    if zs == [] {
      return true;
    }
    var z := zs[0];
    FreeParts(zs, a, b);
    var later := ProductOneWay(zs[1..], a, b);
    up := if z <= a then later else !later;
    forall x: real | a <= x <= b
      ensures if up then Product(zs, x) >= 0.0 else Product(zs, x) <= 0.0
    {
      var p := Product(zs[1..], x);
      assert if later then p >= 0.0 else p <= 0.0;
      SignOfProduct(x - z, p, Product(zs, x));
    }
  }

  lemma FactoredTurns(c: Cubic, zs: seq<real>, f: real -> real)
    requires Factored(c, zs, f)
    ensures TurnsOnlyAt(c, zs)
  {
    forall a: real, b: real
      ensures OneWayWhenFree(c, zs, a, b)
    {
      if a <= b && Free(zs, a, b) {
        var up := ProductOneWay(zs, a, b);
        FactoredOneWay(c, zs, f, a, b, up);
      }
    }
  }

  lemma FactoredOneWay(c: Cubic, zs: seq<real>, f: real -> real, a: real, b: real, up: bool)
    requires Factored(c, zs, f) && ProductSign(zs, a, b, up)
    ensures OneWay(c, a, b)
  {
    forall x: real | a <= x <= b
      ensures if NeverNegative(f) == up then Value(c, x) >= 0.0 else Value(c, x) <= 0.0
    {
      assert f(x) >= 0.0 || f(x) <= 0.0;
      SignOfProduct(Product(zs, x), f(x), Value(c, x));
    }
  }

  /** The square root is exact. */
  ghost predicate IsSquareRoot(r: real, x: real) {
    r >= 0.0 && r * r == x
  }

  ghost predicate ExactSquare(square: real -> real) {
    forall x: real :: x >= 0.0 ==> IsSquareRoot(square(x), x)
  }

  function Discriminant(k0: real, k1: real, k2: real): real {
    k1 * k1 - 4.0 * (k2 * k0)
  }

  /** The zeros of a polynomial of second degree or less, if there are finitely many. */
  function QuadraticZeros(c: Cubic, square: real -> real): seq<real> {
    if c.k2 == 0.0 then if c.k1 == 0.0 then [] else [-c.k0 / c.k1]
    else
      var d := Discriminant(c.k0, c.k1, c.k2);
      if d < 0.0 then [] else [(-c.k1 - square(d)) / (2.0 * c.k2), (-c.k1 + square(d)) / (2.0 * c.k2)]
  }

  lemma QuadraticValue(c: Cubic, x: real)
    requires c.k3 == 0.0
    ensures Value(c, x) == c.k0 + c.k1 * x + c.k2 * (x * x)
  {
  }

  /** A parabola is four times its leading coefficient, less the discriminant, a square. */
  lemma CompleteSquare(k0: real, k1: real, k2: real, x: real, q: real, y: real)
    requires q == k0 + k1 * x + k2 * (x * x) && y == 2.0 * (k2 * x) + k1
    ensures 4.0 * (k2 * q) == y * y - Discriminant(k0, k1, k2)
  {
    assert k2 * q == k2 * k0 + k2 * (k1 * x) + k2 * (k2 * (x * x));
    assert y * y == 4.0 * ((k2 * x) * (k2 * x)) + 4.0 * (k1 * (k2 * x)) + k1 * k1;
    assert (k2 * x) * (k2 * x) == k2 * (k2 * (x * x));
  }

  /** Without zeros it does not change its sign. */
  lemma NoZeros(k0: real, k1: real, k2: real, x: real, q: real)
    requires q == k0 + k1 * x + k2 * (x * x) && Discriminant(k0, k1, k2) < 0.0
    ensures if k2 > 0.0 then q >= 0.0 else q <= 0.0
  {
    var y := 2.0 * (k2 * x) + k1;
    CompleteSquare(k0, k1, k2, x, q, y);
    SquareNonNegative(y, y * y);
    SignOfProduct(k2, q, k2 * q);
    if k2 > 0.0 && q < 0.0 {
      assert false;
    }
  }

  /** The zeros u and w of a quadratic with the root r of its discriminant. */
  lemma TwoZeros(k0: real, k1: real, k2: real, r: real, u: real, w: real)
    requires k2 != 0.0 && r * r == Discriminant(k0, k1, k2)
    requires u == (-k1 - r) / (2.0 * k2) && w == (-k1 + r) / (2.0 * k2)
    ensures k2 * (u + w) == -k1 && k2 * (u * w) == k0
  {
    assert 2.0 * (k2 * u) == -k1 - r && 2.0 * (k2 * w) == -k1 + r;
    assert 4.0 * ((k2 * u) * (k2 * w)) == k1 * k1 - r * r;
    assert (k2 * u) * (k2 * w) == k2 * (k2 * (u * w));
    CancelFactor(k2, k2 * (u * w), k0);
  }

  lemma CancelFactor(k: real, a: real, b: real)
    requires k != 0.0 && k * a == k * b
    ensures a == b
  {
    if k > 0.0 {
      Cancel(a, b, k);
    } else {
      Cancel(a, b, -k);
    }
  }

  lemma Expanded(k0: real, k1: real, k2: real, u: real, w: real, x: real)
    requires k2 * (u + w) == -k1 && k2 * (u * w) == k0
    ensures k0 + k1 * x + k2 * (x * x) == ((x - u) * (x - w)) * k2
  {
    assert (x - u) * (x - w) == x * x - (u + w) * x + u * w;
    assert ((x - u) * (x - w)) * k2 == k2 * (x * x) - (k2 * (u + w)) * x + k2 * (u * w);
  }

  function Constant(k: real): real -> real {
    (x: real) => k
  }

  function ValueOf(c: Cubic): real -> real {
    (x: real) => Value(c, x)
  }

  /** What is left of a polynomial of second degree or less without its zeros. */
  function Leftover(c: Cubic): real -> real {
    if c.k2 == 0.0 then Constant(if c.k1 == 0.0 then c.k0 else c.k1)
    else if Discriminant(c.k0, c.k1, c.k2) < 0.0 then ValueOf(c)
    else Constant(c.k2)
  }

  lemma ConstantOneWay(k: real)
    ensures NeverNegative(Constant(k)) || NeverPositive(Constant(k))
  {
  }

  lemma LeftoverOneWay(c: Cubic)
    requires c.k3 == 0.0
    ensures NeverNegative(Leftover(c)) || NeverPositive(Leftover(c))
  {
    if c.k2 != 0.0 && Discriminant(c.k0, c.k1, c.k2) < 0.0 {
      forall x: real
        ensures if c.k2 > 0.0 then ValueOf(c)(x) >= 0.0 else ValueOf(c)(x) <= 0.0
      {
        QuadraticValue(c, x);
        NoZeros(c.k0, c.k1, c.k2, x, Value(c, x));
      }
    } else {
      ConstantOneWay(c.k2);
      ConstantOneWay(c.k1);
      ConstantOneWay(c.k0);
    }
  }

  lemma ProductOfTwo(u: real, w: real, x: real)
    ensures Product([u, w], x) == (x - u) * (x - w)
  {
    assert [u, w][1..] == [w] && [w][1..] == [];
    assert Product([w], x) == x - w;
  }

  lemma ProductOfOne(u: real, x: real)
    ensures Product([u], x) == x - u
  {
    assert [u][1..] == [];
  }

  lemma LineIsProduct(c: Cubic, u: real, x: real)
    requires c.k3 == 0.0 && c.k2 == 0.0 && u * c.k1 == -c.k0
    ensures Value(c, x) == Product([u], x) * c.k1
  {
    QuadraticValue(c, x);
    ProductOfOne(u, x);
    assert (x - u) * c.k1 == c.k1 * x - u * c.k1;
  }

  lemma ParabolaIsProduct(c: Cubic, r: real, u: real, w: real, x: real)
    requires c.k3 == 0.0 && c.k2 != 0.0 && r * r == Discriminant(c.k0, c.k1, c.k2)
    requires u == (-c.k1 - r) / (2.0 * c.k2) && w == (-c.k1 + r) / (2.0 * c.k2)
    ensures Value(c, x) == Product([u, w], x) * c.k2
  {
    TwoZeros(c.k0, c.k1, c.k2, r, u, w);
    QuadraticValue(c, x);
    ProductOfTwo(u, w, x);
    Expanded(c.k0, c.k1, c.k2, u, w, x);
  }

  /** A polynomial of second degree or less is the product of its zeros and what is left. */
  ghost predicate Splits(c: Cubic, zs: seq<real>, f: real -> real, x: real) {
    Value(c, x) == Product(zs, x) * f(x)
  }

  lemma QuadraticSplits(c: Cubic, square: real -> real, x: real)
    requires (c.k2 == 0.0 || ExactSquare(square)) && c.k3 == 0.0
    ensures Splits(c, QuadraticZeros(c, square), Leftover(c), x)
  {
    var d := Discriminant(c.k0, c.k1, c.k2);
    if c.k2 == 0.0 {
      if c.k1 != 0.0 {
        var u := -c.k0 / c.k1;
        QuotientTimes(-c.k0, c.k1, u);
        LineIsProduct(c, u, x);
      }
    } else if d >= 0.0 {
      var r := square(d);
      assert IsSquareRoot(r, d);
      ParabolaIsProduct(c, r, (-c.k1 - r) / (2.0 * c.k2), (-c.k1 + r) / (2.0 * c.k2), x);
    }
  }

  lemma QuotientTimes(n: real, d: real, q: real)
    requires d != 0.0 && q == n / d
    ensures q * d == n
  {
  }

  /** The factor that is left when a zero is taken out of a cubic. */
  function Deflated(c: Cubic, z: real): Cubic {
    var q1 := c.k2 + z * c.k3;
    Cubic(c.k1 + z * q1, q1, c.k3, 0.0)
  }

  /** One step of synthetic division: what u and b differ by goes up by one power. */
  lemma DivideStep(x: real, z: real, d: real, u: real, b: real, e: real, xu: real, zb: real)
    requires d == x - z && u - b == d * e && xu == x * u && zb == z * b
    ensures xu - zb == d * (x * e + b)
  {
    assert xu - zb == x * (u - b) + d * b;
    assert x * (d * e) == d * (x * e);
  }

  /** The value by nested products. */
  lemma Horner(c: Cubic, x: real)
    ensures Value(c, x) == c.k0 + x * (c.k1 + x * (c.k2 + x * c.k3))
  {
    assert x * (c.k2 + x * c.k3) == c.k2 * x + c.k3 * (x * x);
    assert x * (c.k1 + (c.k2 * x + c.k3 * (x * x))) == c.k1 * x + c.k2 * (x * x) + c.k3 * (x * x * x);
  }

  lemma HornerOfLess(d: Cubic, x: real)
    requires d.k3 == 0.0
    ensures Value(d, x) == d.k0 + x * (d.k1 + x * d.k2)
  {
    assert x * (d.k1 + x * d.k2) == d.k1 * x + d.k2 * (x * x);
  }

  /** With the nested products at x and at z. */
  lemma TakeOut(c: Cubic, z: real, x: real, u1: real, u0: real, b1: real, b0: real, d: real)
    requires u1 == c.k2 + x * c.k3 && u0 == c.k1 + x * u1 && b1 == c.k2 + z * c.k3 && b0 == c.k1 + z * b1
    requires d == x - z
    ensures (c.k0 + x * u0) - (c.k0 + z * b0) == d * (x * (x * c.k3 + b1) + b0)
  {
    assert u1 - b1 == d * c.k3;
    DivideStep(x, z, d, u1, b1, c.k3, x * u1, z * b1);
    DivideStep(x, z, d, u0, b0, x * c.k3 + b1, x * u0, z * b0);
  }

  /** With the values at x and at z, and the value at x of what is left. */
  lemma TakeOutValues(c: Cubic, z: real, x: real, u1: real, u0: real, b1: real, b0: real, d: real,
                      vx: real, vz: real, vd: real)
    requires u1 == c.k2 + x * c.k3 && u0 == c.k1 + x * u1 && b1 == c.k2 + z * c.k3 && b0 == c.k1 + z * b1
    requires vx == c.k0 + x * u0 && vz == c.k0 + z * b0 && vd == b0 + x * (b1 + x * c.k3) && d == x - z
    ensures vx - vz == d * vd
  {
    TakeOut(c, z, x, u1, u0, b1, b0, d);
    SameFactor(d, x * (x * c.k3 + b1) + b0, vd);
  }

  lemma DeflatedIs(c: Cubic, z: real, e: Cubic, x: real)
    requires e == Deflated(c, z)
    ensures e.k1 == c.k2 + z * c.k3 && e.k0 == c.k1 + z * e.k1 && e.k2 == c.k3
    ensures Value(e, x) == e.k0 + x * (e.k1 + x * e.k2)
  {
    HornerOfLess(e, x);
  }

  lemma TakeOutZero(c: Cubic, z: real, x: real, e: Cubic, d: real, vx: real, vz: real, vd: real)
    requires e == Deflated(c, z) && d == x - z
    requires vx == Value(c, x) && vz == Value(c, z) == 0.0 && vd == Value(e, x)
    ensures vx == d * vd
  {
    Horner(c, z);
    Horner(c, x);
    DeflatedIs(c, z, e, x);
    TakeOutValues(c, z, x, c.k2 + x * c.k3, c.k1 + x * (c.k2 + x * c.k3), e.k1, e.k0, d, vx, vz, vd);
  }

  /** The zeros of a cubic, of which one is z unless it is a quadratic. */
  function CubicZeros(c: Cubic, z: real, square: real -> real): seq<real> {
    if c.k3 == 0.0 then QuadraticZeros(c, square) else [z] + QuadraticZeros(Deflated(c, z), square)
  }

  /** A polynomial of third degree has a zero z; those of lower degree need none. */
  ghost predicate ZeroOf(c: Cubic, z: real) {
    c.k3 != 0.0 ==> Value(c, z) == 0.0
  }

  lemma SplitTurns(c: Cubic, zs: seq<real>, f: real -> real)
    requires (NeverNegative(f) || NeverPositive(f)) && forall x: real :: Splits(c, zs, f, x)
    ensures TurnsOnlyAt(c, zs)
  {
    forall x: real
      ensures Value(c, x) == Product(zs, x) * f(x)
    {
      assert Splits(c, zs, f, x);
    }
    FactoredTurns(c, zs, f);
  }

  lemma QuadraticTurns(c: Cubic, square: real -> real)
    requires (c.k2 == 0.0 || ExactSquare(square)) && c.k3 == 0.0
    ensures TurnsOnlyAt(c, QuadraticZeros(c, square))
  {
    LeftoverOneWay(c);
    forall x: real
      ensures Splits(c, QuadraticZeros(c, square), Leftover(c), x)
    {
      QuadraticSplits(c, square, x);
    }
    SplitTurns(c, QuadraticZeros(c, square), Leftover(c));
  }

  lemma SplitsMore(c: Cubic, d: Cubic, z: real, zs: seq<real>, f: real -> real, x: real)
    requires Value(c, x) == (x - z) * Value(d, x) && Splits(d, zs, f, x)
    ensures Splits(c, [z] + zs, f, x)
  {
    assert ([z] + zs)[1..] == zs;
    Regroup(x - z, Product(zs, x), f(x));
  }

  lemma Regroup(a: real, b: real, c: real)
    ensures a * (b * c) == (a * b) * c
  {
  }

  /** A cubic turns at its zeros only. */
  lemma CubicTurns(c: Cubic, z: real, square: real -> real)
    requires ExactSquare(square) && ZeroOf(c, z)
    ensures TurnsOnlyAt(c, CubicZeros(c, z, square))
  {
    if c.k3 == 0.0 {
      QuadraticTurns(c, square);
    } else {
      var d := Deflated(c, z);
      var zs, f := QuadraticZeros(d, square), Leftover(d);
      LeftoverOneWay(d);
      forall x: real
        ensures Splits(c, [z] + zs, f, x)
      {
        TakeOutZero(c, z, x, d, x - z, Value(c, x), Value(c, z), Value(d, x));
        QuadraticSplits(d, square, x);
        SplitsMore(c, d, z, zs, f, x);
      }
      SplitTurns(c, [z] + zs, f);
    }
  }
}
