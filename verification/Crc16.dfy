/**
  The CRC-16 checksums: polynomial division of a message one bit at a time as the reference, the
  errors it is certain to detect, and the table-driven engines that compute it byte by byte.
*/
module Crc16 {

  type Octets = seq<bv8>

  // ---------------------------------------------------------------------
  // Reference: division one message bit at a time
  // ---------------------------------------------------------------------

  /** The coefficients of a remainder or divisor, from x^15 down to 1; the divisor's x^16 is implied. */
  type Word = w: seq<bool> | |w| == 16 witness seq(16, i => false)

  /** x^16 + x^12 + x^5 + 1, the divisor of the Dynamixel and CCITT checksums. */
  const CCITT_POLY: Word := [false, false, false, true, false, false, false, false,
                             false, false, true, false, false, false, false, true]

  /** x^16 + x^15 + x^2 + 1, the divisor of the Modbus checksum. */
  const MODBUS_POLY: Word := [true, false, false, false, false, false, false, false,
                              false, false, false, false, false, true, false, true]

  /** Brings down one message bit: shifts the remainder and subtracts the divisor if a one leaves. */
  function Step(poly: Word, c: Word, bit: bool): Word {
    seq(16, i requires 0 <= i < 16 => (i < 15 && c[i + 1]) != ((c[0] != bit) && poly[i]))
  }

  /** The remainder after dividing in a message, its first bit first. */
  function Divide(poly: Word, c: Word, bits: seq<bool>): Word
    decreases |bits|
  {
    if bits == [] then c else Divide(poly, Step(poly, c, bits[0]), bits[1..])
  }

  lemma {:induction false} DivideConcat(poly: Word, c: Word, u: seq<bool>, v: seq<bool>)
    ensures Divide(poly, c, u + v) == Divide(poly, Divide(poly, c, u), v)
    decreases |u|
  {
    if u == [] {
      assert u + v == v;
    } else {
      assert (u + v)[0] == u[0] && (u + v)[1..] == u[1..] + v;
      DivideConcat(poly, Step(poly, c, u[0]), u[1..], v);
    }
  }

  // ---------------------------------------------------------------------
  // Error detection
  // ---------------------------------------------------------------------

  /** The last n coefficients of two remainders are the same. */
  ghost predicate Agree(x: Word, y: Word, n: nat) {
    n <= 16 && forall i :: 16 - n <= i < 16 ==> x[i] == y[i]
  }

  /** The last coefficient after a step shows whether the divisor was subtracted. */
  lemma StepBackwards(poly: Word, c: Word, d: Word, a: bool, b: bool, n: nat)
    requires poly[15] && n < 16 && Agree(Step(poly, c, a), Step(poly, d, b), n + 1)
    ensures (c[0] != a) == (d[0] != b) && Agree(c, d, n)
  {
    assert Step(poly, c, a)[15] == Step(poly, d, b)[15];
    forall i | 16 - n <= i < 16
      ensures c[i] == d[i]
    {
      assert Step(poly, c, a)[i - 1] == Step(poly, d, b)[i - 1];
    }
  }

  /** Remainders that meet after k <= 16 bits agreed on 16 - k coefficients before. */
  lemma {:induction false} MeetingAgreed(poly: Word, c: Word, d: Word, u: seq<bool>, v: seq<bool>)
    requires poly[15] && |u| == |v| <= 16
    requires Divide(poly, c, u) == Divide(poly, d, v)
    ensures Agree(c, d, 16 - |u|)
    decreases |u|
  {
    if u != [] {
      MeetingAgreed(poly, Step(poly, c, u[0]), Step(poly, d, v[0]), u[1..], v[1..]);
      StepBackwards(poly, c, d, u[0], v[0], 16 - |u|);
    }
  }

  /** From one remainder, different bit strings of at most 16 bits lead to different remainders. */
  lemma {:induction false} ShortStringsDiffer(poly: Word, c: Word, u: seq<bool>, v: seq<bool>)
    requires poly[15] && |u| == |v| <= 16
    requires Divide(poly, c, u) == Divide(poly, c, v)
    ensures u == v
    decreases |u|
  {
    if u != [] {
      MeetingAgreed(poly, Step(poly, c, u[0]), Step(poly, c, v[0]), u[1..], v[1..]);
      StepBackwards(poly, c, c, u[0], v[0], 16 - |u|);
      ShortStringsDiffer(poly, Step(poly, c, u[0]), u[1..], v[1..]);
      assert u == [u[0]] + u[1..] && v == [v[0]] + v[1..];
    }
  }

  /** Different remainders stay different however the message goes on. */
  lemma {:induction false} DivideInjective(poly: Word, c: Word, d: Word, bits: seq<bool>)
    requires poly[15] && Divide(poly, c, bits) == Divide(poly, d, bits)
    ensures c == d
    decreases |bits|
  {
    if bits != [] {
      DivideInjective(poly, Step(poly, c, bits[0]), Step(poly, d, bits[0]), bits[1..]);
      StepBackwards(poly, c, d, bits[0], bits[0], 15);
      assert c == [c[0]] + c[1..] && d == [d[0]] + d[1..];
    }
  }

  /** Messages that differ only within 16 consecutive bits never share a remainder. */
  lemma BurstDetected(poly: Word, c: Word, before: seq<bool>, u: seq<bool>, v: seq<bool>, after: seq<bool>)
    requires poly[15] && |u| == |v| <= 16 && u != v
    ensures Divide(poly, c, before + u + after) != Divide(poly, c, before + v + after)
  {
    var s := Divide(poly, c, before);
    DivideConcat(poly, c, before + u, after);
    DivideConcat(poly, c, before, u);
    DivideConcat(poly, c, before + v, after);
    DivideConcat(poly, c, before, v);
    if Divide(poly, c, before + u + after) == Divide(poly, c, before + v + after) {
      DivideInjective(poly, Divide(poly, s, u), Divide(poly, s, v), after);
      ShortStringsDiffer(poly, s, u, v);
    }
  }

  // ---------------------------------------------------------------------
  // Whole bytes: adding the message bits in first and shifting afterwards
  // ---------------------------------------------------------------------

  function Shifts(poly: Word, c: Word, n: nat): Word
    decreases n
  {
    if n == 0 then c else Shifts(poly, Step(poly, c, false), n - 1)
  }

  /** Adds up to 16 message bits to the leading coefficients. */
  function AddIn(c: Word, bits: seq<bool>): Word
    requires |bits| <= 16
  {
    seq(16, i requires 0 <= i < 16 => c[i] != (i < |bits| && bits[i]))
  }

  lemma AddInStep(poly: Word, c: Word, bits: seq<bool>)
    requires 0 < |bits| <= 16
    ensures Step(poly, AddIn(c, bits), false) == AddIn(Step(poly, c, bits[0]), bits[1..])
  {
  }

  lemma {:induction false} DivideByShifting(poly: Word, c: Word, bits: seq<bool>)
    requires |bits| <= 16
    ensures Divide(poly, c, bits) == Shifts(poly, AddIn(c, bits), |bits|)
    decreases |bits|
  {
    if bits == [] {
      assert AddIn(c, bits) == c;
    } else {
      DivideByShifting(poly, Step(poly, c, bits[0]), bits[1..]);
      AddInStep(poly, c, bits);
    }
  }

  lemma {:induction false} ShiftsLast(poly: Word, c: Word, n: nat)
    ensures Shifts(poly, c, n + 1) == Step(poly, Shifts(poly, c, n), false)
    decreases n
  {
    if n > 0 {
      ShiftsLast(poly, Step(poly, c, false), n - 1);
    }
  }

  // ---------------------------------------------------------------------
  // Division is linear, so a table of single bytes is enough
  // ---------------------------------------------------------------------

  function Zero(): Word {
    seq(16, i => false)
  }

  function Sum(u: Word, v: Word): Word {
    seq(16, i requires 0 <= i < 16 => u[i] != v[i])
  }

  function SumBits(p: seq<bool>, q: seq<bool>): (bits: seq<bool>)
    requires |p| == |q|
    ensures |bits| == |p|
  {
    seq(|p|, i requires 0 <= i < |p| => p[i] != q[i])
  }

  lemma StepLinear(poly: Word, u: Word, v: Word, a: bool, b: bool)
    ensures Step(poly, Sum(u, v), a != b) == Sum(Step(poly, u, a), Step(poly, v, b))
  {
  }

  lemma {:induction false} DivideLinear(poly: Word, u: Word, v: Word, p: seq<bool>, q: seq<bool>)
    requires |p| == |q|
    ensures Divide(poly, Sum(u, v), SumBits(p, q)) == Sum(Divide(poly, u, p), Divide(poly, v, q))
    decreases |p|
  {
    if p != [] {
      StepLinear(poly, u, v, p[0], q[0]);
      assert SumBits(p, q)[1..] == SumBits(p[1..], q[1..]);
      DivideLinear(poly, Step(poly, u, p[0]), Step(poly, v, q[0]), p[1..], q[1..]);
    }
  }

  /** The remainder moved up by n places. */
  function MoveUp(c: Word, n: nat): Word {
    seq(16, i requires 0 <= i < 16 => i + n < 16 && c[i + n])
  }

  /** Message bits equal to the leading coefficients cancel them and subtract nothing. */
  lemma {:induction false} DivideOwnBits(poly: Word, c: Word, n: nat)
    requires n <= 16
    ensures Divide(poly, c, c[..n]) == MoveUp(c, n)
    decreases n
  {
    if n == 0 {
      assert MoveUp(c, 0) == c;
    } else {
      var d := Step(poly, c, c[0]);
      assert c[..n][1..] == d[..n - 1];
      DivideOwnBits(poly, d, n - 1);
      assert MoveUp(d, n - 1) == MoveUp(c, n);
    }
  }

  /** What dividing in a few bits does to a remainder is what it does to zero, plus a move. */
  lemma DivideByTable(poly: Word, c: Word, bits: seq<bool>)
    requires |bits| <= 16
    ensures Divide(poly, c, bits)
         == Sum(MoveUp(c, |bits|), Divide(poly, Zero(), SumBits(c[..|bits|], bits)))
  {
    var n := |bits|;
    assert Sum(c, Zero()) == c;
    assert SumBits(c[..n], SumBits(c[..n], bits)) == bits;
    DivideLinear(poly, c, Zero(), c[..n], SumBits(c[..n], bits));
    DivideOwnBits(poly, c, n);
  }

  // ---------------------------------------------------------------------
  // Registers: remainders as machine words, whatever their bit order
  // ---------------------------------------------------------------------

  /**
    What can be done to a register: add, move every coefficient up by one or by eight places, look at
    the coefficient of x^15, clear the leading eight, place a byte there, and find a table index.
  */
  datatype Register<!R> = Register(
    zero: R, unit: R, divisor: R, poly: Word, add: (R, R) -> R, up: R -> R, onTop: R -> bool,
    far: R -> R, rest: R -> R, place: bv8 -> R, index: (R, bv8) -> bv8)

  ghost predicate AddsWhenMoved<R(!new)>(m: Register<R>) {
    forall c: R, x: R :: m.up(m.add(c, x)) == m.add(m.up(c), m.up(x))
  }

  /** The top of a sum. */
  ghost predicate AddsOnTop<R(!new)>(m: Register<R>) {
    && (forall c: R, x: R :: m.onTop(c) && m.onTop(x) ==> !m.onTop(m.add(c, x)))
    && (forall c: R, x: R :: m.onTop(c) && !m.onTop(x) ==> m.onTop(m.add(c, x)))
    && (forall c: R, x: R :: !m.onTop(c) && m.onTop(x) ==> m.onTop(m.add(c, x)))
    && (forall c: R, x: R :: !m.onTop(c) && !m.onTop(x) ==> !m.onTop(m.add(c, x)))
  }

  /** Moving up and looking at the top treat each coefficient by itself. */
  ghost predicate Linear<R(!new)>(m: Register<R>) {
    && AddsWhenMoved(m) && AddsOnTop(m)
    && m.up(m.zero) == m.zero && !m.onTop(m.zero)
    && m.up(m.unit) == m.zero && m.onTop(m.unit)
  }

  /** A register without coefficients is zero, and equal registers are those that add up to it. */
  ghost predicate Determined<R(!new)>(m: Register<R>) {
    && (forall c: R :: m.up(c) == m.zero && !m.onTop(c) ==> c == m.zero)
    && (forall c: R, x: R :: m.add(c, x) == m.zero ==> c == x)
    && (forall a: bv8, b: bv8 :: m.place(a) == m.place(b) ==> a == b)
  }

  ghost predicate SixteenWide<R(!new)>(m: Register<R>) {
    && (forall c: R :: m.up(m.up(m.up(m.up(m.up(m.up(m.up(m.up(c)))))))) == m.far(c))
    && (forall c: R :: m.far(m.far(c)) == m.zero)
    && (forall b: bv8 :: m.far(m.place(b)) == m.zero)
  }

  ghost predicate NoLeadingByte<R>(m: Register<R>, c: R) {
    && !m.onTop(c) && !m.onTop(m.up(c)) && !m.onTop(m.up(m.up(c))) && !m.onTop(m.up(m.up(m.up(c))))
    && !m.onTop(m.up(m.up(m.up(m.up(c))))) && !m.onTop(m.up(m.up(m.up(m.up(m.up(c))))))
    && !m.onTop(m.up(m.up(m.up(m.up(m.up(m.up(c))))))) && !m.onTop(m.up(m.up(m.up(m.up(m.up(m.up(m.up(c))))))))
  }

  /** A byte in the leading half of an otherwise cleared register, and the index of the byte that is left there. */
  ghost predicate Indexed<R(!new)>(m: Register<R>) {
    && (forall c: R, b: bv8 :: m.place(m.index(c, b)) == m.add(m.add(c, m.place(b)), m.rest(c)))
    && (forall c: R :: NoLeadingByte(m, m.rest(c)))
  }

  ghost predicate Divides<R(!new)>(m: Register<R>) {
    && m.poly[15]
    && (forall i: nat :: i < 16 ==> (Holds(m, m.divisor, i) <==> m.poly[i]))
  }

  ghost predicate Lawful<R(!new)>(m: Register<R>) {
    Linear(m) && Determined(m) && SixteenWide(m) && Indexed(m) && Divides(m)
  }

  /** Every coefficient n places up. */
  function Times<R>(m: Register<R>, c: R, n: nat): R {
    if n == 0 then c else m.up(Times(m, c, n - 1))
  }

  /** Coefficient i is the one that is on top after i moves. */
  predicate Holds<R>(m: Register<R>, c: R, i: nat) {
    m.onTop(Times(m, c, i))
  }

  /** The coefficients held by a register. */
  function Coefficients<R>(m: Register<R>, c: R): Word {
    seq(16, i requires 0 <= i < 16 => Holds(m, c, i))
  }

  /** The bits of a byte, in the order in which the engine divides them in. */
  function Bits<R>(m: Register<R>, b: bv8): (bits: seq<bool>)
    ensures |bits| == 8
  {
    Coefficients(m, m.place(b))[..8]
  }

  /** One shift as the table initialisation performs it. */
  function Shift<R>(m: Register<R>, c: R): R {
    if m.onTop(c) then m.add(m.up(c), m.divisor) else m.up(c)
  }

  /** Bit-at-a-time division in a register. */
  function Remainder<R>(m: Register<R>, c: R, bits: seq<bool>): R
    decreases |bits|
  {
    if bits == [] then c else Remainder(m, Shift(m, if bits[0] then m.add(c, m.unit) else c), bits[1..])
  }

  lemma {:induction false} TimesAdd<R>(m: Register<R>, c: R, k: nat, n: nat)
    ensures Times(m, c, k + n) == Times(m, Times(m, c, k), n)
    decreases n
  {
    if n > 0 {
      TimesAdd(m, c, k, n - 1);
    }
  }

  lemma {:induction false} TimesSum<R(!new)>(m: Register<R>, c: R, x: R, n: nat)
    requires Linear(m)
    ensures Times(m, m.add(c, x), n) == m.add(Times(m, c, n), Times(m, x, n))
    decreases n
  {
    if n > 0 {
      TimesSum(m, c, x, n - 1);
    }
  }

  lemma SumHolds<R(!new)>(m: Register<R>, c: R, x: R, i: nat)
    requires Linear(m)
    ensures Holds(m, m.add(c, x), i) == (Holds(m, c, i) != Holds(m, x, i))
  {
    TimesSum(m, c, x, i);
  }

  lemma {:induction false} ZeroHolds<R(!new)>(m: Register<R>, n: nat)
    requires Linear(m)
    ensures Times(m, m.zero, n) == m.zero && !Holds(m, m.zero, n)
    decreases n
  {
    if n > 0 {
      ZeroHolds(m, n - 1);
    }
  }

  lemma UpHolds<R>(m: Register<R>, c: R, i: nat)
    ensures Holds(m, m.up(c), i) == Holds(m, c, i + 1)
  {
    assert Times(m, c, 1) == m.up(Times(m, c, 0));
    TimesAdd(m, c, 1, i);
  }

  lemma UnitHolds<R(!new)>(m: Register<R>, i: nat)
    requires Linear(m)
    ensures Holds(m, m.unit, i) == (i == 0)
  {
    if i > 0 {
      UpHolds(m, m.unit, i - 1);
      ZeroHolds(m, i - 1);
    }
  }

  lemma FarIsEight<R(!new)>(m: Register<R>, c: R)
    requires SixteenWide(m)
    ensures Times(m, c, 8) == m.far(c)
  {
    assert Times(m, c, 1) == m.up(c);
    assert Times(m, c, 2) == m.up(m.up(c));
    assert Times(m, c, 4) == m.up(m.up(Times(m, c, 2)));
    assert Times(m, c, 6) == m.up(m.up(Times(m, c, 4)));
  }

  lemma FarHolds<R(!new)>(m: Register<R>, c: R, i: nat)
    requires SixteenWide(m)
    ensures Holds(m, m.far(c), i) == Holds(m, c, i + 8)
  {
    FarIsEight(m, c);
    TimesAdd(m, c, 8, i);
  }

  lemma NothingBehind<R(!new)>(m: Register<R>, c: R, i: nat)
    requires Linear(m) && SixteenWide(m) && i >= 16
    ensures !Holds(m, c, i)
  {
    FarHolds(m, c, i - 8);
    FarHolds(m, m.far(c), i - 16);
    ZeroHolds(m, i - 16);
  }

  lemma PlacedHolds<R(!new)>(m: Register<R>, b: bv8, i: nat)
    requires Linear(m) && SixteenWide(m) && i >= 8
    ensures !Holds(m, m.place(b), i)
  {
    FarHolds(m, m.place(b), i - 8);
    ZeroHolds(m, i - 8);
  }

  lemma ShiftHolds<R(!new)>(m: Register<R>, c: R, i: nat)
    requires Linear(m) && Divides(m) && i < 16
    ensures Holds(m, Shift(m, c), i) == (Holds(m, c, i + 1) != (Holds(m, c, 0) && m.poly[i]))
  {
    UpHolds(m, c, i);
    SumHolds(m, m.up(c), m.divisor, i);
  }

  /** One shift of the register brings down a zero bit. */
  lemma ShiftIsStep<R(!new)>(m: Register<R>, c: R)
    requires Linear(m) && SixteenWide(m) && Divides(m)
    ensures Coefficients(m, Shift(m, c)) == Step(m.poly, Coefficients(m, c), false)
  {
    forall i: nat | i < 16
      ensures Holds(m, Shift(m, c), i) == Step(m.poly, Coefficients(m, c), false)[i]
    {
      ShiftHolds(m, c, i);
      if i == 15 {
        NothingBehind(m, c, 16);
      }
    }
  }

  lemma SumOfRegisters<R(!new)>(m: Register<R>, c: R, x: R)
    requires Linear(m)
    ensures Coefficients(m, m.add(c, x)) == Sum(Coefficients(m, c), Coefficients(m, x))
  {
    forall i: nat | i < 16
      ensures Holds(m, m.add(c, x), i) == (Holds(m, c, i) != Holds(m, x, i))
    {
      SumHolds(m, c, x, i);
    }
  }

  lemma BringDown<R(!new)>(m: Register<R>, c: R)
    requires Linear(m) && SixteenWide(m) && Divides(m)
    ensures Coefficients(m, Shift(m, m.add(c, m.unit))) == Step(m.poly, Coefficients(m, c), true)
  {
    forall i: nat | i < 16
      ensures Holds(m, m.add(c, m.unit), i) == (Holds(m, c, i) != (i == 0))
    {
      SumHolds(m, c, m.unit, i);
      UnitHolds(m, i);
    }
    assert Coefficients(m, m.add(c, m.unit)) == AddIn(Coefficients(m, c), [true]);
    ShiftIsStep(m, m.add(c, m.unit));
    AddInStep(m.poly, Coefficients(m, c), [true]);
    assert AddIn(Step(m.poly, Coefficients(m, c), true), []) == Step(m.poly, Coefficients(m, c), true);
  }

  /** A lawful register holds the remainder of the division. */
  lemma {:induction false} RemainderIsDivide<R(!new)>(m: Register<R>, c: R, bits: seq<bool>)
    requires Linear(m) && SixteenWide(m) && Divides(m)
    ensures Coefficients(m, Remainder(m, c, bits)) == Divide(m.poly, Coefficients(m, c), bits)
    decreases |bits|
  {
    if bits != [] {
      if bits[0] {
        BringDown(m, c);
        RemainderIsDivide(m, Shift(m, m.add(c, m.unit)), bits[1..]);
      } else {
        ShiftIsStep(m, c);
        RemainderIsDivide(m, Shift(m, c), bits[1..]);
      }
    }
  }

  lemma {:induction false} NoneHeld<R(!new)>(m: Register<R>, z: R, n: nat)
    requires Determined(m) && (forall i: nat :: i < n ==> !Holds(m, z, i)) && Times(m, z, n) == m.zero
    ensures z == m.zero
    decreases n
  {
    if n > 0 {
      assert !Holds(m, z, n - 1);
      NoneHeld(m, z, n - 1);
    }
  }

  lemma AllLost<R(!new)>(m: Register<R>, c: R)
    requires SixteenWide(m)
    ensures Times(m, c, 16) == m.zero
  {
    FarIsEight(m, c);
    FarIsEight(m, m.far(c));
    TimesAdd(m, c, 8, 8);
  }

  /** A register is determined by its coefficients. */
  lemma CoefficientsInjective<R(!new)>(m: Register<R>, x: R, y: R)
    requires Linear(m) && Determined(m) && SixteenWide(m) && Coefficients(m, x) == Coefficients(m, y)
    ensures x == y
  {
    forall i: nat | i < 16
      ensures !Holds(m, m.add(x, y), i)
    {
      SumHolds(m, x, y, i);
      assert Coefficients(m, x)[i] == Coefficients(m, y)[i];
    }
    AllLost(m, m.add(x, y));
    NoneHeld(m, m.add(x, y), 16);
  }

  /** A byte placed in an empty register. */
  lemma PlacedByte<R(!new)>(m: Register<R>, b: bv8)
    requires Linear(m) && SixteenWide(m)
    ensures Coefficients(m, m.place(b)) == AddIn(Zero(), Bits(m, b))
  {
    forall i: nat | i < 16
      ensures Coefficients(m, m.place(b))[i] == AddIn(Zero(), Bits(m, b))[i]
    {
      if i >= 8 {
        PlacedHolds(m, b, i);
      }
    }
  }

  lemma BitsInjective<R(!new)>(m: Register<R>, a: bv8, b: bv8)
    requires Linear(m) && Determined(m) && SixteenWide(m) && Bits(m, a) == Bits(m, b)
    ensures a == b
  {
    PlacedByte(m, a);
    PlacedByte(m, b);
    CoefficientsInjective(m, m.place(a), m.place(b));
  }

  // ---------------------------------------------------------------------
  // The table-driven step
  // ---------------------------------------------------------------------

  lemma FarMovesUp<R(!new)>(m: Register<R>, c: R)
    requires Linear(m) && SixteenWide(m)
    ensures Coefficients(m, m.far(c)) == MoveUp(Coefficients(m, c), 8)
  {
    forall i: nat | i < 16
      ensures Holds(m, m.far(c), i) == (i < 8 && Holds(m, c, i + 8))
    {
      FarHolds(m, c, i);
      if i >= 8 {
        NothingBehind(m, c, i + 8);
      }
    }
  }

  lemma NoLeadingByteHolds<R>(m: Register<R>, c: R, i: nat)
    requires NoLeadingByte(m, c) && i < 8
    ensures !Holds(m, c, i)
  {
    assert Times(m, c, 1) == m.up(c);
    assert Times(m, c, 2) == m.up(m.up(c));
    assert Times(m, c, 3) == m.up(Times(m, c, 2));
    assert Times(m, c, 4) == m.up(Times(m, c, 3));
    assert Times(m, c, 5) == m.up(Times(m, c, 4));
    assert Times(m, c, 6) == m.up(Times(m, c, 5));
    assert Times(m, c, 7) == m.up(Times(m, c, 6));
  }

  lemma IndexBits<R(!new)>(m: Register<R>, c: R, b: bv8)
    requires Linear(m) && Indexed(m)
    ensures Bits(m, m.index(c, b)) == SumBits(Coefficients(m, c)[..8], Bits(m, b))
  {
    forall i: nat | i < 8
      ensures Bits(m, m.index(c, b))[i] == SumBits(Coefficients(m, c)[..8], Bits(m, b))[i]
    {
      SumHolds(m, m.add(c, m.place(b)), m.rest(c), i);
      NoLeadingByteHolds(m, m.rest(c), i);
      SumHolds(m, c, m.place(b), i);
    }
  }

  /** The table entry of a byte is the remainder of that byte alone. */
  ghost predicate IsEntry<R>(m: Register<R>, x: bv8, entry: R) {
    Coefficients(m, entry) == Divide(m.poly, Zero(), Bits(m, x))
  }

  /** One table look-up takes eight steps of the division. */
  lemma LookUpIsRemainder<R(!new)>(m: Register<R>, c: R, b: bv8, entry: R)
    requires Lawful(m) && IsEntry(m, m.index(c, b), entry)
    ensures m.add(m.far(c), entry) == Remainder(m, c, Bits(m, b))
  {
    SumOfRegisters(m, m.far(c), entry);
    FarMovesUp(m, c);
    IndexBits(m, c, b);
    DivideByTable(m.poly, Coefficients(m, c), Bits(m, b));
    RemainderIsDivide(m, c, Bits(m, b));
    CoefficientsInjective(m, m.add(m.far(c), entry), Remainder(m, c, Bits(m, b)));
  }

  /** The register after n shifts of c. */
  ghost predicate Shifted<R>(m: Register<R>, c: R, entry: R, n: nat) {
    Coefficients(m, entry) == Shifts(m.poly, Coefficients(m, c), n)
  }

  lemma OneMoreShift<R(!new)>(m: Register<R>, c: R, entry: R, n: nat)
    requires Lawful(m) && Shifted(m, c, entry, n)
    ensures Shifted(m, c, Shift(m, entry), n + 1)
  {
    ShiftIsStep(m, entry);
    ShiftsLast(m.poly, Coefficients(m, c), n);
  }

  /** Eight shifts of a byte in an empty register leave its table entry. */
  lemma EightShifts<R(!new)>(m: Register<R>, b: bv8, entry: R, n: nat)
    requires Lawful(m) && n == 8 && Shifted(m, m.place(b), entry, n)
    ensures IsEntry(m, b, entry)
  {
    PlacedByte(m, b);
    DivideByShifting(m.poly, Zero(), Bits(m, b));
  }

  // ---------------------------------------------------------------------
  // Checksums of byte strings
  // ---------------------------------------------------------------------

  function Message<R>(m: Register<R>, data: Octets): seq<bool> {
    if data == [] then [] else Bits(m, data[0]) + Message(m, data[1..])
  }

  function Crc<R>(m: Register<R>, init: R, data: Octets): R {
    Remainder(m, init, Message(m, data))
  }

  lemma {:induction false} MessageConcat<R>(m: Register<R>, a: Octets, b: Octets)
    ensures Message(m, a + b) == Message(m, a) + Message(m, b)
    decreases |a|
  {
    if a == [] {
      assert a + b == b;
    } else {
      assert (a + b)[0] == a[0] && (a + b)[1..] == a[1..] + b;
      MessageConcat(m, a[1..], b);
    }
  }

  lemma {:induction false} MessageLength<R>(m: Register<R>, data: Octets)
    ensures |Message(m, data)| == 8 * |data|
    decreases |data|
  {
    if data != [] {
      MessageLength(m, data[1..]);
    }
  }

  lemma {:induction false} MessageInjective<R(!new)>(m: Register<R>, a: Octets, b: Octets)
    requires Lawful(m) && |a| == |b| && Message(m, a) == Message(m, b)
    ensures a == b
    decreases |a|
  {
    if a != [] {
      assert Message(m, a)[..8] == Bits(m, a[0]) && Message(m, a)[8..] == Message(m, a[1..]);
      assert Message(m, b)[..8] == Bits(m, b[0]) && Message(m, b)[8..] == Message(m, b[1..]);
      BitsInjective(m, a[0], b[0]);
      MessageInjective(m, a[1..], b[1..]);
      assert a == [a[0]] + a[1..] && b == [b[0]] + b[1..];
    }
  }

  lemma {:induction false} RemainderConcat<R>(m: Register<R>, c: R, u: seq<bool>, v: seq<bool>)
    ensures Remainder(m, c, u + v) == Remainder(m, Remainder(m, c, u), v)
    decreases |u|
  {
    if u == [] {
      assert u + v == v;
    } else {
      assert (u + v)[0] == u[0] && (u + v)[1..] == u[1..] + v;
      RemainderConcat(m, Shift(m, if u[0] then m.add(c, m.unit) else c), u[1..], v);
    }
  }

  lemma NextByte<R>(m: Register<R>, init: R, data: Octets, i: nat)
    requires i < |data|
    ensures Crc(m, init, data[..i + 1]) == Remainder(m, Crc(m, init, data[..i]), Bits(m, data[i]))
  {
    assert data[..i + 1] == data[..i] + [data[i]];
    MessageConcat(m, data[..i], [data[i]]);
    assert Message(m, [data[i]]) == Bits(m, data[i]);
    RemainderConcat(m, init, Message(m, data[..i]), Bits(m, data[i]));
  }

  lemma MessageInThree<R>(m: Register<R>, a: Octets, b: Octets, c: Octets)
    ensures Message(m, a + b + c) == Message(m, a) + Message(m, b) + Message(m, c)
  {
    MessageConcat(m, a + b, c);
    MessageConcat(m, a, b);
  }

  /** A one-byte error, and any error within two adjacent bytes, changes the checksum. */
  lemma ErrorChangesCrc<R(!new)>(m: Register<R>, init: R, before: Octets, u: Octets, v: Octets, after: Octets)
    requires Lawful(m) && |u| == |v| <= 2 && u != v
    ensures Crc(m, init, before + u + after) != Crc(m, init, before + v + after)
  {
    MessageInThree(m, before, u, after);
    MessageInThree(m, before, v, after);
    MessageLength(m, u);
    MessageLength(m, v);
    if Message(m, u) == Message(m, v) {
      MessageInjective(m, u, v);
    }
    BurstDetected(m.poly, Coefficients(m, init), Message(m, before), Message(m, u), Message(m, v), Message(m, after));
    RemainderIsDivide(m, init, Message(m, before + u + after));
    RemainderIsDivide(m, init, Message(m, before + v + after));
  }

  /** Two messages of equal length that differ in exactly one byte have different checksums. */
  lemma OneByteErrorDetected<R(!new)>(m: Register<R>, init: R, a: Octets, b: Octets, k: nat)
    requires Lawful(m) && |a| == |b| && k < |a| && a[k] != b[k]
    requires forall i :: 0 <= i < |a| && i != k ==> a[i] == b[i]
    ensures Crc(m, init, a) != Crc(m, init, b)
  {
    assert a == a[..k] + [a[k]] + a[k + 1..];
    assert b == a[..k] + [b[k]] + a[k + 1..];
    assert [a[k]][0] != [b[k]][0];
    ErrorChangesCrc(m, init, a[..k], [a[k]], [b[k]], a[k + 1..]);
  }

  // ---------------------------------------------------------------------
  // The two registers of the program
  // ---------------------------------------------------------------------

  /** Divisor 0x1021, x^15 in the most significant bit. */
  function Msb(): Register<bv16> {
    Register(0, 0x8000, 0x1021, CCITT_POLY, Xor, UpMsb, OnTopMsb, FarMsb, RestMsb, PlaceMsb, IndexMsb)
  }

  /** The reflected divisor 0xA001, x^15 in the least significant bit. */
  function Lsb(): Register<bv16> {
    Register(0, 0x0001, 0xA001, MODBUS_POLY, Xor, UpLsb, OnTopLsb, FarLsb, RestLsb, PlaceLsb, IndexLsb)
  }

  function Xor(c: bv16, x: bv16): bv16 {
    c ^ x
  }

  function UpMsb(c: bv16): bv16 {
    c << 1
  }

  function UpLsb(c: bv16): bv16 {
    c >> 1
  }

  predicate OnTopMsb(c: bv16) {
    c & 0x8000 != 0
  }

  predicate OnTopLsb(c: bv16) {
    c & 0x0001 != 0
  }

  function FarMsb(c: bv16): bv16 {
    c << 8
  }

  function FarLsb(c: bv16): bv16 {
    c >> 8
  }

  function RestMsb(c: bv16): bv16 {
    c & 0x00FF
  }

  function RestLsb(c: bv16): bv16 {
    c & 0xFF00
  }

  function PlaceMsb(b: bv8): bv16 {
    (b as bv16) << 8
  }

  function PlaceLsb(b: bv8): bv16 {
    b as bv16
  }

  function IndexMsb(c: bv16, b: bv8): bv8 {
    (((c >> 8) ^ (b as bv16)) & 0xFF) as bv8
  }

  function IndexLsb(c: bv16, b: bv8): bv8 {
    ((c ^ (b as bv16)) & 0xFF) as bv8
  }

  lemma XorZero(x: bv16, y: bv16)
    requires x ^ y == 0
    ensures x == y
  {
  }

  lemma AddsOnTopMsb()
    ensures AddsOnTop(Msb())
  {
  }

  lemma AddsWhenMovedMsb()
    ensures AddsWhenMoved(Msb())
  {
    forall c: bv16, x: bv16
      ensures Msb().up(Msb().add(c, x)) == Msb().add(Msb().up(c), Msb().up(x))
    {
      UpXorMsb(c, x);
    }
  }

  lemma UpXorMsb(c: bv16, x: bv16)
    ensures Msb().up(Msb().add(c, x)) == Msb().add(Msb().up(c), Msb().up(x))
  {
  }

  lemma LinearMsb()
    ensures Linear(Msb())
  {
    AddsWhenMovedMsb();
    AddsOnTopMsb();
    assert (0x8000 as bv16) << 1 == 0 && (0x0001 as bv16) >> 1 == 0;
  }

  lemma DeterminedMsb()
    ensures Determined(Msb())
  {
    var m := Msb();
    forall c: bv16 | m.up(c) == m.zero && !m.onTop(c)
      ensures c == m.zero
    {
      OnlyTopIsLostMsb(c);
    }
    forall c: bv16, x: bv16 | m.add(c, x) == m.zero
      ensures c == x
    {
      XorZero(c, x);
    }
    forall a: bv8, b: bv8 | m.place(a) == m.place(b)
      ensures a == b
    {
      SamePlaceMsb(a, b);
    }
  }

  lemma OnlyTopIsLostMsb(c: bv16)
    requires c << 1 == 0 && c & 0x8000 == 0
    ensures c == 0
  {
  }

  lemma SamePlaceMsb(a: bv8, b: bv8)
    requires ((a as bv16) << 8) == ((b as bv16) << 8)
    ensures a == b
  {
  }

  lemma SixteenWideMsb()
    ensures SixteenWide(Msb())
  {
    var m := Msb();
    forall c: bv16
      ensures m.up(m.up(m.up(m.up(m.up(m.up(m.up(m.up(c)))))))) == m.far(c) && m.far(m.far(c)) == m.zero
    {
      EightTimesMsb(c);
    }
    forall b: bv8
      ensures m.far(m.place(b)) == m.zero
    {
      PlacedFarMsb(b);
    }
  }

  lemma EightTimesMsb(c: bv16)
    ensures c << 1 << 1 << 1 << 1 << 1 << 1 << 1 << 1 == c << 8 && (c << 8) << 8 == 0
  {
  }

  lemma PlacedFarMsb(b: bv8)
    ensures ((b as bv16) << 8) << 8 == 0
  {
  }

  lemma IndexedMsb()
    ensures Indexed(Msb())
  {
    var m := Msb();
    forall c: bv16, b: bv8
      ensures m.place(m.index(c, b)) == m.add(m.add(c, m.place(b)), m.rest(c))
    {
      PlacedIndexMsb(c, b);
    }
    forall c: bv16
      ensures NoLeadingByte(m, m.rest(c))
    {
      RestBitsMsb(c);
    }
  }

  lemma PlacedIndexMsb(c: bv16, b: bv8)
    ensures (IndexMsb(c, b) as bv16) << 8 == (c ^ ((b as bv16) << 8)) ^ (c & 0x00FF)
  {
  }

  lemma RestBitsMsb(c: bv16)
    ensures NoLeadingByte(Msb(), Msb().rest(c))
  {
  }

  lemma DividesMsb()
    ensures Divides(Msb())
  {
    forall i: nat | i < 16
      ensures Holds(Msb(), Msb().divisor, i) <==> Msb().poly[i]
    {
      DivisorHoldsMsb(i);
    }
  }

  lemma DivisorHoldsMsb(i: nat)
    requires i < 16
    ensures Holds(Msb(), 0x1021, i) == CCITT_POLY[i]
  {
    var m := Msb();
    assert Times(m, 0x1021, 1) == 0x2042 && Times(m, 0x1021, 2) == 0x4084 && Times(m, 0x1021, 3) == 0x8108;
    assert Times(m, 0x1021, 4) == 0x0210 && Times(m, 0x1021, 5) == 0x0420 && Times(m, 0x1021, 6) == 0x0840;
    assert Times(m, 0x1021, 7) == 0x1080 && Times(m, 0x1021, 8) == 0x2100 && Times(m, 0x1021, 9) == 0x4200;
    assert Times(m, 0x1021, 10) == 0x8400 && Times(m, 0x1021, 11) == 0x0800 && Times(m, 0x1021, 12) == 0x1000;
    assert Times(m, 0x1021, 13) == 0x2000 && Times(m, 0x1021, 14) == 0x4000 && Times(m, 0x1021, 15) == 0x8000;
  }

  lemma MsbIsLawful()
    ensures Lawful(Msb())
  {
    LinearMsb();
    DeterminedMsb();
    SixteenWideMsb();
    IndexedMsb();
    DividesMsb();
  }

  lemma AddsOnTopLsb()
    ensures AddsOnTop(Lsb())
  {
  }

  lemma AddsWhenMovedLsb()
    ensures AddsWhenMoved(Lsb())
  {
    forall c: bv16, x: bv16
      ensures Lsb().up(Lsb().add(c, x)) == Lsb().add(Lsb().up(c), Lsb().up(x))
    {
      UpXorLsb(c, x);
    }
  }

  lemma UpXorLsb(c: bv16, x: bv16)
    ensures Lsb().up(Lsb().add(c, x)) == Lsb().add(Lsb().up(c), Lsb().up(x))
  {
  }

  lemma LinearLsb()
    ensures Linear(Lsb())
  {
    AddsWhenMovedLsb();
    AddsOnTopLsb();
    assert (0x8000 as bv16) << 1 == 0 && (0x0001 as bv16) >> 1 == 0;
  }

  lemma DeterminedLsb()
    ensures Determined(Lsb())
  {
    var m := Lsb();
    forall c: bv16 | m.up(c) == m.zero && !m.onTop(c)
      ensures c == m.zero
    {
      OnlyTopIsLostLsb(c);
    }
    forall c: bv16, x: bv16 | m.add(c, x) == m.zero
      ensures c == x
    {
      XorZero(c, x);
    }
    forall a: bv8, b: bv8 | m.place(a) == m.place(b)
      ensures a == b
    {
      SamePlaceLsb(a, b);
    }
  }

  lemma OnlyTopIsLostLsb(c: bv16)
    requires c >> 1 == 0 && c & 0x0001 == 0
    ensures c == 0
  {
  }

  lemma SamePlaceLsb(a: bv8, b: bv8)
    requires (a as bv16) == (b as bv16)
    ensures a == b
  {
  }

  lemma SixteenWideLsb()
    ensures SixteenWide(Lsb())
  {
    var m := Lsb();
    forall c: bv16
      ensures m.up(m.up(m.up(m.up(m.up(m.up(m.up(m.up(c)))))))) == m.far(c) && m.far(m.far(c)) == m.zero
    {
      EightTimesLsb(c);
    }
    forall b: bv8
      ensures m.far(m.place(b)) == m.zero
    {
      PlacedFarLsb(b);
    }
  }

  lemma EightTimesLsb(c: bv16)
    ensures c >> 1 >> 1 >> 1 >> 1 >> 1 >> 1 >> 1 >> 1 == c >> 8 && (c >> 8) >> 8 == 0
  {
  }

  lemma PlacedFarLsb(b: bv8)
    ensures (b as bv16) >> 8 == 0
  {
  }

  lemma IndexedLsb()
    ensures Indexed(Lsb())
  {
    var m := Lsb();
    forall c: bv16, b: bv8
      ensures m.place(m.index(c, b)) == m.add(m.add(c, m.place(b)), m.rest(c))
    {
      PlacedIndexLsb(c, b);
    }
    forall c: bv16
      ensures NoLeadingByte(m, m.rest(c))
    {
      RestBitsLsb(c);
    }
  }

  lemma PlacedIndexLsb(c: bv16, b: bv8)
    ensures IndexLsb(c, b) as bv16 == (c ^ (b as bv16)) ^ (c & 0xFF00)
  {
  }

  lemma RestBitsLsb(c: bv16)
    ensures NoLeadingByte(Lsb(), Lsb().rest(c))
  {
  }

  lemma DividesLsb()
    ensures Divides(Lsb())
  {
    forall i: nat | i < 16
      ensures Holds(Lsb(), Lsb().divisor, i) <==> Lsb().poly[i]
    {
      DivisorHoldsLsb(i);
    }
  }

  lemma DivisorHoldsLsb(i: nat)
    requires i < 16
    ensures Holds(Lsb(), 0xA001, i) == MODBUS_POLY[i]
  {
    var m := Lsb();
    assert Times(m, 0xA001, 1) == 0x5000 && Times(m, 0xA001, 2) == 0x2800 && Times(m, 0xA001, 3) == 0x1400;
    assert Times(m, 0xA001, 4) == 0x0A00 && Times(m, 0xA001, 5) == 0x0500 && Times(m, 0xA001, 6) == 0x0280;
    assert Times(m, 0xA001, 7) == 0x0140 && Times(m, 0xA001, 8) == 0x00A0 && Times(m, 0xA001, 9) == 0x0050;
    assert Times(m, 0xA001, 10) == 0x0028 && Times(m, 0xA001, 11) == 0x0014 && Times(m, 0xA001, 12) == 0x000A;
    assert Times(m, 0xA001, 13) == 0x0005 && Times(m, 0xA001, 14) == 0x0002 && Times(m, 0xA001, 15) == 0x0001;
  }

  lemma LsbIsLawful()
    ensures Lawful(Lsb())
  {
    LinearLsb();
    DeterminedLsb();
    SixteenWideLsb();
    IndexedLsb();
    DividesLsb();
  }

  /** CRC-16 with divisor 0x1021, most significant bits first. */
  function Ccitt(init: bv16, data: Octets): bv16 {
    Crc(Msb(), init, data)
  }

  /** CRC-16 with the reflected divisor 0xA001, least significant bits first. */
  function Modbus(data: Octets): bv16 {
    Crc(Lsb(), 0xFFFF, data)
  }

  // ---------------------------------------------------------------------
  // The table-driven engines
  // ---------------------------------------------------------------------

  lemma ByteAsIndex(x: bv8)
    ensures 0 <= x as int < 256 && (x as int) as bv8 == x
  {
  }

  /** The entry of a table at index k. */
  ghost predicate Slot(m: Register<bv16>, k: int, entry: bv16) {
    0 <= k < 256 && IsEntry(m, k as bv8, entry)
  }

  /** Every entry of a table, complete or still growing, is right. */
  ghost predicate IsTable(m: Register<bv16>, t: seq<bv16>) {
    t != [] ==> Slot(m, |t| - 1, t[|t| - 1]) && IsTable(m, t[..|t| - 1])
  }

  lemma {:induction false} TableAt(m: Register<bv16>, t: seq<bv16>, k: nat)
    requires IsTable(m, t) && k < |t|
    ensures Slot(m, k, t[k])
    decreases |t|
  {
    if k < |t| - 1 {
      TableAt(m, t[..|t| - 1], k);
    }
  }

  lemma TableGrows(m: Register<bv16>, t: seq<bv16>, entry: bv16)
    requires IsTable(m, t) && Slot(m, |t|, entry)
    ensures IsTable(m, t + [entry])
  {
    assert (t + [entry])[..|t|] == t;
  }

  lemma EntryInTable(m: Register<bv16>, t: seq<bv16>, x: bv8)
    requires IsTable(m, t) && |t| == 256
    ensures IsEntry(m, x, t[x as int])
  {
    ByteAsIndex(x);
    TableAt(m, t, x as int);
  }

  /** One entry of the table. */
  method TableEntryLsb(i: int) returns (curr: bv16)
    requires 0 <= i < 256
    ensures Slot(Lsb(), i, curr)
  {
    var b := i as bv8;
    curr := b as bv16;
    LsbIsLawful();
    for k := 0 to 8
      invariant Shifted(Lsb(), Lsb().place(b), curr, k)
    {
      OneMoreShift(Lsb(), Lsb().place(b), curr, k);
      if curr & 0x0001 != 0 {
        curr := (curr >> 1) ^ 0xA001;
      } else {
        curr := curr >> 1;
      }
    }
    EightShifts(Lsb(), b, curr, 8);
  }

  /** The loop body of the engines. */
  method NextCrcLsb(t: seq<bv16>, crc: bv16, b: bv8) returns (next: bv16)
    requires IsTable(Lsb(), t) && |t| == 256
    ensures next == Remainder(Lsb(), crc, Bits(Lsb(), b))
  {
    var x := IndexLsb(crc, b);
    EntryInTable(Lsb(), t, x);
    var entry := t[x as int];
    LsbIsLawful();
    LookUpIsRemainder(Lsb(), crc, b, entry);
    MovedLsb(crc, entry);
    next := (crc >> 8) ^ entry;
  }

  lemma MovedLsb(c: bv16, entry: bv16)
    ensures Lsb().add(Lsb().far(c), entry) == (c >> 8) ^ entry
  {
  }

  /** One entry of the table. */
  method TableEntryMsb(i: int) returns (curr: bv16)
    requires 0 <= i < 256
    ensures Slot(Msb(), i, curr)
  {
    var b := i as bv8;
    curr := (b as bv16) << 8;
    MsbIsLawful();
    for k := 0 to 8
      invariant Shifted(Msb(), Msb().place(b), curr, k)
    {
      OneMoreShift(Msb(), Msb().place(b), curr, k);
      if curr & 0x8000 != 0 {
        curr := (curr << 1) ^ 0x1021;
      } else {
        curr := curr << 1;
      }
    }
    EightShifts(Msb(), b, curr, 8);
  }

  /** The loop body of the engines. */
  method NextCrcMsb(t: seq<bv16>, crc: bv16, b: bv8) returns (next: bv16)
    requires IsTable(Msb(), t) && |t| == 256
    ensures next == Remainder(Msb(), crc, Bits(Msb(), b))
  {
    var x := IndexMsb(crc, b);
    EntryInTable(Msb(), t, x);
    var entry := t[x as int];
    MsbIsLawful();
    LookUpIsRemainder(Msb(), crc, b, entry);
    MovedMsb(crc, entry);
    next := (crc << 8) ^ entry;
  }

  lemma MovedMsb(c: bv16, entry: bv16)
    ensures Msb().add(Msb().far(c), entry) == (c << 8) ^ entry
  {
  }

  /** The class-level tables, empty until the first use. */
  class Crc16Engine {
    var modbusTable: seq<bv16>
    var dynamixelTable: seq<bv16>
    var ccittTable: seq<bv16>

    ghost predicate Filled()
      reads this
    {
      && |modbusTable| == |dynamixelTable| == |ccittTable| == 256
      && IsTable(Lsb(), modbusTable) && IsTable(Msb(), dynamixelTable) && IsTable(Msb(), ccittTable)
    }

    ghost predicate Valid()
      reads this
    {
      Filled() || (modbusTable == [] && dynamixelTable == [] && ccittTable == [])
    }

    constructor ()
      ensures Valid()
    {
      modbusTable, dynamixelTable, ccittTable := [], [], [];
    }

    method InitTables()
      requires Valid()
      modifies this
      ensures Filled()
      ensures old(Filled()) ==> unchanged(this)
    {
      if |modbusTable| > 0 {
        return;
      }
      for i := 0 to 256
        invariant |modbusTable| == i && IsTable(Lsb(), modbusTable)
        invariant dynamixelTable == [] && ccittTable == []
      {
        var curr := TableEntryLsb(i);
        TableGrows(Lsb(), modbusTable, curr);
        modbusTable := modbusTable + [curr];
      }
      for i := 0 to 256
        invariant |modbusTable| == 256 && IsTable(Lsb(), modbusTable)
        invariant |dynamixelTable| == i && IsTable(Msb(), dynamixelTable) && ccittTable == dynamixelTable
      {
        var curr := TableEntryMsb(i);
        TableGrows(Msb(), dynamixelTable, curr);
        dynamixelTable := dynamixelTable + [curr];
        ccittTable := ccittTable + [curr];
      }
    }

    method ComputeModbus(data: Octets) returns (crc: bv16)
      requires Valid()
      modifies this
      ensures Filled()
      ensures crc == Modbus(data)
    {
      InitTables();
      ghost var start: bv16 := 0xFFFF;
      crc := 0xFFFF;
      for i := 0 to |data|
        invariant Filled()
        invariant crc == Crc(Lsb(), start, data[..i])
      {
        NextByte(Lsb(), start, data, i);
        crc := NextCrcLsb(modbusTable, crc, data[i]);
      }
      assert data[..|data|] == data;
    }

    method ComputeDynamixel(data: Octets) returns (crc: bv16)
      requires Valid()
      modifies this
      ensures Filled()
      ensures crc == Ccitt(0, data)
    {
      InitTables();
      ghost var start: bv16 := 0;
      crc := 0;
      for i := 0 to |data|
        invariant Filled()
        invariant crc == Crc(Msb(), start, data[..i])
      {
        NextByte(Msb(), start, data, i);
        crc := NextCrcMsb(dynamixelTable, crc, data[i]);
      }
      assert data[..|data|] == data;
    }

    method ComputeCcitt(data: Octets, init: bv16) returns (crc: bv16)
      requires Valid()
      modifies this
      ensures Filled()
      ensures crc == Ccitt(init, data)
    {
      InitTables();
      ghost var start: bv16 := init;
      crc := init;
      for i := 0 to |data|
        invariant Filled()
        invariant crc == Crc(Msb(), start, data[..i])
      {
        NextByte(Msb(), start, data, i);
        crc := NextCrcMsb(ccittTable, crc, data[i]);
      }
      assert data[..|data|] == data;
    }
  }
}
