/**
  The check values of the checksums: what they make of the digits 1 to 9.
*/
module CrcExamples {
  import opened Crc16

  /** The nine characters 1 to 9. */
  const DIGITS: Octets := [0x31, 0x32, 0x33, 0x34, 0x35, 0x36, 0x37, 0x38, 0x39]

  // ---------------------------------------------------------------------
  // One byte, computed with a register
  // ---------------------------------------------------------------------

  function ShiftLsb(c: bv16): bv16 {
    if c & 0x0001 != 0 then (c >> 1) ^ 0xA001 else c >> 1
  }

  function ShiftMsb(c: bv16): bv16 {
    if c & 0x8000 != 0 then (c << 1) ^ 0x1021 else c << 1
  }

  function EightLsb(c: bv16): bv16 {
    ShiftLsb(ShiftLsb(ShiftLsb(ShiftLsb(ShiftLsb(ShiftLsb(ShiftLsb(ShiftLsb(c))))))))
  }

  function EightMsb(c: bv16): bv16 {
    ShiftMsb(ShiftMsb(ShiftMsb(ShiftMsb(ShiftMsb(ShiftMsb(ShiftMsb(ShiftMsb(c))))))))
  }

  lemma ShiftsLsb(c: bv16)
    ensures Shift(Lsb(), c) == ShiftLsb(c)
  {
  }

  lemma ShiftsMsb(c: bv16)
    ensures Shift(Msb(), c) == ShiftMsb(c)
  {
  }

  /** Shifting over and over. */
  function ShiftTimes<R>(m: Register<R>, c: R, n: nat): R {
    if n == 0 then c else Shift(m, ShiftTimes(m, c, n - 1))
  }

  lemma {:induction false} ShiftedTimes<R(!new)>(m: Register<R>, c: R, n: nat)
    requires Lawful(m)
    ensures Shifted(m, c, ShiftTimes(m, c, n), n)
    decreases n
  {
    if n > 0 {
      ShiftedTimes(m, c, n - 1);
      OneMoreShift(m, c, ShiftTimes(m, c, n - 1), n - 1);
    }
  }

  lemma EightTimesLsb(c: bv16)
    ensures ShiftTimes(Lsb(), c, 8) == EightLsb(c)
  {
    ShiftsLsb(c);
    var c1 := ShiftLsb(c);
    ShiftsLsb(c1);
    var c2 := ShiftLsb(c1);
    ShiftsLsb(c2);
    var c3 := ShiftLsb(c2);
    ShiftsLsb(c3);
    var c4 := ShiftLsb(c3);
    ShiftsLsb(c4);
    var c5 := ShiftLsb(c4);
    ShiftsLsb(c5);
    var c6 := ShiftLsb(c5);
    ShiftsLsb(c6);
    ShiftsLsb(ShiftLsb(c6));
    assert ShiftTimes(Lsb(), c, 1) == c1;
    assert ShiftTimes(Lsb(), c, 2) == c2;
    assert ShiftTimes(Lsb(), c, 3) == c3;
    assert ShiftTimes(Lsb(), c, 4) == c4;
    assert ShiftTimes(Lsb(), c, 5) == c5;
    assert ShiftTimes(Lsb(), c, 6) == c6;
  }

  lemma EightTimesMsb(c: bv16)
    ensures ShiftTimes(Msb(), c, 8) == EightMsb(c)
  {
    ShiftsMsb(c);
    var c1 := ShiftMsb(c);
    ShiftsMsb(c1);
    var c2 := ShiftMsb(c1);
    ShiftsMsb(c2);
    var c3 := ShiftMsb(c2);
    ShiftsMsb(c3);
    var c4 := ShiftMsb(c3);
    ShiftsMsb(c4);
    var c5 := ShiftMsb(c4);
    ShiftsMsb(c5);
    var c6 := ShiftMsb(c5);
    ShiftsMsb(c6);
    ShiftsMsb(ShiftMsb(c6));
    assert ShiftTimes(Msb(), c, 1) == c1;
    assert ShiftTimes(Msb(), c, 2) == c2;
    assert ShiftTimes(Msb(), c, 3) == c3;
    assert ShiftTimes(Msb(), c, 4) == c4;
    assert ShiftTimes(Msb(), c, 5) == c5;
    assert ShiftTimes(Msb(), c, 6) == c6;
  }

  lemma ByteLsb(c: bv16, b: bv8, x: bv8, p: bv16, entry: bv16)
    requires x == IndexLsb(c, b) && p == PlaceLsb(x) && entry == EightLsb(p)
    ensures Remainder(Lsb(), c, Bits(Lsb(), b)) == (c >> 8) ^ entry
  {
    LsbIsLawful();
    EightTimesLsb(p);
    ShiftedTimes(Lsb(), p, 8);
    EightShifts(Lsb(), x, entry, 8);
    LookUpIsRemainder(Lsb(), c, b, entry);
    MovedLsb(c, entry);
  }

  lemma ByteMsb(c: bv16, b: bv8, x: bv8, p: bv16, entry: bv16)
    requires x == IndexMsb(c, b) && p == PlaceMsb(x) && entry == EightMsb(p)
    ensures Remainder(Msb(), c, Bits(Msb(), b)) == (c << 8) ^ entry
  {
    MsbIsLawful();
    EightTimesMsb(p);
    ShiftedTimes(Msb(), p, 8);
    EightShifts(Msb(), x, entry, 8);
    LookUpIsRemainder(Msb(), c, b, entry);
    MovedMsb(c, entry);
  }

  /** The checksum c of the first i bytes becomes d with the next byte b. */
  lemma OneMoreLsb(c: bv16, b: bv8, x: bv8, p: bv16, entry: bv16, d: bv16, data: Octets, i: nat, init: bv16)
    requires i < |data| && data[i] == b && Crc(Lsb(), init, data[..i]) == c
    requires x == IndexLsb(c, b) && p == PlaceLsb(x) && entry == EightLsb(p) && d == (c >> 8) ^ entry
    ensures Crc(Lsb(), init, data[..i + 1]) == d
  {
    NextByte(Lsb(), init, data, i);
    ByteLsb(c, b, x, p, entry);
  }

  lemma OneMoreMsb(c: bv16, b: bv8, x: bv8, p: bv16, entry: bv16, d: bv16, data: Octets, i: nat, init: bv16)
    requires i < |data| && data[i] == b && Crc(Msb(), init, data[..i]) == c
    requires x == IndexMsb(c, b) && p == PlaceMsb(x) && entry == EightMsb(p) && d == (c << 8) ^ entry
    ensures Crc(Msb(), init, data[..i + 1]) == d
  {
    NextByte(Msb(), init, data, i);
    ByteMsb(c, b, x, p, entry);
  }

  // ---------------------------------------------------------------------
  // Check values
  // ---------------------------------------------------------------------

  /** CRC-16/MODBUS. */
  lemma ModbusCheckValue(digits: Octets, init: bv16)
    requires digits == DIGITS && init == 0xFFFF
    ensures Modbus(digits) == 0x4B37
  {
    assert Crc(Lsb(), init, digits[..0]) == init;
    OneMoreLsb(0xFFFF, 0x31, 0xCE, 0x00CE, 0x9481, 0x947E, digits, 0, init);
    OneMoreLsb(0x947E, 0x32, 0x4C, 0x004C, 0xF501, 0xF595, digits, 1, init);
    OneMoreLsb(0xF595, 0x33, 0xA6, 0x00A6, 0x7A80, 0x7A75, digits, 2, init);
    OneMoreLsb(0x7A75, 0x34, 0x41, 0x0041, 0x30C0, 0x30BA, digits, 3, init);
    OneMoreLsb(0x30BA, 0x35, 0x8F, 0x008F, 0xA441, 0xA471, digits, 4, init);
    OneMoreLsb(0xA471, 0x36, 0x47, 0x0047, 0x3240, 0x32E4, digits, 5, init);
    OneMoreLsb(0x32E4, 0x37, 0xD3, 0x00D3, 0x9D41, 0x9D73, digits, 6, init);
    OneMoreLsb(0x9D73, 0x38, 0x4B, 0x004B, 0x3740, 0x37DD, digits, 7, init);
    OneMoreLsb(0x37DD, 0x39, 0xE4, 0x00E4, 0x4B00, 0x4B37, digits, 8, init);
    assert digits[..9] == digits;
  }

  /** CRC-16/CCITT-FALSE. */
  lemma CcittCheckValue(digits: Octets, init: bv16)
    requires digits == DIGITS && init == 0xFFFF
    ensures Ccitt(init, digits) == 0x29B1
  {
    assert Crc(Msb(), init, digits[..0]) == init;
    OneMoreMsb(0xFFFF, 0x31, 0xCE, 0xCE00, 0x3882, 0xC782, digits, 0, init);
    OneMoreMsb(0xC782, 0x32, 0xF5, 0xF500, 0xBFBA, 0x3DBA, digits, 1, init);
    OneMoreMsb(0x3DBA, 0x33, 0x0E, 0x0E00, 0xE1CE, 0x5BCE, digits, 2, init);
    OneMoreMsb(0x5BCE, 0x34, 0x6F, 0x6F00, 0x9D49, 0x5349, digits, 3, init);
    OneMoreMsb(0x5349, 0x35, 0x66, 0x6600, 0x0C60, 0x4560, digits, 4, init);
    OneMoreMsb(0x4560, 0x36, 0x73, 0x7300, 0x4EF4, 0x2EF4, digits, 5, init);
    OneMoreMsb(0x2EF4, 0x37, 0x19, 0x1900, 0x8318, 0x7718, digits, 6, init);
    OneMoreMsb(0x7718, 0x38, 0x4F, 0x4F00, 0xB92B, 0xA12B, digits, 7, init);
    OneMoreMsb(0xA12B, 0x39, 0x98, 0x9800, 0x02B1, 0x29B1, digits, 8, init);
    assert digits[..9] == digits;
  }

  /** The same divisor from zero, CRC-16/XMODEM. */
  lemma DynamixelCheckValue(digits: Octets, init: bv16)
    requires digits == DIGITS && init == 0
    ensures Ccitt(init, digits) == 0x31C3
  {
    assert Crc(Msb(), init, digits[..0]) == init;
    OneMoreMsb(0x0000, 0x31, 0x31, 0x3100, 0x2672, 0x2672, digits, 0, init);
    OneMoreMsb(0x2672, 0x32, 0x14, 0x1400, 0x52B5, 0x20B5, digits, 1, init);
    OneMoreMsb(0x20B5, 0x33, 0x13, 0x1300, 0x2252, 0x9752, digits, 2, init);
    OneMoreMsb(0x9752, 0x34, 0xA3, 0xA300, 0x8589, 0xD789, digits, 3, init);
    OneMoreMsb(0xD789, 0x35, 0xE2, 0xE200, 0xDD6C, 0x546C, digits, 4, init);
    OneMoreMsb(0x546C, 0x36, 0x62, 0x6200, 0x4CE4, 0x20E4, digits, 5, init);
    OneMoreMsb(0x20E4, 0x37, 0x17, 0x1700, 0x62D6, 0x86D6, digits, 6, init);
    OneMoreMsb(0x86D6, 0x38, 0xBE, 0xBE00, 0x4615, 0x9015, digits, 7, init);
    OneMoreMsb(0x9015, 0x39, 0xA9, 0xA900, 0x24C3, 0x31C3, digits, 8, init);
    assert digits[..9] == digits;
  }
}
