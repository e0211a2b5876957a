/**
  Machine bytes and 16-bit registers as numbers.
*/
module Registers {
  import opened ByteWords

  /** The machine byte that holds b, counted up from zero. */
  function Octet(b: Byte): bv8 {
    if b == 0 then 0 else Octet(b - 1) + 1
  }

  function LowByte(crc: bv16): Byte {
    ((crc & 0xFF) as bv8) as int
  }

  function HighByte(crc: bv16): Byte {
    ((crc >> 8) as bv8) as int
  }

  lemma NextOctet(x: bv8)
    requires x as int < 255
    ensures (x + 1) as int == x as int + 1
  {
  }

  lemma {:induction false} OctetValue(b: Byte)
    ensures Octet(b) as int == b
  {
    if b > 0 {
      OctetValue(b - 1);
      NextOctet(Octet(b - 1));
    }
  }

  /** Different bytes are different machine bytes. */
  lemma OctetInjective(a: Byte, b: Byte)
    requires Octet(a) == Octet(b)
    ensures a == b
  {
    OctetValue(a);
    OctetValue(b);
  }

  lemma SameByte(a: bv8, b: bv8)
    requires a as int == b as int
    ensures a == b
  {
  }

  lemma SameHalves(c: bv16, d: bv16)
    requires (c & 0xFF) as bv8 == (d & 0xFF) as bv8 && (c >> 8) as bv8 == (d >> 8) as bv8
    ensures c == d
  {
  }

  /** A register is determined by its two bytes. */
  lemma BytesInjective(c: bv16, d: bv16)
    requires LowByte(c) == LowByte(d) && HighByte(c) == HighByte(d)
    ensures c == d
  {
    SameByte((c & 0xFF) as bv8, (d & 0xFF) as bv8);
    SameByte((c >> 8) as bv8, (d >> 8) as bv8);
    SameHalves(c, d);
  }
}
