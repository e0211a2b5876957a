/**
  The CRC-16 checksums as numbers, for framings whose bytes are numbers.
*/
module Checksums {
  import opened ByteWords
  import opened Registers
  import Crc16

  /** The bytes as machine bytes. */
  function Octets(data: Bytes): (octets: Crc16.Octets)
    ensures |octets| == |data|
  {
    seq(|data|, i requires 0 <= i < |data| => Octet(data[i]))
  }

  /** The number a 16-bit register holds. */
  function Value(crc: bv16): Word {
    LowByte(crc) + 256 * HighByte(crc)
  }

  function Dynamixel(data: Bytes): Word {
    Value(Crc16.Ccitt(0, Octets(data)))
  }

  function Ccitt(data: Bytes): Word {
    Value(Crc16.Ccitt(0xFFFF, Octets(data)))
  }

  lemma SameHalves(l0: Byte, h0: Byte, l1: Byte, h1: Byte)
    requires l0 + 256 * h0 == l1 + 256 * h1
    ensures l0 == l1 && h0 == h1
  {
  }

  lemma ValueInjective(c: bv16, d: bv16)
    requires Value(c) == Value(d)
    ensures c == d
  {
    SameHalves(LowByte(c), HighByte(c), LowByte(d), HighByte(d));
    BytesInjective(c, d);
  }

  lemma OctetsDiffer(a: Bytes, b: Bytes, k: nat)
    requires |a| == |b| && k < |a| && a[k] != b[k]
    requires forall i :: 0 <= i < |a| && i != k ==> a[i] == b[i]
    ensures Octets(a)[k] != Octets(b)[k]
    ensures forall i :: 0 <= i < |a| && i != k ==> Octets(a)[i] == Octets(b)[i]
  {
    if Octet(a[k]) == Octet(b[k]) {
      OctetInjective(a[k], b[k]);
    }
  }

  /** Two messages of equal length that differ in exactly one byte have different checksums. */
  lemma OneByteErrorDetected(a: Bytes, b: Bytes, k: nat)
    requires |a| == |b| && k < |a| && a[k] != b[k]
    requires forall i :: 0 <= i < |a| && i != k ==> a[i] == b[i]
    ensures Dynamixel(a) != Dynamixel(b) && Ccitt(a) != Ccitt(b)
  {
    OctetsDiffer(a, b, k);
    DifferentValues(0, Octets(a), Octets(b), k);
    DifferentValues(0xFFFF, Octets(a), Octets(b), k);
  }

  lemma DifferentValues(init: bv16, a: Crc16.Octets, b: Crc16.Octets, k: nat)
    requires |a| == |b| && k < |a| && a[k] != b[k]
    requires forall i :: 0 <= i < |a| && i != k ==> a[i] == b[i]
    ensures Value(Crc16.Ccitt(init, a)) != Value(Crc16.Ccitt(init, b))
  {
    Crc16.MsbIsLawful();
    Crc16.OneByteErrorDetected(Crc16.Msb(), init, a, b, k);
    if Value(Crc16.Ccitt(init, a)) == Value(Crc16.Ccitt(init, b)) {
      ValueInjective(Crc16.Ccitt(init, a), Crc16.Ccitt(init, b));
    }
  }
}
