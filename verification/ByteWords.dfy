/**
  Bytes, and the 16-bit numbers that wire formats pack into two of them.
*/
module ByteWords {

  type Byte = b: int | 0 <= b < 256

  type Bytes = seq<Byte>

  /** The chunks of a stream put together. */
  function Concat(chunks: seq<Bytes>): Bytes {
    if chunks == [] then [] else chunks[0] + Concat(chunks[1..])
  }

  type Word = n: int | 0 <= n < 65536

  /** A 16-bit number as two bytes, low byte first. */
  function LittleEndian(n: Word): (s: Bytes)
    ensures |s| == 2 && ReadLittleEndian(s[0], s[1]) == n == (s[0] as int) + 0x100 * (s[1] as int)
  {
    [n % 256, n / 256]
  }

  function ReadLittleEndian(lo: Byte, hi: Byte): Word
  {
    lo + 256 * hi
  }

  /** A 16-bit number as two bytes, high byte first. */
  function BigEndian(n: Word): (s: Bytes)
    ensures |s| == 2 && ReadBigEndian(s[0], s[1]) == n == 0x100 * (s[0] as int) + (s[1] as int)
  {
    [n / 256, n % 256]
  }

  function ReadBigEndian(hi: Byte, lo: Byte): Word
  {
    256 * hi + lo
  }
}
