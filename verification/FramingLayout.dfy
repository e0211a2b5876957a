/**
  Where the bytes of the serial frames and of the Dynamixel packets stand.
*/
module FramingLayout {
  import opened Wrappers
  import opened ByteWords
  import opened Registers
  import Crc16
  import opened CrcExamples
  import Checksums
  import SerialFraming
  import ByteStuffing

  // ---------------------------------------------------------------------
  // Frames and instruction packets
  // ---------------------------------------------------------------------

  /** Two bytes of s, the more significant one first. */
  ghost predicate BigAt(s: Bytes, at: nat, n: int) {
    at + 1 < |s| && 0x100 * (s[at] as int) + (s[at + 1] as int) == n
  }

  /** Two bytes of s, the less significant one first. */
  ghost predicate LittleAt(s: Bytes, at: nat, n: int) {
    at + 1 < |s| && (s[at] as int) + 0x100 * (s[at + 1] as int) == n
  }

  /** A frame is AA 55, sequence, command, the length of the payload, the payload, its checksum, and 55 AA. */
  lemma FrameInOrder(crc: SerialFraming.Checksum, p: SerialFraming.Packet)
    requires SerialFraming.Encodable(p)
    ensures var f, n := SerialFraming.Frame(crc, p), |p.payload|;
      && |f| == n + 10 && f[0] == 0xAA && f[1] == 0x55 && f[2] == p.sequence && f[3] == p.command
      && BigAt(f, 4, n) && f[6..6 + n] == p.payload && BigAt(f, 6 + n, crc(f[2..6 + n]))
      && f[8 + n] == 0x55 && f[9 + n] == 0xAA
  {
    var checked := SerialFraming.Checked(p);
    SerialFraming.FrameLayout(p, BigEndian(crc(checked)), SerialFraming.Frame(crc, p));
  }

  /**
    An instruction packet is FF FF FD 00, the identifier, the length of what follows, the instruction, the
    stuffed parameters, and the checksum of all of it.
  */
  lemma InstructionInOrder(id: Byte, instruction: Byte, parameters: Bytes)
    requires ByteStuffing.Fits(parameters)
    ensures ByteStuffing.BuildInstructionPacket(id, instruction, parameters).Some?
    ensures var s, n := ByteStuffing.BuildInstructionPacket(id, instruction, parameters).value,
                        |ByteStuffing.Stuff(parameters)|;
      && |s| == n + 10 && s[0] == 0xFF && s[1] == 0xFF && s[2] == 0xFD && s[3] == 0x00 && s[4] == id
      && LittleAt(s, 5, |s| - 7) && s[7] == instruction && s[8..8 + n] == ByteStuffing.Stuff(parameters)
      && LittleAt(s, 8 + n, Checksums.Dynamixel(s[..8 + n]))
  {
    var body := ByteStuffing.PacketBody(id, instruction, parameters);
    var sum := LittleEndian(Checksums.Dynamixel(body));
    ByteStuffing.BodyParts(id, instruction, parameters);
    assert (body + sum)[..|body|] == body;
    assert body[0] == body[..4][0] && body[1] == body[..4][1] && body[2] == body[..4][2] && body[3] == body[..4][3];
  }

  /** How often the header pattern occurs. */
  function Patterns(data: Bytes): nat {
    if data == [] then 0 else (if ByteStuffing.Pattern(data) then 1 else 0) + Patterns(data[1..])
  }

  /** Stuffing adds one byte for each header pattern, and nothing else. */
  lemma {:induction false} StuffLength(data: Bytes)
    ensures |ByteStuffing.Stuff(data)| == |data| + Patterns(data)
    decreases |data|
  {
    if ByteStuffing.Pattern(data) {
      StuffLength(data[3..]);
      assert data[1..][1..] == data[2..] && data[2..][1..] == data[3..];
      assert Patterns(data[2..]) == Patterns(data[3..]);
      assert Patterns(data[1..]) == Patterns(data[2..]);
    } else if data != [] {
      StuffLength(data[1..]);
    }
  }

  // ---------------------------------------------------------------------
  // The ping packet for device 1
  // ---------------------------------------------------------------------

  lemma OctetIs(b: Byte, x: bv8)
    requires x as int == b
    ensures Octet(b) == x
  {
    OctetValue(b);
    SameByte(Octet(b), x);
  }

  lemma PingOctets(body: Bytes)
    requires body == [0xFF, 0xFF, 0xFD, 0x00, 0x01, 0x03, 0x00, 0x01]
    ensures Checksums.Octets(body) == [0xFF, 0xFF, 0xFD, 0x00, 0x01, 0x03, 0x00, 0x01]
  {
    OctetIs(0xFF, 0xFF);
    OctetIs(0xFD, 0xFD);
    OctetIs(0x00, 0x00);
    OctetIs(0x01, 0x01);
    OctetIs(0x03, 0x03);
  }

  lemma PingCrc(octets: Crc16.Octets, init: bv16)
    requires octets == [0xFF, 0xFF, 0xFD, 0x00, 0x01, 0x03, 0x00, 0x01] && init == 0
    ensures Crc16.Ccitt(init, octets) == 0xD104
  {
    assert Crc16.Crc(Crc16.Msb(), init, octets[..0]) == init;
    OneMoreMsb(0x0000, 0xFF, 0xFF, 0xFF00, 0x1EF0, 0x1EF0, octets, 0, init);
    OneMoreMsb(0x1EF0, 0xFF, 0xE1, 0xE100, 0xED0F, 0x1D0F, octets, 1, init);
    OneMoreMsb(0x1D0F, 0xFD, 0xE0, 0xE000, 0xFD2E, 0xF22E, octets, 2, init);
    OneMoreMsb(0xF22E, 0x00, 0xF2, 0xF200, 0xCF5D, 0xE15D, octets, 3, init);
    OneMoreMsb(0xE15D, 0x01, 0xE0, 0xE000, 0xFD2E, 0xA02E, octets, 4, init);
    OneMoreMsb(0xA02E, 0x03, 0xA3, 0xA300, 0x8589, 0xAB89, octets, 5, init);
    OneMoreMsb(0xAB89, 0x00, 0xAB, 0xAB00, 0x0481, 0x8D81, octets, 6, init);
    OneMoreMsb(0x8D81, 0x01, 0x8C, 0x8C00, 0x5004, 0xD104, octets, 7, init);
    assert octets[..8] == octets;
  }

  lemma PingSum(body: Bytes)
    requires body == [0xFF, 0xFF, 0xFD, 0x00, 0x01, 0x03, 0x00, 0x01]
    ensures Checksums.Dynamixel(body) == 0xD104
  {
    PingOctets(body);
    PingCrc(Checksums.Octets(body), 0);
    assert LowByte(0xD104) == 0x04 && HighByte(0xD104) == 0xD1;
  }

  lemma PingBody(body: Bytes, length: Bytes)
    requires body == [0xFF, 0xFF, 0xFD, 0x00, 0x01, 0x03, 0x00, 0x01] && length == [0x03, 0x00]
    ensures ByteStuffing.Fits([]) && ByteStuffing.PacketBody(1, 1, []) == body
  {
    assert LittleEndian(3) == length && ByteStuffing.Stuff([]) == [];
    assert ByteStuffing.PacketBody(1, 1, []) == ByteStuffing.HEADER + [1] + length + [1] + [];
  }

  /** The packet that asks device 1 whether it is there. */
  lemma PingPacket(body: Bytes)
    requires body == [0xFF, 0xFF, 0xFD, 0x00, 0x01, 0x03, 0x00, 0x01]
    ensures ByteStuffing.BuildInstructionPacket(1, 1, []) == Some(body + [0x04, 0xD1])
  {
    PingBody(body, [0x03, 0x00]);
    PingSum(body);
    assert LittleEndian(0xD104) == [0x04, 0xD1];
  }
}
