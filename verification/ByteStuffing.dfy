/**
  Dynamixel Protocol 2.0 byte stuffing, and the instruction and status packets built on it.
*/
module ByteStuffing {
  import opened Wrappers
  import opened ByteWords
  import Checksums

  // ---------------------------------------------------------------------
  // Stuffing
  // ---------------------------------------------------------------------

  /** The header pattern FF FF FD stands at the front. */
  predicate Pattern(s: Bytes) {
    |s| >= 3 && s[0] == 0xFF && s[1] == 0xFF && s[2] == 0xFD
  }

  predicate Stuffed(s: Bytes) {
    Pattern(s) && |s| >= 4 && s[3] == 0xFD
  }

  function Stuff(data: Bytes): Bytes {
    if data == [] then []
    else if Pattern(data) then [0xFF, 0xFF, 0xFD, 0xFD] + Stuff(data[3..])
    else [data[0]] + Stuff(data[1..])
  }

  function Unstuff(data: Bytes): Bytes {
    if data == [] then []
    else if Stuffed(data) then [0xFF, 0xFF, 0xFD] + Unstuff(data[4..])
    else [data[0]] + Unstuff(data[1..])
  }

  /** Every header pattern is followed by FD, so the header FF FF FD 00 cannot appear. */
  ghost predicate Escaped(s: Bytes) {
    forall i :: 0 <= i <= |s| && Pattern(s[i..]) ==> Stuffed(s[i..])
  }

  /** Stuffing leaves the first bytes alone. */
  lemma StuffHead(data: Bytes)
    ensures Stuff(data) == [] <==> data == []
    ensures data != [] ==> Stuff(data)[0] == data[0]
    ensures |Stuff(data)| >= |data|
    ensures |data| >= 2 ==> Stuff(data)[1] == data[1]
    ensures |data| <= 2 ==> |Stuff(data)| == |data|
    decreases |data|
  {
    if Pattern(data) {
      StuffHead(data[3..]);
    } else if data != [] {
      StuffHead(data[1..]);
    }
  }

  lemma UnstuffHead(data: Bytes)
    ensures Unstuff(data) == [] <==> data == []
    ensures data != [] ==> Unstuff(data)[0] == data[0]
    ensures |Unstuff(data)| <= |data|
    ensures |Unstuff(data)| >= 2 ==> Unstuff(data)[1] == data[1]
    decreases |data|
  {
    if Stuffed(data) {
      UnstuffHead(data[4..]);
    } else if data != [] {
      UnstuffHead(data[1..]);
    }
  }

  /** A byte that does not start a pattern does not start one after stuffing either. */
  lemma PlainStaysPlain(data: Bytes)
    requires data != [] && !Pattern(data)
    ensures !Pattern([data[0]] + Stuff(data[1..]))
  {
    StuffHead(data[1..]);
  }

  /** Unstuffing undoes stuffing. */
  lemma {:induction false} UnstuffUndoesStuff(data: Bytes)
    ensures Unstuff(Stuff(data)) == data
    decreases |data|
  {
    if data == [] {
    } else if Pattern(data) {
      var s := [0xFF, 0xFF, 0xFD, 0xFD] + Stuff(data[3..]);
      assert Stuffed(s) && s[4..] == Stuff(data[3..]);
      UnstuffUndoesStuff(data[3..]);
      assert data == [0xFF, 0xFF, 0xFD] + data[3..];
    } else {
      var s := [data[0]] + Stuff(data[1..]);
      PlainStaysPlain(data);
      assert s[1..] == Stuff(data[1..]);
      UnstuffUndoesStuff(data[1..]);
    }
  }

  /** Stuffed data never shows the header pattern without the escaping FD. */
  lemma {:induction false} StuffEscapes(data: Bytes)
    ensures Escaped(Stuff(data))
    decreases |data|
  {
    var s := Stuff(data);
    if data != [] {
      var block := Pattern(data);
      var (rest, n) := if block then (data[3..], 4) else (data[1..], 1);
      StuffEscapes(rest);
      if !block {
        PlainStaysPlain(data);
      }
      forall i | 0 <= i <= |s| && Pattern(s[i..])
        ensures Stuffed(s[i..])
      {
        if i >= n {
          assert s[i..] == Stuff(rest)[i - n..];
        } else {
          assert s[0..] == s;
        }
      }
    }
  }

  lemma EscapedTail(s: Bytes, k: nat)
    requires Escaped(s) && k <= |s|
    ensures Escaped(s[k..])
  {
    forall i | 0 <= i <= |s[k..]| && Pattern(s[k..][i..])
      ensures Stuffed(s[k..][i..])
    {
      assert s[k..][i..] == s[k + i..];
    }
  }

  lemma {:induction false} StuffUndoesUnstuff(s: Bytes)
    requires Escaped(s)
    ensures Stuff(Unstuff(s)) == s
    decreases |s|
  {
    assert s[0..] == s;
    if s == [] {
    } else if Stuffed(s) {
      EscapedTail(s, 4);
      StuffUndoesUnstuff(s[4..]);
      var u := [0xFF, 0xFF, 0xFD] + Unstuff(s[4..]);
      assert Pattern(u) && u[3..] == Unstuff(s[4..]);
      assert s == [0xFF, 0xFF, 0xFD, 0xFD] + s[4..];
    } else {
      EscapedTail(s, 1);
      StuffUndoesUnstuff(s[1..]);
      UnstuffHead(s[1..]);
      var u := [s[0]] + Unstuff(s[1..]);
      assert !Pattern(u) && u[1..] == Unstuff(s[1..]);
    }
  }

  /** The escaped strings are exactly the ones stuffing produces, and stuffing restores them. */
  lemma StuffRestoresExactlyEscaped(s: Bytes)
    ensures Stuff(Unstuff(s)) == s <==> Escaped(s)
  {
    StuffEscapes(Unstuff(s));
    if Escaped(s) {
      StuffUndoesUnstuff(s);
    }
  }

  /** Bytes after stuffed data lengthen what is unstuffed, even if they complete a pattern. */
  lemma {:induction false} UnstuffTrailing(data: Bytes, trail: Bytes)
    ensures |Unstuff(Stuff(data) + trail)| >= |data|
    ensures trail != [] ==> |Unstuff(Stuff(data) + trail)| > |data|
    decreases |data|
  {
    var s := Stuff(data) + trail;
    if data == [] {
      assert s == trail;
      UnstuffHead(trail);
    } else if Pattern(data) {
      assert Stuffed(s) && s[4..] == Stuff(data[3..]) + trail;
      UnstuffTrailing(data[3..], trail);
    } else if Stuffed(s) {
      StuffEscapes(data);
      assert Stuff(data)[0..] == Stuff(data);
      PlainStaysPlain(data);
      assert |Stuff(data)| <= 2;
      StuffHead(data);
    } else {
      assert s[1..] == Stuff(data[1..]) + trail;
      UnstuffTrailing(data[1..], trail);
    }
  }

  lemma StuffPatternAt(data: Bytes, i: nat)
    requires i <= |data| && Pattern(data[i..])
    ensures Stuff(data[i..]) == [0xFF, 0xFF, 0xFD, 0xFD] + Stuff(data[i + 3..])
  {
    assert data[i..][3..] == data[i + 3..];
  }

  lemma StuffPlainAt(data: Bytes, i: nat)
    requires i < |data| && !Pattern(data[i..])
    ensures Stuff(data[i..]) == [data[i]] + Stuff(data[i + 1..])
  {
    assert data[i..][1..] == data[i + 1..];
  }

  lemma UnstuffPatternAt(data: Bytes, i: nat)
    requires i <= |data| && Stuffed(data[i..])
    ensures Unstuff(data[i..]) == [0xFF, 0xFF, 0xFD] + Unstuff(data[i + 4..])
  {
    assert data[i..][4..] == data[i + 4..];
  }

  lemma UnstuffPlainAt(data: Bytes, i: nat)
    requires i < |data| && !Stuffed(data[i..])
    ensures Unstuff(data[i..]) == [data[i]] + Unstuff(data[i + 1..])
  {
    assert data[i..][1..] == data[i + 1..];
  }

  lemma Regroup(a: Bytes, b: Bytes, c: Bytes)
    ensures (a + b) + c == a + (b + c)
  {
  }

  method ByteStuff(data: Bytes) returns (stuffed: Bytes)
    ensures stuffed == Stuff(data)
  {
    stuffed := [];
    var i := 0;
    var n := |data|;
    while i < n
      invariant 0 <= i <= n
      invariant stuffed + Stuff(data[i..]) == Stuff(data)
    {
      if i + 2 < n && data[i] == 0xFF && data[i + 1] == 0xFF && data[i + 2] == 0xFD {
        StuffPatternAt(data, i);
        Regroup(stuffed, [0xFF, 0xFF, 0xFD, 0xFD], Stuff(data[i + 3..]));
        stuffed := stuffed + [0xFF, 0xFF, 0xFD, 0xFD];
        i := i + 3;
      } else {
        StuffPlainAt(data, i);
        Regroup(stuffed, [data[i]], Stuff(data[i + 1..]));
        stuffed := stuffed + [data[i]];
        i := i + 1;
      }
    }
  }

  method ByteUnstuff(data: Bytes) returns (unstuffed: Bytes)
    ensures unstuffed == Unstuff(data)
  {
    unstuffed := [];
    var i := 0;
    var n := |data|;
    while i < n
      invariant 0 <= i <= n
      invariant unstuffed + Unstuff(data[i..]) == Unstuff(data)
    {
      if i + 3 < n && data[i] == 0xFF && data[i + 1] == 0xFF && data[i + 2] == 0xFD && data[i + 3] == 0xFD {
        UnstuffPatternAt(data, i);
        Regroup(unstuffed, [0xFF, 0xFF, 0xFD], Unstuff(data[i + 4..]));
        unstuffed := unstuffed + [0xFF, 0xFF, 0xFD];
        i := i + 4;
      } else {
        UnstuffPlainAt(data, i);
        Regroup(unstuffed, [data[i]], Unstuff(data[i + 1..]));
        unstuffed := unstuffed + [data[i]];
        i := i + 1;
      }
    }
  }

  // ---------------------------------------------------------------------
  // Packets
  // ---------------------------------------------------------------------

  const HEADER: Bytes := [0xFF, 0xFF, 0xFD, 0x00]
  const STATUS: Byte := 0x55

  datatype StatusError = TooShort | InvalidHeader | Incomplete | CrcMismatch | NotStatus

  datatype StatusResult =
    | Ok(packetId: Byte, errorCode: Byte, parameters: Bytes, hasError: bool)
    | Err(error: StatusError)

  /** What the length field counts has to fit into sixteen bits. */
  predicate Fits(parameters: Bytes) {
    |Stuff(parameters)| + 3 < 65536
  }

  function PacketBody(packetId: Byte, instruction: Byte, parameters: Bytes): Bytes
    requires Fits(parameters)
  {
    HEADER + [packetId] + LittleEndian(1 + |Stuff(parameters)| + 2) + [instruction] + Stuff(parameters)
  }

  /** An instruction packet; nothing when the length cannot be packed. */
  function BuildInstructionPacket(packetId: Byte, instruction: Byte, parameters: Bytes): Option<Bytes> {
    if Fits(parameters)
    then Some(PacketBody(packetId, instruction, parameters)
              + LittleEndian(Checksums.Dynamixel(PacketBody(packetId, instruction, parameters))))
    else None
  }

  function ParseStatusPacket(packet: Bytes): StatusResult {
    if |packet| < 11 then Err(TooShort)
    else if packet[..4] != HEADER then Err(InvalidHeader)
    else
      var total := 7 + ReadLittleEndian(packet[5], packet[6]);
      if |packet| < total then Err(Incomplete)
      else if ReadLittleEndian(packet[total - 2], packet[total - 1]) != Checksums.Dynamixel(packet[..total - 2])
      then Err(CrcMismatch)
      else if packet[7] != STATUS then Err(NotStatus)
      else Ok(packet[4], packet[8], Unstuff(packet[9..|packet| - 2]), packet[8] != 0)
  }

  /** The status packet a device answers with. */
  function StatusPacket(packetId: Byte, errorCode: Byte, parameters: Bytes): Bytes
    requires Fits([errorCode] + parameters)
  {
    BuildInstructionPacket(packetId, STATUS, [errorCode] + parameters).value
  }

  lemma BodyParts(packetId: Byte, instruction: Byte, parameters: Bytes)
    requires Fits(parameters)
    ensures var body := PacketBody(packetId, instruction, parameters);
      && |body| == 8 + |Stuff(parameters)|
      && body[..4] == HEADER && body[4] == packetId && body[7] == instruction
      && ReadLittleEndian(body[5], body[6]) == 3 + |Stuff(parameters)|
      && body[8..] == Stuff(parameters)
  {
  }

  lemma ParseAccepts(packet: Bytes, total: nat)
    requires 11 <= total <= |packet| && packet[..4] == HEADER && packet[7] == STATUS
    requires ReadLittleEndian(packet[5], packet[6]) == total - 7
    requires ReadLittleEndian(packet[total - 2], packet[total - 1]) == Checksums.Dynamixel(packet[..total - 2])
    ensures ParseStatusPacket(packet) == Ok(packet[4], packet[8], Unstuff(packet[9..|packet| - 2]), packet[8] != 0)
  {
  }

  /** Where the parts of a packet stand. */
  lemma PacketParts(body: Bytes, crc: Bytes, trail: Bytes, packet: Bytes)
    requires |body| >= 9 && |crc| == 2 && packet == body + crc + trail
    ensures packet[..4] == body[..4] && packet[..|body|] == body
    ensures forall k :: 0 <= k < |body| ==> packet[k] == body[k]
    ensures packet[|body|] == crc[0] && packet[|body| + 1] == crc[1]
    ensures packet[9..|packet| - 2] == body[8..][1..] + (crc + trail)[..|trail|]
  {
    assert packet == body + (crc + trail);
  }

  /** What the parser makes of a checked body and the bytes behind it. */
  lemma BodyParsesTo(body: Bytes, crc: Bytes, trail: Bytes, packet: Bytes)
    requires |body| >= 9 && body[..4] == HEADER && body[7] == STATUS
    requires ReadLittleEndian(body[5], body[6]) == |body| - 5
    requires |crc| == 2 && ReadLittleEndian(crc[0], crc[1]) == Checksums.Dynamixel(body)
    requires packet == body + crc + trail
    ensures ParseStatusPacket(packet)
         == Ok(body[4], body[8], Unstuff(body[8..][1..] + (crc + trail)[..|trail|]), body[8] != 0)
  {
    PacketParts(body, crc, trail, packet);
    ParseAccepts(packet, |body| + 2);
  }

  lemma ParsesTo(packetId: Byte, errorCode: Byte, parameters: Bytes, trail: Bytes, crc: Bytes)
    requires Fits([errorCode] + parameters)
    requires crc == LittleEndian(Checksums.Dynamixel(PacketBody(packetId, STATUS, [errorCode] + parameters)))
    ensures Stuff([errorCode] + parameters) != []
    ensures ParseStatusPacket(StatusPacket(packetId, errorCode, parameters) + trail)
         == Ok(packetId, errorCode,
               Unstuff(Stuff([errorCode] + parameters)[1..] + (crc + trail)[..|trail|]), errorCode != 0)
  {
    var body := PacketBody(packetId, STATUS, [errorCode] + parameters);
    StuffHead([errorCode] + parameters);
    BodyParts(packetId, STATUS, [errorCode] + parameters);
    assert body[8] == body[8..][0];
    BodyParsesTo(body, crc, trail, StatusPacket(packetId, errorCode, parameters) + trail);
  }

  /** The error code is escaped together with the parameters when it starts a pattern. */
  predicate ErrorStartsPattern(errorCode: Byte, parameters: Bytes) {
    errorCode == 0xFF && |parameters| >= 2 && parameters[0] == 0xFF && parameters[1] == 0xFD
  }

  lemma UnstuffPlain(b: Byte, rest: Bytes)
    requires !Pattern([b] + rest)
    ensures Unstuff([b] + rest) == [b] + Unstuff(rest)
  {
    assert ([b] + rest)[1..] == rest;
  }

  lemma UnstuffShiftedBlock(rest: Bytes)
    ensures Unstuff([0xFF] + ([0xFD] + ([0xFD] + rest))) == [0xFF] + ([0xFD] + ([0xFD] + Unstuff(rest)))
  {
    UnstuffPlain(0xFD, rest);
    UnstuffPlain(0xFD, [0xFD] + rest);
    UnstuffPlain(0xFF, [0xFD] + ([0xFD] + rest));
  }

  lemma EscapedErrorLost(errorCode: Byte, parameters: Bytes, extra: Bytes)
    requires ErrorStartsPattern(errorCode, parameters)
    ensures Stuff([errorCode] + parameters) != []
    ensures Unstuff(Stuff([errorCode] + parameters)[1..] + extra) != parameters
  {
    var ps := [errorCode] + parameters;
    var rest := Stuff(parameters[2..]) + extra;
    assert ps[3..] == parameters[2..];
    assert Stuff(ps)[1..] + extra == [0xFF] + ([0xFD] + ([0xFD] + rest));
    UnstuffShiftedBlock(rest);
    UnstuffTrailing(parameters[2..], extra);
  }

  lemma PlainErrorKept(errorCode: Byte, parameters: Bytes, extra: Bytes)
    requires !ErrorStartsPattern(errorCode, parameters)
    ensures Stuff([errorCode] + parameters) != []
    ensures Unstuff(Stuff([errorCode] + parameters)[1..] + extra) == parameters <==> extra == []
  {
    assert ([errorCode] + parameters)[1..] == parameters;
    assert Stuff([errorCode] + parameters)[1..] == Stuff(parameters);
    UnstuffTrailing(parameters, extra);
    if extra == [] {
      assert Stuff(parameters) + extra == Stuff(parameters);
      UnstuffUndoesStuff(parameters);
    }
  }

  /**
    A status packet comes back as it was sent exactly when nothing follows it and its error code
    does not start a stuffed pattern.
  */
  lemma StatusRoundTrip(packetId: Byte, errorCode: Byte, parameters: Bytes, trail: Bytes)
    requires Fits([errorCode] + parameters)
    ensures ParseStatusPacket(StatusPacket(packetId, errorCode, parameters) + trail)
              == Ok(packetId, errorCode, parameters, errorCode != 0)
       <==> trail == [] && !ErrorStartsPattern(errorCode, parameters)
  {
    var crc := LittleEndian(Checksums.Dynamixel(PacketBody(packetId, STATUS, [errorCode] + parameters)));
    ParsesTo(packetId, errorCode, parameters, trail, crc);
    if ErrorStartsPattern(errorCode, parameters) {
      EscapedErrorLost(errorCode, parameters, (crc + trail)[..|trail|]);
    } else {
      PlainErrorKept(errorCode, parameters, (crc + trail)[..|trail|]);
    }
  }
}
