/**
  The framed serial protocol: start mark, sequence, command, big-endian length, payload, CRC and
  end mark, decoded from a stream that arrives in arbitrary pieces.
*/
module SerialFraming {
  import opened Wrappers
  import opened ByteWords
  import Checksums

  const SOF0: Byte := 0xAA
  const SOF1: Byte := 0x55
  const EOF0: Byte := 0x55
  const EOF1: Byte := 0xAA

  datatype Packet = Packet(sequence: Byte, command: Byte, payload: Bytes)

  /** The framing is described for any checksum; the protocol uses the CCITT one. */
  type Checksum = Bytes -> Word

  // ---------------------------------------------------------------------
  // Start marks
  // ---------------------------------------------------------------------

  predicate SofAt(s: Bytes, i: int) {
    0 <= i < |s| - 1 && s[i] == SOF0 && s[i + 1] == SOF1
  }

  ghost predicate NoSofBefore(s: Bytes, k: int) {
    forall i :: 0 <= i < k ==> !SofAt(s, i)
  }

  ghost predicate SofFree(s: Bytes) {
    NoSofBefore(s, |s|)
  }

  /** The first start mark, or -1. */
  function FindSof(s: Bytes): (k: int)
    ensures k == -1 <==> SofFree(s)
    ensures k != -1 ==> SofAt(s, k) && NoSofBefore(s, k)
  {
    FindSofFrom(s, 0)
  }

  function FindSofFrom(s: Bytes, from: nat): (k: int)
    requires NoSofBefore(s, from)
    ensures k == -1 <==> SofFree(s)
    ensures k != -1 ==> SofAt(s, k) && NoSofBefore(s, k)
    decreases |s| - from
  {
    if from >= |s| then -1 else if SofAt(s, from) then from else FindSofFrom(s, from + 1)
  }

  lemma FindSofUnique(s: Bytes, k: int)
    requires SofAt(s, k) && NoSofBefore(s, k)
    ensures FindSof(s) == k
  {
  }

  /** Skipping bytes before which no mark starts moves the first mark. */
  lemma FindSofSkips(s: Bytes, k: nat)
    requires k <= |s| && NoSofBefore(s, k)
    ensures FindSof(s) == if FindSof(s[k..]) == -1 then -1 else k + FindSof(s[k..])
  {
    forall i | 0 <= i < |s| - k
      ensures SofAt(s[k..], i) == SofAt(s, k + i)
    {
    }
    var j := FindSof(s);
    if j != -1 {
      assert j >= k;
      assert SofAt(s[k..], j - k);
      forall i | 0 <= i < j - k
        ensures !SofAt(s[k..], i)
      {
        assert !SofAt(s, k + i);
      }
      FindSofUnique(s[k..], j - k);
    } else {
      forall i | 0 <= i < |s| - k
        ensures !SofAt(s[k..], i)
      {
        assert !SofAt(s, k + i);
      }
    }
  }

  /** Bytes that arrive later cannot complete a mark except from the last byte. */
  lemma NoSofInPrefix(s: Bytes, more: Bytes, k: int)
    requires NoSofBefore(s, k) && (k < |s| || (k == |s| && (s == [] || s[|s| - 1] != SOF0)))
    ensures NoSofBefore(s + more, k)
  {
    forall i | 0 <= i < k
      ensures !SofAt(s + more, i)
    {
      assert !SofAt(s, i);
    }
  }

  // ---------------------------------------------------------------------
  // Reference: scanning everything that was received
  // ---------------------------------------------------------------------

  /** Length of the frame whose header has arrived. */
  function FrameLength(f: Bytes): (n: nat)
    requires |f| >= 6
    ensures 10 <= n <= 65545
  {
    2 + 4 + ReadBigEndian(f[4], f[5]) + 2 + 2
  }

  predicate Complete(f: Bytes) {
    |f| >= 6 && |f| >= FrameLength(f)
  }

  /** The end mark is in place and the checksum matches. */
  predicate Accepted(crc: Checksum, f: Bytes)
    requires Complete(f)
  {
    var n := FrameLength(f);
    && f[n - 2] == EOF0 && f[n - 1] == EOF1
    && ReadBigEndian(f[n - 4], f[n - 3]) == crc(f[2..n - 4])
  }

  function PacketOf(f: Bytes): Packet
    requires Complete(f)
  {
    Packet(f[2], f[3], f[6..FrameLength(f) - 4])
  }

  /** All packets in what was received so far. */
  function Scan(crc: Checksum, s: Bytes): seq<Packet>
    decreases |s|, 1
  {
    if FindSof(s) == -1 then [] else ScanFrame(crc, s[FindSof(s)..])
  }

  /** The packets from a start mark on; behind a bad frame the scan resumes after its mark. */
  function ScanFrame(crc: Checksum, f: Bytes): seq<Packet>
    requires SofAt(f, 0)
    decreases |f|, 0
  {
    if !Complete(f) then []
    else if Accepted(crc, f) then [PacketOf(f)] + Scan(crc, f[FrameLength(f)..])
    else Scan(crc, f[2..])
  }

  /** What feed keeps in its buffer. */
  function Residue(crc: Checksum, s: Bytes): Bytes
    decreases |s|, 1
  {
    if |s| < 8 then s
    else if FindSof(s) == -1 then LastSofByte(s)
    else ResidueFrame(crc, s[FindSof(s)..])
  }

  function LastSofByte(s: Bytes): Bytes {
    if s != [] && s[|s| - 1] == SOF0 then [SOF0] else []
  }

  function ResidueFrame(crc: Checksum, f: Bytes): Bytes
    requires SofAt(f, 0)
    decreases |f|, 0
  {
    if |f| < 8 || !Complete(f) then f
    else if Accepted(crc, f) then Residue(crc, f[FrameLength(f)..])
    else Residue(crc, f[2..])
  }

  lemma SliceTwice(s: Bytes, k: nat, i: nat)
    requires k <= i <= |s|
    ensures s[k..][i - k..] == s[i..]
  {
  }

  lemma ScanSkips(crc: Checksum, s: Bytes, k: nat)
    requires k <= |s| && NoSofBefore(s, k)
    ensures Scan(crc, s) == Scan(crc, s[k..])
  {
    FindSofSkips(s, k);
    var j := FindSof(s);
    if j != -1 {
      ScanFrom(crc, s, j);
      ScanFrom(crc, s[k..], j - k);
      SliceTwice(s, k, j);
    }
  }

  lemma ScanFrom(crc: Checksum, s: Bytes, j: nat)
    requires FindSof(s) == j
    ensures j <= |s| && SofAt(s[j..], 0) && Scan(crc, s) == ScanFrame(crc, s[j..])
  {
  }

  lemma ScanAtSof(crc: Checksum, f: Bytes)
    requires SofAt(f, 0)
    ensures FindSof(f) == 0 && Scan(crc, f) == ScanFrame(crc, f)
  {
    FindSofUnique(f, 0);
    assert f[0..] == f;
  }

  lemma ShortScan(crc: Checksum, s: Bytes)
    requires |s| < 10
    ensures Scan(crc, s) == []
  {
  }

  /** More bytes behind a complete frame do not change what it is. */
  lemma FramePrefix(crc: Checksum, f: Bytes, more: Bytes)
    requires Complete(f)
    ensures Complete(f + more) && FrameLength(f + more) == FrameLength(f)
    ensures Accepted(crc, f + more) == Accepted(crc, f) && PacketOf(f + more) == PacketOf(f)
    ensures (f + more)[FrameLength(f)..] == f[FrameLength(f)..] + more
    ensures (f + more)[2..] == f[2..] + more
  {
    var n := FrameLength(f);
    assert (f + more)[2..n - 4] == f[2..n - 4];
    assert (f + more)[6..n - 4] == f[6..n - 4];
  }

  /** The first mark, with or without later bytes. */
  lemma SkipToSof(crc: Checksum, s: Bytes, more: Bytes, f: Bytes)
    requires FindSof(s) != -1 && f == s[FindSof(s)..]
    ensures SofAt(f, 0) && SofAt(f + more, 0)
    ensures Scan(crc, s + more) == ScanFrame(crc, f + more)
  {
    var k := FindSof(s);
    NoSofInPrefix(s, more, k);
    ScanSkips(crc, s + more, k);
    assert (s + more)[k..] == f + more;
    ScanAtSof(crc, f + more);
  }

  lemma NothingFound(crc: Checksum, s: Bytes, more: Bytes)
    requires FindSof(s) == -1
    ensures Scan(crc, s + more) == Scan(crc, LastSofByte(s) + more)
  {
    var k := |s| - |LastSofByte(s)|;
    NoSofInPrefix(s, more, k);
    ScanSkips(crc, s + more, k);
    assert (s + more)[k..] == LastSofByte(s) + more;
  }

  /**
    Nothing is lost by keeping only the residue: whatever arrives later, the packets found in the
    whole stream are those found so far followed by those found in the residue and the rest.
  */
  lemma {:induction false} ResidueSuffices(crc: Checksum, s: Bytes, more: Bytes)
    ensures Scan(crc, s + more) == Scan(crc, s) + Scan(crc, Residue(crc, s) + more)
    decreases |s|, 1
  {
    if |s| < 8 {
      ShortScan(crc, s);
    } else if FindSof(s) == -1 {
      NothingFound(crc, s, more);
    } else {
      var f := s[FindSof(s)..];
      SkipToSof(crc, s, more, f);
      FrameResidueSuffices(crc, f, more);
    }
  }

  lemma {:induction false} FrameResidueSuffices(crc: Checksum, f: Bytes, more: Bytes)
    requires SofAt(f, 0) && SofAt(f + more, 0)
    ensures ScanFrame(crc, f + more) == ScanFrame(crc, f) + Scan(crc, ResidueFrame(crc, f) + more)
    decreases |f|, 0
  {
    if !Complete(f) {
      ScanAtSof(crc, f + more);
    } else {
      FramePrefix(crc, f, more);
      if Accepted(crc, f) {
        ResidueSuffices(crc, f[FrameLength(f)..], more);
      } else {
        ResidueSuffices(crc, f[2..], more);
      }
    }
  }

  /** Feeding nothing more finds nothing more, and the buffer stays bounded. */
  lemma {:induction false} ResidueIsSpent(crc: Checksum, s: Bytes)
    ensures Scan(crc, Residue(crc, s)) == []
    ensures |Residue(crc, s)| < 65545
    decreases |s|, 1
  {
    if |s| < 8 {
      ShortScan(crc, s);
    } else if FindSof(s) == -1 {
      ShortScan(crc, LastSofByte(s));
    } else {
      FrameResidueIsSpent(crc, s[FindSof(s)..]);
    }
  }

  lemma {:induction false} FrameResidueIsSpent(crc: Checksum, f: Bytes)
    requires SofAt(f, 0)
    ensures Scan(crc, ResidueFrame(crc, f)) == []
    ensures |ResidueFrame(crc, f)| < 65545
    decreases |f|, 0
  {
    if |f| < 8 {
      ShortScan(crc, f);
    } else if !Complete(f) {
      ScanAtSof(crc, f);
    } else if Accepted(crc, f) {
      ResidueIsSpent(crc, f[FrameLength(f)..]);
    } else {
      ResidueIsSpent(crc, f[2..]);
    }
  }

  // ---------------------------------------------------------------------
  // The stream decoder
  // ---------------------------------------------------------------------

  /** The packets and the buffer that are still to come from b are those of the whole input. */
  ghost predicate SameOutcome(crc: Checksum, packets: seq<Packet>, b: Bytes, all: Bytes) {
    packets + Scan(crc, b) == Scan(crc, all) && Residue(crc, b) == Residue(crc, all)
  }

  /** The same when b starts with a mark. */
  ghost predicate SameAtSof(crc: Checksum, packets: seq<Packet>, f: Bytes, all: Bytes) {
    && SofAt(f, 0)
    && packets + ScanFrame(crc, f) == Scan(crc, all) && ResidueFrame(crc, f) == Residue(crc, all)
  }

  lemma AtSof(crc: Checksum, packets: seq<Packet>, b: Bytes, all: Bytes, f: Bytes)
    requires SameOutcome(crc, packets, b, all) && |b| >= 8
    requires FindSof(b) != -1 && f == b[FindSof(b)..]
    ensures SameAtSof(crc, packets, f, all)
  {
    SkipToSof(crc, b, [], f);
    assert b + [] == b && f + [] == f;
  }

  lemma AfterGoodFrame(crc: Checksum, packets: seq<Packet>, f: Bytes, all: Bytes)
    requires SameAtSof(crc, packets, f, all) && |f| >= 8 && Complete(f) && Accepted(crc, f)
    ensures SameOutcome(crc, packets + [PacketOf(f)], f[FrameLength(f)..], all)
  {
  }

  lemma AfterBadFrame(crc: Checksum, packets: seq<Packet>, f: Bytes, all: Bytes)
    requires SameAtSof(crc, packets, f, all) && |f| >= 8 && Complete(f) && !Accepted(crc, f)
    ensures SameOutcome(crc, packets, f[2..], all)
  {
  }

  lemma StillWaiting(crc: Checksum, packets: seq<Packet>, f: Bytes, all: Bytes)
    requires SameAtSof(crc, packets, f, all) && (|f| < 8 || !Complete(f))
    ensures packets == Scan(crc, all) && f == Residue(crc, all)
  {
  }

  lemma NoMoreMarks(crc: Checksum, packets: seq<Packet>, b: Bytes, all: Bytes)
    requires SameOutcome(crc, packets, b, all) && (|b| < 8 || FindSof(b) == -1)
    ensures packets == Scan(crc, all)
    ensures Residue(crc, all) == if |b| < 8 then b else LastSofByte(b)
  {
    if |b| < 8 {
      ShortScan(crc, b);
    }
  }

  class SerialFramedProtocol {
    const crc: Checksum
    var buffer: Bytes

    constructor (crc: Checksum)
      ensures buffer == [] && this.crc == crc
    {
      this.crc := crc;
      buffer := [];
    }

    method Feed(data: Bytes) returns (packets: seq<Packet>)
      modifies this
      ensures packets == Scan(crc, old(buffer) + data)
      ensures buffer == Residue(crc, old(buffer) + data)
    {
      buffer := buffer + data;
      ghost var all := buffer;
      packets := [];
      while |buffer| >= 8
        invariant SameOutcome(crc, packets, buffer, all)
        decreases |buffer|
      {
        var sofIndex := FindSof(buffer);
        if sofIndex == -1 {
          NoMoreMarks(crc, packets, buffer, all);
          if |buffer| > 0 && buffer[|buffer| - 1] == SOF0 {
            buffer := buffer[|buffer| - 1..];
          } else {
            buffer := [];
          }
          return;
        }
        AtSof(crc, packets, buffer, all, buffer[sofIndex..]);
        if sofIndex > 0 {
          buffer := buffer[sofIndex..];
        } else {
          assert buffer[0..] == buffer;
        }
        if |buffer| < 8 {
          StillWaiting(crc, packets, buffer, all);
          return;
        }
        var total := 2 + 4 + ReadBigEndian(buffer[4], buffer[5]) + 2 + 2;
        if |buffer| < total {
          StillWaiting(crc, packets, buffer, all);
          return;
        }
        var payload := buffer[6..total - 4];
        if [buffer[total - 2], buffer[total - 1]] != [EOF0, EOF1] {
          AfterBadFrame(crc, packets, buffer, all);
          buffer := buffer[2..];
          continue;
        }
        if crc(buffer[2..total - 4]) != ReadBigEndian(buffer[total - 4], buffer[total - 3]) {
          AfterBadFrame(crc, packets, buffer, all);
          buffer := buffer[2..];
          continue;
        }
        AfterGoodFrame(crc, packets, buffer, all);
        packets := packets + [Packet(buffer[2], buffer[3], payload)];
        buffer := buffer[total..];
      }
      NoMoreMarks(crc, packets, buffer, all);
    }
  }

  // ---------------------------------------------------------------------
  // Any chunking finds the same packets
  // ---------------------------------------------------------------------

  /** The packets that successive calls of feed return in total. */
  function FeedAll(crc: Checksum, buffer: Bytes, chunks: seq<Bytes>): seq<Packet>
    decreases |chunks|
  {
    if chunks == [] then []
    else Scan(crc, buffer + chunks[0]) + FeedAll(crc, Residue(crc, buffer + chunks[0]), chunks[1..])
  }

  lemma OneChunk(crc: Checksum, buffer: Bytes, chunk: Bytes, rest: Bytes)
    ensures Scan(crc, buffer + (chunk + rest))
         == Scan(crc, buffer + chunk) + Scan(crc, Residue(crc, buffer + chunk) + rest)
  {
    ResidueSuffices(crc, buffer + chunk, rest);
    assert buffer + chunk + rest == buffer + (chunk + rest);
  }

  lemma {:induction false} ChunkingFrom(crc: Checksum, buffer: Bytes, chunks: seq<Bytes>)
    requires Scan(crc, buffer) == []
    ensures FeedAll(crc, buffer, chunks) == Scan(crc, buffer + Concat(chunks))
    decreases |chunks|
  {
    if chunks == [] {
      assert buffer + Concat(chunks) == buffer;
    } else {
      ResidueIsSpent(crc, buffer + chunks[0]);
      ChunkingFrom(crc, Residue(crc, buffer + chunks[0]), chunks[1..]);
      OneChunk(crc, buffer, chunks[0], Concat(chunks[1..]));
    }
  }

  /** Decoding a stream gives the same packets in total however it is cut into pieces. */
  lemma ChunkingIrrelevant(crc: Checksum, chunks: seq<Bytes>)
    ensures FeedAll(crc, [], chunks) == Scan(crc, Concat(chunks))
  {
    ShortScan(crc, []);
    ChunkingFrom(crc, [], chunks);
    assert [] + Concat(chunks) == Concat(chunks);
  }

  // ---------------------------------------------------------------------
  // Encoding
  // ---------------------------------------------------------------------

  /** The length has to fit into its two bytes. */
  predicate Encodable(p: Packet) {
    |p.payload| < 65536
  }

  function Checked(p: Packet): Bytes
    requires Encodable(p)
  {
    [p.sequence, p.command] + BigEndian(|p.payload|) + p.payload
  }

  function Frame(crc: Checksum, p: Packet): Bytes
    requires Encodable(p)
  {
    [SOF0, SOF1] + Checked(p) + BigEndian(crc(Checked(p))) + [EOF0, EOF1]
  }

  /** Sequence and command are cut down to a byte; too long a payload cannot be packed. */
  function EncodeFrame(crc: Checksum, sequence: int, command: int, payload: Bytes): Option<Bytes> {
    if |payload| < 65536
    then Some(Frame(crc, Packet(sequence % 256, command % 256, payload)))
    else None
  }

  lemma FrameLayout(p: Packet, sum: Bytes, f: Bytes)
    requires Encodable(p) && |sum| == 2 && f == [SOF0, SOF1] + Checked(p) + sum + [EOF0, EOF1]
    ensures |f| == |p.payload| + 10 && SofAt(f, 0)
    ensures f[2] == p.sequence && f[3] == p.command
    ensures f[4] == BigEndian(|p.payload|)[0] && f[5] == BigEndian(|p.payload|)[1]
    ensures f[6..|f| - 4] == p.payload && f[2..|f| - 4] == Checked(p)
    ensures f[|f| - 4] == sum[0] && f[|f| - 3] == sum[1] && f[|f| - 2] == EOF0 && f[|f| - 1] == EOF1
  {
  }

  /** A frame is read back as the packet it was made from. */
  lemma FrameDecodes(crc: Checksum, p: Packet, f: Bytes)
    requires Encodable(p) && f == Frame(crc, p)
    ensures SofAt(f, 0) && Complete(f) && FrameLength(f) == |f| && Accepted(crc, f) && PacketOf(f) == p
  {
    FrameLayout(p, BigEndian(crc(Checked(p))), f);
  }

  /** Packets sent with noise before each of them. */
  function Stream(crc: Checksum, noise: seq<Bytes>, packets: seq<Packet>): Bytes
    requires |noise| == |packets|
    requires forall p <- packets :: Encodable(p)
  {
    if packets == [] then [] else noise[0] + (Frame(crc, packets[0]) + Stream(crc, noise[1..], packets[1..]))
  }

  lemma SkipNoise(crc: Checksum, noise: Bytes, f: Bytes)
    requires SofFree(noise) && SofAt(f, 0)
    ensures Scan(crc, noise + f) == ScanFrame(crc, f)
  {
    forall i | 0 <= i < |noise|
      ensures !SofAt(noise + f, i)
    {
      assert !SofAt(noise, i);
      assert (noise + f)[|noise|] == SOF0;
    }
    ScanSkips(crc, noise + f, |noise|);
    assert (noise + f)[|noise|..] == f;
    ScanAtSof(crc, f);
  }

  lemma ScanStep(crc: Checksum, noise: Bytes, p: Packet, rest: Bytes)
    requires SofFree(noise) && Encodable(p)
    ensures Scan(crc, noise + (Frame(crc, p) + rest)) == [p] + Scan(crc, rest)
  {
    var f := Frame(crc, p);
    FrameDecodes(crc, p, f);
    FramePrefix(crc, f, rest);
    SkipNoise(crc, noise, f + rest);
    assert f[|f|..] + rest == rest;
  }

  /** Each start mark in front of position n introduces a frame that has arrived and is rejected. */
  ghost predicate Misleads(crc: Checksum, s: Bytes, n: nat) {
    forall i :: 0 <= i < n && SofAt(s, i) ==> Complete(s[i..]) && !Accepted(crc, s[i..])
  }

  lemma MisleadsBehind(crc: Checksum, s: Bytes, n: nat, k: nat)
    requires k <= n <= |s| && Misleads(crc, s, n)
    ensures Misleads(crc, s[k..], n - k)
  {
    forall i | 0 <= i < n - k && SofAt(s[k..], i)
      ensures Complete(s[k..][i..]) && !Accepted(crc, s[k..][i..])
    {
      SliceTwice(s, k, k + i);
      assert SofAt(s, k + i);
    }
  }

  lemma FrameInFront(crc: Checksum, p: Packet, f: Bytes, s: Bytes)
    requires Encodable(p) && f == Frame(crc, p) && f <= s
    ensures Scan(crc, s) == [p] + Scan(crc, s[|f|..])
  {
    FrameDecodes(crc, p, f);
    assert s == f + s[|f|..];
    FramePrefix(crc, f, s[|f|..]);
    ScanAtSof(crc, s);
  }

  lemma FrameFound(crc: Checksum, s: Bytes, n: nat, p: Packet, f: Bytes, at: Bytes, rest: Bytes)
    requires Encodable(p) && f == Frame(crc, p) && FindSof(s) == n && n <= |s| && at == s[n..]
    requires f <= at && rest == at[|f|..]
    ensures FindsFirst(crc, s, p, rest)
  {
    FrameInFront(crc, p, f, at);
    ScanFrom(crc, s, n);
    ScanAtSof(crc, at);
  }

  /** Behind the mark of a rejected frame, the scan starts over. */
  lemma MarkSkipped(crc: Checksum, s: Bytes, k: nat)
    requires FindSof(s) == k && k + 2 <= |s| && Complete(s[k..]) && !Accepted(crc, s[k..])
    ensures Scan(crc, s) == Scan(crc, s[k + 2..])
  {
    ScanFrom(crc, s, k);
    SliceTwice(s, k, k + 2);
  }

  /** There is a mark at n, and marks do not overlap. */
  lemma MarkBefore(s: Bytes, n: nat, f: Bytes)
    requires n <= |s| && f <= s[n..] && SofAt(f, 0)
    ensures var k := FindSof(s); 0 <= k <= n && (k < n ==> k + 2 <= n)
  {
    assert s[n] == f[0] && s[n + 1] == f[1];
    assert SofAt(s, n);
  }

  /** The first packet found is p, and the others are those of the rest. */
  ghost predicate FindsFirst(crc: Checksum, s: Bytes, p: Packet, rest: Bytes) {
    Scan(crc, s) == [p] + Scan(crc, rest)
  }

  lemma FindsAsWell(crc: Checksum, s: Bytes, t: Bytes, p: Packet, rest: Bytes)
    requires Scan(crc, s) == Scan(crc, t) && FindsFirst(crc, t, p, rest)
    ensures FindsFirst(crc, s, p, rest)
  {
  }

  /**
    A good frame is found behind any bytes whose start marks mislead, even when a rejected frame would
    reach into it.
  */
  lemma {:induction false} FrameAfterGarbage(crc: Checksum, s: Bytes, n: nat, p: Packet, f: Bytes, rest: Bytes)
    requires Encodable(p) && f == Frame(crc, p) && n <= |s| && f <= s[n..] && rest == s[n..][|f|..]
    requires Misleads(crc, s, n)
    ensures FindsFirst(crc, s, p, rest)
    decreases n
  {
    FrameDecodes(crc, p, f);
    MarkBefore(s, n, f);
    var k := FindSof(s);
    if k == n {
      FrameFound(crc, s, n, p, f, s[n..], rest);
    } else {
      var behind := s[k + 2..];
      MarkSkipped(crc, s, k);
      SliceTwice(s, k + 2, n);
      MisleadsBehind(crc, s, n, k + 2);
      FrameAfterGarbage(crc, behind, n - (k + 2), p, f, rest);
      FindsAsWell(crc, s, behind, p, rest);
    }
  }

  /** Frames separated by noise without a start mark come back exactly and in order. */
  lemma {:induction false} StreamDecodes(crc: Checksum, noise: seq<Bytes>, packets: seq<Packet>, tail: Bytes)
    requires |noise| == |packets|
    requires (forall p <- packets :: Encodable(p)) && (forall n <- noise :: SofFree(n)) && SofFree(tail)
    ensures Scan(crc, Stream(crc, noise, packets) + tail) == packets
    decreases |packets|
  {
    if packets == [] {
      assert Stream(crc, noise, packets) + tail == tail;
    } else {
      var rest := Stream(crc, noise[1..], packets[1..]);
      StreamDecodes(crc, noise[1..], packets[1..], tail);
      ScanStep(crc, noise[0], packets[0], rest + tail);
      var f := Frame(crc, packets[0]);
      assert noise[0] + (f + (rest + tail)) == noise[0] + (f + rest) + tail;
      assert packets == [packets[0]] + packets[1..];
    }
  }

  /** What is encoded from any numbers comes back with both cut down to a byte, and leaves nothing behind. */
  lemma EncodedFrameArrives(crc: Checksum, sequence: int, command: int, payload: Bytes)
    ensures EncodeFrame(crc, sequence, command, payload).Some? <==> |payload| < 65536
    ensures EncodeFrame(crc, sequence, command, payload).Some? ==>
      var f := EncodeFrame(crc, sequence, command, payload).value;
      Scan(crc, f) == [Packet(sequence % 256, command % 256, payload)] && Residue(crc, f) == []
  {
    if |payload| < 65536 {
      var p := Packet(sequence % 256, command % 256, payload);
      var f := Frame(crc, p);
      FrameDecodes(crc, p, f);
      ScanAtSof(crc, f);
      assert f[|f|..] == [];
      assert f[0..] == f;
      assert Residue(crc, f) == ResidueFrame(crc, f);
      assert Residue(crc, []) == [];
    }
  }

  /** The same through feed, for every way of cutting the stream. */
  lemma RoundTrip(crc: Checksum, noise: seq<Bytes>, packets: seq<Packet>, tail: Bytes, chunks: seq<Bytes>)
    requires |noise| == |packets|
    requires (forall p <- packets :: Encodable(p)) && (forall n <- noise :: SofFree(n)) && SofFree(tail)
    requires Concat(chunks) == Stream(crc, noise, packets) + tail
    ensures FeedAll(crc, [], chunks) == packets
  {
    ChunkingIrrelevant(crc, chunks);
    StreamDecodes(crc, noise, packets, tail);
  }

  // ---------------------------------------------------------------------
  // Errors
  // ---------------------------------------------------------------------

  /** The checksum notices every change of exactly one byte. */
  ghost predicate DetectsOneByte(crc: Checksum) {
    forall a: Bytes, b: Bytes, k: nat ::
      |a| == |b| && k < |a| && a[k] != b[k] && b == a[k := b[k]] ==> crc(a) != crc(b)
  }

  lemma OneByteOfSlice(f: Bytes, k: nat, b: Byte, end: nat)
    requires 2 <= k < end <= |f|
    ensures f[k := b][2..end] == f[2..end][k - 2 := b] && f[k := b][2..end][k - 2] == b
  {
  }

  /** A frame with one byte of sequence, command or payload changed is not accepted. */
  lemma CorruptedFrameRejected(crc: Checksum, p: Packet, k: nat, b: Byte, f: Bytes)
    requires DetectsOneByte(crc) && Encodable(p) && f == Frame(crc, p)
    requires 6 <= k < 6 + |p.payload| || k == 2 || k == 3
    requires f[k] != b
    ensures Complete(f[k := b]) && !Accepted(crc, f[k := b])
  {
    var g := f[k := b];
    FrameLayout(p, BigEndian(crc(Checked(p))), f);
    FrameDecodes(crc, p, f);
    var x, y := f[2..|f| - 4], g[2..|f| - 4];
    OneByteOfSlice(f, k, b, |f| - 4);
    assert crc(x) != crc(y);
  }

  /** The checksum of the protocol. */
  lemma CcittDetectsOneByte()
    ensures DetectsOneByte(Checksums.Ccitt)
  {
    forall a: Bytes, b: Bytes, k: nat | |a| == |b| && k < |a| && a[k] != b[k] && b == a[k := b[k]]
      ensures Checksums.Ccitt(a) != Checksums.Ccitt(b)
    {
      Checksums.OneByteErrorDetected(a, b, k);
    }
  }
}
