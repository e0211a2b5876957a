/**
  The buffer loop of a stream client, for any decoder of single packets: bytes arrive in pieces,
  and complete packets are handled in order.
*/
module PacketStream {
  import opened ByteWords

  /** What a decoder says about the front of a buffer; Crash is an exception the loop does not catch. */
  datatype Result<P> = NeedMore | Complete(packet: P, consumed: nat) | Malformed | Crash

  type Decoder<!P> = Bytes -> Result<P>

  /** What is handled, what stays buffered, and whether the loop survived. */
  datatype Round<P> = Round(packets: seq<P>, buffer: Bytes, alive: bool)

  function Drop(buffer: Bytes, n: nat): Bytes {
    if n <= |buffer| then buffer[n..] else []
  }

  function Drain<P>(decode: Decoder<P>, buffer: Bytes): Round<P>
    decreases |buffer|
  {
    if buffer == [] then Round([], [], true)
    else
      match decode(buffer)
      case NeedMore => Round([], buffer, true)
      case Malformed => Round([], [], true)
      case Crash => Round([], buffer, false)
      case Complete(p, n) =>
        if n == 0 then Round([], buffer, true)
        else
          var later := Drain(decode, Drop(buffer, n));
          Round([p] + later.packets, later.buffer, later.alive)
  }

  class Reader<P> {
    const decode: Decoder<P>
    var buffer: Bytes
    var alive: bool

    constructor (decode: Decoder<P>)
      ensures buffer == [] && alive && this.decode == decode
    {
      this.decode := decode;
      buffer, alive := [], true;
    }

    /** Handles one chunk; the packets are returned in the order in which they are handled. */
    method Receive(chunk: Bytes) returns (packets: seq<P>)
      requires alive
      modifies this
      ensures Round(packets, buffer, alive) == Drain(decode, old(buffer) + chunk)
    {
      buffer := buffer + chunk;
      ghost var all := buffer;
      packets := [];
      while buffer != []
        invariant alive
        invariant var later := Drain(decode, buffer);
          Drain(decode, all) == Round(packets + later.packets, later.buffer, later.alive)
        decreases |buffer|
      {
        var result := decode(buffer);
        if result.Malformed? {
          buffer := [];
          break;
        }
        if result.Crash? {
          alive := false;
          return;
        }
        if result.NeedMore? || result.consumed == 0 {
          return;
        }
        assert packets + [result.packet] + Drain(decode, Drop(buffer, result.consumed)).packets
            == packets + Drain(decode, buffer).packets;
        buffer := Drop(buffer, result.consumed);
        packets := packets + [result.packet];
      }
    }
  }

  // ---------------------------------------------------------------------
  // Independence of the chunking
  // ---------------------------------------------------------------------

  /** A verdict is about bytes that are there, and more bytes do not change it. */
  ghost predicate Final<P>(decode: Decoder<P>, s: Bytes) {
    !decode(s).NeedMore? ==>
      && (decode(s).Complete? ==> 0 < decode(s).consumed <= |s|)
      && forall more: Bytes :: decode(s + more) == decode(s)
  }

  ghost predicate Lawful<P>(decode: Decoder<P>) {
    forall s: Bytes :: Final(decode, s)
  }

  /** Nothing in the stream is refused. */
  predicate Clean<P>(decode: Decoder<P>, s: Bytes)
    decreases |s|
  {
    s == [] ||
    match decode(s)
    case NeedMore => true
    case Malformed => false
    case Crash => false
    case Complete(_, n) => n > 0 && Clean(decode, Drop(s, n))
  }

  /** The packets handled in total; a loop that died handles no more. */
  function ReceiveAll<P>(decode: Decoder<P>, buffer: Bytes, chunks: seq<Bytes>): seq<P>
    decreases |chunks|
  {
    if chunks == [] then []
    else
      var round := Drain(decode, buffer + chunks[0]);
      round.packets + if round.alive then ReceiveAll(decode, round.buffer, chunks[1..]) else []
  }

  lemma SameVerdict<P>(decode: Decoder<P>, s: Bytes, more: Bytes)
    requires Lawful(decode) && !decode(s).NeedMore?
    ensures decode(s + more) == decode(s)
    ensures decode(s).Complete? ==> 0 < decode(s).consumed <= |s|
    ensures decode(s).Complete? ==>
      Drop(s, decode(s).consumed) + more == Drop(s + more, decode(s).consumed)
  {
    assert Final(decode, s);
    if decode(s).Complete? {
      var n := decode(s).consumed;
      assert (s + more)[n..] == s[n..] + more;
    }
  }

  /** Draining early and then again handles the same packets as draining once. */
  lemma {:induction false} DrainInTwo<P>(decode: Decoder<P>, s: Bytes, more: Bytes)
    requires Lawful(decode) && Clean(decode, s + more)
    ensures var first := Drain(decode, s);
      && first.alive && Clean(decode, first.buffer + more)
      && Drain(decode, s + more).packets == first.packets + Drain(decode, first.buffer + more).packets
      && Drain(decode, first.buffer).packets == []
    decreases |s|
  {
    if s != [] && !decode(s).NeedMore? {
      SameVerdict(decode, s, more);
      if decode(s).Complete? {
        DrainInTwo(decode, Drop(s, decode(s).consumed), more);
      }
    }
  }

  lemma {:induction false} ChunkingFrom<P>(decode: Decoder<P>, buffer: Bytes, chunks: seq<Bytes>)
    requires Lawful(decode) && Clean(decode, buffer + Concat(chunks)) && Drain(decode, buffer).packets == []
    ensures ReceiveAll(decode, buffer, chunks) == Drain(decode, buffer + Concat(chunks)).packets
    decreases |chunks|
  {
    if chunks == [] {
      assert buffer + Concat(chunks) == buffer;
    } else {
      var s := buffer + chunks[0];
      var rest := Concat(chunks[1..]);
      assert s + rest == buffer + Concat(chunks);
      DrainInTwo(decode, s, rest);
      ChunkingFrom(decode, Drain(decode, s).buffer, chunks[1..]);
    }
  }

  /** A stream without refused bytes is handled the same however it is cut into chunks. */
  lemma ChunkingIrrelevant<P>(decode: Decoder<P>, chunks: seq<Bytes>)
    requires Lawful(decode) && Clean(decode, Concat(chunks))
    ensures ReceiveAll(decode, [], chunks) == Drain(decode, Concat(chunks)).packets
  {
    assert [] + Concat(chunks) == Concat(chunks);
    ChunkingFrom(decode, [], chunks);
  }

  // ---------------------------------------------------------------------
  // When exactly the chunking does not matter
  // ---------------------------------------------------------------------

  /** A packet is decided by the bytes it consumes. */
  ghost predicate DecidedEarly<P>(decode: Decoder<P>, s: Bytes) {
    decode(s).Complete? && decode(s).consumed <= |s| ==> decode(s[..decode(s).consumed]) == decode(s)
  }

  ghost predicate Prompt<P>(decode: Decoder<P>) {
    forall s: Bytes :: DecidedEarly(decode, s)
  }

  /** The complete packets at the front. */
  function Lead<P>(decode: Decoder<P>, s: Bytes): seq<P>
    decreases |s|
  {
    if s == [] || !decode(s).Complete? || decode(s).consumed == 0 then []
    else [decode(s).packet] + Lead(decode, Drop(s, decode(s).consumed))
  }

  /** What is left behind them. */
  function Rest<P>(decode: Decoder<P>, s: Bytes): (r: Bytes)
    ensures |r| <= |s|
    decreases |s|
  {
    if s == [] || !decode(s).Complete? || decode(s).consumed == 0 then s
    else Rest(decode, Drop(s, decode(s).consumed))
  }

  /** A chunk that ends behind the first k bytes gets them refused, and a packet starts right there. */
  ghost predicate ResumesAt<P>(decode: Decoder<P>, r: Bytes, k: int) {
    0 < k < |r| && decode(r[..k]) == Malformed && decode(r[k..]).Complete?
  }

  /** No packet starts behind a refused part of r. */
  ghost predicate Harmless<P>(decode: Decoder<P>, r: Bytes) {
    forall k: int :: !ResumesAt(decode, r, k)
  }

  function Settle<P>(decode: Decoder<P>, lead: seq<P>, r: Bytes): Round<P> {
    if r == [] || decode(r) == Malformed then Round(lead, [], true) else Round(lead, r, decode(r) != Crash)
  }

  /** Draining handles the leading packets and then looks at the rest once. */
  lemma {:induction false} DrainIsLead<P>(decode: Decoder<P>, s: Bytes)
    requires Lawful(decode)
    ensures Drain(decode, s) == Settle(decode, Lead(decode, s), Rest(decode, s))
    ensures Rest(decode, s) == [] || !decode(Rest(decode, s)).Complete?
    decreases |s|
  {
    assert Final(decode, s);
    if s != [] && decode(s).Complete? {
      DrainIsLead(decode, Drop(s, decode(s).consumed));
    }
  }

  lemma {:induction false} LeadInTwo<P>(decode: Decoder<P>, x: Bytes, more: Bytes)
    requires Lawful(decode)
    ensures Lead(decode, x + more) == Lead(decode, x) + Lead(decode, Rest(decode, x) + more)
    ensures Rest(decode, x + more) == Rest(decode, Rest(decode, x) + more)
    decreases |x|
  {
    if x != [] && decode(x).Complete? {
      SameVerdict(decode, x, more);
      LeadInTwo(decode, Drop(x, decode(x).consumed), more);
    }
  }

  lemma NoLead<P>(decode: Decoder<P>, r: Bytes)
    requires r == [] || !decode(r).Complete?
    ensures Lead(decode, r) == [] && Rest(decode, r) == r
  {
  }

  /** Behind refused bytes nothing more is handled when no packet starts at a place where a chunk may end. */
  lemma {:induction false} NothingAfterRefusal<P>(
    decode: Decoder<P>, r: Bytes, k: nat, buffer: Bytes, chunks: seq<Bytes>)
    requires Lawful(decode) && Harmless(decode, r)
    requires 0 < k <= |r| && decode(r[..k]) == Malformed && buffer + Concat(chunks) == r[k..]
    ensures ReceiveAll(decode, buffer, chunks) == []
    decreases |chunks|
  {
    if chunks != [] {
      var x, later := buffer + chunks[0], Concat(chunks[1..]);
      assert x + later == r[k..];
      if x != [] && !decode(x).NeedMore? {
        SameVerdict(decode, x, later);
        assert !ResumesAt(decode, r, k);
      }
      var k' := if x != [] && decode(x).Malformed? then k + |x| else k;
      SameVerdict(decode, r[..k], r[k..k']);
      assert r[..k'] == r[..k] + r[k..k'];
      assert r[k'..] == (if k' == k then r[k..] else r[k..][|x|..]);
      if x == [] || !decode(x).Crash? {
        NothingAfterRefusal(decode, r, k', Drain(decode, x).buffer, chunks[1..]);
      }
    }
  }

  lemma {:induction false} HarmlessFrom<P>(decode: Decoder<P>, buffer: Bytes, chunks: seq<Bytes>)
    requires Lawful(decode) && Lead(decode, buffer) == []
    requires Harmless(decode, Rest(decode, buffer + Concat(chunks)))
    ensures ReceiveAll(decode, buffer, chunks) == Lead(decode, buffer + Concat(chunks))
    decreases |chunks|, 0
  {
    if chunks == [] {
      assert buffer + Concat(chunks) == buffer;
    } else {
      var x, later := buffer + chunks[0], Concat(chunks[1..]);
      assert x + later == buffer + Concat(chunks);
      LeadInTwo(decode, x, later);
      RestHasNoLead(decode, x);
      HarmlessStep(decode, Rest(decode, x), later, chunks[1..]);
      FirstChunk(decode, buffer, chunks);
    }
  }

  lemma RestHasNoLead<P>(decode: Decoder<P>, x: Bytes)
    requires Lawful(decode)
    ensures Rest(decode, x) == [] || !decode(Rest(decode, x)).Complete?
  {
    DrainIsLead(decode, x);
  }

  lemma FirstChunk<P>(decode: Decoder<P>, buffer: Bytes, chunks: seq<Bytes>)
    requires Lawful(decode) && chunks != []
    ensures var x := buffer + chunks[0];
      var round := Settle(decode, [], Rest(decode, x));
      ReceiveAll(decode, buffer, chunks)
      == Lead(decode, x) + if round.alive then ReceiveAll(decode, round.buffer, chunks[1..]) else []
  {
    DrainIsLead(decode, buffer + chunks[0]);
  }

  /** The step behind the first chunk: r is what its leading packets left. */
  lemma {:induction false} HarmlessStep<P>(decode: Decoder<P>, r: Bytes, later: Bytes, chunks: seq<Bytes>)
    requires Lawful(decode) && (r == [] || !decode(r).Complete?) && later == Concat(chunks)
    requires Harmless(decode, Rest(decode, r + later))
    ensures var round := Settle(decode, [], r);
      (if round.alive then ReceiveAll(decode, round.buffer, chunks) else []) == Lead(decode, r + later)
    decreases |chunks|, 1
  {
    if r == [] || decode(r).NeedMore? {
      NoLead(decode, r);
      HarmlessFrom(decode, r, chunks);
    } else {
      SameVerdict(decode, r, later);
      NoLead(decode, r + later);
      if decode(r).Malformed? {
        assert (r + later)[..|r|] == r && (r + later)[|r|..] == [] + later;
        NothingAfterRefusal(decode, r + later, |r|, [], chunks);
      }
    }
  }

  lemma FirstLeads<P>(decode: Decoder<P>, s: Bytes, n: nat)
    requires s != [] && decode(s).Complete? && n == decode(s).consumed && n > 0
    ensures Lead(decode, s) == [decode(s).packet] + Lead(decode, Drop(s, n))
    ensures Rest(decode, s) == Rest(decode, Drop(s, n))
  {
  }

  /** The bytes of a packet with anything behind them. */
  lemma PacketAndMore<P>(decode: Decoder<P>, s: Bytes, w: Bytes, a: Bytes)
    requires Lawful(decode) && Prompt(decode) && decode(s).Complete? && s != []
    requires decode(s).consumed <= |s| && w == s[..decode(s).consumed]
    ensures w != [] && Lead(decode, w + a) == [decode(s).packet] + Lead(decode, a)
    ensures Rest(decode, w + a) == Rest(decode, a)
  {
    assert Final(decode, s);
    assert DecidedEarly(decode, s);
    SameVerdict(decode, w, a);
    assert Drop(w + a, |w|) == a;
    FirstLeads(decode, w + a, |w|);
  }

  /** Cut behind the leading packets, or behind a refused part of the rest, the leading packets are the same. */
  lemma {:induction false} CutLead<P>(decode: Decoder<P>, s: Bytes, k: nat) returns (a: Bytes, b: Bytes)
    requires Lawful(decode) && Prompt(decode) && k <= |Rest(decode, s)|
    requires k > 0 ==> !decode(Rest(decode, s)[..k]).Complete?
    ensures a + b == s && b == Rest(decode, s)[k..]
    ensures Lead(decode, a) == Lead(decode, s) && Rest(decode, a) == Rest(decode, s)[..k]
    decreases |s|
  {
    if s != [] && decode(s).Complete? {
      assert Final(decode, s);
      var n := decode(s).consumed;
      FirstLeads(decode, s, n);
      a, b := CutLead(decode, Drop(s, n), k);
      PacketAndMore(decode, s, s[..n], a);
      AddFront(s, n, a, b);
      a := s[..n] + a;
    } else {
      a, b := s[..k], s[k..];
    }
  }

  lemma AddFront(s: Bytes, n: nat, a: Bytes, b: Bytes)
    requires n <= |s| && a + b == s[n..]
    ensures s[..n] + a + b == s
  {
    assert s == s[..n] + s[n..];
  }

  lemma TwoChunks<P>(decode: Decoder<P>, a: Bytes, b: Bytes)
    requires Drain(decode, a).alive && Drain(decode, a).buffer == []
    ensures Concat([a] + ([b] + [])) == a + b
    ensures ReceiveAll(decode, [], [a] + ([b] + [])) == Drain(decode, a).packets + Drain(decode, b).packets
  {
    assert ([a] + ([b] + []))[1..] == [b] + [];
    assert [] + a == a && [] + b == b && b + [] == b;
    ReceiveOne(decode, [], a, [b] + []);
    OneChunk(decode, b);
  }

  lemma OneChunk<P>(decode: Decoder<P>, b: Bytes)
    ensures ReceiveAll(decode, [], [b] + []) == Drain(decode, b).packets && Concat([b] + []) == b
  {
    var none: seq<Bytes> := [];
    assert ([b] + [])[1..] == none;
    assert [] + b == b && b + [] == b;
    assert ReceiveAll(decode, Drain(decode, b).buffer, none) == [];
  }

  lemma CompleteIsHandled<P>(decode: Decoder<P>, b: Bytes)
    requires Lawful(decode) && b != [] && decode(b).Complete?
    ensures |Drain(decode, b).packets| > 0
  {
    assert Final(decode, b);
  }

  /** Cut behind the refused part: draining up to there handles the same packets as draining all. */
  lemma DrainToCut<P>(decode: Decoder<P>, s: Bytes, k: nat) returns (a: Bytes, b: Bytes)
    requires Lawful(decode) && Prompt(decode) && ResumesAt(decode, Rest(decode, s), k)
    ensures a + b == s && b != [] && decode(b).Complete?
    ensures Drain(decode, a) == Round(Drain(decode, s).packets, [], true)
  {
    a, b := CutLead(decode, s, k);
    LeadDrained(decode, s);
    RefusedDrained(decode, a, Drain(decode, s).packets, Rest(decode, a));
  }

  lemma LeadDrained<P>(decode: Decoder<P>, s: Bytes)
    requires Lawful(decode)
    ensures Drain(decode, s).packets == Lead(decode, s)
  {
    DrainIsLead(decode, s);
  }

  lemma RefusedDrained<P>(decode: Decoder<P>, a: Bytes, lead: seq<P>, r: Bytes)
    requires Lawful(decode) && Lead(decode, a) == lead && Rest(decode, a) == r && decode(r) == Malformed
    ensures Drain(decode, a) == Round(lead, [], true)
  {
    DrainIsLead(decode, a);
  }

  /** Where a packet starts behind refused bytes, cutting there handles one packet more. */
  lemma CutHandlesMore<P>(decode: Decoder<P>, s: Bytes, k: nat) returns (chunks: seq<Bytes>)
    requires Lawful(decode) && Prompt(decode) && ResumesAt(decode, Rest(decode, s), k)
    ensures Concat(chunks) == s && |ReceiveAll(decode, [], chunks)| > |Drain(decode, s).packets|
  {
    var a, b := DrainToCut(decode, s, k);
    chunks := SecondHandled(decode, s, a, b);
  }

  /** A packet that starts the second of two chunks is handled after all of the first. */
  lemma SecondHandled<P>(decode: Decoder<P>, s: Bytes, a: Bytes, b: Bytes) returns (chunks: seq<Bytes>)
    requires Lawful(decode) && a + b == s && Drain(decode, a).alive && Drain(decode, a).buffer == []
    requires b != [] && decode(b).Complete?
    ensures Concat(chunks) == s && |ReceiveAll(decode, [], chunks)| > |Drain(decode, a).packets|
  {
    TwoChunks(decode, a, b);
    CompleteIsHandled(decode, b);
    chunks := [a] + ([b] + []);
  }

  /** Cut into these chunks, the stream s is handled as if it came at once. */
  ghost predicate SameAsAtOnce<P>(decode: Decoder<P>, s: Bytes, chunks: seq<Bytes>) {
    Concat(chunks) == s ==> ReceiveAll(decode, [], chunks) == Drain(decode, s).packets
  }

  ghost predicate Unaffected<P>(decode: Decoder<P>, s: Bytes) {
    forall chunks: seq<Bytes> :: SameAsAtOnce(decode, s, chunks)
  }

  /**
    Every way of cutting a stream into chunks handles the same packets, exactly when no packet
    starts behind a refused part of what follows the leading packets.
  */
  lemma ChunkingIrrelevantExactly<P>(decode: Decoder<P>, s: Bytes)
    requires Lawful(decode) && Prompt(decode)
    ensures Unaffected(decode, s) <==> Harmless(decode, Rest(decode, s))
  {
    if Harmless(decode, Rest(decode, s)) {
      HarmlessIsUnaffected(decode, s);
    } else {
      var k: int :| ResumesAt(decode, Rest(decode, s), k);
      CutMatters(decode, s, k);
    }
  }

  lemma CutMatters<P>(decode: Decoder<P>, s: Bytes, k: nat)
    requires Lawful(decode) && Prompt(decode) && ResumesAt(decode, Rest(decode, s), k)
    ensures !Unaffected(decode, s)
  {
    var chunks := CutHandlesMore(decode, s, k);
    assert !SameAsAtOnce(decode, s, chunks);
  }

  lemma HarmlessIsUnaffected<P>(decode: Decoder<P>, s: Bytes)
    requires Lawful(decode) && Harmless(decode, Rest(decode, s))
    ensures Unaffected(decode, s)
  {
    forall chunks: seq<Bytes>
      ensures SameAsAtOnce(decode, s, chunks)
    {
      if Concat(chunks) == s {
        HarmlessChunks(decode, s, chunks);
      }
    }
  }

  lemma HarmlessChunks<P>(decode: Decoder<P>, s: Bytes, chunks: seq<Bytes>)
    requires Lawful(decode) && Concat(chunks) == s && Harmless(decode, Rest(decode, s))
    ensures ReceiveAll(decode, [], chunks) == Drain(decode, s).packets
  {
    assert [] + Concat(chunks) == s;
    DrainIsLead(decode, s);
    HarmlessFrom(decode, [], chunks);
  }

  // ---------------------------------------------------------------------
  // Streams of packets
  // ---------------------------------------------------------------------

  /** The bytes w are read as the packet p, whatever follows them. */
  ghost predicate Reads<P>(decode: Decoder<P>, w: Bytes, p: P) {
    w != [] && forall rest: Bytes :: decode(w + rest) == Complete(p, |w|)
  }

  ghost predicate AllRead<P>(decode: Decoder<P>, wires: seq<Bytes>, packets: seq<P>) {
    |wires| == |packets| && forall i :: 0 <= i < |wires| ==> Reads(decode, wires[i], packets[i])
  }

  lemma {:induction false} SentDrains<P>(decode: Decoder<P>, wires: seq<Bytes>, packets: seq<P>, tail: Bytes)
    requires AllRead(decode, wires, packets) && (tail == [] || decode(tail) == NeedMore)
    ensures Clean(decode, Concat(wires) + tail)
    ensures Drain(decode, Concat(wires) + tail) == Round(packets, tail, true)
    decreases |wires|
  {
    if wires == [] {
      assert Concat(wires) + tail == tail;
    } else {
      var rest := Concat(wires[1..]) + tail;
      assert Concat(wires) + tail == wires[0] + rest;
      assert Reads(decode, wires[0], packets[0]);
      assert Drop(wires[0] + rest, |wires[0]|) == rest;
      SentDrains(decode, wires[1..], packets[1..], tail);
      assert packets == [packets[0]] + packets[1..];
    }
  }

  /** Under any chunking, exactly the packets sent so far are handled, in order. */
  lemma StreamRoundTrip<P>(decode: Decoder<P>, wires: seq<Bytes>, packets: seq<P>, tail: Bytes, chunks: seq<Bytes>)
    requires Lawful(decode) && AllRead(decode, wires, packets) && (tail == [] || decode(tail) == NeedMore)
    requires Concat(chunks) == Concat(wires) + tail
    ensures ReceiveAll(decode, [], chunks) == packets
  {
    SentDrains(decode, wires, packets, tail);
    ChunkingIrrelevant(decode, chunks);
  }

  /** Refused bytes take everything that arrived with them, so there the chunking does matter. */
  lemma RefusedBytesTakeNeighbours<P>(decode: Decoder<P>, bad: Bytes, w: Bytes, p: P)
    requires Lawful(decode) && bad != [] && decode(bad) == Malformed && Reads(decode, w, p)
    ensures ReceiveAll(decode, [], [bad] + ([w] + [])) == [p]
    ensures ReceiveAll(decode, [], [bad + w] + []) == []
  {
    assert [] + bad == bad && [] + w == w && [] + (bad + w) == bad + w;
    SameVerdict(decode, bad, w);
    ReceiveOne(decode, [], bad + w, []);
    ReceiveOne(decode, [], bad, [w] + []);
    SentDrains(decode, [w], [p], []);
    assert Concat([w]) + [] == w;
    ReceiveOne(decode, [], w, []);
  }

  lemma ReceiveOne<P>(decode: Decoder<P>, buffer: Bytes, chunk: Bytes, chunks: seq<Bytes>)
    requires Drain(decode, buffer + chunk).alive
    ensures ReceiveAll(decode, buffer, [chunk] + chunks)
         == Drain(decode, buffer + chunk).packets + ReceiveAll(decode, Drain(decode, buffer + chunk).buffer, chunks)
  {
    assert ([chunk] + chunks)[1..] == chunks;
  }
}
