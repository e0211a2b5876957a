/**
  The read loop of the MQTT client: the stream laws hold for MQTT packets.
*/
module MqttReader {
  import opened ByteWords
  import opened PacketStream
  import opened ChunkSizes
  import opened MqttProtocol

  lemma VerdictsAreFinal(s: Bytes)
    ensures Final(Decode, s)
  {
    if !Decode(s).NeedMore? {
      forall more: Bytes
        ensures Decode(s + more) == Decode(s)
      {
        VerdictIsFinal(s, more);
      }
    }
  }

  lemma DecodeIsLawful()
    ensures Lawful(Decode)
  {
    forall s: Bytes
      ensures Final(Decode, s)
    {
      VerdictsAreFinal(s);
    }
  }

  lemma DecodeIsPrompt()
    ensures Prompt(Decode)
  {
    forall s: Bytes
      ensures DecidedEarly(Decode, s)
    {
      if Decode(s).Complete? {
        PacketIsPrompt(s);
      }
    }
  }

  /**
    The read loop handles the same packets under every chunking of a stream, exactly when no packet
    starts behind a malformed part of what follows the leading packets.
  */
  lemma ChunkingIrrelevantExactly(s: Bytes)
    ensures Unaffected(Decode, s) <==> Harmless(Decode, Rest(Decode, s))
  {
    DecodeIsLawful();
    DecodeIsPrompt();
    PacketStream.ChunkingIrrelevantExactly(Decode, s);
  }

  /** The same for a loop that reads at most max bytes at a time, as the client does with 4096. */
  lemma LimitedChunksExactly(s: Bytes, max: nat)
    requires max > 0
    ensures UnaffectedUpTo(Decode, s, max) <==> Safe(Decode, Rest(Decode, s), max)
  {
    DecodeIsLawful();
    DecodeIsPrompt();
    ChunkSizes.LimitedChunksExactly(Decode, s, max);
  }

  /** So a malformed end does no harm when nothing can follow it. */
  lemma MalformedEndIsHarmless()
    ensures Decode([0, 0]) == Malformed && !Clean(Decode, [0, 0]) && Unaffected(Decode, [0, 0])
  {
    var bad: Bytes := [0, 0];
    assert Decode(bad) == Malformed;
    forall k: int
      ensures !ResumesAt(Decode, bad, k)
    {
      if k == 1 {
        assert |bad[..1]| == 1;
      }
    }
    assert Rest(Decode, bad) == bad;
    ChunkingIrrelevantExactly(bad);
  }

  lemma DecodeReads(p: Packet)
    requires WellFormed(p)
    ensures Reads(Decode, Wire(p), p)
  {
    forall rest: Bytes
      ensures Decode(Wire(p) + rest) == Complete(p, |Wire(p)|)
    {
      WireRoundTrip(p, rest);
    }
  }

  predicate AllWellFormed(packets: seq<Packet>) {
    packets == [] || (WellFormed(packets[0]) && AllWellFormed(packets[1..]))
  }

  function Wires(packets: seq<Packet>): (wires: seq<Bytes>)
    requires AllWellFormed(packets)
    ensures |wires| == |packets|
  {
    if packets == [] then [] else [Wire(packets[0])] + Wires(packets[1..])
  }

  lemma {:induction false} AllPacketsRead(packets: seq<Packet>)
    requires AllWellFormed(packets)
    ensures AllRead(Decode, Wires(packets), packets)
    decreases |packets|
  {
    if packets != [] {
      DecodeReads(packets[0]);
      AllPacketsRead(packets[1..]);
    }
  }

  /**
    Under any chunking, the read loop handles exactly the packets sent so far, in order, while the
    last one is still incomplete.
  */
  lemma PacketsArrive(packets: seq<Packet>, next: Packet, k: nat, chunks: seq<Bytes>)
    requires AllWellFormed(packets) && WellFormed(next) && k < |Wire(next)|
    requires Concat(chunks) == Concat(Wires(packets)) + Wire(next)[..k]
    ensures ReceiveAll(Decode, [], chunks) == packets
  {
    StrictPrefixWaits(next, k);
    AllPacketsRead(packets);
    DecodeIsLawful();
    StreamRoundTrip(Decode, Wires(packets), packets, Wire(next)[..k], chunks);
  }

  /** A malformed packet makes the loop drop every packet that was read together with it. */
  lemma MalformedDropsNeighbours(bad: Bytes, p: Packet)
    requires bad != [] && Decode(bad) == Malformed && WellFormed(p)
    ensures ReceiveAll(Decode, [], [bad] + ([Wire(p)] + [])) == [p]
    ensures ReceiveAll(Decode, [], [bad + Wire(p)] + []) == []
  {
    DecodeIsLawful();
    DecodeReads(p);
    RefusedBytesTakeNeighbours(Decode, bad, Wire(p), p);
  }
}
