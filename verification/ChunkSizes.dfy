/**
  Chunks of limited size: a loop that reads so many bytes at a time meets only some chunkings, and
  it is exactly known when none of those makes a difference.
*/
module ChunkSizes {
  import opened ByteWords
  import opened PacketStream

  ghost predicate Limited(chunks: seq<Bytes>, max: nat) {
    forall c <- chunks :: |c| <= max
  }

  /** A chunk can end behind the first k bytes of r such that these are refused only then. */
  ghost predicate RefusedAt<P>(decode: Decoder<P>, r: Bytes, k: int, max: nat) {
    && 0 < k < |r| && decode(r[..k]) == Malformed
    && (k <= max || decode(r[..k - max]).NeedMore?)
  }

  /** However often bytes of r are refused, no packet starts where the loop goes on. */
  ghost predicate Safe<P>(decode: Decoder<P>, r: Bytes, max: nat)
    decreases |r|
  {
    forall k: int | 0 < k < |r| ::
      RefusedAt(decode, r, k, max) ==> !decode(r[k..]).Complete? && Safe(decode, r[k..], max)
  }

  /** The loop waits for more bytes. */
  predicate Waiting<P>(decode: Decoder<P>, buffer: Bytes) {
    buffer == [] || decode(buffer).NeedMore?
  }

  lemma FrontWaits<P>(decode: Decoder<P>, buffer: Bytes, n: nat)
    requires Lawful(decode) && decode(buffer).NeedMore? && n <= |buffer|
    ensures decode(buffer[..n]).NeedMore?
  {
    assert buffer[..n] + buffer[n..] == buffer;
    if !decode(buffer[..n]).NeedMore? {
      SameVerdict(decode, buffer[..n], buffer[n..]);
    }
  }

  // ---------------------------------------------------------------------
  // Safe streams
  // ---------------------------------------------------------------------

  /** A packet that is complete with a chunk contains all that was buffered before, so less than the chunk is left. */
  lemma {:induction false} LeftOfChunk<P>(decode: Decoder<P>, buffer: Bytes, chunk: Bytes)
    requires Lawful(decode) && Prompt(decode) && Waiting(decode, buffer)
    ensures Rest(decode, buffer + chunk) == buffer + chunk || |Rest(decode, buffer + chunk)| <= |chunk|
  {
    var x := buffer + chunk;
    if x != [] && decode(x).Complete? {
      var n := decode(x).consumed;
      ConsumesBuffer(decode, buffer, chunk);
    }
  }

  lemma ConsumesBuffer<P>(decode: Decoder<P>, buffer: Bytes, chunk: Bytes)
    requires Lawful(decode) && Prompt(decode) && Waiting(decode, buffer) && decode(buffer + chunk).Complete?
    ensures |buffer| <= decode(buffer + chunk).consumed <= |buffer + chunk| && decode(buffer + chunk).consumed > 0
    ensures buffer != [] ==> |buffer| < decode(buffer + chunk).consumed
  {
    var x := buffer + chunk;
    assert Final(decode, x);
    assert DecidedEarly(decode, x);
    var n := decode(x).consumed;
    if n <= |buffer| && buffer != [] {
      assert x[..n] == buffer[..n];
      FrontWaits(decode, buffer, n);
    }
  }

  /** The refused bytes are refused only with the last chunk. */
  lemma RefusedByChunk<P>(decode: Decoder<P>, buffer: Bytes, chunk: Bytes, later: Bytes, r: Bytes, max: nat)
    requires Lawful(decode) && Prompt(decode) && Waiting(decode, buffer) && |chunk| <= max
    requires r == Rest(decode, buffer + chunk) && r != [] && decode(r).Malformed? && later != []
    ensures RefusedAt(decode, r + later, |r|, max)
  {
    LeftOfChunk(decode, buffer, chunk);
    var k := |r|;
    assert (r + later)[..k] == r;
    if k > max {
      assert (r + later)[..k - max] == buffer[..k - max];
      FrontWaits(decode, buffer, k - max);
    }
  }

  lemma {:induction false} SafeFrom<P>(decode: Decoder<P>, buffer: Bytes, chunks: seq<Bytes>, max: nat)
    requires Lawful(decode) && Prompt(decode) && Waiting(decode, buffer) && Limited(chunks, max)
    requires Safe(decode, Rest(decode, buffer + Concat(chunks)), max)
    ensures ReceiveAll(decode, buffer, chunks) == Lead(decode, buffer + Concat(chunks))
    decreases |chunks|, 0
  {
    if chunks == [] {
      assert buffer + Concat(chunks) == buffer;
    } else {
      var x, later := buffer + chunks[0], Concat(chunks[1..]);
      assert x + later == buffer + Concat(chunks);
      assert chunks[0] in chunks && Limited(chunks[1..], max);
      LeadInTwo(decode, x, later);
      RestHasNoLead(decode, x);
      FirstChunk(decode, buffer, chunks);
      SafeStep(decode, buffer, chunks[0], Rest(decode, x), chunks[1..], max);
    }
  }

  /** The step behind the first chunk: r is what its leading packets left. */
  lemma {:induction false} SafeStep<P>(
    decode: Decoder<P>, buffer: Bytes, chunk: Bytes, r: Bytes, chunks: seq<Bytes>, max: nat)
    requires Lawful(decode) && Prompt(decode) && Waiting(decode, buffer) && Limited(chunks, max) && |chunk| <= max
    requires r == Rest(decode, buffer + chunk) && (r == [] || !decode(r).Complete?)
    requires Safe(decode, Rest(decode, r + Concat(chunks)), max)
    ensures var round := Settle(decode, [], r);
      (if round.alive then ReceiveAll(decode, round.buffer, chunks) else []) == Lead(decode, r + Concat(chunks))
    decreases |chunks|, 1
  {
    if Waiting(decode, r) {
      SafeFrom(decode, r, chunks, max);
    } else {
      var later := Concat(chunks);
      Decided(decode, r, later);
      if decode(r).Malformed? {
        SafeBehind(decode, buffer, chunk, r, later, max);
        assert [] + later == later;
        SafeFrom(decode, [], chunks, max);
      }
    }
  }

  lemma Decided<P>(decode: Decoder<P>, r: Bytes, later: Bytes)
    requires Lawful(decode) && !Waiting(decode, r) && !decode(r).Complete?
    ensures decode(r + later) == decode(r) && Lead(decode, r + later) == [] && Rest(decode, r + later) == r + later
  {
    SameVerdict(decode, r, later);
    NoLead(decode, r + later);
  }

  lemma SafeBehind<P>(decode: Decoder<P>, buffer: Bytes, chunk: Bytes, r: Bytes, later: Bytes, max: nat)
    requires Lawful(decode) && Prompt(decode) && Waiting(decode, buffer) && |chunk| <= max
    requires r == Rest(decode, buffer + chunk) && r != [] && decode(r).Malformed?
    requires Safe(decode, r + later, max)
    ensures Lead(decode, later) == [] && Safe(decode, Rest(decode, later), max)
  {
    if later != [] {
      RefusedByChunk(decode, buffer, chunk, later, r, max);
      assert (r + later)[|r|..] == later;
      NoLead(decode, later);
    }
  }

  // ---------------------------------------------------------------------
  // Streams that are not safe
  // ---------------------------------------------------------------------

  /** Byte by byte. */
  function Singles(s: Bytes): (chunks: seq<Bytes>)
    ensures Concat(chunks) == s && forall c <- chunks :: |c| == 1
  {
    if s == [] then [] else [[s[0]]] + Singles(s[1..])
  }

  lemma {:induction false} ConcatTwo(a: seq<Bytes>, b: seq<Bytes>)
    ensures Concat(a + b) == Concat(a) + Concat(b)
    decreases |a|
  {
    if a == [] {
      assert a + b == b;
    } else {
      assert (a + b)[1..] == a[1..] + b;
      ConcatTwo(a[1..], b);
    }
  }

  lemma WaitForMore<P>(decode: Decoder<P>, buffer: Bytes, c: Bytes, more: seq<Bytes>)
    requires decode(buffer + c).NeedMore?
    ensures ReceiveAll(decode, buffer, [c] + more) == ReceiveAll(decode, buffer + c, more)
  {
    ReceiveOne(decode, buffer, c, more);
  }

  /** Byte by byte nothing is refused before a packet is complete. */
  lemma {:induction false} FeedSingles<P>(decode: Decoder<P>, buffer: Bytes, a: Bytes, rest: seq<Bytes>)
    requires Lawful(decode) && Prompt(decode) && Waiting(decode, buffer)
    requires Waiting(decode, Rest(decode, buffer + a))
    ensures ReceiveAll(decode, buffer, Singles(a) + rest)
         == Lead(decode, buffer + a) + ReceiveAll(decode, Rest(decode, buffer + a), rest)
    decreases |a|, 1
  {
    if a == [] {
      assert Singles(a) + rest == rest && buffer + a == buffer;
    } else if decode(buffer + [a[0]]).NeedMore? {
      FeedWaiting(decode, buffer, a, rest);
    } else {
      assert buffer + [a[0]] + a[1..] == buffer + a;
      SameVerdict(decode, buffer + [a[0]], a[1..]);
      FeedPacket(decode, buffer, a, rest);
    }
  }

  lemma {:induction false} FeedWaiting<P>(decode: Decoder<P>, buffer: Bytes, a: Bytes, rest: seq<Bytes>)
    requires Lawful(decode) && Prompt(decode) && Waiting(decode, buffer)
    requires Waiting(decode, Rest(decode, buffer + a))
    requires a != [] && decode(buffer + [a[0]]).NeedMore?
    ensures ReceiveAll(decode, buffer, Singles(a) + rest)
         == Lead(decode, buffer + a) + ReceiveAll(decode, Rest(decode, buffer + a), rest)
    decreases |a|, 0
  {
    var x, later := buffer + [a[0]], a[1..];
    assert x + later == buffer + a;
    SinglesFrom(a, rest);
    WaitForMore(decode, buffer, [a[0]], Singles(later) + rest);
    FeedSingles(decode, x, later, rest);
  }

  lemma DrainWhole<P>(decode: Decoder<P>, x: Bytes)
    requires decode(x).Complete? && decode(x).consumed == |x| > 0
    ensures Drain(decode, x) == Round([decode(x).packet], [], true)
  {
    assert Drop(x, |x|) == [];
    assert Drain(decode, []) == Round([], [], true);
  }

  /** A packet that ends with the buffer is handled and leaves nothing. */
  lemma HandleWhole<P>(decode: Decoder<P>, buffer: Bytes, c: Bytes, more: seq<Bytes>)
    requires decode(buffer + c).Complete? && decode(buffer + c).consumed == |buffer + c| > 0
    ensures ReceiveAll(decode, buffer, [c] + more) == [decode(buffer + c).packet] + ReceiveAll(decode, [], more)
  {
    DrainWhole(decode, buffer + c);
    ReceiveOne(decode, buffer, c, more);
  }

  lemma LeadAfter<P>(decode: Decoder<P>, x: Bytes, later: Bytes)
    requires x != [] && decode(x + later).Complete? && decode(x + later).consumed == |x|
    ensures Lead(decode, x + later) == [decode(x + later).packet] + Lead(decode, later)
    ensures Rest(decode, x + later) == Rest(decode, later)
  {
    assert Drop(x + later, |x|) == later;
    FirstLeads(decode, x + later, |x|);
  }

  lemma SinglesFrom(a: Bytes, rest: seq<Bytes>)
    requires a != []
    ensures Singles(a) + rest == [[a[0]]] + (Singles(a[1..]) + rest)
  {
  }

  lemma {:induction false} FeedPacket<P>(decode: Decoder<P>, buffer: Bytes, a: Bytes, rest: seq<Bytes>)
    requires Lawful(decode) && Prompt(decode) && Waiting(decode, buffer)
    requires Waiting(decode, Rest(decode, buffer + a))
    requires a != [] && !decode(buffer + [a[0]]).NeedMore? && decode(buffer + a) == decode(buffer + [a[0]])
    ensures ReceiveAll(decode, buffer, Singles(a) + rest)
         == Lead(decode, buffer + a) + ReceiveAll(decode, Rest(decode, buffer + a), rest)
    decreases |a|, 0
  {
    var c, x, later := [a[0]], buffer + [a[0]], a[1..];
    assert x + later == buffer + a;
    assert decode(x).Complete?;
    ConsumesBuffer(decode, buffer, c);
    SinglesFrom(a, rest);
    HandleWhole(decode, buffer, c, Singles(later) + rest);
    LeadAfter(decode, x, later);
    assert [] + later == later;
    FeedSingles(decode, [], later, rest);
    Associate([decode(x).packet], Lead(decode, later), ReceiveAll(decode, Rest(decode, later), rest));
  }

  lemma Associate<T>(a: seq<T>, b: seq<T>, c: seq<T>)
    ensures a + (b + c) == a + b + c
  {
  }

  /** The front of a stream byte by byte, and the rest of it in these chunks. */
  lemma SinglesThen<P>(decode: Decoder<P>, a: Bytes, later: seq<Bytes>, s: Bytes, max: nat) returns (chunks: seq<Bytes>)
    requires Lawful(decode) && Prompt(decode) && Waiting(decode, Rest(decode, a)) && s == a + Concat(later)
    requires max > 0 && Limited(later, max)
    ensures Concat(chunks) == s && Limited(chunks, max)
    ensures ReceiveAll(decode, [], chunks) == Lead(decode, a) + ReceiveAll(decode, Rest(decode, a), later)
  {
    chunks := Singles(a) + later;
    ConcatTwo(Singles(a), later);
    assert [] + a == a;
    FeedSingles(decode, [], a, later);
  }

  /** A packet that starts where the loop begins is handled. */
  lemma PacketArrives<P>(decode: Decoder<P>, s: Bytes, max: nat) returns (chunks: seq<Bytes>)
    requires Lawful(decode) && Prompt(decode) && s != [] && decode(s).Complete? && max > 0
    ensures Concat(chunks) == s && Limited(chunks, max) && |ReceiveAll(decode, [], chunks)| > 0
  {
    var a, b := CutLead(decode, s, 0);
    LeadNotEmpty(decode, s);
    chunks := PacketsArrive(decode, s, a, b, max);
  }

  lemma PacketsArrive<P>(decode: Decoder<P>, s: Bytes, a: Bytes, b: Bytes, max: nat) returns (chunks: seq<Bytes>)
    requires Lawful(decode) && Prompt(decode) && Rest(decode, a) == [] && Lead(decode, a) != [] && s == a + b
    requires max > 0
    ensures Concat(chunks) == s && Limited(chunks, max) && |ReceiveAll(decode, [], chunks)| > 0
  {
    chunks := SinglesThen(decode, a, Singles(b), s, max);
    assert |ReceiveAll(decode, [], chunks)| >= |Lead(decode, a)|;
  }

  lemma LeadNotEmpty<P>(decode: Decoder<P>, s: Bytes)
    requires Lawful(decode) && s != [] && decode(s).Complete?
    ensures Lead(decode, s) != []
  {
    assert Final(decode, s);
  }

  /** When a stream is not safe, some chunks let a packet through behind refused bytes. */
  lemma {:induction false} UnsafeChunks<P>(decode: Decoder<P>, r: Bytes, max: nat) returns (chunks: seq<Bytes>)
    requires Lawful(decode) && Prompt(decode) && max > 0 && !Safe(decode, r, max)
    ensures Concat(chunks) == r && Limited(chunks, max) && |ReceiveAll(decode, [], chunks)| > 0
    decreases |r|
  {
    var k: int :| 0 < k < |r| && RefusedAt(decode, r, k, max)
                  && (decode(r[k..]).Complete? || !Safe(decode, r[k..], max));
    var later: seq<Bytes>;
    if decode(r[k..]).Complete? {
      later := PacketArrives(decode, r[k..], max);
    } else {
      later := UnsafeChunks(decode, r[k..], max);
    }
    chunks := RefusedFirst(decode, r, k, max, later);
  }

  /** The first k bytes are refused with the last of their chunks, and then the others follow. */
  lemma RefusedFirst<P>(decode: Decoder<P>, r: Bytes, k: nat, max: nat, later: seq<Bytes>) returns (chunks: seq<Bytes>)
    requires Lawful(decode) && Prompt(decode) && max > 0 && RefusedAt(decode, r, k, max)
    requires Concat(later) == r[k..] && Limited(later, max)
    ensures Concat(chunks) == r && Limited(chunks, max)
    ensures ReceiveAll(decode, [], chunks) == ReceiveAll(decode, [], later)
  {
    var m := if k <= max then 0 else k - max;
    var front, mid := r[..m], r[m..k];
    assert front + mid == r[..k];
    NoLead(decode, front);
    OneMoreChunk(mid, later, max);
    assert front + (mid + r[k..]) == r;
    chunks := SinglesThen(decode, front, [mid] + later, r, max);
    Refused(decode, front, mid, later);
  }

  lemma OneMoreChunk(c: Bytes, later: seq<Bytes>, max: nat)
    requires Limited(later, max) && |c| <= max
    ensures Limited([c] + later, max) && Concat([c] + later) == c + Concat(later)
  {
    assert ([c] + later)[1..] == later;
  }

  lemma Refused<P>(decode: Decoder<P>, buffer: Bytes, c: Bytes, later: seq<Bytes>)
    requires buffer + c != [] && decode(buffer + c).Malformed?
    ensures ReceiveAll(decode, buffer, [c] + later) == ReceiveAll(decode, [], later)
  {
    ReceiveOne(decode, buffer, c, later);
  }

  // ---------------------------------------------------------------------
  // Exactly when no chunking up to a size matters
  // ---------------------------------------------------------------------

  ghost predicate SameUpTo<P>(decode: Decoder<P>, s: Bytes, max: nat, chunks: seq<Bytes>) {
    Concat(chunks) == s && Limited(chunks, max) ==> ReceiveAll(decode, [], chunks) == Drain(decode, s).packets
  }

  /** In chunks of at most so many bytes the stream is handled as if it came at once. */
  ghost predicate UnaffectedUpTo<P>(decode: Decoder<P>, s: Bytes, max: nat) {
    forall chunks: seq<Bytes> :: SameUpTo(decode, s, max, chunks)
  }

  lemma SafeIsUnaffected<P>(decode: Decoder<P>, s: Bytes, max: nat)
    requires Lawful(decode) && Prompt(decode) && Safe(decode, Rest(decode, s), max)
    ensures UnaffectedUpTo(decode, s, max)
  {
    forall chunks: seq<Bytes>
      ensures SameUpTo(decode, s, max, chunks)
    {
      if Concat(chunks) == s && Limited(chunks, max) {
        assert [] + s == s;
        SafeFrom(decode, [], chunks, max);
        LeadDrained(decode, s);
      }
    }
  }

  lemma Longer<T>(a: seq<T>, b: seq<T>, c: seq<T>)
    requires a == b + c && |c| > 0
    ensures a != b
  {
  }

  /** Behind the leading packets a, chunks that let a packet through let one more through in all. */
  lemma OneMoreInAll<P>(decode: Decoder<P>, s: Bytes, a: Bytes, later: seq<Bytes>, max: nat, lead: seq<P>)
    returns (chunks: seq<Bytes>)
    requires Lawful(decode) && Prompt(decode) && max > 0 && Limited(later, max)
    requires s == a + Concat(later) && Rest(decode, a) == [] && Lead(decode, a) == lead
    requires |ReceiveAll(decode, [], later)| > 0
    ensures Concat(chunks) == s && Limited(chunks, max) && ReceiveAll(decode, [], chunks) != lead
  {
    chunks := SinglesThen(decode, a, later, s, max);
    Longer(ReceiveAll(decode, [], chunks), lead, ReceiveAll(decode, [], later));
  }

  lemma UnsafeIsAffected<P>(decode: Decoder<P>, s: Bytes, max: nat)
    requires Lawful(decode) && Prompt(decode) && max > 0 && !Safe(decode, Rest(decode, s), max)
    ensures !UnaffectedUpTo(decode, s, max)
  {
    var later := UnsafeChunks(decode, Rest(decode, s), max);
    var a, b := CutLead(decode, s, 0);
    var chunks := OneMoreInAll(decode, s, a, later, max, Lead(decode, s));
    LeadDrained(decode, s);
    assert !SameUpTo(decode, s, max, chunks);
  }

  /**
    For a loop that reads up to max bytes at a time: every stream of such chunks is handled as if it
    came at once, exactly when behind what the leading packets leave no packet starts where refused
    bytes can end.
  */
  lemma LimitedChunksExactly<P>(decode: Decoder<P>, s: Bytes, max: nat)
    requires Lawful(decode) && Prompt(decode) && max > 0
    ensures UnaffectedUpTo(decode, s, max) <==> Safe(decode, Rest(decode, s), max)
  {
    if Safe(decode, Rest(decode, s), max) {
      SafeIsUnaffected(decode, s, max);
    } else {
      UnsafeIsAffected(decode, s, max);
    }
  }
}
