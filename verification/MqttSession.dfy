/**
  The read loop together with the packet handler: from the bytes that arrive to the messages that
  are dispatched.
*/
module MqttSession {
  import opened Wrappers
  import opened ByteWords
  import opened PacketStream
  import opened MqttProtocol
  import opened MqttClient
  import MqttReader

  /** Whether the answer to the n-th packet can be sent. */
  type Sends = nat -> bool

  /** A packet that could not be answered; its handler raises, which ends the read loop. */
  predicate Fatal(e: Event) {
    e.Received? && !e.ok && Answered(e.packet)
  }

  /** What is handled when these packets come in, the first of them being the n-th: all up to a fatal one. */
  function Served(packets: seq<Packet>, sends: Sends, n: nat): (h: seq<Event>)
    decreases |packets|
  {
    if packets == [] then []
    else
      var e := Received(packets[0], sends(n));
      if Fatal(e) then [e] else [e] + Served(packets[1..], sends, n + 1)
  }

  /** No handler raises. */
  predicate Survives(packets: seq<Packet>, sends: Sends, n: nat)
    decreases |packets|
  {
    packets == [] || (!Fatal(Received(packets[0], sends(n))) && Survives(packets[1..], sends, n + 1))
  }

  lemma {:induction false} ServedAt(packets: seq<Packet>, sends: Sends, n: nat, i: nat)
    requires i < |Served(packets, sends, n)|
    ensures i < |packets| && Served(packets, sends, n)[i] == Received(packets[i], sends(n + i))
    decreases |packets|
  {
    if i > 0 {
      ServedAt(packets[1..], sends, n + 1, i - 1);
    }
  }

  lemma {:induction false} ServedAll(packets: seq<Packet>, sends: Sends, n: nat)
    requires Survives(packets, sends, n)
    ensures |Served(packets, sends, n)| == |packets|
    decreases |packets|
  {
    if packets != [] {
      ServedAll(packets[1..], sends, n + 1);
    }
  }

  /** Packets in two parts are served part by part, and the second part only if the first is survived. */
  lemma {:induction false} ServedInTwo(a: seq<Packet>, b: seq<Packet>, sends: Sends, n: nat)
    ensures Served(a + b, sends, n)
         == Served(a, sends, n) + if Survives(a, sends, n) then Served(b, sends, n + |a|) else []
    ensures Survives(a + b, sends, n) <==> Survives(a, sends, n) && Survives(b, sends, n + |a|)
    decreases |a|
  {
    if a == [] {
      assert a + b == b;
    } else {
      assert (a + b)[1..] == a[1..] + b;
      ServedInTwo(a[1..], b, sends, n + 1);
    }
  }

  /** The same for one packet in front. */
  lemma ServedOne(p: Packet, b: seq<Packet>, sends: Sends, n: nat)
    ensures Served([p] + b, sends, n)
         == [Received(p, sends(n))] + if Fatal(Received(p, sends(n))) then [] else Served(b, sends, n + 1)
    ensures Survives([p] + b, sends, n) <==> !Fatal(Received(p, sends(n))) && Survives(b, sends, n + 1)
  {
    assert ([p] + b)[1..] == b;
  }

  /** The packets read from a buffer before the loop waits for more bytes. */
  function Ready(decode: Decoder<Packet>, buffer: Bytes): seq<Packet> {
    Drain(decode, buffer).packets
  }

  ghost predicate GivesIds(decode: Decoder<Packet>) {
    forall s: Bytes :: decode(s).Complete? ==> HasId(decode(s).packet)
  }

  lemma DecodeGivesIds()
    ensures GivesIds(Decode)
  {
    forall s: Bytes
      ensures Decode(s).Complete? ==> HasId(Decode(s).packet)
    {
      if Decode(s).Complete? {
        DecodedHasId(s);
      }
    }
  }

  /** Of the packets in total, these were served, and the others are still to be. */
  ghost predicate Serving(total: seq<Packet>, later: seq<Packet>, sends: Sends, first: nat, done: seq<Event>) {
    && Served(total, sends, first) == done + Served(later, sends, first + |done|)
    && (Survives(total, sends, first) <==> Survives(later, sends, first + |done|))
  }

  lemma ServingNext(total: seq<Packet>, p: Packet, later: seq<Packet>, sends: Sends, first: nat, done: seq<Event>,
                    e: Event, n: nat)
    requires Serving(total, [p] + later, sends, first, done) && n == first + |done| && e == Received(p, sends(n))
    ensures !Fatal(e) ==> Serving(total, later, sends, first, done + [e])
    ensures Fatal(e) ==> Served(total, sends, first) == done + [e] && !Survives(total, sends, first)
  {
    ServedOne(p, later, sends, n);
    Regroup(Served(total, sends, first), done, e, Served([p] + later, sends, n), Served(later, sends, n + 1), Fatal(e));
    assert first + |done + [e]| == n + 1;
  }

  lemma Regroup<T>(total: seq<T>, done: seq<T>, e: T, here: seq<T>, later: seq<T>, last: bool)
    requires total == done + here && here == [e] + if last then [] else later
    ensures last ==> total == done + [e]
    ensures !last ==> total == done + [e] + later
  {
  }

  lemma ServingLast(total: seq<Packet>, sends: Sends, first: nat, done: seq<Event>)
    requires Serving(total, [], sends, first, done)
    ensures Served(total, sends, first) == done && Survives(total, sends, first) && |total| == |done|
  {
    assert done + [] == done;
    ServedAll(total, sends, first);
  }

  /** Two buffers that come to the same end. */
  ghost predicate SameEnd(decode: Decoder<Packet>, a: Bytes, b: Bytes) {
    Drain(decode, a).buffer == Drain(decode, b).buffer && Drain(decode, a).alive == Drain(decode, b).alive
  }

  lemma DrainNothing(decode: Decoder<Packet>)
    ensures Ready(decode, []) == [] && Drain(decode, []) == Round([], [], true)
  {
  }

  /** What one round of the loop over these bytes leaves behind. */
  ghost predicate Turned(decode: Decoder<Packet>, all: Bytes, sends: Sends, first: nat, done: seq<Event>,
                         buffer: Bytes, n: nat, alive: bool) {
    && done == Served(Ready(decode, all), sends, first)
    && (alive <==> Drain(decode, all).alive && Survives(Ready(decode, all), sends, first))
    && (alive ==> buffer == Drain(decode, all).buffer && n == first + |Ready(decode, all)|)
  }

  /** Some packets of the round are served, and the buffer holds what is still to be read. */
  ghost predicate Underway(decode: Decoder<Packet>, all: Bytes, buffer: Bytes, sends: Sends, first: nat,
                           done: seq<Event>, n: nat) {
    Serving(Ready(decode, all), Ready(decode, buffer), sends, first, done) && SameEnd(decode, all, buffer)
    && n == first + |done|
  }

  lemma UnderwayFirst(decode: Decoder<Packet>, all: Bytes, sends: Sends, first: nat)
    ensures Underway(decode, all, all, sends, first, [], first)
  {
  }

  /** The packet p was taken off the buffer and handled. */
  lemma UnderwayNext(decode: Decoder<Packet>, all: Bytes, before: Bytes, sends: Sends, first: nat, done: seq<Event>,
                     p: Packet, e: Event, buffer: Bytes, n: nat)
    requires Underway(decode, all, before, sends, first, done, n) && e == Received(p, sends(n))
    requires Ready(decode, before) == [p] + Ready(decode, buffer) && SameEnd(decode, before, buffer)
    ensures !Fatal(e) ==> Underway(decode, all, buffer, sends, first, done + [e], n + 1)
    ensures Fatal(e) ==> Turned(decode, all, sends, first, done + [e], buffer, n + 1, false)
  {
    ServingNext(Ready(decode, all), p, Ready(decode, buffer), sends, first, done, e, n);
  }

  /** There was no packet to be taken off the buffer. */
  lemma UnderwayLast(decode: Decoder<Packet>, all: Bytes, before: Bytes, sends: Sends, first: nat, done: seq<Event>,
                     buffer: Bytes, n: nat, alive: bool)
    requires Underway(decode, all, before, sends, first, done, n) && Ready(decode, before) == []
    requires buffer == Drain(decode, before).buffer && alive == Drain(decode, before).alive
    ensures Turned(decode, all, sends, first, done, buffer, n, alive)
  {
    ServingLast(Ready(decode, all), sends, first, done);
  }

  class Session {
    const adapter: MqttAdapter
    const decode: Decoder<Packet>
    const sends: Sends
    var buffer: Bytes
    var alive: bool
    var count: nat

    ghost predicate Valid()
      reads this, adapter
    {
      adapter.Valid() && GivesIds(decode)
    }

    constructor (sends: Sends)
      ensures Valid() && buffer == [] && alive && count == 0 && this.sends == sends && decode == Decode
      ensures fresh(adapter) && adapter.history == []
    {
      DecodeGivesIds();
      adapter := new MqttAdapter();
      decode := Decode;
      this.sends := sends;
      buffer, alive, count := [], true, 0;
    }

    /** Takes the next packet off the buffer; without one, the buffer or the loop may be given up. */
    method NextPacket() returns (p: Option<Packet>)
      requires GivesIds(decode) && alive
      modifies this`buffer, this`alive
      ensures p.Some? ==> alive && HasId(p.value) && |buffer| < |old(buffer)|
      ensures p.Some? ==> Ready(decode, old(buffer)) == [p.value] + Ready(decode, buffer)
      ensures p.Some? ==> SameEnd(decode, old(buffer), buffer)
      ensures p.None? ==> Ready(decode, old(buffer)) == []
      ensures p.None? ==> buffer == Drain(decode, old(buffer)).buffer && alive == Drain(decode, old(buffer)).alive
    {
      p := None;
      if buffer == [] {
        return;
      }
      var result := decode(buffer);
      if result.Malformed? {
        buffer := [];
      } else if result.Crash? {
        alive := false;
      } else if result.Complete? && result.consumed > 0 {
        buffer := Drop(buffer, result.consumed);
        p := Some(result.packet);
      }
    }

    /** Handles a packet; when it cannot be answered the loop ends for good. */
    method Handle(packet: Packet) returns (ghost e: Event)
      requires Valid() && alive && HasId(packet)
      modifies this`alive, this`count, adapter
      ensures Valid() && adapter.history == old(adapter.history) + [e]
      ensures e == Received(packet, sends(old(count))) && count == old(count) + 1 && (alive <==> !Fatal(e))
    {
      e := Received(packet, sends(count));
      alive := adapter.HandlePacket(packet, sends(count));
      count := count + 1;
    }

    /**
      Handles one chunk.  What is handled is what draining the buffer and the chunk gives, up to a
      packet whose answer cannot be sent.
    */
    method Receive(chunk: Bytes) returns (ghost done: seq<Event>)
      requires Valid() && alive
      modifies this`buffer, this`alive, this`count, adapter
      ensures Valid() && adapter.history == old(adapter.history) + done
      ensures Turned(decode, old(buffer) + chunk, sends, old(count), done, buffer, count, alive)
    {
      buffer := buffer + chunk;
      ghost var all, first := buffer, count;
      done := [];
      UnderwayFirst(decode, all, sends, first);
      while buffer != []
        invariant Valid() && alive && adapter.history == old(adapter.history) + done
        invariant Underway(decode, all, buffer, sends, first, done, count)
        decreases |buffer|
      {
        ghost var before, n := buffer, count;
        var p := NextPacket();
        if p.None? {
          UnderwayLast(decode, all, before, sends, first, done, buffer, count, alive);
          return;
        }
        ghost var e := Handle(p.value);
        UnderwayNext(decode, all, before, sends, first, done, p.value, e, buffer, n);
        done := done + [e];
        if !alive {
          return;
        }
      }
      DrainNothing(decode);
      UnderwayLast(decode, all, buffer, sends, first, done, buffer, count, alive);
    }

    /** Handles the i-th chunk, with what that means for the whole stream. */
    method ReceiveNext(chunks: seq<Bytes>, i: nat, ghost goal: seq<Event>)
      requires Valid() && alive && i < |chunks|
      requires Upcoming(decode, goal, adapter.history, buffer, chunks, i, sends, count, alive)
      modifies this`buffer, this`alive, this`count, adapter
      ensures Valid()
      ensures Upcoming(decode, goal, adapter.history, buffer, chunks, i + 1, sends, count, alive)
    {
      ghost var h, before, n := adapter.history, buffer, count;
      ghost var some := Receive(chunks[i]);
      UpcomingNext(decode, goal, h, before, chunks, i, sends, n, some, buffer, count, alive);
    }

    /**
      Reads a stream chunk by chunk as long as the loop lives: what is handled are the packets of the
      stream up to one that cannot be answered.
    */
    method Run(chunks: seq<Bytes>)
      requires Valid() && alive
      modifies this`buffer, this`alive, this`count, adapter
      ensures Valid()
      ensures adapter.history
           == old(adapter.history) + Served(ReceiveAll(decode, old(buffer), chunks), sends, old(count))
    {
      ghost var goal := adapter.history + Served(ReceiveAll(decode, buffer, chunks), sends, count);
      var i := 0;
      UpcomingFirst(decode, goal, adapter.history, buffer, chunks, sends, count);
      while i < |chunks| && alive
        invariant Valid() && Upcoming(decode, goal, adapter.history, buffer, chunks, i, sends, count, alive)
      {
        ReceiveNext(chunks, i, goal);
        i := i + 1;
      }
      UpcomingLast(decode, goal, adapter.history, buffer, chunks, i, sends, count, alive);
    }
  }

  lemma LeaveFirst(chunks: seq<Bytes>, i: nat)
    requires i < |chunks|
    ensures chunks[i..] != [] && chunks[i..][0] == chunks[i] && chunks[i..][1..] == chunks[i + 1..]
  {
  }

  /** Of the events in the end, these are done, and the others come from the chunks from the i-th on. */
  ghost predicate Upcoming(decode: Decoder<Packet>, goal: seq<Event>, done: seq<Event>, buffer: Bytes,
                           chunks: seq<Bytes>, i: nat, sends: Sends, n: nat, alive: bool) {
    && i <= |chunks|
    && goal == done + if alive then Served(ReceiveAll(decode, buffer, chunks[i..]), sends, n) else []
  }

  lemma UpcomingFirst(decode: Decoder<Packet>, goal: seq<Event>, done: seq<Event>, buffer: Bytes,
                      chunks: seq<Bytes>, sends: Sends, n: nat)
    requires goal == done + Served(ReceiveAll(decode, buffer, chunks), sends, n)
    ensures Upcoming(decode, goal, done, buffer, chunks, 0, sends, n, true)
  {
    assert chunks[0..] == chunks;
  }

  lemma UpcomingNext(decode: Decoder<Packet>, goal: seq<Event>, done: seq<Event>, buffer: Bytes, chunks: seq<Bytes>,
                     i: nat, sends: Sends, n: nat, some: seq<Event>, later: Bytes, m: nat, alive: bool)
    requires Upcoming(decode, goal, done, buffer, chunks, i, sends, n, true) && i < |chunks|
    requires Turned(decode, buffer + chunks[i], sends, n, some, later, m, alive)
    ensures Upcoming(decode, goal, done + some, later, chunks, i + 1, sends, m, alive)
  {
    LeaveFirst(chunks, i);
    FirstServed(decode, buffer, chunks[i..], sends, n, some, later, m, alive);
    Associate(done, some, if alive then Served(ReceiveAll(decode, later, chunks[i + 1..]), sends, m) else []);
  }

  lemma UpcomingLast(decode: Decoder<Packet>, goal: seq<Event>, done: seq<Event>, buffer: Bytes,
                     chunks: seq<Bytes>, i: nat, sends: Sends, n: nat, alive: bool)
    requires Upcoming(decode, goal, done, buffer, chunks, i, sends, n, alive) && (i == |chunks| || !alive)
    ensures goal == done
  {
    assert chunks[|chunks|..] == [];
    assert done + [] == done;
  }

  lemma Associate<T>(a: seq<T>, b: seq<T>, c: seq<T>)
    ensures a + (b + c) == a + b + c
  {
  }

  /** One round handles the ready packets; later come those of the next chunks, if the loop goes on. */
  lemma ServedRound(ready: seq<Packet>, later: seq<Packet>, sends: Sends, n: nat, m: nat, on: bool)
    requires m == n + |ready|
    ensures Served(ready + if on then later else [], sends, n)
         == Served(ready, sends, n) + if on && Survives(ready, sends, n) then Served(later, sends, m) else []
  {
    if on {
      ServedInTwo(ready, later, sends, n);
    } else {
      assert ready + [] == ready;
    }
  }

  lemma FirstServed(decode: Decoder<Packet>, buffer: Bytes, chunks: seq<Bytes>, sends: Sends, n: nat,
                    some: seq<Event>, later: Bytes, m: nat, alive: bool)
    requires chunks != [] && Turned(decode, buffer + chunks[0], sends, n, some, later, m, alive)
    ensures Served(ReceiveAll(decode, buffer, chunks), sends, n)
         == some + if alive then Served(ReceiveAll(decode, later, chunks[1..]), sends, m) else []
  {
    var all := buffer + chunks[0];
    var ready := Ready(decode, all);
    var rest := ReceiveAll(decode, Drain(decode, all).buffer, chunks[1..]);
    ServedRound(ready, rest, sends, n, n + |ready|, Drain(decode, all).alive);
    FirstRound(decode, buffer, chunks, all, ready, rest);
  }

  lemma FirstRound(decode: Decoder<Packet>, buffer: Bytes, chunks: seq<Bytes>, all: Bytes, ready: seq<Packet>,
                   rest: seq<Packet>)
    requires chunks != [] && all == buffer + chunks[0] && ready == Ready(decode, all)
    requires rest == ReceiveAll(decode, Drain(decode, all).buffer, chunks[1..])
    ensures ReceiveAll(decode, buffer, chunks) == ready + if Drain(decode, all).alive then rest else []
  {
  }

  /**
    From bytes to events: however the encoded packets are cut into chunks, the loop serves exactly
    these packets in their order, up to the first that cannot be answered.
  */
  lemma PacketsAreServed(packets: seq<Packet>, next: Packet, k: nat, chunks: seq<Bytes>, sends: Sends)
    requires MqttReader.AllWellFormed(packets) && WellFormed(next) && k < |Wire(next)|
    requires Concat(chunks) == Concat(MqttReader.Wires(packets)) + Wire(next)[..k]
    ensures Served(ReceiveAll(Decode, [], chunks), sends, 0) == Served(packets, sends, 0)
  {
    MqttReader.PacketsArrive(packets, next, k, chunks);
  }

  /**
    From bytes to messages: a new session that reads encoded packets, in whatever chunks they come,
    dispatches and answers what these packets ask for, up to the first that cannot be answered.
  */
  method Serve(chunks: seq<Bytes>, sends: Sends, ghost packets: seq<Packet>, ghost next: Packet, ghost k: nat)
    returns (session: Session)
    requires MqttReader.AllWellFormed(packets) && WellFormed(next) && k < |Wire(next)|
    requires Concat(chunks) == Concat(MqttReader.Wires(packets)) + Wire(next)[..k]
    ensures session.Valid() && session.adapter.history == Served(packets, sends, 0)
    ensures session.adapter.dispatched == Dispatched(Served(packets, sends, 0))
    ensures session.adapter.sent == Replies(Served(packets, sends, 0))
  {
    session := new Session(sends);
    session.Run(chunks);
    PacketsAreServed(packets, next, k, chunks, sends);
    assert [] + Served(packets, sends, 0) == Served(packets, sends, 0);
  }
}
