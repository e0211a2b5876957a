/**
  The session state of the MQTT client: packet identifiers, messages in flight, and the QoS 2
  messages that wait for their release. Everything is proved against the history of events.
*/
module MqttClient {
  import opened Wrappers
  import opened MqttProtocol
  import opened ByteWords

  // ---------------------------------------------------------------------
  // Reference: what the history of events says
  // ---------------------------------------------------------------------

  /** A packet that was handled, or a QoS 1 or 2 message that was published; ok tells whether sending worked. */
  datatype Event = Received(packet: Packet, ok: bool) | Published(id: int, message: Packet, ok: bool)

  function Earlier(h: seq<Event>): seq<Event>
    requires h != []
  {
    h[..|h| - 1]
  }

  function Last(h: seq<Event>): Event
    requires h != []
  {
    h[|h| - 1]
  }

  /** e is a QoS 2 PUBLISH with this identifier. */
  predicate Stores(e: Event, id: int) {
    e.Received? && e.packet.Publish? && e.packet.qos == 2 && e.packet.packetId == Some(id)
  }

  /** e is a PUBREL with this identifier, and the PUBCOMP could be sent. */
  predicate Releases(e: Event, id: int) {
    e.Received? && e.packet.Pubrel? && e.packet.relId == id && e.ok
  }

  /** The latest QoS 2 message with this identifier since its last release. */
  function Stored(h: seq<Event>, id: int): Option<Packet> {
    if h == [] then None
    else if Stores(Last(h), id) then Some(Last(h).packet)
    else if Releases(Last(h), id) then None
    else Stored(Earlier(h), id)
  }

  /** e acknowledges the message in flight with this identifier. */
  predicate Acknowledges(e: Event, id: int) {
    e.Received? && (e.packet == Puback(id) || e.packet == Pubcomp(id))
  }

  /** The message published with this identifier and not acknowledged since. */
  function InFlight(h: seq<Event>, id: int): Option<Packet> {
    if h == [] then None
    else if Last(h).Published? && Last(h).id == id then Some(Last(h).message)
    else if Acknowledges(Last(h), id) then None
    else InFlight(Earlier(h), id)
  }

  /** What one event hands to the subscribers. */
  function Dispatch(before: seq<Event>, e: Event): seq<Packet> {
    if e.Published? then []
    else if e.packet.Publish? then if e.packet.qos == 0 || (e.packet.qos == 1 && e.ok) then [e.packet] else []
    else if e.packet.Pubrel? && e.ok && Stored(before, e.packet.relId).Some?
      then [Stored(before, e.packet.relId).value]
    else []
  }

  function Dispatched(h: seq<Event>): seq<Packet> {
    if h == [] then [] else Dispatched(Earlier(h)) + Dispatch(Earlier(h), Last(h))
  }

  /** What one event makes the client send. */
  function Reply(e: Event): seq<Packet> {
    if !e.ok then []
    else if e.Published? then [e.message]
    else if e.packet.Publish? && e.packet.packetId.Some? then
      if e.packet.qos == 1 then [Puback(e.packet.packetId.value)]
      else if e.packet.qos == 2 then [Pubrec(e.packet.packetId.value)]
      else []
    else if e.packet.Pubrec? then [Pubrel(e.packet.recId)]
    else if e.packet.Pubrel? then [Pubcomp(e.packet.relId)]
    else []
  }

  function Replies(h: seq<Event>): seq<Packet> {
    if h == [] then [] else Replies(Earlier(h)) + Reply(Last(h))
  }

  // ---------------------------------------------------------------------
  // Once per cycle
  // ---------------------------------------------------------------------

  lemma Append(h: seq<Event>, e: Event)
    ensures Earlier(h + [e]) == h && Last(h + [e]) == e
  {
  }

  /** Nothing in g stores or releases this identifier. */
  ghost predicate Untouched(g: seq<Event>, id: int) {
    forall e <- g :: !Stores(e, id) && !Releases(e, id)
  }

  lemma {:induction false} StoredPersists(h: seq<Event>, g: seq<Event>, id: int)
    requires Untouched(g, id)
    ensures Stored(h + g, id) == Stored(h, id)
    decreases |g|
  {
    if g == [] {
      assert h + g == h;
    } else {
      assert h + g == (h + Earlier(g)) + [Last(g)];
      Append(h + Earlier(g), Last(g));
      StoredPersists(h, Earlier(g), id);
    }
  }

  /** A release hands over the latest message stored for its identifier. */
  lemma ReleaseDispatchesLatest(h: seq<Event>, publish: Event, g: seq<Event>, id: int)
    requires Stores(publish, id) && Untouched(g, id)
    ensures Dispatch(h + [publish] + g, Received(Pubrel(id), true)) == [publish.packet]
  {
    Append(h, publish);
    StoredPersists(h + [publish], g, id);
  }

  /** A second release without a new message in between hands over nothing, and is still answered. */
  lemma SecondReleaseDispatchesNothing(h: seq<Event>, g: seq<Event>, id: int)
    requires forall e <- g :: !Stores(e, id)
    ensures Dispatch(h + [Received(Pubrel(id), true)] + g, Received(Pubrel(id), true)) == []
    ensures Reply(Received(Pubrel(id), true)) == [Pubcomp(id)]
  {
    Append(h, Received(Pubrel(id), true));
    NothingStored(h + [Received(Pubrel(id), true)], g, id);
  }

  lemma {:induction false} NothingStored(h: seq<Event>, g: seq<Event>, id: int)
    requires Stored(h, id) == None && forall e <- g :: !Stores(e, id)
    ensures Stored(h + g, id) == None
    decreases |g|
  {
    if g == [] {
      assert h + g == h;
    } else {
      assert h + g == (h + Earlier(g)) + [Last(g)];
      Append(h + Earlier(g), Last(g));
      NothingStored(h, Earlier(g), id);
    }
  }

  function Count(h: seq<Event>, select: Event -> bool): nat {
    if h == [] then 0 else Count(Earlier(h), select) + if select(Last(h)) then 1 else 0
  }

  /** How often releases of this identifier handed a message over. */
  function Deliveries(h: seq<Event>, id: int): nat {
    if h == [] then 0
    else Deliveries(Earlier(h), id) + if Releases(Last(h), id) then |Dispatch(Earlier(h), Last(h))| else 0
  }

  /** Over every run, an identifier is delivered at most once for each message and for each release. */
  lemma {:induction false} DeliveredAtMostOnce(h: seq<Event>, id: int)
    ensures Deliveries(h, id) + (if Stored(h, id).Some? then 1 else 0) <= Count(h, e => Stores(e, id))
    ensures Deliveries(h, id) <= Count(h, e => Releases(e, id))
    decreases |h|
  {
    if h != [] {
      DeliveredAtMostOnce(Earlier(h), id);
    }
  }

  // ---------------------------------------------------------------------
  // Packet identifiers
  // ---------------------------------------------------------------------

  /** The identifier issued after n others. */
  function IdOf(n: nat): (id: int)
    ensures 1 <= id <= 65535
  {
    n % 65535 + 1
  }

  /** An identifier comes back only after all others have been issued. */
  lemma IdsComeBackLate(m: nat, n: nat)
    requires m < n && IdOf(m) == IdOf(n)
    ensures n - m >= 65535
  {
    assert n - m == 65535 * (n / 65535 - m / 65535);
  }

  lemma NextId(n: nat)
    ensures IdOf(n + 1) == IdOf(n) % 65535 + 1
  {
  }

  // ---------------------------------------------------------------------
  // The session
  // ---------------------------------------------------------------------

  ghost predicate Agrees(m: map<int, Packet>, id: int, o: Option<Packet>) {
    (id in m <==> o.Some?) && (id in m ==> m[id] == o.value)
  }

  ghost predicate HoldsStored(m: map<int, Packet>, h: seq<Event>) {
    forall id: int :: Agrees(m, id, Stored(h, id))
  }

  ghost predicate HoldsInFlight(m: map<int, Packet>, h: seq<Event>) {
    forall id: int :: Agrees(m, id, InFlight(h, id))
  }

  lemma AfterPublished(h: seq<Event>, e: Event)
    requires e.Published?
    ensures Dispatched(h + [e]) == Dispatched(h)
    ensures Replies(h + [e]) == if e.ok then Replies(h) + [e.message] else Replies(h)
  {
    AfterEvent(h, e);
  }

  lemma AfterAcknowledged(h: seq<Event>, e: Event, id: int)
    requires Acknowledges(e, id)
    ensures Dispatched(h + [e]) == Dispatched(h) && Replies(h + [e]) == Replies(h)
  {
    AfterEvent(h, e);
  }

  lemma AfterEvent(h: seq<Event>, e: Event)
    ensures Dispatched(h + [e]) == Dispatched(h) + Dispatch(h, e)
    ensures Replies(h + [e]) == Replies(h) + Reply(e)
  {
    Append(h, e);
  }

  ghost predicate TouchesStored(e: Event) {
    exists id: int :: Stores(e, id) || Releases(e, id)
  }

  ghost predicate TouchesInFlight(e: Event) {
    e.Published? || exists id: int :: Acknowledges(e, id)
  }

  lemma KeepsStored(m: map<int, Packet>, h: seq<Event>, e: Event)
    requires HoldsStored(m, h) && !TouchesStored(e)
    ensures HoldsStored(m, h + [e])
  {
    Append(h, e);
    forall id: int
      ensures Agrees(m, id, Stored(h + [e], id))
    {
      assert Agrees(m, id, Stored(h, id)) && !Stores(e, id) && !Releases(e, id);
    }
  }

  lemma StoresOne(m: map<int, Packet>, h: seq<Event>, e: Event, id: int)
    requires HoldsStored(m, h) && Stores(e, id)
    ensures HoldsStored(m[id := e.packet], h + [e])
  {
    Append(h, e);
    forall i: int
      ensures Agrees(m[id := e.packet], i, Stored(h + [e], i))
    {
      assert Agrees(m, i, Stored(h, i));
    }
  }

  lemma ReleasesOne(m: map<int, Packet>, h: seq<Event>, e: Event, id: int)
    requires HoldsStored(m, h) && Releases(e, id)
    ensures HoldsStored(m - {id}, h + [e])
  {
    Append(h, e);
    forall i: int
      ensures Agrees(m - {id}, i, Stored(h + [e], i))
    {
      assert Agrees(m, i, Stored(h, i));
    }
  }

  lemma KeepsInFlight(m: map<int, Packet>, h: seq<Event>, e: Event)
    requires HoldsInFlight(m, h) && !TouchesInFlight(e)
    ensures HoldsInFlight(m, h + [e])
  {
    Append(h, e);
    forall id: int
      ensures Agrees(m, id, InFlight(h + [e], id))
    {
      assert Agrees(m, id, InFlight(h, id)) && !Acknowledges(e, id);
    }
  }

  lemma PublishesOne(m: map<int, Packet>, h: seq<Event>, e: Event)
    requires HoldsInFlight(m, h) && e.Published?
    ensures HoldsInFlight(m[e.id := e.message], h + [e])
  {
    Append(h, e);
    forall i: int
      ensures Agrees(m[e.id := e.message], i, InFlight(h + [e], i))
    {
      assert Agrees(m, i, InFlight(h, i));
    }
  }

  lemma AcknowledgesOne(m: map<int, Packet>, h: seq<Event>, e: Event, id: int)
    requires HoldsInFlight(m, h) && Acknowledges(e, id)
    ensures HoldsInFlight(m - {id}, h + [e])
  {
    Append(h, e);
    forall i: int
      ensures Agrees(m - {id}, i, InFlight(h + [e], i))
    {
      assert Agrees(m, i, InFlight(h, i));
    }
  }

  /** The futures, the messages and their times belong to the same identifiers. */
  ghost predicate SameKeys(futures: map<int, nat>, messages: map<int, Packet>, at: map<int, nat>) {
    futures.Keys == messages.Keys == at.Keys
  }

  lemma SameKeysAdded(futures: map<int, nat>, messages: map<int, Packet>, at: map<int, nat>,
                      id: int, f: nat, p: Packet, n: nat)
    requires SameKeys(futures, messages, at)
    ensures SameKeys(futures[id := f], messages[id := p], at[id := n])
  {
  }

  lemma SameKeysRemoved(futures: map<int, nat>, messages: map<int, Packet>, at: map<int, nat>, id: int)
    requires SameKeys(futures, messages, at)
    ensures SameKeys(futures - {id}, messages - {id}, at - {id})
  {
  }

  /** Every identifier in flight was issued, and this is when. */
  ghost predicate IdsIssued(at: map<int, nat>, issued: nat) {
    forall id :: id in at ==> at[id] < issued && id == IdOf(at[id])
  }

  lemma IssueOne(at: map<int, nat>, n: nat, pid: int)
    requires IdsIssued(at, n) && pid == IdOf(n)
    ensures IdsIssued(at[pid := n], n + 1)
    ensures pid in at ==> n - at[pid] >= 65535
  {
    if pid in at {
      IdsComeBackLate(at[pid], n);
    }
  }

  lemma RemoveOne(at: map<int, nat>, issued: nat, id: int)
    requires IdsIssued(at, issued)
    ensures IdsIssued(at - {id}, issued)
  {
  }

  /** Everything about the messages in flight. */
  ghost predicate Tracks(futures: map<int, nat>, messages: map<int, Packet>, at: map<int, nat>, issued: nat,
                         h: seq<Event>)
  {
    SameKeys(futures, messages, at) && HoldsInFlight(messages, h) && IdsIssued(at, issued)
  }

  lemma TrackOne(futures: map<int, nat>, messages: map<int, Packet>, at: map<int, nat>, issued: nat,
                 h: seq<Event>, e: Event, f: nat)
    requires Tracks(futures, messages, at, issued, h) && e.Published? && e.id == IdOf(issued)
    ensures Tracks(futures[e.id := f], messages[e.id := e.message], at[e.id := issued], issued + 1, h + [e])
    ensures e.id in at ==> issued - at[e.id] >= 65535
  {
    PublishesOne(messages, h, e);
    IssueOne(at, issued, e.id);
    SameKeysAdded(futures, messages, at, e.id, f, e.message, issued);
  }

  lemma KeepsTracks(futures: map<int, nat>, messages: map<int, Packet>, at: map<int, nat>, issued: nat,
                    h: seq<Event>, e: Event)
    requires Tracks(futures, messages, at, issued, h) && !TouchesInFlight(e)
    ensures Tracks(futures, messages, at, issued, h + [e])
  {
    KeepsInFlight(messages, h, e);
  }

  lemma UntrackOne(futures: map<int, nat>, messages: map<int, Packet>, at: map<int, nat>, issued: nat,
                   h: seq<Event>, e: Event, id: int)
    requires Tracks(futures, messages, at, issued, h) && Acknowledges(e, id)
    ensures Tracks(futures - {id}, messages - {id}, at - {id}, issued, h + [e])
  {
    AcknowledgesOne(messages, h, e, id);
    RemoveOne(at, issued, id);
    SameKeysRemoved(futures, messages, at, id);
  }

  /** Decoded packets carry an identifier exactly from QoS 1 on. */
  predicate HasId(p: Packet) {
    p.Publish? ==> (p.packetId.Some? <==> p.qos > 0)
  }

  lemma DecodedHasId(buffer: Bytes)
    requires Decode(buffer).Complete?
    ensures HasId(Decode(buffer).packet)
  {
    DecodedIsWellFormed(buffer);
  }

  /** The client has to send something when it gets this packet. */
  predicate Answered(p: Packet) {
    p.Pubrec? || p.Pubrel? || (p.Publish? && (p.qos == 1 || p.qos == 2))
  }

  /** A future is a number; completed and cancelled are what has become of them. */
  class MqttAdapter {
    var nextPacketId: int
    var inflightPublishes: map<int, nat>
    var inflightPackets: map<int, Packet>
    var incomingQos2: map<int, Packet>
    var sent: seq<Packet>
    var dispatched: seq<Packet>
    var futures: nat
    var completed: set<nat>
    var cancelled: set<nat>
    ghost var history: seq<Event>
    ghost var issued: nat
    ghost var issuedAt: map<int, nat>

    ghost predicate Valid()
      reads this
    {
      && Tracks(inflightPublishes, inflightPackets, issuedAt, issued, history)
      && HoldsStored(incomingQos2, history)
      && dispatched == Dispatched(history)
      && sent == Replies(history)
      && nextPacketId == IdOf(issued)
    }

    constructor ()
      ensures Valid() && history == [] && issued == 0
    {
      nextPacketId := 1;
      inflightPublishes, inflightPackets, incomingQos2, issuedAt := map[], map[], map[], map[];
      sent, dispatched, history := [], [], [];
      futures, completed, cancelled, issued := 0, {}, {}, 0;
    }

    /** The next identifier; the messages in flight are not looked at. */
    method GetNextPacketId() returns (pid: int)
      requires Valid()
      modifies this`nextPacketId, this`issued
      ensures Valid()
      ensures Tracks(inflightPublishes, inflightPackets, issuedAt, old(issued), history)
      ensures pid == IdOf(old(issued)) && issued == old(issued) + 1
    {
      pid := nextPacketId;
      NextId(issued);
      nextPacketId := nextPacketId % 65535 + 1;
      issued := issued + 1;
    }

    /** Registers and sends a message that wants an acknowledgement. */
    method Publish(topic: Bytes, payload: Bytes, qos: int, retain: bool, sendOk: bool) returns (pid: int, ack: nat)
      requires Valid() && qos != 0
      modifies this
      ensures Valid()
      ensures pid == IdOf(old(issued)) && issued == old(issued) + 1
      ensures history == old(history)
        + [Published(pid, MqttProtocol.Publish(topic, payload, qos, Some(pid), false, retain), sendOk)]
      ensures inflightPublishes == old(inflightPublishes)[pid := ack] && ack == old(futures)
      ensures completed == old(completed) && cancelled == old(cancelled)
      ensures pid in old(issuedAt) ==> old(issued) - old(issuedAt)[pid] >= 65535
    {
      pid := GetNextPacketId();
      ack := Track(pid, MqttProtocol.Publish(topic, payload, qos, Some(pid), false, retain), sendOk);
    }

    /** Remembers a message under the identifier just issued, and sends it. */
    method Track(pid: int, packet: Packet, sendOk: bool) returns (ack: nat)
      requires Valid() && issued > 0 && pid == IdOf(issued - 1)
      requires Tracks(inflightPublishes, inflightPackets, issuedAt, issued - 1, history)
      modifies this`inflightPublishes, this`inflightPackets, this`issuedAt, this`futures, this`sent, this`history
      ensures Valid()
      ensures history == old(history) + [Published(pid, packet, sendOk)]
      ensures inflightPublishes == old(inflightPublishes)[pid := ack] && ack == old(futures)
      ensures pid in old(issuedAt) ==> issued - 1 - old(issuedAt)[pid] >= 65535
    {
      ghost var e := Published(pid, packet, sendOk);
      AfterPublished(history, e);
      TrackOne(inflightPublishes, inflightPackets, issuedAt, issued - 1, history, e, futures);
      KeepsStored(incomingQos2, history, e);
      ack := futures;
      futures := futures + 1;
      inflightPublishes := inflightPublishes[pid := ack];
      inflightPackets := inflightPackets[pid := packet];
      issuedAt := issuedAt[pid := issued - 1];
      if sendOk {
        sent := sent + [packet];
      }
      history := history + [e];
    }

    /** The caller gives up waiting; the message stays in flight. */
    method TimeOut(ack: nat)
      requires Valid()
      modifies this`cancelled
      ensures Valid()
      ensures cancelled == old(cancelled) + {ack}
    {
      cancelled := cancelled + {ack};
    }

    /** Completes the future of an acknowledged message, unless its caller gave up. */
    method Acknowledge(id: int, ghost e: Event)
      requires Valid() && Acknowledges(e, id)
      modifies this`inflightPublishes, this`inflightPackets, this`issuedAt, this`completed, this`history
      ensures Valid() && history == old(history) + [e]
      ensures inflightPublishes == old(inflightPublishes) - {id} && inflightPackets == old(inflightPackets) - {id}
      ensures completed == old(completed)
        + (if id in old(inflightPublishes) && old(inflightPublishes)[id] !in cancelled
           then {old(inflightPublishes)[id]} else {})
    {
      AfterAcknowledged(history, e, id);
      UntrackOne(inflightPublishes, inflightPackets, issuedAt, issued, history, e, id);
      KeepsStored(incomingQos2, history, e);
      inflightPackets := inflightPackets - {id};
      if id in inflightPublishes {
        if inflightPublishes[id] !in cancelled && inflightPublishes[id] !in completed {
          completed := completed + {inflightPublishes[id]};
        }
      }
      inflightPublishes := inflightPublishes - {id};
      issuedAt := issuedAt - {id};
      history := history + [e];
    }

    /** PUBREL: answers first, and only then hands the stored message over. */
    method Release(id: int, sendOk: bool, ghost e: Event) returns (ok: bool)
      requires Valid() && e == Received(Pubrel(id), sendOk)
      modifies this`sent, this`history, this`incomingQos2, this`dispatched
      ensures Valid() && history == old(history) + [e] && ok == sendOk
    {
      AfterEvent(history, e);
      KeepsTracks(inflightPublishes, inflightPackets, issuedAt, issued, history, e);
      assert Agrees(incomingQos2, id, Stored(history, id));
      ok := sendOk;
      if sendOk {
        ReleasesOne(incomingQos2, history, e, id);
        sent := sent + [Pubcomp(id)];
        if id in incomingQos2 {
          dispatched := dispatched + [incomingQos2[id]];
        }
        incomingQos2 := incomingQos2 - {id};
      } else {
        KeepsStored(incomingQos2, history, e);
      }
      history := history + [e];
    }

    /** PUBLISH: a QoS 2 message is stored before it is answered. */
    method Receive(packet: Packet, sendOk: bool, ghost e: Event) returns (ok: bool)
      requires Valid() && packet.Publish? && HasId(packet) && e == Received(packet, sendOk)
      modifies this`sent, this`history, this`incomingQos2, this`dispatched
      ensures Valid() && history == old(history) + [e]
      ensures ok <==> sendOk || !Answered(packet)
    {
      AfterEvent(history, e);
      KeepsTracks(inflightPublishes, inflightPackets, issuedAt, issued, history, e);
      ok := true;
      if packet.qos == 2 {
        var id := packet.packetId.value;
        StoresOne(incomingQos2, history, e, id);
        incomingQos2 := incomingQos2[id := packet];
        ok := sendOk;
        if sendOk {
          sent := sent + [Pubrec(id)];
        }
      } else {
        KeepsStored(incomingQos2, history, e);
        if packet.qos == 0 {
          dispatched := dispatched + [packet];
        } else if packet.qos == 1 {
          ok := sendOk;
          if sendOk {
            sent := sent + [Puback(packet.packetId.value)];
            dispatched := dispatched + [packet];
          }
        }
      }
      history := history + [e];
    }

    /** PUBREC is answered by PUBREL; the other packets leave this part of the session alone. */
    method Answer(packet: Packet, sendOk: bool, ghost e: Event) returns (ok: bool)
      requires Valid() && e == Received(packet, sendOk)
      requires !packet.Puback? && !packet.Pubcomp? && !packet.Pubrel? && !packet.Publish?
      modifies this`sent, this`history
      ensures Valid() && history == old(history) + [e]
      ensures ok <==> sendOk || !Answered(packet)
    {
      AfterEvent(history, e);
      KeepsTracks(inflightPublishes, inflightPackets, issuedAt, issued, history, e);
      KeepsStored(incomingQos2, history, e);
      ok := true;
      if packet.Pubrec? {
        ok := sendOk;
        if sendOk {
          sent := sent + [Pubrel(packet.recId)];
        }
      }
      history := history + [e];
    }

    /** Handles one decoded packet; returns false when sending an answer failed. */
    method HandlePacket(packet: Packet, sendOk: bool) returns (ok: bool)
      requires Valid() && HasId(packet)
      modifies this
      ensures Valid() && history == old(history) + [Received(packet, sendOk)]
      ensures nextPacketId == old(nextPacketId) && cancelled == old(cancelled)
      ensures ok <==> sendOk || !Answered(packet)
    {
      ghost var e := Received(packet, sendOk);
      ok := true;
      if packet.Puback? {
        Acknowledge(packet.ackId, e);
      } else if packet.Pubcomp? {
        Acknowledge(packet.compId, e);
      } else if packet.Pubrel? {
        ok := Release(packet.relId, sendOk, e);
      } else if packet.Publish? {
        ok := Receive(packet, sendOk, e);
      } else {
        ok := Answer(packet, sendOk, e);
      }
    }
  }
}
