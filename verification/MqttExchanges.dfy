/**
  What the client owes for each packet over a whole run: messages of QoS 0 and 1 are dispatched once and
  in order, and every packet of a handshake gets its answer.
*/
module MqttExchanges {
  import opened Wrappers
  import opened MqttProtocol
  import opened MqttClient

  // ---------------------------------------------------------------------
  // Messages of QoS 0 and 1
  // ---------------------------------------------------------------------

  /** A message that nothing has to be waited for: of QoS 0, or of QoS 1 and acknowledged. */
  predicate Immediate(e: Event) {
    e.Received? && e.packet.Publish? && (e.packet.qos == 0 || (e.packet.qos == 1 && e.ok))
  }

  function ImmediateMessages(h: seq<Event>): seq<Packet> {
    if h == [] then [] else ImmediateMessages(Earlier(h)) + if Immediate(Last(h)) then [Last(h).packet] else []
  }

  predicate Released(p: Packet) {
    p.Publish? && p.qos == 2
  }

  /** What is dispatched without the messages of QoS 2. */
  function WithoutReleased(ps: seq<Packet>): seq<Packet> {
    if ps == [] then []
    else WithoutReleased(ps[..|ps| - 1]) + if Released(ps[|ps| - 1]) then [] else [ps[|ps| - 1]]
  }

  lemma {:induction false} StoredIsQos2(h: seq<Event>, id: int)
    requires Stored(h, id).Some?
    ensures Released(Stored(h, id).value)
    decreases |h|
  {
    if !Stores(Last(h), id) {
      StoredIsQos2(Earlier(h), id);
    }
  }

  lemma WithoutReleasedMore(ps: seq<Packet>, p: Packet)
    ensures WithoutReleased(ps + [p]) == WithoutReleased(ps) + if Released(p) then [] else [p]
  {
    assert (ps + [p])[..|ps|] == ps;
  }

  /** Over every run, each message of QoS 0 and each acknowledged one of QoS 1 is dispatched exactly once, in order. */
  lemma {:induction false} ImmediateDispatchedOnce(h: seq<Event>)
    ensures WithoutReleased(Dispatched(h)) == ImmediateMessages(h)
    decreases |h|
  {
    if h != [] {
      var before, e := Earlier(h), Last(h);
      ImmediateDispatchedOnce(before);
      var more := Dispatch(before, e);
      if more == [] {
        assert Dispatched(h) == Dispatched(before);
      } else {
        assert more == [more[0]];
        WithoutReleasedMore(Dispatched(before), more[0]);
        if e.packet.Pubrel? {
          StoredIsQos2(before, e.packet.relId);
        }
      }
    }
  }

  // ---------------------------------------------------------------------
  // Handshakes
  // ---------------------------------------------------------------------

  /** The identifiers in what the client sent, of one kind of packet. */
  function Sent(ps: seq<Packet>, kind: Packet -> Option<int>): seq<int> {
    if ps == [] then [] else With(Sent(ps[..|ps| - 1], kind), kind(ps[|ps| - 1]))
  }

  /** The identifiers that ask for such a packet. */
  function Asked(h: seq<Event>, ask: Event -> Option<int>): seq<int> {
    if h == [] then [] else With(Asked(Earlier(h), ask), ask(Last(h)))
  }

  function With(ids: seq<int>, id: Option<int>): seq<int> {
    if id.Some? then ids + [id.value] else ids
  }

  function PubackOf(p: Packet): Option<int> {
    if p.Puback? then Some(p.ackId) else None
  }

  function PubrecOf(p: Packet): Option<int> {
    if p.Pubrec? then Some(p.recId) else None
  }

  function PubrelOf(p: Packet): Option<int> {
    if p.Pubrel? then Some(p.relId) else None
  }

  function PubcompOf(p: Packet): Option<int> {
    if p.Pubcomp? then Some(p.compId) else None
  }

  /** A message of this QoS that could be answered. */
  function Message(e: Event, qos: int): Option<int> {
    if e.Received? && e.ok && e.packet.Publish? && e.packet.qos == qos then e.packet.packetId else None
  }

  function Message1(e: Event): Option<int> {
    Message(e, 1)
  }

  function Message2(e: Event): Option<int> {
    Message(e, 2)
  }

  function ReceivedPubrec(e: Event): Option<int> {
    if e.Received? && e.ok then PubrecOf(e.packet) else None
  }

  function ReceivedPubrel(e: Event): Option<int> {
    if e.Received? && e.ok then PubrelOf(e.packet) else None
  }

  /** One event is answered as it asks for. */
  ghost predicate AnsweredBy(e: Event, kind: Packet -> Option<int>, ask: Event -> Option<int>) {
    if Reply(e) == [] then ask(e) == None else |Reply(e)| == 1 && kind(Reply(e)[0]) == ask(e)
  }

  lemma SentMore(ps: seq<Packet>, p: Packet, kind: Packet -> Option<int>)
    ensures Sent(ps + [p], kind) == With(Sent(ps, kind), kind(p))
  {
    assert (ps + [p])[..|ps|] == ps;
  }

  lemma RepliesMore(h: seq<Event>)
    requires h != [] && |Reply(Last(h))| <= 1
    ensures Replies(h)
         == if Reply(Last(h)) == [] then Replies(Earlier(h)) else Replies(Earlier(h)) + [Reply(Last(h))[0]]
  {
  }

  ghost predicate AllAnswered(h: seq<Event>, kind: Packet -> Option<int>, ask: Event -> Option<int>)
    decreases |h|
  {
    h == [] || (AllAnswered(Earlier(h), kind, ask) && AnsweredBy(Last(h), kind, ask))
  }

  lemma {:induction false} AnsweredThroughout(h: seq<Event>, kind: Packet -> Option<int>, ask: Event -> Option<int>)
    requires AllAnswered(h, kind, ask)
    ensures Sent(Replies(h), kind) == Asked(h, ask)
    decreases |h|
  {
    if h != [] {
      AnsweredThroughout(Earlier(h), kind, ask);
      RepliesMore(h);
      if Reply(Last(h)) != [] {
        SentMore(Replies(Earlier(h)), Reply(Last(h))[0], kind);
      }
    }
  }

  /** What is published are messages. */
  ghost predicate OnlyMessages(h: seq<Event>) {
    forall e <- h :: e.Published? ==> e.message.Publish?
  }

  lemma MessageAnswered(e: Event)
    requires e.Published? ==> e.message.Publish?
    ensures AnsweredBy(e, PubackOf, Message1) && AnsweredBy(e, PubrecOf, Message2)
  {
  }

  lemma StepAnswered(e: Event)
    requires e.Published? ==> e.message.Publish?
    ensures AnsweredBy(e, PubrelOf, ReceivedPubrec) && AnsweredBy(e, PubcompOf, ReceivedPubrel)
  {
  }

  lemma {:induction false} EventsAnswered(h: seq<Event>)
    requires OnlyMessages(h)
    ensures AllAnswered(h, PubackOf, Message1) && AllAnswered(h, PubrecOf, Message2)
    ensures AllAnswered(h, PubrelOf, ReceivedPubrec) && AllAnswered(h, PubcompOf, ReceivedPubrel)
    decreases |h|
  {
    if h != [] {
      EventsAnswered(Earlier(h));
      MessageAnswered(Last(h));
      StepAnswered(Last(h));
    }
  }

  /**
    Over every run, the client sends a PUBACK for each message of QoS 1, a PUBREC for each of QoS 2, a
    PUBREL for each PUBREC and a PUBCOMP for each PUBREL that could be answered, in that order and once each.
  */
  lemma EachIsAnswered(h: seq<Event>)
    requires OnlyMessages(h)
    ensures Sent(Replies(h), PubackOf) == Asked(h, Message1) && Sent(Replies(h), PubrecOf) == Asked(h, Message2)
    ensures Sent(Replies(h), PubrelOf) == Asked(h, ReceivedPubrec)
    ensures Sent(Replies(h), PubcompOf) == Asked(h, ReceivedPubrel)
  {
    EventsAnswered(h);
    AnsweredThroughout(h, PubackOf, Message1);
    AnsweredThroughout(h, PubrecOf, Message2);
    AnsweredThroughout(h, PubrelOf, ReceivedPubrec);
    AnsweredThroughout(h, PubcompOf, ReceivedPubrel);
  }
}
