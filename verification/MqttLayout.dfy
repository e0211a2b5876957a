/**
  Where the fields of an MQTT 3.1.1 packet stand: the first byte, the length behind it, the order and
  the bits of the fields, for all packets and in the examples of the standard.
*/
module MqttLayout {
  import opened Wrappers
  import opened ByteWords
  import opened MqttProtocol

  // ---------------------------------------------------------------------
  // The fixed header
  // ---------------------------------------------------------------------

  /** The control packet type in the upper half, the flags in the lower half (section 2.2). */
  function FirstByte(p: Packet): int {
    match p
    case ConnectPacket(_) => 0x10
    case Connack(_, _) => 0x20
    case Publish(_, _, qos, _, dup, retain) =>
      0x30 + (if dup then 0x08 else 0) + 2 * (qos % 4) + (if retain then 0x01 else 0)
    case Puback(_) => 0x40
    case Pubrec(_) => 0x50
    case Pubrel(_) => 0x62
    case Pubcomp(_) => 0x70
    case Subscribe(_, _) => 0x82
    case Suback(_, _) => 0x90
    case Unsubscribe(_, _) => 0xA2
    case Unsuback(_) => 0xB0
    case Pingreq => 0xC0
    case Pingresp => 0xD0
    case Disconnect => 0xE0
  }

  /** A packet starts with its first byte and the length of everything behind that length. */
  lemma StartsWithFirstByte(p: Packet)
    requires Encodable(p)
    ensures Wire(p)[0] == FirstByte(p)
    ensures Wire(p)[1..] == Varint(|Body(p)|) + Body(p)
    ensures Wire(p)[1 + |Varint(|Body(p)|)|..] == Body(p)
  {
  }

  /** What the bytes of a length are worth: seven bits each, the first byte in units, the next in 128 units. */
  function Worth(s: Bytes, unit: nat): nat
    decreases |s|
  {
    if s == [] then 0 else s[0] % 128 * unit + Worth(s[1..], unit * 128)
  }

  /** All bytes but the last have their top bit set. */
  predicate Continued(s: Bytes)
    decreases |s|
  {
    s != [] && if |s| == 1 then s[0] < 128 else s[0] >= 128 && Continued(s[1..])
  }

  lemma DigitsOf(value: nat, unit: nat)
    ensures value % 128 * unit + value / 128 * (unit * 128) == value * unit
  {
    var q, r := value / 128, value % 128;
    assert value == 128 * q + r;
    assert (128 * q + r) * unit == q * (unit * 128) + r * unit;
  }

  /**
    A length is worth what its bytes are, ends at the first byte without the top bit, and takes no more
    bytes than it has to (section 2.2.3).
  */
  lemma {:induction false} VarintIsWorth(value: nat, unit: nat)
    ensures var s := Varint(value); Continued(s) && Worth(s, unit) == value * unit
    ensures var n := |Varint(value)|; n >= 1 && value < Capacity(n) && (n > 1 ==> value >= Capacity(n - 1))
    decreases value
  {
    if value < 128 {
      assert value % 128 == value && Varint(value)[1..] == [];
      assert Worth([], unit * 128) == 0;
      assert Capacity(1) == 128 * Capacity(0);
    } else {
      var rest := Varint(value / 128);
      VarintIsWorth(value / 128, unit * 128);
      DigitsOf(value, unit);
      assert Varint(value) == [128 + value % 128] + rest;
      assert Varint(value)[1..] == rest;
    }
  }

  // ---------------------------------------------------------------------
  // Fields
  // ---------------------------------------------------------------------

  lemma Even(f: int, h: int)
    requires f == 2 * h
    ensures f % 2 == 0
  {
  }

  /** The flags of a CONNECT (section 3.1.2.3): which bit says what, and the lowest one is clear. */
  lemma ConnectFlagBits(c: Connect)
    ensures var f := ConnectFlags(c);
      && (f / 128 % 2 == 1 <==> c.username.Some?) && (f / 64 % 2 == 1 <==> c.password.Some?)
      && (f / 32 % 2 == 1 <==> c.willRetain) && f / 8 % 4 == c.willQos % 4 && (f / 4 % 2 == 1 <==> c.willTopic.Some?)
      && (f / 2 % 2 == 1 <==> c.cleanSession) && f % 2 == 0
  {
    var u, p, r := Bit(c.username.Some?, 1), Bit(c.password.Some?, 1), Bit(c.willRetain, 1);
    var q, w, s := c.willQos % 4, Bit(c.willTopic.Some?, 1), Bit(c.cleanSession, 1);
    SixFlags(u, p, r, q, w, s, ConnectFlags(c));
    Even(ConnectFlags(c), 64 * u + 32 * p + 16 * r + 4 * q + 2 * w + s);
  }

  /** A text with its length in front. */
  ghost predicate IsText(s: Bytes, text: Bytes) {
    |s| == 2 + |text| && 0x100 * (s[0] as int) + (s[1] as int) == |text| && s[2..] == text
  }

  ghost predicate IsNumber(s: Bytes, n: int) {
    |s| == 2 && 0x100 * (s[0] as int) + (s[1] as int) == n
  }

  lemma PrefixedIsText(s: Bytes)
    requires Short(s)
    ensures IsText(Prefixed(s), s)
  {
    var p := Prefixed(s);
    assert p[0] == BigEndian(|s|)[0] && p[1] == BigEndian(|s|)[1];
  }

  /** An optional text, and nothing when there is none. */
  ghost predicate IsOptional(s: Bytes, text: Option<Bytes>) {
    if text.None? then s == [] else IsText(s, text.value)
  }

  lemma OptionalIsText(o: Option<Bytes>)
    requires ShortIfSome(o)
    ensures IsOptional(OptionalString(o), o)
  {
    if o.Some? {
      PrefixedIsText(o.value);
    }
  }

  /** What follows the length of a CONNECT: the fields in this order (sections 3.1.2 and 3.1.3). */
  datatype ConnectFields = ConnectFields(
    name: Bytes, level: Byte, flags: Byte, keepAlive: Bytes, clientId: Bytes, willTopic: Bytes, willMessage: Bytes,
    username: Bytes, password: Bytes)

  function Joined(f: ConnectFields): Bytes {
    f.name + ([f.level] + ([f.flags] + (f.keepAlive
    + (f.clientId + (f.willTopic + (f.willMessage + (f.username + f.password)))))))
  }

  lemma ConnectInOrder(c: Connect) returns (f: ConnectFields)
    requires ConnectEncodable(c)
    ensures Body(ConnectPacket(c)) == Joined(f)
    ensures IsText(f.name, c.protocolName) && f.level == c.protocolLevel && f.flags == ConnectFlags(c)
    ensures IsNumber(f.keepAlive, c.keepAlive) && IsText(f.clientId, c.clientId)
    ensures IsOptional(f.willTopic, c.willTopic)
    ensures c.willTopic.Some? ==> IsText(f.willMessage, if c.willMessage.Some? then c.willMessage.value else [])
    ensures c.willTopic.None? ==> f.willMessage == []
    ensures IsOptional(f.username, c.username) && IsOptional(f.password, c.password)
  {
    f := ConnectFields(Prefixed(c.protocolName), c.protocolLevel, ConnectFlags(c), BigEndian(c.keepAlive),
                       Prefixed(c.clientId), OptionalString(c.willTopic), OptionalString(WillMessage(c)),
                       OptionalString(c.username), OptionalString(c.password));
    assert OptionalString(c.password) + [] == f.password;
    PrefixedIsText(c.protocolName);
    PrefixedIsText(c.clientId);
    OptionalIsText(c.willTopic);
    OptionalIsText(WillMessage(c));
    OptionalIsText(c.username);
    OptionalIsText(c.password);
  }

  /** A PUBLISH is the topic, the identifier from QoS 1 on, and the payload (section 3.3). */
  lemma PublishInOrder(p: Packet) returns (topic: Bytes, id: Bytes)
    requires p.Publish? && BodyEncodable(p)
    ensures Body(p) == topic + id + p.payload && IsText(topic, p.topic)
    ensures if p.qos > 0 then IsNumber(id, p.packetId.value) else id == []
  {
    topic, id := Prefixed(p.topic), if p.qos > 0 then BigEndian(p.packetId.value) else [];
    PrefixedIsText(p.topic);
  }

  /** The packets that only acknowledge are their identifier. */
  lemma AcknowledgementIsIdentifier(id: Word)
    ensures forall p <- [Puback(id), Pubrec(id), Pubrel(id), Pubcomp(id), Unsuback(id)] ::
      BodyEncodable(p) && IsNumber(Body(p), id)
  {
  }

  /** One requested topic: its name and its QoS. */
  ghost predicate IsRequest(s: Bytes, t: TopicQos) {
    |s| > 2 && IsText(s[..|s| - 1], t.topic) && s[|s| - 1] == t.qos % 4
  }

  /** A SUBSCRIBE is its identifier and the requests one after the other (section 3.8). */
  lemma SubscribeInOrder(id: Word, first: TopicQos, topics: seq<TopicQos>) returns (request: Bytes)
    requires Short(first.topic) && TopicsEncodable(topics)
    ensures TopicsEncodable([first] + topics) && IsRequest(request, first)
    ensures Body(Subscribe(id, [first] + topics)) == BigEndian(id) + request + TopicBytes(topics)
    ensures Body(Subscribe(id, [])) == BigEndian(id) && TopicBytes([]) == []
  {
    request := Prefixed(first.topic) + [first.qos % 4];
    PrefixedIsText(first.topic);
    assert request[..|request| - 1] == Prefixed(first.topic);
    assert ([first] + topics)[1..] == topics;
  }

  /** An UNSUBSCRIBE is its identifier and the filters one after the other (section 3.10). */
  lemma UnsubscribeInOrder(id: Word, first: Bytes, filters: seq<Bytes>) returns (text: Bytes)
    requires Short(first) && forall f <- filters :: Short(f)
    ensures BodyEncodable(Unsubscribe(id, [first] + filters)) && IsText(text, first)
    ensures Body(Unsubscribe(id, [first] + filters)) == BigEndian(id) + text + FilterBytes(filters)
    ensures Body(Unsubscribe(id, [])) == BigEndian(id) && FilterBytes([]) == []
  {
    text := Prefixed(first);
    PrefixedIsText(first);
    assert ([first] + filters)[1..] == filters;
  }

  /** A CONNACK tells in its lowest bit whether there was a session; a SUBACK lists its codes (sections 3.2 and 3.9). */
  lemma AnswersInOrder(present: bool, code: Byte, id: Word, codes: seq<int>)
    ensures Body(Connack(present, code)) == [if present then 1 else 0, code]
    ensures var s := Body(Suback(id, codes));
      |s| == 2 + |codes| && IsNumber(s[..2], id) && forall i :: 0 <= i < |codes| ==> s[2 + i] == codes[i] % 256
  {
    assert Body(Suback(id, codes))[..2] == BigEndian(id);
  }

  // ---------------------------------------------------------------------
  // The examples of the standard
  // ---------------------------------------------------------------------

  /** A QoS 1 message on the topic a/b with the identifier 10 (section 3.3.2). */
  lemma PublishExample()
    ensures Encodable(Publish([0x61, 0x2F, 0x62], [], 1, Some(10), false, false))
    ensures Wire(Publish([0x61, 0x2F, 0x62], [], 1, Some(10), false, false))
         == [0x32, 0x07, 0x00, 0x03, 0x61, 0x2F, 0x62, 0x00, 0x0A]
  {
  }

  /** The variable header with user name, password, a will of QoS 1 and a clean session (section 3.1.2.11). */
  lemma ConnectExample(c: Connect)
    requires c.protocolName == [0x4D, 0x51, 0x54, 0x54] && c.protocolLevel == 4 && c.keepAlive == 10
    requires c.username.Some? && c.password.Some? && c.willTopic.Some? && c.willQos == 1
    requires !c.willRetain && c.cleanSession && ConnectEncodable(c)
    ensures [0x00, 0x04, 0x4D, 0x51, 0x54, 0x54, 0x04, 0xCE, 0x00, 0x0A] <= Body(ConnectPacket(c))
  {
  }
}
