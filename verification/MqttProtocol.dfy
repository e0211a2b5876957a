/**
  MQTT 3.1.1 control packets on the wire: variable-byte integers, length-prefixed strings, every
  packet's encoder and the decoder of one packet from the front of a buffer.
*/
module MqttProtocol {
  import opened Wrappers
  import opened ByteWords
  import opened PacketStream

  // ---------------------------------------------------------------------
  // Variable-byte integers
  // ---------------------------------------------------------------------

  const MAX_VARINT: int := 268435455

  function Varint(value: nat): Bytes {
    if value < 128 then [value] else [128 + value % 128] + Varint(value / 128)
  }

  datatype VarintResult = Decoded(value: nat, consumed: nat) | Invalid

  /** Reads at most `left` bytes, seven bits from each, the least significant ones first. */
  function ReadVarint(s: Bytes, left: nat): (r: VarintResult)
    ensures r.Decoded? ==> r.consumed >= 1
    decreases left
  {
    if s == [] || left == 0 then Invalid
    else if s[0] < 128 then Decoded(s[0], 1)
    else Behind(s[0] % 128, 128, 1, ReadVarint(s[1..], left - 1))
  }

  /** The result when n bytes worth `value` stood before, and the rest counts `unit` times. */
  function Behind(value: nat, unit: nat, n: nat, r: VarintResult): VarintResult {
    if r.Decoded? then Decoded(value + unit * r.value, n + r.consumed) else Invalid
  }

  lemma LastDigit(bytes: Bytes, rest: nat)
    requires rest / 128 == 0
    ensures bytes + Varint(rest) == bytes + [rest % 128]
  {
  }

  lemma OneDigit(bytes: Bytes, rest: nat)
    requires rest / 128 > 0
    ensures bytes + Varint(rest) == bytes + [128 + rest % 128] + Varint(rest / 128)
  {
    assert Varint(rest) == [128 + rest % 128] + Varint(rest / 128);
  }

  method EncodeVarint(value: int) returns (encoded: Option<Bytes>)
    ensures encoded == if 0 <= value <= MAX_VARINT then Some(Varint(value)) else None
  {
    if value < 0 || value > MAX_VARINT {
      return None;
    }
    var bytes: Bytes := [];
    var rest: nat := value;
    while true
      invariant bytes + Varint(rest) == Varint(value)
      decreases rest
    {
      var digit := rest % 128;
      ghost var before := rest;
      rest := rest / 128;
      if rest > 0 {
        OneDigit(bytes, before);
        digit := digit + 128;
      } else {
        LastDigit(bytes, before);
      }
      bytes := bytes + [digit];
      if rest == 0 {
        break;
      }
    }
    encoded := Some(bytes);
  }

  lemma BehindNothing(r: VarintResult)
    ensures Behind(0, 1, 0, r) == r
  {
  }

  lemma Rescale(value: nat, unit: nat, digit: nat, v: nat)
    ensures value + unit * (digit + 128 * v) == (value + digit * unit) + (unit * 128) * v
  {
  }

  /** One turn of the decoding loop: the byte is worth its seven bits times the unit. */
  lemma NextDigit(buf: Bytes, idx: nat, left: nat, value: nat, unit: nat, n: nat, worth: nat, next: nat)
    requires idx < |buf| && left >= 1 && worth == buf[idx] % 128 * unit && next == unit * 128
    ensures Behind(value, unit, n, ReadVarint(buf[idx..], left))
         == if buf[idx] < 128 then Decoded(value + worth, n + 1)
            else Behind(value + worth, next, n + 1, ReadVarint(buf[idx + 1..], left - 1))
  {
    assert buf[idx..][1..] == buf[idx + 1..];
    var r := ReadVarint(buf[idx + 1..], left - 1);
    if buf[idx] >= 128 && r.Decoded? {
      Rescale(value, unit, buf[idx] % 128, r.value);
    }
  }

  lemma NothingLeft(buf: Bytes, idx: nat, left: nat)
    requires idx == |buf| || (left == 0 && idx <= |buf|)
    ensures ReadVarint(buf[idx..], left) == Invalid
  {
  }

  method DecodeVarint(buf: Bytes, offset: nat) returns (r: VarintResult)
    requires offset <= |buf|
    ensures r == ReadVarint(buf[offset..], 4)
  {
    var multiplier: nat := 1;
    var value: nat := 0;
    var bytesRead: nat := 0;
    var idx := offset;
    BehindNothing(ReadVarint(buf[offset..], 4));
    while true
      invariant idx == offset + bytesRead <= |buf| && bytesRead <= 3
      invariant Behind(value, multiplier, bytesRead, ReadVarint(buf[idx..], 4 - bytesRead))
             == ReadVarint(buf[offset..], 4)
      decreases 4 - bytesRead
    {
      if idx >= |buf| {
        NothingLeft(buf, idx, 4 - bytesRead);
        return Invalid;
      }
      var encodedByte := buf[idx];
      var worth := encodedByte % 128 * multiplier;
      var next := multiplier * 128;
      NextDigit(buf, idx, 4 - bytesRead, value, multiplier, bytesRead, worth, next);
      idx := idx + 1;
      bytesRead := bytesRead + 1;
      value := value + worth;
      multiplier := next;
      if encodedByte < 128 {
        break;
      }
      if bytesRead >= 4 {
        NothingLeft(buf, idx, 0);
        return Invalid;
      }
    }
    r := Decoded(value, bytesRead);
  }

  /** 128 to the power n. */
  function Capacity(n: nat): (c: nat)
    ensures c >= 1
  {
    if n == 0 then 1 else 128 * Capacity(n - 1)
  }

  /** A number of up to `left` digits is read back, whatever follows it. */
  lemma {:induction false} VarintRead(value: nat, left: nat, rest: Bytes)
    requires left >= 1 && value < Capacity(left)
    ensures ReadVarint(Varint(value) + rest, left) == Decoded(value, |Varint(value)|)
    ensures 1 <= |Varint(value)| <= left
    decreases left
  {
    if value >= 128 {
      assert (Varint(value) + rest)[1..] == Varint(value / 128) + rest;
      VarintRead(value / 128, left - 1, rest);
    }
  }

  /** A strict prefix of a number is incomplete. */
  lemma {:induction false} VarintPrefix(value: nat, k: nat, left: nat)
    requires k < |Varint(value)|
    ensures ReadVarint(Varint(value)[..k], left) == Invalid
    decreases k
  {
    if k > 0 && left > 0 {
      assert Varint(value)[..k][1..] == Varint(value / 128)[..k - 1];
      VarintPrefix(value / 128, k - 1, left - 1);
    }
  }

  /** A number that was read stays the same when more bytes arrive, and is in range. */
  lemma {:induction false} VarintStable(s: Bytes, more: Bytes, left: nat)
    requires ReadVarint(s, left).Decoded?
    ensures ReadVarint(s + more, left) == ReadVarint(s, left)
    ensures 1 <= ReadVarint(s, left).consumed <= left && ReadVarint(s, left).consumed <= |s|
    ensures ReadVarint(s, left).value < Capacity(left)
    decreases left
  {
    if s[0] >= 128 {
      assert (s + more)[1..] == s[1..] + more;
      VarintStable(s[1..], more, left - 1);
    }
  }

  // ---------------------------------------------------------------------
  // Length-prefixed strings
  // ---------------------------------------------------------------------

  predicate Short(s: Bytes) {
    |s| < 65536
  }

  function Prefixed(s: Bytes): Bytes
    requires Short(s)
  {
    BigEndian(|s|) + s
  }

  datatype Taken<T> = Took(value: T, rest: Bytes) | TooFew

  /** A string and what follows it. */
  function TakeString(s: Bytes): (t: Taken<Bytes>)
    ensures t.Took? ==> Short(t.value) && |s| == 2 + |t.value| + |t.rest|
  {
    if |s| < 2 then TooFew
    else
      var length := ReadBigEndian(s[0], s[1]);
      if |s| < 2 + length then TooFew else Took(s[2..2 + length], s[2 + length..])
  }

  function TakeWord(s: Bytes): (t: Taken<Word>)
    ensures t.Took? ==> |s| == 2 + |t.rest|
  {
    if |s| < 2 then TooFew else Took(ReadBigEndian(s[0], s[1]), s[2..])
  }

  function TakeByte(s: Bytes): (t: Taken<Byte>)
    ensures t.Took? ==> |s| == 1 + |t.rest|
  {
    if s == [] then TooFew else Took(s[0], s[1..])
  }

  /** An optional string, present when its flag was set. */
  function TakeOptional(flag: bool, s: Bytes): (t: Taken<Option<Bytes>>)
    ensures t.Took? ==> (flag <==> t.value.Some?) && (flag ==> Short(t.value.value))
    ensures t.Took? ==> |t.rest| <= |s|
  {
    if !flag then Took(None, s)
    else
      match TakeString(s)
      case Took(v, rest) => Took(Some(v), rest)
      case TooFew => TooFew
  }

  lemma TakePrefixed(s: Bytes, rest: Bytes)
    requires Short(s)
    ensures TakeString(Prefixed(s) + rest) == Took(s, rest)
  {
    var all := Prefixed(s) + rest;
    assert all[0] == BigEndian(|s|)[0] && all[1] == BigEndian(|s|)[1];
    assert all[2..2 + |s|] == s && all[2 + |s|..] == rest;
  }

  lemma TakeBigEndian(n: Word, rest: Bytes)
    ensures TakeWord(BigEndian(n) + rest) == Took(n, rest)
  {
    assert (BigEndian(n) + rest)[2..] == rest;
  }

  lemma TakeOne(b: Byte, rest: Bytes)
    ensures TakeByte([b] + rest) == Took(b, rest)
  {
    assert ([b] + rest)[1..] == rest;
  }

  function OptionalString(o: Option<Bytes>): Bytes
    requires o.Some? ==> Short(o.value)
  {
    if o.Some? then Prefixed(o.value) else []
  }

  lemma TakeOptionalString(o: Option<Bytes>, rest: Bytes)
    requires o.Some? ==> Short(o.value)
    ensures TakeOptional(o.Some?, OptionalString(o) + rest) == Took(o, rest)
  {
    if o.Some? {
      TakePrefixed(o.value, rest);
    } else {
      assert [] + rest == rest;
    }
  }

  // ---------------------------------------------------------------------
  // Packets
  // ---------------------------------------------------------------------

  /** Connection settings; strings are their UTF-8 bytes. */
  datatype Connect = Connect(
    clientId: Bytes, cleanSession: bool, keepAlive: int, username: Option<Bytes>, password: Option<Bytes>,
    willTopic: Option<Bytes>, willMessage: Option<Bytes>, willQos: int, willRetain: bool,
    protocolName: Bytes, protocolLevel: int)

  datatype TopicQos = TopicQos(topic: Bytes, qos: int)

  datatype Packet =
    | ConnectPacket(connect: Connect)
    | Connack(sessionPresent: bool, returnCode: int)
    | Publish(topic: Bytes, payload: Bytes, qos: int, packetId: Option<int>, dup: bool, retain: bool)
    | Puback(ackId: int)
    | Pubrec(recId: int)
    | Pubrel(relId: int)
    | Pubcomp(compId: int)
    | Subscribe(subscribeId: int, topics: seq<TopicQos>)
    | Suback(subackId: int, returnCodes: seq<int>)
    | Unsubscribe(unsubscribeId: int, filters: seq<Bytes>)
    | Unsuback(unsubackId: int)
    | Pingreq
    | Pingresp
    | Disconnect

  predicate IsWord(n: int) {
    0 <= n < 65536
  }

  predicate ShortIfSome(o: Option<Bytes>) {
    o.Some? ==> Short(o.value)
  }

  // ---------------------------------------------------------------------
  // Encoding
  // ---------------------------------------------------------------------

  function Bit(b: bool, weight: nat): nat {
    if b then weight else 0
  }

  function ConnectFlags(c: Connect): Byte {
    Bit(c.username.Some?, 128) + Bit(c.password.Some?, 64) + Bit(c.willRetain, 32) + c.willQos % 4 * 8
    + Bit(c.willTopic.Some?, 4) + Bit(c.cleanSession, 2)
  }

  /** The will message is sent only with a will topic, as the empty message if there is none. */
  function WillMessage(c: Connect): Option<Bytes> {
    if c.willTopic.None? then None else if c.willMessage.None? then Some([]) else c.willMessage
  }

  predicate ConnectEncodable(c: Connect) {
    && Short(c.protocolName) && Short(c.clientId) && 0 <= c.protocolLevel < 256 && IsWord(c.keepAlive)
    && ShortIfSome(c.willTopic) && ShortIfSome(WillMessage(c)) && ShortIfSome(c.username) && ShortIfSome(c.password)
  }

  function ConnectBody(c: Connect): Bytes
    requires ConnectEncodable(c)
  {
    Prefixed(c.protocolName) + ([c.protocolLevel] + ([ConnectFlags(c)] + (BigEndian(c.keepAlive)
    + (Prefixed(c.clientId) + (OptionalString(c.willTopic) + (OptionalString(WillMessage(c))
    + (OptionalString(c.username) + (OptionalString(c.password) + []))))))))
  }

  predicate TopicsEncodable(topics: seq<TopicQos>) {
    forall t <- topics :: Short(t.topic)
  }

  function TopicBytes(topics: seq<TopicQos>): Bytes
    requires TopicsEncodable(topics)
  {
    if topics == [] then []
    else Prefixed(topics[0].topic) + ([topics[0].qos % 4] + TopicBytes(topics[1..]))
  }

  function FilterBytes(filters: seq<Bytes>): Bytes
    requires forall f <- filters :: Short(f)
  {
    if filters == [] then [] else Prefixed(filters[0]) + FilterBytes(filters[1..])
  }

  function CodeBytes(codes: seq<int>): (s: Bytes)
    ensures |s| == |codes|
  {
    seq(|codes|, i requires 0 <= i < |codes| => codes[i] % 256)
  }

  predicate BodyEncodable(p: Packet) {
    match p
    case ConnectPacket(c) => ConnectEncodable(c)
    case Connack(_, _) => true
    case Publish(topic, _, qos, id, _, _) => Short(topic) && (qos > 0 ==> id.Some? && IsWord(id.value))
    case Puback(id) => IsWord(id)
    case Pubrec(id) => IsWord(id)
    case Pubrel(id) => IsWord(id)
    case Pubcomp(id) => IsWord(id)
    case Subscribe(id, topics) => IsWord(id) && TopicsEncodable(topics)
    case Suback(id, _) => IsWord(id)
    case Unsubscribe(id, filters) => IsWord(id) && forall f <- filters :: Short(f)
    case Unsuback(id) => IsWord(id)
    case Pingreq => true
    case Pingresp => true
    case Disconnect => true
  }

  /** Everything behind the remaining length. */
  function Body(p: Packet): Bytes
    requires BodyEncodable(p)
  {
    match p
    case ConnectPacket(c) => ConnectBody(c)
    case Connack(present, code) => [Bit(present, 1), code % 256]
    case Publish(topic, payload, qos, id, _, _) =>
      Prefixed(topic) + ((if qos > 0 then BigEndian(id.value) else []) + payload)
    case Puback(id) => BigEndian(id)
    case Pubrec(id) => BigEndian(id)
    case Pubrel(id) => BigEndian(id)
    case Pubcomp(id) => BigEndian(id)
    case Subscribe(id, topics) => BigEndian(id) + TopicBytes(topics)
    case Suback(id, codes) => BigEndian(id) + CodeBytes(codes)
    case Unsubscribe(id, filters) => BigEndian(id) + FilterBytes(filters)
    case Unsuback(id) => BigEndian(id)
    case Pingreq => []
    case Pingresp => []
    case Disconnect => []
  }

  /** The packet type, 1 to 14. */
  function TypeOf(p: Packet): (t: nat)
    ensures 1 <= t <= 14
  {
    match p
    case ConnectPacket(_) => 1
    case Connack(_, _) => 2
    case Publish(_, _, _, _, _, _) => 3
    case Puback(_) => 4
    case Pubrec(_) => 5
    case Pubrel(_) => 6
    case Pubcomp(_) => 7
    case Subscribe(_, _) => 8
    case Suback(_, _) => 9
    case Unsubscribe(_, _) => 10
    case Unsuback(_) => 11
    case Pingreq => 12
    case Pingresp => 13
    case Disconnect => 14
  }

  function FlagsOf(p: Packet): (f: nat)
    ensures f < 16
  {
    match p
    case Publish(_, _, qos, _, dup, retain) => Bit(dup, 8) + qos % 4 * 2 + Bit(retain, 1)
    case Pubrel(_) => 2
    case Subscribe(_, _) => 2
    case Unsubscribe(_, _) => 2
    case _ => 0
  }

  predicate Encodable(p: Packet) {
    BodyEncodable(p) && |Body(p)| <= MAX_VARINT
  }

  /** The bytes of a packet, or nothing where an encoder raises. */
  function EncodePacket(p: Packet): Option<Bytes> {
    if Encodable(p) then Some(Wire(p)) else None
  }

  function Wire(p: Packet): Bytes
    requires Encodable(p)
  {
    Message(TypeOf(p) * 16 + FlagsOf(p), Body(p))
  }

  function Message(first: Byte, body: Bytes): Bytes {
    [first] + (Varint(|body|) + body)
  }

  // ---------------------------------------------------------------------
  // Decoding
  // ---------------------------------------------------------------------

  /** Malformed is a ValueError; Crash is any other exception, raised by an unguarded access. */
  datatype BodyResult = Parsed(packet: Packet) | BadBody | Crashed

  function ParseConnect(s: Bytes): BodyResult {
    match TakeString(s)
    case TooFew => BadBody
    case Took(name, s1) =>
    match TakeByte(s1)
    case TooFew => Crashed
    case Took(level, s2) =>
    match TakeByte(s2)
    case TooFew => Crashed
    case Took(flags, s3) =>
    match TakeWord(s3)
    case TooFew => Crashed
    case Took(keepAlive, s4) =>
      ParseConnectPayload(name, level, flags, keepAlive, s4)
  }

  function ParseConnectPayload(name: Bytes, level: Byte, flags: Byte, keepAlive: Word, s: Bytes): BodyResult {
    match TakeString(s)
    case TooFew => BadBody
    case Took(clientId, s1) =>
    match TakeOptional(flags / 4 % 2 == 1, s1)
    case TooFew => BadBody
    case Took(willTopic, s2) =>
    match TakeOptional(flags / 4 % 2 == 1, s2)
    case TooFew => BadBody
    case Took(willMessage, s3) =>
    match TakeOptional(flags / 128 % 2 == 1, s3)
    case TooFew => BadBody
    case Took(username, s4) =>
    match TakeOptional(flags / 64 % 2 == 1, s4)
    case TooFew => BadBody
    case Took(password, _) =>
      Parsed(ConnectPacket(Connect(clientId, flags / 2 % 2 == 1, keepAlive, username, password, willTopic,
                                   willMessage, flags / 8 % 4, flags / 32 % 2 == 1, name, level)))
  }

  function ParsePublish(flags: nat, s: Bytes): BodyResult {
    var qos := flags / 2 % 4;
    match TakeString(s)
    case TooFew => BadBody
    case Took(topic, s1) =>
      if qos == 0 then Parsed(Publish(topic, s1, qos, None, flags / 8 % 2 == 1, flags % 2 == 1))
      else
        match TakeWord(s1)
        case TooFew => BadBody
        case Took(id, payload) =>
          Parsed(Publish(topic, payload, qos, Some(id), flags / 8 % 2 == 1, flags % 2 == 1))
  }

  /** The topic filters of a SUBSCRIBE. */
  function TakeTopics(s: Bytes): (r: Option<seq<TopicQos>>)
    decreases |s|
  {
    if s == [] then Some([])
    else
      match TakeString(s)
      case TooFew => None
      case Took(topic, s1) =>
        if s1 == [] then None
        else
          match TakeTopics(s1[1..])
          case None => None
          case Some(topics) => Some([TopicQos(topic, s1[0] % 4)] + topics)
  }

  function TakeFilters(s: Bytes): (r: Option<seq<Bytes>>)
    decreases |s|
  {
    if s == [] then Some([])
    else
      match TakeString(s)
      case TooFew => None
      case Took(topic, s1) =>
        match TakeFilters(s1)
        case None => None
        case Some(filters) => Some([topic] + filters)
  }

  function ParseSubscribe(s: Bytes): BodyResult {
    match TakeWord(s)
    case TooFew => BadBody
    case Took(id, s1) =>
      match TakeTopics(s1)
      case None => BadBody
      case Some(topics) => Parsed(Subscribe(id, topics))
  }

  function ParseUnsubscribe(s: Bytes): BodyResult {
    match TakeWord(s)
    case TooFew => BadBody
    case Took(id, s1) =>
      match TakeFilters(s1)
      case None => BadBody
      case Some(filters) => Parsed(Unsubscribe(id, filters))
  }

  function ParseConnack(s: Bytes): BodyResult {
    if |s| < 2 then BadBody else Parsed(Connack(s[0] % 2 == 1, s[1]))
  }

  /** The packets that carry a packet identifier and perhaps return codes. */
  function ParseWithId(packetType: int, s: Bytes): BodyResult {
    match TakeWord(s)
    case TooFew => BadBody
    case Took(id, s1) =>
      Parsed(if packetType == 4 then Puback(id)
             else if packetType == 5 then Pubrec(id)
             else if packetType == 6 then Pubrel(id)
             else if packetType == 7 then Pubcomp(id)
             else if packetType == 9 then Suback(id, s1)
             else Unsuback(id))
  }

  function ParseBody(packetType: int, flags: nat, body: Bytes): BodyResult
    requires 1 <= packetType <= 14
  {
    if packetType == 1 then ParseConnect(body)
    else if packetType == 2 then ParseConnack(body)
    else if packetType == 3 then ParsePublish(flags, body)
    else if packetType == 8 then ParseSubscribe(body)
    else if packetType == 10 then ParseUnsubscribe(body)
    else if packetType == 12 then Parsed(Pingreq)
    else if packetType == 13 then Parsed(Pingresp)
    else if packetType == 14 then Parsed(Disconnect)
    else ParseWithId(packetType, body)
  }

  datatype Extracted = Waiting | BadType | Whole(packetType: int, flags: nat, body: Bytes, total: nat)

  /** The fixed header and the body it announces, if all of it has arrived. */
  function Extract(buffer: Bytes): (e: Extracted)
    ensures e.Whole? ==> 1 <= e.packetType <= 14 && 2 <= e.total <= |buffer|
  {
    if |buffer| < 2 then Waiting
    else if buffer[0] / 16 == 0 || buffer[0] / 16 == 15 then BadType
    else Cut(buffer, ReadVarint(buffer[1..], 4))
  }

  /** The message, once its length has been read. */
  function Cut(buffer: Bytes, v: VarintResult): (e: Extracted)
    requires |buffer| >= 2
    ensures e.Whole? ==> e.packetType == buffer[0] / 16 && e.total <= |buffer|
  {
    match v
    case Invalid => Waiting
    case Decoded(length, n) =>
      if |buffer| < 1 + n + length then Waiting
      else Whole(buffer[0] / 16, buffer[0] % 16, buffer[1 + n..1 + n + length], 1 + n + length)
  }

  /** One packet from the front of the buffer. */
  function Decode(buffer: Bytes): (r: Result<Packet>)
    ensures r.Complete? ==> 2 <= r.consumed <= |buffer|
  {
    match Extract(buffer)
    case Waiting => NeedMore
    case BadType => Malformed
    case Whole(packetType, flags, body, total) =>
      match ParseBody(packetType, flags, body)
      case Parsed(p) => Complete(p, total)
      case BadBody => Malformed
      case Crashed => Crash
  }

  /** What was read before, then the rest if that succeeds. */
  function Prepend<T>(before: seq<T>, r: Option<seq<T>>): Option<seq<T>> {
    if r.Some? then Some(before + r.value) else None
  }

  lemma PrependNothing<T>(r: Option<seq<T>>)
    ensures Prepend([], r) == r
  {
    if r.Some? {
      assert [] + r.value == r.value;
    }
  }

  lemma PrependOne<T>(before: seq<T>, x: T, r: Option<seq<T>>)
    ensures Prepend(before, Prepend([x], r)) == Prepend(before + [x], r)
  {
    if r.Some? {
      assert before + ([x] + r.value) == before + [x] + r.value;
    }
  }

  /** The loop over the topic filters of a SUBSCRIBE. */
  method DecodeTopics(body: Bytes) returns (r: Option<seq<TopicQos>>)
    requires |body| >= 2
    ensures r == TakeTopics(body[2..])
  {
    var offset: nat := 2;
    var topics: seq<TopicQos> := [];
    PrependNothing(TakeTopics(body[2..]));
    while offset < |body|
      invariant TopicsRead(topics, body, offset)
    {
      var taken := TakeString(body[offset..]);
      if taken.TooFew? {
        return None;
      }
      TopicsReadOne(topics, body, offset, taken.value, taken.rest);
      offset := offset + 2 + |taken.value|;
      if offset >= |body| {
        return None;
      }
      topics := topics + [TopicQos(taken.value, body[offset] % 4)];
      offset := offset + 1;
    }
    assert body[offset..] == [] && topics + [] == topics;
    r := Some(topics);
  }

  /** The topics are those in front of the offset. */
  ghost predicate TopicsRead(topics: seq<TopicQos>, body: Bytes, offset: nat) {
    2 <= offset <= |body| && Prepend(topics, TakeTopics(body[offset..])) == TakeTopics(body[2..])
  }

  lemma TopicsReadOne(topics: seq<TopicQos>, body: Bytes, offset: nat, topic: Bytes, rest: Bytes)
    requires TopicsRead(topics, body, offset) && offset < |body| && TakeString(body[offset..]) == Took(topic, rest)
    ensures var end := offset + 2 + |topic|;
      && end <= |body| && (end == |body| ==> TakeTopics(body[2..]) == None)
      && (end < |body| ==> TopicsRead(topics + [TopicQos(topic, body[end] % 4)], body, end + 1))
  {
    var end := offset + 2 + |topic|;
    assert body[end..] == rest;
    if end < |body| {
      assert body[end + 1..] == rest[1..];
      PrependOne(topics, TopicQos(topic, body[end] % 4), TakeTopics(body[end + 1..]));
    }
  }

  /** The loop over the topic filters of an UNSUBSCRIBE. */
  method DecodeFilters(body: Bytes) returns (r: Option<seq<Bytes>>)
    requires |body| >= 2
    ensures r == TakeFilters(body[2..])
  {
    var offset := 2;
    var filters: seq<Bytes> := [];
    PrependNothing(TakeFilters(body[2..]));
    while offset < |body|
      invariant 2 <= offset <= |body|
      invariant Prepend(filters, TakeFilters(body[offset..])) == TakeFilters(body[2..])
    {
      var taken := TakeString(body[offset..]);
      if taken.TooFew? {
        return None;
      }
      offset := offset + 2 + |taken.value|;
      assert body[offset..] == taken.rest;
      PrependOne(filters, taken.value, TakeFilters(taken.rest));
      filters := filters + [taken.value];
    }
    assert body[offset..] == [] && filters + [] == filters;
    r := Some(filters);
  }

  method DecodeBody(packetType: int, flags: nat, body: Bytes) returns (r: BodyResult)
    requires 1 <= packetType <= 14
    ensures r == ParseBody(packetType, flags, body)
  {
    if packetType == 8 && |body| >= 2 {
      var topics := DecodeTopics(body);
      r := if topics.None? then BadBody else Parsed(Subscribe(ReadBigEndian(body[0], body[1]), topics.value));
    } else if packetType == 10 && |body| >= 2 {
      var filters := DecodeFilters(body);
      r := if filters.None? then BadBody else Parsed(Unsubscribe(ReadBigEndian(body[0], body[1]), filters.value));
    } else {
      r := ParseBody(packetType, flags, body);
    }
  }

  method DecodePacket(buffer: Bytes) returns (r: Result<Packet>)
    ensures r == Decode(buffer)
  {
    if |buffer| < 2 {
      return NeedMore;
    }
    var packetType := buffer[0] / 16;
    var flags := buffer[0] % 16;
    if packetType < 1 || packetType > 14 {
      return Malformed;
    }
    var length := DecodeVarint(buffer, 1);
    if length.Invalid? {
      return NeedMore;
    }
    var total := 1 + length.consumed + length.value;
    if |buffer| < total {
      return NeedMore;
    }
    r := FinishPacket(buffer, packetType, flags, buffer[1 + length.consumed..total], total);
  }

  method FinishPacket(buffer: Bytes, packetType: int, flags: nat, body: Bytes, total: nat) returns (r: Result<Packet>)
    requires Extract(buffer) == Whole(packetType, flags, body, total) && 1 <= packetType <= 14
    ensures r == Decode(buffer)
  {
    var parsed := DecodeBody(packetType, flags, body);
    r := match parsed
      case Parsed(p) => Complete(p, total)
      case BadBody => Malformed
      case Crashed => Crash;
  }

  // ---------------------------------------------------------------------
  // Round trip
  // ---------------------------------------------------------------------

  /** The values that a packet's bytes can express. */
  predicate WellFormed(p: Packet) {
    Encodable(p) &&
    match p
    case ConnectPacket(c) => 0 <= c.willQos < 4 && (c.willTopic.Some? <==> c.willMessage.Some?)
    case Connack(_, code) => 0 <= code < 256
    case Publish(_, _, qos, id, _, _) => 0 <= qos < 4 && (id.Some? <==> qos > 0)
    case Subscribe(_, topics) => forall t <- topics :: 0 <= t.qos < 4
    case Suback(_, codes) => forall c <- codes :: 0 <= c < 256
    case _ => true
  }

  lemma SixFlags(u: nat, p: nat, r: nat, q: nat, w: nat, c: nat, f: nat)
    requires u < 2 && p < 2 && r < 2 && q < 4 && w < 2 && c < 2
    requires f == 128 * u + 64 * p + 32 * r + 8 * q + 4 * w + 2 * c
    ensures f / 2 % 2 == c && f / 4 % 2 == w && f / 8 % 4 == q
    ensures f / 32 % 2 == r && f / 64 % 2 == p && f / 128 % 2 == u
  {
    assert f / 2 == 64 * u + 32 * p + 16 * r + 4 * q + 2 * w + c;
    assert f / 4 == 32 * u + 16 * p + 8 * r + 2 * q + w;
    assert f / 8 == 16 * u + 8 * p + 4 * r + q;
    assert f / 32 == 4 * u + 2 * p + r;
    assert f / 64 == 2 * u + p;
    assert f / 128 == u;
  }

  lemma FlagBits(c: Connect)
    requires 0 <= c.willQos < 4
    ensures var f := ConnectFlags(c);
      && (f / 2 % 2 == 1 <==> c.cleanSession) && (f / 4 % 2 == 1 <==> c.willTopic.Some?)
      && f / 8 % 4 == c.willQos && (f / 32 % 2 == 1 <==> c.willRetain)
      && (f / 64 % 2 == 1 <==> c.password.Some?) && (f / 128 % 2 == 1 <==> c.username.Some?)
  {
    SixFlags(Bit(c.username.Some?, 1), Bit(c.password.Some?, 1), Bit(c.willRetain, 1), c.willQos,
             Bit(c.willTopic.Some?, 1), Bit(c.cleanSession, 1), ConnectFlags(c));
  }

  lemma PayloadSteps(c: Connect, flags: Byte, s: Bytes, s1: Bytes, s2: Bytes, s3: Bytes, s4: Bytes, s5: Bytes)
    requires TakeString(s) == Took(c.clientId, s1)
    requires TakeOptional(flags / 4 % 2 == 1, s1) == Took(c.willTopic, s2)
    requires TakeOptional(flags / 4 % 2 == 1, s2) == Took(c.willMessage, s3)
    requires TakeOptional(flags / 128 % 2 == 1, s3) == Took(c.username, s4)
    requires TakeOptional(flags / 64 % 2 == 1, s4) == Took(c.password, s5)
    requires (flags / 2 % 2 == 1 <==> c.cleanSession) && (flags / 32 % 2 == 1 <==> c.willRetain)
    requires flags / 8 % 4 == c.willQos && 0 <= c.protocolLevel < 256 && IsWord(c.keepAlive)
    ensures ParseConnectPayload(c.protocolName, c.protocolLevel, flags, c.keepAlive, s) == Parsed(ConnectPacket(c))
  {
  }

  lemma ConnectPayloadRoundTrip(c: Connect)
    requires ConnectEncodable(c) && WellFormed(ConnectPacket(c))
    ensures ParseConnectPayload(c.protocolName, c.protocolLevel, ConnectFlags(c), c.keepAlive,
              Prefixed(c.clientId) + (OptionalString(c.willTopic) + (OptionalString(WillMessage(c))
              + (OptionalString(c.username) + (OptionalString(c.password) + [])))))
         == Parsed(ConnectPacket(c))
  {
    FlagBits(c);
    var s4 := OptionalString(c.password) + [];
    var s3 := OptionalString(c.username) + s4;
    var s2 := OptionalString(WillMessage(c)) + s3;
    var s1 := OptionalString(c.willTopic) + s2;
    TakePrefixed(c.clientId, s1);
    TakeOptionalString(c.willTopic, s2);
    TakeOptionalString(WillMessage(c), s3);
    TakeOptionalString(c.username, s4);
    TakeOptionalString(c.password, []);
    PayloadSteps(c, ConnectFlags(c), Prefixed(c.clientId) + s1, s1, s2, s3, s4, []);
  }

  lemma ConnectRoundTrip(c: Connect)
    requires WellFormed(ConnectPacket(c))
    ensures ParseConnect(ConnectBody(c)) == Parsed(ConnectPacket(c))
  {
    var s4 := Prefixed(c.clientId) + (OptionalString(c.willTopic) + (OptionalString(WillMessage(c))
              + (OptionalString(c.username) + (OptionalString(c.password) + []))));
    var s3 := BigEndian(c.keepAlive) + s4;
    TakePrefixed(c.protocolName, [c.protocolLevel] + ([ConnectFlags(c)] + s3));
    TakeOne(c.protocolLevel, [ConnectFlags(c)] + s3);
    TakeOne(ConnectFlags(c), s3);
    TakeBigEndian(c.keepAlive, s4);
    ConnectPayloadRoundTrip(c);
  }

  lemma PublishFlags(dup: nat, q: nat, retain: nat, f: nat)
    requires dup < 2 && q < 4 && retain < 2 && f == 8 * dup + 2 * q + retain
    ensures f / 2 % 4 == q && f / 8 % 2 == dup && f % 2 == retain
  {
    assert f / 2 == 4 * dup + q && f / 8 == dup;
  }

  lemma PublishRoundTrip(p: Packet)
    requires p.Publish? && WellFormed(p)
    ensures ParsePublish(FlagsOf(p), Body(p)) == Parsed(p)
  {
    PublishFlags(Bit(p.dup, 1), p.qos, Bit(p.retain, 1), FlagsOf(p));
    if p.qos > 0 {
      TakePrefixed(p.topic, BigEndian(p.packetId.value) + p.payload);
      TakeBigEndian(p.packetId.value, p.payload);
    } else {
      assert [] + p.payload == p.payload;
      TakePrefixed(p.topic, p.payload);
    }
  }

  lemma TakeFirstTopic(s: Bytes, topic: Bytes, q: Byte, rest: Bytes, later: seq<TopicQos>)
    requires s != [] && TakeString(s) == Took(topic, [q] + rest) && TakeTopics(rest) == Some(later)
    ensures TakeTopics(s) == Some([TopicQos(topic, q % 4)] + later)
  {
    assert ([q] + rest)[1..] == rest;
  }

  lemma {:induction false} TopicsRoundTrip(topics: seq<TopicQos>)
    requires TopicsEncodable(topics) && forall t <- topics :: 0 <= t.qos < 4
    ensures TakeTopics(TopicBytes(topics)) == Some(topics)
    decreases |topics|
  {
    if topics != [] {
      var t, rest := topics[0], TopicBytes(topics[1..]);
      TopicsRoundTrip(topics[1..]);
      assert TopicBytes(topics) == Prefixed(t.topic) + ([t.qos % 4] + rest);
      TakePrefixed(t.topic, [t.qos % 4] + rest);
      TakeFirstTopic(TopicBytes(topics), t.topic, t.qos % 4, rest, topics[1..]);
      assert topics == [t] + topics[1..] && TopicQos(t.topic, t.qos % 4 % 4) == t;
    }
  }

  lemma {:induction false} FiltersRoundTrip(filters: seq<Bytes>)
    requires forall f <- filters :: Short(f)
    ensures TakeFilters(FilterBytes(filters)) == Some(filters)
    decreases |filters|
  {
    if filters != [] {
      TakePrefixed(filters[0], FilterBytes(filters[1..]));
      FiltersRoundTrip(filters[1..]);
      assert filters == [filters[0]] + filters[1..];
    }
  }

  lemma CodesRoundTrip(codes: seq<int>)
    requires forall c <- codes :: 0 <= c < 256
    ensures CodeBytes(codes) == codes
  {
    forall i | 0 <= i < |codes|
      ensures CodeBytes(codes)[i] == codes[i]
    {
      assert codes[i] in codes;
    }
  }

  lemma IdRoundTrip(packetType: int, id: Word, rest: Bytes)
    ensures TakeWord(BigEndian(id) + rest) == Took(id, rest) && TakeWord(BigEndian(id)) == Took(id, [])
  {
    TakeBigEndian(id, rest);
    TakeBigEndian(id, []);
    assert BigEndian(id) + [] == BigEndian(id);
  }

  /** The body of the packet is read back. */
  predicate ComesBack(p: Packet)
    requires WellFormed(p)
  {
    ParseBody(TypeOf(p), FlagsOf(p), Body(p)) == Parsed(p)
  }

  lemma IdPacketsRoundTrip(p: Packet)
    requires WellFormed(p) && (p.Puback? || p.Pubrec? || p.Pubrel? || p.Pubcomp? || p.Unsuback?)
    ensures ComesBack(p)
  {
    match p
    case Puback(id) => IdRoundTrip(4, id, []);
    case Pubrec(id) => IdRoundTrip(5, id, []);
    case Pubrel(id) => IdRoundTrip(6, id, []);
    case Pubcomp(id) => IdRoundTrip(7, id, []);
    case Unsuback(id) => IdRoundTrip(11, id, []);
  }

  lemma SubscribeBody(id: Word, topics: seq<TopicQos>)
    requires TopicsEncodable(topics) && forall t <- topics :: 0 <= t.qos < 4
    ensures ParseSubscribe(BigEndian(id) + TopicBytes(topics)) == Parsed(Subscribe(id, topics))
  {
    IdRoundTrip(8, id, TopicBytes(topics));
    TopicsRoundTrip(topics);
  }

  lemma SubscribeRoundTrip(p: Packet)
    requires WellFormed(p) && p.Subscribe?
    ensures ComesBack(p)
  {
    match p
    case Subscribe(id, topics) => SubscribeBody(id, topics);
  }

  lemma SubackRoundTrip(p: Packet)
    requires WellFormed(p) && p.Suback?
    ensures ComesBack(p)
  {
    match p
    case Suback(id, codes) =>
      IdRoundTrip(9, id, CodeBytes(codes));
      CodesRoundTrip(codes);
  }

  lemma UnsubscribeBody(id: Word, filters: seq<Bytes>)
    requires forall f <- filters :: Short(f)
    ensures ParseUnsubscribe(BigEndian(id) + FilterBytes(filters)) == Parsed(Unsubscribe(id, filters))
  {
    IdRoundTrip(10, id, FilterBytes(filters));
    FiltersRoundTrip(filters);
  }

  lemma UnsubscribeRoundTrip(p: Packet)
    requires WellFormed(p) && p.Unsubscribe?
    ensures ComesBack(p)
  {
    match p
    case Unsubscribe(id, filters) => UnsubscribeBody(id, filters);
  }

  lemma ShortPacketsRoundTrip(p: Packet)
    requires WellFormed(p) && (p.Connack? || p.Pingreq? || p.Pingresp? || p.Disconnect?)
    ensures ComesBack(p)
  {
  }

  lemma BodyRoundTrip(p: Packet)
    requires WellFormed(p)
    ensures ParseBody(TypeOf(p), FlagsOf(p), Body(p)) == Parsed(p)
  {
    if p.ConnectPacket? {
      ConnectRoundTrip(p.connect);
    } else if p.Publish? {
      PublishRoundTrip(p);
    } else if p.Subscribe? {
      SubscribeRoundTrip(p);
    } else if p.Suback? {
      SubackRoundTrip(p);
    } else if p.Unsubscribe? {
      UnsubscribeRoundTrip(p);
    } else if p.Connack? || p.Pingreq? || p.Pingresp? || p.Disconnect? {
      ShortPacketsRoundTrip(p);
    } else {
      IdPacketsRoundTrip(p);
    }
  }

  lemma FourDigits()
    ensures Capacity(4) == MAX_VARINT + 1
  {
    assert Capacity(1) == 128 && Capacity(2) == 16384 && Capacity(3) == 2097152;
  }

  /** Where the parts of a message stand in the buffer. */
  lemma MessageParts(first: Byte, body: Bytes, rest: Bytes, s: Bytes, n: nat)
    requires s == Message(first, body) + rest && n == |Varint(|body|)|
    ensures |s| == 1 + n + |body| + |rest| && s[0] == first
    ensures s[1..] == Varint(|body|) + (body + rest)
    ensures s[1 + n..1 + n + |body|] == body
  {
    assert s == [first] + (Varint(|body|) + (body + rest));
    assert s[1..][n..n + |body|] == body;
  }

  /** Exactly the body that was sent is extracted. */
  lemma ExtractMessage(first: Byte, body: Bytes, rest: Bytes)
    requires 1 <= first / 16 <= 14 && |body| <= MAX_VARINT
    ensures Extract(Message(first, body) + rest) == Whole(first / 16, first % 16, body, |Message(first, body)|)
  {
    var s := Message(first, body) + rest;
    FourDigits();
    VarintRead(|body|, 4, body + rest);
    MessageParts(first, body, rest, s, |Varint(|body|)|);
  }

  lemma TypeAndFlags(packetType: int, flags: nat, first: int)
    requires 1 <= packetType <= 14 && flags < 16 && first == packetType * 16 + flags
    ensures 0 <= first < 256 && first / 16 == packetType && first % 16 == flags
  {
  }

  lemma DecodeExtracted(buffer: Bytes, e: Extracted, p: Packet)
    requires e.Whole? && Extract(buffer) == e && ParseBody(e.packetType, e.flags, e.body) == Parsed(p)
    ensures Decode(buffer) == Complete(p, e.total)
  {
  }

  lemma DecodeSent(first: Byte, packetType: int, flags: nat, body: Bytes, rest: Bytes, p: Packet)
    requires 1 <= packetType <= 14 && first / 16 == packetType && first % 16 == flags && |body| <= MAX_VARINT
    requires ParseBody(packetType, flags, body) == Parsed(p)
    ensures Decode(Message(first, body) + rest) == Complete(p, |Message(first, body)|)
  {
    ExtractMessage(first, body, rest);
    DecodeExtracted(Message(first, body) + rest, Whole(packetType, flags, body, |Message(first, body)|), p);
  }

  /** Decoding undoes encoding, whatever bytes follow. */
  lemma WireRoundTrip(p: Packet, rest: Bytes)
    requires WellFormed(p)
    ensures Decode(Wire(p) + rest) == Complete(p, |Wire(p)|)
  {
    BodyRoundTrip(p);
    TypeAndFlags(TypeOf(p), FlagsOf(p), TypeOf(p) * 16 + FlagsOf(p));
    DecodeSent(TypeOf(p) * 16 + FlagsOf(p), TypeOf(p), FlagsOf(p), Body(p), rest, p);
  }

  /** Whatever an encoder accepts and the format can express comes back. */
  lemma EncodedComesBack(p: Packet, rest: Bytes)
    requires EncodePacket(p).Some?
    ensures Decode(EncodePacket(p).value + rest) == Complete(p, |EncodePacket(p).value|) <==> WellFormed(p)
  {
    RoundTripIff(p, rest);
  }

  lemma CutMessage(first: Byte, body: Bytes, k: nat, v: Bytes)
    requires v == Varint(|body|) && 2 <= k < |Message(first, body)|
    ensures Message(first, body)[..k][0] == first
    ensures Message(first, body)[..k][1..] == if k <= |v| then v[..k - 1] else v + body[..k - 1 - |v|]
  {
    assert Message(first, body)[1..] == v + body;
    assert Message(first, body)[..k][1..] == Message(first, body)[1..][..k - 1];
  }

  lemma StrictPrefixIncomplete(first: Byte, body: Bytes, k: nat)
    requires 1 <= first / 16 <= 14 && |body| <= MAX_VARINT && k < |Message(first, body)|
    ensures Extract(Message(first, body)[..k]) == Waiting
  {
    if k >= 2 {
      var v := Varint(|body|);
      FourDigits();
      CutMessage(first, body, k, v);
      if k <= |v| {
        VarintPrefix(|body|, k - 1, 4);
      } else {
        VarintRead(|body|, 4, body[..k - 1 - |v|]);
      }
    }
  }

  /** Until its last byte has arrived, a packet only asks for more. */
  lemma StrictPrefixWaits(p: Packet, k: nat)
    requires Encodable(p) && k < |Wire(p)|
    ensures Decode(Wire(p)[..k]) == NeedMore
  {
    StrictPrefixIncomplete(TypeOf(p) * 16 + FlagsOf(p), Body(p), k);
  }

  // ---------------------------------------------------------------------
  // Everything decoded is well-formed, so the round trip is exact
  // ---------------------------------------------------------------------

  lemma {:induction false} TopicsWellFormed(s: Bytes)
    requires TakeTopics(s).Some?
    ensures var topics := TakeTopics(s).value;
      TopicsEncodable(topics) && (forall t <- topics :: 0 <= t.qos < 4) && |TopicBytes(topics)| == |s|
    decreases |s|
  {
    if s != [] {
      TopicsWellFormed(TakeString(s).rest[1..]);
      var topics := TakeTopics(s).value;
      assert topics[1..] == TakeTopics(TakeString(s).rest[1..]).value;
    }
  }

  lemma {:induction false} FiltersWellFormed(s: Bytes)
    requires TakeFilters(s).Some?
    ensures var filters := TakeFilters(s).value;
      (forall f <- filters :: Short(f)) && |FilterBytes(filters)| == |s|
    decreases |s|
  {
    if s != [] {
      FiltersWellFormed(TakeString(s).rest);
      var filters := TakeFilters(s).value;
      assert filters[1..] == TakeFilters(TakeString(s).rest).value;
    }
  }

  lemma ConnectSize(c: Connect)
    requires ConnectEncodable(c)
    ensures |ConnectBody(c)| <= 6 * 65538 + 4
  {
  }

  /** What the fields of a CONNECT that was read satisfy. */
  predicate ConnectExpressible(c: Connect) {
    ConnectEncodable(c) && 0 <= c.willQos < 4 && (c.willTopic.Some? <==> c.willMessage.Some?)
  }

  lemma PayloadExpressible(name: Bytes, level: Byte, flags: Byte, keepAlive: Word, s: Bytes)
    requires ParseConnectPayload(name, level, flags, keepAlive, s).Parsed? && Short(name)
    ensures var p := ParseConnectPayload(name, level, flags, keepAlive, s).packet;
      p.ConnectPacket? && ConnectExpressible(p.connect)
  {
  }

  lemma ReadExpressible(s: Bytes)
    requires ParseConnect(s).Parsed?
    ensures var p := ParseConnect(s).packet;
      p.ConnectPacket? && ConnectExpressible(p.connect)
  {
    var name := TakeString(s);
    var level := TakeByte(name.rest);
    var flags := TakeByte(level.rest);
    var keepAlive := TakeWord(flags.rest);
    PayloadExpressible(name.value, level.value, flags.value, keepAlive.value, keepAlive.rest);
  }

  lemma ExpressibleIsWellFormed(p: Packet)
    requires p.ConnectPacket? && ConnectExpressible(p.connect)
    ensures WellFormed(p)
  {
    ConnectSize(p.connect);
  }

  lemma ConnectWellFormed(s: Bytes)
    requires ParseConnect(s).Parsed?
    ensures WellFormed(ParseConnect(s).packet)
  {
    ReadExpressible(s);
    ExpressibleIsWellFormed(ParseConnect(s).packet);
  }

  lemma BodyWellFormed(packetType: int, flags: nat, s: Bytes)
    requires 1 <= packetType <= 14 && |s| <= MAX_VARINT
    requires ParseBody(packetType, flags, s).Parsed?
    ensures WellFormed(ParseBody(packetType, flags, s).packet)
  {
    if packetType == 1 {
      ConnectWellFormed(s);
    } else if packetType == 8 {
      TopicsWellFormed(TakeWord(s).rest);
    } else if packetType == 10 {
      FiltersWellFormed(TakeWord(s).rest);
    }
  }

  lemma ExtractedSize(buffer: Bytes)
    requires Extract(buffer).Whole?
    ensures |Extract(buffer).body| <= MAX_VARINT && 2 <= Extract(buffer).total <= |buffer|
  {
    FourDigits();
    VarintStable(buffer[1..], [], 4);
  }

  lemma DecodedIsWellFormed(buffer: Bytes)
    requires Decode(buffer).Complete?
    ensures WellFormed(Decode(buffer).packet)
    ensures 2 <= Decode(buffer).consumed <= |buffer|
  {
    var e := Extract(buffer);
    ExtractedSize(buffer);
    BodyWellFormed(e.packetType, e.flags, e.body);
  }

  /** A packet that can be sent comes back as it was exactly when its values can be expressed. */
  lemma RoundTripIff(p: Packet, rest: Bytes)
    requires Encodable(p)
    ensures Decode(Wire(p) + rest) == Complete(p, |Wire(p)|) <==> WellFormed(p)
  {
    if WellFormed(p) {
      WireRoundTrip(p, rest);
    } else if Decode(Wire(p) + rest).Complete? {
      DecodedIsWellFormed(Wire(p) + rest);
    }
  }

  // ---------------------------------------------------------------------
  // A verdict is final; but some input never gets one
  // ---------------------------------------------------------------------

  lemma ExtractIsFinal(buffer: Bytes, more: Bytes)
    requires !Extract(buffer).Waiting?
    ensures Extract(buffer + more) == Extract(buffer)
  {
    var all := buffer + more;
    assert all[0] == buffer[0];
    if Extract(buffer).Whole? {
      assert all[1..] == buffer[1..] + more;
      VarintStable(buffer[1..], more, 4);
      CutIsFinal(buffer, more, ReadVarint(buffer[1..], 4));
    }
  }

  lemma CutIsFinal(buffer: Bytes, more: Bytes, v: VarintResult)
    requires |buffer| >= 2 && Cut(buffer, v).Whole?
    ensures Cut(buffer + more, v) == Cut(buffer, v)
  {
    assert (buffer + more)[0] == buffer[0];
    var first, last := 1 + v.consumed, 1 + v.consumed + v.value;
    assert (buffer + more)[first..last] == buffer[first..last];
  }

  /** More bytes do not change a verdict once it has been given. */
  lemma VerdictIsFinal(buffer: Bytes, more: Bytes)
    requires !Decode(buffer).NeedMore?
    ensures Decode(buffer + more) == Decode(buffer)
  {
    ExtractIsFinal(buffer, more);
  }

  lemma {:induction false} VarintIsPrompt(s: Bytes, left: nat, k: nat)
    requires ReadVarint(s, left).Decoded? && ReadVarint(s, left).consumed <= k <= |s|
    ensures ReadVarint(s[..k], left) == ReadVarint(s, left)
    decreases left
  {
    if s[0] >= 128 {
      assert s[..k][1..] == s[1..][..k - 1];
      VarintIsPrompt(s[1..], left - 1, k - 1);
    }
  }

  lemma ExtractIsPrompt(buffer: Bytes)
    requires Extract(buffer).Whole?
    ensures Extract(buffer[..Extract(buffer).total]) == Extract(buffer)
  {
    var total := Extract(buffer).total;
    var n := ReadVarint(buffer[1..], 4).consumed;
    VarintIsPrompt(buffer[1..], 4, total - 1);
    assert buffer[..total][1..] == buffer[1..][..total - 1];
    assert buffer[..total][1 + n..total] == buffer[1 + n..total];
  }

  /** A packet is decoded from the bytes it consumes alone. */
  lemma PacketIsPrompt(buffer: Bytes)
    requires Decode(buffer).Complete?
    ensures Decode(buffer[..Decode(buffer).consumed]) == Decode(buffer)
  {
    ExtractIsPrompt(buffer);
  }

  /** The remaining length of a known packet type goes on after its fourth byte. */
  predicate Overlong(buffer: Bytes) {
    && |buffer| >= 5 && 1 <= buffer[0] / 16 <= 14
    && buffer[1] >= 128 && buffer[2] >= 128 && buffer[3] >= 128 && buffer[4] >= 128
  }

  lemma OverlongIsInvalid(s: Bytes)
    requires |s| >= 4
    ensures ReadVarint(s, 4).Invalid? <==> s[0] >= 128 && s[1] >= 128 && s[2] >= 128 && s[3] >= 128
  {
    var (s1, s2, s3) := (s[1..], s[2..], s[3..]);
    assert s1[1..] == s2 && s2[1..] == s3;
    assert ReadVarint(s3, 1).Invalid? <==> s[3] >= 128;
    assert ReadVarint(s2, 2).Invalid? <==> s[2] >= 128 && s[3] >= 128;
    assert ReadVarint(s1, 3).Invalid? <==> s[1] >= 128 && s[2] >= 128 && s[3] >= 128;
  }

  lemma ExtractStalls(buffer: Bytes, more: Bytes)
    requires Overlong(buffer)
    ensures Extract(buffer + more) == Waiting
  {
    assert (buffer + more)[0] == buffer[0];
    OverlongIsInvalid((buffer + more)[1..]);
  }

  lemma ExtractEnds(buffer: Bytes) returns (more: Bytes)
    requires |buffer| >= 5 && !Overlong(buffer)
    ensures Extract(buffer + more) != Waiting
  {
    more := [];
    OverlongIsInvalid(buffer[1..]);
    if 1 <= buffer[0] / 16 <= 14 {
      more := seq(ReadVarint(buffer[1..], 4).value, i => 0);
      assert (buffer + more)[1..] == buffer[1..] + more;
      VarintStable(buffer[1..], more, 4);
    }
    assert (buffer + more)[0] == buffer[0];
  }

  lemma DecodeEnds(buffer: Bytes) returns (more: Bytes)
    requires !Overlong(buffer)
    ensures Decode(buffer + more) != NeedMore
  {
    if |buffer| >= 5 {
      more := ExtractEnds(buffer);
    } else {
      var zeros: Bytes := [0, 0, 0, 0, 0, 0];
      var later := ExtractEnds(buffer + zeros);
      more := zeros + later;
      assert buffer + more == buffer + zeros + later;
    }
  }

  /**
    An overlong remaining length violates the framing, but is taken for an incomplete one: the
    decoder asks for more bytes forever. Nothing else stalls it.
  */
  lemma StallsIffOverlong(buffer: Bytes)
    ensures (forall more: Bytes :: Decode(buffer + more) == NeedMore) <==> Overlong(buffer)
  {
    if Overlong(buffer) {
      forall more: Bytes
        ensures Decode(buffer + more) == NeedMore
      {
        ExtractStalls(buffer, more);
      }
    } else {
      var more := DecodeEnds(buffer);
      assert Decode(buffer + more) != NeedMore;
    }
  }
}
