/**
  The ROS 2 joint messages in CDR: serialising and deserialising are inverse, and a message that
  was cut short is never taken for another one.
*/
module Ros2Messages {
  import opened Wrappers
  import opened ByteWords
  import opened Cdr
  import opened CdrStreams

  datatype Header = Header(stampSec: Int32, stampNanosec: UInt32, frameId: Bytes)

  datatype JointState = JointState(
    header: Header, name: seq<Bytes>, position: seq<Float64>, velocity: seq<Float64>, effort: seq<Float64>)

  datatype JointTrajectoryPoint = JointTrajectoryPoint(
    positions: seq<Float64>, velocities: seq<Float64>, accelerations: seq<Float64>, effort: seq<Float64>,
    sec: Int32, nanosec: UInt32)

  datatype JointTrajectory = JointTrajectory(
    header: Header, jointNames: seq<Bytes>, points: seq<JointTrajectoryPoint>)

  // ---------------------------------------------------------------------
  // What can be counted in 32 bits
  // ---------------------------------------------------------------------

  predicate TextFits(s: Bytes) {
    |s| < 0xFFFF_FFFF
  }

  predicate NamesFit(names: seq<Bytes>) {
    Countable(names) && forall i :: 0 <= i < |names| ==> |names[i]| < 0xFFFF_FFFF
  }

  predicate JointStateFits(m: JointState) {
    && TextFits(m.header.frameId) && NamesFit(m.name)
    && Countable(m.position) && Countable(m.velocity) && Countable(m.effort)
  }

  predicate PointFits(p: JointTrajectoryPoint) {
    Countable(p.positions) && Countable(p.velocities) && Countable(p.accelerations) && Countable(p.effort)
  }

  predicate PointsFit(points: seq<JointTrajectoryPoint>) {
    AllFit(PointFits, points)
  }

  predicate JointTrajectoryFits(m: JointTrajectory) {
    && TextFits(m.header.frameId) && NamesFit(m.jointNames)
    && Countable(m.points) && PointsFit(m.points)
  }

  // ---------------------------------------------------------------------
  // Writing
  // ---------------------------------------------------------------------

  function PutHeader(buf: Bytes, h: Header): Bytes
    requires TextFits(h.frameId)
  {
    PutText(PutUInt32(PutInt32(buf, h.stampSec), h.stampNanosec), h.frameId)
  }

  function PutNames(buf: Bytes, names: seq<Bytes>): Bytes
    requires NamesFit(names)
  {
    PutTextSequence(buf, names)
  }

  function PutPoint(buf: Bytes, p: JointTrajectoryPoint): Bytes
    requires PointFits(p)
  {
    PutUInt32(PutInt32(PutFloatSequence(PutFloatSequence(PutFloatSequence(PutFloatSequence(
      buf, p.positions), p.velocities), p.accelerations), p.effort), p.sec), p.nanosec)
  }

  /** A point that does not fit is not written. */
  function PutFittingPoint(buf: Bytes, p: JointTrajectoryPoint): Bytes {
    if PointFits(p) then PutPoint(buf, p) else buf
  }

  function PutPoints(buf: Bytes, points: seq<JointTrajectoryPoint>): Bytes {
    PutMany(PutFittingPoint, buf, points)
  }

  function SerializedJointState(m: JointState): Bytes
    requires JointStateFits(m)
  {
    PutFloatSequence(PutFloatSequence(PutFloatSequence(PutNames(PutHeader(ENCAPSULATION, m.header), m.name),
      m.position), m.velocity), m.effort)
  }

  function SerializedJointTrajectory(m: JointTrajectory): Bytes
    requires JointTrajectoryFits(m)
  {
    var buf := PutNames(PutHeader(ENCAPSULATION, m.header), m.jointNames);
    PutPoints(PutUInt32(PutPad(buf, 4), |m.points|), m.points)
  }

  // ---------------------------------------------------------------------
  // Reading
  // ---------------------------------------------------------------------

  function GetHeader(data: Bytes, idx: nat): Read<Header> {
    match GetInt32(data, idx)
    case Failed => Failed
    case Got(sec, i) =>
    match GetUInt32(data, i)
    case Failed => Failed
    case Got(nanosec, j) =>
    match GetText(data, j)
    case Failed => Failed
    case Got(frame, k) => Got(Header(sec, nanosec, frame), k)
  }

  datatype ThreeFloats = ThreeFloats(a: seq<Float64>, b: seq<Float64>, c: seq<Float64>)

  /** Three float sequences in a row. */
  function GetThree(data: Bytes, idx: nat): Read<ThreeFloats> {
    match GetFloatSequence(data, idx)
    case Failed => Failed
    case Got(a, i) =>
    match GetFloatSequence(data, i)
    case Failed => Failed
    case Got(b, j) =>
    match GetFloatSequence(data, j)
    case Failed => Failed
    case Got(c, k) => Got(ThreeFloats(a, b, c), k)
  }

  function GetPoint(data: Bytes, idx: nat): Read<JointTrajectoryPoint> {
    match GetThree(data, idx)
    case Failed => Failed
    case Got(pva, i) =>
    match GetFloatSequence(data, i)
    case Failed => Failed
    case Got(effort, j) =>
    match GetInt32(data, j)
    case Failed => Failed
    case Got(sec, k) =>
    match GetUInt32(data, k)
    case Failed => Failed
    case Got(nanosec, l) => Got(JointTrajectoryPoint(pva.a, pva.b, pva.c, effort, sec, nanosec), l)
  }

  function GetPoints(data: Bytes, idx: nat, count: nat): Read<seq<JointTrajectoryPoint>> {
    GetMany(GetPoint, data, idx, count)
  }

  /** The encapsulation header is checked before anything is read. */
  predicate Encapsulated(data: Bytes) {
    |data| >= 4 && data[0] == 0x00 && data[1] == 0x01
  }

  function DeserializedJointState(data: Bytes): Option<JointState> {
    if !Encapsulated(data) then None
    else
      match GetHeader(data, 4)
      case Failed => None
      case Got(header, i) =>
      match GetTextSequence(data, i)
      case Failed => None
      case Got(names, j) =>
      match GetThree(data, j)
      case Failed => None
      case Got(pve, _) => Some(JointState(header, names, pve.a, pve.b, pve.c))
  }

  function DeserializedJointTrajectory(data: Bytes): Option<JointTrajectory> {
    if !Encapsulated(data) then None
    else
      match GetHeader(data, 4)
      case Failed => None
      case Got(header, i) =>
      match GetTextSequence(data, i)
      case Failed => None
      case Got(names, j) =>
      match GetUInt32(data, j)
      case Failed => None
      case Got(count, k) =>
      match GetPoints(data, k, count)
      case Failed => None
      case Got(points, _) => Some(JointTrajectory(header, names, points))
  }

  // ---------------------------------------------------------------------
  // Reading what was written
  // ---------------------------------------------------------------------

  lemma HeaderRead(buf: Bytes, h: Header, data: Bytes, written: Bytes)
    requires TextFits(h.frameId) && written == PutHeader(buf, h) && Arrived(data, written)
    ensures buf <= written
    ensures Reads(GetHeader(data, |buf|), data, written, h)
  {
    var b1 := PutInt32(buf, h.stampSec);
    var b2 := PutUInt32(b1, h.stampNanosec);
    TextRead(b2, h.frameId, data, written);
    ArrivedPart(data, b2, written);
    UInt32Read(b1, h.stampNanosec, data, b2);
    ArrivedPart(data, b1, written);
    Int32Read(buf, h.stampSec, data, b1);
  }

  lemma ThreeRead(buf: Bytes, t: ThreeFloats, data: Bytes, b1: Bytes, b2: Bytes, written: Bytes)
    requires Countable(t.a) && Countable(t.b) && Countable(t.c)
    requires b1 == PutFloatSequence(buf, t.a) && b2 == PutFloatSequence(b1, t.b)
    requires written == PutFloatSequence(b2, t.c) && Arrived(data, written)
    ensures buf <= b1 <= b2 <= written
    ensures GetThree(data, |buf|) == if |written| <= |data| then Got(t, |written|) else Failed
  {
    FloatSequenceRead(b2, t.c, data, written);
    ArrivedPart(data, b2, written);
    FloatSequenceRead(b1, t.b, data, b2);
    ArrivedPart(data, b1, written);
    FloatSequenceRead(buf, t.a, data, b1);
  }

  lemma PointRead(buf: Bytes, p: JointTrajectoryPoint, data: Bytes, written: Bytes)
    requires PointFits(p) && written == PutPoint(buf, p) && Arrived(data, written)
    ensures buf <= written
    ensures GetPoint(data, |buf|) == if |written| <= |data| then Got(p, |written|) else Failed
  {
    var b1 := PutFloatSequence(buf, p.positions);
    var b2 := PutFloatSequence(b1, p.velocities);
    var b3 := PutFloatSequence(b2, p.accelerations);
    var b4 := PutFloatSequence(b3, p.effort);
    var b5 := PutInt32(b4, p.sec);
    UInt32Read(b5, p.nanosec, data, written);
    ArrivedPart(data, b5, written);
    Int32Read(b4, p.sec, data, b5);
    ArrivedPart(data, b4, written);
    FloatSequenceRead(b3, p.effort, data, b4);
    ArrivedPart(data, b3, written);
    ThreeRead(buf, ThreeFloats(p.positions, p.velocities, p.accelerations), data, b1, b2, b3);
  }

  lemma PointInverse(buf: Bytes, p: JointTrajectoryPoint, data: Bytes)
    ensures Inverse(PutFittingPoint, GetPoint, PointFits, buf, p, data)
  {
    if PointFits(p) && Arrived(data, PutPoint(buf, p)) {
      PointRead(buf, p, data, PutPoint(buf, p));
    }
  }

  lemma PointsInverse()
    ensures AllInverse(PutFittingPoint, GetPoint, PointFits)
  {
    forall buf: Bytes, p: JointTrajectoryPoint, data: Bytes
      ensures Inverse(PutFittingPoint, GetPoint, PointFits, buf, p, data)
    {
      PointInverse(buf, p, data);
    }
  }

  lemma PointsRead(buf: Bytes, points: seq<JointTrajectoryPoint>, data: Bytes, written: Bytes)
    requires PointsFit(points) && written == PutPoints(buf, points) && Arrived(data, written)
    ensures buf <= written
    ensures |buf| <= |data| ==>
      GetPoints(data, |buf|, |points|) == if |written| <= |data| then Got(points, |written|) else Failed
  {
    PointsInverse();
    ManyExtend(PutFittingPoint, GetPoint, PointFits, buf, points);
    if |buf| <= |data| {
      ManyRead(PutFittingPoint, GetPoint, PointFits, buf, points, data, written);
    }
  }

  lemma StartsEncapsulated(data: Bytes, written: Bytes)
    requires ENCAPSULATION <= written && Arrived(data, written)
    ensures |data| >= 4 ==> Encapsulated(data)
  {
    if |data| >= 4 {
      assert data[0] == written[0] && data[1] == written[1];
    }
  }

  /** Header and names, which both messages start with. */
  lemma StartRead(h: Header, names: seq<Bytes>, data: Bytes, b1: Bytes, b2: Bytes)
    requires TextFits(h.frameId) && NamesFit(names)
    requires b1 == PutHeader(ENCAPSULATION, h) && b2 == PutNames(b1, names) && Arrived(data, b2)
    ensures ENCAPSULATION <= b1 <= b2
    ensures Reads(GetHeader(data, 4), data, b1, h)
    ensures |b1| <= |data| ==> Reads(GetTextSequence(data, |b1|), data, b2, names)
    ensures GetHeader(data, 4).Got? && |b1| > |data| ==> GetTextSequence(data, GetHeader(data, 4).idx).Failed?
  {
    TextSequenceRead(b1, names, data, b2);
    ArrivedPart(data, b1, b2);
    HeaderRead(ENCAPSULATION, h, data, b1);
    if GetHeader(data, 4).Got? && |b1| > |data| {
      NothingBehind(data, GetHeader(data, 4).idx);
    }
  }

  /**
    However much of a serialised joint state has arrived, and whatever follows it, deserialising
    gives back the message exactly when all of it is there, and otherwise fails.
  */
  lemma JointStateRoundTrip(m: JointState, data: Bytes)
    requires JointStateFits(m) && Arrived(data, SerializedJointState(m))
    ensures DeserializedJointState(data) == if |SerializedJointState(m)| <= |data| then Some(m) else None
  {
    var written := SerializedJointState(m);
    var b1 := PutHeader(ENCAPSULATION, m.header);
    var b2 := PutNames(b1, m.name);
    var b3 := PutFloatSequence(b2, m.position);
    var b4 := PutFloatSequence(b3, m.velocity);
    ThreeRead(b2, ThreeFloats(m.position, m.velocity, m.effort), data, b3, b4, written);
    ArrivedPart(data, b2, written);
    StartRead(m.header, m.name, data, b1, b2);
    StartsEncapsulated(data, written);
    if |b1| <= |data| && |b2| > |data| && GetTextSequence(data, |b1|).Got? {
      NothingBehind(data, GetTextSequence(data, |b1|).idx);
    }
  }

  lemma PadTwice(buf: Bytes, n: UInt32)
    requires |buf| >= 4
    ensures PutUInt32(PutPad(buf, 4), n) == PutUInt32(buf, n)
  {
    assert PutPad(buf, 4) + Zeros(0) == PutPad(buf, 4);
  }

  /** The same for trajectories, nested sequences included. */
  lemma JointTrajectoryRoundTrip(m: JointTrajectory, data: Bytes)
    requires JointTrajectoryFits(m) && Arrived(data, SerializedJointTrajectory(m))
    ensures DeserializedJointTrajectory(data) == if |SerializedJointTrajectory(m)| <= |data| then Some(m) else None
  {
    var written := SerializedJointTrajectory(m);
    var b1 := PutHeader(ENCAPSULATION, m.header);
    var b2 := PutNames(b1, m.jointNames);
    StartRead(m.header, m.jointNames, [], b1, b2);
    PadTwice(b2, |m.points|);
    var b3 := PutUInt32(b2, |m.points|);
    PointsRead(b3, m.points, data, written);
    ArrivedPart(data, b3, written);
    UInt32Read(b2, |m.points|, data, b3);
    ArrivedPart(data, b2, written);
    StartRead(m.header, m.jointNames, data, b1, b2);
    StartsEncapsulated(data, written);
    if |b1| <= |data| && |b2| > |data| && GetTextSequence(data, |b1|).Got? {
      NothingBehind(data, GetTextSequence(data, |b1|).idx);
    }
  }

  // ---------------------------------------------------------------------
  // The serializer
  // ---------------------------------------------------------------------

  method SerializeHeader(enc: CdrEncoder, h: Header)
    requires |enc.buf| >= 4 && TextFits(h.frameId)
    modifies enc
    ensures enc.buf == PutHeader(old(enc.buf), h) && |enc.buf| >= 4
  {
    enc.WriteInt32(h.stampSec);
    enc.WriteUInt32(h.stampNanosec);
    enc.WriteString(h.frameId);
  }

  method DeserializeHeader(dec: CdrDecoder) returns (r: Option<Header>)
    requires dec.idx >= 4
    modifies dec
    ensures Follows(r, dec.idx, GetHeader(dec.data, old(dec.idx))) && dec.idx >= 4
  {
    var sec := dec.ReadInt32();
    if sec.None? {
      return None;
    }
    var nanosec := dec.ReadUInt32();
    if nanosec.None? {
      return None;
    }
    var frame := dec.ReadString();
    r := if frame.None? then None else Some(Header(sec.value, nanosec.value, frame.value));
  }

  method SerializeJointState(m: JointState) returns (bytes: Bytes)
    requires JointStateFits(m)
    ensures bytes == SerializedJointState(m)
  {
    var enc := new CdrEncoder();
    SerializeHeader(enc, m.header);
    enc.WriteSequenceString(m.name);
    enc.WriteSequenceFloat64(m.position);
    enc.WriteSequenceFloat64(m.velocity);
    enc.WriteSequenceFloat64(m.effort);
    bytes := enc.buf;
  }

  method DeserializeThree(dec: CdrDecoder) returns (r: Option<ThreeFloats>)
    requires dec.idx >= 4
    modifies dec
    ensures Follows(r, dec.idx, GetThree(dec.data, old(dec.idx))) && dec.idx >= 4
  {
    var a := dec.ReadSequenceFloat64();
    if a.None? {
      return None;
    }
    var b := dec.ReadSequenceFloat64();
    if b.None? {
      return None;
    }
    var c := dec.ReadSequenceFloat64();
    r := if c.None? then None else Some(ThreeFloats(a.value, b.value, c.value));
  }

  method DeserializeJointState(data: Bytes) returns (r: Option<JointState>)
    ensures r == DeserializedJointState(data)
  {
    if |data| < 4 || data[..2] != [0x00, 0x01] {
      assert |data| >= 4 ==> data[..2] == [data[0], data[1]];
      return None;
    }
    assert data[0] == data[..2][0] && data[1] == data[..2][1];
    var dec := new CdrDecoder(data);
    var header := DeserializeHeader(dec);
    if header.None? {
      return None;
    }
    var names := dec.ReadSequenceString();
    if names.None? {
      return None;
    }
    var pve := DeserializeThree(dec);
    r := if pve.None? then None
         else Some(JointState(header.value, names.value, pve.value.a, pve.value.b, pve.value.c));
  }

  method SerializePoint(enc: CdrEncoder, p: JointTrajectoryPoint)
    requires |enc.buf| >= 4 && PointFits(p)
    modifies enc
    ensures enc.buf == PutPoint(old(enc.buf), p) && |enc.buf| >= 4
  {
    enc.WriteSequenceFloat64(p.positions);
    enc.WriteSequenceFloat64(p.velocities);
    enc.WriteSequenceFloat64(p.accelerations);
    enc.WriteSequenceFloat64(p.effort);
    enc.WriteInt32(p.sec);
    enc.WriteUInt32(p.nanosec);
  }

  method DeserializePoint(dec: CdrDecoder) returns (r: Option<JointTrajectoryPoint>)
    requires dec.idx >= 4
    modifies dec
    ensures Follows(r, dec.idx, GetPoint(dec.data, old(dec.idx))) && dec.idx >= 4
  {
    var pva := DeserializeThree(dec);
    if pva.None? {
      return None;
    }
    var effort := dec.ReadSequenceFloat64();
    if effort.None? {
      return None;
    }
    var sec := dec.ReadInt32();
    if sec.None? {
      return None;
    }
    var nanosec := dec.ReadUInt32();
    r := if nanosec.None? then None
         else Some(JointTrajectoryPoint(pva.value.a, pva.value.b, pva.value.c, effort.value, sec.value, nanosec.value));
  }

  method DeserializePoints(dec: CdrDecoder, count: nat) returns (r: Option<seq<JointTrajectoryPoint>>)
    requires dec.idx >= 4
    modifies dec
    ensures Follows(r, dec.idx, GetPoints(dec.data, old(dec.idx), count)) && dec.idx >= 4
    decreases count
  {
    if count == 0 {
      return Some([]);
    }
    ghost var read := GetPoint(dec.data, dec.idx);
    FirstOfMany(GetPoint, dec.data, dec.idx, count, read);
    var first := DeserializePoint(dec);
    if first.None? {
      return None;
    }
    ghost var next, others := dec.idx, GetMany(GetPoint, dec.data, dec.idx, count - 1);
    var rest := DeserializePoints(dec, count - 1);
    OneMoreFollows(first, next, read, rest, dec.idx, others, OneMore(read, GetPoint, dec.data, count - 1));
    r := if rest.None? then None else Some([first.value] + rest.value);
  }

  /** A first value and the others, each as a decoder returns it. */
  lemma OneMoreFollows<T>(first: Option<T>, next: nat, read: Read<T>, rest: Option<seq<T>>, end: nat,
                          others: Read<seq<T>>, all: Read<seq<T>>)
    requires first.Some? && Follows(first, next, read) && Follows(rest, end, others)
    requires all == if read.Failed? || others.Failed? then Failed else Got([read.value] + others.value, others.idx)
    ensures Follows(if rest.None? then None else Some([first.value] + rest.value), end, all)
  {
  }

  lemma {:induction false} PointFitsAt(points: seq<JointTrajectoryPoint>, i: nat)
    requires PointsFit(points) && i < |points|
    ensures PointsFit(points[i..]) && PointFits(points[i]) && points[i..][1..] == points[i + 1..]
    ensures points[i..][0] == points[i]
    decreases i
  {
    if i == 0 {
      assert points[0..] == points;
    } else {
      PointFitsAt(points[1..], i - 1);
      assert points[1..][i - 1..] == points[i..];
    }
  }

  method SerializeJointTrajectory(m: JointTrajectory) returns (bytes: Bytes)
    requires JointTrajectoryFits(m)
    ensures bytes == SerializedJointTrajectory(m)
  {
    var enc := new CdrEncoder();
    SerializeHeader(enc, m.header);
    enc.WriteSequenceString(m.jointNames);
    enc.Pad(4);
    enc.WriteUInt32(|m.points|);
    assert m.points[0..] == m.points;
    for i := 0 to |m.points|
      invariant |enc.buf| >= 4
      invariant PointsFit(m.points[i..])
      invariant PutPoints(enc.buf, m.points[i..]) == SerializedJointTrajectory(m)
    {
      PointFitsAt(m.points, i);
      SerializePoint(enc, m.points[i]);
    }
    bytes := enc.buf;
  }

  method DeserializeJointTrajectory(data: Bytes) returns (r: Option<JointTrajectory>)
    ensures r == DeserializedJointTrajectory(data)
  {
    if |data| < 4 || data[..2] != [0x00, 0x01] {
      assert |data| >= 4 ==> data[..2] == [data[0], data[1]];
      return None;
    }
    assert data[0] == data[..2][0] && data[1] == data[..2][1];
    var dec := new CdrDecoder(data);
    var header := DeserializeHeader(dec);
    if header.None? {
      return None;
    }
    var names := dec.ReadSequenceString();
    if names.None? {
      return None;
    }
    var count := dec.ReadUInt32();
    if count.None? {
      return None;
    }
    var points := DeserializePoints(dec, count.value);
    r := if points.None? then None else Some(JointTrajectory(header.value, names.value, points.value));
  }
}
