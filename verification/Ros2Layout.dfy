/**
  The layout of the serialised ROS 2 messages: every number and text of a message, in its order and at
  its alignment, and nothing else.
*/
module Ros2Layout {
  import opened ByteWords
  import opened Cdr
  import opened CdrLayout
  import opened Ros2Messages

  // ---------------------------------------------------------------------
  // What a message consists of
  // ---------------------------------------------------------------------

  /** Negative numbers are in two's complement. */
  function SignedItem(n: Int32): (item: Item)
    ensures item == NumberItem(n % 0x1_0000_0000)
  {
    NumberItem(Unsigned(n))
  }

  function HeaderItems(h: Header): seq<Item>
    requires TextFits(h.frameId)
  {
    [SignedItem(h.stampSec), NumberItem(h.stampNanosec)] + TextItems(h.frameId)
  }

  function JointStateItems(m: JointState): seq<Item>
    requires JointStateFits(m)
  {
    HeaderItems(m.header) + TextSequenceItems(m.name)
      + FloatSequenceItems(m.position) + FloatSequenceItems(m.velocity) + FloatSequenceItems(m.effort)
  }

  function PointItems(p: JointTrajectoryPoint): seq<Item>
    requires PointFits(p)
  {
    FloatSequenceItems(p.positions) + FloatSequenceItems(p.velocities)
      + FloatSequenceItems(p.accelerations) + FloatSequenceItems(p.effort)
      + [SignedItem(p.sec), NumberItem(p.nanosec)]
  }

  function PointsItems(points: seq<JointTrajectoryPoint>): seq<Item>
    requires PointsFit(points)
    decreases |points|
  {
    if points == [] then [] else PointItems(points[0]) + PointsItems(points[1..])
  }

  function JointTrajectoryItems(m: JointTrajectory): seq<Item>
    requires JointTrajectoryFits(m)
  {
    HeaderItems(m.header) + TextSequenceItems(m.jointNames) + [NumberItem(|m.points|)] + PointsItems(m.points)
  }

  // ---------------------------------------------------------------------
  // What is written
  // ---------------------------------------------------------------------

  lemma SignedLaid(buf: Bytes, n: Int32)
    ensures Laid(buf, PutInt32(buf, n), [SignedItem(n)])
  {
    NumberLaid(buf, Unsigned(n));
  }

  /** Two numbers, the first with a sign. */
  lemma StampLaid(buf: Bytes, sec: Int32, nanosec: UInt32)
    ensures Laid(buf, PutUInt32(PutInt32(buf, sec), nanosec), [SignedItem(sec), NumberItem(nanosec)])
  {
    var b := PutInt32(buf, sec);
    SignedLaid(buf, sec);
    NumberLaid(b, nanosec);
    LaidMore(buf, b, PutUInt32(b, nanosec), [SignedItem(sec)], [NumberItem(nanosec)]);
    assert [SignedItem(sec), NumberItem(nanosec)] == [SignedItem(sec)] + [NumberItem(nanosec)];
  }

  lemma HeaderLaid(buf: Bytes, h: Header)
    requires TextFits(h.frameId)
    ensures Laid(buf, PutHeader(buf, h), HeaderItems(h))
  {
    var b := PutUInt32(PutInt32(buf, h.stampSec), h.stampNanosec);
    StampLaid(buf, h.stampSec, h.stampNanosec);
    TextLaid(b, h.frameId);
    LaidMore(buf, b, PutText(b, h.frameId), [SignedItem(h.stampSec), NumberItem(h.stampNanosec)], TextItems(h.frameId));
  }

  /** One more float sequence behind what is laid down. */
  lemma FloatsBehind(start: Bytes, buf: Bytes, items: seq<Item>, floats: seq<Float64>)
    requires Laid(start, buf, items) && Countable(floats)
    ensures Laid(start, PutFloatSequence(buf, floats), items + FloatSequenceItems(floats))
  {
    FloatSequenceLaid(buf, floats);
    LaidMore(start, buf, PutFloatSequence(buf, floats), items, FloatSequenceItems(floats));
  }

  /** Header and names, which both messages start with. */
  lemma StartLaid(h: Header, names: seq<Bytes>)
    requires TextFits(h.frameId) && NamesFit(names)
    ensures Laid(ENCAPSULATION, PutNames(PutHeader(ENCAPSULATION, h), names), HeaderItems(h) + TextSequenceItems(names))
  {
    var b := PutHeader(ENCAPSULATION, h);
    HeaderLaid(ENCAPSULATION, h);
    TextSequenceLaid(b, names);
    LaidMore(ENCAPSULATION, b, PutNames(b, names), HeaderItems(h), TextSequenceItems(names));
  }

  /**
    A serialised joint state is the header of the encapsulation and the items of the message, each at the
    next position behind that header which its size divides.
  */
  lemma JointStateLayout(m: JointState)
    requires JointStateFits(m)
    ensures Laid(ENCAPSULATION, SerializedJointState(m), JointStateItems(m))
  {
    var b := PutNames(PutHeader(ENCAPSULATION, m.header), m.name);
    var items := HeaderItems(m.header) + TextSequenceItems(m.name);
    var b1 := PutFloatSequence(b, m.position);
    StartLaid(m.header, m.name);
    FloatsBehind(ENCAPSULATION, b, items, m.position);
    FloatsBehind(ENCAPSULATION, b1, items + FloatSequenceItems(m.position), m.velocity);
    FloatsBehind(ENCAPSULATION, PutFloatSequence(b1, m.velocity),
                 items + FloatSequenceItems(m.position) + FloatSequenceItems(m.velocity), m.effort);
  }

  lemma PointLaid(buf: Bytes, p: JointTrajectoryPoint)
    requires PointFits(p)
    ensures Laid(buf, PutPoint(buf, p), PointItems(p))
  {
    var b1 := PutFloatSequence(buf, p.positions);
    var b2 := PutFloatSequence(b1, p.velocities);
    var b3 := PutFloatSequence(b2, p.accelerations);
    var b4 := PutFloatSequence(b3, p.effort);
    var i1 := FloatSequenceItems(p.positions);
    var i2 := i1 + FloatSequenceItems(p.velocities);
    var i3 := i2 + FloatSequenceItems(p.accelerations);
    var i4 := i3 + FloatSequenceItems(p.effort);
    FloatSequenceLaid(buf, p.positions);
    FloatsBehind(buf, b1, i1, p.velocities);
    FloatsBehind(buf, b2, i2, p.accelerations);
    FloatsBehind(buf, b3, i3, p.effort);
    StampLaid(b4, p.sec, p.nanosec);
    LaidMore(buf, b4, PutPoint(buf, p), i4, [SignedItem(p.sec), NumberItem(p.nanosec)]);
  }

  lemma {:induction false} PointsLaid(buf: Bytes, points: seq<JointTrajectoryPoint>)
    requires PointsFit(points)
    ensures Laid(buf, PutPoints(buf, points), PointsItems(points))
    decreases |points|
  {
    if points != [] {
      var next := PutPoint(buf, points[0]);
      PointLaid(buf, points[0]);
      PointsLaid(next, points[1..]);
      LaidMore(buf, next, PutPoints(buf, points), PointItems(points[0]), PointsItems(points[1..]));
    }
  }

  /** The same for a joint trajectory with all of its points. */
  lemma JointTrajectoryLayout(m: JointTrajectory)
    requires JointTrajectoryFits(m)
    ensures Laid(ENCAPSULATION, SerializedJointTrajectory(m), JointTrajectoryItems(m))
  {
    var b := PutNames(PutHeader(ENCAPSULATION, m.header), m.jointNames);
    var items := HeaderItems(m.header) + TextSequenceItems(m.jointNames);
    var b1 := PutUInt32(b, |m.points|);
    StartLaid(m.header, m.jointNames);
    LaidKeeps(ENCAPSULATION, b, items);
    PadTwice(b, |m.points|);
    NumberLaid(b, |m.points|);
    LaidMore(ENCAPSULATION, b, b1, items, [NumberItem(|m.points|)]);
    PointsLaid(b1, m.points);
    LaidMore(ENCAPSULATION, b1, SerializedJointTrajectory(m), items + [NumberItem(|m.points|)], PointsItems(m.points));
  }

  /** Every number and every text of a serialised message starts at a multiple of its size behind the header. */
  lemma JointStateAligned(m: JointState, i: nat) returns (at: nat)
    requires JointStateFits(m) && i < |JointStateItems(m)|
    ensures JointStateItems(m)[i].size > 0 && StandsAt(SerializedJointState(m), JointStateItems(m)[i], at) && at >= 4
  {
    JointStateLayout(m);
    at := ItemsStand(ENCAPSULATION, SerializedJointState(m), JointStateItems(m), i);
  }

  lemma JointTrajectoryAligned(m: JointTrajectory, i: nat) returns (at: nat)
    requires JointTrajectoryFits(m) && i < |JointTrajectoryItems(m)|
    ensures var item := JointTrajectoryItems(m)[i];
      item.size > 0 && StandsAt(SerializedJointTrajectory(m), item, at) && at >= 4
  {
    JointTrajectoryLayout(m);
    at := ItemsStand(ENCAPSULATION, SerializedJointTrajectory(m), JointTrajectoryItems(m), i);
  }
}
