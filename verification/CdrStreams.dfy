/**
  The CDR encoder and decoder as objects: a growing buffer, and a position that moves over the data.
*/
module CdrStreams {
  import opened Wrappers
  import opened ByteWords
  import opened Cdr

  class CdrEncoder {
    var buf: Bytes

    constructor ()
      ensures buf == ENCAPSULATION
    {
      buf := ENCAPSULATION;
    }

    method Pad(alignment: nat)
      requires alignment > 0 && |buf| >= 4
      modifies this
      ensures buf == PutPad(old(buf), alignment) && |buf| >= 4
      ensures Aligned(|buf|, alignment) && old(buf) <= buf && |buf| < |old(buf)| + alignment
      ensures forall i :: |old(buf)| <= i < |buf| ==> buf[i] == 0
    {
      GapAligns(|buf|, alignment);
      var rem := (|buf| - 4) % alignment;
      if rem != 0 {
        buf := buf + seq(alignment - rem, i => 0);
      } else {
        assert buf + Zeros(0) == buf;
      }
    }

    method WriteUInt32(n: UInt32)
      requires |buf| >= 4
      modifies this
      ensures buf == PutUInt32(old(buf), n) && |buf| >= 4
    {
      Pad(4);
      buf := buf + Bytes32(n);
    }

    method WriteInt32(n: Int32)
      requires |buf| >= 4
      modifies this
      ensures buf == PutInt32(old(buf), n) && |buf| >= 4
    {
      Pad(4);
      buf := buf + Bytes32(Unsigned(n));
    }

    method WriteFloat64(f: Float64)
      requires |buf| >= 4
      modifies this
      ensures buf == PutFloat(old(buf), f) && |buf| >= 4
    {
      Pad(8);
      buf := buf + f;
    }

    method WriteString(s: Text)
      requires |buf| >= 4
      modifies this
      ensures buf == PutText(old(buf), s) && |buf| >= 4
    {
      var raw := s + [0];
      Pad(4);
      buf := buf + Bytes32(|raw|);
      buf := buf + raw;
    }

    method WriteSequenceString(strings: seq<Text>)
      requires |buf| >= 4 && Countable(strings)
      modifies this
      ensures buf == PutTextSequence(old(buf), strings) && |buf| >= 4
    {
      Pad(4);
      buf := buf + Bytes32(|strings|);
      for i := 0 to |strings|
        invariant |buf| >= 4
        invariant PutTexts(buf, strings[i..]) == PutTextSequence(old(buf), strings)
      {
        assert strings[i..][1..] == strings[i + 1..];
        WriteString(strings[i]);
      }
    }

    method WriteSequenceFloat64(floats: seq<Float64>)
      requires |buf| >= 4 && Countable(floats)
      modifies this
      ensures buf == PutFloatSequence(old(buf), floats) && |buf| >= 4
    {
      Pad(4);
      buf := buf + Bytes32(|floats|);
      for i := 0 to |floats|
        invariant |buf| >= 4
        invariant PutFloats(buf, floats[i..]) == PutFloatSequence(old(buf), floats)
      {
        assert floats[i..][1..] == floats[i + 1..];
        WriteFloat64(floats[i]);
      }
    }
  }

  /** What a read method returns and where it leaves the position; after an exception nothing is read. */
  ghost predicate Follows<T>(r: Option<T>, idx: nat, expected: Read<T>) {
    match expected
    case Failed => r == None
    case Got(value, i) => r == Some(value) && idx == i
  }

  class CdrDecoder {
    const data: Bytes
    var idx: nat

    /** The caller has checked the encapsulation header. */
    constructor (data: Bytes)
      requires |data| >= 4 && data[..2] == [0x00, 0x01]
      ensures this.data == data && idx == 4
    {
      this.data := data;
      idx := 4;
    }

    method Align(alignment: nat)
      requires alignment > 0 && idx >= 4
      modifies this
      ensures idx == old(idx) + Gap(old(idx), alignment)
      ensures Aligned(idx, alignment) && old(idx) <= idx < old(idx) + alignment
    {
      GapAligns(idx, alignment);
      var rem := (idx - 4) % alignment;
      if rem != 0 {
        idx := idx + (alignment - rem);
      }
    }

    method ReadUInt32() returns (r: Option<UInt32>)
      requires idx >= 4
      modifies this
      ensures Follows(r, idx, GetUInt32(data, old(idx))) && idx >= 4
    {
      Align(4);
      if idx + 4 > |data| {
        return None;
      }
      r := Some(Number32(data[idx], data[idx + 1], data[idx + 2], data[idx + 3]));
      idx := idx + 4;
    }

    method ReadInt32() returns (r: Option<Int32>)
      requires idx >= 4
      modifies this
      ensures Follows(r, idx, GetInt32(data, old(idx))) && idx >= 4
    {
      var n := ReadUInt32();
      r := if n.None? then None else Some(Signed(n.value));
    }

    method ReadFloat64() returns (r: Option<Float64>)
      requires idx >= 4
      modifies this
      ensures Follows(r, idx, GetFloat(data, old(idx))) && idx >= 4
    {
      Align(8);
      if idx + 8 > |data| {
        return None;
      }
      r := Some(data[idx..idx + 8]);
      idx := idx + 8;
    }

    method ReadString() returns (r: Option<Bytes>)
      requires idx >= 4
      modifies this
      ensures Follows(r, idx, GetText(data, old(idx))) && idx >= 4
    {
      var length := ReadUInt32();
      if length.None? {
        return None;
      }
      var raw := Slice(data, idx, idx + length.value);
      idx := idx + length.value;
      if raw != [] && raw[|raw| - 1] == 0 {
        raw := raw[..|raw| - 1];
      }
      r := Some(raw);
    }

    /** The strings of a sequence, one after the other. */
    method ReadStrings(count: nat) returns (r: Option<seq<Bytes>>)
      requires idx >= 4
      modifies this
      ensures Follows(r, idx, GetTexts(data, old(idx), count)) && idx >= 4
      decreases count
    {
      if count == 0 {
        return Some([]);
      }
      var first := ReadString();
      if first.None? {
        return None;
      }
      var rest := ReadStrings(count - 1);
      r := if rest.None? then None else Some([first.value] + rest.value);
    }

    method ReadSequenceString() returns (r: Option<seq<Bytes>>)
      requires idx >= 4
      modifies this
      ensures Follows(r, idx, GetTextSequence(data, old(idx))) && idx >= 4
    {
      var count := ReadUInt32();
      if count.None? {
        return None;
      }
      r := ReadStrings(count.value);
    }

    /** The floats of a sequence, one after the other. */
    method ReadFloats(count: nat) returns (r: Option<seq<Float64>>)
      requires idx >= 4
      modifies this
      ensures Follows(r, idx, GetFloats(data, old(idx), count)) && idx >= 4
      decreases count
    {
      if count == 0 {
        return Some([]);
      }
      var first := ReadFloat64();
      if first.None? {
        return None;
      }
      var rest := ReadFloats(count - 1);
      r := if rest.None? then None else Some([first.value] + rest.value);
    }

    method ReadSequenceFloat64() returns (r: Option<seq<Float64>>)
      requires idx >= 4
      modifies this
      ensures Follows(r, idx, GetFloatSequence(data, old(idx))) && idx >= 4
    {
      var count := ReadUInt32();
      if count.None? {
        return None;
      }
      r := ReadFloats(count.value);
    }
  }
}
