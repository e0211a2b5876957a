/**
  OMG Common Data Representation, little-endian: an encoder that pads to the alignment of each
  value and a decoder that skips the same padding.
*/
module Cdr {
  import opened ByteWords

  type Int32 = n: int | -0x8000_0000 <= n < 0x8000_0000

  type UInt32 = n: int | 0 <= n < 0x1_0000_0000

  /** A float is the eight bytes that represent it. */
  type Float64 = b: Bytes | |b| == 8 witness [0, 0, 0, 0, 0, 0, 0, 0]

  /** A string is its UTF-8 bytes; with its terminator it has to be counted in 32 bits. */
  type Text = s: Bytes | |s| < 0xFFFF_FFFF

  // ---------------------------------------------------------------------
  // Numbers
  // ---------------------------------------------------------------------

  function Bytes32(n: UInt32): (s: Bytes)
    ensures |s| == 4
  {
    [n % 256, n / 256 % 256, n / 65536 % 256, n / 16777216]
  }

  function Number32(a: Byte, b: Byte, c: Byte, d: Byte): UInt32 {
    a + 256 * b + 65536 * c + 16777216 * d
  }

  /** Least significant byte first. */
  lemma Bytes32RoundTrip(n: UInt32)
    ensures var s := Bytes32(n);
      && Number32(s[0], s[1], s[2], s[3]) == n
      && (s[0] as int) + 0x100 * (s[1] as int) + 0x1_0000 * (s[2] as int) + 0x100_0000 * (s[3] as int) == n
  {
    assert n / 65536 == n / 256 / 256 && n / 16777216 == n / 256 / 256 / 256;
  }

  function Unsigned(n: Int32): UInt32 {
    if n < 0 then n + 0x1_0000_0000 else n
  }

  function Signed(n: UInt32): (i: Int32)
    ensures Unsigned(i) == n
  {
    if n < 0x8000_0000 then n else n - 0x1_0000_0000
  }

  // ---------------------------------------------------------------------
  // Writing: what is appended depends on how much is there
  // ---------------------------------------------------------------------

  const ENCAPSULATION: Bytes := [0x00, 0x01, 0x00, 0x00]

  /** Padding in front of a value at position idx; the alignment counts from behind the header. */
  function Gap(idx: nat, alignment: nat): (n: nat)
    requires alignment > 0
    ensures n < alignment
  {
    if (idx - 4) % alignment == 0 then 0 else alignment - (idx - 4) % alignment
  }

  /** A position that the alignment divides, counted from behind the header. */
  predicate Aligned(idx: int, alignment: nat)
    requires alignment > 0
  {
    (idx - 4) % alignment == 0
  }

  lemma TimesAtLeast(m: int, k: int)
    requires m >= 0
    ensures k >= 1 ==> m * k >= m
    ensures k <= -1 ==> m * k <= -m
  {
    if k >= 1 {
      assert m * (k - 1) >= 0;
    } else if k <= -1 {
      assert m * (-1 - k) >= 0;
    }
  }

  lemma MultipleOf(q: int, m: int)
    requires m > 0
    ensures (m * q) % m == 0
  {
    var n := m * q;
    assert n == m * (n / m) + n % m;
    TimesAtLeast(m, q - n / m);
    assert m * (q - n / m) == n % m;
  }

  /** The gap is the way to the next such position, and less than one alignment long. */
  lemma GapAligns(idx: nat, alignment: nat)
    requires alignment > 0
    ensures Aligned(idx + Gap(idx, alignment), alignment) && Gap(idx, alignment) < alignment
  {
    var n := idx - 4;
    if n % alignment != 0 {
      assert n == alignment * (n / alignment) + n % alignment;
      MultipleOf(n / alignment + 1, alignment);
      assert n + Gap(idx, alignment) == alignment * (n / alignment + 1);
    }
  }

  function Zeros(n: nat): (s: Bytes)
    ensures |s| == n && forall i :: 0 <= i < n ==> s[i] == 0
  {
    seq(n, i => 0)
  }

  function PutPad(buf: Bytes, alignment: nat): Bytes
    requires alignment > 0
  {
    buf + Zeros(Gap(|buf|, alignment))
  }

  function PutUInt32(buf: Bytes, n: UInt32): Bytes {
    PutPad(buf, 4) + Bytes32(n)
  }

  function PutInt32(buf: Bytes, n: Int32): Bytes {
    PutUInt32(buf, Unsigned(n))
  }

  function PutFloat(buf: Bytes, f: Float64): Bytes {
    PutPad(buf, 8) + f
  }

  function PutText(buf: Bytes, s: Text): Bytes {
    PutUInt32(buf, |s| + 1) + (s + [0])
  }

  function PutTexts(buf: Bytes, texts: seq<Text>): Bytes
    decreases |texts|
  {
    if texts == [] then buf else PutTexts(PutText(buf, texts[0]), texts[1..])
  }

  function PutFloats(buf: Bytes, floats: seq<Float64>): Bytes
    decreases |floats|
  {
    if floats == [] then buf else PutFloats(PutFloat(buf, floats[0]), floats[1..])
  }

  predicate Countable<T>(s: seq<T>) {
    |s| < 0x1_0000_0000
  }

  function PutTextSequence(buf: Bytes, texts: seq<Text>): Bytes
    requires Countable(texts)
  {
    PutTexts(PutUInt32(buf, |texts|), texts)
  }

  function PutFloatSequence(buf: Bytes, floats: seq<Float64>): Bytes
    requires Countable(floats)
  {
    PutFloats(PutUInt32(buf, |floats|), floats)
  }

  // ---------------------------------------------------------------------
  // Reading: a value and where it ends, or a failed access
  // ---------------------------------------------------------------------

  datatype Read<+T> = Got(value: T, idx: nat) | Failed

  function GetUInt32(data: Bytes, idx: nat): Read<UInt32> {
    var i := idx + Gap(idx, 4);
    if i + 4 <= |data| then Got(Number32(data[i], data[i + 1], data[i + 2], data[i + 3]), i + 4) else Failed
  }

  function GetInt32(data: Bytes, idx: nat): Read<Int32> {
    match GetUInt32(data, idx)
    case Got(n, i) => Got(Signed(n), i)
    case Failed => Failed
  }

  function GetFloat(data: Bytes, idx: nat): Read<Float64> {
    var i := idx + Gap(idx, 8);
    if i + 8 <= |data| then Got(data[i..i + 8], i + 8) else Failed
  }

  /** A slice takes what is there, and never fails. */
  function Slice(data: Bytes, from: nat, to: nat): Bytes
    requires from <= to
  {
    if to <= |data| then data[from..to] else if from <= |data| then data[from..] else []
  }

  function WithoutTerminator(raw: Bytes): Bytes {
    if raw != [] && raw[|raw| - 1] == 0 then raw[..|raw| - 1] else raw
  }

  function GetText(data: Bytes, idx: nat): Read<Bytes> {
    match GetUInt32(data, idx)
    case Got(n, i) => Got(WithoutTerminator(Slice(data, i, i + n)), i + n)
    case Failed => Failed
  }

  function GetTexts(data: Bytes, idx: nat, count: nat): Read<seq<Bytes>>
    decreases count
  {
    if count == 0 then Got([], idx)
    else
      match GetText(data, idx)
      case Failed => Failed
      case Got(s, i) =>
        match GetTexts(data, i, count - 1)
        case Failed => Failed
        case Got(rest, j) => Got([s] + rest, j)
  }

  function GetFloats(data: Bytes, idx: nat, count: nat): Read<seq<Float64>>
    decreases count
  {
    if count == 0 then Got([], idx)
    else
      match GetFloat(data, idx)
      case Failed => Failed
      case Got(f, i) =>
        match GetFloats(data, i, count - 1)
        case Failed => Failed
        case Got(rest, j) => Got([f] + rest, j)
  }

  function GetTextSequence(data: Bytes, idx: nat): Read<seq<Bytes>> {
    match GetUInt32(data, idx)
    case Got(n, i) => GetTexts(data, i, n)
    case Failed => Failed
  }

  function GetFloatSequence(data: Bytes, idx: nat): Read<seq<Float64>> {
    match GetUInt32(data, idx)
    case Got(n, i) => GetFloats(data, i, n)
    case Failed => Failed
  }

  // ---------------------------------------------------------------------
  // Reading what was written, all of it or only a part
  // ---------------------------------------------------------------------

  /** data is what has arrived of something that starts with written. */
  ghost predicate Arrived(data: Bytes, written: Bytes) {
    data <= written || written <= data
  }

  /** r is the value behind buf when all of it is there, and an overrun otherwise. */
  ghost predicate Reads<T>(r: Read<T>, data: Bytes, written: Bytes, value: T) {
    if |written| <= |data| then r == Got(value, |written|) else Overrun(r, data)
  }

  /** The read failed, or ended behind the data, where the next one fails. */
  ghost predicate Overrun<T>(r: Read<T>, data: Bytes) {
    r.Failed? || r.idx > |data|
  }

  lemma ArrivedPart(data: Bytes, part: Bytes, whole: Bytes)
    requires part <= whole && Arrived(data, whole)
    ensures Arrived(data, part)
  {
  }

  lemma UInt32Read(buf: Bytes, n: UInt32, data: Bytes, written: Bytes)
    requires written == PutUInt32(buf, n) && Arrived(data, written)
    ensures buf <= written && |written| == |buf| + Gap(|buf|, 4) + 4
    ensures GetUInt32(data, |buf|) == if |written| <= |data| then Got(n, |written|) else Failed
  {
    var i := |buf| + Gap(|buf|, 4);
    Bytes32RoundTrip(n);
    assert written[i..i + 4] == Bytes32(n);
    if |written| <= |data| {
      assert data[i..i + 4] == written[i..i + 4];
    }
  }

  lemma Int32Read(buf: Bytes, n: Int32, data: Bytes, written: Bytes)
    requires written == PutInt32(buf, n) && Arrived(data, written)
    ensures buf <= written
    ensures GetInt32(data, |buf|) == if |written| <= |data| then Got(n, |written|) else Failed
  {
    UInt32Read(buf, Unsigned(n), data, written);
  }

  lemma FloatRead(buf: Bytes, f: Float64, data: Bytes, written: Bytes)
    requires written == PutFloat(buf, f) && Arrived(data, written)
    ensures buf <= written && |written| > |buf|
    ensures GetFloat(data, |buf|) == if |written| <= |data| then Got(f, |written|) else Failed
  {
    var i := |buf| + Gap(|buf|, 8);
    assert written[i..i + 8] == f;
    if |written| <= |data| {
      assert data[i..i + 8] == written[i..i + 8];
    }
  }

  /** Nothing can be read behind the data. */
  lemma NothingBehind(data: Bytes, idx: nat)
    requires idx > |data|
    ensures GetUInt32(data, idx).Failed? && GetInt32(data, idx).Failed? && GetText(data, idx).Failed?
    ensures GetTextSequence(data, idx).Failed? && GetFloatSequence(data, idx).Failed?
  {
  }

  lemma TextRead(buf: Bytes, s: Text, data: Bytes, written: Bytes)
    requires written == PutText(buf, s) && Arrived(data, written)
    ensures buf <= written && |written| > |buf|
    ensures Reads(GetText(data, |buf|), data, written, s)
  {
    var prefix := PutUInt32(buf, |s| + 1);
    ArrivedPart(data, prefix, written);
    UInt32Read(buf, |s| + 1, data, prefix);
    assert written[|prefix|..] == s + [0];
    if |written| <= |data| {
      assert data[|prefix|..|written|] == written[|prefix|..];
      assert (s + [0])[..|s|] == s;
    }
  }

  lemma {:induction false} TextsExtend(buf: Bytes, texts: seq<Text>)
    ensures buf <= PutTexts(buf, texts)
    decreases |texts|
  {
    if texts != [] {
      TextRead(buf, texts[0], [], PutText(buf, texts[0]));
      TextsExtend(PutText(buf, texts[0]), texts[1..]);
    }
  }

  lemma {:induction false} FloatsExtend(buf: Bytes, floats: seq<Float64>)
    ensures buf <= PutFloats(buf, floats)
    decreases |floats|
  {
    if floats != [] {
      FloatRead(buf, floats[0], [], PutFloat(buf, floats[0]));
      FloatsExtend(PutFloat(buf, floats[0]), floats[1..]);
    }
  }

  /** The first text is read, and with it all of them. */
  lemma FirstTextRead(data: Bytes, idx: nat, next: nat, text: Text, rest: seq<Text>, count: nat, written: Bytes)
    requires GetText(data, idx) == Got(text, next) && count == |rest| + 1
    requires Reads(GetTexts(data, next, |rest|), data, written, rest)
    ensures Reads(GetTexts(data, idx, count), data, written, [text] + rest)
  {
  }

  lemma FirstTextCut(data: Bytes, idx: nat, count: nat)
    requires Overrun(GetText(data, idx), data) && count > 0
    ensures Overrun(GetTexts(data, idx, count), data)
  {
    if GetText(data, idx).Got? {
      TextsBehind(data, GetText(data, idx).idx, count - 1);
    }
  }

  lemma {:induction false} TextsRead(buf: Bytes, texts: seq<Text>, data: Bytes, written: Bytes)
    requires written == PutTexts(buf, texts) && Arrived(data, written) && |buf| <= |data|
    ensures Reads(GetTexts(data, |buf|, |texts|), data, written, texts)
    decreases |texts|
  {
    if texts != [] {
      var text, rest := texts[0], texts[1..];
      var first := PutText(buf, text);
      assert texts == [text] + rest;
      TextsExtend(first, rest);
      ArrivedPart(data, first, written);
      TextRead(buf, text, data, first);
      if |first| <= |data| {
        TextsRead(first, rest, data, written);
        FirstTextRead(data, |buf|, |first|, text, rest, |texts|, written);
      } else {
        FirstTextCut(data, |buf|, |texts|);
      }
    }
  }

  lemma TextsBehind(data: Bytes, idx: nat, count: nat)
    requires idx > |data|
    ensures Overrun(GetTexts(data, idx, count), data)
  {
    NothingBehind(data, idx);
  }

  lemma {:induction false} FloatsRead(buf: Bytes, floats: seq<Float64>, data: Bytes, written: Bytes)
    requires written == PutFloats(buf, floats) && Arrived(data, written) && |buf| <= |data|
    ensures GetFloats(data, |buf|, |floats|) == if |written| <= |data| then Got(floats, |written|) else Failed
    decreases |floats|
  {
    if floats != [] {
      var first := PutFloat(buf, floats[0]);
      FloatsExtend(first, floats[1..]);
      ArrivedPart(data, first, written);
      FloatRead(buf, floats[0], data, first);
      if |first| <= |data| {
        FloatsRead(first, floats[1..], data, written);
        assert floats == [floats[0]] + floats[1..];
      }
    }
  }

  lemma TextSequenceRead(buf: Bytes, texts: seq<Text>, data: Bytes, written: Bytes)
    requires Countable(texts) && written == PutTextSequence(buf, texts) && Arrived(data, written)
    ensures buf <= written
    ensures Reads(GetTextSequence(data, |buf|), data, written, texts)
  {
    var start := PutUInt32(buf, |texts|);
    TextsExtend(start, texts);
    ArrivedPart(data, start, written);
    UInt32Read(buf, |texts|, data, start);
    if |start| <= |data| {
      TextsRead(start, texts, data, written);
    }
  }

  lemma FloatSequenceRead(buf: Bytes, floats: seq<Float64>, data: Bytes, written: Bytes)
    requires Countable(floats) && written == PutFloatSequence(buf, floats) && Arrived(data, written)
    ensures buf <= written
    ensures GetFloatSequence(data, |buf|) == if |written| <= |data| then Got(floats, |written|) else Failed
  {
    var start := PutUInt32(buf, |floats|);
    FloatsExtend(start, floats);
    ArrivedPart(data, start, written);
    UInt32Read(buf, |floats|, data, start);
    if |start| <= |data| {
      FloatsRead(start, floats, data, written);
    }
  }

  // ---------------------------------------------------------------------
  // Sequences of anything
  // ---------------------------------------------------------------------

  type Putter<!T> = (Bytes, T) -> Bytes

  type Getter<!T> = (Bytes, nat) -> Read<T>

  function PutMany<T>(put: Putter<T>, buf: Bytes, values: seq<T>): Bytes
    decreases |values|
  {
    if values == [] then buf else PutMany(put, put(buf, values[0]), values[1..])
  }

  function GetMany<T>(get: Getter<T>, data: Bytes, idx: nat, count: nat): Read<seq<T>>
    decreases count, 0
  {
    if count == 0 then Got([], idx) else OneMore(get(data, idx), get, data, count - 1)
  }

  /** A first value and the ones behind it. */
  function OneMore<T>(first: Read<T>, get: Getter<T>, data: Bytes, count: nat): Read<seq<T>>
    decreases count, 1
  {
    if first.Failed? then Failed
    else
      var rest := GetMany(get, data, first.idx, count);
      if rest.Failed? then Failed else Got([first.value] + rest.value, rest.idx)
  }

  lemma FirstOfMany<T>(get: Getter<T>, data: Bytes, idx: nat, count: nat, first: Read<T>)
    requires count > 0 && get(data, idx) == first
    ensures GetMany(get, data, idx, count) == OneMore(first, get, data, count - 1)
  {
  }

  /** One value that was written is read back when all of it is there, and otherwise fails. */
  ghost predicate Inverse<T>(put: Putter<T>, get: Getter<T>, fits: T -> bool, buf: Bytes, x: T, data: Bytes) {
    fits(x) && Arrived(data, put(buf, x)) ==>
      && buf <= put(buf, x)
      && get(data, |buf|) == if |put(buf, x)| <= |data| then Got(x, |put(buf, x)|) else Failed
  }

  ghost predicate AllInverse<T(!new)>(put: Putter<T>, get: Getter<T>, fits: T -> bool) {
    forall buf: Bytes, x: T, data: Bytes :: Inverse(put, get, fits, buf, x, data)
  }

  predicate AllFit<T>(fits: T -> bool, values: seq<T>)
    decreases |values|
  {
    values == [] || (fits(values[0]) && AllFit(fits, values[1..]))
  }

  lemma {:induction false} ManyExtend<T(!new)>(put: Putter<T>, get: Getter<T>, fits: T -> bool, buf: Bytes,
                                               values: seq<T>)
    requires AllInverse(put, get, fits) && AllFit(fits, values)
    ensures buf <= PutMany(put, buf, values)
    decreases |values|
  {
    if values != [] {
      assert Inverse(put, get, fits, buf, values[0], []);
      ManyExtend(put, get, fits, put(buf, values[0]), values[1..]);
    }
  }

  lemma {:induction false} ManyRead<T(!new)>(put: Putter<T>, get: Getter<T>, fits: T -> bool,
                                       buf: Bytes, values: seq<T>, data: Bytes, written: Bytes)
    requires AllInverse(put, get, fits) && AllFit(fits, values)
    requires written == PutMany(put, buf, values) && Arrived(data, written) && |buf| <= |data|
    ensures GetMany(get, data, |buf|, |values|) == if |written| <= |data| then Got(values, |written|) else Failed
    decreases |values|
  {
    if values != [] {
      var first := put(buf, values[0]);
      ManyExtend(put, get, fits, first, values[1..]);
      ArrivedPart(data, first, written);
      assert Inverse(put, get, fits, buf, values[0], data);
      if |first| <= |data| {
        ManyRead(put, get, fits, first, values[1..], data, written);
        assert values == [values[0]] + values[1..];
      }
    }
  }
}
