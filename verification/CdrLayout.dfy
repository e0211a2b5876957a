/**
  Where things stand in CDR: items that follow each other, each at the next position behind the header
  that its size divides, with nothing but zeros in between.
*/
module CdrLayout {
  import opened ByteWords
  import opened Cdr

  /** Bytes that have to start at a multiple of the size. */
  datatype Item = Item(size: nat, bytes: Bytes)

  ghost predicate AllZero(s: Bytes) {
    forall i :: 0 <= i < |s| ==> s[i] == 0
  }

  /** The item stands at the first position that is not taken and that its size divides. */
  ghost predicate Appended(buf: Bytes, next: Bytes, item: Item, pad: Bytes) {
    && next == buf + pad + item.bytes && AllZero(pad)
    && |pad| < item.size && Aligned(|buf| + |pad|, item.size)
  }

  /** The items stand behind buf, one after the other. */
  ghost predicate Laid(buf: Bytes, written: Bytes, items: seq<Item>)
    decreases |items|
  {
    if items == [] then written == buf
    else exists next, pad :: Appended(buf, next, items[0], pad) && Laid(next, written, items[1..])
  }

  lemma LaidOne(buf: Bytes, next: Bytes, item: Item, pad: Bytes)
    requires Appended(buf, next, item, pad)
    ensures Laid(buf, next, [item])
  {
    assert Appended(buf, next, [item][0], pad) && Laid(next, next, [item][1..]);
  }

  lemma {:induction false} LaidMore(a: Bytes, b: Bytes, c: Bytes, front: seq<Item>, back: seq<Item>)
    requires Laid(a, b, front) && Laid(b, c, back)
    ensures Laid(a, c, front + back)
    decreases |front|
  {
    if front == [] {
      assert front + back == back;
    } else {
      var next, pad :| Appended(a, next, front[0], pad) && Laid(next, b, front[1..]);
      LaidMore(next, b, c, front[1..], back);
      assert (front + back)[1..] == front[1..] + back && (front + back)[0] == front[0];
    }
  }

  // ---------------------------------------------------------------------
  // What each write lays down
  // ---------------------------------------------------------------------

  function NumberItem(n: UInt32): Item {
    Item(4, Bytes32(n))
  }

  function FloatItem(f: Float64): Item {
    Item(8, f)
  }

  /** The length with the terminator, and the text with the terminator. */
  function TextItems(s: Text): seq<Item> {
    [NumberItem(|s| + 1), Item(1, s + [0])]
  }

  function FloatItems(floats: seq<Float64>): (items: seq<Item>)
    ensures |items| == |floats|
  {
    seq(|floats|, i requires 0 <= i < |floats| => FloatItem(floats[i]))
  }

  function TextsItems(texts: seq<Text>): seq<Item>
    decreases |texts|
  {
    if texts == [] then [] else TextItems(texts[0]) + TextsItems(texts[1..])
  }

  function FloatSequenceItems(floats: seq<Float64>): seq<Item>
    requires Countable(floats)
  {
    [NumberItem(|floats|)] + FloatItems(floats)
  }

  function TextSequenceItems(texts: seq<Text>): seq<Item>
    requires Countable(texts)
  {
    [NumberItem(|texts|)] + TextsItems(texts)
  }

  lemma PaddedLaid(buf: Bytes, item: Item)
    requires item.size > 0
    ensures Laid(buf, PutPad(buf, item.size) + item.bytes, [item])
  {
    GapAligns(|buf|, item.size);
    LaidOne(buf, PutPad(buf, item.size) + item.bytes, item, Zeros(Gap(|buf|, item.size)));
  }

  lemma NumberLaid(buf: Bytes, n: UInt32)
    ensures Laid(buf, PutUInt32(buf, n), [NumberItem(n)])
  {
    PaddedLaid(buf, NumberItem(n));
  }

  lemma FloatLaid(buf: Bytes, f: Float64)
    ensures Laid(buf, PutFloat(buf, f), [FloatItem(f)])
  {
    PaddedLaid(buf, FloatItem(f));
  }

  lemma TextLaid(buf: Bytes, s: Text)
    ensures Laid(buf, PutText(buf, s), TextItems(s))
  {
    var b, length, text := PutUInt32(buf, |s| + 1), NumberItem(|s| + 1), Item(1, s + [0]);
    NumberLaid(buf, |s| + 1);
    assert Appended(b, PutText(buf, s), text, []);
    LaidOne(b, PutText(buf, s), text, []);
    LaidMore(buf, b, PutText(buf, s), [length], [text]);
    assert TextItems(s) == [length] + [text];
  }

  lemma {:induction false} FloatsLaid(buf: Bytes, floats: seq<Float64>)
    ensures Laid(buf, PutFloats(buf, floats), FloatItems(floats))
    decreases |floats|
  {
    if floats != [] {
      var next := PutFloat(buf, floats[0]);
      FloatLaid(buf, floats[0]);
      FloatsLaid(next, floats[1..]);
      LaidMore(buf, next, PutFloats(buf, floats), [FloatItem(floats[0])], FloatItems(floats[1..]));
      assert FloatItems(floats) == [FloatItem(floats[0])] + FloatItems(floats[1..]);
    }
  }

  lemma {:induction false} TextsLaid(buf: Bytes, texts: seq<Text>)
    ensures Laid(buf, PutTexts(buf, texts), TextsItems(texts))
    decreases |texts|
  {
    if texts != [] {
      var next := PutText(buf, texts[0]);
      TextLaid(buf, texts[0]);
      TextsLaid(next, texts[1..]);
      LaidMore(buf, next, PutTexts(buf, texts), TextItems(texts[0]), TextsItems(texts[1..]));
    }
  }

  lemma FloatSequenceLaid(buf: Bytes, floats: seq<Float64>)
    requires Countable(floats)
    ensures Laid(buf, PutFloatSequence(buf, floats), FloatSequenceItems(floats))
  {
    var next := PutUInt32(buf, |floats|);
    NumberLaid(buf, |floats|);
    FloatsLaid(next, floats);
    LaidMore(buf, next, PutFloatSequence(buf, floats), [NumberItem(|floats|)], FloatItems(floats));
  }

  lemma TextSequenceLaid(buf: Bytes, texts: seq<Text>)
    requires Countable(texts)
    ensures Laid(buf, PutTextSequence(buf, texts), TextSequenceItems(texts))
  {
    var next := PutUInt32(buf, |texts|);
    NumberLaid(buf, |texts|);
    TextsLaid(next, texts);
    LaidMore(buf, next, PutTextSequence(buf, texts), [NumberItem(|texts|)], TextsItems(texts));
  }

  // ---------------------------------------------------------------------
  // Positions
  // ---------------------------------------------------------------------

  /** The item stands at this position. */
  ghost predicate StandsAt(s: Bytes, item: Item, at: nat)
    requires item.size > 0
  {
    at + |item.bytes| <= |s| && s[at..at + |item.bytes|] == item.bytes && Aligned(at, item.size)
  }

  lemma {:induction false} LaidKeeps(buf: Bytes, written: Bytes, items: seq<Item>)
    requires Laid(buf, written, items)
    ensures buf <= written
    decreases |items|
  {
    if items != [] {
      var next, pad :| Appended(buf, next, items[0], pad) && Laid(next, written, items[1..]);
      LaidKeeps(next, written, items[1..]);
    }
  }

  /** Each item can be found in what was written, at a position behind the header that its size divides. */
  lemma {:induction false} ItemsStand(buf: Bytes, written: Bytes, items: seq<Item>, i: nat) returns (at: nat)
    requires Laid(buf, written, items) && i < |items|
    ensures items[i].size > 0 && StandsAt(written, items[i], at) && at >= |buf|
    decreases |items|
  {
    var next, pad :| Appended(buf, next, items[0], pad) && Laid(next, written, items[1..]);
    LaidKeeps(next, written, items[1..]);
    if i == 0 {
      at := |buf| + |pad|;
      assert next[at..at + |items[0].bytes|] == items[0].bytes;
      assert written[at..at + |items[0].bytes|] == next[at..at + |items[0].bytes|];
    } else {
      at := ItemsStand(next, written, items[1..], i - 1);
    }
  }

  lemma {:induction false} LaidIsUnique(buf: Bytes, a: Bytes, b: Bytes, items: seq<Item>)
    requires Laid(buf, a, items) && Laid(buf, b, items)
    ensures a == b
    decreases |items|
  {
    if items != [] {
      var nextA, padA :| Appended(buf, nextA, items[0], padA) && Laid(nextA, a, items[1..]);
      var nextB, padB :| Appended(buf, nextB, items[0], padB) && Laid(nextB, b, items[1..]);
      OnePlace(|buf|, |padA|, |padB|, items[0].size);
      assert padA == padB;
      LaidIsUnique(nextA, a, b, items[1..]);
    }
  }

  lemma OnePlace(from: nat, a: nat, b: nat, size: nat)
    requires a < size && b < size && Aligned(from + a, size) && Aligned(from + b, size)
    ensures a == b
  {
    var x, y := from + a - 4, from + b - 4;
    var p, q := x / size, y / size;
    assert x == size * p + x % size && y == size * q + y % size;
    TimesAtLeast(size, p - q);
    assert size * (p - q) == a - b;
  }
}
