/**
  What is printed on a device: the check digit of manual codes, and the codes of one known payload.
*/
module MatterCodes {
  import opened Wrappers
  import opened Results
  import opened ByteWords
  import Base38
  import opened Matter

  // ---------------------------------------------------------------------
  // The check digit
  // ---------------------------------------------------------------------

  /** The digits at the first n positions, added up. */
  function SumUpTo(s: string, n: nat): int
    requires n <= |s|
  {
    if n == 0 then 0 else SumUpTo(s, n - 1) + (s[n - 1] as int - '0' as int)
  }

  lemma {:induction false} SumOfPrefix(s: string, n: nat)
    requires n <= |s| && AllDigits(s)
    ensures SumUpTo(s, n) == DigitSum(s[..n])
    decreases n
  {
    if n > 0 {
      assert s[..n][..n - 1] == s[..n - 1] && Digit(s[n - 1]);
      SumOfPrefix(s, n - 1);
    }
  }

  /** The last digit is what the others add up to, modulo ten. */
  ghost predicate EndsWithSum(s: string) {
    |s| >= 1 && (s[|s| - 1] as int - '0' as int) == SumUpTo(s, |s| - 1) % 10
  }

  lemma {:induction false} SumOfFront(a: string, b: string, n: nat)
    requires n <= |a|
    ensures SumUpTo(a + b, n) == SumUpTo(a, n)
    decreases n
  {
    if n > 0 {
      SumOfFront(a, b, n - 1);
    }
  }

  lemma CheckedEndsWithSum(s: string)
    requires AllDigits(s)
    ensures EndsWithSum(Checked(s)) && AllDigits(Checked(s))
  {
    var check := [DigitChar(DigitSum(s) % 10)];
    SumOfFront(s, check, |s|);
    SumOfPrefix(s, |s|);
    assert s[..|s|] == s;
    DigitsAppend(s, check);
  }

  /** Every printed manual code consists of digits, and the last one checks the others. */
  lemma ManualCodeIsChecked(p: Payload)
    requires ToManual(p).Ok?
    ensures AllDigits(ToManual(p).value) && EndsWithSum(ToManual(p).value)
  {
    var a, b := Padded(Chunk1(p), 5), Padded(Chunk2(p), 4);
    GroupsPrint(p);
    DigitsAppend(a, b);
    var head := [DigitChar((if Long(p) then 4 else 0) + ShortDiscriminator(p) / 4)];
    DigitsAppend(head, a + b);
    if Long(p) {
      var v, w := Padded(p.vendorId.value, 5), Padded(p.productId.value, 5);
      PaddedIsDecimal(p.vendorId.value, 5);
      PaddedIsDecimal(p.productId.value, 5);
      DigitsAppend(head + (a + b), v);
      DigitsAppend(head + (a + b) + v, w);
      CheckedEndsWithSum(head + (a + b) + v + w);
    } else {
      CheckedEndsWithSum(head + (a + b));
    }
  }

  /** Where a manual code has the passcode and the top four bits of the discriminator. */
  ghost predicate InPlace(s: string, p: Payload) {
    && |s| >= 10 && (s[0] as int - '0' as int) == p.discriminator / 1024 % 4 + (if Long(p) then 4 else 0)
    && Decimal(s[1..6]) == p.discriminator / 256 % 4 * 16384 + p.passcode % 16384
    && Decimal(s[6..10]) == p.passcode / 16384 % 8192
  }

  lemma HighAndLow(d: int)
    ensures d / 256 % 16 / 4 == d / 1024 % 4 && d / 256 % 16 % 4 == d / 256 % 4
  {
    assert d / 256 / 4 == d / 1024;
  }

  /** The first digit holds two bits of the discriminator, and the next nine two more and the passcode. */
  lemma ManualCodeInPlace(p: Payload)
    requires ToManual(p).Ok?
    ensures InPlace(ToManual(p).value, p)
  {
    var a, b := Padded(Chunk1(p), 5), Padded(Chunk2(p), 4);
    var head := DigitChar((if Long(p) then 4 else 0) + ShortDiscriminator(p) / 4);
    var s := ToManual(p).value;
    GroupsPrint(p);
    HighAndLow(p.discriminator);
    assert s[0] == head && s[1..6] == a && s[6..10] == b;
  }

  // ---------------------------------------------------------------------
  // A known payload: passcode 20202021, discriminator 3840, vendor 0xFFF1, product 0x8000
  // ---------------------------------------------------------------------

  function Example(): Payload {
    Payload(20202021, 3840, Some(0xFFF1), Some(0x8000), 2, 0, 0)
  }

  lemma OneByte(v: nat, rest: nat, b: Byte, n: nat)
    requires v == b + 256 * rest
    ensures Base38.LowBytes(v, n + 1) == [b] + Base38.LowBytes(rest, n)
  {
    assert v % 256 == b && v / 256 == rest;
  }

  lemma OneChar(v: nat, rest: nat, d: nat, n: nat)
    requires d < 38 && v == d + 38 * rest
    ensures Base38.Digits(v, n + 1) == [Base38.CharOf(d)] + Base38.Digits(rest, n)
  {
    assert v % 38 == d && v / 38 == rest;
  }

  lemma ExampleBytes()
    ensures Base38.LowBytes(Packed(Example()), 11) == [136, 255, 7, 0, 68, 0, 224, 75, 132, 104, 2]
  {
    assert Packed(Example()) == 2911418191035670798532488;
    OneByte(2, 0, 2, 0);
    OneByte(616, 2, 104, 1);
    OneByte(157828, 616, 132, 2);
    OneByte(40404043, 157828, 75, 3);
    OneByte(10343435232, 40404043, 224, 4);
    OneByte(2647919419392, 10343435232, 0, 5);
    OneByte(677867371364420, 2647919419392, 68, 6);
    OneByte(173534047069291520, 677867371364420, 0, 7);
    OneByte(44424716049738629127, 173534047069291520, 7, 8);
    OneByte(11372727308733089056767, 44424716049738629127, 255, 9);
    OneByte(2911418191035670798532488, 11372727308733089056767, 136, 10);
  }

  lemma FirstChunk()
    ensures Base38.Digits(524168, 5) == "Y.K90"
  {
    OneChar(0, 0, 0, 0);
    OneChar(9, 0, 9, 1);
    OneChar(362, 9, 20, 2);
    OneChar(13793, 362, 37, 3);
    OneChar(524168, 13793, 34, 4);
  }

  lemma SecondChunk()
    ensures Base38.Digits(17408, 5) == "42C00"
  {
    OneChar(0, 0, 0, 0);
    OneChar(0, 0, 0, 1);
    OneChar(12, 0, 12, 2);
    OneChar(458, 12, 2, 3);
    OneChar(17408, 458, 4, 4);
  }

  lemma ThirdChunk()
    ensures Base38.Digits(8670176, 5) == "KA064"
  {
    OneChar(4, 0, 4, 0);
    OneChar(158, 4, 6, 1);
    OneChar(6004, 158, 0, 2);
    OneChar(228162, 6004, 10, 3);
    OneChar(8670176, 228162, 20, 4);
  }

  lemma LastChunk()
    ensures Base38.Digits(616, 4) == "8G00"
  {
    OneChar(0, 0, 0, 0);
    OneChar(0, 0, 0, 1);
    OneChar(16, 0, 16, 2);
    OneChar(616, 16, 8, 3);
  }

  lemma OneChunk(data: Bytes, n: nat, front: Bytes, rest: Bytes, v: nat, text: string)
    requires |data| > 0 && n == Base38.ByteChunk(|data|) && front == data[..n] && rest == data[n..]
    requires v == Base38.Number(front) && Base38.Digits(v, Base38.CharsFor(n)) == text
    ensures Base38.Encode(data) == text + Base38.Encode(rest)
  {
  }

  lemma NumberOfThree(a: Byte, b: Byte, c: Byte)
    ensures Base38.Number([a, b, c]) == a + 256 * b + 65536 * c && Base38.Number([a, b]) == a + 256 * b
  {
    assert [c][1..] == [] && [b][1..] == [] && [b, c][1..] == [c] && [a, b, c][1..] == [b, c] && [a, b][1..] == [b];
    assert Base38.Number([c]) == c && Base38.Number([b]) == b;
    assert Base38.Number([b, c]) == b + 256 * c;
  }

  lemma ChunkOfThree(a: Byte, b: Byte, c: Byte, data: Bytes, rest: Bytes, v: nat, text: string)
    requires data == [a, b, c] + rest && v == a + 256 * b + 65536 * c && text == Base38.Digits(v, 5)
    ensures Base38.Encode(data) == text + Base38.Encode(rest)
  {
    NumberOfThree(a, b, c);
    OneChunk(data, 3, [a, b, c], rest, v, text);
  }

  lemma ChunkOfTwo(a: Byte, b: Byte, data: Bytes, v: nat, text: string)
    requires data == [a, b] && v == a + 256 * b && text == Base38.Digits(v, 4)
    ensures Base38.Encode(data) == text
  {
    NumberOfThree(a, b, 0);
    OneChunk(data, 2, data, [], v, text);
    assert text + Base38.Encode([]) == text;
  }

  lemma JoinedText()
    ensures "KA064" + "8G00" == "KA0648G00" && "42C00" + "KA0648G00" == "42C00KA0648G00"
    ensures "Y.K90" + "42C00KA0648G00" == "Y.K9042C00KA0648G00"
  {
  }

  lemma ExampleText(d0: Bytes, d1: Bytes, d2: Bytes)
    requires d2 == [224, 75, 132] + [104, 2] && d1 == [0, 68, 0] + d2 && d0 == [136, 255, 7] + d1
    ensures Base38.Encode(d0) == "Y.K9042C00KA0648G00"
  {
    FirstChunk();
    SecondChunk();
    ThirdChunk();
    LastChunk();
    ChunkOfTwo(104, 2, [104, 2], 616, "8G00");
    ChunkOfThree(224, 75, 132, d2, [104, 2], 8670176, "KA064");
    ChunkOfThree(0, 68, 0, d1, d2, 17408, "42C00");
    ChunkOfThree(136, 255, 7, d0, d1, 524168, "Y.K90");
    JoinedText();
  }

  lemma ExampleParts(d0: Bytes, d1: Bytes, d2: Bytes)
    requires d2 == [224, 75, 132] + [104, 2] && d1 == [0, 68, 0] + d2 && d0 == [136, 255, 7] + d1
    ensures Base38.LowBytes(Packed(Example()), 11) == d0
  {
    ExampleBytes();
  }

  /** The QR code of the example. */
  lemma ExampleQrCode(text: string)
    requires text == "Y.K9042C00KA0648G00"
    ensures ToQr(Example()) == "MT:" + text
  {
    var d2 := [224, 75, 132] + [104, 2];
    var d1 := [0, 68, 0] + d2;
    var d0 := [136, 255, 7] + d1;
    ExampleParts(d0, d1, d2);
    ExampleText(d0, d1, d2);
  }

  lemma MoreDigits(n: nat, q: nat, d: nat, width: nat)
    requires d < 10 && n == 10 * q + d
    ensures Padded(n, width + 1) == Padded(q, width) + [DigitChar(d)]
  {
  }

  lemma ExampleGroups()
    ensures Padded(49701, 5) == "49701" && Padded(1233, 4) == "1233"
  {
    MoreDigits(4, 0, 4, 0);
    MoreDigits(49, 4, 9, 1);
    MoreDigits(497, 49, 7, 2);
    MoreDigits(4970, 497, 0, 3);
    MoreDigits(49701, 4970, 1, 4);
    MoreDigits(1, 0, 1, 0);
    MoreDigits(12, 1, 2, 1);
    MoreDigits(123, 12, 3, 2);
    MoreDigits(1233, 123, 3, 3);
  }

  lemma ExampleSum(s: string)
    requires s == "3497011233"
    ensures AllDigits(s) && SumUpTo(s, 10) == 33
  {
    assert s[0] == '3' && SumUpTo(s, 1) == 3;
    assert s[1] == '4' && SumUpTo(s, 2) == 7;
    assert s[2] == '9' && SumUpTo(s, 3) == 16;
    assert s[3] == '7' && SumUpTo(s, 4) == 23;
    assert s[4] == '0' && SumUpTo(s, 5) == 23;
    assert s[5] == '1' && SumUpTo(s, 6) == 24;
    assert s[6] == '1' && SumUpTo(s, 7) == 25;
    assert s[7] == '2' && SumUpTo(s, 8) == 27;
    assert s[8] == '3' && SumUpTo(s, 9) == 30;
    assert s[9] == '3' && SumUpTo(s, 10) == 33;
  }

  lemma JoinedDigits(s: string)
    requires s == "3497011233"
    ensures ['3'] + ("49701" + "1233") == s
  {
    assert "49701" + "1233" == "497011233";
    assert ['3'] + "497011233" == s;
  }

  lemma PrintsGroups(p: Payload, head: char, a: string, b: string, s: string)
    requires !Long(p) && a == Padded(Chunk1(p), 5) && b == Padded(Chunk2(p), 4)
    requires head == DigitChar(ShortDiscriminator(p) / 4) && s == [head] + (a + b)
    ensures ToManual(p) == Ok(s + [DigitChar(DigitSum(s) % 10)])
  {
  }

  lemma ExampleChunks(p: Payload)
    requires p == Example().(vendorId := None)
    ensures !Long(p) && ShortDiscriminator(p) == 15 && Chunk1(p) == 49701 && Chunk2(p) == 1233
  {
  }

  /** Without its identifiers, the example has a code of eleven digits. */
  lemma ExampleManualCode(s: string)
    requires s == "3497011233"
    ensures ToManual(Example().(vendorId := None)) == Ok(s + ['3'])
  {
    var p := Example().(vendorId := None);
    ExampleChunks(p);
    ExampleGroups();
    ExampleSum(s);
    SumOfPrefix(s, 10);
    assert s[..10] == s;
    JoinedDigits(s);
    PrintsGroups(p, '3', Padded(Chunk1(p), 5), Padded(Chunk2(p), 4), s);
  }
}
