/**
  Onboarding payloads of Matter devices: QR codes, which pack every field into bits, and manual
  codes of 11 or 21 digits, which keep the passcode and part of the discriminator.
*/
module Matter {
  import opened Wrappers
  import opened Results
  import opened ByteWords
  import Base38

  datatype Error =
    | NoPrefix | BadText(cause: Base38.Error) | TooShort(bytes: nat)
    | NotDigits | BadDigitCount(digits: nat) | Negative

  datatype Payload = Payload(
    passcode: int, discriminator: int, vendorId: Option<int>, productId: Option<int>,
    discovery: int, version: int, flow: int)

  // ---------------------------------------------------------------------
  // Bits
  // ---------------------------------------------------------------------

  /** No vendor or product counts as 0. */
  function OrZero(id: Option<int>): int {
    if id.Some? then id.value else 0
  }

  function NoneIfZero(id: nat): Option<int> {
    if id == 0 then None else Some(id)
  }

  /** The fields, each cut to its width and put at its bit position. */
  function Packed(p: Payload): nat {
    p.version % 8
    + (OrZero(p.vendorId) % 65536) * 8
    + (OrZero(p.productId) % 65536) * 524288
    + (p.flow % 4) * 34359738368
    + (p.discovery % 256) * 137438953472
    + (p.discriminator % 4096) * 35184372088832
    + (p.passcode % 134217728) * 144115188075855872
  }

  /** The fields at their bit positions. */
  function Fields(v: nat): Payload {
    Payload(
      v / 144115188075855872 % 134217728, v / 35184372088832 % 4096,
      NoneIfZero(v / 8 % 65536), NoneIfZero(v / 524288 % 65536),
      v / 137438953472 % 256, v % 8, v / 34359738368 % 4)
  }

  /** What a QR code keeps of a payload. */
  function Cut(p: Payload): Payload {
    Payload(
      p.passcode % 134217728, p.discriminator % 4096,
      NoneIfZero(OrZero(p.vendorId) % 65536), NoneIfZero(OrZero(p.productId) % 65536),
      p.discovery % 256, p.version % 8, p.flow % 4)
  }

  /** The fields that a QR code has room for. */
  predicate InRange(p: Payload) {
    && 0 <= p.passcode < 134217728 && 0 <= p.discriminator < 4096
    && (p.vendorId.Some? ==> 0 < p.vendorId.value < 65536)
    && (p.productId.Some? ==> 0 < p.productId.value < 65536)
    && 0 <= p.discovery < 256 && 0 <= p.version < 8 && 0 <= p.flow < 4
  }

  lemma Part(v: nat, m: nat, low: nat, high: nat)
    requires v == low + m * high && low < m
    ensures v % m == low && v / m == high
  {
    assert m * (v / m - high) == low - v % m;
    if v / m > high {
      AtLeast(m, v / m - high);
    } else if v / m < high {
      AtLeast(m, high - v / m);
    }
  }

  lemma AtLeast(m: nat, k: nat)
    requires k >= 1
    ensures m * k >= m
  {
  }

  lemma DivideTwice(v: nat, a: nat, b: nat, ab: nat)
    requires a > 0 && b > 0 && ab == a * b
    ensures ab > 0 && v / a / b == v / ab
  {
    var q, r := v / a, v % a;
    var rest := Nested(v, a, b, ab, q, r, q / b, q % b);
    Part(v, ab, rest, q / b);
  }

  lemma Nested(v: nat, a: nat, b: nat, ab: nat, q: nat, r: nat, high: nat, low: nat) returns (rest: nat)
    requires v == a * q + r && r < a && q == b * high + low && low < b && ab == a * b
    ensures v == rest + ab * high && rest < ab
  {
    rest := a * low + r;
    Times(a, b, high, low);
    Bounded(a, b, r, low);
  }

  lemma Times(a: nat, b: nat, q: nat, r: nat)
    ensures a * (b * q + r) == (a * b) * q + a * r
  {
  }

  lemma Bounded(a: nat, b: nat, r: nat, s: nat)
    requires r < a && s < b
    ensures a * s + r < a * b
  {
    assert a * s <= a * (b - 1);
  }

  /** The fields come apart again. */
  lemma FieldsOfPacked(p: Payload)
    ensures Fields(Packed(p)) == Cut(p)
  {
    var passcode, discriminator := p.passcode % 134217728, p.discriminator % 4096;
    var vendor, product := OrZero(p.vendorId) % 65536, OrZero(p.productId) % 65536;
    var discovery, version, flow := p.discovery % 256, p.version % 8, p.flow % 4;
    var v6 := discriminator + 4096 * passcode;
    var v5 := discovery + 256 * v6;
    var v4 := flow + 4 * v5;
    var v3 := product + 65536 * v4;
    var v2 := vendor + 65536 * v3;
    var v := version + 8 * v2;
    assert Packed(p) == v;
    Part(v, 8, version, v2);
    Part(v2, 65536, vendor, v3);
    Part(v3, 65536, product, v4);
    Part(v4, 4, flow, v5);
    Part(v5, 256, discovery, v6);
    Part(v6, 4096, discriminator, passcode);
    Positions(v);
  }

  /** Taking one field after another from the low end finds each at its position. */
  lemma Positions(v: nat)
    ensures v / 8 / 65536 == v / 524288
    ensures v / 8 / 65536 / 65536 == v / 34359738368
    ensures v / 8 / 65536 / 65536 / 4 == v / 137438953472
    ensures v / 8 / 65536 / 65536 / 4 / 256 == v / 35184372088832
    ensures v / 8 / 65536 / 65536 / 4 / 256 / 4096 == v / 144115188075855872
  {
    DivideTwice(v, 8, 65536, 524288);
    DivideTwice(v, 524288, 65536, 34359738368);
    DivideTwice(v, 34359738368, 4, 137438953472);
    DivideTwice(v, 137438953472, 256, 35184372088832);
    DivideTwice(v, 35184372088832, 4096, 144115188075855872);
  }

  lemma PackedFits(p: Payload)
    ensures Packed(p) < 19342813113834066795298816
  {
  }

  // ---------------------------------------------------------------------
  // QR codes
  // ---------------------------------------------------------------------

  predicate Space(c: char) {
    var n := c as int;
    || 9 <= n <= 13 || 28 <= n <= 32 || n == 0x85 || n == 0xA0 || n == 0x1680 || 0x2000 <= n <= 0x200A
    || n == 0x2028 || n == 0x2029 || n == 0x202F || n == 0x205F || n == 0x3000
  }

  function Strip(s: string): string
    decreases |s|
  {
    if s == "" then s
    else if Space(s[0]) then Strip(s[1..])
    else if Space(s[|s| - 1]) then Strip(s[..|s| - 1])
    else s
  }

  predicate HasPrefix(s: string) {
    |s| >= 3 && s[..3] == "MT:"
  }

  function ToQr(p: Payload): string {
    "MT:" + Base38.Encode(Base38.LowBytes(Packed(p), 11))
  }

  function FromQr(s: string): Result<Payload, Error> {
    var qr := Strip(s);
    if !HasPrefix(qr) then Err(NoPrefix)
    else
      var raw := Base38.Decode(qr[3..]);
      if raw.Err? then Err(BadText(raw.error))
      else if |raw.value| < 11 then Err(TooShort(|raw.value|))
      else Ok(Fields(Base38.Number(raw.value)))
  }

  lemma {:induction false} EncodedIsKnown(data: Bytes)
    ensures Base38.AllKnown(Base38.Encode(data))
    decreases |data|
  {
    if data != [] {
      var n := Base38.ByteChunk(|data|);
      EncodedIsKnown(data[n..]);
      Base38.ValueOfDigits(Base38.Number(data[..n]), Base38.CharsFor(n));
    }
  }

  lemma QrIsStripped(text: string)
    requires Base38.AllKnown(text)
    ensures Strip("MT:" + text) == "MT:" + text && HasPrefix("MT:" + text) && ("MT:" + text)[3..] == text
  {
    var s := "MT:" + text;
    assert s[0] == 'M';
    if text == "" {
      assert s[|s| - 1] == ':';
    } else {
      assert s[|s| - 1] == text[|text| - 1];
      KnownIsNoSpace(text[|text| - 1]);
    }
  }

  lemma KnownIsNoSpace(c: char)
    requires Base38.Known(c)
    ensures !Space(c)
  {
  }

  lemma ElevenBytes()
    ensures Base38.Power(256, 11) == 309485009821345068724781056
  {
    var p := Base38.Power(256, 8);
    assert p == 18446744073709551616;
  }

  /**
    Reading a printed QR code gives the payload back, each field cut to its width and 0 read as no
    vendor or product.
  */
  lemma QrRoundTrip(p: Payload)
    ensures FromQr(ToQr(p)) == Ok(Cut(p))
  {
    var raw := Base38.LowBytes(Packed(p), 11);
    PackedFits(p);
    ElevenBytes();
    Base38.NumberOfBytes(Packed(p), 11);
    Base38.DecodeUndoesEncode(raw);
    EncodedIsKnown(raw);
    QrIsStripped(Base38.Encode(raw));
    FieldsOfPacked(p);
  }

  /** Nothing is lost exactly when every field is in range. */
  lemma QrKeepsAllExactly(p: Payload)
    ensures FromQr(ToQr(p)) == Ok(p) <==> InRange(p)
  {
    QrRoundTrip(p);
    CutExactly(p);
  }

  lemma Remainder(x: int, m: nat)
    requires m > 0
    ensures x % m == x <==> 0 <= x < m
  {
  }

  lemma IdExactly(id: Option<int>)
    ensures NoneIfZero(OrZero(id) % 65536) == id <==> id.None? || 0 < id.value < 65536
  {
    Remainder(OrZero(id), 65536);
  }

  lemma CutExactly(p: Payload)
    ensures Cut(p) == p <==> InRange(p)
  {
    IdExactly(p.vendorId);
    IdExactly(p.productId);
    Remainder(p.passcode, 134217728);
    Remainder(p.discriminator, 4096);
    Remainder(p.discovery, 256);
    Remainder(p.version, 8);
    Remainder(p.flow, 4);
  }

  /** The bytes are read as one number, from which field after field is taken. */
  method ParseQr(text: string) returns (r: Result<Payload, Error>)
    ensures r == FromQr(text)
  {
    var qr := Strip(text);
    if !HasPrefix(qr) {
      return Err(NoPrefix);
    }
    var raw := Base38.DecodeText(qr[3..]);
    if raw.Err? {
      return Err(BadText(raw.error));
    }
    if |raw.value| < 11 {
      return Err(TooShort(|raw.value|));
    }
    var p := Unpack(Base38.Number(raw.value));
    r := Ok(p);
  }

  method Unpack(number: nat) returns (p: Payload)
    ensures p == Fields(number)
  {
    var val := number;
    Positions(number);
    var version := val % 8;
    val := val / 8;
    var vendor := val % 65536;
    val := val / 65536;
    var product := val % 65536;
    val := val / 65536;
    var flow := val % 4;
    val := val / 4;
    var discovery := val % 256;
    val := val / 256;
    var discriminator := val % 4096;
    val := val / 4096;
    var passcode := val % 134217728;
    p := Payload(passcode, discriminator, NoneIfZero(vendor), NoneIfZero(product), discovery, version, flow);
  }

  // ---------------------------------------------------------------------
  // Decimal digits
  // ---------------------------------------------------------------------

  predicate Digit(c: char) {
    '0' <= c <= '9'
  }

  predicate AllDigits(s: string) {
    forall c <- s :: Digit(c)
  }

  function DigitChar(d: int): (c: char)
    requires 0 <= d < 10
    ensures Digit(c)
  {
    ('0' as int + d) as char
  }

  function DigitValue(c: char): (d: nat)
    ensures d < 10
  {
    if Digit(c) then c as int - '0' as int else 0
  }

  /** In decimal, with zeros in front up to the width; longer if it has to be. */
  function Padded(n: nat, width: nat): string
    decreases n + width
  {
    if n == 0 && width == 0 then ""
    else Padded(n / 10, if width > 0 then width - 1 else 0) + [DigitChar(n % 10)]
  }

  function Decimal(s: string): nat {
    if s == "" then 0 else 10 * Decimal(s[..|s| - 1]) + DigitValue(s[|s| - 1])
  }

  function DigitSum(s: string): nat {
    if s == "" then 0 else DigitSum(s[..|s| - 1]) + DigitValue(s[|s| - 1])
  }

  function Ten(n: nat): nat {
    if n == 0 then 1 else 10 * Ten(n - 1)
  }

  lemma {:induction false} PaddedIsDecimal(n: nat, width: nat)
    ensures AllDigits(Padded(n, width)) && Decimal(Padded(n, width)) == n
    decreases n + width
  {
    if n != 0 || width != 0 {
      var w := if width > 0 then width - 1 else 0;
      var front := Padded(n / 10, w);
      PaddedIsDecimal(n / 10, w);
      var s := front + [DigitChar(n % 10)];
      assert s[..|s| - 1] == front;
    }
  }

  lemma {:induction false} PaddedLength(n: nat, width: nat)
    ensures |Padded(n, width)| >= width
    ensures |Padded(n, width)| == width <==> n < Ten(width)
    decreases n + width
  {
    if n != 0 || width != 0 {
      PaddedLength(n / 10, if width > 0 then width - 1 else 0);
    }
  }

  // ---------------------------------------------------------------------
  // Manual codes
  // ---------------------------------------------------------------------

  /** White space and hyphens do not count. */
  function Clean(code: string): string {
    if code == "" then ""
    else (if Space(code[0]) || code[0] == '-' then "" else [code[0]]) + Clean(code[1..])
  }

  function HighBits(digit: nat): nat {
    if digit >= 4 then (digit - 4) % 4 else digit % 4
  }

  /** The first digit and the two groups after it hold the passcode and four bits of the discriminator. */
  function FromGroups(high: nat, chunk1: nat, chunk2: nat, vendor: Option<int>, product: Option<int>): Payload {
    Payload(chunk2 % 8192 * 16384 + chunk1 % 16384, (high * 4 + chunk1 / 16384 % 4) * 256, vendor, product, 4, 0, 0)
  }

  function FromManual(code: string): Result<Payload, Error> {
    FromDigits(Clean(code))
  }

  function FromDigits(clean: string): Result<Payload, Error> {
    if clean == "" || !AllDigits(clean) then Err(NotDigits)
    else if |clean| == 11 then
      Ok(FromGroups(DigitValue(clean[0]) % 4, Decimal(clean[1..6]), Decimal(clean[6..10]), None, None))
    else if |clean| == 21 then
      Ok(FromGroups(HighBits(DigitValue(clean[0])), Decimal(clean[1..6]), Decimal(clean[6..10]),
                    Some(Decimal(clean[10..15])), Some(Decimal(clean[15..20]))))
    else Err(BadDigitCount(|clean|))
  }

  function ShortDiscriminator(p: Payload): (d: nat)
    ensures d < 16
  {
    p.discriminator / 256 % 16
  }

  function Chunk1(p: Payload): nat {
    ShortDiscriminator(p) % 4 * 16384 + p.passcode % 16384
  }

  function Chunk2(p: Payload): nat {
    p.passcode / 16384 % 8192
  }

  function Groups(p: Payload): string {
    Padded(Chunk1(p), 5) + Padded(Chunk2(p), 4)
  }

  function Checked(s: string): string {
    s + [DigitChar(DigitSum(s) % 10)]
  }

  predicate Long(p: Payload) {
    p.vendorId.Some? && p.productId.Some?
  }

  /** A negative vendor or product prints a sign, which has no digit value. */
  function ToManual(p: Payload): Result<string, Error> {
    var high := ShortDiscriminator(p) / 4;
    if Long(p) then
      if p.vendorId.value < 0 || p.productId.value < 0 then Err(Negative)
      else
        Ok(Checked([DigitChar(4 + high)] + Groups(p) + Padded(p.vendorId.value, 5) + Padded(p.productId.value, 5)))
    else Ok(Checked([DigitChar(high)] + Groups(p)))
  }

  /**
    What a manual code keeps: the passcode, the top four bits of the discriminator, and vendor and
    product together.
  */
  function Kept(p: Payload): Payload {
    Payload(
      p.passcode % 134217728, p.discriminator / 256 % 16 * 256,
      if Long(p) then p.vendorId else None, if Long(p) then p.productId else None, 4, 0, 0)
  }

  /** The groups give back what went into them. */
  lemma GroupsComeBack(p: Payload, vendor: Option<int>, product: Option<int>)
    ensures FromGroups(ShortDiscriminator(p) / 4, Chunk1(p), Chunk2(p), vendor, product)
         == Payload(p.passcode % 134217728, p.discriminator / 256 % 16 * 256, vendor, product, 4, 0, 0)
    ensures Chunk1(p) < Ten(5) && Chunk2(p) < Ten(4)
  {
    var low := p.passcode % 16384;
    Part(Chunk1(p), 16384, low, ShortDiscriminator(p) % 4) by {
      assert Chunk1(p) == low + 16384 * (ShortDiscriminator(p) % 4);
    }
    LowAndHigh(p.passcode);
    Tens();
  }

  lemma Tens()
    ensures Ten(4) == 10000 && Ten(5) == 100000
  {
  }

  lemma LowAndHigh(x: int)
    ensures x / 16384 % 8192 * 16384 + x % 16384 == x % 134217728
  {
    var q := x / 16384;
    assert x == 134217728 * (q / 8192) + (q % 8192 * 16384 + x % 16384);
  }

  lemma {:induction false} DigitsAreClean(s: string)
    requires AllDigits(s)
    ensures Clean(s) == s
  {
    if s != "" {
      assert Digit(s[0]);
      DigitsAreClean(s[1..]);
    }
  }

  lemma DigitsAppend(a: string, b: string)
    requires AllDigits(a) && AllDigits(b)
    ensures AllDigits(a + b)
  {
  }

  lemma Middle(front: string, mid: string, back: string)
    ensures (front + mid + back)[|front|..|front| + |mid|] == mid
  {
  }

  /** The parts of a code that stand in every code. */
  lemma Front(head: char, a: string, b: string, rest: string)
    requires Digit(head) && AllDigits(a) && AllDigits(b) && AllDigits(rest) && |a| == 5 && |b| == 4
    ensures var s := [head] + (a + b) + rest;
      AllDigits(s) && |s| == 10 + |rest| && s[0] == head && s[1..6] == a && s[6..10] == b && s[10..] == rest
  {
    var s := [head] + (a + b) + rest;
    DigitsAppend(a, b);
    DigitsAppend([head], a + b);
    DigitsAppend([head] + (a + b), rest);
    assert s == [head] + a + (b + rest);
    Middle([head], a, b + rest);
    assert s == ([head] + a) + b + rest;
    Middle([head] + a, b, rest);
  }

  lemma DigitsDecide(s: string)
    requires AllDigits(s) && s != ""
    ensures FromManual(s) == FromDigits(s)
  {
    DigitsAreClean(s);
  }

  /** The parts of a short code. */
  lemma ReadShort(head: char, a: string, b: string, check: char, p: Payload)
    requires Digit(head) && AllDigits(a) && AllDigits(b) && Digit(check) && |a| == 5 && |b| == 4
    requires p == FromGroups(DigitValue(head) % 4, Decimal(a), Decimal(b), None, None)
    ensures FromManual([head] + (a + b) + [check]) == Ok(p)
  {
    Front(head, a, b, [check]);
    DigitsDecide([head] + (a + b) + [check]);
  }

  /** The parts of a long code; other lengths of vendor and product are refused. */
  lemma ReadLong(s: string, head: char, a: string, b: string, v: string, w: string, rest: string, p: Payload)
    requires Digit(head) && AllDigits(a) && AllDigits(b) && AllDigits(rest) && |a| == 5 && |b| == 4
    requires s == [head] + (a + b) + rest && |rest| >= 11 && (|rest| == 11 ==> rest[..5] == v && rest[5..10] == w)
    requires p == FromGroups(HighBits(DigitValue(head)), Decimal(a), Decimal(b), Some(Decimal(v)), Some(Decimal(w)))
    ensures FromManual(s) == if |rest| == 11 then Ok(p) else Err(BadDigitCount(10 + |rest|))
  {
    Front(head, a, b, rest);
    DigitsDecide(s);
    if |rest| == 11 {
      RestSlices(s, rest);
      LongDigits(s, head, a, b, v, w, p);
    } else {
      WrongLength(s);
    }
  }

  lemma RestSlices(s: string, rest: string)
    requires |s| == 21 && s[10..] == rest
    ensures s[10..15] == rest[..5] && s[15..20] == rest[5..10]
  {
  }

  lemma LongDigits(s: string, head: char, a: string, b: string, v: string, w: string, p: Payload)
    requires AllDigits(s) && |s| == 21
    requires s[0] == head && s[1..6] == a && s[6..10] == b && s[10..15] == v && s[15..20] == w
    requires p == FromGroups(HighBits(DigitValue(head)), Decimal(a), Decimal(b), Some(Decimal(v)), Some(Decimal(w)))
    ensures FromDigits(s) == Ok(p)
  {
  }

  lemma WrongLength(s: string)
    requires AllDigits(s) && |s| > 21
    ensures FromDigits(s) == Err(BadDigitCount(|s|))
  {
  }

  lemma Tail(v: string, w: string, check: char)
    requires AllDigits(v) && AllDigits(w) && Digit(check) && |v| >= 5 && |w| >= 5
    ensures var rest := v + w + [check];
      && AllDigits(rest) && |rest| == |v| + |w| + 1 && (|rest| == 11 ==> rest[..5] == v && rest[5..10] == w)
  {
    DigitsAppend(v, w);
    DigitsAppend(v + w, [check]);
  }

  /** The two groups, and what they are worth. */
  lemma GroupsPrint(p: Payload)
    ensures var a, b := Padded(Chunk1(p), 5), Padded(Chunk2(p), 4);
      && AllDigits(a) && AllDigits(b) && |a| == 5 && |b| == 4 && Decimal(a) == Chunk1(p) && Decimal(b) == Chunk2(p)
  {
    GroupsComeBack(p, None, None);
    PaddedIsDecimal(Chunk1(p), 5);
    PaddedLength(Chunk1(p), 5);
    PaddedIsDecimal(Chunk2(p), 4);
    PaddedLength(Chunk2(p), 4);
  }

  lemma HeadDigits(d: nat)
    requires d < 4
    ensures DigitValue(DigitChar(d)) % 4 == d && HighBits(DigitValue(DigitChar(4 + d))) == d
  {
  }

  lemma PrintsShort(p: Payload, a: string, b: string, head: char, check: char)
    requires !Long(p) && a == Padded(Chunk1(p), 5) && b == Padded(Chunk2(p), 4)
    requires head == DigitChar(ShortDiscriminator(p) / 4) && check == DigitChar(DigitSum([head] + (a + b)) % 10)
    ensures ToManual(p) == Ok([head] + (a + b) + [check])
  {
  }

  lemma ShortRoundTrip(p: Payload)
    requires !Long(p)
    ensures ToManual(p).Ok? && FromManual(ToManual(p).value) == Ok(Kept(p))
  {
    var a, b := Padded(Chunk1(p), 5), Padded(Chunk2(p), 4);
    var head := DigitChar(ShortDiscriminator(p) / 4);
    var check := DigitChar(DigitSum([head] + (a + b)) % 10);
    GroupsPrint(p);
    GroupsComeBack(p, None, None);
    HeadDigits(ShortDiscriminator(p) / 4);
    PrintsShort(p, a, b, head, check);
    ReadShort(head, a, b, check, Kept(p));
  }

  lemma IdPrints(id: nat)
    ensures AllDigits(Padded(id, 5)) && Decimal(Padded(id, 5)) == id
    ensures |Padded(id, 5)| >= 5 && (|Padded(id, 5)| == 5 <==> id < 100000)
  {
    PaddedIsDecimal(id, 5);
    PaddedLength(id, 5);
    Tens();
  }

  lemma PrintsLong(p: Payload, v: nat, w: nat, a: string, b: string, head: char, vs: string, ws: string, check: char,
                   s: string)
    requires p.vendorId == Some(v) && p.productId == Some(w)
    requires a == Padded(Chunk1(p), 5) && b == Padded(Chunk2(p), 4) && vs == Padded(v, 5) && ws == Padded(w, 5)
    requires head == DigitChar(4 + ShortDiscriminator(p) / 4)
    requires check == DigitChar(DigitSum([head] + (a + b) + vs + ws) % 10)
    requires s == [head] + (a + b) + (vs + ws + [check])
    ensures ToManual(p) == Ok(s)
  {
    Base38.AppendTwice([head] + (a + b), vs + ws, [check]);
    Base38.AppendTwice([head] + (a + b), vs, ws);
  }

  lemma LongRoundTripExactly(p: Payload, v: nat, w: nat)
    requires p.vendorId == Some(v) && p.productId == Some(w)
    ensures ToManual(p).Ok?
    ensures FromManual(ToManual(p).value) == Ok(Kept(p)) <==> v < 100000 && w < 100000
  {
    var a, b := Padded(Chunk1(p), 5), Padded(Chunk2(p), 4);
    var vs, ws := Padded(v, 5), Padded(w, 5);
    var head := DigitChar(4 + ShortDiscriminator(p) / 4);
    var check := DigitChar(DigitSum([head] + (a + b) + vs + ws) % 10);
    var rest := vs + ws + [check];
    var s := [head] + (a + b) + rest;
    IdPrints(v);
    IdPrints(w);
    Tail(vs, ws, check);
    PrintsLong(p, v, w, a, b, head, vs, ws, check, s);
    assert |rest| == 11 <==> v < 100000 && w < 100000;
    LongIsRead(p, v, w, head, s, rest);
  }

  lemma LongIsRead(p: Payload, v: nat, w: nat, head: char, s: string, rest: string)
    requires p.vendorId == Some(v) && p.productId == Some(w)
    requires head == DigitChar(4 + ShortDiscriminator(p) / 4) && AllDigits(rest) && |rest| >= 11
    requires s == [head] + (Padded(Chunk1(p), 5) + Padded(Chunk2(p), 4)) + rest
    requires |rest| == 11 ==> rest[..5] == Padded(v, 5) && rest[5..10] == Padded(w, 5)
    ensures FromManual(s) == if |rest| == 11 then Ok(Kept(p)) else Err(BadDigitCount(10 + |rest|))
  {
    IdPrints(v);
    IdPrints(w);
    GroupsPrint(p);
    GroupsComeBack(p, Some(v), Some(w));
    HeadDigits(ShortDiscriminator(p) / 4);
    ReadLong(s, head, Padded(Chunk1(p), 5), Padded(Chunk2(p), 4), Padded(v, 5), Padded(w, 5), rest, Kept(p));
  }

  /**
    Reading a printed manual code gives back what the code keeps, exactly when vendor and product
    have five digits at most.
  */
  lemma ManualRoundTripExactly(p: Payload)
    ensures ToManual(p).Ok? && FromManual(ToManual(p).value) == Ok(Kept(p))
       <==> !Long(p) || (0 <= p.vendorId.value < 100000 && 0 <= p.productId.value < 100000)
  {
    if !Long(p) {
      ShortRoundTrip(p);
    } else if p.vendorId.value >= 0 && p.productId.value >= 0 {
      LongRoundTripExactly(p, p.vendorId.value, p.productId.value);
    }
  }

  /** The last digit is printed as a check but not read back. */
  lemma CheckDigitIsNotRead(s: string, c: char, d: char)
    requires AllDigits(s) && |s| in {10, 20} && Digit(c) && Digit(d)
    ensures FromManual(s + [c]).Ok? && FromManual(s + [c]) == FromManual(s + [d])
  {
    DigitsAppend(s, [c]);
    DigitsAppend(s, [d]);
    DigitsDecide(s + [c]);
    DigitsDecide(s + [d]);
    SameFront(s, c, d);
  }

  lemma SameFront(s: string, c: char, d: char)
    requires |s| >= 10
    ensures (s + [c])[0] == (s + [d])[0] && (s + [c])[1..6] == (s + [d])[1..6] && (s + [c])[6..10] == (s + [d])[6..10]
    ensures |s| == 20 ==> (s + [c])[10..15] == (s + [d])[10..15] && (s + [c])[15..20] == (s + [d])[15..20]
  {
  }

  /** Either kind of code, as a user enters it. */
  function Parse(input: string): Result<Payload, Error> {
    var s := Strip(input);
    if HasPrefix(s) then FromQr(s) else FromManual(s)
  }

  lemma {:induction false} StripTwice(s: string)
    ensures Strip(Strip(s)) == Strip(s)
    decreases |s|
  {
    if s != "" && Space(s[0]) {
      StripTwice(s[1..]);
    } else if s != "" && Space(s[|s| - 1]) {
      StripTwice(s[..|s| - 1]);
    }
  }

  lemma {:induction false} CleanOfBoth(a: string, b: string)
    ensures Clean(a + b) == Clean(a) + Clean(b)
  {
    if a == "" {
      assert a + b == b;
    } else {
      assert (a + b)[1..] == a[1..] + b;
      CleanOfBoth(a[1..], b);
    }
  }

  lemma {:induction false} CleanStripped(s: string)
    ensures Clean(Strip(s)) == Clean(s)
    decreases |s|
  {
    if s != "" && Space(s[0]) {
      CleanStripped(s[1..]);
    } else if s != "" && Space(s[|s| - 1]) {
      var n := |s| - 1;
      CleanStripped(s[..n]);
      assert s == s[..n] + [s[n]];
      CleanOfBoth(s[..n], [s[n]]);
      assert [s[n]][1..] == "";
      assert Clean([s[n]]) == "";
    }
  }

  /**
    A code with the prefix is read as a QR code, and every other one as a manual code, white space
    around it or not.
  */
  lemma ParseReadsEither(input: string)
    ensures Parse(input) == if HasPrefix(Strip(input)) then FromQr(input) else FromManual(input)
  {
    StripTwice(input);
    CleanStripped(input);
  }
}
