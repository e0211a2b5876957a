/**
  Base-38 text: three bytes in five characters, two in four, one in two.
*/
module Base38 {
  import opened Results
  import opened ByteWords

  datatype Error = BadLength(rest: nat) | BadCharacter(c: char)

  // ---------------------------------------------------------------------
  // The alphabet
  // ---------------------------------------------------------------------

  function CharOf(d: int): char
    requires 0 <= d < 38
  {
    if d < 10 then ('0' as int + d) as char
    else if d < 36 then ('A' as int + (d - 10)) as char
    else if d == 36 then '-'
    else '.'
  }

  predicate Known(c: char) {
    '0' <= c <= '9' || 'A' <= c <= 'Z' || c == '-' || c == '.'
  }

  /** The place of a character in the alphabet; 0 when it has none. */
  function IndexOf(c: char): (d: nat)
    ensures d < 38 && (Known(c) ==> CharOf(d) == c)
  {
    if '0' <= c <= '9' then c as int - '0' as int
    else if 'A' <= c <= 'Z' then c as int - 'A' as int + 10
    else if c == '-' then 36
    else if c == '.' then 37
    else 0
  }

  lemma IndexOfChar(d: int)
    requires 0 <= d < 38
    ensures Known(CharOf(d)) && IndexOf(CharOf(d)) == d
  {
  }

  // ---------------------------------------------------------------------
  // Numbers, least significant part first
  // ---------------------------------------------------------------------

  function Power(b: nat, n: nat): nat {
    if n == 0 then 1 else b * Power(b, n - 1)
  }

  /** The number that bytes stand for. */
  function Number(s: Bytes): nat {
    if s == [] then 0 else s[0] + 256 * Number(s[1..])
  }

  /** The low bytes of a number. */
  function LowBytes(v: nat, n: nat): (s: Bytes)
    ensures |s| == n
  {
    if n == 0 then [] else [v % 256] + LowBytes(v / 256, n - 1)
  }

  /** The number that characters stand for. */
  function Value(t: string): nat {
    if t == "" then 0 else IndexOf(t[0]) + 38 * Value(t[1..])
  }

  /** The low digits of a number, as characters. */
  function Digits(v: nat, n: nat): (t: string)
    ensures |t| == n
  {
    if n == 0 then "" else [CharOf(v % 38)] + Digits(v / 38, n - 1)
  }

  predicate AllKnown(t: string) {
    forall c <- t :: Known(c)
  }

  lemma {:induction false} NumberBound(s: Bytes)
    ensures Number(s) < Power(256, |s|)
  {
    if s != [] {
      NumberBound(s[1..]);
    }
  }

  /** Bytes come back from the number they make. */
  lemma {:induction false} BytesOfNumber(s: Bytes)
    ensures LowBytes(Number(s), |s|) == s
  {
    if s != [] {
      BytesOfNumber(s[1..]);
      assert Number(s) % 256 == s[0] && Number(s) / 256 == Number(s[1..]);
    }
  }

  /** A number comes back from its low bytes when it fits, and is cut down otherwise. */
  lemma {:induction false} NumberOfBytes(v: nat, n: nat)
    ensures Number(LowBytes(v, n)) <= v
    ensures Number(LowBytes(v, n)) == v <==> v < Power(256, n)
    decreases n
  {
    if n > 0 {
      NumberOfBytes(v / 256, n - 1);
      assert LowBytes(v, n)[1..] == LowBytes(v / 256, n - 1);
      Shrinks(v, 256, Power(256, n - 1));
    }
  }

  lemma Shrinks(v: nat, b: nat, p: nat)
    requires b > 0
    ensures v / b < p <==> v < b * p
  {
    var q := v / b;
    var r := v % b;
    assert v == b * q + r && 0 <= r < b;
    if q < p {
      Monotone(b, q + 1, p);
    } else {
      Monotone(b, p, q);
    }
  }

  lemma Monotone(b: nat, x: nat, y: nat)
    requires x <= y
    ensures b * x <= b * y
  {
  }

  /** A number comes back from its digits when it has no more of them. */
  lemma {:induction false} ValueOfDigits(v: nat, n: nat)
    ensures AllKnown(Digits(v, n))
    ensures v < Power(38, n) ==> Value(Digits(v, n)) == v
    decreases n
  {
    if n > 0 {
      ValueOfDigits(v / 38, n - 1);
      IndexOfChar(v % 38);
      var t := Digits(v, n);
      assert t[1..] == Digits(v / 38, n - 1);
      forall i | 0 <= i < |t|
        ensures Known(t[i])
      {
        if i > 0 {
          assert t[i] == t[1..][i - 1];
        }
      }
      Shrinks(v, 38, Power(38, n - 1));
    }
  }

  /** Characters come back from the number they make. */
  lemma {:induction false} DigitsOfValue(t: string)
    requires AllKnown(t)
    ensures Digits(Value(t), |t|) == t
  {
    if t != "" {
      DigitsOfValue(t[1..]);
      assert Value(t) % 38 == IndexOf(t[0]) && Value(t) / 38 == Value(t[1..]);
    }
  }

  // ---------------------------------------------------------------------
  // Chunks
  // ---------------------------------------------------------------------

  /** How many bytes and characters the next chunk has. */
  function ByteChunk(rest: nat): (n: nat)
    requires rest > 0
    ensures 1 <= n <= 3 && n <= rest
  {
    if rest >= 3 then 3 else rest
  }

  function CharsFor(bytes: nat): nat {
    if bytes == 3 then 5 else if bytes == 2 then 4 else 2
  }

  function CharChunk(rest: nat): (n: nat)
    ensures n <= rest && n <= 5
  {
    if rest >= 5 then 5 else if rest == 4 then 4 else if rest == 2 then 2 else 0
  }

  function BytesFor(chars: nat): nat {
    if chars == 5 then 3 else if chars == 4 then 2 else 1
  }

  lemma ChunksFit()
    ensures Power(256, 3) <= Power(38, 5) && Power(256, 2) <= Power(38, 4) && Power(256, 1) <= Power(38, 2)
  {
  }

  function Encode(data: Bytes): string
    decreases |data|
  {
    if data == [] then ""
    else
      var n := ByteChunk(|data|);
      Digits(Number(data[..n]), CharsFor(n)) + Encode(data[n..])
  }

  function FirstUnknown(t: string): (i: nat)
    ensures i <= |t| && (i < |t| <==> !AllKnown(t)) && (i < |t| ==> !Known(t[i]))
    ensures forall k :: 0 <= k < i ==> Known(t[k])
  {
    if t == "" then 0 else if !Known(t[0]) then 0 else 1 + FirstUnknown(t[1..])
  }

  function Decode(text: string): Result<Bytes, Error>
    decreases |text|
  {
    if text == "" then Ok([])
    else
      var n := CharChunk(|text|);
      if n == 0 then Err(BadLength(|text|))
      else
        var bad := FirstUnknown(text[..n]);
        if bad < n then Err(BadCharacter(text[bad]))
        else
          var rest := Decode(text[n..]);
          if rest.Err? then rest else Ok(LowBytes(Value(text[..n]), BytesFor(n)) + rest.value)
  }

  // ---------------------------------------------------------------------
  // Round trips
  // ---------------------------------------------------------------------

  lemma {:induction false} EncodedLength(data: Bytes)
    ensures |Encode(data)| == 5 * (|data| / 3) + (if |data| % 3 == 0 then 0 else CharsFor(|data| % 3))
    decreases |data|
  {
    if data != [] {
      var n := ByteChunk(|data|);
      var rest := data[n..];
      EncodedLength(rest);
      assert |Encode(data)| == CharsFor(n) + |Encode(rest)|;
    }
  }

  /** Decoding undoes encoding for all bytes. */
  lemma {:induction false} DecodeUndoesEncode(data: Bytes)
    ensures Decode(Encode(data)) == Ok(data)
    decreases |data|
  {
    if data != [] {
      var n := ByteChunk(|data|);
      var first, rest := data[..n], data[n..];
      DecodeUndoesEncode(rest);
      EncodedLength(rest);
      ChunkComesBack(first);
      assert CharChunk(CharsFor(n) + |Encode(rest)|) == CharsFor(n);
      DecodeChunk(Digits(Number(first), CharsFor(n)), Encode(rest));
      assert data == first + rest;
    }
  }

  lemma DecodeChunk(digits: string, rest: string)
    requires digits != "" && AllKnown(digits) && CharChunk(|digits| + |rest|) == |digits| && Decode(rest).Ok?
    ensures Decode(digits + rest) == Ok(LowBytes(Value(digits), BytesFor(|digits|)) + Decode(rest).value)
  {
    var text := digits + rest;
    assert text[..|digits|] == digits && text[|digits|..] == rest;
  }

  lemma ChunkComesBack(first: Bytes)
    requires 1 <= |first| <= 3
    ensures var digits := Digits(Number(first), CharsFor(|first|));
      AllKnown(digits) && LowBytes(Value(digits), |first|) == first && BytesFor(|digits|) == |first|
  {
    NumberBound(first);
    ChunksFit();
    ValueOfDigits(Number(first), CharsFor(|first|));
    BytesOfNumber(first);
  }

  /** No chunk stands for more than its bytes can hold. */
  predicate Canonical(text: string)
    decreases |text|
  {
    text == "" ||
    var n := CharChunk(|text|);
    n > 0 && Value(text[..n]) < Power(256, BytesFor(n)) && Canonical(text[n..])
  }

  /** Encoding undoes decoding exactly for the canonical texts. */
  lemma {:induction false} EncodeUndoesDecodeExactly(text: string)
    requires Decode(text).Ok?
    ensures Encode(Decode(text).value) == text <==> Canonical(text)
    ensures CharChunk(|text|) > 0 || text == ""
    decreases |text|
  {
    if text != "" {
      var n := CharChunk(|text|);
      var first, rest := text[..n], text[n..];
      EncodeUndoesDecodeExactly(rest);
      var bytes, later := LowBytes(Value(first), BytesFor(n)), Decode(rest).value;
      var all := bytes + later;
      assert Decode(text).value == all;
      DecodedLength(rest);
      assert ByteChunk(|all|) == BytesFor(n) && all[..|bytes|] == bytes && all[|bytes|..] == later;
      assert Encode(all) == Digits(Number(bytes), n) + Encode(later);
      ChunkExactly(first);
      SplitEqual(Digits(Number(bytes), n), first, Encode(later), rest);
      assert text == first + rest;
    }
  }

  lemma SplitEqual(a: string, b: string, c: string, d: string)
    requires |a| == |b|
    ensures a + c == b + d <==> a == b && c == d
  {
    if a + c == b + d {
      assert a == (a + c)[..|a|] && b == (b + d)[..|b|];
      assert c == (a + c)[|a|..] && d == (b + d)[|b|..];
    }
  }

  lemma {:induction false} DecodedLength(text: string)
    requires Decode(text).Ok?
    ensures |Decode(text).value| == 3 * (|text| / 5) + (if |text| % 5 == 0 then 0 else BytesFor(|text| % 5))
    ensures |text| % 5 in {0, 2, 4}
    decreases |text|
  {
    if text != "" {
      DecodedLength(text[CharChunk(|text|)..]);
    }
  }

  lemma ChunkExactly(first: string)
    requires AllKnown(first)
    ensures Digits(Number(LowBytes(Value(first), BytesFor(|first|))), |first|) == first
       <==> Value(first) < Power(256, BytesFor(|first|))
  {
    var v := Number(LowBytes(Value(first), BytesFor(|first|)));
    NumberOfBytes(Value(first), BytesFor(|first|));
    DigitsOfValue(first);
    if Digits(v, |first|) == first {
      ValueBound(first);
      ValueOfDigits(v, |first|);
    }
  }

  lemma {:induction false} ValueBound(t: string)
    ensures Value(t) < Power(38, |t|)
  {
    if t != "" {
      ValueBound(t[1..]);
    }
  }

  /** Such a text exists: five full stops stand for more than three bytes. */
  lemma FullStopsAreNotCanonical()
    ensures Decode(".....").Ok? && !Canonical(".....")
    ensures Encode(Decode(".....").value) != "....."
  {
    FullStopsValue();
    var text := ".....";
    assert text[..5] == text && text[5..] == "";
    assert AllKnown(text);
    assert FirstUnknown(text) == 5;
    assert Decode("") == Ok([]);
    assert Decode(text).Ok?;
    EncodeUndoesDecodeExactly(text);
  }

  lemma FullStopsValue()
    ensures Value(".....") == 79235167 && Power(256, 3) == 16777216
  {
    assert "....."[1..] == "....";
    assert "...."[1..] == "...";
    assert "..."[1..] == "..";
    assert ".."[1..] == ".";
    assert "."[1..] == "";
  }

  // ---------------------------------------------------------------------
  // The codec as it runs
  // ---------------------------------------------------------------------

  lemma Distribute(w: nat, d: nat, b: nat, v: nat)
    ensures w * (d + b * v) == w * d + (w * b) * v
  {
  }

  /** The bytes of a chunk, each shifted to its place. */
  method Gather(chunk: Bytes) returns (val: nat)
    ensures val == Number(chunk)
  {
    val := 0;
    var weight: nat := 1;
    assert chunk[0..] == chunk;
    for i := 0 to |chunk|
      invariant val + weight * Number(chunk[i..]) == Number(chunk)
    {
      assert chunk[i..][1..] == chunk[i + 1..];
      Distribute(weight, chunk[i], 256, Number(chunk[i + 1..]));
      val := val + chunk[i] * weight;
      weight := weight * 256;
    }
  }

  method PutDigits(before: string, v: nat, count: nat) returns (out: string)
    ensures out == before + Digits(v, count)
  {
    out := before;
    var val := v;
    for i := 0 to count
      invariant val >= 0 && out + Digits(val, count - i) == before + Digits(v, count)
    {
      assert Digits(val, count - i) == [CharOf(val % 38)] + Digits(val / 38, count - i - 1);
      out := out + [CharOf(val % 38)];
      val := val / 38;
    }
  }

  method PutBytes(before: Bytes, v: nat, count: nat) returns (out: Bytes)
    ensures out == before + LowBytes(v, count)
  {
    out := before;
    var val := v;
    for i := 0 to count
      invariant val >= 0 && out + LowBytes(val, count - i) == before + LowBytes(v, count)
    {
      assert LowBytes(val, count - i) == [val % 256] + LowBytes(val / 256, count - i - 1);
      out := out + [val % 256];
      val := val / 256;
    }
  }

  lemma EncodeNext(data: Bytes, idx: nat, n: nat, out: string)
    requires idx < |data| && n == ByteChunk(|data| - idx)
    ensures out + Encode(data[idx..]) == out + Digits(Number(data[idx..idx + n]), CharsFor(n)) + Encode(data[idx + n..])
  {
    var rest := data[idx..];
    assert rest[..n] == data[idx..idx + n] && rest[n..] == data[idx + n..];
    AppendTwice(out, Digits(Number(rest[..n]), CharsFor(n)), Encode(rest[n..]));
  }

  lemma AppendTwice<T>(a: seq<T>, b: seq<T>, c: seq<T>)
    ensures a + (b + c) == a + b + c
  {
  }

  method EncodeBytes(data: Bytes) returns (out: string)
    ensures out == Encode(data)
  {
    out := "";
    var idx := 0;
    assert data[0..] == data;
    while idx < |data|
      invariant 0 <= idx <= |data|
      invariant out + Encode(data[idx..]) == Encode(data)
    {
      var chunkLength := ByteChunk(|data| - idx);
      EncodeNext(data, idx, chunkLength, out);
      var chunk := data[idx..idx + chunkLength];
      idx := idx + chunkLength;
      var val := Gather(chunk);
      out := PutDigits(out, val, CharsFor(chunkLength));
    }
  }

  function Prefixed(out: Bytes, r: Result<Bytes, Error>): Result<Bytes, Error> {
    if r.Err? then r else Ok(out + r.value)
  }

  lemma DecodeNext(text: string, idx: nat, n: nat, out: Bytes)
    requires idx < |text| && n == CharChunk(|text| - idx)
    ensures n == 0 ==> Prefixed(out, Decode(text[idx..])) == Err(BadLength(|text| - idx))
    ensures n > 0 ==>
      var chunk := text[idx..idx + n];
      var bad := FirstUnknown(chunk);
      Prefixed(out, Decode(text[idx..])) ==
        if bad < n then Err(BadCharacter(chunk[bad]))
        else Prefixed(out + LowBytes(Value(chunk), BytesFor(n)), Decode(text[idx + n..]))
  {
    var rest := text[idx..];
    assert rest[..n] == text[idx..idx + n] && rest[n..] == text[idx + n..];
    if n > 0 && FirstUnknown(rest[..n]) == n && Decode(rest[n..]).Ok? {
      AppendTwice(out, LowBytes(Value(rest[..n]), BytesFor(n)), Decode(rest[n..]).value);
    }
  }

  /** The bytes are those of the text in front of idx. */
  ghost predicate Decoded(text: string, idx: nat, out: Bytes) {
    idx <= |text| && Decode(text) == Prefixed(out, Decode(text[idx..]))
  }

  lemma DecodedNothing(text: string)
    ensures Decoded(text, 0, [])
  {
    assert text[0..] == text && (Decode(text).Ok? ==> [] + Decode(text).value == Decode(text).value);
  }

  lemma DecodedAll(text: string, out: Bytes)
    requires Decoded(text, |text|, out)
    ensures Decode(text) == Ok(out)
  {
    assert text[|text|..] == "" && out + [] == out;
  }

  lemma DecodedChunk(text: string, idx: nat, n: nat, out: Bytes, chunk: string)
    requires Decoded(text, idx, out) && idx < |text| && n == CharChunk(|text| - idx) > 0 && chunk == text[idx..idx + n]
    ensures FirstUnknown(chunk) < n ==> Decode(text) == Err(BadCharacter(chunk[FirstUnknown(chunk)]))
    ensures FirstUnknown(chunk) == n ==> Decoded(text, idx + n, out + LowBytes(Value(chunk), BytesFor(n)))
  {
    DecodeNext(text, idx, n, out);
  }

  lemma DecodedBadLength(text: string, idx: nat, out: Bytes)
    requires Decoded(text, idx, out) && idx < |text| && CharChunk(|text| - idx) == 0
    ensures Decode(text) == Err(BadLength(|text| - idx))
  {
    DecodeNext(text, idx, 0, out);
  }

  method DecodeText(text: string) returns (r: Result<Bytes, Error>)
    ensures r == Decode(text)
  {
    var out: Bytes := [];
    var idx: nat := 0;
    DecodedNothing(text);
    while idx < |text|
      invariant Decoded(text, idx, out)
    {
      var chunkLength := CharChunk(|text| - idx);
      if chunkLength == 0 {
        DecodedBadLength(text, idx, out);
        return Err(BadLength(|text| - idx));
      }
      var chunk := text[idx..idx + chunkLength];
      DecodedChunk(text, idx, chunkLength, out, chunk);
      var val, bad := Weigh(chunk);
      if bad < chunkLength {
        return Err(BadCharacter(chunk[bad]));
      }
      idx := idx + chunkLength;
      out := PutBytes(out, val, BytesFor(chunkLength));
    }
    DecodedAll(text, out);
    r := Ok(out);
  }

  /** The characters before i are known and in the value, and the weight is that of the next one. */
  ghost predicate Weighed(chunk: string, i: nat, weight: nat, val: nat) {
    && i <= |chunk| && val + weight * Value(chunk[i..]) == Value(chunk)
    && forall k :: 0 <= k < i ==> Known(chunk[k])
  }

  lemma WeighNothing(chunk: string)
    ensures Weighed(chunk, 0, 1, 0)
  {
    assert chunk[0..] == chunk;
  }

  lemma WeighNext(chunk: string, i: nat, weight: nat, val: nat, digit: nat)
    requires Weighed(chunk, i, weight, val) && i < |chunk| && Known(chunk[i]) && digit == IndexOf(chunk[i])
    ensures digit * weight >= 0 && Weighed(chunk, i + 1, weight * 38, val + digit * weight)
  {
    FirstDigit(chunk, i, digit);
    WeighDigit(weight, digit, Value(chunk[i + 1..]), Value(chunk[i..]), val, Value(chunk));
  }

  lemma FirstDigit(chunk: string, i: nat, digit: nat)
    requires i < |chunk| && digit == IndexOf(chunk[i])
    ensures Value(chunk[i..]) == digit + 38 * Value(chunk[i + 1..])
  {
    assert chunk[i..][1..] == chunk[i + 1..];
  }

  lemma WeighDigit(weight: nat, digit: nat, rest: nat, here: nat, val: nat, total: nat)
    requires val + weight * here == total && here == digit + 38 * rest
    ensures digit * weight >= 0 && val + digit * weight + (weight * 38) * rest == total
  {
    Distribute(weight, digit, 38, rest);
  }

  lemma WeighUnknown(chunk: string, i: nat, weight: nat, val: nat)
    requires Weighed(chunk, i, weight, val) && i < |chunk| && !Known(chunk[i])
    ensures FirstUnknown(chunk) == i
  {
  }

  lemma WeighAll(chunk: string, weight: nat, val: nat)
    requires Weighed(chunk, |chunk|, weight, val)
    ensures FirstUnknown(chunk) == |chunk| && val == Value(chunk)
  {
    assert chunk[|chunk|..] == "";
  }

  /** The value of a chunk, up to its first unknown character. */
  method Weigh(chunk: string) returns (val: nat, bad: nat)
    ensures bad == FirstUnknown(chunk) && (bad == |chunk| ==> val == Value(chunk))
  {
    val := 0;
    var weight: nat := 1;
    WeighNothing(chunk);
    for i := 0 to |chunk|
      invariant Weighed(chunk, i, weight, val)
    {
      if !Known(chunk[i]) {
        WeighUnknown(chunk, i, weight, val);
        return val, i;
      }
      var digit := IndexOf(chunk[i]);
      WeighNext(chunk, i, weight, val, digit);
      val := val + digit * weight;
      weight := weight * 38;
    }
    WeighAll(chunk, weight, val);
    bad := |chunk|;
  }
}
