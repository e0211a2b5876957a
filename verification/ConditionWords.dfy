/**
  How tokens are written: the word of every symbol and keyword, the words that are names, and what a
  number is worth, digit by digit.
*/
module ConditionWords {
  import opened Wrappers
  import opened ConditionLexer

  // ---------------------------------------------------------------------
  // Symbols, keywords and names
  // ---------------------------------------------------------------------

  /** A word by itself, which ends where its text ends. */
  lemma WholeWord(word: string)
    requires word != [] && StartsWord(word[0]) && forall c <- word :: InWord(c)
    ensures First(word) == Lexeme(Keyword(word), |word|) && Spells(word, Keyword(word))
  {
    AllRun(InWord, word[1..]);
    FirstWord(word, |word|);
    assert word[..|word|] == word;
    assert !IsSpace(word[0]);
  }

  lemma {:induction false} AllRun(p: char -> bool, s: string)
    requires forall c <- s :: p(c)
    ensures Run(p, s) == |s|
    decreases |s|
  {
    if s != [] {
      AllRun(p, s[1..]);
    }
  }

  /** What a token of a fixed spelling looks like. */
  function FixedWord(t: Token): string
    requires !t.Ident? && !t.Number?
  {
    match t
    case True => "true"
    case False => "false"
    case And => "&&"
    case Or => "||"
    case Lt => "<"
    case Le => "<="
    case Gt => ">"
    case Ge => ">="
    case Eq => "=="
    case Ne => "!="
    case LParen => "("
    case RParen => ")"
  }

  lemma FixedWordSpells(t: Token)
    requires !t.Ident? && !t.Number?
    ensures Spells(FixedWord(t), t)
  {
    if t.True? || t.False? {
      WholeWord(FixedWord(t));
    }
  }

  /** A letter or underscore, then letters, digits and underscores, and neither of the two constants. */
  predicate IsName(word: string) {
    && word != [] && StartsWord(word[0]) && (forall c <- word :: InWord(c))
    && word != "true" && word != "false"
  }

  lemma NameSpells(name: string)
    requires IsName(name)
    ensures Spells(name, Ident(name))
  {
    WholeWord(name);
  }

  // ---------------------------------------------------------------------
  // Numbers
  // ---------------------------------------------------------------------

  predicate AllDigits(s: string) {
    forall c <- s :: IsDigit(c)
  }

  /** The number that digits stand for. */
  function DecimalOf(s: string): int {
    if s == [] then 0 else 10 * DecimalOf(s[..|s| - 1]) + (s[|s| - 1] as int - '0' as int)
  }

  function TenTo(n: nat): real {
    if n == 0 then 1.0 else 10.0 * TenTo(n - 1)
  }

  /** A sign, digits in front of the point, perhaps a point, and digits behind it. */
  datatype Decimal = Decimal(negative: bool, whole: string, point: bool, fraction: string)

  predicate IsDecimal(n: Decimal) {
    AllDigits(n.whole) && AllDigits(n.fraction) && (n.point || n.fraction == "") && n.whole + n.fraction != ""
  }

  function Unsigned(n: Decimal): string {
    n.whole + ((if n.point then "." else "") + n.fraction)
  }

  function Written(n: Decimal): string {
    (if n.negative then "-" else "") + Unsigned(n)
  }

  /** As many places up as t says, v is d. */
  ghost predicate Scaled(v: real, t: real, d: real) {
    v * t == d
  }

  /** The places of b behind those of a. */
  ghost predicate Behind(all: real, a: real, t: real, b: real) {
    all == a * t + b
  }

  function Sign(negative: bool, d: int): real {
    if negative then -(d as real) else d as real
  }

  /** The value is what all digits together stand for, as many places down as there are behind the point. */
  ghost predicate Worth(n: Decimal, v: real) {
    Scaled(v, TenTo(|n.fraction|), Sign(n.negative, DecimalOf(n.whole + n.fraction)))
  }

  lemma {:induction false} LastDigitValue(s: string, before: real, c: char)
    requires AllDigits(s) && IsDigit(c)
    ensures AllDigits(s + [c])
    ensures DigitsValue(s + [c], before) == 10.0 * DigitsValue(s, before) + (c as int - '0' as int) as real
    decreases |s|
  {
    if s == [] {
      assert [c][1..] == [];
      assert s + [c] == [c];
    } else {
      assert (s + [c])[1..] == s[1..] + [c];
      LastDigitValue(s[1..], before * 10.0 + (s[0] as int - '0' as int) as real, c);
    }
  }

  lemma {:induction false} WholeValue(s: string)
    requires AllDigits(s)
    ensures DigitsValue(s, 0.0) == DecimalOf(s) as real
    decreases |s|
  {
    if s != [] {
      var n := |s| - 1;
      WholeValue(s[..n]);
      LastDigitValue(s[..n], 0.0, s[n]);
      assert s == s[..n] + [s[n]];
    }
  }

  /** Digits behind others move those up by one place each. */
  lemma {:induction false} DecimalOfBoth(a: string, b: string)
    ensures Behind(DecimalOf(a + b) as real, DecimalOf(a) as real, TenTo(|b|), DecimalOf(b) as real)
    decreases |b|
  {
    if b == [] {
      assert a + b == a;
    } else {
      var n := |b| - 1;
      assert (a + b)[..|a + b| - 1] == a + b[..n];
      DecimalOfBoth(a, b[..n]);
      OneMorePlace(DecimalOf(a + b[..n]) as real, DecimalOf(a) as real, TenTo(n), DecimalOf(b[..n]) as real,
                   (b[n] as int - '0' as int) as real, TenTo(|b|));
    }
  }

  lemma OneMorePlace(all: real, a: real, t: real, b: real, d: real, u: real)
    requires Behind(all, a, t, b) && u == 10.0 * t
    ensures Behind(10.0 * all + d, a, u, 10.0 * b + d)
  {
  }

  lemma {:induction false} FractionScaled(s: string)
    requires AllDigits(s)
    ensures Scaled(FractionValue(s), TenTo(|s|), DecimalOf(s) as real)
    decreases |s|
  {
    if s != [] {
      var rest, d := s[1..], (s[0] as int - '0' as int) as real;
      FractionScaled(rest);
      DecimalOfBoth([s[0]], rest);
      assert [s[0]] + rest == s && DecimalOf([s[0]]) as real == d;
      OneFractionDigit(d, FractionValue(rest), FractionValue(s), TenTo(|rest|), TenTo(|s|), DecimalOf(rest) as real,
                       DecimalOf(s) as real);
    } else {
      NoPlaces(0.0);
    }
  }

  lemma NoPlaces(v: real)
    ensures Scaled(v, TenTo(0), v)
  {
  }

  lemma OneFractionDigit(d: real, f: real, v: real, t: real, u: real, low: real, all: real)
    requires v == (d + f) / 10.0 && u == 10.0 * t && Scaled(f, t, low) && Behind(all, d, t, low)
    ensures Scaled(v, u, all)
  {
    assert v * 10.0 == d + f;
    assert v * u == v * 10.0 * t;
  }

  lemma WholeAndFraction(w: real, f: real, t: real, low: real, all: real)
    requires Scaled(f, t, low) && Behind(all, w, t, low)
    ensures Scaled(w + f, t, all)
  {
  }

  lemma Negated(v: real, t: real, d: real)
    requires Scaled(v, t, d)
    ensures Scaled(-v, t, -d)
  {
  }

  lemma {:induction false} DigitsStop(a: string, rest: string)
    requires AllDigits(a) && (rest == [] || !IsDigit(rest[0]))
    ensures Digits(a + rest) == |a|
    decreases |a|
  {
    if a == [] {
      assert a + rest == rest;
    } else {
      assert (a + rest)[1..] == a[1..] + rest;
      DigitsStop(a[1..], rest);
    }
  }

  lemma WholeMagnitude(a: string)
    requires AllDigits(a) && a != ""
    ensures Magnitude(a) == Some(DecimalOf(a) as real)
  {
    WholeValue(a);
    assert a + [] == a;
    DigitsStop(a, []);
  }

  lemma PointMagnitude(a: string, b: string, s: string)
    requires AllDigits(a) && AllDigits(b) && a + b != "" && s == a + ("." + b)
    ensures Magnitude(s) == Some(DecimalOf(a) as real + FractionValue(b))
  {
    WholeValue(a);
    DigitsStop(a, "." + b);
    assert s[|a| + 1..] == b && s[..|a|] == a && s[|a|] == '.';
    DigitsStop(b, []);
    assert b + [] == b;
  }

  lemma MagnitudeOf(n: Decimal) returns (v: real)
    requires IsDecimal(n)
    ensures Magnitude(Unsigned(n)) == Some(v) && Worth(n.(negative := false), v)
  {
    var a, b := n.whole, n.fraction;
    if !n.point {
      assert Unsigned(n) == a && a + b == a;
      WholeMagnitude(a);
      v := DecimalOf(a) as real;
      NoPlaces(v);
    } else {
      PointMagnitude(a, b, Unsigned(n));
      v := DecimalOf(a) as real + FractionValue(b);
      FractionScaled(b);
      DecimalOfBoth(a, b);
      WholeAndFraction(DecimalOf(a) as real, FractionValue(b), TenTo(|b|), DecimalOf(b) as real,
                       DecimalOf(a + b) as real);
    }
  }

  lemma ValueOfWritten(n: Decimal) returns (v: real)
    requires IsDecimal(n)
    ensures NumberValue(Written(n)) == Some(v) && Worth(n, v)
  {
    var s, u := Written(n), Unsigned(n);
    v := MagnitudeOf(n);
    UnsignedStarts(n);
    if n.negative {
      Negated(v, TenTo(|n.fraction|), DecimalOf(n.whole + n.fraction) as real);
      v := -v;
      assert s[0] == '-' && s[1..] == u;
    } else {
      assert s == u;
    }
  }

  lemma WholeNumber(s: string)
    requires s != [] && StartsNumber(s[0]) && forall c <- s[1..] :: InNumber(c)
    ensures First(s) == NumberLexeme(s) && !IsSpace(s[0])
  {
    AllRun(InNumber, s[1..]);
    FirstNumber(s, |s|);
    assert s[..|s|] == s;
  }

  /** A number spells its value. */
  lemma NumberSpells(n: Decimal) returns (v: real)
    requires IsDecimal(n)
    ensures Spells(Written(n), Number(v)) && Worth(n, v)
  {
    v := ValueOfWritten(n);
    UnsignedStarts(n);
    assert Written(n)[1..] == if n.negative then Unsigned(n) else Unsigned(n)[1..];
    WholeNumber(Written(n));
  }

  lemma UnsignedStarts(n: Decimal)
    requires IsDecimal(n)
    ensures var u := Unsigned(n); u != [] && u[0] != '-' && forall c <- u :: InNumber(c)
  {
    var u := Unsigned(n);
    forall c <- u
      ensures InNumber(c)
    {
      assert c in n.whole || c == '.' || c in n.fraction;
    }
    assert InNumber(u[0]);
  }

  // ---------------------------------------------------------------------
  // Whole conditions
  // ---------------------------------------------------------------------

  /** The word is a way to write the token. */
  ghost predicate Writes(word: string, t: Token) {
    match t
    case Ident(name) => word == name && IsName(name)
    case Number(v) => exists n :: IsDecimal(n) && word == Written(n) && Worth(n, v)
    case _ => word == FixedWord(t)
  }

  lemma TenToPositive(n: nat)
    ensures TenTo(n) > 0.0
  {
  }

  lemma WorthIsUnique(n: Decimal, v: real, w: real)
    requires Worth(n, v) && Worth(n, w)
    ensures v == w
  {
    TenToPositive(|n.fraction|);
    SameQuotient(v, w, TenTo(|n.fraction|));
  }

  lemma SameQuotient(v: real, w: real, t: real)
    requires t > 0.0 && v * t == w * t
    ensures v == w
  {
    assert (v - w) * t == 0.0;
  }

  lemma WritesSpells(word: string, t: Token)
    requires Writes(word, t)
    ensures Spells(word, t)
  {
    if t.Ident? {
      NameSpells(word);
    } else if t.Number? {
      var n :| IsDecimal(n) && word == Written(n) && Worth(n, t.value);
      var v := NumberSpells(n);
      WorthIsUnique(n, v, t.value);
    } else {
      FixedWordSpells(t);
    }
  }

  /** Tokens that are written down with a blank behind each are read back. */
  lemma WrittenIsRead(words: seq<string>, tokens: seq<Token>)
    requires |words| == |tokens| && forall i :: 0 <= i < |words| ==> Writes(words[i], tokens[i])
    ensures Lex(Spaced(words)) == Some(tokens)
  {
    forall i | 0 <= i < |words|
      ensures Spells(words[i], tokens[i])
    {
      WritesSpells(words[i], tokens[i]);
    }
    LexSpaced(words, tokens);
  }
}
