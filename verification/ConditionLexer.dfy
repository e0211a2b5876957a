/**
  The tokens of the safety kernel's rule conditions.
*/
module ConditionLexer {
  import opened Wrappers

  datatype Token =
    | Ident(name: string) | Number(value: real) | True | False | And | Or
    | Lt | Le | Gt | Ge | Eq | Ne | LParen | RParen

  // ---------------------------------------------------------------------
  // Characters: white space is that of Unicode, letters and digits are the ASCII ones
  // ---------------------------------------------------------------------

  predicate IsSpace(c: char) {
    var n := c as int;
    || 9 <= n <= 13 || n == 32 || n == 0x85 || n == 0xA0 || n == 0x1680 || 0x2000 <= n <= 0x200A
    || n == 0x2028 || n == 0x2029 || n == 0x202F || n == 0x205F || n == 0x3000
  }

  predicate IsDigit(c: char) {
    '0' <= c <= '9'
  }

  predicate InNumber(c: char) {
    IsDigit(c) || c == '.'
  }

  predicate StartsNumber(c: char) {
    InNumber(c) || c == '-'
  }

  predicate StartsWord(c: char) {
    ('a' <= c <= 'z') || ('A' <= c <= 'Z') || c == '_'
  }

  predicate InWord(c: char) {
    StartsWord(c) || IsDigit(c)
  }

  // ---------------------------------------------------------------------
  // Numbers
  // ---------------------------------------------------------------------

  function Digits(s: string): (k: nat)
    ensures k <= |s|
    ensures forall i :: 0 <= i < k ==> IsDigit(s[i])
    ensures k < |s| ==> !IsDigit(s[k])
  {
    if s == [] || !IsDigit(s[0]) then 0 else 1 + Digits(s[1..])
  }

  function DigitsValue(s: string, before: real): real
    requires forall i :: 0 <= i < |s| ==> IsDigit(s[i])
    decreases |s|
  {
    if s == [] then before else DigitsValue(s[1..], before * 10.0 + (s[0] as int - '0' as int) as real)
  }

  function FractionValue(s: string): real
    requires forall i :: 0 <= i < |s| ==> IsDigit(s[i])
    decreases |s|
  {
    if s == [] then 0.0 else ((s[0] as int - '0' as int) as real + FractionValue(s[1..])) / 10.0
  }

  /** A decimal number: digits, perhaps a point and more digits, at least one digit in all. */
  function Magnitude(s: string): Option<real> {
    var k := Digits(s);
    if k == |s| then if k == 0 then None else Some(DigitsValue(s, 0.0))
    else
      var rest := s[k + 1..];
      if s[k] != '.' || Digits(rest) != |rest| || |s| == 1 then None
      else Some(DigitsValue(s[..k], 0.0) + FractionValue(rest))
  }

  function NumberValue(s: string): Option<real> {
    if s != [] && s[0] == '-' then
      match Magnitude(s[1..])
      case None => None
      case Some(v) => Some(-v)
    else Magnitude(s)
  }

  // ---------------------------------------------------------------------
  // One token
  // ---------------------------------------------------------------------

  /** How many characters from the front satisfy p. */
  function Run(p: char -> bool, s: string): (k: nat)
    ensures k <= |s|
    ensures forall i :: 0 <= i < k ==> p(s[i])
    ensures k < |s| ==> !p(s[k])
  {
    if s == [] || !p(s[0]) then 0 else 1 + Run(p, s[1..])
  }

  datatype Lexeme = Lexeme(token: Token, length: nat) | Unexpected

  function Keyword(word: string): Token {
    if word == "true" then True else if word == "false" then False else Ident(word)
  }

  /** The token of two characters of which the first needs the second. */
  function Pair(s: string, c: char, t: Token): (l: Lexeme)
    ensures l.Lexeme? ==> l.length == 2 <= |s|
  {
    if |s| >= 2 && s[1] == c then Lexeme(t, 2) else Unexpected
  }

  function Comparison(s: string, alone: Token, withEquals: Token): (l: Lexeme)
    requires s != []
    ensures l.Lexeme? && 1 <= l.length <= |s|
  {
    if |s| >= 2 && s[1] == '=' then Lexeme(withEquals, 2) else Lexeme(alone, 1)
  }

  /** The first token of a text that does not start with white space. */
  function First(s: string): (l: Lexeme)
    requires s != []
    ensures l.Lexeme? ==> 1 <= l.length <= |s|
  {
    var c := s[0];
    if c == '(' then Lexeme(LParen, 1)
    else if c == ')' then Lexeme(RParen, 1)
    else if c == '&' then Pair(s, '&', And)
    else if c == '|' then Pair(s, '|', Or)
    else if c == '<' then Comparison(s, Lt, Le)
    else if c == '>' then Comparison(s, Gt, Ge)
    else if c == '=' then Pair(s, '=', Eq)
    else if c == '!' then Pair(s, '=', Ne)
    else if StartsNumber(c) then
      NumberLexeme(s[..1 + Run(InNumber, s[1..])])
    else if StartsWord(c) then
      WordLexeme(s[..1 + Run(InWord, s[1..])])
    else Unexpected
  }

  function WordLexeme(s: string): (l: Lexeme)
    ensures l.Lexeme? && l.length == |s|
  {
    Lexeme(Keyword(s), |s|)
  }

  function NumberLexeme(s: string): (l: Lexeme)
    ensures l.Lexeme? ==> l.length == |s|
  {
    match NumberValue(s)
    case None => Unexpected
    case Some(v) => Lexeme(Number(v), |s|)
  }

  /** All tokens of a text. */
  function Lex(s: string): Option<seq<Token>>
    decreases |s|
  {
    if s == [] then Some([])
    else if IsSpace(s[0]) then Lex(s[1..])
    else
      match First(s)
      case Unexpected => None
      case Lexeme(t, n) => Prepend([t], Lex(s[n..]))
  }

  function Prepend(before: seq<Token>, rest: Option<seq<Token>>): Option<seq<Token>> {
    if rest.Some? then Some(before + rest.value) else None
  }

  // ---------------------------------------------------------------------
  // The tokenizer
  // ---------------------------------------------------------------------

  lemma PrependNothing(r: Option<seq<Token>>)
    ensures Prepend([], r) == r
  {
    if r.Some? {
      assert [] + r.value == r.value;
    }
  }

  lemma PrependTwice(a: seq<Token>, t: Token, r: Option<seq<Token>>)
    ensures Prepend(a, Prepend([t], r)) == Prepend(a + [t], r)
  {
    if r.Some? {
      assert a + ([t] + r.value) == a + [t] + r.value;
    }
  }

  lemma LexAtSpace(input: string, i: nat)
    requires i < |input| && IsSpace(input[i])
    ensures Lex(input[i..]) == Lex(input[i + 1..])
  {
    assert input[i..][1..] == input[i + 1..];
  }

  lemma LexAt(input: string, i: nat, l: Lexeme)
    requires i < |input| && !IsSpace(input[i]) && l == First(input[i..])
    ensures l.Lexeme? ==> Lex(input[i..]) == Prepend([l.token], Lex(input[i + l.length..]))
    ensures l.Unexpected? ==> Lex(input[i..]) == None
  {
    if l.Lexeme? {
      assert input[i..][l.length..] == input[i + l.length..];
    }
  }

  /** The tokens are those in front of position i. */
  ghost predicate Lexed(tokens: seq<Token>, input: string, i: nat) {
    i <= |input| && Prepend(tokens, Lex(input[i..])) == Lex(input)
  }

  lemma LexedNothing(input: string)
    ensures Lexed([], input, 0)
  {
    PrependNothing(Lex(input));
    assert input[0..] == input;
  }

  lemma LexedSpace(tokens: seq<Token>, input: string, i: nat)
    requires Lexed(tokens, input, i) && i < |input| && IsSpace(input[i])
    ensures Lexed(tokens, input, i + 1)
  {
    LexAtSpace(input, i);
  }

  lemma LexedAll(tokens: seq<Token>, input: string, i: nat)
    requires Lexed(tokens, input, i) && i == |input|
    ensures Lex(input) == Some(tokens)
  {
    assert input[i..] == [] && tokens + [] == tokens;
  }

  lemma LexedNext(tokens: seq<Token>, input: string, i: nat, l: Lexeme)
    requires Lexed(tokens, input, i) && i < |input| && !IsSpace(input[i]) && l == First(input[i..])
    ensures l.Unexpected? ==> Lex(input) == None
    ensures l.Lexeme? ==> l.length > 0 && Lexed(tokens + [l.token], input, i + l.length)
  {
    LexAt(input, i, l);
    if l.Lexeme? {
      PrependTwice(tokens, l.token, Lex(input[i + l.length..]));
    }
  }

  /** Where a run that starts behind position i ends. */
  method RunEnd(p: char -> bool, input: string, i: nat) returns (j: nat)
    requires i < |input|
    ensures i < j <= |input| && j == i + 1 + Run(p, input[i + 1..])
  {
    j := i + 1;
    while j < |input| && p(input[j])
      invariant i < j <= |input|
      invariant j - (i + 1) + Run(p, input[j..]) == Run(p, input[i + 1..])
    {
      assert input[j..][1..] == input[j + 1..];
      j := j + 1;
    }
  }

  lemma FirstNumber(s: string, n: nat)
    requires s != [] && StartsNumber(s[0]) && n == 1 + Run(InNumber, s[1..])
    ensures First(s) == NumberLexeme(s[..n])
  {
    assert n == 1 + Run(InNumber, s[1..]);
  }

  lemma FirstWord(s: string, n: nat)
    requires s != [] && StartsWord(s[0]) && n == 1 + Run(InWord, s[1..])
    ensures First(s) == WordLexeme(s[..n])
  {
  }

  /** The token at position i, found by looking at one character after the other. */
  method Scan(input: string, i: nat) returns (l: Lexeme)
    requires i < |input| && !IsSpace(input[i])
    ensures l == First(input[i..])
  {
    var s := input[i..];
    assert s[1..] == input[i + 1..];
    if StartsNumber(input[i]) {
      var j := RunEnd(InNumber, input, i);
      FirstNumber(s, j - i);
      assert s[..j - i] == input[i..j];
      l := NumberLexeme(input[i..j]);
    } else if StartsWord(input[i]) {
      var j := RunEnd(InWord, input, i);
      FirstWord(s, j - i);
      assert s[..j - i] == input[i..j];
      l := WordLexeme(input[i..j]);
    } else {
      l := First(s);
    }
  }

  /** The token at position i and what it means for the tokens so far. */
  method ScanNext(input: string, i: nat, tokens: seq<Token>) returns (ok: bool, next: nat, more: seq<Token>)
    requires i < |input| && !IsSpace(input[i]) && Lexed(tokens, input, i)
    ensures ok ==> i < next && Lexed(more, input, next)
    ensures !ok ==> Lex(input) == None
  {
    var l := Scan(input, i);
    LexedNext(tokens, input, i, l);
    if l.Unexpected? {
      return false, i, tokens;
    }
    return true, i + l.length, tokens + [l.token];
  }

  /** One turn of the loop: what stands at position i, and where to go on; false at an unexpected character. */
  method Turn(input: string, i: nat, tokens: seq<Token>) returns (ok: bool, next: nat, more: seq<Token>)
    requires i < |input| && Lexed(tokens, input, i)
    ensures ok ==> i < next && Lexed(more, input, next)
    ensures !ok ==> Lex(input) == None
  {
    if IsSpace(input[i]) {
      LexedSpace(tokens, input, i);
      return true, i + 1, tokens;
    }
    ok, next, more := ScanNext(input, i, tokens);
  }

  method Tokenize(input: string) returns (r: Option<seq<Token>>)
    ensures r == Lex(input)
  {
    var tokens: seq<Token> := [];
    var i: nat := 0;
    LexedNothing(input);
    while i < |input|
      invariant Lexed(tokens, input, i)
    {
      var ok, next, more := Turn(input, i, tokens);
      if !ok {
        return None;
      }
      tokens, i := more, next;
    }
    LexedAll(tokens, input, i);
    r := Some(tokens);
  }

  // ---------------------------------------------------------------------
  // Spelling
  // ---------------------------------------------------------------------

  /** A word that is one token by itself. */
  predicate Spells(word: string, t: Token) {
    word != [] && !IsSpace(word[0]) && First(word) == Lexeme(t, |word|)
  }

  lemma {:induction false} RunStops(p: char -> bool, s: string, rest: string)
    requires Run(p, s) == |s| && (rest == [] || !p(rest[0]))
    ensures Run(p, s + rest) == |s|
    decreases |s|
  {
    if s == [] {
      assert s + rest == rest;
    } else {
      assert (s + rest)[1..] == s[1..] + rest;
      RunStops(p, s[1..], rest);
    }
  }

  lemma SpelledNumber(word: string, t: Token, rest: string)
    requires Spells(word, t) && StartsNumber(word[0]) && (rest == [] || IsSpace(rest[0]))
    ensures First(word + rest) == Lexeme(t, |word|)
  {
    var s := word + rest;
    FirstNumber(word, 1 + Run(InNumber, word[1..]));
    RunStops(InNumber, word[1..], rest);
    assert s[1..] == word[1..] + rest;
    FirstNumber(s, |word|);
    assert s[..|word|] == word[..|word|];
  }

  lemma SpelledWord(word: string, t: Token, rest: string)
    requires Spells(word, t) && StartsWord(word[0]) && (rest == [] || IsSpace(rest[0]))
    ensures First(word + rest) == Lexeme(t, |word|)
  {
    var s := word + rest;
    FirstWord(word, 1 + Run(InWord, word[1..]));
    RunStops(InWord, word[1..], rest);
    assert s[1..] == word[1..] + rest;
    FirstWord(s, |word|);
    assert s[..|word|] == word[..|word|];
  }

  lemma SpelledSymbol(word: string, t: Token, rest: string, s: string)
    requires Spells(word, t) && !StartsNumber(word[0]) && !StartsWord(word[0])
    requires s == word + rest && (rest == [] || IsSpace(rest[0]))
    ensures First(s) == Lexeme(t, |word|)
  {
    assert s[0] == word[0];
    assert |word| >= 2 ==> s[1] == word[1];
    assert |word| == 1 && rest != [] ==> s[1] == rest[0];
  }

  /** A word in front of a blank is still that token. */
  lemma SpelledBeforeBlank(word: string, t: Token, rest: string)
    requires Spells(word, t) && (rest == [] || IsSpace(rest[0]))
    ensures First(word + rest) == Lexeme(t, |word|)
  {
    if StartsNumber(word[0]) {
      SpelledNumber(word, t, rest);
    } else if StartsWord(word[0]) {
      SpelledWord(word, t, rest);
    } else {
      SpelledSymbol(word, t, rest, word + rest);
    }
  }

  /** The words of a text, each followed by a blank. */
  function Spaced(words: seq<string>): string {
    if words == [] then [] else words[0] + (" " + Spaced(words[1..]))
  }

  lemma LexWord(s: string, word: string, t: Token, rest: string)
    requires s == word + rest && word != [] && !IsSpace(word[0]) && First(s) == Lexeme(t, |word|)
    ensures Lex(s) == Prepend([t], Lex(rest))
  {
    assert s[|word|..] == rest;
  }

  /** Text made of spelled words is read as the tokens they spell. */
  lemma {:induction false} LexSpaced(words: seq<string>, tokens: seq<Token>)
    requires |words| == |tokens| && forall i :: 0 <= i < |words| ==> Spells(words[i], tokens[i])
    ensures Lex(Spaced(words)) == Some(tokens)
    decreases |words|
  {
    if words != [] {
      var rest := " " + Spaced(words[1..]);
      var s := words[0] + rest;
      SpelledBeforeBlank(words[0], tokens[0], rest);
      LexWord(s, words[0], tokens[0], rest);
      assert rest[1..] == Spaced(words[1..]);
      LexSpaced(words[1..], tokens[1..]);
      assert tokens == [tokens[0]] + tokens[1..];
    }
  }
}
