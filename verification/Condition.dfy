/**
  The condition language of the safety kernel: a recursive-descent parser that accepts exactly its
  grammar, and an evaluator that can only lose truth when facts are taken away.
*/
module Condition {
  import opened Wrappers
  import opened ConditionLexer

  datatype CmpOp = OpLt | OpLe | OpGt | OpGe | OpEq | OpNe

  datatype Expr =
    | Bool(b: bool)
    | Name(name: string)
    | Compare(lhs: string, op: CmpOp, rhs: real)
    | AndExpr(left: Expr, right: Expr)
    | OrExpr(left: Expr, right: Expr)

  type Tokens = seq<Token>

  // ---------------------------------------------------------------------
  // The grammar
  // ---------------------------------------------------------------------

  function Operator(t: Token): Option<CmpOp> {
    match t
    case Lt => Some(OpLt)
    case Le => Some(OpLe)
    case Gt => Some(OpGt)
    case Ge => Some(OpGe)
    case Eq => Some(OpEq)
    case Ne => Some(OpNe)
    case _ => None
  }

  /** The phrases that are one token or one comparison. */
  predicate Simple(ts: Tokens, e: Expr) {
    match e
    case Bool(b) => ts == [if b then True else False]
    case Name(name) => ts == [Ident(name)]
    case Compare(name, op, n) => |ts| == 3 && ts[0] == Ident(name) && Operator(ts[1]) == Some(op) && ts[2] == Number(n)
    case _ => false
  }

  /** atom: a simple phrase, or a disjunction in parentheses. */
  ghost predicate AtomPhrase(ts: Tokens, e: Expr)
    decreases |ts|, 0
  {
    || Simple(ts, e)
    || (|ts| >= 2 && ts[0] == LParen && ts[|ts| - 1] == RParen && OrPhrase(ts[1..|ts| - 1], e))
  }

  ghost predicate AndSplit(ts: Tokens, e: Expr, k: int)
    decreases |ts|, 1
  {
    e.AndExpr? && 0 <= k < |ts| && ts[k] == And && AndPhrase(ts[..k], e.left) && AtomPhrase(ts[k + 1..], e.right)
  }

  /** conjunction: atoms joined by &&, grouped from the left. */
  ghost predicate AndPhrase(ts: Tokens, e: Expr)
    decreases |ts|, 2
  {
    AtomPhrase(ts, e) || exists k :: AndSplit(ts, e, k)
  }

  ghost predicate OrSplit(ts: Tokens, e: Expr, k: int)
    decreases |ts|, 3
  {
    e.OrExpr? && 0 <= k < |ts| && ts[k] == Or && OrPhrase(ts[..k], e.left) && AndPhrase(ts[k + 1..], e.right)
  }

  /** disjunction: conjunctions joined by ||, grouped from the left. */
  ghost predicate OrPhrase(ts: Tokens, e: Expr)
    decreases |ts|, 4
  {
    AndPhrase(ts, e) || exists k :: OrSplit(ts, e, k)
  }

  // ---------------------------------------------------------------------
  // Parsing, as a function of the tokens that are left
  // ---------------------------------------------------------------------

  datatype Parse = Ok(expr: Expr, rest: Tokens) | Err

  predicate Starts(ts: Tokens, t: Token) {
    ts != [] && ts[0] == t
  }

  function ParseOr(ts: Tokens): (r: Parse)
    ensures r.Ok? ==> |r.rest| < |ts|
    decreases |ts|, 3
  {
    match ParseAnd(ts)
    case Ok(e, rest) => OrLoop(e, rest)
    case Err => Err
  }

  function OrLoop(lhs: Expr, ts: Tokens): (r: Parse)
    ensures r.Ok? ==> |r.rest| <= |ts|
    decreases |ts|, 2
  {
    if !Starts(ts, Or) then Ok(lhs, ts)
    else
      match ParseAnd(ts[1..])
      case Ok(rhs, rest) => OrLoop(OrExpr(lhs, rhs), rest)
      case Err => Err
  }

  function ParseAnd(ts: Tokens): (r: Parse)
    ensures r.Ok? ==> |r.rest| < |ts|
    decreases |ts|, 2
  {
    match ParseAtom(ts)
    case Ok(e, rest) => AndLoop(e, rest)
    case Err => Err
  }

  function AndLoop(lhs: Expr, ts: Tokens): (r: Parse)
    ensures r.Ok? ==> |r.rest| <= |ts|
    decreases |ts|, 1
  {
    if !Starts(ts, And) then Ok(lhs, ts)
    else
      match ParseAtom(ts[1..])
      case Ok(rhs, rest) => AndLoop(AndExpr(lhs, rhs), rest)
      case Err => Err
  }

  function ParseAtom(ts: Tokens): (r: Parse)
    ensures r.Ok? ==> |r.rest| < |ts|
    decreases |ts|, 0
  {
    if ts == [] then Err
    else if ts[0] == True then Ok(Bool(true), ts[1..])
    else if ts[0] == False then Ok(Bool(false), ts[1..])
    else if ts[0] == LParen then
      match ParseOr(ts[1..])
      case Err => Err
      case Ok(inner, rest) => if Starts(rest, RParen) then Ok(inner, rest[1..]) else Err
    else if ts[0].Ident? then ParseName(ts)
    else Err
  }

  /** A name alone, or in front of a comparison operator and a number. */
  function ParseName(ts: Tokens): (r: Parse)
    requires ts != [] && ts[0].Ident?
    ensures r.Ok? ==> |r.rest| < |ts|
  {
    if |ts| >= 2 && Operator(ts[1]).Some? then
      if |ts| >= 3 && ts[2].Number? then Ok(Compare(ts[0].name, Operator(ts[1]).value, ts[2].value), ts[3..]) else Err
    else Ok(Name(ts[0].name), ts[1..])
  }

  /** A whole condition: nothing may be left over. */
  function ParseExpr(ts: Tokens): Option<Expr> {
    if ts == [] then None
    else
      match ParseOr(ts)
      case Ok(e, rest) => if rest == [] then Some(e) else None
      case Err => None
  }

  // ---------------------------------------------------------------------
  // What is parsed is a phrase
  // ---------------------------------------------------------------------

  /** The tokens that were consumed. */
  function Used(ts: Tokens, rest: Tokens): Tokens {
    if |rest| <= |ts| then ts[..|ts| - |rest|] else []
  }

  ghost predicate Suffix(rest: Tokens, ts: Tokens) {
    |rest| <= |ts| && rest == ts[|ts| - |rest|..]
  }

  /** One more operand has been consumed. */
  lemma UsedMore(ts: Tokens, left: Tokens, rest: Tokens)
    requires Suffix(left, ts) && left != [] && Suffix(rest, left[1..])
    ensures Suffix(rest, ts)
    ensures var k := |ts| - |left|; var used := Used(ts, rest);
      k < |used| && used[..k] == Used(ts, left) && used[k] == left[0] && used[k + 1..] == Used(left[1..], rest)
  {
  }

  lemma {:induction false} AtomSound(ts: Tokens)
    requires ParseAtom(ts).Ok?
    ensures var r := ParseAtom(ts); Suffix(r.rest, ts) && AtomPhrase(Used(ts, r.rest), r.expr)
    decreases |ts|, 0
  {
    var r := ParseAtom(ts);
    if ts[0] == LParen {
      OrSound(ts[1..]);
      var inner := ParseOr(ts[1..]);
      var used := Used(ts, r.rest);
      assert used[1..|used| - 1] == Used(ts[1..], inner.rest);
    } else {
      assert Simple(Used(ts, r.rest), r.expr);
    }
  }

  lemma {:induction false} AndSound(ts: Tokens)
    requires ParseAnd(ts).Ok?
    ensures var r := ParseAnd(ts); Suffix(r.rest, ts) && AndPhrase(Used(ts, r.rest), r.expr)
    decreases |ts|, 2
  {
    AtomSound(ts);
    AndLoopSound(ts, ParseAtom(ts).expr, ParseAtom(ts).rest);
  }

  lemma {:induction false} AndLoopSound(ts: Tokens, lhs: Expr, left: Tokens)
    requires Suffix(left, ts) && |left| < |ts| && AndPhrase(Used(ts, left), lhs) && AndLoop(lhs, left).Ok?
    ensures var r := AndLoop(lhs, left); Suffix(r.rest, ts) && AndPhrase(Used(ts, r.rest), r.expr)
    decreases |left|, 1
  {
    if Starts(left, And) {
      AtomSound(left[1..]);
      var rhs := ParseAtom(left[1..]);
      UsedMore(ts, left, rhs.rest);
      assert AndSplit(Used(ts, rhs.rest), AndExpr(lhs, rhs.expr), |ts| - |left|);
      AndLoopSound(ts, AndExpr(lhs, rhs.expr), rhs.rest);
    }
  }

  lemma {:induction false} OrSound(ts: Tokens)
    requires ParseOr(ts).Ok?
    ensures var r := ParseOr(ts); Suffix(r.rest, ts) && OrPhrase(Used(ts, r.rest), r.expr)
    decreases |ts|, 3
  {
    AndSound(ts);
    OrLoopSound(ts, ParseAnd(ts).expr, ParseAnd(ts).rest);
  }

  lemma {:induction false} OrLoopSound(ts: Tokens, lhs: Expr, left: Tokens)
    requires Suffix(left, ts) && |left| < |ts| && OrPhrase(Used(ts, left), lhs) && OrLoop(lhs, left).Ok?
    ensures var r := OrLoop(lhs, left); Suffix(r.rest, ts) && OrPhrase(Used(ts, r.rest), r.expr)
    decreases |left|, 2
  {
    if Starts(left, Or) {
      AndSound(left[1..]);
      var rhs := ParseAnd(left[1..]);
      UsedMore(ts, left, rhs.rest);
      assert OrSplit(Used(ts, rhs.rest), OrExpr(lhs, rhs.expr), |ts| - |left|);
      OrLoopSound(ts, OrExpr(lhs, rhs.expr), rhs.rest);
    }
  }

  // ---------------------------------------------------------------------
  // Every phrase is parsed
  // ---------------------------------------------------------------------

  /** What may follow a name without turning it into a comparison. */
  predicate NoOperator(rest: Tokens) {
    rest == [] || Operator(rest[0]).None?
  }

  lemma {:induction false} AtomComplete(ts: Tokens, e: Expr, rest: Tokens)
    requires AtomPhrase(ts, e) && NoOperator(rest)
    ensures ParseAtom(ts + rest) == Ok(e, rest)
    decreases |ts|, 0
  {
    var all := ts + rest;
    if Simple(ts, e) {
      assert all[|ts|..] == rest;
    } else {
      var inner := ts[1..|ts| - 1];
      assert all[1..] == inner + ([RParen] + rest);
      OrComplete(inner, e, [RParen] + rest);
      assert ([RParen] + rest)[1..] == rest;
    }
  }

  lemma {:induction false} AndComplete(ts: Tokens, e: Expr, rest: Tokens)
    requires AndPhrase(ts, e) && NoOperator(rest)
    ensures ParseAnd(ts + rest) == AndLoop(e, rest)
    decreases |ts|, 1
  {
    if AtomPhrase(ts, e) {
      AtomComplete(ts, e, rest);
    } else {
      var k :| AndSplit(ts, e, k);
      var after := [And] + (ts[k + 1..] + rest);
      assert ts + rest == ts[..k] + after;
      AndComplete(ts[..k], e.left, after);
      AtomComplete(ts[k + 1..], e.right, rest);
      assert after[1..] == ts[k + 1..] + rest;
    }
  }

  lemma {:induction false} OrComplete(ts: Tokens, e: Expr, rest: Tokens)
    requires OrPhrase(ts, e) && NoOperator(rest) && !Starts(rest, And)
    ensures ParseOr(ts + rest) == OrLoop(e, rest)
    ensures Starts(rest, Or) || ParseOr(ts + rest) == Ok(e, rest)
    decreases |ts|, 2
  {
    if AndPhrase(ts, e) {
      AndComplete(ts, e, rest);
    } else {
      var k :| OrSplit(ts, e, k);
      var after := [Or] + (ts[k + 1..] + rest);
      assert ts + rest == ts[..k] + after;
      OrComplete(ts[..k], e.left, after);
      AndComplete(ts[k + 1..], e.right, rest);
      assert after[1..] == ts[k + 1..] + rest;
    }
  }

  lemma {:induction false} PhraseNotEmpty(ts: Tokens, e: Expr)
    requires OrPhrase(ts, e)
    ensures ts != []
  {
    if ts == [] {
      assert ts + [] == ts;
      OrComplete(ts, e, []);
    }
  }

  /** The parser accepts exactly the phrases of the grammar, and each phrase is one tree only. */
  lemma ParserIsExact(ts: Tokens, e: Expr)
    ensures ParseExpr(ts) == Some(e) <==> OrPhrase(ts, e)
  {
    if ParseExpr(ts) == Some(e) {
      OrSound(ts);
      assert Used(ts, []) == ts;
    }
    if OrPhrase(ts, e) {
      PhraseNotEmpty(ts, e);
      OrComplete(ts, e, []);
      assert ts + [] == ts;
    }
  }

  // ---------------------------------------------------------------------
  // Printing with as few parentheses as possible
  // ---------------------------------------------------------------------

  function Symbol(op: CmpOp): Token {
    match op
    case OpLt => Lt
    case OpLe => Le
    case OpGt => Gt
    case OpGe => Ge
    case OpEq => Eq
    case OpNe => Ne
  }

  function PrintAtom(e: Expr): Tokens
    decreases e, 0
  {
    match e
    case Bool(b) => [if b then True else False]
    case Name(name) => [Ident(name)]
    case Compare(name, op, n) => [Ident(name), Symbol(op), Number(n)]
    case AndExpr(l, r) => [LParen] + (PrintAnd(l) + [And] + PrintAtom(r)) + [RParen]
    case OrExpr(l, r) => [LParen] + (PrintOr(l) + [Or] + PrintAnd(r)) + [RParen]
  }

  function PrintAnd(e: Expr): Tokens
    decreases e, 1
  {
    if e.AndExpr? then PrintAnd(e.left) + [And] + PrintAtom(e.right) else PrintAtom(e)
  }

  function PrintOr(e: Expr): Tokens
    decreases e, 2
  {
    if e.OrExpr? then PrintOr(e.left) + [Or] + PrintAnd(e.right) else PrintAnd(e)
  }

  lemma AndJoin(l: Tokens, r: Tokens, e: Expr)
    requires e.AndExpr? && AndPhrase(l, e.left) && AtomPhrase(r, e.right)
    ensures AndPhrase(l + [And] + r, e)
  {
    var ts := l + [And] + r;
    assert ts[..|l|] == l && ts[|l| + 1..] == r;
    assert AndSplit(ts, e, |l|);
  }

  lemma OrJoin(l: Tokens, r: Tokens, e: Expr)
    requires e.OrExpr? && OrPhrase(l, e.left) && AndPhrase(r, e.right)
    ensures OrPhrase(l + [Or] + r, e)
  {
    var ts := l + [Or] + r;
    assert ts[..|l|] == l && ts[|l| + 1..] == r;
    assert OrSplit(ts, e, |l|);
  }

  lemma Enclose(inner: Tokens, e: Expr)
    requires OrPhrase(inner, e)
    ensures AtomPhrase([LParen] + inner + [RParen], e)
  {
    var ts := [LParen] + inner + [RParen];
    assert ts[1..|ts| - 1] == inner;
  }

  lemma {:induction false} PrintedPhrases(e: Expr)
    ensures AtomPhrase(PrintAtom(e), e) && AndPhrase(PrintAnd(e), e) && OrPhrase(PrintOr(e), e)
    decreases e
  {
    if e.AndExpr? {
      PrintedPhrases(e.left);
      PrintedPhrases(e.right);
      AndJoin(PrintAnd(e.left), PrintAtom(e.right), e);
      Enclose(PrintAnd(e), e);
    } else if e.OrExpr? {
      PrintedPhrases(e.left);
      PrintedPhrases(e.right);
      OrJoin(PrintOr(e.left), PrintAnd(e.right), e);
      Enclose(PrintOr(e), e);
    } else {
      assert Simple(PrintAtom(e), e);
    }
  }

  /** Every tree is read back from its printed form. */
  lemma ReparsesPrinted(e: Expr)
    ensures ParseExpr(PrintOr(e)) == Some(e)
  {
    PrintedPhrases(e);
    ParserIsExact(PrintOr(e), e);
  }

  lemma PrintSizes(e: Expr)
    ensures |PrintOr(e)| <= |PrintAnd(e)| <= |PrintAtom(e)| <= |PrintOr(e)| + 2
  {
  }

  lemma {:induction false} AtomAtLeast(ts: Tokens, e: Expr)
    requires AtomPhrase(ts, e)
    ensures |PrintAtom(e)| <= |ts|
    decreases |ts|, 0
  {
    if !Simple(ts, e) {
      OrAtLeast(ts[1..|ts| - 1], e);
      PrintSizes(e);
    }
  }

  lemma {:induction false} AndAtLeast(ts: Tokens, e: Expr)
    requires AndPhrase(ts, e)
    ensures |PrintAnd(e)| <= |ts|
    decreases |ts|, 1
  {
    if AtomPhrase(ts, e) {
      AtomAtLeast(ts, e);
      PrintSizes(e);
    } else {
      var k :| AndSplit(ts, e, k);
      AndAtLeast(ts[..k], e.left);
      AtomAtLeast(ts[k + 1..], e.right);
    }
  }

  lemma {:induction false} OrAtLeast(ts: Tokens, e: Expr)
    requires OrPhrase(ts, e)
    ensures |PrintOr(e)| <= |ts|
    decreases |ts|, 2
  {
    if AndPhrase(ts, e) {
      AndAtLeast(ts, e);
      PrintSizes(e);
    } else {
      var k :| OrSplit(ts, e, k);
      OrAtLeast(ts[..k], e.left);
      AndAtLeast(ts[k + 1..], e.right);
    }
  }

  /** No condition with the same tree is shorter than the printed one. */
  lemma PrintedIsShortest(ts: Tokens, e: Expr)
    requires ParseExpr(ts) == Some(e)
    ensures |PrintOr(e)| <= |ts|
  {
    ParserIsExact(ts, e);
    OrAtLeast(ts, e);
  }

  // ---------------------------------------------------------------------
  // The parser
  // ---------------------------------------------------------------------

  /** What a parse method returns, and where it leaves the position. */
  ghost predicate Follows(r: Option<Expr>, tokens: Tokens, pos: nat, expected: Parse) {
    match expected
    case Err => r == None
    case Ok(e, rest) => r == Some(e) && pos <= |tokens| && rest == tokens[pos..]
  }

  lemma AndStart(tokens: Tokens, pos: nat, r: Option<Expr>, next: nat)
    requires pos <= |tokens| && Follows(r, tokens, next, ParseAtom(tokens[pos..]))
    ensures r.None? ==> ParseAnd(tokens[pos..]) == Err
    ensures r.Some? ==> ParseAnd(tokens[pos..]) == AndLoop(r.value, tokens[next..])
  {
  }

  lemma AndTurn(tokens: Tokens, pos: nat, lhs: Expr, after: nat, r: Option<Expr>, next: nat)
    requires pos < |tokens| && tokens[pos] == And && after == pos + 1
    requires Follows(r, tokens, next, ParseAtom(tokens[after..]))
    ensures r.None? ==> AndLoop(lhs, tokens[pos..]) == Err
    ensures r.Some? ==> AndLoop(lhs, tokens[pos..]) == AndLoop(AndExpr(lhs, r.value), tokens[next..])
  {
    assert tokens[pos..][1..] == tokens[after..];
  }

  lemma OrStart(tokens: Tokens, pos: nat, r: Option<Expr>, next: nat)
    requires pos <= |tokens| && Follows(r, tokens, next, ParseAnd(tokens[pos..]))
    ensures r.None? ==> ParseOr(tokens[pos..]) == Err
    ensures r.Some? ==> ParseOr(tokens[pos..]) == OrLoop(r.value, tokens[next..])
  {
  }

  lemma OrTurn(tokens: Tokens, pos: nat, lhs: Expr, after: nat, r: Option<Expr>, next: nat)
    requires pos < |tokens| && tokens[pos] == Or && after == pos + 1
    requires Follows(r, tokens, next, ParseAnd(tokens[after..]))
    ensures r.None? ==> OrLoop(lhs, tokens[pos..]) == Err
    ensures r.Some? ==> OrLoop(lhs, tokens[pos..]) == OrLoop(OrExpr(lhs, r.value), tokens[next..])
  {
    assert tokens[pos..][1..] == tokens[after..];
  }

  class Parser {
    const tokens: Tokens
    var pos: nat

    constructor (tokens: Tokens)
      ensures this.tokens == tokens && pos == 0
    {
      this.tokens := tokens;
      pos := 0;
    }

    function Peek(): (t: Option<Token>)
      reads this
      ensures t.Some? <==> pos < |tokens|
    {
      if pos < |tokens| then Some(tokens[pos]) else None
    }

    /** The position moves on even behind the last token. */
    method Next() returns (t: Option<Token>)
      modifies this
      ensures pos == old(pos) + 1 && t == old(Peek())
    {
      t := Peek();
      pos := pos + 1;
    }

    method ParseWhole() returns (r: Option<Expr>)
      requires pos == 0
      modifies this
      ensures r == ParseExpr(tokens)
    {
      if tokens == [] {
        return None;
      }
      assert tokens[0..] == tokens;
      r := ParseDisjunction();
      if r.Some? && pos != |tokens| {
        return None;
      }
    }

    method ParseDisjunction() returns (r: Option<Expr>)
      requires pos <= |tokens|
      modifies this
      ensures Follows(r, tokens, pos, ParseOr(tokens[old(pos)..]))
      decreases |tokens| - pos, 3
    {
      ghost var whole := ParseOr(tokens[pos..]);
      ghost var start := pos;
      r := ParseConjunction();
      OrStart(tokens, start, r, pos);
      if r.None? {
        return;
      }
      var lhs := r.value;
      while Peek() == Some(Or)
        invariant start < pos <= |tokens| && OrLoop(lhs, tokens[pos..]) == whole
        decreases |tokens| - pos
      {
        ghost var before := pos;
        var op := Next();
        ghost var after := pos;
        var rhs := ParseConjunction();
        OrTurn(tokens, before, lhs, after, rhs, pos);
        if rhs.None? {
          return None;
        }
        lhs := OrExpr(lhs, rhs.value);
      }
      r := Some(lhs);
    }

    method ParseConjunction() returns (r: Option<Expr>)
      requires pos <= |tokens|
      modifies this
      ensures Follows(r, tokens, pos, ParseAnd(tokens[old(pos)..])) && (r.Some? ==> pos > old(pos))
      decreases |tokens| - pos, 2
    {
      ghost var whole := ParseAnd(tokens[pos..]);
      ghost var start := pos;
      r := ParsePrimary();
      AndStart(tokens, start, r, pos);
      if r.None? {
        return;
      }
      var lhs := r.value;
      while Peek() == Some(And)
        invariant start < pos <= |tokens| && AndLoop(lhs, tokens[pos..]) == whole
        decreases |tokens| - pos
      {
        ghost var before := pos;
        var op := Next();
        ghost var after := pos;
        var rhs := ParsePrimary();
        AndTurn(tokens, before, lhs, after, rhs, pos);
        if rhs.None? {
          return None;
        }
        lhs := AndExpr(lhs, rhs.value);
      }
      r := Some(lhs);
    }

    method ParsePrimary() returns (r: Option<Expr>)
      requires pos <= |tokens|
      modifies this
      ensures Follows(r, tokens, pos, ParseAtom(tokens[old(pos)..])) && (r.Some? ==> pos > old(pos))
      decreases |tokens| - pos, 0
    {
      ghost var ts := tokens[pos..];
      var t := Next();
      if t.None? {
        return None;
      }
      assert ts[1..] == tokens[pos..];
      if t.value == True {
        r := Some(Bool(true));
      } else if t.value == False {
        r := Some(Bool(false));
      } else if t.value == LParen {
        r := ParseDisjunction();
        if r.None? {
          return;
        }
        ghost var rest := tokens[pos..];
        var close := Next();
        if close != Some(RParen) {
          return None;
        }
        assert rest[1..] == tokens[pos..];
      } else if t.value.Ident? {
        r := ParseComparison(t.value.name);
      } else {
        r := None;
      }
    }

    /** What follows a name. */
    method ParseComparison(name: string) returns (r: Option<Expr>)
      requires 0 < pos <= |tokens| && tokens[pos - 1] == Ident(name)
      modifies this
      ensures Follows(r, tokens, pos, ParseName(tokens[old(pos) - 1..])) && (r.Some? ==> pos >= old(pos))
    {
      ghost var ts := tokens[pos - 1..];
      assert ts[1..] == tokens[pos..];
      var ahead := Peek();
      if ahead.Some? && Operator(ahead.value).Some? {
        var op := Next();
        var n := Next();
        if n.Some? && n.value.Number? {
          assert ts[3..] == tokens[pos..];
          r := Some(Compare(name, Operator(op.value).value, n.value.value));
        } else {
          r := None;
        }
      } else {
        r := Some(Name(name));
      }
    }
  }

  // ---------------------------------------------------------------------
  // Evaluation
  // ---------------------------------------------------------------------

  datatype Fact = NumberFact(n: real) | BoolFact(b: bool)

  type Facts = map<string, Fact>

  /** The distance below which two numbers count as equal, two to the power of minus 52. */
  const EPSILON: real := 1.0 / 4503599627370496.0

  function Distance(a: real, b: real): real {
    if a < b then b - a else a - b
  }

  predicate Holds(lhs: real, op: CmpOp, rhs: real) {
    match op
    case OpLt => lhs < rhs
    case OpLe => lhs <= rhs
    case OpGt => lhs > rhs
    case OpGe => lhs >= rhs
    case OpEq => Distance(lhs, rhs) < EPSILON
    case OpNe => Distance(lhs, rhs) >= EPSILON
  }

  /** Facts that are missing or of the wrong kind count as false. */
  predicate Eval(e: Expr, facts: Facts) {
    match e
    case Bool(b) => b
    case Name(name) => name in facts && facts[name] == BoolFact(true)
    case Compare(name, op, rhs) => name in facts && facts[name].NumberFact? && Holds(facts[name].n, op, rhs)
    case AndExpr(l, r) => Eval(l, facts) && Eval(r, facts)
    case OrExpr(l, r) => Eval(l, facts) || Eval(r, facts)
  }

  /** One fact says at least as much as another. */
  ghost predicate FactBelow(name: string, fewer: Facts, more: Facts) {
    name in fewer && fewer[name] != BoolFact(false) ==> name in more && more[name] == fewer[name]
  }

  /** Everything that is not false in the one is the same in the other. */
  ghost predicate Below(fewer: Facts, more: Facts) {
    forall name: string :: FactBelow(name, fewer, more)
  }

  lemma {:induction false} EvalMonotone(e: Expr, fewer: Facts, more: Facts)
    requires Below(fewer, more) && Eval(e, fewer)
    ensures Eval(e, more)
    decreases e
  {
    match e
    case Bool(_) =>
    case Name(name) => assert FactBelow(name, fewer, more);
    case Compare(name, _, _) => assert FactBelow(name, fewer, more);
    case AndExpr(l, r) =>
      EvalMonotone(l, fewer, more);
      EvalMonotone(r, fewer, more);
    case OrExpr(l, r) =>
      if Eval(l, fewer) {
        EvalMonotone(l, fewer, more);
      } else {
        EvalMonotone(r, fewer, more);
      }
  }

  /** No condition is lost on the way from the one set of facts to the other. */
  ghost predicate Preserves(e: Expr, fewer: Facts, more: Facts) {
    Eval(e, fewer) ==> Eval(e, more)
  }

  lemma PreservedFact(name: string, fewer: Facts, more: Facts)
    requires forall e: Expr :: Preserves(e, fewer, more)
    ensures FactBelow(name, fewer, more)
  {
    if name in fewer && fewer[name] != BoolFact(false) {
      if fewer[name] == BoolFact(true) {
        assert Preserves(Name(name), fewer, more);
      } else {
        var n := fewer[name].n;
        assert Preserves(Compare(name, OpLe, n), fewer, more);
        assert Preserves(Compare(name, OpGe, n), fewer, more);
      }
    }
  }

  /** Changing the facts keeps every true condition true exactly when no fact but a false one changes or goes. */
  lemma MonotoneExactly(fewer: Facts, more: Facts)
    ensures (forall e: Expr :: Preserves(e, fewer, more)) <==> Below(fewer, more)
  {
    if Below(fewer, more) {
      forall e: Expr
        ensures Preserves(e, fewer, more)
      {
        if Eval(e, fewer) {
          EvalMonotone(e, fewer, more);
        }
      }
    }
    if forall e: Expr :: Preserves(e, fewer, more) {
      forall name: string
        ensures FactBelow(name, fewer, more)
      {
        PreservedFact(name, fewer, more);
      }
    }
  }

  // ---------------------------------------------------------------------
  // From text to decision
  // ---------------------------------------------------------------------

  function Trim(s: string): string
    decreases |s|
  {
    if s != [] && IsSpace(s[0]) then Trim(s[1..])
    else if s != [] && IsSpace(s[|s| - 1]) then Trim(s[..|s| - 1])
    else s
  }

  /** The meaning of a condition text: anything that is not a condition is false. */
  predicate Decision(condition: string, facts: Facts) {
    Lex(condition).Some? && ParseExpr(Lex(condition).value).Some? && Eval(ParseExpr(Lex(condition).value).value, facts)
  }

  lemma {:induction false} LexDropsTrailingSpace(s: string)
    requires s != [] && IsSpace(s[|s| - 1])
    ensures Lex(s[..|s| - 1]) == Some([True]) ==> Lex(s) == Some([True])
  {
    var t := s[..|s| - 1];
    assert s == t + [s[|s| - 1]];
    LexBeforeSpace(t, s[|s| - 1]);
  }

  lemma {:induction false} LexBeforeSpace(t: string, c: char)
    requires IsSpace(c)
    ensures Lex(t).Some? ==> Lex(t + [c]) == Lex(t)
    decreases |t|
  {
    var s := t + [c];
    if t == [] {
      assert s[1..] == [];
    } else if IsSpace(t[0]) {
      assert s[1..] == t[1..] + [c];
      LexBeforeSpace(t[1..], c);
    } else if Lex(t).Some? {
      var l := First(t);
      FirstBeforeSpace(t, c);
      assert s[l.length..] == t[l.length..] + [c];
      LexBeforeSpace(t[l.length..], c);
    }
  }

  lemma FirstBeforeSpace(t: string, c: char)
    requires IsSpace(c) && t != [] && !IsSpace(t[0]) && First(t).Lexeme?
    ensures First(t + [c]) == First(t)
  {
    var s := t + [c];
    assert s[1..] == t[1..] + [c];
    if StartsNumber(t[0]) {
      RunBeforeSpace(InNumber, t[1..], c);
      var n := 1 + Run(InNumber, t[1..]);
      FirstNumber(t, n);
      FirstNumber(s, n);
      assert s[..n] == t[..n];
    } else if StartsWord(t[0]) {
      RunBeforeSpace(InWord, t[1..], c);
      var n := 1 + Run(InWord, t[1..]);
      FirstWord(t, n);
      FirstWord(s, n);
      assert s[..n] == t[..n];
    } else {
      assert |t| == 1 ==> s[1] == c;
    }
  }

  lemma {:induction false} RunBeforeSpace(p: char -> bool, t: string, c: char)
    requires !p(c)
    ensures Run(p, t + [c]) == Run(p, t)
    decreases |t|
  {
    if t != [] {
      assert (t + [c])[1..] == t[1..] + [c];
      RunBeforeSpace(p, t[1..], c);
    }
  }

  lemma {:induction false} TrimmedTrue(s: string)
    requires Trim(s) == "true"
    ensures Lex(s) == Some([True])
    decreases |s|
  {
    if s != [] && IsSpace(s[0]) {
      TrimmedTrue(s[1..]);
    } else if s != [] && IsSpace(s[|s| - 1]) {
      TrimmedTrue(s[..|s| - 1]);
      LexDropsTrailingSpace(s);
    } else {
      TrueIsAWord();
      assert s + [] == s && [True] + [] == [True];
      LexWord(s, s, True, []);
    }
  }

  lemma TrueIsAWord()
    ensures First("true") == Lexeme(True, 4)
  {
    var s: string := "true";
    assert s[1..] == "rue";
    assert Run(InWord, "rue") == 3 by {
      RunAll("rue");
    }
    FirstWord(s, 4);
    assert s[..4] == s;
  }

  lemma {:induction false} RunAll(s: string)
    requires forall i :: 0 <= i < |s| ==> InWord(s[i])
    ensures Run(InWord, s) == |s|
    decreases |s|
  {
    if s != [] {
      RunAll(s[1..]);
    }
  }

  /** Every error leads to false. */
  method Evaluate(condition: string, facts: Facts) returns (r: bool)
    ensures r == Decision(condition, facts)
  {
    if Trim(condition) == "true" {
      TrimmedTrue(condition);
      assert ParseExpr([True]) == Some(Bool(true)) by {
        ReparsesPrinted(Bool(true));
      }
      return true;
    }
    var tokens := Tokenize(condition);
    var parser := new Parser(if tokens.Some? then tokens.value else []);
    var expr := parser.ParseWhole();
    r := expr.Some? && Eval(expr.value, facts);
  }

  /** Taking facts away never makes a condition true. */
  lemma FewerFactsDecideLess(condition: string, facts: Facts, gone: set<string>)
    requires Decision(condition, facts - gone)
    ensures Decision(condition, facts)
  {
    forall name: string
      ensures FactBelow(name, facts - gone, facts)
    {
    }
    EvalMonotone(ParseExpr(Lex(condition).value).value, facts - gone, facts);
  }
}
