/**
  What a condition means, told on its tokens: which facts make a literal true, how the connectives
  and parentheses combine phrases, and that a condition holds exactly when one of its clauses does.
*/
module ConditionMeaning {
  import opened Wrappers
  import opened ConditionLexer
  import opened ConditionWords
  import opened Condition

  /** The tokens are a condition, and it holds. */
  predicate Verdict(ts: Tokens, facts: Facts) {
    ParseExpr(ts).Some? && Eval(ParseExpr(ts).value, facts)
  }

  lemma VerdictOf(ts: Tokens, e: Expr, facts: Facts)
    requires OrPhrase(ts, e)
    ensures ParseExpr(ts) == Some(e) && (Verdict(ts, facts) <==> Eval(e, facts))
  {
    ParserIsExact(ts, e);
  }

  // ---------------------------------------------------------------------
  // Literals
  // ---------------------------------------------------------------------

  lemma SimpleVerdict(ts: Tokens, e: Expr, facts: Facts)
    requires Simple(ts, e)
    ensures ParseExpr(ts) == Some(e) && (Verdict(ts, facts) <==> Eval(e, facts))
  {
    assert AtomPhrase(ts, e);
    VerdictOf(ts, e, facts);
  }

  /** The two constants are what they say, and a name stands for a fact that is present and true. */
  lemma NameMeans(name: string, facts: Facts)
    ensures Verdict([True], facts) && !Verdict([False], facts)
    ensures Verdict([Ident(name)], facts) <==> name in facts && facts[name].BoolFact? && facts[name].b
  {
    SimpleVerdict([True], Bool(true), facts);
    SimpleVerdict([False], Bool(false), facts);
    SimpleVerdict([Ident(name)], Name(name), facts);
  }

  lemma ComparisonVerdict(name: string, t: Token, op: CmpOp, n: real, facts: Facts)
    requires Operator(t) == Some(op)
    ensures Verdict([Ident(name), t, Number(n)], facts) <==> Eval(Compare(name, op, n), facts)
  {
    SimpleVerdict([Ident(name), t, Number(n)], Compare(name, op, n), facts);
  }

  /** Every comparison is false for a fact that is missing or is no number. */
  lemma ComparisonNeedsNumber(name: string, t: Token, n: real, facts: Facts)
    requires Operator(t).Some? && !(name in facts && facts[name].NumberFact?)
    ensures !Verdict([Ident(name), t, Number(n)], facts)
  {
    ComparisonVerdict(name, t, Operator(t).value, n, facts);
  }

  /** For a number x, the six operators compare it with the literal; equality is up to 2^-52. */
  lemma ComparisonMeans(name: string, x: real, n: real, facts: Facts)
    requires name in facts && facts[name] == NumberFact(x)
    ensures Verdict([Ident(name), Lt, Number(n)], facts) <==> x < n
    ensures Verdict([Ident(name), Le, Number(n)], facts) <==> x <= n
    ensures Verdict([Ident(name), Gt, Number(n)], facts) <==> x > n
    ensures Verdict([Ident(name), Ge, Number(n)], facts) <==> x >= n
    ensures Verdict([Ident(name), Eq, Number(n)], facts) <==> -1.0 < (x - n) * 4503599627370496.0 < 1.0
    ensures Verdict([Ident(name), Ne, Number(n)], facts) <==> !Verdict([Ident(name), Eq, Number(n)], facts)
  {
    ComparisonVerdict(name, Lt, OpLt, n, facts);
    ComparisonVerdict(name, Le, OpLe, n, facts);
    ComparisonVerdict(name, Gt, OpGt, n, facts);
    ComparisonVerdict(name, Ge, OpGe, n, facts);
    ComparisonVerdict(name, Eq, OpEq, n, facts);
    ComparisonVerdict(name, Ne, OpNe, n, facts);
  }

  /** Less stays less for smaller numbers, and more stays more for larger ones. */
  lemma ComparisonsAreMonotone(name: string, x: real, y: real, n: real, facts: Facts)
    requires name in facts && facts[name] == NumberFact(x) && y <= x
    ensures var lower := facts[name := NumberFact(y)];
      && (Verdict([Ident(name), Lt, Number(n)], facts) ==> Verdict([Ident(name), Lt, Number(n)], lower))
      && (Verdict([Ident(name), Le, Number(n)], facts) ==> Verdict([Ident(name), Le, Number(n)], lower))
      && (Verdict([Ident(name), Gt, Number(n)], lower) ==> Verdict([Ident(name), Gt, Number(n)], facts))
      && (Verdict([Ident(name), Ge, Number(n)], lower) ==> Verdict([Ident(name), Ge, Number(n)], facts))
  {
    ComparisonMeans(name, x, n, facts);
    ComparisonMeans(name, y, n, facts[name := NumberFact(y)]);
  }

  // ---------------------------------------------------------------------
  // Parentheses and connectives
  // ---------------------------------------------------------------------

  /** A whole condition. */
  predicate IsCondition(ts: Tokens) {
    ParseExpr(ts).Some?
  }

  /** A condition without a disjunction outside of parentheses. */
  ghost predicate IsConjunction(ts: Tokens) {
    exists e :: AndPhrase(ts, e)
  }

  lemma ConditionPhrase(ts: Tokens) returns (e: Expr)
    requires IsCondition(ts)
    ensures OrPhrase(ts, e) && ParseExpr(ts) == Some(e)
  {
    e := ParseExpr(ts).value;
    ParserIsExact(ts, e);
  }

  lemma ConjunctionIsCondition(ts: Tokens)
    requires IsConjunction(ts)
    ensures IsCondition(ts)
  {
    var e :| AndPhrase(ts, e);
    ParserIsExact(ts, e);
  }

  /** Parentheses change nothing. */
  lemma ParenthesesMeanNothing(ts: Tokens, facts: Facts)
    requires IsCondition(ts)
    ensures var enclosed := [LParen] + ts + [RParen];
      IsCondition(enclosed) && IsConjunction(enclosed) && (Verdict(enclosed, facts) <==> Verdict(ts, facts))
  {
    var e := ConditionPhrase(ts);
    var enclosed := [LParen] + ts + [RParen];
    assert enclosed[1..|enclosed| - 1] == ts;
    assert AtomPhrase(enclosed, e);
    VerdictOf(enclosed, e, facts);
  }

  /** Both sides are true, or one of them is. */
  predicate Joined(both: bool, l: bool, r: bool) {
    if both then l && r else l || r
  }

  ghost predicate Joins(e: Expr, both: bool, l: Expr, r: Expr) {
    forall facts: Facts :: Eval(e, facts) <==> Joined(both, Eval(l, facts), Eval(r, facts))
  }

  lemma Cut(a: Tokens, t: Token, b: Tokens, k: nat)
    requires k < |b|
    ensures a + [t] + b == (a + [t] + b[..k]) + [b[k]] + b[k + 1..]
  {
    assert b == b[..k] + [b[k]] + b[k + 1..];
  }

  lemma {:induction false} AndJoined(a: Tokens, ea: Expr, b: Tokens, eb: Expr) returns (e: Expr)
    requires AndPhrase(a, ea) && AndPhrase(b, eb)
    ensures AndPhrase(a + [And] + b, e) && Joins(e, true, ea, eb)
    decreases |b|
  {
    if AtomPhrase(b, eb) {
      e := AndExpr(ea, eb);
      AndJoin(a, b, e);
    } else {
      var k :| AndSplit(b, eb, k);
      var inner := AndJoined(a, ea, b[..k], eb.left);
      e := AndExpr(inner, eb.right);
      AndJoin(a + [And] + b[..k], b[k + 1..], e);
      Cut(a, And, b, k);
    }
  }

  lemma {:induction false} OrJoined(a: Tokens, ea: Expr, b: Tokens, eb: Expr) returns (e: Expr)
    requires OrPhrase(a, ea) && OrPhrase(b, eb)
    ensures OrPhrase(a + [Or] + b, e) && Joins(e, false, ea, eb)
    decreases |b|
  {
    if AndPhrase(b, eb) {
      e := OrExpr(ea, eb);
      OrJoin(a, b, e);
    } else {
      var k :| OrSplit(b, eb, k);
      var inner := OrJoined(a, ea, b[..k], eb.left);
      e := OrExpr(inner, eb.right);
      OrJoin(a + [Or] + b[..k], b[k + 1..], e);
      Cut(a, Or, b, k);
    }
  }

  /** Two conditions joined by || hold exactly when one of them does. */
  lemma OrMeansEither(a: Tokens, b: Tokens, facts: Facts)
    requires IsCondition(a) && IsCondition(b)
    ensures IsCondition(a + [Or] + b)
    ensures Verdict(a + [Or] + b, facts) <==> Verdict(a, facts) || Verdict(b, facts)
  {
    var ea := ConditionPhrase(a);
    var eb := ConditionPhrase(b);
    var e := OrJoined(a, ea, b, eb);
    VerdictOf(a + [Or] + b, e, facts);
  }

  /** Two conjunctions joined by && hold exactly when both do. */
  lemma AndMeansBoth(a: Tokens, b: Tokens, facts: Facts)
    requires IsConjunction(a) && IsConjunction(b)
    ensures IsConjunction(a + [And] + b)
    ensures Verdict(a + [And] + b, facts) <==> Verdict(a, facts) && Verdict(b, facts)
  {
    var ea :| AndPhrase(a, ea);
    var eb :| AndPhrase(b, eb);
    var e := AndJoined(a, ea, b, eb);
    VerdictOf(a, ea, facts);
    VerdictOf(b, eb, facts);
    VerdictOf(a + [And] + b, e, facts);
  }

  /** && binds tighter than ||, on either side. */
  lemma AndBindsTighter(a: Tokens, b: Tokens, c: Tokens, facts: Facts)
    requires IsConjunction(a) && IsConjunction(b) && IsConjunction(c)
    ensures Verdict(a + [Or] + (b + [And] + c), facts)
       <==> Verdict(a, facts) || (Verdict(b, facts) && Verdict(c, facts))
    ensures Verdict(a + [And] + b + [Or] + c, facts)
       <==> (Verdict(a, facts) && Verdict(b, facts)) || Verdict(c, facts)
  {
    AndMeansBoth(b, c, facts);
    AndMeansBoth(a, b, facts);
    ConjunctionIsCondition(a);
    ConjunctionIsCondition(c);
    ConjunctionIsCondition(b + [And] + c);
    ConjunctionIsCondition(a + [And] + b);
    OrMeansEither(a, b + [And] + c, facts);
    OrMeansEither(a + [And] + b, c, facts);
  }

  // ---------------------------------------------------------------------
  // Clauses: a condition is an or of ands of literals
  // ---------------------------------------------------------------------

  /** A name, a constant or a comparison. */
  ghost predicate IsLiteral(ts: Tokens) {
    exists e :: Simple(ts, e)
  }

  /** The literals of one way to make an atom true. */
  ghost predicate AtomClause(ts: Tokens, c: seq<Tokens>)
    decreases |ts|, 0
  {
    || (IsLiteral(ts) && c == [ts])
    || (|ts| >= 2 && ts[0] == LParen && ts[|ts| - 1] == RParen && OrClause(ts[1..|ts| - 1], c))
  }

  /** The token at k is an && between two parts, and the first n literals belong to the left one. */
  ghost predicate ClauseOfBoth(ts: Tokens, c: seq<Tokens>, k: int, n: int)
    decreases |ts|, 1
  {
    && 0 <= k < |ts| && 0 <= n <= |c|
    && ts[k] == And && AndClause(ts[..k], c[..n]) && AtomClause(ts[k + 1..], c[n..])
  }

  /** To make a conjunction true takes a way for each of its atoms. */
  ghost predicate AndClause(ts: Tokens, c: seq<Tokens>)
    decreases |ts|, 2
  {
    AtomClause(ts, c) || exists k, n :: ClauseOfBoth(ts, c, k, n)
  }

  /** The token at k is an || between two parts, and the clause is one of either. */
  ghost predicate ClauseOfEither(ts: Tokens, c: seq<Tokens>, k: int)
    decreases |ts|, 3
  {
    && 0 <= k < |ts| && ts[k] == Or && IsCondition(ts[..k]) && IsConjunction(ts[k + 1..])
    && (OrClause(ts[..k], c) || AndClause(ts[k + 1..], c))
  }

  /** To make a disjunction true takes a way for one of its conjunctions. */
  ghost predicate OrClause(ts: Tokens, c: seq<Tokens>)
    decreases |ts|, 4
  {
    AndClause(ts, c) || exists k :: ClauseOfEither(ts, c, k)
  }

  ghost predicate AllTrue(c: seq<Tokens>, facts: Facts) {
    forall i :: 0 <= i < |c| ==> Verdict(c[i], facts)
  }

  lemma AllTrueOfBoth(c: seq<Tokens>, n: nat, facts: Facts)
    requires n <= |c|
    ensures AllTrue(c, facts) <==> AllTrue(c[..n], facts) && AllTrue(c[n..], facts)
  {
    assert c == c[..n] + c[n..];
  }

  /** The tree is true when all literals are. */
  ghost predicate Forced(e: Expr, c: seq<Tokens>, facts: Facts) {
    AllTrue(c, facts) ==> Eval(e, facts)
  }

  lemma {:induction false} AtomForced(ts: Tokens, c: seq<Tokens>, facts: Facts) returns (e: Expr)
    requires AtomClause(ts, c)
    ensures AtomPhrase(ts, e) && Forced(e, c, facts)
    decreases |ts|, 0
  {
    if IsLiteral(ts) && c == [ts] {
      e :| Simple(ts, e);
      SimpleVerdict(ts, e, facts);
      assert AllTrue(c, facts) ==> Verdict(c[0], facts);
    } else {
      e := OrForced(ts[1..|ts| - 1], c, facts);
    }
  }

  lemma {:induction false} AndForced(ts: Tokens, c: seq<Tokens>, facts: Facts) returns (e: Expr)
    requires AndClause(ts, c)
    ensures AndPhrase(ts, e) && Forced(e, c, facts)
    decreases |ts|, 2
  {
    if AtomClause(ts, c) {
      e := AtomForced(ts, c, facts);
    } else {
      var k, n :| ClauseOfBoth(ts, c, k, n);
      var l := AndForced(ts[..k], c[..n], facts);
      var r := AtomForced(ts[k + 1..], c[n..], facts);
      e := AndExpr(l, r);
      assert AndSplit(ts, e, k);
      AllTrueOfBoth(c, n, facts);
    }
  }

  lemma {:induction false} OrForced(ts: Tokens, c: seq<Tokens>, facts: Facts) returns (e: Expr)
    requires OrClause(ts, c)
    ensures OrPhrase(ts, e) && Forced(e, c, facts)
    decreases |ts|, 4
  {
    if AndClause(ts, c) {
      e := AndForced(ts, c, facts);
    } else {
      var k :| ClauseOfEither(ts, c, k);
      var l := ConditionPhrase(ts[..k]);
      var r :| AndPhrase(ts[k + 1..], r);
      if OrClause(ts[..k], c) {
        l := OrForced(ts[..k], c, facts);
      } else {
        r := AndForced(ts[k + 1..], c, facts);
      }
      e := OrExpr(l, r);
      assert OrSplit(ts, e, k);
    }
  }

  lemma {:induction false} AtomWay(ts: Tokens, e: Expr, facts: Facts) returns (c: seq<Tokens>)
    requires AtomPhrase(ts, e) && Eval(e, facts)
    ensures AtomClause(ts, c) && AllTrue(c, facts)
    decreases |ts|, 0
  {
    if Simple(ts, e) {
      SimpleVerdict(ts, e, facts);
      c := [ts];
    } else {
      c := OrWay(ts[1..|ts| - 1], e, facts);
    }
  }

  lemma {:induction false} AndWay(ts: Tokens, e: Expr, facts: Facts) returns (c: seq<Tokens>)
    requires AndPhrase(ts, e) && Eval(e, facts)
    ensures AndClause(ts, c) && AllTrue(c, facts)
    decreases |ts|, 2
  {
    if AtomPhrase(ts, e) {
      c := AtomWay(ts, e, facts);
    } else {
      var k :| AndSplit(ts, e, k);
      var l := AndWay(ts[..k], e.left, facts);
      var r := AtomWay(ts[k + 1..], e.right, facts);
      c := l + r;
      assert c[..|l|] == l && c[|l|..] == r;
      assert ClauseOfBoth(ts, c, k, |l|);
    }
  }

  lemma {:induction false} OrWay(ts: Tokens, e: Expr, facts: Facts) returns (c: seq<Tokens>)
    requires OrPhrase(ts, e) && Eval(e, facts)
    ensures OrClause(ts, c) && AllTrue(c, facts)
    decreases |ts|, 4
  {
    if AndPhrase(ts, e) {
      c := AndWay(ts, e, facts);
    } else {
      var k :| OrSplit(ts, e, k);
      VerdictOf(ts[..k], e.left, facts);
      if Eval(e.left, facts) {
        c := OrWay(ts[..k], e.left, facts);
      } else {
        c := AndWay(ts[k + 1..], e.right, facts);
      }
      assert AndPhrase(ts[k + 1..], e.right) && IsConjunction(ts[k + 1..]);
      assert ClauseOfEither(ts, c, k);
    }
  }

  /** One of the clauses of a condition has only true literals. */
  ghost predicate SomeClauseTrue(ts: Tokens, facts: Facts) {
    exists c :: OrClause(ts, c) && AllTrue(c, facts)
  }

  /** A condition holds exactly when all literals of one of its clauses do. */
  lemma HoldsIffClauseTrue(ts: Tokens, facts: Facts)
    ensures Verdict(ts, facts) <==> SomeClauseTrue(ts, facts)
  {
    if Verdict(ts, facts) {
      var e := ConditionPhrase(ts);
      var c := OrWay(ts, e, facts);
      assert OrClause(ts, c) && AllTrue(c, facts);
    }
    if SomeClauseTrue(ts, facts) {
      var c :| OrClause(ts, c) && AllTrue(c, facts);
      var e := OrForced(ts, c, facts);
      VerdictOf(ts, e, facts);
    }
  }

  /** What is decided about a text: it has tokens, and one of their clauses has only true literals. */
  lemma DecidedByClauses(condition: string, facts: Facts)
    ensures Decision(condition, facts)
       <==> Lex(condition).Some? && SomeClauseTrue(Lex(condition).value, facts)
  {
    if Lex(condition).Some? {
      HoldsIffClauseTrue(Lex(condition).value, facts);
    }
  }

  /** So what is decided about tokens that are written down depends on these tokens and the facts alone. */
  lemma WrittenIsDecided(words: seq<string>, tokens: Tokens, facts: Facts)
    requires |words| == |tokens| && forall i :: 0 <= i < |words| ==> Writes(words[i], tokens[i])
    ensures Decision(Spaced(words), facts) <==> SomeClauseTrue(tokens, facts)
  {
    WrittenIsRead(words, tokens);
    DecidedByClauses(Spaced(words), facts);
  }
}
