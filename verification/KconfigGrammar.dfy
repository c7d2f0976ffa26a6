/** The grammar of expressions that tools/kconfiglib.py gives in the comments of its parser, as a relation between
    token strings and expressions, and that the parser accepts exactly its sentences. */
module KconfigGrammar {
  import opened Basics
  import opened KconfigModel
  import opened KconfigExpr

  /** A factor, a chain of &&, a chain of || */
  datatype Level = FACTOR | CONJUNCTION | EXPRESSION

  function Height(v: Level): nat {
    match v case FACTOR => 0 case CONJUNCTION => 1 case EXPRESSION => 2
  }

  /** The tokens c are a sentence that means e. */
  ghost predicate Sentence(md: Mode, c: seq<Token>, e: Expr, v: Level)
    decreases |c|, Height(v)
  {
    match v
    case FACTOR =>
      || (|c| == 1 && c[0].SYM? &&
          e == if md.transformM && c[0].id == md.m then And(Leaf(md.m), Leaf(md.modules)) else Leaf(c[0].id))
      || (e.Rel? && c == [SYM(e.op1), REL(e.oper), SYM(e.op2)])
      || (|c| > 1 && c[0] == NOT && e.Not? && Sentence(md, c[1..], e.operand, FACTOR))
      || (|c| > 2 && c[0] == OPEN && c[|c| - 1] == CLOSE && Sentence(md, c[1..|c| - 1], e, EXPRESSION))
    case CONJUNCTION =>
      Sentence(md, c, e, FACTOR)
      || (e.And? && exists k :: 0 <= k < |c| && c[k] == AND
                                && Sentence(md, c[..k], e.left, FACTOR) && Sentence(md, c[k + 1..], e.right, CONJUNCTION))
    case EXPRESSION =>
      Sentence(md, c, e, CONJUNCTION)
      || (e.Or? && exists k :: 0 <= k < |c| && c[k] == OR
                               && Sentence(md, c[..k], e.left, CONJUNCTION) && Sentence(md, c[k + 1..], e.right, EXPRESSION))
  }

  function Parse(md: Mode, ts: seq<Token>, v: Level): (r: Option<Parsed>)
    ensures r.Some? ==> |r.value.rest| < |ts|
  {
    match v
    case FACTOR => ParseFactor(md, ts)
    case CONJUNCTION => ParseAnd(md, ts)
    case EXPRESSION => ParseExpr(md, ts)
  }

  /** Nothing in rest continues a sentence of this level. */
  predicate Stops(rest: seq<Token>, v: Level) {
    rest != [] ==> !rest[0].REL? && (v != FACTOR ==> rest[0] != AND) && (v == EXPRESSION ==> rest[0] != OR)
  }

  // ---------------------------------------------------------------- what parses is a sentence

  /** The tokens the parser has taken */
  function Used(ts: seq<Token>, p: Parsed): seq<Token>
    requires |p.rest| <= |ts|
  {
    ts[..|ts| - |p.rest|]
  }

  /** One step of the parser for a chain */
  function ParseChain(md: Mode, ts: seq<Token>, or: bool): Option<Parsed> {
    var a := if or then ParseAnd(md, ts) else ParseFactor(md, ts);
    if a.Some? && a.value.rest != [] && a.value.rest[0] == (if or then OR else AND) then
      var b := if or then ParseExpr(md, a.value.rest[1..]) else ParseAnd(md, a.value.rest[1..]);
      if b.None? then None
      else Some(Parsed(if or then Or(a.value.e, b.value.e) else And(a.value.e, b.value.e), b.value.rest))
    else a
  }

  lemma ChainSteps(md: Mode, ts: seq<Token>)
    ensures ParseAnd(md, ts) == ParseChain(md, ts, false) && ParseExpr(md, ts) == ParseChain(md, ts, true)
  {
    hide ParseFactor;
  }

  lemma LongerChain(md: Mode, c: seq<Token>, e: Expr, k: nat, or: bool)
    requires k < |c| && c[k] == (if or then OR else AND) && (if or then e.Or? else e.And?)
    requires Sentence(md, c[..k], e.left, if or then CONJUNCTION else FACTOR)
    requires Sentence(md, c[k + 1..], e.right, if or then EXPRESSION else CONJUNCTION)
    ensures Sentence(md, c, e, if or then EXPRESSION else CONJUNCTION)
  {
  }

  lemma ShorterChain(md: Mode, c: seq<Token>, e: Expr, or: bool)
    requires Sentence(md, c, e, if or then CONJUNCTION else FACTOR)
    ensures Sentence(md, c, e, if or then EXPRESSION else CONJUNCTION)
  {
  }

  ghost predicate Sound(md: Mode, ts: seq<Token>, p: Option<Parsed>, v: Level)
    requires p.Some? ==> |p.value.rest| <= |ts|
  {
    p.Some? ==> ts == Used(ts, p.value) + p.value.rest && Sentence(md, Used(ts, p.value), p.value.e, v)
  }

  /** What the parser takes is a sentence that means what it returns, and it leaves the rest as it was. */
  lemma {:induction false} ParseSound(md: Mode, ts: seq<Token>, v: Level)
    ensures Sound(md, ts, Parse(md, ts, v), v)
    decreases |ts|, Height(v), 1
  {
    hide ParseFactor, ParseAnd, ParseExpr, Sentence;
    match v
    case FACTOR => FactorSound(md, ts);
    case CONJUNCTION => ChainSound(md, ts, false);
    case EXPRESSION => ChainSound(md, ts, true);
  }

  lemma {:induction false} ChainSound(md: Mode, ts: seq<Token>, or: bool)
    ensures if or then Sound(md, ts, ParseExpr(md, ts), EXPRESSION) else Sound(md, ts, ParseAnd(md, ts), CONJUNCTION)
    decreases |ts|, if or then 2 else 1, 0
  {
    hide ParseFactor, ParseAnd, ParseExpr, Sentence;
    ChainSteps(md, ts);
    ParseSound(md, ts, if or then CONJUNCTION else FACTOR);
    var a := if or then ParseAnd(md, ts) else ParseFactor(md, ts);
    if a.Some? {
      if a.value.rest != [] && a.value.rest[0] == (if or then OR else AND) {
        ParseSound(md, a.value.rest[1..], if or then EXPRESSION else CONJUNCTION);
        var b := if or then ParseExpr(md, a.value.rest[1..]) else ParseAnd(md, a.value.rest[1..]);
        if b.Some? {
          ChainJoins(md, ts, a.value, b.value, or);
        }
      } else {
        ShorterChain(md, Used(ts, a.value), a.value.e, or);
      }
    }
    hide Used, Sound;
  }

  lemma ChainJoins(md: Mode, ts: seq<Token>, a: Parsed, b: Parsed, or: bool)
    requires |a.rest| < |ts| && a.rest != [] && a.rest[0] == (if or then OR else AND) && |b.rest| < |a.rest|
    requires Sound(md, ts, Some(a), if or then CONJUNCTION else FACTOR)
    requires Sound(md, a.rest[1..], Some(b), if or then EXPRESSION else CONJUNCTION)
    ensures var e := if or then Or(a.e, b.e) else And(a.e, b.e);
            Sound(md, ts, Some(Parsed(e, b.rest)), if or then EXPRESSION else CONJUNCTION)
  {
    hide Sentence;
    Chained(ts, a, b, if or then OR else AND);
    LongerChain(md, Used(ts, b), if or then Or(a.e, b.e) else And(a.e, b.e), |ts| - |a.rest|, or);
  }

  /** Two stretches of tokens around an operator */
  lemma Chained(ts: seq<Token>, a: Parsed, b: Parsed, operator: Token)
    requires |a.rest| < |ts| && ts == Used(ts, a) + a.rest
    requires a.rest != [] && a.rest[0] == operator
    requires |b.rest| < |a.rest| && a.rest[1..] == Used(a.rest[1..], b) + b.rest
    ensures var c, k := Used(ts, b), |ts| - |a.rest|;
            && ts == c + b.rest && k < |c| && c[k] == operator && c[..k] == Used(ts, a) && c[k + 1..] == Used(a.rest[1..], b)
  {
    assert a.rest == [operator] + Used(a.rest[1..], b) + b.rest;
    assert ts == Used(ts, a) + [operator] + Used(a.rest[1..], b) + b.rest;
  }

  lemma {:induction false} FactorSound(md: Mode, ts: seq<Token>)
    ensures Sound(md, ts, ParseFactor(md, ts), FACTOR)
    decreases |ts|, 0, 0
  {
    if ts != [] {
      match ts[0]
      case NOT =>
        FactorSound(md, ts[1..]);
        NotSound(md, ts);
      case OPEN =>
        ParseSound(md, ts[1..], EXPRESSION);
        OpenSound(md, ts);
      case _ => SymSound(md, ts);
    }
    hide ParseFactor, ParseExpr, Sound;
  }

  lemma SymSound(md: Mode, ts: seq<Token>)
    requires ts != [] && ts[0] != NOT && ts[0] != OPEN
    ensures Sound(md, ts, ParseFactor(md, ts), FACTOR)
  {
    hide ParseExpr;
  }

  lemma NotSound(md: Mode, ts: seq<Token>)
    requires ts != [] && ts[0] == NOT && Sound(md, ts[1..], ParseFactor(md, ts[1..]), FACTOR)
    ensures Sound(md, ts, ParseFactor(md, ts), FACTOR)
  {
    hide Sentence, ParseExpr;
    var a := ParseFactor(md, ts[1..]);
    if a.Some? {
      var c := Used(ts[1..], a.value);
      NotSentence(md, c, a.value.e);
      assert ts == [NOT] + c + a.value.rest;
      assert Used(ts, Parsed(Not(a.value.e), a.value.rest)) == [NOT] + c;
    }
  }

  lemma OpenSound(md: Mode, ts: seq<Token>)
    requires ts != [] && ts[0] == OPEN && Sound(md, ts[1..], ParseExpr(md, ts[1..]), EXPRESSION)
    ensures Sound(md, ts, ParseFactor(md, ts), FACTOR)
  {
    hide Sentence, ParseExpr;
    var a := ParseExpr(md, ts[1..]);
    if a.Some? && a.value.rest != [] && a.value.rest[0] == CLOSE {
      var c, rest := Used(ts[1..], a.value), a.value.rest[1..];
      OpenSentence(md, c, a.value.e);
      assert ts == [OPEN] + c + [CLOSE] + rest;
      assert Used(ts, Parsed(a.value.e, rest)) == [OPEN] + c + [CLOSE];
    }
  }

  lemma NotSentence(md: Mode, c: seq<Token>, e: Expr)
    requires Sentence(md, c, e, FACTOR)
    ensures Sentence(md, [NOT] + c, Not(e), FACTOR)
  {
    assert ([NOT] + c)[1..] == c;
  }

  lemma OpenSentence(md: Mode, c: seq<Token>, e: Expr)
    requires Sentence(md, c, e, EXPRESSION) && c != []
    ensures Sentence(md, [OPEN] + c + [CLOSE], e, FACTOR)
  {
    var s := [OPEN] + c + [CLOSE];
    assert s[1..|s| - 1] == c;
  }

  // ---------------------------------------------------------------- sentences parse

  lemma {:induction false} SentenceParses(md: Mode, c: seq<Token>, e: Expr, v: Level, rest: seq<Token>)
    requires Sentence(md, c, e, v) && Stops(rest, v)
    ensures Parse(md, c + rest, v) == Some(Parsed(e, rest))
    decreases |c|, Height(v), 1
  {
    hide ParseFactor, ParseAnd, ParseExpr, Sentence;
    match v
    case FACTOR => FactorParses(md, c, e, rest);
    case CONJUNCTION => ChainParses(md, c, e, rest, false);
    case EXPRESSION => ChainParses(md, c, e, rest, true);
  }

  /** How a chain is made up */
  lemma ChainParts(md: Mode, c: seq<Token>, e: Expr, or: bool) returns (k: nat)
    requires Sentence(md, c, e, if or then EXPRESSION else CONJUNCTION)
    ensures k <= |c|
    ensures k == |c| ==> Sentence(md, c, e, if or then CONJUNCTION else FACTOR)
    ensures k < |c| ==>
              && c[k] == (if or then OR else AND) && (if or then e.Or? else e.And?)
              && Sentence(md, c[..k], e.left, if or then CONJUNCTION else FACTOR)
              && Sentence(md, c[k + 1..], e.right, if or then EXPRESSION else CONJUNCTION)
  {
    k := |c|;
    if or && !Sentence(md, c, e, CONJUNCTION) {
      k :| 0 <= k < |c| && c[k] == OR && Sentence(md, c[..k], e.left, CONJUNCTION) && Sentence(md, c[k + 1..], e.right, EXPRESSION);
    } else if !or && !Sentence(md, c, e, FACTOR) {
      k :| 0 <= k < |c| && c[k] == AND && Sentence(md, c[..k], e.left, FACTOR) && Sentence(md, c[k + 1..], e.right, CONJUNCTION);
    }
  }

  lemma {:induction false} ChainParses(md: Mode, c: seq<Token>, e: Expr, rest: seq<Token>, or: bool)
    requires Sentence(md, c, e, if or then EXPRESSION else CONJUNCTION) && Stops(rest, if or then EXPRESSION else CONJUNCTION)
    ensures (if or then ParseExpr(md, c + rest) else ParseAnd(md, c + rest)) == Some(Parsed(e, rest))
    decreases |c|, if or then 2 else 1, 0
  {
    hide ParseFactor, ParseAnd, ParseExpr, Sentence;
    ChainSteps(md, c + rest);
    var k := ChainParts(md, c, e, or);
    if k == |c| {
      SentenceParses(md, c, e, if or then CONJUNCTION else FACTOR, rest);
    } else {
      SentenceParses(md, c[..k], e.left, if or then CONJUNCTION else FACTOR, c[k..] + rest);
      SentenceParses(md, c[k + 1..], e.right, if or then EXPRESSION else CONJUNCTION, rest);
      assert c + rest == c[..k] + (c[k..] + rest) && (c[k..] + rest)[1..] == c[k + 1..] + rest;
    }
  }

  /** How a factor is made up */
  lemma FactorParts(md: Mode, c: seq<Token>, e: Expr)
    requires Sentence(md, c, e, FACTOR)
    ensures c != [] && (c[0].SYM? || c[0] == NOT || c[0] == OPEN)
    ensures c[0] == NOT ==> e.Not? && Sentence(md, c[1..], e.operand, FACTOR)
    ensures c[0] == OPEN ==> |c| > 2 && c == [OPEN] + c[1..|c| - 1] + [CLOSE] && Sentence(md, c[1..|c| - 1], e, EXPRESSION)
  {
  }

  lemma {:induction false} FactorParses(md: Mode, c: seq<Token>, e: Expr, rest: seq<Token>)
    requires Sentence(md, c, e, FACTOR) && Stops(rest, FACTOR)
    ensures ParseFactor(md, c + rest) == Some(Parsed(e, rest))
    decreases |c|, 0, 0
  {
    hide Sentence, ParseFactor, ParseExpr;
    FactorParts(md, c, e);
    if c[0] == NOT {
      FactorParses(md, c[1..], e.operand, rest);
      NotStep(md, c[1..] + rest, e.operand, rest);
      assert c + rest == [NOT] + (c[1..] + rest);
    } else if c[0] == OPEN {
      var inner := c[1..|c| - 1];
      SentenceParses(md, inner, e, EXPRESSION, [CLOSE] + rest);
      OpenStep(md, inner + ([CLOSE] + rest), e, rest);
      assert c + rest == [OPEN] + (inner + ([CLOSE] + rest));
    } else {
      SymParses(md, c, e, rest);
    }
  }

  lemma SymParses(md: Mode, c: seq<Token>, e: Expr, rest: seq<Token>)
    requires Sentence(md, c, e, FACTOR) && Stops(rest, FACTOR) && c[0].SYM?
    ensures ParseFactor(md, c + rest) == Some(Parsed(e, rest))
  {
    hide ParseExpr;
    assert (c + rest)[|c|..] == rest;
  }

  lemma NotStep(md: Mode, ts: seq<Token>, e: Expr, rest: seq<Token>)
    requires ParseFactor(md, ts) == Some(Parsed(e, rest))
    ensures ParseFactor(md, [NOT] + ts) == Some(Parsed(Not(e), rest))
  {
    assert ([NOT] + ts)[1..] == ts;
  }

  lemma OpenStep(md: Mode, ts: seq<Token>, e: Expr, rest: seq<Token>)
    requires ParseExpr(md, ts) == Some(Parsed(e, [CLOSE] + rest))
    ensures ParseFactor(md, [OPEN] + ts) == Some(Parsed(e, rest))
  {
    hide ParseExpr;
    assert ([OPEN] + ts)[1..] == ts;
  }

  /** The parser accepts exactly the sentences of the grammar: of tokens c followed by something that does not continue
      an expression it takes just c and returns e if and only if c is a sentence that means e. */
  lemma ParsesExactly(md: Mode, c: seq<Token>, e: Expr, rest: seq<Token>)
    requires Ends(rest)
    ensures ParseExpr(md, c + rest) == Some(Parsed(e, rest)) <==> Sentence(md, c, e, EXPRESSION)
  {
    if Sentence(md, c, e, EXPRESSION) {
      SentenceParses(md, c, e, EXPRESSION, rest);
    }
    ParseSound(md, c + rest, EXPRESSION);
    if ParseExpr(md, c + rest) == Some(Parsed(e, rest)) {
      assert Used(c + rest, Parsed(e, rest)) == c;
    }
  }

  /** A sentence means one thing only. */
  lemma OneMeaning(md: Mode, c: seq<Token>, e: Expr, e': Expr)
    requires Sentence(md, c, e, EXPRESSION) && Sentence(md, c, e', EXPRESSION)
    ensures e == e'
  {
    SentenceParses(md, c, e, EXPRESSION, []);
    SentenceParses(md, c, e', EXPRESSION, []);
  }
}
