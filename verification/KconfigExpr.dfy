/** Printing and parsing of expressions, tools/kconfiglib.py, at the level of tokens: expr_str prints no
    parentheses around chains of one operator, and the parser nests chains to the right. */
module KconfigExpr {
  import opened Basics
  import opened KconfigModel

  datatype Token = SYM(id: Id) | REL(oper: Relation) | AND | OR | NOT | OPEN | CLOSE | END | OTHER

  /** What parsing is told: whether m stands for m && MODULES, and which symbols m and MODULES are. */
  datatype Mode = Mode(transformM: bool, m: Id, modules: Id)

  /** An expression and the tokens behind it */
  datatype Parsed = Parsed(e: Expr, rest: seq<Token>)

  // ---------------------------------------------------------------- expr_str

  /** expr_str, as tokens */
  function Print(e: Expr): seq<Token>
    decreases e, 0
  {
    match e
    case Leaf(i) => [SYM(i)]
    case And(a, b) => PrintUnder(a, false) + [AND] + PrintUnder(b, false)
    case Or(a, b) => PrintUnder(a, true) + [OR] + PrintUnder(b, true)
    case Not(a) => if a.Leaf? then [NOT] + Print(a) else [NOT, OPEN] + Print(a) + [CLOSE]
    case Rel(r, a, b) => [SYM(a), REL(r), SYM(b)]
  }

  /** _parenthesize: an operand of || is parenthesized if it is a conjunction, one of && if a disjunction. */
  function PrintUnder(e: Expr, underOr: bool): seq<Token>
    decreases e, 1
  {
    if (if underOr then e.And? else e.Or?) then [OPEN] + Print(e) + [CLOSE] else Print(e)
  }

  // ---------------------------------------------------------------- the parser

  /** _parse_expr on the tokens ts */
  function ParseExpr(md: Mode, ts: seq<Token>): (r: Option<Parsed>)
    ensures r.Some? ==> |r.value.rest| < |ts|
    decreases |ts|, 2
  {
    var a := ParseAnd(md, ts);
    if a.None? then None
    else if a.value.rest != [] && a.value.rest[0] == OR then
      var b := ParseExpr(md, a.value.rest[1..]);
      if b.None? then None else Some(Parsed(Or(a.value.e, b.value.e), b.value.rest))
    else a
  }

  /** _parse_and_expr */
  function ParseAnd(md: Mode, ts: seq<Token>): (r: Option<Parsed>)
    ensures r.Some? ==> |r.value.rest| < |ts|
    decreases |ts|, 1
  {
    var a := ParseFactor(md, ts);
    if a.None? then None
    else if a.value.rest != [] && a.value.rest[0] == AND then
      var b := ParseAnd(md, a.value.rest[1..]);
      if b.None? then None else Some(Parsed(And(a.value.e, b.value.e), b.value.rest))
    else a
  }

  /** _parse_factor */
  function ParseFactor(md: Mode, ts: seq<Token>): (r: Option<Parsed>)
    ensures r.Some? ==> |r.value.rest| < |ts|
    decreases |ts|, 0
  {
    if ts == [] then None
    else
      match ts[0]
      case SYM(s) =>
        if |ts| > 1 && ts[1].REL? then
          if |ts| > 2 && ts[2].SYM? then Some(Parsed(Rel(ts[1].oper, s, ts[2].id), ts[3..])) else None
        else
          Some(Parsed(LeafOf(md, s), ts[1..]))
      case NOT =>
        var a := ParseFactor(md, ts[1..]);
        if a.None? then None else Some(Parsed(Not(a.value.e), a.value.rest))
      case OPEN =>
        var a := ParseExpr(md, ts[1..]);
        if a.Some? && a.value.rest != [] && a.value.rest[0] == CLOSE then Some(Parsed(a.value.e, a.value.rest[1..])) else None
      case _ => None
  }

  function LeafOf(md: Mode, s: Id): Expr {
    if md.transformM && s == md.m then And(Leaf(md.m), Leaf(md.modules)) else Leaf(s)
  }

  // ---------------------------------------------------------------- chains nested to the right

  /** x && y, with x's chain continued by y */
  function AndJoin(x: Expr, y: Expr): Expr {
    match x case And(a, b) => And(a, AndJoin(b, y)) case _ => And(x, y)
  }

  function OrJoin(x: Expr, y: Expr): Expr {
    match x case Or(a, b) => Or(a, OrJoin(b, y)) case _ => Or(x, y)
  }

  /** e with every chain of && and of || nested to the right */
  function Norm(e: Expr): Expr {
    match e
    case And(a, b) => AndJoin(Norm(a), Norm(b))
    case Or(a, b) => OrJoin(Norm(a), Norm(b))
    case Not(a) => Not(Norm(a))
    case _ => e
  }

  /** No chain of && or || is nested to the left. */
  predicate RightNested(e: Expr) {
    match e
    case And(a, b) => !a.And? && RightNested(a) && RightNested(b)
    case Or(a, b) => !a.Or? && RightNested(a) && RightNested(b)
    case Not(a) => RightNested(a)
    case _ => true
  }

  /** e with m as m && MODULES wherever it stands for a value */
  function Transformed(md: Mode, e: Expr): Expr {
    match e
    case Leaf(s) => LeafOf(md, s)
    case And(a, b) => And(Transformed(md, a), Transformed(md, b))
    case Or(a, b) => Or(Transformed(md, a), Transformed(md, b))
    case Not(a) => Not(Transformed(md, a))
    case Rel(_, _, _) => e
  }

  lemma {:induction false} AndJoinAssociative(x: Expr, y: Expr, z: Expr)
    ensures AndJoin(AndJoin(x, y), z) == AndJoin(x, AndJoin(y, z))
  {
    if x.And? {
      AndJoinAssociative(x.right, y, z);
    }
  }

  lemma {:induction false} OrJoinAssociative(x: Expr, y: Expr, z: Expr)
    ensures OrJoin(OrJoin(x, y), z) == OrJoin(x, OrJoin(y, z))
  {
    if x.Or? {
      OrJoinAssociative(x.right, y, z);
    }
  }

  lemma NormKind(e: Expr)
    ensures Norm(e).And? <==> e.And?
    ensures Norm(e).Or? <==> e.Or?
  {
  }

  // ---------------------------------------------------------------- the round trip

  /** What follows is no relation, so a symbol stands for itself. */
  predicate Stops(rest: seq<Token>) {
    rest != [] ==> !rest[0].REL?
  }

  /** What follows continues no chain. */
  predicate Ends(rest: seq<Token>) {
    rest != [] ==> !rest[0].REL? && rest[0] != AND && rest[0] != OR
  }

  function Operand(e: Expr): nat {
    if e.And? || e.Or? then 5 else 0
  }

  // One step of each parsing function.

  lemma FactorOnly(md: Mode, ts: seq<Token>, p: Parsed)
    requires ParseFactor(md, ts) == Some(p) && (p.rest != [] ==> p.rest[0] != AND)
    ensures ParseAnd(md, ts) == Some(p)
  {
  }

  lemma FactorThenAnd(md: Mode, ts: seq<Token>, x: Expr, tail: seq<Token>, q: Parsed)
    requires ParseFactor(md, ts) == Some(Parsed(x, [AND] + tail)) && ParseAnd(md, tail) == Some(q)
    ensures ParseAnd(md, ts) == Some(Parsed(And(x, q.e), q.rest))
  {
    assert ([AND] + tail)[1..] == tail;
  }

  lemma AndOnly(md: Mode, ts: seq<Token>, p: Parsed)
    requires ParseAnd(md, ts) == Some(p) && (p.rest != [] ==> p.rest[0] != OR)
    ensures ParseExpr(md, ts) == Some(p)
  {
  }

  lemma AndThenOr(md: Mode, ts: seq<Token>, x: Expr, tail: seq<Token>, q: Parsed)
    requires ParseAnd(md, ts) == Some(Parsed(x, [OR] + tail)) && ParseExpr(md, tail) == Some(q)
    ensures ParseExpr(md, ts) == Some(Parsed(Or(x, q.e), q.rest))
  {
    assert ([OR] + tail)[1..] == tail;
  }

  lemma NotFactor(md: Mode, ts: seq<Token>, p: Parsed)
    requires ts != [] && ts[0] == NOT && ParseFactor(md, ts[1..]) == Some(p)
    ensures ParseFactor(md, ts) == Some(Parsed(Not(p.e), p.rest))
  {
  }

  lemma OpenFactor(md: Mode, inner: seq<Token>, e: Expr, rest: seq<Token>)
    requires ParseExpr(md, inner) == Some(Parsed(e, [CLOSE] + rest))
    ensures ParseFactor(md, [OPEN] + inner) == Some(Parsed(e, rest))
  {
    assert ([OPEN] + inner)[1..] == inner && ([CLOSE] + rest)[1..] == rest;
  }

  lemma SymbolFactor(md: Mode, s: Id, rest: seq<Token>)
    requires Stops(rest)
    ensures ParseFactor(md, [SYM(s)] + rest) == Some(Parsed(LeafOf(md, s), rest))
  {
    assert ([SYM(s)] + rest)[1..] == rest;
  }

  lemma RelationFactor(md: Mode, r: Relation, a: Id, b: Id, rest: seq<Token>)
    ensures ParseFactor(md, [SYM(a), REL(r), SYM(b)] + rest) == Some(Parsed(Rel(r, a, b), rest))
  {
    assert ([SYM(a), REL(r), SYM(b)] + rest)[3..] == rest;
  }

  /** An operand as it is printed under an operator, when it is no chain of that operator, is one factor. */
  lemma {:induction false} OperandParses(md: Mode, e: Expr, underOr: bool, rest: seq<Token>)
    requires Stops(rest) && (if underOr then !e.Or? else !e.And?)
    ensures ParseFactor(md, PrintUnder(e, underOr) + rest) == Some(Parsed(Transformed(md, Norm(e)), rest))
    decreases e, Operand(e)
  {
    hide ParseFactor, ParseAnd, ParseExpr;
    var ts := PrintUnder(e, underOr) + rest;
    match e {
      case Leaf(s) => SymbolFactor(md, s, rest);
      case Rel(r, a, b) => RelationFactor(md, r, a, b, rest);
      case Not(a) =>
        assert PrintUnder(e, underOr) == Print(e);
        if a.Leaf? {
          assert Print(e) == [NOT] + Print(a) && PrintUnder(a, false) == Print(a);
          assert ts[1..] == Print(a) + rest;
          OperandParses(md, a, false, rest);
        } else {
          assert Print(e) == [NOT, OPEN] + Print(a) + [CLOSE];
          assert ts[1..] == [OPEN] + Print(a) + [CLOSE] + rest;
          ParenthesesParse(md, a, rest);
        }
        NotFactor(md, ts, Parsed(Transformed(md, Norm(a)), rest));
      case _ =>
        ParenthesesParse(md, e, rest);
    }
  }

  lemma {:induction false} ParenthesesParse(md: Mode, e: Expr, rest: seq<Token>)
    ensures ParseFactor(md, [OPEN] + Print(e) + [CLOSE] + rest) == Some(Parsed(Transformed(md, Norm(e)), rest))
    decreases e, 4
  {
    hide ParseFactor, ParseAnd, ParseExpr, Print, Transformed, Norm;
    var inner := [CLOSE] + rest;
    PrintParses(md, e, inner);
    OpenFactor(md, Print(e) + inner, Transformed(md, Norm(e)), rest);
    assert [OPEN] + Print(e) + [CLOSE] + rest == [OPEN] + (Print(e) + inner);
  }

  lemma AndPrinted(e: Expr)
    requires e.And?
    ensures PrintUnder(e, false) == PrintUnder(e.left, false) + [AND] + PrintUnder(e.right, false)
  {
  }

  lemma OrPrinted(e: Expr)
    requires e.Or?
    ensures PrintUnder(e, true) == PrintUnder(e.left, true) + [OR] + PrintUnder(e.right, true)
  {
  }

  /** A printed operand of && before more of the chain: the parser joins the two chains. */
  lemma {:induction false} AndChain(md: Mode, e: Expr, tail: seq<Token>, y: Expr, rest: seq<Token>)
    requires ParseAnd(md, tail) == Some(Parsed(Transformed(md, y), rest))
    ensures ParseAnd(md, PrintUnder(e, false) + [AND] + tail) == Some(Parsed(Transformed(md, AndJoin(Norm(e), y)), rest))
    decreases e, 6
  {
    hide ParseAnd, ParseFactor, ParseExpr, Print, PrintUnder;
    if e.And? {
      var b := PrintUnder(e.right, false) + [AND] + tail;
      AndChain(md, e.right, tail, y, rest);
      AndChain(md, e.left, b, AndJoin(Norm(e.right), y), rest);
      AndJoinAssociative(Norm(e.left), Norm(e.right), y);
      AndPrinted(e);
      assert PrintUnder(e, false) + [AND] + tail == PrintUnder(e.left, false) + [AND] + b;
    } else {
      var more := [AND] + tail;
      OperandParses(md, e, false, more);
      NormKind(e);
      assert PrintUnder(e, false) + [AND] + tail == PrintUnder(e, false) + more;
      FactorThenAnd(md, PrintUnder(e, false) + more, Transformed(md, Norm(e)), tail, Parsed(Transformed(md, y), rest));
    }
  }

  /** The last printed operand of a chain of &&. */
  lemma {:induction false} AndTail(md: Mode, e: Expr, rest: seq<Token>)
    requires Stops(rest) && (rest != [] ==> rest[0] != AND)
    ensures ParseAnd(md, PrintUnder(e, false) + rest) == Some(Parsed(Transformed(md, Norm(e)), rest))
    decreases e, if e.Or? then 6 else 2
  {
    hide ParseAnd, ParseFactor, ParseExpr, Print, PrintUnder, Transformed;
    if e.And? {
      AndTail(md, e.right, rest);
      AndChain(md, e.left, PrintUnder(e.right, false) + rest, Norm(e.right), rest);
      AndPrinted(e);
      assert PrintUnder(e, false) + rest == PrintUnder(e.left, false) + [AND] + (PrintUnder(e.right, false) + rest);
    } else {
      OperandParses(md, e, false, rest);
      FactorOnly(md, PrintUnder(e, false) + rest, Parsed(Transformed(md, Norm(e)), rest));
    }
  }

  lemma {:induction false} OrChain(md: Mode, e: Expr, tail: seq<Token>, y: Expr, rest: seq<Token>)
    requires ParseExpr(md, tail) == Some(Parsed(Transformed(md, y), rest))
    ensures ParseExpr(md, PrintUnder(e, true) + [OR] + tail) == Some(Parsed(Transformed(md, OrJoin(Norm(e), y)), rest))
    decreases e, 6
  {
    hide ParseAnd, ParseFactor, ParseExpr, Print, PrintUnder;
    if e.Or? {
      var b := PrintUnder(e.right, true) + [OR] + tail;
      OrChain(md, e.right, tail, y, rest);
      OrChain(md, e.left, b, OrJoin(Norm(e.right), y), rest);
      OrJoinAssociative(Norm(e.left), Norm(e.right), y);
      OrPrinted(e);
      assert PrintUnder(e, true) + [OR] + tail == PrintUnder(e.left, true) + [OR] + b;
    } else {
      var more := [OR] + tail;
      OperandParses(md, e, true, more);
      NormKind(e);
      assert PrintUnder(e, true) + [OR] + tail == PrintUnder(e, true) + more;
      FactorOnly(md, PrintUnder(e, true) + more, Parsed(Transformed(md, Norm(e)), more));
      AndThenOr(md, PrintUnder(e, true) + more, Transformed(md, Norm(e)), tail, Parsed(Transformed(md, y), rest));
    }
  }

  lemma {:induction false} OrTail(md: Mode, e: Expr, rest: seq<Token>)
    requires Ends(rest)
    ensures ParseExpr(md, PrintUnder(e, true) + rest) == Some(Parsed(Transformed(md, Norm(e)), rest))
    decreases e, if e.And? then 6 else 2
  {
    hide ParseAnd, ParseFactor, ParseExpr, Print, PrintUnder, Transformed;
    if e.Or? {
      OrTail(md, e.right, rest);
      OrChain(md, e.left, PrintUnder(e.right, true) + rest, Norm(e.right), rest);
      OrPrinted(e);
      assert PrintUnder(e, true) + rest == PrintUnder(e.left, true) + [OR] + (PrintUnder(e.right, true) + rest);
    } else {
      OperandParses(md, e, true, rest);
      FactorOnly(md, PrintUnder(e, true) + rest, Parsed(Transformed(md, Norm(e)), rest));
      AndOnly(md, PrintUnder(e, true) + rest, Parsed(Transformed(md, Norm(e)), rest));
    }
  }

  /** Parsing what expr_str prints takes exactly those tokens, and gives the expression with its chains
      nested to the right - and with m spelled out as m && MODULES where the parser is told to. */
  lemma {:induction false} PrintParses(md: Mode, e: Expr, rest: seq<Token>)
    requires Ends(rest)
    ensures ParseExpr(md, Print(e) + rest) == Some(Parsed(Transformed(md, Norm(e)), rest))
    decreases e, 3
  {
    hide ParseAnd, ParseFactor, ParseExpr, Transformed, Norm;
    if e.Or? {
      assert PrintUnder(e, true) == Print(e);
      OrTail(md, e, rest);
    } else {
      assert PrintUnder(e, false) == Print(e);
      AndTail(md, e, rest);
      AndOnly(md, Print(e) + rest, Parsed(Transformed(md, Norm(e)), rest));
    }
  }

  /** A lone symbol parses to itself, and m, where the parser is told to, to m && MODULES. */
  lemma ParsesSymbol(md: Mode, s: Id, rest: seq<Token>)
    requires Ends(rest)
    ensures ParseExpr(md, [SYM(s)] + rest)
            == Some(Parsed(if md.transformM && s == md.m then And(Leaf(md.m), Leaf(md.modules)) else Leaf(s), rest))
  {
    PrintParses(md, Leaf(s), rest);
    assert Print(Leaf(s)) == [SYM(s)];
    hide ParseExpr;
  }

  /** The operands of a relation stay what they are, m included. */
  lemma ParsesRelation(md: Mode, r: Relation, a: Id, b: Id, rest: seq<Token>)
    requires Ends(rest)
    ensures ParseExpr(md, [SYM(a), REL(r), SYM(b)] + rest) == Some(Parsed(Rel(r, a, b), rest))
  {
    PrintParses(md, Rel(r, a, b), rest);
    assert Print(Rel(r, a, b)) == [SYM(a), REL(r), SYM(b)];
    hide ParseExpr;
  }

  /** Where MODULES is no less than m, spelling m out changes no value. */
  lemma {:induction false} TransformedVal(k: Config, u: User, env: Env, md: Mode, e: Expr)
    requires ExprVal(k, u, env, Leaf(md.m)) <= ExprVal(k, u, env, Leaf(md.modules))
    ensures ExprVal(k, u, env, Transformed(md, e)) == ExprVal(k, u, env, e)
  {
    hide LeafVal, Comparison;
    match e
    case And(a, b) => TransformedVal(k, u, env, md, a); TransformedVal(k, u, env, md, b);
    case Or(a, b) => TransformedVal(k, u, env, md, a); TransformedVal(k, u, env, md, b);
    case Not(a) => TransformedVal(k, u, env, md, a);
    case _ =>
  }

  /** The round trip without that rewriting. */
  lemma RoundTrip(md: Mode, e: Expr, rest: seq<Token>)
    requires !md.transformM && Ends(rest)
    ensures ParseExpr(md, Print(e) + rest) == Some(Parsed(Norm(e), rest))
  {
    PrintParses(md, e, rest);
    TransformedSame(md, Norm(e));
  }

  lemma {:induction false} TransformedSame(md: Mode, e: Expr)
    requires !md.transformM
    ensures Transformed(md, e) == e
  {
    match e
    case And(a, b) => TransformedSame(md, a); TransformedSame(md, b);
    case Or(a, b) => TransformedSame(md, a); TransformedSame(md, b);
    case Not(a) => TransformedSame(md, a);
    case _ =>
  }

  // ---------------------------------------------------------------- what the round trip keeps

  lemma {:induction false} AndJoinVal(k: Config, u: User, env: Env, x: Expr, y: Expr)
    ensures ExprVal(k, u, env, AndJoin(x, y)) == Min(ExprVal(k, u, env, x), ExprVal(k, u, env, y))
  {
    if x.And? {
      AndJoinVal(k, u, env, x.right, y);
    }
  }

  lemma {:induction false} OrJoinVal(k: Config, u: User, env: Env, x: Expr, y: Expr)
    ensures ExprVal(k, u, env, OrJoin(x, y)) == Max(ExprVal(k, u, env, x), ExprVal(k, u, env, y))
  {
    if x.Or? {
      OrJoinVal(k, u, env, x.right, y);
    }
  }

  /** The round trip keeps the value of the expression, whatever the symbols' values are. */
  lemma {:induction false} NormVal(k: Config, u: User, env: Env, e: Expr)
    ensures ExprVal(k, u, env, Norm(e)) == ExprVal(k, u, env, e)
  {
    match e
    case And(a, b) =>
      NormVal(k, u, env, a);
      NormVal(k, u, env, b);
      AndJoinVal(k, u, env, Norm(a), Norm(b));
    case Or(a, b) =>
      NormVal(k, u, env, a);
      NormVal(k, u, env, b);
      OrJoinVal(k, u, env, Norm(a), Norm(b));
    case Not(a) => NormVal(k, u, env, a);
    case _ =>
  }

  lemma {:induction false} AndJoinNested(x: Expr, y: Expr)
    requires RightNested(x) && RightNested(y)
    ensures RightNested(AndJoin(x, y))
  {
    if x.And? {
      AndJoinNested(x.right, y);
    }
  }

  lemma {:induction false} OrJoinNested(x: Expr, y: Expr)
    requires RightNested(x) && RightNested(y)
    ensures RightNested(OrJoin(x, y))
  {
    if x.Or? {
      OrJoinNested(x.right, y);
    }
  }

  lemma {:induction false} NormNested(e: Expr)
    ensures RightNested(Norm(e))
  {
    match e
    case And(a, b) =>
      NormNested(a);
      NormNested(b);
      AndJoinNested(Norm(a), Norm(b));
    case Or(a, b) =>
      NormNested(a);
      NormNested(b);
      OrJoinNested(Norm(a), Norm(b));
    case Not(a) => NormNested(a);
    case _ =>
  }

  lemma {:induction false} NestedNorm(e: Expr)
    requires RightNested(e)
    ensures Norm(e) == e
  {
    match e
    case And(a, b) =>
      NestedNorm(a);
      NestedNorm(b);
    case Or(a, b) =>
      NestedNorm(a);
      NestedNorm(b);
    case Not(a) => NestedNorm(a);
    case _ =>
  }

  /** The round trip gives back the very expression exactly when its chains are nested to the right. */
  lemma RoundTripExact(md: Mode, e: Expr, rest: seq<Token>)
    requires !md.transformM && Ends(rest)
    ensures ParseExpr(md, Print(e) + rest) == Some(Parsed(e, rest)) <==> RightNested(e)
  {
    RoundTrip(md, e, rest);
    NormNested(e);
    if RightNested(e) {
      NestedNorm(e);
    }
  }

  /** Printing and parsing once more changes nothing further. */
  lemma RoundTripTwice(md: Mode, e: Expr, rest: seq<Token>)
    requires !md.transformM && Ends(rest)
    ensures ParseExpr(md, Print(Norm(e)) + rest) == Some(Parsed(Norm(e), rest))
  {
    NormNested(e);
    NestedNorm(Norm(e));
    RoundTrip(md, Norm(e), rest);
  }

  /** A chain nested to the left is the input that does not come back as it was. */
  lemma LeftChain(md: Mode, i: Id)
    requires !md.transformM
    ensures var e := And(And(Leaf(i), Leaf(i)), Leaf(i));
            ParseExpr(md, Print(e)) == Some(Parsed(And(Leaf(i), And(Leaf(i), Leaf(i))), []))
  {
    var e := And(And(Leaf(i), Leaf(i)), Leaf(i));
    RoundTrip(md, e, []);
    assert Print(e) + [] == Print(e);
  }

  // ---------------------------------------------------------------- the parser as it runs

  /** Kconfig._tokens with its closing None, and _tokens_i */
  class Parser {
    const tokens: seq<Token>
    var tokensI: int
    const md: Mode

    ghost predicate Valid()
      reads this
    {
      tokens != [] && tokens[|tokens| - 1] == END && -1 <= tokensI < |tokens| - 1
    }

    /** The tokens still to be read, without the closing one. */
    ghost function Left(): seq<Token>
      requires Valid()
      reads this
    {
      tokens[tokensI + 1..|tokens| - 1]
    }

    constructor (ts: seq<Token>, mode: Mode)
      ensures Valid() && tokens == ts + [END] && md == mode && Left() == ts
    {
      tokens, md := ts + [END], mode;
      tokensI := -1;
    }

    /** _peek_token */
    function Peek(): Token
      requires -1 <= tokensI < |tokens| - 1
      reads this
    {
      tokens[tokensI + 1]
    }

    /** _check_token */
    method Check(token: Token) returns (ok: bool)
      requires Valid() && token != END
      modifies this
      ensures Valid()
      ensures ok <==> old(Left()) != [] && old(Left())[0] == token
      ensures Left() == if ok then old(Left())[1..] else old(Left())
    {
      ok := Peek() == token;
      if ok {
        tokensI := tokensI + 1;
      }
    }

    /** What an outcome of parsing says about the tokens read: the expression that the grammar gives, and
        the tokens behind it; None stands for the parse error. */
    static ghost predicate Outcome(e: Option<Expr>, p: Option<Parsed>) {
      if e.None? then p.None? else p.Some? && p.value.e == e.value
    }

    /** _parse_expr */
    method Expr() returns (e: Option<Expr>)
      requires Valid()
      modifies this
      ensures Outcome(e, ParseExpr(md, old(Left())))
      ensures e.Some? ==> Valid() && Left() == ParseExpr(md, old(Left())).value.rest
      decreases |Left()|, 2
    {
      e := AndExpr();
      if e.Some? {
        var more := Check(OR);
        if more {
          var b := Expr();
          e := if b.Some? then Some(KconfigModel.Expr.Or(e.value, b.value)) else None;
        }
      }
    }

    /** _parse_and_expr */
    method AndExpr() returns (e: Option<Expr>)
      requires Valid()
      modifies this
      ensures Outcome(e, ParseAnd(md, old(Left())))
      ensures e.Some? ==> Valid() && Left() == ParseAnd(md, old(Left())).value.rest
      decreases |Left()|, 1
    {
      e := Factor();
      if e.Some? {
        var more := Check(AND);
        if more {
          var b := AndExpr();
          e := if b.Some? then Some(KconfigModel.Expr.And(e.value, b.value)) else None;
        }
      }
    }

    /** _parse_factor; a token at the closing None is an error like any other */
    method Factor() returns (e: Option<Expr>)
      requires Valid()
      modifies this
      ensures Outcome(e, ParseFactor(md, old(Left())))
      ensures e.Some? ==> Valid() && Left() == ParseFactor(md, old(Left())).value.rest
      decreases |Left()|, 0
    {
      var token := Peek();
      if token == END && tokensI + 1 == |tokens| - 1 {
        return None;
      }
      ghost var ts := Left();
      assert token == ts[0];
      tokensI := tokensI + 1;
      assert Left() == ts[1..];
      if token.SYM? {
        if !Peek().REL? {
          return Some(LeafOf(md, token.id));
        }
        assert Peek() == ts[1];
        var oper := Peek().oper;
        tokensI := tokensI + 1;
        var next := Peek();
        if !next.SYM? {
          return None;
        }
        assert next == ts[2];
        tokensI := tokensI + 1;
        assert Left() == ts[3..];
        return Some(KconfigModel.Expr.Rel(oper, token.id, next.id));
      }
      if token == NOT {
        var a := Factor();
        return if a.Some? then Some(KconfigModel.Expr.Not(a.value)) else None;
      }
      if token == OPEN {
        e := Expr();
        if e.Some? {
          var closed := Check(CLOSE);
          if closed {
            return;
          }
        }
      }
      e := None;
    }
  }
}
