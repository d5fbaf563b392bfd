/**
 * Properties of the naux-lang parser: statement dispatch, block endings,
 * the accepted actions, and operator precedence and associativity of the
 * Pratt expression parser.
 */
module ScriptParserProps {
  import opened Wrappers
  import opened ScriptAst
  import opened ScriptParser
  import T = LangToken

  // ---------------------------------------------------------------------
  // Statements
  // ---------------------------------------------------------------------

  /** A statement starts with `~`, `$` or `!`; anything else is "Expected statement". */
  lemma StatementStart(toks: seq<T.Token>, pos: nat)
    requires ValidTokens(toks) && pos < |toks|
    ensures ParseStmt(toks, pos).Ok? ==> toks[pos].kind in {T.Tilde, T.Dollar, T.Bang}
    ensures toks[pos].kind !in {T.Tilde, T.Dollar, T.Bang} ==>
      ParseStmt(toks, pos) == Err(ParseError(ExpectedToken("statement"), toks[pos].span, "Expected statement"))
  {
    assert "Expected " + "statement" == "Expected statement";
  }

  /** There is a `~ end` pair at some position from `pos` on. */
  predicate HasEndMarker(toks: seq<T.Token>, pos: nat)
  {
    exists k :: pos <= k && k + 1 < |toks| && toks[k].kind == T.Tilde && toks[k + 1].kind == T.End
  }

  /** A rite block (and its body) only closes at a `~ end` pair: it cannot be parsed without one. */
  lemma RiteNeedsEnd(toks: seq<T.Token>, pos: nat)
    requires ValidTokens(toks) && pos < |toks|
    ensures ParseBody(toks, pos, RiteEnd).Ok? ==> HasEndMarker(toks, pos)
    ensures ParseRiteBlock(toks, pos).Ok? ==> HasEndMarker(toks, pos)
  {
    if ParseBody(toks, pos, RiteEnd).Ok? {
      var q := ParseBody(toks, pos, RiteEnd).value.pos;
      assert toks[q].kind == T.Tilde && toks[q + 1].kind == T.End;
    }
    if ParseRiteBlock(toks, pos).Ok? {
      var p := Expect(toks, pos, T.Rite).value;
      var s := SkipNewlines(toks, p);
      var q := ParseBody(toks, s, RiteEnd).value.pos;
      assert toks[q].kind == T.Tilde && toks[q + 1].kind == T.End;
    }
  }

  /** `~ rite` followed by a blank line and then the end of input fails with "Expected ~ end". */
  lemma RiteAtEofExample()
    ensures var sp := T.Span(2, 1);
      var toks := [T.Token(T.Tilde, T.Span(1, 1)), T.Token(T.Rite, T.Span(1, 3)),
                   T.Token(T.Newline, sp), T.Token(T.Eof, sp)];
      ParseScript(toks) == Err(ParseError(ExpectedToken("~ end"), sp, "Expected ~ end"))
  {
    var sp := T.Span(2, 1);
    var toks := [T.Token(T.Tilde, T.Span(1, 1)), T.Token(T.Rite, T.Span(1, 3)),
                 T.Token(T.Newline, sp), T.Token(T.Eof, sp)];
    assert SkipNewlines(toks, 2) == 3;
    assert "Expected " + "~ end" == "Expected ~ end";
    assert ParseBody(toks, 3, RiteEnd) == Err(ParseError(ExpectedToken("~ end"), sp, "Expected ~ end"));
    assert ParseRiteBlock(toks, 1).Err?;
  }

  /** There is a `~ else` pair between `lo` (inclusive) and `hi` (exclusive). */
  predicate HasElseMarker(toks: seq<T.Token>, lo: nat, hi: nat)
    requires ValidTokens(toks)
  {
    exists k :: lo <= k < hi && AtTildeThen(toks, k, T.Else)
  }

  /**
   * The then-block stops at `~ else` or `~ end`; the else-block is only
   * filled after a `~ else`, and is empty otherwise.
   */
  lemma IfElseBlock(toks: seq<T.Token>, pos: nat)
    requires ValidTokens(toks) && pos < |toks|
    requires ParseIfBlock(toks, pos).Ok?
    ensures var r := ParseIfBlock(toks, pos).value;
      r.value.If? && (r.value.elseBlock != [] ==> HasElseMarker(toks, pos, r.pos))
  {
    var p := Expect(toks, pos, T.If).value;
    var cond := ParseExpr(toks, p).value;
    var t := ParseBody(toks, SkipNewlines(toks, cond.pos), ThenEnd).value.pos;
    if AtTildeThen(toks, t, T.Else) {
      IfElseMarker(toks, pos, t);
    }
  }

  /** The else branch is entered only over a `~ else` pair, which lies before the block's end. */
  lemma IfElseMarker(toks: seq<T.Token>, pos: nat, t: nat)
    requires ValidTokens(toks) && pos < |toks|
    requires ParseIfBlock(toks, pos).Ok?
    requires var p := Expect(toks, pos, T.If).value;
      var cond := ParseExpr(toks, p).value;
      t == ParseBody(toks, SkipNewlines(toks, cond.pos), ThenEnd).value.pos
    requires AtTildeThen(toks, t, T.Else)
    ensures HasElseMarker(toks, pos, ParseIfBlock(toks, pos).value.pos)
  {
    assert pos <= t < ParseIfBlock(toks, pos).value.pos;
  }

  // ---------------------------------------------------------------------
  // Actions and primaries
  // ---------------------------------------------------------------------

  /** Only `!say`, `!ask` and `!fetch` parse; any other name is "Unknown action '!name'". */
  lemma ActionNames(toks: seq<T.Token>, pos: nat)
    requires ValidTokens(toks) && pos < |toks|
    ensures ParseActionStmt(toks, pos).Ok? ==>
      var a := ParseActionStmt(toks, pos).value.value;
      a.Action? && pos + 1 < |toks| && toks[pos + 1].kind.Ident?
      && ((a.action.Say? && toks[pos + 1].kind.name == "say")
         || (a.action.Ask? && toks[pos + 1].kind.name == "ask")
         || (a.action.Fetch? && toks[pos + 1].kind.name == "fetch"))
    ensures (toks[pos].kind == T.Bang && pos + 1 < |toks| && toks[pos + 1].kind.Ident?
             && toks[pos + 1].kind.name !in {"say", "ask", "fetch"}) ==>
      (ParseActionStmt(toks, pos).Err?
       && ParseActionStmt(toks, pos).error.message == "Unknown action '!" + toks[pos + 1].kind.name + "'")
  {
  }

  /** `true` and `false` are Bool literals, other names are variables. */
  lemma BoolLiterals(toks: seq<T.Token>, pos: nat)
    requires ValidTokens(toks) && pos < |toks| && toks[pos].kind.Ident?
    ensures ParsePrimary(toks, pos).Ok?
    ensures var e := ParsePrimary(toks, pos).value.value;
      var n := toks[pos].kind.name;
      (n == "true" ==> e == Bool(true)) && (n == "false" ==> e == Bool(false))
      && (n != "true" && n != "false" ==> e == Var(n))
  {
  }

  /** A parenthesised expression parses only with its closing `)`. */
  lemma ParenNeedsClose(toks: seq<T.Token>, pos: nat)
    requires ValidTokens(toks) && pos < |toks| && toks[pos].kind == T.LParen
    requires ParsePrimary(toks, pos).Ok?
    ensures var q := ParsePrimary(toks, pos).value.pos;
      pos + 2 < q && toks[q - 1].kind == T.RParen
  {
  }

  // ---------------------------------------------------------------------
  // Precedence and associativity
  // ---------------------------------------------------------------------

  /** The binding strength of each operator: comparisons < `+ -` < `* /`. */
  function OpPrec(op: BinaryOp): nat
  {
    match op
    case Eq => 5 case Ne => 5 case Gt => 5 case Ge => 5 case Lt => 5 case Le => 5
    case Add => 10 case Sub => 10
    case Mul => 20 case Div => 20 case Mod => 20
    case And => 2 case Or => 1
  }

  /** Binding strength of the root of a tree; operands that are not binary bind tightest. */
  const Atom: nat := 1000

  function TopPrec(e: Expr): nat
  {
    if e.Binary? then OpPrec(e.op) else Atom
  }

  /** The operator table agrees with `OpPrec`, and no operator is right-associative. */
  lemma PeekBinaryOpTable(toks: seq<T.Token>, pos: nat)
    requires ValidTokens(toks)
    ensures match PeekBinaryOp(toks, pos)
      case None => true
      case Some((op, prec, rightAssoc)) => prec == OpPrec(op) && !rightAssoc && 5 <= prec <= 20
  {
  }

  /**
   * A tree that respects precedence and left associativity: the left
   * operand of a binary node binds at least as tightly as the node, the
   * right operand strictly more tightly, and a unary operand is never a
   * binary node.
   */
  predicate WellNested(e: Expr)
  {
    match e
    case Binary(op, l, r) => TopPrec(l) >= OpPrec(op) && TopPrec(r) > OpPrec(op) && WellNested(l) && WellNested(r)
    case Unary(_, x) => !x.Binary? && WellNested(x)
    case _ => true
  }

  predicate NoParens(toks: seq<T.Token>)
  {
    forall k :: 0 <= k < |toks| ==> toks[k].kind != T.LParen
  }

  /** The cursor is not on an operator of precedence `minPrec` or more. */
  predicate StopsBelow(toks: seq<T.Token>, pos: nat, minPrec: nat)
    requires ValidTokens(toks)
  {
    match PeekBinaryOp(toks, pos)
    case None => true
    case Some((_, p, _)) => p < minPrec
  }

  lemma {:induction false} UnaryNested(toks: seq<T.Token>, pos: nat)
    requires ValidTokens(toks) && pos < |toks| && NoParens(toks)
    requires ParseUnary(toks, pos).Ok?
    ensures var e := ParseUnary(toks, pos).value.value; !e.Binary? && WellNested(e)
    decreases |toks| - pos
  {
    var k := toks[pos].kind;
    if k == T.Bang || k == T.Minus {
      UnaryNested(toks, Advance(toks, pos));
    }
  }

  lemma {:induction false} BinaryNested(toks: seq<T.Token>, pos: nat, minPrec: nat)
    requires ValidTokens(toks) && pos < |toks| && NoParens(toks)
    requires minPrec <= Atom
    requires ParseBinary(toks, pos, minPrec).Ok?
    ensures var r := ParseBinary(toks, pos, minPrec).value;
      WellNested(r.value) && TopPrec(r.value) >= minPrec && StopsBelow(toks, r.pos, minPrec)
    decreases |toks| - pos, 2
  {
    UnaryNested(toks, pos);
    var left := ParseUnary(toks, pos).value;
    LoopNested(toks, left.pos, minPrec, left.value);
  }

  lemma {:induction false} LoopNested(toks: seq<T.Token>, pos: nat, minPrec: nat, left: Expr)
    requires ValidTokens(toks) && pos < |toks| && NoParens(toks)
    requires WellNested(left) && TopPrec(left) >= minPrec
    requires left.Binary? ==> StopsBelow(toks, pos, OpPrec(left.op) + 1)
    requires BinaryLoop(toks, pos, minPrec, left).Ok?
    ensures var r := BinaryLoop(toks, pos, minPrec, left).value;
      WellNested(r.value) && TopPrec(r.value) >= minPrec && StopsBelow(toks, r.pos, minPrec)
    decreases |toks| - pos, 1
  {
    PeekBinaryOpTable(toks, pos);
    match PeekBinaryOp(toks, pos)
    case None =>
    case Some((op, prec, _)) =>
      if prec >= minPrec {
        LoopNestedStep(toks, pos, minPrec, left, op, prec);
      }
  }

  /** One round of the operator loop keeps the tree well nested. */
  lemma {:induction false} LoopNestedStep(toks: seq<T.Token>, pos: nat, minPrec: nat, left: Expr, op: BinaryOp, prec: nat)
    requires ValidTokens(toks) && pos < |toks| && NoParens(toks)
    requires WellNested(left) && TopPrec(left) >= minPrec
    requires left.Binary? ==> StopsBelow(toks, pos, OpPrec(left.op) + 1)
    requires PeekBinaryOp(toks, pos) == Some((op, prec, false)) && prec == OpPrec(op) && minPrec <= prec <= 20
    requires BinaryLoop(toks, pos, minPrec, left).Ok?
    ensures var r := BinaryLoop(toks, pos, minPrec, left).value;
      WellNested(r.value) && TopPrec(r.value) >= minPrec && StopsBelow(toks, r.pos, minPrec)
    decreases |toks| - pos, 0
  {
    assert pos + 1 < |toks|;
    LoopStep(toks, pos, minPrec, left, op, prec);
    var right := ParseBinary(toks, pos + 1, prec + 1).value;
    BinaryNested(toks, pos + 1, prec + 1);
    var tree := Binary(op, left, right.value);
    assert WellNested(tree) && TopPrec(tree) >= minPrec;
    assert OpPrec(tree.op) + 1 == prec + 1;
    assert StopsBelow(toks, right.pos, OpPrec(tree.op) + 1);
    assert BinaryLoop(toks, right.pos, minPrec, tree).Ok?;
    LoopNested(toks, right.pos, minPrec, tree);
  }

  /**
   * Without parentheses, every expression the parser builds is well nested:
   * `*` and `/` bind tighter than `+` and `-`, which bind tighter than the
   * comparisons; equal-precedence operators group to the left; and prefix
   * `!` and `-` bind tighter than every binary operator.
   */
  lemma ParsedExprWellNested(toks: seq<T.Token>, pos: nat)
    requires ValidTokens(toks) && pos < |toks| && NoParens(toks)
    requires ParseExpr(toks, pos).Ok?
    ensures WellNested(ParseExpr(toks, pos).value.value)
  {
    BinaryNested(toks, pos, 0);
  }

  function Tok(k: T.TokenKind): T.Token { T.Token(k, T.Span(1, 1)) }

  /** A number or a plain name is an operand by itself. */
  lemma Operand(toks: seq<T.Token>, p: nat, e: Expr)
    requires ValidTokens(toks) && p + 1 < |toks|
    requires || (toks[p].kind.Number? && e == Number(toks[p].kind.num))
             || (toks[p].kind.Ident? && toks[p].kind.name != "true" && toks[p].kind.name != "false" && e == Var(toks[p].kind.name))
    ensures ParseUnary(toks, p) == Ok(Parsed(e, p + 1))
  {
    assert ParsePrimary(toks, p) == Ok(Parsed(e, p + 1));
  }

  /** The operator loop stops at a token that is not an operator binding at least `minPrec`. */
  lemma LoopStop(toks: seq<T.Token>, p: nat, minPrec: nat, left: Expr)
    requires ValidTokens(toks) && p < |toks|
    requires PeekBinaryOp(toks, p).None? || PeekBinaryOp(toks, p).value.1 < minPrec
    ensures BinaryLoop(toks, p, minPrec, left) == Ok(Parsed(left, p))
  {
  }

  /** A left-associative operator binding at least `minPrec` takes the next tighter operand and goes round again. */
  lemma LoopStep(toks: seq<T.Token>, p: nat, minPrec: nat, left: Expr, op: BinaryOp, prec: nat)
    requires ValidTokens(toks) && p + 1 < |toks|
    requires PeekBinaryOp(toks, p) == Some((op, prec, false)) && prec >= minPrec
    requires ParseBinary(toks, p + 1, prec + 1).Ok?
    ensures var right := ParseBinary(toks, p + 1, prec + 1).value;
      BinaryLoop(toks, p, minPrec, left) == BinaryLoop(toks, right.pos, minPrec, Binary(op, left, right.value))
  {
    assert Advance(toks, p) == p + 1;
  }

  /** An operand followed by no operator binding at least `minPrec` is the whole of `parse_binary_expr`. */
  lemma Alone(toks: seq<T.Token>, p: nat, minPrec: nat, e: Expr)
    requires ValidTokens(toks) && p + 1 < |toks|
    requires || (toks[p].kind.Number? && e == Number(toks[p].kind.num))
             || (toks[p].kind.Ident? && toks[p].kind.name != "true" && toks[p].kind.name != "false" && e == Var(toks[p].kind.name))
    requires PeekBinaryOp(toks, p + 1).None? || PeekBinaryOp(toks, p + 1).value.1 < minPrec
    ensures ParseBinary(toks, p, minPrec) == Ok(Parsed(e, p + 1))
  {
    Operand(toks, p, e);
    LoopStop(toks, p + 1, minPrec, e);
  }

  /** The token shape of `1 + 2 * 3`. */
  predicate MulShape(toks: seq<T.Token>)
  {
    && |toks| == 6 && toks[5].kind == T.Eof && toks[1].kind == T.Plus && toks[3].kind == T.Star
    && toks[0].kind == T.Number(1.0) && toks[2].kind == T.Number(2.0) && toks[4].kind == T.Number(3.0)
  }

  lemma MulRight(toks: seq<T.Token>)
    requires MulShape(toks)
    ensures ParseBinary(toks, 2, 11) == Ok(Parsed(Binary(Mul, Number(2.0), Number(3.0)), 5))
  {
    var n2, n3 := Number(2.0), Number(3.0);
    Alone(toks, 4, 21, n3);
    Operand(toks, 2, n2);
    LoopStep(toks, 3, 11, n2, Mul, 20);
    LoopStop(toks, 5, 11, Binary(Mul, n2, n3));
  }

  lemma MulTail(toks: seq<T.Token>)
    requires MulShape(toks)
    ensures BinaryLoop(toks, 1, 0, Number(1.0)) == Ok(Parsed(Binary(Add, Number(1.0), Binary(Mul, Number(2.0), Number(3.0))), 5))
  {
    var n1, mul := Number(1.0), Binary(Mul, Number(2.0), Number(3.0));
    MulRight(toks);
    LoopStep(toks, 1, 0, n1, Add, 10);
    LoopStop(toks, 5, 0, Binary(Add, n1, mul));
  }

  lemma MulChain(toks: seq<T.Token>)
    requires MulShape(toks)
    ensures ParseExpr(toks, 0) == Ok(Parsed(Binary(Add, Number(1.0), Binary(Mul, Number(2.0), Number(3.0))), 5))
  {
    Operand(toks, 0, Number(1.0));
    MulTail(toks);
  }

  /** `1 + 2 * 3` parses as `Add(1, Mul(2, 3))`. */
  lemma MulBindsTighterExample()
    ensures var toks := [Tok(T.Number(1.0)), Tok(T.Plus), Tok(T.Number(2.0)), Tok(T.Star),
                         Tok(T.Number(3.0)), Tok(T.Eof)];
      ParseExpr(toks, 0) == Ok(Parsed(Binary(Add, Number(1.0), Binary(Mul, Number(2.0), Number(3.0))), 5))
  {
    MulChain([Tok(T.Number(1.0)), Tok(T.Plus), Tok(T.Number(2.0)), Tok(T.Star), Tok(T.Number(3.0)), Tok(T.Eof)]);
  }

  /** The token shape of `a - b - c`. */
  predicate SubShape(toks: seq<T.Token>)
  {
    && |toks| == 6 && toks[5].kind == T.Eof && toks[1].kind == T.Minus && toks[3].kind == T.Minus
    && toks[0].kind == T.Ident("a") && toks[2].kind == T.Ident("b") && toks[4].kind == T.Ident("c")
  }

  lemma SubLast(toks: seq<T.Token>)
    requires SubShape(toks)
    ensures BinaryLoop(toks, 3, 0, Binary(Sub, Var("a"), Var("b"))) == Ok(Parsed(Binary(Sub, Binary(Sub, Var("a"), Var("b")), Var("c")), 5))
  {
    var ab := Binary(Sub, Var("a"), Var("b"));
    Alone(toks, 4, 11, Var("c"));
    LoopStep(toks, 3, 0, ab, Sub, 10);
    LoopStop(toks, 5, 0, Binary(Sub, ab, Var("c")));
  }

  lemma SubFirst(toks: seq<T.Token>)
    requires SubShape(toks)
    ensures BinaryLoop(toks, 1, 0, Var("a")) == Ok(Parsed(Binary(Sub, Binary(Sub, Var("a"), Var("b")), Var("c")), 5))
  {
    Alone(toks, 2, 11, Var("b"));
    LoopStep(toks, 1, 0, Var("a"), Sub, 10);
    SubLast(toks);
  }

  lemma SubChain(toks: seq<T.Token>)
    requires SubShape(toks)
    ensures ParseExpr(toks, 0) == Ok(Parsed(Binary(Sub, Binary(Sub, Var("a"), Var("b")), Var("c")), 5))
  {
    Operand(toks, 0, Var("a"));
    SubFirst(toks);
  }

  /** `a - b - c` parses as `Sub(Sub(a, b), c)`. */
  lemma SubGroupsLeftExample()
    ensures var toks := [Tok(T.Ident("a")), Tok(T.Minus), Tok(T.Ident("b")), Tok(T.Minus),
                         Tok(T.Ident("c")), Tok(T.Eof)];
      ParseExpr(toks, 0) == Ok(Parsed(Binary(Sub, Binary(Sub, Var("a"), Var("b")), Var("c")), 5))
  {
    SubChain([Tok(T.Ident("a")), Tok(T.Minus), Tok(T.Ident("b")), Tok(T.Minus), Tok(T.Ident("c")), Tok(T.Eof)]);
  }

  // ---------------------------------------------------------------------
  // Scripts
  // ---------------------------------------------------------------------

  /** Blank lines before a statement are skipped: they do not change the parse. */
  lemma {:induction false} ScriptSkipsBlankLines(toks: seq<T.Token>, pos: nat)
    requires ValidTokens(toks) && pos < |toks|
    ensures ParseScriptFrom(toks, pos) == ParseScriptFrom(toks, SkipNewlines(toks, pos))
    decreases |toks| - pos
  {
    if toks[pos].kind == T.Newline {
      ScriptSkipsBlankLines(toks, pos + 1);
    }
  }

  /**
   * A successful script parse yields at most one statement per statement
   * start token (`~`, `$`, `!`) from the cursor on, in order.
   */
  function CountStarts(toks: seq<T.Token>, pos: nat): nat
    decreases |toks| - pos
  {
    if pos >= |toks| then 0
    else (if toks[pos].kind in {T.Tilde, T.Dollar, T.Bang} then 1 else 0) + CountStarts(toks, pos + 1)
  }

  lemma {:induction false} CountStartsMono(toks: seq<T.Token>, p: nat, q: nat)
    requires p <= q
    ensures CountStarts(toks, q) <= CountStarts(toks, p)
    decreases q - p
  {
    if p < q {
      CountStartsMono(toks, p + 1, q);
    }
  }

  lemma {:induction false} ScriptStatementsBounded(toks: seq<T.Token>, pos: nat)
    requires ValidTokens(toks) && pos < |toks|
    requires ParseScriptFrom(toks, pos).Ok?
    ensures |ParseScriptFrom(toks, pos).value| <= CountStarts(toks, pos)
    decreases |toks| - pos
  {
    if IsEof(toks, pos) {
    } else if toks[pos].kind == T.Newline {
      ScriptStatementsBounded(toks, pos + 1);
    } else {
      var st := ParseStmt(toks, pos).value;
      StatementStart(toks, pos);
      ScriptStatementsBounded(toks, st.pos);
      CountStartsMono(toks, pos + 1, st.pos);
    }
  }
}
