/**
 * The naux-lang statement parser and Pratt expression parser
 * (parser/parser.rs), as functions of the token sequence and the cursor.
 *
 * The parser is only ever handed the lexer's output, which is non-empty and
 * ends with Eof (`ValidTokens`); `current` would panic on an empty vector.
 * Every parse function returns the tree it built and the new cursor.
 */
module ScriptParser {
  import opened Wrappers
  import opened ScriptAst
  import T = LangToken

  datatype ParseErrorKind =
    | UnexpectedToken(token: T.TokenKind)
    | ExpectedToken(what: string)
    | UnexpectedEof

  datatype ParseError = ParseError(kind: ParseErrorKind, span: T.Span, message: string)

  /** A parsed value and the cursor just after it. */
  datatype Parsed<X> = Parsed(value: X, pos: nat)

  predicate ValidTokens(toks: seq<T.Token>)
  {
    |toks| > 0 && toks[|toks| - 1].kind == T.Eof
  }

  // ---------------------------------------------------------------------
  // Cursor helpers
  // ---------------------------------------------------------------------

  /** `current`: the token at the cursor, or the last token past the end. */
  function Current(toks: seq<T.Token>, pos: nat): T.Token
    requires ValidTokens(toks)
  {
    if pos < |toks| then toks[pos] else toks[|toks| - 1]
  }

  /** `peek_kind`: the kind of the token after the cursor, if any. */
  function PeekKind(toks: seq<T.Token>, pos: nat): Option<T.TokenKind>
  {
    if pos + 1 < |toks| then Some(toks[pos + 1].kind) else None
  }

  predicate IsEof(toks: seq<T.Token>, pos: nat)
    requires ValidTokens(toks)
  {
    Current(toks, pos).kind == T.Eof
  }

  /** `advance`: moves one token forward unless the cursor is on Eof. */
  function Advance(toks: seq<T.Token>, pos: nat): nat
    requires ValidTokens(toks)
  {
    if IsEof(toks, pos) then pos else pos + 1
  }

  /** The cursor never leaves the token vector: `advance` stops at Eof. */
  lemma AdvanceInBounds(toks: seq<T.Token>, pos: nat)
    requires ValidTokens(toks) && pos < |toks|
    ensures Advance(toks, pos) < |toks|
    ensures IsEof(toks, pos) <==> Advance(toks, pos) == pos
  {
  }

  /** The name `{:?}` prints for a payload-free token kind, as used by `expect`. */
  function KindName(k: T.TokenKind): string
  {
    match k
    case Tilde => "Tilde" case Bang => "Bang" case Dollar => "Dollar"
    case Assign => "Assign" case Arrow => "Arrow" case Dot => "Dot"
    case Comma => "Comma" case Caret => "Caret" case LParen => "LParen"
    case RParen => "RParen" case LBrace => "LBrace" case RBrace => "RBrace"
    case LBracket => "LBracket" case RBracket => "RBracket" case Plus => "Plus"
    case Minus => "Minus" case Star => "Star" case Slash => "Slash"
    case Percent => "Percent" case AndAnd => "AndAnd" case OrOr => "OrOr"
    case Colon => "Colon" case Op(_) => "Op" case Ident(_) => "Ident"
    case Number(_) => "Number" case StringLit(_) => "StringLit"
    case If => "If" case Else => "Else" case Rite => "Rite" case Unsafe => "Unsafe"
    case Import => "Import" case Fn => "Fn" case Loop => "Loop" case Each => "Each"
    case While => "While" case End => "End" case In => "In"
    case Newline => "Newline" case Eof => "Eof"
  }

  /** `expect`: consumes a token of the given kind or fails at the cursor. */
  function Expect(toks: seq<T.Token>, pos: nat, kind: T.TokenKind): (r: Result<nat, ParseError>)
    requires ValidTokens(toks) && pos < |toks|
    requires kind != T.Eof
    ensures r.Ok? <==> toks[pos].kind == kind
    ensures r.Ok? ==> r.value == pos + 1 < |toks|
  {
    var cur := Current(toks, pos);
    if cur.kind == kind then Ok(Advance(toks, pos))
    else Err(ParseError(UnexpectedToken(cur.kind), cur.span, "Expected " + KindName(kind)))
  }

  /** `optional_newlines`. */
  function SkipNewlines(toks: seq<T.Token>, pos: nat): (r: nat)
    requires ValidTokens(toks) && pos < |toks|
    ensures pos <= r < |toks|
    ensures toks[r].kind != T.Newline
    ensures forall k :: pos <= k < r ==> toks[k].kind == T.Newline
    decreases |toks| - pos
  {
    if Current(toks, pos).kind == T.Newline then SkipNewlines(toks, Advance(toks, pos)) else pos
  }

  function ErrorExpected(toks: seq<T.Token>, pos: nat, what: string): ParseError
    requires ValidTokens(toks)
  {
    ParseError(ExpectedToken(what), Current(toks, pos).span, "Expected " + what)
  }

  function ErrorCustom(toks: seq<T.Token>, pos: nat, msg: string): ParseError
    requires ValidTokens(toks)
  {
    ParseError(UnexpectedToken(Current(toks, pos).kind), Current(toks, pos).span, msg)
  }

  /** The cursor is on `~` and the next token has the given kind. */
  predicate AtTildeThen(toks: seq<T.Token>, pos: nat, kw: T.TokenKind)
    requires ValidTokens(toks)
  {
    Current(toks, pos).kind == T.Tilde && PeekKind(toks, pos) == Some(kw)
  }

  // ---------------------------------------------------------------------
  // Expressions
  // ---------------------------------------------------------------------

  /** `peek_binary_op`: operator, precedence and right-associativity of the current token. */
  function PeekBinaryOp(toks: seq<T.Token>, pos: nat): Option<(BinaryOp, nat, bool)>
    requires ValidTokens(toks)
  {
    BinaryOpOf(Current(toks, pos).kind)
  }

  /** The operator table of `peek_binary_op`. */
  function BinaryOpOf(k: T.TokenKind): Option<(BinaryOp, nat, bool)>
  {
    match k
    case Plus => Some((Add, 10, false))
    case Minus => Some((Sub, 10, false))
    case Star => Some((Mul, 20, false))
    case Slash => Some((Div, 20, false))
    case Op(s) =>
      if s == "==" then Some((Eq, 5, false))
      else if s == "!=" then Some((Ne, 5, false))
      else if s == ">" then Some((Gt, 5, false))
      else if s == "<" then Some((Lt, 5, false))
      else if s == ">=" then Some((Ge, 5, false))
      else if s == "<=" then Some((Le, 5, false))
      else None
    case _ => None
  }

  /** `parse_expr`. */
  function ParseExpr(toks: seq<T.Token>, pos: nat): (r: Result<Parsed<Expr>, ParseError>)
    requires ValidTokens(toks) && pos < |toks|
    ensures r.Ok? ==> pos < r.value.pos < |toks|
    decreases |toks| - pos, 3
  {
    ParseBinary(toks, pos, 0)
  }

  /** `parse_binary_expr(min_prec)`: a unary operand followed by the operator loop. */
  function ParseBinary(toks: seq<T.Token>, pos: nat, minPrec: nat): (r: Result<Parsed<Expr>, ParseError>)
    requires ValidTokens(toks) && pos < |toks|
    ensures r.Ok? ==> pos < r.value.pos < |toks|
    decreases |toks| - pos, 2
  {
    var left :- ParseUnary(toks, pos);
    BinaryLoop(toks, left.pos, minPrec, left.value)
  }

  /** The `while let Some(op) = peek_binary_op()` loop of `parse_binary_expr`. */
  function BinaryLoop(toks: seq<T.Token>, pos: nat, minPrec: nat, left: Expr): (r: Result<Parsed<Expr>, ParseError>)
    requires ValidTokens(toks) && pos < |toks|
    ensures r.Ok? ==> pos <= r.value.pos < |toks|
    decreases |toks| - pos, 0
  {
    match PeekBinaryOp(toks, pos)
    case None => Ok(Parsed(left, pos))
    case Some((op, prec, rightAssoc)) =>
      if prec < minPrec then Ok(Parsed(left, pos))
      else
        var next := Advance(toks, pos);
        var nextMin := if rightAssoc then prec else prec + 1;
        var right :- ParseBinary(toks, next, nextMin);
        BinaryLoop(toks, right.pos, minPrec, Binary(op, left, right.value))
  }

  /** `parse_unary_expr`: prefix `!` and `-` nest, then a primary. */
  function ParseUnary(toks: seq<T.Token>, pos: nat): (r: Result<Parsed<Expr>, ParseError>)
    requires ValidTokens(toks) && pos < |toks|
    ensures r.Ok? ==> pos < r.value.pos < |toks|
    decreases |toks| - pos, 1
  {
    var k := Current(toks, pos).kind;
    if k == T.Bang then
      var e :- ParseUnary(toks, Advance(toks, pos));
      Ok(Parsed(Unary(Not, e.value), e.pos))
    else if k == T.Minus then
      var e :- ParseUnary(toks, Advance(toks, pos));
      Ok(Parsed(Unary(Neg, e.value), e.pos))
    else ParsePrimary(toks, pos)
  }

  /** `parse_primary`: literals, `true`/`false`, variables and parenthesised expressions. */
  function ParsePrimary(toks: seq<T.Token>, pos: nat): (r: Result<Parsed<Expr>, ParseError>)
    requires ValidTokens(toks) && pos < |toks|
    ensures r.Ok? ==> pos < r.value.pos < |toks|
    decreases |toks| - pos, 0
  {
    var k := Current(toks, pos).kind;
    var next := Advance(toks, pos);
    if k.Number? then Ok(Parsed(Number(k.num), next))
    else if k.StringLit? then Ok(Parsed(Text(k.text), next))
    else if k.Ident? then
      if k.name == "true" then Ok(Parsed(Bool(true), next))
      else if k.name == "false" then Ok(Parsed(Bool(false), next))
      else Ok(Parsed(Var(k.name), next))
    else if k == T.LParen then
      var e :- ParseExpr(toks, next);
      var close :- Expect(toks, e.pos, T.RParen);
      Ok(Parsed(e.value, close))
    else Err(ErrorCustom(toks, pos, "Expected expression"))
  }

  // ---------------------------------------------------------------------
  // Statements
  // ---------------------------------------------------------------------

  /** `parse_ident_string`. */
  function ParseIdent(toks: seq<T.Token>, pos: nat): (r: Result<Parsed<string>, ParseError>)
    requires ValidTokens(toks) && pos < |toks|
    ensures r.Ok? <==> toks[pos].kind.Ident?
    ensures r.Ok? ==> r.value == Parsed(toks[pos].kind.name, pos + 1) && pos + 1 < |toks|
  {
    var cur := Current(toks, pos);
    if cur.kind.Ident? then Ok(Parsed(cur.kind.name, Advance(toks, pos)))
    else Err(ParseError(UnexpectedToken(cur.kind), cur.span, "Expected identifier"))
  }

  /** How a statement block ends: rite and loop bodies at `~ end`, then-blocks also at `~ else`. */
  datatype BlockEnd = RiteEnd | PlainEnd | ThenEnd

  predicate AtBlockEnd(toks: seq<T.Token>, pos: nat, mode: BlockEnd)
    requires ValidTokens(toks)
  {
    AtTildeThen(toks, pos, T.End) || (mode == ThenEnd && AtTildeThen(toks, pos, T.Else))
  }

  /**
   * The statement loop of a block: statements separated by optional
   * newlines, up to the closing marker (which is not consumed).  Only the
   * rite loop checks for Eof itself; the others fail in `parse_stmt`.
   */
  function ParseBody(toks: seq<T.Token>, pos: nat, mode: BlockEnd): (r: Result<Parsed<seq<Stmt>>, ParseError>)
    requires ValidTokens(toks) && pos < |toks|
    ensures r.Ok? ==> pos <= r.value.pos < |toks| && AtBlockEnd(toks, r.value.pos, mode)
    decreases |toks| - pos, 4
  {
    if AtBlockEnd(toks, pos, mode) then Ok(Parsed([], pos))
    else if mode == RiteEnd && IsEof(toks, pos) then Err(ErrorExpected(toks, pos, "~ end"))
    else
      var st :- ParseStmt(toks, pos);
      var rest :- ParseBody(toks, SkipNewlines(toks, st.pos), mode);
      Ok(Parsed([st.value] + rest.value, rest.pos))
  }

  /** `parse_stmt`: dispatch on `~`, `$` or `!`. */
  function ParseStmt(toks: seq<T.Token>, pos: nat): (r: Result<Parsed<Stmt>, ParseError>)
    requires ValidTokens(toks) && pos < |toks|
    ensures r.Ok? ==> pos < r.value.pos < |toks|
    decreases |toks| - pos, 3
  {
    var k := Current(toks, pos).kind;
    if k == T.Tilde then ParseTildeStmt(toks, pos)
    else if k == T.Dollar then ParseAssign(toks, pos)
    else if k == T.Bang then ParseActionStmt(toks, pos)
    else Err(ErrorExpected(toks, pos, "statement"))
  }

  /** `parse_tilde_stmt`: the keyword after `~` selects the block form. */
  function ParseTildeStmt(toks: seq<T.Token>, pos: nat): (r: Result<Parsed<Stmt>, ParseError>)
    requires ValidTokens(toks) && pos < |toks|
    ensures r.Ok? ==> pos < r.value.pos < |toks|
    decreases |toks| - pos, 2
  {
    var p :- Expect(toks, pos, T.Tilde);
    var k := Current(toks, p).kind;
    if k == T.Rite then ParseRiteBlock(toks, p)
    else if k == T.If then ParseIfBlock(toks, p)
    else if k == T.Loop then ParseLoopBlock(toks, p)
    else if k == T.Each then ParseEachBlock(toks, p)
    else if k == T.While then ParseWhileBlock(toks, p)
    else Err(ParseError(UnexpectedToken(k), Current(toks, p).span, "Unexpected token"))
  }

  /** Consumes the closing `~ end` of a block. */
  function ExpectEnd(toks: seq<T.Token>, pos: nat): (r: Result<nat, ParseError>)
    requires ValidTokens(toks) && pos < |toks|
    ensures r.Ok? ==> r.value == pos + 2 < |toks|
  {
    var p :- Expect(toks, pos, T.Tilde);
    Expect(toks, p, T.End)
  }

  function ParseRiteBlock(toks: seq<T.Token>, pos: nat): (r: Result<Parsed<Stmt>, ParseError>)
    requires ValidTokens(toks) && pos < |toks|
    ensures r.Ok? ==> pos < r.value.pos < |toks|
    decreases |toks| - pos, 1
  {
    var span := Current(toks, pos).span;
    var p :- Expect(toks, pos, T.Rite);
    var body :- ParseBody(toks, SkipNewlines(toks, p), RiteEnd);
    var q :- ExpectEnd(toks, body.pos);
    Ok(Parsed(Rite(body.value, Some(span)), q))
  }

  function ParseIfBlock(toks: seq<T.Token>, pos: nat): (r: Result<Parsed<Stmt>, ParseError>)
    requires ValidTokens(toks) && pos < |toks|
    ensures r.Ok? ==> pos < r.value.pos < |toks|
    decreases |toks| - pos, 1
  {
    var span := Current(toks, pos).span;
    var p :- Expect(toks, pos, T.If);
    var cond :- ParseExpr(toks, p);
    var thenB :- ParseBody(toks, SkipNewlines(toks, cond.pos), ThenEnd);
    if AtTildeThen(toks, thenB.pos, T.Else) then
      var p1 :- Expect(toks, thenB.pos, T.Tilde);
      var p2 :- Expect(toks, p1, T.Else);
      var elseB :- ParseBody(toks, SkipNewlines(toks, p2), PlainEnd);
      var q :- ExpectEnd(toks, elseB.pos);
      Ok(Parsed(If(cond.value, thenB.value, elseB.value, Some(span)), q))
    else
      var q :- ExpectEnd(toks, thenB.pos);
      Ok(Parsed(If(cond.value, thenB.value, [], Some(span)), q))
  }

  function ParseLoopBlock(toks: seq<T.Token>, pos: nat): (r: Result<Parsed<Stmt>, ParseError>)
    requires ValidTokens(toks) && pos < |toks|
    ensures r.Ok? ==> pos < r.value.pos < |toks|
    decreases |toks| - pos, 1
  {
    var span := Current(toks, pos).span;
    var p :- Expect(toks, pos, T.Loop);
    var count :- ParseExpr(toks, p);
    var body :- ParseBody(toks, SkipNewlines(toks, count.pos), PlainEnd);
    var q :- ExpectEnd(toks, body.pos);
    Ok(Parsed(Loop(count.value, body.value, Some(span)), q))
  }

  function ParseEachBlock(toks: seq<T.Token>, pos: nat): (r: Result<Parsed<Stmt>, ParseError>)
    requires ValidTokens(toks) && pos < |toks|
    ensures r.Ok? ==> pos < r.value.pos < |toks|
    decreases |toks| - pos, 1
  {
    var span := Current(toks, pos).span;
    var p :- Expect(toks, pos, T.Each);
    var name :- ParseIdent(toks, p);
    var p2 :- Expect(toks, name.pos, T.In);
    var iter :- ParseExpr(toks, p2);
    var body :- ParseBody(toks, SkipNewlines(toks, iter.pos), PlainEnd);
    var q :- ExpectEnd(toks, body.pos);
    Ok(Parsed(Each(name.value, iter.value, body.value, Some(span)), q))
  }

  function ParseWhileBlock(toks: seq<T.Token>, pos: nat): (r: Result<Parsed<Stmt>, ParseError>)
    requires ValidTokens(toks) && pos < |toks|
    ensures r.Ok? ==> pos < r.value.pos < |toks|
    decreases |toks| - pos, 1
  {
    var span := Current(toks, pos).span;
    var p :- Expect(toks, pos, T.While);
    var cond :- ParseExpr(toks, p);
    var body :- ParseBody(toks, SkipNewlines(toks, cond.pos), PlainEnd);
    var q :- ExpectEnd(toks, body.pos);
    Ok(Parsed(While(cond.value, body.value, Some(span)), q))
  }

  /** `parse_assign`: `$ name = expr`. */
  function ParseAssign(toks: seq<T.Token>, pos: nat): (r: Result<Parsed<Stmt>, ParseError>)
    requires ValidTokens(toks) && pos < |toks|
    ensures r.Ok? ==> pos < r.value.pos < |toks|
    decreases |toks| - pos, 2
  {
    var span := Current(toks, pos).span;
    var p :- Expect(toks, pos, T.Dollar);
    var name :- ParseIdent(toks, p);
    var p2 :- Expect(toks, name.pos, T.Assign);
    var e :- ParseExpr(toks, p2);
    Ok(Parsed(Assign(name.value, e.value, Some(span)), e.pos))
  }

  /** `parse_action_stmt`: `!say`, `!ask` or `!fetch` followed by an expression. */
  function ParseActionStmt(toks: seq<T.Token>, pos: nat): (r: Result<Parsed<Stmt>, ParseError>)
    requires ValidTokens(toks) && pos < |toks|
    ensures r.Ok? ==> pos < r.value.pos < |toks|
    decreases |toks| - pos, 2
  {
    var span := Current(toks, pos).span;
    var p :- Expect(toks, pos, T.Bang);
    var k := Current(toks, p).kind;
    if k.Ident? then
      var p2 := Advance(toks, p);
      if k.name == "say" then
        var e :- ParseExpr(toks, p2);
        Ok(Parsed(Action(Say(e.value), Some(span)), e.pos))
      else if k.name == "ask" then
        var e :- ParseExpr(toks, p2);
        Ok(Parsed(Action(Ask(e.value), Some(span)), e.pos))
      else if k.name == "fetch" then
        var e :- ParseExpr(toks, p2);
        Ok(Parsed(Action(Fetch(e.value), Some(span)), e.pos))
      else Err(ErrorCustom(toks, p2, "Unknown action '!" + k.name + "'"))
    else Err(ParseError(UnexpectedToken(k), Current(toks, p).span, "Expected action name"))
  }

  /** The statement loop of `parse_script`: blank lines are skipped until Eof. */
  function ParseScriptFrom(toks: seq<T.Token>, pos: nat): (r: Result<seq<Stmt>, ParseError>)
    requires ValidTokens(toks) && pos < |toks|
    decreases |toks| - pos
  {
    if IsEof(toks, pos) then Ok([])
    else if Current(toks, pos).kind == T.Newline then ParseScriptFrom(toks, Advance(toks, pos))
    else
      var st :- ParseStmt(toks, pos);
      var rest :- ParseScriptFrom(toks, st.pos);
      Ok([st.value] + rest)
  }

  /** `Parser::new(tokens).parse_script()`. */
  function ParseScript(toks: seq<T.Token>): Result<seq<Stmt>, ParseError>
    requires ValidTokens(toks)
  {
    ParseScriptFrom(toks, 0)
  }
}
