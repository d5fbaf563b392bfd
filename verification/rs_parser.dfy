/**
 * The recursive-descent parser of naux-rs (src/parser.rs) over the tokens
 * of `RsLexer`: a program is a list of rituals `~ rite Name … ~ end`, whose
 * bodies hold actions `!name args [-> !callback]`, assignments
 * `$var.path = expr` and the blocks `@loop … @loop_end` and
 * `@if … [@else …] @if_end`.
 *
 * Each parse function takes the token sequence and a cursor and returns
 * the parsed node with the cursor after it. The source's `current()` indexes
 * the token vector directly; the cursor provably never passes the final
 * Eof, which the contracts state as `pos < |ts|`.
 */
module RsParser {
  import opened Wrappers
  import L = RsLexer

  // -------------------------------------------------------------- syntax

  /** The `serde_json::Value`s a literal can carry. */
  datatype Json = JNull | JBool(b: bool) | JInt(i: int) | JFloat(f: real) | JStr(s: string)

  datatype VarRef = VarRef(base: string, path: seq<string>)

  datatype Expr =
    | Literal(kind: string, value: Json)
    | Var(ref: VarRef)
    | Ident(name: string)
    | Binary(op: string, left: Expr, right: Expr)
    | Unary(op: string, operand: Expr)
    | List(items: seq<Expr>)
    | Object(entries: seq<(string, Expr)>)
    | ActionExpr(action: Action)

  datatype Arg = ValueArg(value: Expr) | Named(name: string, value: Expr) | Flag(name: string)

  datatype Action = Action(name: string, args: seq<Arg>, callback: Option<Action>)

  datatype Statement =
    | ActionStmt(action: Action)
    | AssignStmt(target: VarRef, expr: Expr)
    | LoopStmt(mode: string, source: Option<VarRef>, times: Option<int>, body: seq<Statement>)
    | IfStmt(cond: Expr, thenBody: seq<Statement>, elseBody: Option<seq<Statement>>)

  datatype Ritual = Ritual(name: string, body: seq<Statement>)

  datatype ParseError =
    | Lex(err: L.LexError)
    | Expected(msg: string, line: nat, col: nat)
    | Unexpected(found: L.TokenKind, line: nat, col: nat)

  /** What `tokenize` hands the parser: never empty, and ending in Eof. */
  type Tokens = ts: seq<L.Token> | |ts| > 0 && ts[|ts| - 1].kind == L.Eof
    witness [L.Token(L.Eof, "", 1, 1)]

  /** A parsed node and the cursor just after it. */
  datatype Parsed<T> = Parsed(value: T, pos: nat)

  // -------------------------------------------------------------- cursor

  function Cur(ts: Tokens, pos: nat): L.Token
    requires pos < |ts|
  {
    ts[pos]
  }

  /** `peek`: the token `off` ahead, or the final Eof past the end. */
  function Peek(ts: Tokens, pos: nat, off: nat): (t: L.Token)
    ensures t.kind != L.Eof ==> pos + off < |ts| - 1 && t == ts[pos + off]
  {
    if pos + off < |ts| then ts[pos + off] else ts[|ts| - 1]
  }

  /** `@word`: an `@` followed by the identifier `word`. */
  predicate AtWord(ts: Tokens, pos: nat, word: string)
    requires pos < |ts|
  {
    Cur(ts, pos).kind == L.At && Peek(ts, pos, 1).kind == L.Ident && Peek(ts, pos, 1).lexeme == word
  }

  /** `match_kind(Newline)`. */
  function SkipNewline(ts: Tokens, pos: nat): (p: nat)
    requires pos < |ts|
    ensures pos <= p < |ts| && p <= pos + 1
  {
    if Cur(ts, pos).kind == L.Newline then pos + 1 else pos
  }

  /** `skip_newlines`: the first token at or after `pos` that is not a Newline. */
  function SkipNewlines(ts: Tokens, pos: nat): (p: nat)
    requires pos < |ts|
    ensures pos <= p < |ts| && Cur(ts, p).kind != L.Newline
    ensures forall k :: pos <= k < p ==> ts[k].kind == L.Newline
    decreases |ts| - pos
  {
    if Cur(ts, pos).kind == L.Newline then SkipNewlines(ts, pos + 1) else pos
  }

  /** `expect`: the current token when it has `kind`, else the error `msg` at its position. */
  function Expect(ts: Tokens, pos: nat, kind: L.TokenKind, msg: string): (r: Result<Parsed<L.Token>, ParseError>)
    requires pos < |ts|
    ensures r.Ok? <==> Cur(ts, pos).kind == kind
    ensures r.Ok? ==> r.value == Parsed(ts[pos], pos + 1) && (kind != L.Eof ==> pos + 1 < |ts|)
    ensures r.Err? ==> r.error == Expected(msg, ts[pos].line, ts[pos].col)
  {
    var tok := Cur(ts, pos);
    if tok.kind == kind then Ok(Parsed(tok, pos + 1)) else Err(Expected(msg, tok.line, tok.col))
  }

  // ------------------------------------------------------------- numbers

  const I64Min: int := -0x8000_0000_0000_0000
  const I64Max: int := 0x7FFF_FFFF_FFFF_FFFF

  function DigitValue(c: char): nat
    requires L.IsDigit(c)
  {
    (c as int) - ('0' as int)
  }

  predicate AllDigits(s: seq<char>) { forall i :: 0 <= i < |s| ==> L.IsDigit(s[i]) }

  /** The value of a run of decimal digits, most significant first. */
  function DigitsValue(s: seq<char>): nat
    requires AllDigits(s)
  {
    if |s| == 0 then 0 else 10 * DigitsValue(s[..|s| - 1]) + DigitValue(s[|s| - 1])
  }

  /** What `str::parse::<i64>` accepts before range checking: an optional sign and at least one digit. */
  predicate IntLexeme(s: seq<char>)
  {
    if |s| > 0 && (s[0] == '-' || s[0] == '+') then |s| > 1 && AllDigits(s[1..]) else |s| > 0 && AllDigits(s)
  }

  function IntValue(s: seq<char>): int
    requires IntLexeme(s)
  {
    if s[0] == '-' then -(DigitsValue(s[1..]) as int) else if s[0] == '+' then DigitsValue(s[1..]) else DigitsValue(s)
  }

  /** The decimal forms `str::parse::<f64>` accepts here: an optional sign, digits with at most one dot, at least one digit. */
  predicate FloatLexeme(s: seq<char>)
  {
    var body := if |s| > 0 && (s[0] == '-' || s[0] == '+') then s[1..] else s;
    exists k :: 0 <= k <= |body| && FloatSplit(body, k)
  }

  /** `body` is `body[..k]`, a dot, then `body[k + 1..]` (or digits only when `k == |body|`). */
  predicate FloatSplit(body: seq<char>, k: nat)
  {
    && k <= |body|
    && AllDigits(body[..k])
    && (k < |body| ==> body[k] == '.' && AllDigits(body[k + 1..]))
    && |body| > (if k < |body| then 1 else 0)
  }

  function Pow10(n: nat): (p: nat)
    ensures p >= 1
  {
    if n == 0 then 1 else 10 * Pow10(n - 1)
  }

  /** The position of the first dot of `body`, or its length when it has none. */
  function DotIndex(body: seq<char>): (k: nat)
    ensures k <= |body|
    ensures k < |body| ==> body[k] == '.'
    ensures forall j :: 0 <= j < k ==> body[j] != '.'
  {
    if |body| == 0 || body[0] == '.' then 0 else 1 + DotIndex(body[1..])
  }

  /** The exact decimal value of a float lexeme; the source rounds it to the nearest f64. */
  function FloatValue(s: seq<char>): real
    requires FloatLexeme(s)
  {
    var neg := |s| > 0 && s[0] == '-';
    var body := if |s| > 0 && (s[0] == '-' || s[0] == '+') then s[1..] else s;
    var k := DotIndex(body);
    FloatLexemeSplit(s);
    var whole := DigitsValue(body[..k]) as real;
    var frac := if k < |body| then DigitsValue(body[k + 1..]) as real / Pow10(|body| - k - 1) as real else 0.0;
    if neg then -(whole + frac) else whole + frac
  }

  /** A Number token's literal: an i64 when it parses as one, else an f64, else null. */
  function ParseNumber(lex: string): (v: Json)
    ensures v.JInt? <==> IntLexeme(lex) && I64Min <= IntValue(lex) <= I64Max
    ensures v.JInt? ==> v.i == IntValue(lex)
    ensures v.JFloat? <==> !v.JInt? && FloatLexeme(lex)
    ensures v.JFloat? ==> v.f == FloatValue(lex)
    ensures v.JInt? || v.JFloat? || v.JNull?
  {
    if IntLexeme(lex) && I64Min <= IntValue(lex) <= I64Max then JInt(IntValue(lex))
    else if FloatLexeme(lex) then JFloat(FloatValue(lex))
    else JNull
  }

  /** Rust's `f as i64`: truncation toward zero, saturating at the i64 bounds. */
  function F64ToI64(f: real): (n: int)
    ensures I64Min <= n <= I64Max
    ensures I64Min as real <= f <= I64Max as real ==> (n as real <= f < n as real + 1.0 || n as real - 1.0 < f <= n as real)
    ensures 0.0 <= f ==> 0 <= n && n as real <= f
    ensures f <= 0.0 ==> n <= 0 && f <= n as real
  {
    var t := if f >= 0.0 then f.Floor else -((-f).Floor);
    if t < I64Min then I64Min else if t > I64Max then I64Max else t
  }

  /** The repeat count of `@loop <expr>`: only a number literal gives one. */
  function LoopTimes(e: Expr): (t: Option<int>)
    ensures t.Some? <==> e.Literal? && e.kind == "number" && (e.value.JInt? || e.value.JFloat?)
  {
    if e.Literal? && e.kind == "number" then
      match e.value
      case JInt(n) => Some(n)
      case JFloat(f) => Some(F64ToI64(f))
      case _ => None
    else None
  }

  // ---------------------------------------------------- precedence shapes

  /** The operator strings of the `+ -` level, the `* /` level and the comparison level. */
  predicate IsAddOp(op: string) { op == "+" || op == "-" }
  predicate IsMulOp(op: string) { op == "*" || op == "/" }
  predicate IsCmpOp(op: string) { op in {"==", "!=", ">=", "<=", ">", "<"} }

  /** A product: unary operands joined left to right by `*` and `/`. */
  predicate MulLevel(e: Expr)
  {
    !e.Binary? || (IsMulOp(e.op) && MulLevel(e.left) && !e.right.Binary?)
  }

  /** A sum: products joined left to right by `+` and `-`. */
  predicate AddLevel(e: Expr)
  {
    if e.Binary? && IsAddOp(e.op) then AddLevel(e.left) && MulLevel(e.right) else MulLevel(e)
  }

  /** A comparison: a sum, or two sums joined by one comparison operator. */
  predicate CmpLevel(e: Expr)
  {
    if e.Binary? && IsCmpOp(e.op) then AddLevel(e.left) && AddLevel(e.right) else AddLevel(e)
  }

  /** An `@if` condition: a comparison, or two comparisons joined by one more comparison operator. */
  predicate CondLevel(e: Expr)
  {
    CmpLevel(e) || (e.Binary? && IsCmpOp(e.op) && CmpLevel(e.left) && CmpLevel(e.right))
  }

  /** Tokens as the lexer makes them: operator tokens carry their own text. */
  predicate WellFormed(ts: seq<L.Token>)
  {
    forall i :: 0 <= i < |ts| ==> L.OpText(ts[i])
  }

  /** An action whose own callback, if any, has none: `->` nests one level only. */
  predicate CallbackDepthOne(a: Action)
  {
    a.callback.Some? ==> a.callback.value.callback.None?
  }

  // ---------------------------------------------------------- expressions

  /** The tokens from `p` on spell `.path[0] .path[1] …`. */
  predicate PathAt(ts: Tokens, p: nat, path: seq<string>)
  {
    && p + 2 * |path| < |ts|
    && forall i :: 0 <= i < |path| ==> ts[p + 2 * i].kind == L.Dot && ts[p + 2 * i + 1].kind == L.Ident && ts[p + 2 * i + 1].lexeme == path[i]
  }

  /** `parse_varref`: `$base` then `.prop` pairs; a dot without an identifier is an error. */
  function ParseVarRef(ts: Tokens, pos: nat): (r: Result<Parsed<VarRef>, ParseError>)
    requires pos < |ts|
    ensures r.Ok? ==> ts[pos].kind == L.Var && r.value.value.base == ts[pos].lexeme
    ensures r.Ok? ==> PathAt(ts, pos + 1, r.value.value.path) && r.value.pos == pos + 1 + 2 * |r.value.value.path|
    ensures r.Ok? ==> Cur(ts, r.value.pos).kind != L.Dot
  {
    var base :- Expect(ts, pos, L.Var, "Expected variable");
    var path :- VarPath(ts, base.pos);
    Ok(Parsed(VarRef(base.value.lexeme, path.value), path.pos))
  }

  /** The `.prop` loop of `parse_varref`. */
  function VarPath(ts: Tokens, pos: nat): (r: Result<Parsed<seq<string>>, ParseError>)
    requires pos < |ts|
    ensures r.Ok? ==> PathAt(ts, pos, r.value.value) && r.value.pos == pos + 2 * |r.value.value|
    ensures r.Ok? ==> Cur(ts, r.value.pos).kind != L.Dot
    decreases |ts| - pos
  {
    if Cur(ts, pos).kind == L.Dot then
      var prop :- Expect(ts, pos + 1, L.Ident, "Expected property after '.'");
      var rest :- VarPath(ts, prop.pos);
      var path := [prop.value.lexeme] + rest.value;
      forall i | 0 <= i < |path|
        ensures ts[pos + 2 * i].kind == L.Dot && ts[pos + 2 * i + 1].kind == L.Ident && ts[pos + 2 * i + 1].lexeme == path[i]
      {
        if i > 0 {
          assert path[i] == rest.value[i - 1];
          assert pos + 2 * i == prop.pos + 2 * (i - 1);
        }
      }
      Ok(Parsed(path, rest.pos))
    else Ok(Parsed([], pos))
  }

  /** `parse_expr` is `parse_comparison`. */
  function ParseExpr(ts: Tokens, pos: nat): (r: Result<Parsed<Expr>, ParseError>)
    requires pos < |ts|
    ensures r.Ok? ==> pos < r.value.pos < |ts|
    ensures r.Ok? && WellFormed(ts) ==> CmpLevel(r.value.value)
    decreases |ts| - pos, 12
  {
    ParseComparison(ts, pos)
  }

  /** `parse_comparison`: a sum, then at most one comparison operator and a second sum. */
  function ParseComparison(ts: Tokens, pos: nat): (r: Result<Parsed<Expr>, ParseError>)
    requires pos < |ts|
    ensures r.Ok? ==> pos < r.value.pos < |ts|
    ensures r.Ok? && WellFormed(ts) ==> CmpLevel(r.value.value)
    decreases |ts| - pos, 11
  {
    var left :- ParseAdd(ts, pos);
    var t := Cur(ts, left.pos);
    if t.kind == L.Op then
      var right :- ParseAdd(ts, left.pos + 1);
      Ok(Parsed(Binary(t.lexeme, left.value, right.value), right.pos))
    else Ok(left)
  }

  /** `parse_add`: products folded to the left over `+` and `-`. */
  function ParseAdd(ts: Tokens, pos: nat): (r: Result<Parsed<Expr>, ParseError>)
    requires pos < |ts|
    ensures r.Ok? ==> pos < r.value.pos < |ts|
    ensures r.Ok? && WellFormed(ts) ==> AddLevel(r.value.value)
    decreases |ts| - pos, 10
  {
    var left :- ParseMul(ts, pos);
    AddTail(ts, left.pos, left.value)
  }

  function AddTail(ts: Tokens, pos: nat, left: Expr): (r: Result<Parsed<Expr>, ParseError>)
    requires pos < |ts|
    ensures r.Ok? ==> pos <= r.value.pos < |ts|
    ensures r.Ok? && WellFormed(ts) && AddLevel(left) ==> AddLevel(r.value.value)
    ensures r.Ok? ==> Cur(ts, r.value.pos).kind != L.Plus && Cur(ts, r.value.pos).kind != L.Minus
    decreases |ts| - pos, 10
  {
    var t := Cur(ts, pos);
    if t.kind == L.Plus || t.kind == L.Minus then
      var right :- ParseMul(ts, pos + 1);
      AddTail(ts, right.pos, Binary(t.lexeme, left, right.value))
    else Ok(Parsed(left, pos))
  }

  /** `parse_mul`: unary operands folded to the left over `*` and `/`. */
  function ParseMul(ts: Tokens, pos: nat): (r: Result<Parsed<Expr>, ParseError>)
    requires pos < |ts|
    ensures r.Ok? ==> pos < r.value.pos < |ts|
    ensures r.Ok? && WellFormed(ts) ==> MulLevel(r.value.value)
    decreases |ts| - pos, 9
  {
    var left :- ParseUnary(ts, pos);
    MulTail(ts, left.pos, left.value)
  }

  function MulTail(ts: Tokens, pos: nat, left: Expr): (r: Result<Parsed<Expr>, ParseError>)
    requires pos < |ts|
    ensures r.Ok? ==> pos <= r.value.pos < |ts|
    ensures r.Ok? && WellFormed(ts) && MulLevel(left) ==> MulLevel(r.value.value)
    ensures r.Ok? ==> Cur(ts, r.value.pos).kind != L.Star && Cur(ts, r.value.pos).kind != L.Slash
    decreases |ts| - pos, 9
  {
    var t := Cur(ts, pos);
    if t.kind == L.Star || t.kind == L.Slash then
      var right :- ParseUnary(ts, pos + 1);
      MulTail(ts, right.pos, Binary(t.lexeme, left, right.value))
    else Ok(Parsed(left, pos))
  }

  /** `parse_unary`: any number of prefix minus signs, then a primary. */
  function ParseUnary(ts: Tokens, pos: nat): (r: Result<Parsed<Expr>, ParseError>)
    requires pos < |ts|
    ensures r.Ok? ==> pos < r.value.pos < |ts| && !r.value.value.Binary?
    decreases |ts| - pos, 8
  {
    if Cur(ts, pos).kind == L.Minus then
      var e :- ParseUnary(ts, pos + 1);
      Ok(Parsed(Unary("-", e.value), e.pos))
    else ParsePrimary(ts, pos)
  }

  /** `parse_primary`: literals, variables, identifiers, lists, objects and inline actions. */
  function ParsePrimary(ts: Tokens, pos: nat): (r: Result<Parsed<Expr>, ParseError>)
    requires pos < |ts|
    ensures r.Ok? ==> pos < r.value.pos < |ts| && !r.value.value.Binary? && !r.value.value.Unary?
    decreases |ts| - pos, 7
  {
    var tok := Cur(ts, pos);
    match tok.kind
    case StringLit => Ok(Parsed(Literal("string", JStr(tok.lexeme)), pos + 1))
    case Number => Ok(Parsed(Literal("number", ParseNumber(tok.lexeme)), pos + 1))
    case Color => Ok(Parsed(Literal("color", JStr(tok.lexeme)), pos + 1))
    case Var =>
      var v :- ParseVarRef(ts, pos);
      Ok(Parsed(Var(v.value), v.pos))
    case Ident =>
      if tok.lexeme == "true" || tok.lexeme == "false" then
        Ok(Parsed(Literal("boolean", JBool(tok.lexeme == "true")), pos + 1))
      else Ok(Parsed(Ident(tok.lexeme), pos + 1))
    case LBracket => ParseList(ts, pos)
    case LBrace => ParseObject(ts, pos)
    case Bang =>
      var a :- ParseAction(ts, pos, true);
      Ok(Parsed(ActionExpr(a.value), a.pos))
    case _ => Err(Unexpected(tok.kind, tok.line, tok.col))
  }

  /** `parse_list`: `[`, expressions separated by commas (a trailing one allowed), `]`. */
  function ParseList(ts: Tokens, pos: nat): (r: Result<Parsed<Expr>, ParseError>)
    requires pos < |ts|
    ensures r.Ok? ==> pos < r.value.pos < |ts| && r.value.value.List?
    decreases |ts| - pos, 5
  {
    var open :- Expect(ts, pos, L.LBracket, "Expected '['");
    var items :- ListItems(ts, open.pos, []);
    var close :- Expect(ts, items.pos, L.RBracket, "Expected ']'");
    Ok(Parsed(List(items.value), close.pos))
  }

  function ListItems(ts: Tokens, pos: nat, items: seq<Expr>): (r: Result<Parsed<seq<Expr>>, ParseError>)
    requires pos < |ts|
    ensures r.Ok? ==> pos <= r.value.pos < |ts|
    decreases |ts| - pos, 13
  {
    if Cur(ts, pos).kind == L.RBracket then Ok(Parsed(items, pos))
    else
      var e :- ParseExpr(ts, pos);
      if Cur(ts, e.pos).kind == L.Comma then ListItems(ts, e.pos + 1, items + [e.value])
      else Ok(Parsed(items + [e.value], e.pos))
  }

  /** `parse_object`: `{`, `key = expr` entries separated by commas (a trailing one allowed), `}`. */
  function ParseObject(ts: Tokens, pos: nat): (r: Result<Parsed<Expr>, ParseError>)
    requires pos < |ts|
    ensures r.Ok? ==> pos < r.value.pos < |ts| && r.value.value.Object?
    decreases |ts| - pos, 5
  {
    var open :- Expect(ts, pos, L.LBrace, "Expected '{'");
    var entries :- ObjectEntries(ts, open.pos, []);
    var close :- Expect(ts, entries.pos, L.RBrace, "Expected '}'");
    Ok(Parsed(Object(entries.value), close.pos))
  }

  function ObjectEntries(ts: Tokens, pos: nat, entries: seq<(string, Expr)>): (r: Result<Parsed<seq<(string, Expr)>>, ParseError>)
    requires pos < |ts|
    ensures r.Ok? ==> pos <= r.value.pos < |ts|
    decreases |ts| - pos, 13
  {
    if Cur(ts, pos).kind == L.RBrace then Ok(Parsed(entries, pos))
    else
      var key :- Expect(ts, pos, L.Ident, "Expected key in object");
      var eq :- Expect(ts, key.pos, L.Assign, "Expected '=' after key");
      var e :- ParseExpr(ts, eq.pos);
      var entries' := entries + [(key.value.lexeme, e.value)];
      if Cur(ts, e.pos).kind == L.Comma then ObjectEntries(ts, e.pos + 1, entries')
      else Ok(Parsed(entries', e.pos))
  }

  // -------------------------------------------------------------- actions

  /**
   * `parse_action`: `!name`, then arguments until a line end, a block end
   * marker or a token no argument starts with; a `->` introduces a
   * callback action when `allowCallback` holds, and the callback itself
   * takes none.
   */
  function ParseAction(ts: Tokens, pos: nat, allowCallback: bool): (r: Result<Parsed<Action>, ParseError>)
    requires pos < |ts|
    ensures r.Ok? ==> pos < r.value.pos < |ts|
    ensures r.Ok? ==> ts[pos].kind == L.Bang && r.value.value.name == ts[pos + 1].lexeme
    ensures r.Ok? && !allowCallback ==> r.value.value.callback.None?
    ensures r.Ok? ==> CallbackDepthOne(r.value.value)
    decreases |ts| - pos, 5
  {
    var bang :- Expect(ts, pos, L.Bang, "Expected '!'");
    var name :- Expect(ts, bang.pos, L.Ident, "Expected action name");
    var rest :- ActionArgs(ts, name.pos, allowCallback, []);
    Ok(Parsed(Action(name.value.lexeme, rest.value.0, rest.value.1), rest.pos))
  }

  /** The argument loop of `parse_action`: the arguments, the callback, and where the loop stopped. */
  function ActionArgs(ts: Tokens, pos: nat, allowCallback: bool, args: seq<Arg>)
    : (r: Result<Parsed<(seq<Arg>, Option<Action>)>, ParseError>)
    requires pos < |ts|
    ensures r.Ok? ==> pos <= r.value.pos < |ts|
    ensures r.Ok? && !allowCallback ==> r.value.value.1.None?
    ensures r.Ok? && r.value.value.1.Some? ==> r.value.value.1.value.callback.None?
    ensures r.Ok? && r.value.value.1.None? ==> ArgsStop(ts, r.value.pos, allowCallback)
    ensures r.Ok? ==> |r.value.value.0| >= |args| && r.value.value.0[..|args|] == args
    decreases |ts| - pos, 15
  {
    var k := Cur(ts, pos).kind;
    if allowCallback && k == L.Arrow then
      var cb :- ParseAction(ts, pos + 1, false);
      Ok(Parsed((args, Some(cb.value)), cb.pos))
    else if k == L.Newline || k == L.Eof || IsBlockEndMarker(ts, pos) then
      Ok(Parsed((args, None), pos))
    else
      var arg :- TryParseArg(ts, pos);
      match arg.value
      case None => Ok(Parsed((args, None), pos))
      case Some(a) =>
        var r := ActionArgs(ts, arg.pos, allowCallback, args + [a]);
        if r.Ok? then
          assert r.value.value.0[..|args|] == r.value.value.0[..|args| + 1][..|args|];
          r
        else r
  }

  /**
   * Where an argument list ends without a callback: at a line end, at Eof,
   * at a block end marker, or before a token that starts no argument (an
   * arrow starts a callback only where one is allowed).
   */
  predicate ArgsStop(ts: Tokens, pos: nat, allowCallback: bool)
    requires pos < |ts|
  {
    var k := Cur(ts, pos).kind;
    || k == L.Newline || k == L.Eof || IsBlockEndMarker(ts, pos)
    || (!StartsValue(k) && !(allowCallback && k == L.Arrow))
  }

  /** `is_block_end_marker`: `@loop_end`, `@if_end` or `@else`. */
  predicate IsBlockEndMarker(ts: Tokens, pos: nat)
    requires pos < |ts|
  {
    AtWord(ts, pos, "loop_end") || AtWord(ts, pos, "if_end") || AtWord(ts, pos, "else")
  }

  /** Which tokens can start a value argument. */
  predicate StartsValue(k: L.TokenKind)
  {
    k in {L.StringLit, L.Number, L.Color, L.Var, L.Bang, L.LBracket, L.LBrace, L.Ident, L.Minus}
  }

  /** `try_parse_arg`: `name = expr`, a bare flag name, a value expression, or nothing (cursor unmoved). */
  function TryParseArg(ts: Tokens, pos: nat): (r: Result<Parsed<Option<Arg>>, ParseError>)
    requires pos < |ts|
    ensures r.Ok? && r.value.value.Some? ==> pos < r.value.pos < |ts|
    ensures r.Ok? && r.value.value.None? ==> r.value.pos == pos
    decreases |ts| - pos, 14
  {
    var tok := Cur(ts, pos);
    if tok.kind == L.Ident && Peek(ts, pos, 1).kind == L.Assign then
      var e :- ParseExpr(ts, pos + 2);
      Ok(Parsed(Some(Named(tok.lexeme, e.value)), e.pos))
    else if tok.kind == L.Ident then Ok(Parsed(Some(Flag(tok.lexeme)), pos + 1))
    else if StartsValue(tok.kind) then
      var e :- ParseExpr(ts, pos);
      Ok(Parsed(Some(ValueArg(e.value)), e.pos))
    else Ok(Parsed(None, pos))
  }

  // ----------------------------------------------------------- statements

  /** Where a statement list stops: the ritual's `~ end`, `@loop_end`, `@if_end` or, in a then-branch, also `@else`. */
  datatype BlockEnd = RitualEnd | LoopEnd | IfEnd | ThenEnd

  predicate Stops(ts: Tokens, pos: nat, stop: BlockEnd)
    requires pos < |ts|
  {
    match stop
    case RitualEnd => Cur(ts, pos).kind == L.Tilde && Peek(ts, pos, 1).kind == L.Ident && Peek(ts, pos, 1).lexeme == "end"
    case LoopEnd => AtWord(ts, pos, "loop_end")
    case IfEnd => AtWord(ts, pos, "if_end")
    case ThenEnd => AtWord(ts, pos, "if_end") || AtWord(ts, pos, "else")
  }

  /** A statement loop: statements, each followed by optional newlines, until the stop marker. */
  function ParseBlock(ts: Tokens, pos: nat, stop: BlockEnd, body: seq<Statement>): (r: Result<Parsed<seq<Statement>>, ParseError>)
    requires pos < |ts|
    ensures r.Ok? ==> pos <= r.value.pos && r.value.pos + 2 < |ts| && Stops(ts, r.value.pos, stop)
    ensures r.Ok? ==> |r.value.value| >= |body| && r.value.value[..|body|] == body
    decreases |ts| - pos, 20
  {
    if Stops(ts, pos, stop) then Ok(Parsed(body, pos))
    else
      var s :- ParseStatement(ts, pos);
      var next := SkipNewlines(ts, SkipNewline(ts, s.pos));
      var r := ParseBlock(ts, next, stop, body + [s.value]);
      if r.Ok? then
        assert r.value.value[..|body|] == r.value.value[..|body| + 1][..|body|];
        r
      else r
  }

  /** `parse_statement`: an action after `!`, an assignment after a variable, a block after `@`. */
  function ParseStatement(ts: Tokens, pos: nat): (r: Result<Parsed<Statement>, ParseError>)
    requires pos < |ts|
    ensures r.Ok? ==> pos < r.value.pos < |ts|
    ensures r.Ok? ==> ts[pos].kind in {L.Bang, L.Var, L.At}
    decreases |ts| - pos, 19
  {
    var tok := Cur(ts, pos);
    match tok.kind
    case Bang =>
      var a :- ParseAction(ts, pos, true);
      Ok(Parsed(ActionStmt(a.value), a.pos))
    case Var =>
      var target :- ParseVarRef(ts, pos);
      var eq :- Expect(ts, target.pos, L.Assign, "Expected '=' in assignment");
      var e :- ParseExpr(ts, eq.pos);
      Ok(Parsed(AssignStmt(target.value, e.value), e.pos))
    case At => ParseControl(ts, pos)
    case _ => Err(Unexpected(tok.kind, tok.line, tok.col))
  }

  /** `parse_control`: `@loop` or `@if`; any other keyword is an error at the keyword. */
  function ParseControl(ts: Tokens, pos: nat): (r: Result<Parsed<Statement>, ParseError>)
    requires pos < |ts|
    ensures r.Ok? ==> pos < r.value.pos < |ts|
    ensures r.Ok? ==> ts[pos].kind == L.At
    decreases |ts| - pos, 18
  {
    var at :- Expect(ts, pos, L.At, "Expected '@'");
    var kw :- Expect(ts, at.pos, L.Ident, "Expected control keyword");
    if kw.value.lexeme == "loop" then ParseLoopBody(ts, kw.pos)
    else if kw.value.lexeme == "if" then ParseIfBody(ts, kw.pos)
    else Err(Expected("Unknown control '@" + kw.value.lexeme + "'", kw.value.line, kw.value.col))
  }

  /**
   * `parse_loop_body`: `over $var` or a count, which must be a number
   * literal (a float is truncated), then the body up to `@loop_end`.
   */
  function ParseLoopBody(ts: Tokens, pos: nat): (r: Result<Parsed<Statement>, ParseError>)
    requires pos < |ts|
    ensures r.Ok? ==> pos < r.value.pos < |ts| && r.value.value.LoopStmt?
    ensures r.Ok? ==> (r.value.value.mode == "over" <==> r.value.value.source.Some?)
    ensures r.Ok? ==> (r.value.value.mode == "count" <==> r.value.value.times.Some?)
    decreases |ts| - pos, 17
  {
    var head :- LoopHead(ts, pos);
    var start := SkipNewlines(ts, SkipNewline(ts, head.pos));
    var body :- ParseBlock(ts, start, LoopEnd, []);
    var after := SkipNewline(ts, body.pos + 2);
    var (mode, source, times) := head.value;
    Ok(Parsed(LoopStmt(mode, source, times, body.value), after))
  }

  /** The head of a loop: its mode, the source of `over`, the count of a counted loop. */
  function LoopHead(ts: Tokens, pos: nat): (r: Result<Parsed<(string, Option<VarRef>, Option<int>)>, ParseError>)
    requires pos < |ts|
    ensures r.Ok? ==> pos < r.value.pos < |ts|
    ensures r.Ok? ==>
      || (r.value.value.0 == "over" && r.value.value.1.Some? && r.value.value.2.None?)
      || (r.value.value.0 == "count" && r.value.value.1.None? && r.value.value.2.Some?)
    decreases |ts| - pos, 16
  {
    var tok := Cur(ts, pos);
    if tok.kind == L.Ident && tok.lexeme == "over" then
      var src :- ParseVarRef(ts, pos + 1);
      Ok(Parsed(("over", Some(src.value), None), src.pos))
    else
      var e :- ParseExpr(ts, pos);
      match LoopTimes(e.value)
      case None =>
        var at := Cur(ts, e.pos);
        Err(Expected("Counted loop expects numeric literal", at.line, at.col))
      case Some(n) => Ok(Parsed(("count", None, Some(n)), e.pos))
  }

  /** `parse_if_body`: a condition, the then-branch, an optional `@else` branch, then `@if_end`. */
  function ParseIfBody(ts: Tokens, pos: nat): (r: Result<Parsed<Statement>, ParseError>)
    requires pos < |ts|
    ensures r.Ok? ==> pos < r.value.pos < |ts| && r.value.value.IfStmt?
    ensures r.Ok? && WellFormed(ts) ==> CondLevel(r.value.value.cond)
    decreases |ts| - pos, 17
  {
    var cond :- ParseCondition(ts, pos);
    var start := SkipNewlines(ts, SkipNewline(ts, cond.pos));
    var then_ :- ParseBlock(ts, start, ThenEnd, []);
    if AtWord(ts, then_.pos, "else") then
      var elseStart := SkipNewlines(ts, SkipNewline(ts, then_.pos + 2));
      var else_ :- ParseBlock(ts, elseStart, IfEnd, []);
      Ok(Parsed(IfStmt(cond.value, then_.value, Some(else_.value)), SkipNewline(ts, else_.pos + 2)))
    else
      Ok(Parsed(IfStmt(cond.value, then_.value, None), SkipNewline(ts, then_.pos + 2)))
  }

  /** `parse_condition`: an expression, then optionally one more comparison operator and expression. */
  function ParseCondition(ts: Tokens, pos: nat): (r: Result<Parsed<Expr>, ParseError>)
    requires pos < |ts|
    ensures r.Ok? ==> pos < r.value.pos < |ts|
    ensures r.Ok? && WellFormed(ts) ==> CondLevel(r.value.value)
    decreases |ts| - pos, 13
  {
    var left :- ParseExpr(ts, pos);
    var t := Cur(ts, left.pos);
    if t.kind == L.Op then
      var right :- ParseExpr(ts, left.pos + 1);
      Ok(Parsed(Binary(t.lexeme, left.value, right.value), right.pos))
    else Ok(left)
  }

  // ------------------------------------------------------------- programs

  /** `parse_ritual`: `~ rite Name`, the body, `~ end`. */
  function ParseRitual(ts: Tokens, pos: nat): (r: Result<Parsed<Ritual>, ParseError>)
    requires pos < |ts|
    ensures r.Ok? ==> Opens(ts, pos, r.value)
    decreases |ts| - pos
  {
    var tilde :- Expect(ts, pos, L.Tilde, "Expected '~' to start ritual");
    var rite :- Expect(ts, tilde.pos, L.Ident, "Expected 'rite'");
    if rite.value.lexeme != "rite" then Err(Expected("Expected 'rite' after '~'", rite.value.line, rite.value.col))
    else
      var name :- Expect(ts, rite.pos, L.Ident, "Expected ritual name");
      RitualBody(ts, name.pos, name.value.lexeme)
  }

  /** A parsed ritual that starts with `~ rite Name` at pos, is named Name and ends after pos. */
  predicate Opens(ts: Tokens, pos: nat, r: Parsed<Ritual>)
  {
    && pos < r.pos < |ts|
    && pos + 2 < |ts| && ts[pos].kind == L.Tilde && ts[pos + 1].lexeme == "rite" && r.value.name == ts[pos + 2].lexeme
  }

  /** The rest of `parse_ritual` once the name is read: the body up to `~ end`. */
  function RitualBody(ts: Tokens, pos: nat, name: string): (r: Result<Parsed<Ritual>, ParseError>)
    requires pos < |ts|
    ensures r.Ok? ==> pos < r.value.pos < |ts| && r.value.value.name == name
    decreases |ts| - pos
  {
    var start := SkipNewlines(ts, SkipNewline(ts, pos));
    var body :- ParseBlock(ts, start, RitualEnd, []);
    match ExpectEnd(ts, body.pos)
    case Err(e) => Err(e)
    case Ok(after) => Ok(Parsed(Ritual(name, body.value), after))
  }

  /** The closing `~ end` of a ritual and the optional newline after it. */
  function ExpectEnd(ts: Tokens, pos: nat): (r: Result<nat, ParseError>)
    requires pos < |ts|
    ensures r.Ok? ==> pos < r.value < |ts|
  {
    var close :- Expect(ts, pos, L.Tilde, "Expected '~' to close ritual");
    var end :- Expect(ts, close.pos, L.Ident, "Expected 'end'");
    if end.value.lexeme != "end" then Err(Expected("Expected 'end' after '~'", end.value.line, end.value.col))
    else Ok(SkipNewline(ts, end.pos))
  }

  /**
   * The ritual body loop stops only at `~ end`, so the closing checks
   * after it always pass: the errors "Expected '~' to close ritual",
   * "Expected 'end'" and "Expected 'end' after '~'" are never produced.
   */
  lemma ClosingChecksPass(ts: Tokens, pos: nat)
    requires pos < |ts| && Stops(ts, pos, RitualEnd)
    ensures ExpectEnd(ts, pos).Ok? && ExpectEnd(ts, pos).value >= pos + 2
  {
  }

  /** `parse_program`: rituals separated by blank lines until Eof. */
  function ParseProgram(ts: Tokens): (r: Result<seq<Ritual>, ParseError>)
  {
    Rituals(ts, SkipNewlines(ts, 0))
  }

  function Rituals(ts: Tokens, pos: nat): (r: Result<seq<Ritual>, ParseError>)
    requires pos < |ts|
    ensures Cur(ts, pos).kind == L.Eof ==> r == Ok([])
    decreases |ts| - pos
  {
    if Cur(ts, pos).kind == L.Eof then Ok([])
    else
      var rit :- ParseRitual(ts, pos);
      var rest :- Rituals(ts, SkipNewlines(ts, rit.pos));
      Ok([rit.value] + rest)
  }

  /** `parse`: lex, then parse; a lexing error is wrapped. */
  function Parse(src: string): (r: Result<seq<Ritual>, ParseError>)
    ensures L.Tokenize(src, false).Err? ==> r == Err(Lex(L.Tokenize(src, false).error))
  {
    match L.Tokenize(src, false)
    case Err(e) => Err(Lex(e))
    case Ok(ts) => ParseProgram(ts)
  }

  // ----------------------------------------------------------- properties

  /** The decimal digits of `n`. */
  function ShowNat(n: nat): (s: string)
    ensures |s| > 0 && AllDigits(s)
  {
    if n < 10 then [('0' as int + n) as char] else ShowNat(n / 10) + [('0' as int + n % 10) as char]
  }

  /** The decimal text of `n`, with a minus sign when negative. */
  function ShowInt(n: int): string
  {
    if n < 0 then "-" + ShowNat(-n) else ShowNat(n)
  }

  lemma {:induction false} ShowNatValue(n: nat)
    ensures DigitsValue(ShowNat(n)) == n
  {
    var s := ShowNat(n);
    if n >= 10 {
      ShowNatValue(n / 10);
      assert s[..|s| - 1] == ShowNat(n / 10);
    }
  }

  /** Printing an i64 and reading it back as a number literal gives the same integer. */
  lemma IntLiteralRoundTrip(n: int)
    requires I64Min <= n <= I64Max
    ensures ParseNumber(ShowInt(n)) == JInt(n)
  {
    var s := ShowInt(n);
    if n < 0 {
      ShowNatValue(-n);
      assert s[1..] == ShowNat(-n);
    } else {
      ShowNatValue(n);
    }
  }

  /** The split of a decimal literal is at its first dot, so FloatValue reads the digits either side of it. */
  lemma FloatSplitUnique(body: seq<char>, k: nat)
    requires FloatSplit(body, k)
    ensures k == DotIndex(body)
  {
  }

  /** Every float lexeme splits at its first dot. */
  lemma FloatLexemeSplit(s: seq<char>)
    requires FloatLexeme(s)
    ensures var body := if |s| > 0 && (s[0] == '-' || s[0] == '+') then s[1..] else s;
            FloatSplit(body, DotIndex(body))
  {
    var body := if |s| > 0 && (s[0] == '-' || s[0] == '+') then s[1..] else s;
    var k :| 0 <= k <= |body| && FloatSplit(body, k);
    FloatSplitUnique(body, k);
  }

  /** A counted loop's number literal: `3.7` repeats 3 times and `-2.5` repeats -2 times (truncation toward zero). */
  lemma FloatCountsTruncate()
    ensures LoopTimes(Literal("number", ParseNumber("3.7"))) == Some(3)
    ensures LoopTimes(Literal("number", ParseNumber("-2.5"))) == Some(-2)
  {
    var a := "3.7";
    assert a[..1] == "3" && a[2..] == "7";
    assert DigitsValue("3") == 3 && DigitsValue("7") == 7 && DigitsValue("5") == 5 && DigitsValue("2") == 2;
    assert FloatSplit(a, 1);
    assert !IntLexeme(a) by { assert !L.IsDigit(a[1]); }
    FloatSplitUnique(a, 1);
    assert FloatValue(a) == 3.7;
    assert FloatLexeme(a);
    assert !IntLexeme(a);
    assert ParseNumber(a) == JFloat(3.7);
    assert (3.7).Floor == 3;
    assert F64ToI64(3.7) == 3;
    var b := "-2.5";
    assert b[1..] == "2.5" && b[1..][..1] == "2" && b[1..][2..] == "5";
    assert FloatSplit(b[1..], 1);
    assert !IntLexeme(b) by { assert !L.IsDigit(b[1..][1]); }
    FloatSplitUnique(b[1..], 1);
    assert FloatValue(b) == -2.5;
    assert FloatLexeme(b);
    assert !IntLexeme(b);
    assert ParseNumber(b) == JFloat(-2.5);
    assert (2.5).Floor == 2;
    assert F64ToI64(-2.5) == -2;
  }

  /**
   * A counted loop's head: a number literal gives its count, any other
   * expression is the error "Counted loop expects numeric literal" at the
   * token after it; `over` takes a variable reference.
   */
  lemma LoopHeadCases(ts: Tokens, pos: nat)
    requires pos < |ts|
    ensures var tok := ts[pos];
      var r := LoopHead(ts, pos);
      && (tok.kind == L.Ident && tok.lexeme == "over" ==> r.Ok? == ParseVarRef(ts, pos + 1).Ok?)
      && (!(tok.kind == L.Ident && tok.lexeme == "over") && ParseExpr(ts, pos).Ok? ==>
            var e := ParseExpr(ts, pos).value;
            if LoopTimes(e.value).Some? then r == Ok(Parsed(("count", None, LoopTimes(e.value)), e.pos))
            else r == Err(Expected("Counted loop expects numeric literal", ts[e.pos].line, ts[e.pos].col)))
  {
  }

  /** A statement starts with `!`, a variable or `@`; anything else is an Unexpected error at that token. */
  lemma StatementStart(ts: Tokens, pos: nat)
    requires pos < |ts|
    ensures !(ts[pos].kind in {L.Bang, L.Var, L.At}) ==>
      ParseStatement(ts, pos) == Err(Unexpected(ts[pos].kind, ts[pos].line, ts[pos].col))
  {
  }

  /** A wrong keyword after the opening `~` is reported at the keyword. */
  lemma RiteKeyword(ts: Tokens, pos: nat)
    requires pos + 1 < |ts| && ts[pos].kind == L.Tilde && ts[pos + 1].kind == L.Ident && ts[pos + 1].lexeme != "rite"
    ensures ParseRitual(ts, pos) == Err(Expected("Expected 'rite' after '~'", ts[pos + 1].line, ts[pos + 1].col))
  {
  }

  /** The three kinds of argument: `name = expr` is Named, a bare name a Flag, a value start a value; anything else ends the list. */
  lemma ArgKinds(ts: Tokens, pos: nat)
    requires pos < |ts|
    ensures var tok := ts[pos];
      var r := TryParseArg(ts, pos);
      && (tok.kind == L.Ident && Peek(ts, pos, 1).kind == L.Assign && ParseExpr(ts, pos + 2).Ok? ==>
            r.Ok? && r.value.value == Some(Named(tok.lexeme, ParseExpr(ts, pos + 2).value.value)))
      && (tok.kind == L.Ident && Peek(ts, pos, 1).kind != L.Assign ==> r == Ok(Parsed(Some(Flag(tok.lexeme)), pos + 1)))
      && (tok.kind != L.Ident && StartsValue(tok.kind) && ParseExpr(ts, pos).Ok? ==>
            r.Ok? && r.value.value == Some(ValueArg(ParseExpr(ts, pos).value.value)))
      && (!StartsValue(tok.kind) ==> r == Ok(Parsed(None, pos)))
  {
  }

  /** What `tokenize` produces satisfies the parser's expectations on operator tokens. */
  lemma TokenizeWellFormed(src: string, intended: bool)
    ensures L.Tokenize(src, intended).Ok? ==> WellFormed(L.Tokenize(src, intended).value)
  {
    L.LexOpText(src, 1, 1, [], intended);
  }

  /** Every expression parsed from source text has the precedence shape: one comparison at most over left-folded sums of left-folded products. */
  lemma ParsedExprShape(src: string, intended: bool, pos: nat)
    requires L.Tokenize(src, intended).Ok? && pos < |L.Tokenize(src, intended).value|
    ensures var ts: Tokens := L.Tokenize(src, intended).value;
      ParseExpr(ts, pos).Ok? ==> CmpLevel(ParseExpr(ts, pos).value.value)
  {
    TokenizeWellFormed(src, intended);
  }

  function T(kind: L.TokenKind, lexeme: string): L.Token { L.Token(kind, lexeme, 1, 1) }

  /** `a - b - c` is `(a - b) - c`. */
  lemma SubLeftAssociative()
    ensures ParseExpr([T(L.Ident, "a"), T(L.Minus, "-"), T(L.Ident, "b"), T(L.Minus, "-"), T(L.Ident, "c"), T(L.Eof, "")], 0)
      == Ok(Parsed(Binary("-", Binary("-", Ident("a"), Ident("b")), Ident("c")), 5))
  {
    SubChain([T(L.Ident, "a"), T(L.Minus, "-"), T(L.Ident, "b"), T(L.Minus, "-"), T(L.Ident, "c"), T(L.Eof, "")]);
  }

  lemma SubChain(ts: Tokens)
    requires |ts| == 6 && ts[1].kind == ts[3].kind == L.Minus && ts[1].lexeme == ts[3].lexeme == "-"
    requires ts[0] == T(L.Ident, "a") && ts[2] == T(L.Ident, "b") && ts[4] == T(L.Ident, "c")
    ensures ParseExpr(ts, 0) == Ok(Parsed(Binary("-", Binary("-", Ident("a"), Ident("b")), Ident("c")), 5))
  {
    IdentOperand(ts, 0);
    IdentOperand(ts, 2);
    IdentOperand(ts, 4);
    var ab := Binary("-", Ident("a"), Ident("b"));
    var abc := Binary("-", ab, Ident("c"));
    AddStop(ts, 5, abc);
    AddStep(ts, 3, ab);
    AddStep(ts, 1, Ident("a"));
    assert ParseAdd(ts, 0) == Ok(Parsed(abc, 5));
  }

  /** `a + b * c` is `a + (b * c)`. */
  lemma MulBindsTighter()
    ensures ParseExpr([T(L.Ident, "a"), T(L.Plus, "+"), T(L.Ident, "b"), T(L.Star, "*"), T(L.Ident, "c"), T(L.Eof, "")], 0)
      == Ok(Parsed(Binary("+", Ident("a"), Binary("*", Ident("b"), Ident("c"))), 5))
  {
    var ts: Tokens := [T(L.Ident, "a"), T(L.Plus, "+"), T(L.Ident, "b"), T(L.Star, "*"), T(L.Ident, "c"), T(L.Eof, "")];
    IdentOperand(ts, 0);
    var bc := Binary("*", Ident("b"), Ident("c"));
    ProductBC(ts);
    var abc := Binary("+", Ident("a"), bc);
    AddStop(ts, 5, abc);
    AddStep(ts, 1, Ident("a"));
    assert ParseAdd(ts, 0) == Ok(Parsed(abc, 5));
  }

  lemma ProductBC(ts: Tokens)
    requires ts == [T(L.Ident, "a"), T(L.Plus, "+"), T(L.Ident, "b"), T(L.Star, "*"), T(L.Ident, "c"), T(L.Eof, "")]
    ensures ParseMul(ts, 2) == Ok(Parsed(Binary("*", Ident("b"), Ident("c")), 5))
  {
    var bc := Binary("*", Ident("b"), Ident("c"));
    assert ParseUnary(ts, 2) == Ok(Parsed(Ident("b"), 3));
    assert ParseUnary(ts, 4) == Ok(Parsed(Ident("c"), 5));
    assert MulTail(ts, 5, bc) == Ok(Parsed(bc, 5));
    assert MulTail(ts, 3, Ident("b")) == Ok(Parsed(bc, 5));
  }

  /** A plain identifier not followed by `*` or `/` is a whole product. */
  lemma IdentOperand(ts: Tokens, p: nat)
    requires p + 1 < |ts| && ts[p].kind == L.Ident && ts[p].lexeme != "true" && ts[p].lexeme != "false"
    requires ts[p + 1].kind != L.Star && ts[p + 1].kind != L.Slash
    ensures ParseMul(ts, p) == Ok(Parsed(Ident(ts[p].lexeme), p + 1))
  {
    assert ParseUnary(ts, p) == Ok(Parsed(Ident(ts[p].lexeme), p + 1));
  }

  /** One round of the additive loop: the operator and the next product join the left operand. */
  lemma AddStep(ts: Tokens, p: nat, left: Expr)
    requires p + 1 < |ts| && (ts[p].kind == L.Plus || ts[p].kind == L.Minus) && ParseMul(ts, p + 1).Ok?
    ensures var m := ParseMul(ts, p + 1).value;
            AddTail(ts, p, left) == AddTail(ts, m.pos, Binary(ts[p].lexeme, left, m.value))
  {
  }

  /** The additive loop stops at a token that is neither `+` nor `-`. */
  lemma AddStop(ts: Tokens, p: nat, left: Expr)
    requires p < |ts| && ts[p].kind != L.Plus && ts[p].kind != L.Minus
    ensures AddTail(ts, p, left) == Ok(Parsed(left, p))
  {
  }

  /**
   * A trailing comma in a list changes nothing but the cursor: after an
   * item, both `]` and `, ]` end the list with the same items.
   */
  lemma TrailingComma(ts: Tokens, pos: nat, items: seq<Expr>)
    requires pos < |ts| && ts[pos].kind != L.RBracket && ParseExpr(ts, pos).Ok?
    ensures var e := ParseExpr(ts, pos).value;
      && (ts[e.pos].kind == L.RBracket ==> ListItems(ts, pos, items) == Ok(Parsed(items + [e.value], e.pos)))
      && (ts[e.pos].kind == L.Comma && ts[e.pos + 1].kind == L.RBracket ==>
            ListItems(ts, pos, items) == Ok(Parsed(items + [e.value], e.pos + 1)))
  {
  }

  /** The same for objects: after an entry, both `}` and `, }` end the object with the same entries. */
  lemma TrailingCommaObject(ts: Tokens, pos: nat, entries: seq<(string, Expr)>)
    requires pos + 2 < |ts| && ts[pos].kind == L.Ident && ts[pos + 1].kind == L.Assign && ParseExpr(ts, pos + 2).Ok?
    ensures var e := ParseExpr(ts, pos + 2).value;
      var entries' := entries + [(ts[pos].lexeme, e.value)];
      && (ts[e.pos].kind == L.RBrace ==> ObjectEntries(ts, pos, entries) == Ok(Parsed(entries', e.pos)))
      && (ts[e.pos].kind == L.Comma && ts[e.pos + 1].kind == L.RBrace ==>
            ObjectEntries(ts, pos, entries) == Ok(Parsed(entries', e.pos + 1)))
  {
  }
}
