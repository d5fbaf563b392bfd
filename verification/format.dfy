/**
 * The source formatter of naux-lang (cli/format.rs). The formatter state is
 * the list of lines written so far, each with its indentation level, and
 * the current level; the output text is the rendering of those lines,
 * four spaces per level. Non-integral numbers are rendered by the host's
 * float printer, which is a parameter.
 */
module Format {
  import opened Wrappers
  import opened Ast
  import LangLexer
  import opened Strings

  datatype Line = Line(indent: nat, text: string)

  datatype Formatter = Formatter(lines: seq<Line>, indent: nat)

  // ---------------------------------------------------------------- rendering

  function Spaces(level: nat): (s: string)
    ensures |s| == 4 * level
    ensures forall k :: 0 <= k < |s| ==> s[k] == ' '
  {
    if level == 0 then "" else "    " + Spaces(level - 1)
  }

  /** What `write_line` appends: four spaces per level, the text, a line feed. */
  function RenderLine(l: Line): string
  {
    Spaces(l.indent) + l.text + "\n"
  }

  function Render(lines: seq<Line>): (s: string)
    ensures |lines| > 0 ==> |s| > 0 && s[|s| - 1] == '\n'
  {
    if |lines| == 0 then "" else Render(lines[..|lines| - 1]) + RenderLine(lines[|lines| - 1])
  }

  function WriteLine(f: Formatter, text: string): (r: Formatter)
    ensures r.indent == f.indent && r.lines == f.lines + [Line(f.indent, text)]
  {
    f.(lines := f.lines + [Line(f.indent, text)])
  }

  /** `finish`: the text, with a line feed added unless it already ends with one. */
  function Finish(f: Formatter): (s: string)
    ensures |s| > 0 && s[|s| - 1] == '\n'
    ensures |f.lines| > 0 ==> s == Render(f.lines)
  {
    var out := Render(f.lines);
    if |out| > 0 && out[|out| - 1] == '\n' then out else out + "\n"
  }

  // ---------------------------------------------------------------- expressions

  /** `format_number`: integral values print as `n as i64` (saturating), others through the host. */
  function FormatNumber(n: real, showFloat: real -> string): string
  {
    if n.Floor as real == n then
      IntToString(if n.Floor > 0x7fff_ffff_ffff_ffff then 0x7fff_ffff_ffff_ffff
                  else if n.Floor < -0x8000_0000_0000_0000 then -0x8000_0000_0000_0000
                  else n.Floor)
    else showFloat(n)
  }

  /** `format_binary_op`. */
  function BinaryOpText(op: BinaryOp): string
  {
    match op
    case Add => "+"
    case Sub => "-"
    case Mul => "*"
    case Div => "/"
    case Mod => "%"
    case Eq => "=="
    case Ne => "!="
    case Gt => ">"
    case Ge => ">="
    case Lt => "<"
    case Le => "<="
    case And => "&&"
    case Or => "||"
  }

  /** Different operators print differently, so the operator can be read back from its text. */
  lemma BinaryOpTextInjective(a: BinaryOp, b: BinaryOp)
    ensures BinaryOpText(a) == BinaryOpText(b) <==> a == b
  {
    if BinaryOpText(a) == BinaryOpText(b) {
      var t := BinaryOpText(a);
      assert |t| == |BinaryOpText(b)| && t[0] == BinaryOpText(b)[0];
      assert |t| == 2 ==> t[1] == BinaryOpText(b)[1];
    }
  }

  /** The two-character escape of a character that needs one, if any. */
  function EscapeChar(c: char): string
  {
    match c
    case '\\' => "\\\\"
    case '"' => "\\\""
    case '\n' => "\\n"
    case '\r' => "\\r"
    case '\t' => "\\t"
    case _ => [c]
  }

  /** `escape_string`. */
  function Escape(s: string): string
  {
    if |s| == 0 then "" else EscapeChar(s[0]) + Escape(s[1..])
  }

  /** No raw line feed, carriage return or tab, and every quote follows a backslash. */
  predicate Safe(t: string)
  {
    && (forall k :: 0 <= k < |t| ==> t[k] !in {'\n', '\r', '\t'})
    && (forall k :: 0 <= k < |t| && t[k] == '"' ==> k > 0 && t[k - 1] == '\\')
  }

  /** Escaped text has no raw line feed, carriage return or tab, and every quote follows a backslash. */
  lemma {:induction false} EscapeSafe(s: string)
    ensures forall k :: 0 <= k < |Escape(s)| ==> Escape(s)[k] !in {'\n', '\r', '\t'}
    ensures forall k :: 0 <= k < |Escape(s)| && Escape(s)[k] == '"' ==> k > 0 && Escape(s)[k - 1] == '\\'
  {
    if |s| > 0 {
      EscapeSafe(s[1..]);
      assert Safe(Escape(s[1..]));
      EscapeCharSafe(s[0]);
      SafeConcat(EscapeChar(s[0]), Escape(s[1..]));
      assert Escape(s) == EscapeChar(s[0]) + Escape(s[1..]);
    }
  }

  lemma EscapeCharSafe(c: char)
    ensures Safe(EscapeChar(c))
  {
  }

  /** Joining two safe texts gives a safe text: a quote at the seam follows the left part's last character. */
  lemma SafeConcat(e: string, rest: string)
    requires Safe(e) && Safe(rest)
    ensures Safe(e + rest)
  {
    forall k | 0 <= k < |e + rest| && (e + rest)[k] == '"'
      ensures k > 0 && (e + rest)[k - 1] == '\\'
    {
      if k >= |e| {
        assert rest[k - |e|] == '"';
      }
    }
  }

  /**
   * Text without carriage returns survives a round trip: the lexer's string
   * loop, run on the escaped text followed by a closing quote, gives the
   * text back and stops just after that quote. (A carriage return is written
   * as `\r`, which the lexer reads back as the letter `r`.)
   */
  lemma {:induction false} EscapeRoundTrip(s: string, input: string, j: nat, line: nat, col: nat)
    requires forall k :: 0 <= k < |s| ==> s[k] != '\r'
    requires EscapedAt(s, input, j)
    ensures var r := LangLexer.ScanString(input, j, line, col, false);
            r.content == s && r.next == j + |Escape(s)| + 1
  {
    if |s| == 0 {
      assert input[j] == '"';
    } else {
      var e := EscapeChar(s[0]);
      EscapeCharShape(s[0]);
      EscapedTail(s, input, j);
      if |e| == 2 {
        var line', col' := ScanEscapeStep(input, j, line, col);
        EscapeRoundTrip(s[1..], input, j + 2, line', col');
      } else {
        var line', col' := ScanPlainStep(input, j, line, col);
        EscapeRoundTrip(s[1..], input, j + 1, line', col');
      }
      assert [s[0]] + s[1..] == s;
    }
  }

  /** The input holds the escaped text at j, followed by a closing quote. */
  predicate EscapedAt(s: string, input: string, j: nat)
  {
    QuotedAt(Escape(s), input, j)
  }

  /** The input holds `e` at j, followed by a closing quote. */
  predicate QuotedAt(e: string, input: string, j: nat)
  {
    j + |e| < |input| && input[j..j + |e|] == e && input[j + |e|] == '"'
  }

  /** Escaped text at j starts with its first character's escape, and the rest follows it. */
  lemma EscapedTail(s: string, input: string, j: nat)
    requires |s| > 0 && EscapedAt(s, input, j)
    ensures var e := EscapeChar(s[0]);
            j + |e| <= |input| && input[j..j + |e|] == e && EscapedAt(s[1..], input, j + |e|)
            && |Escape(s)| == |e| + |Escape(s[1..])|
  {
    var e := EscapeChar(s[0]);
    var rest := Escape(s[1..]);
    assert Escape(s) == e + rest;
    SliceSplit(input, j, e, rest);
    var k := j + |e|;
    assert k + |rest| == j + |Escape(s)|;
    assert QuotedAt(rest, input, k);
  }

  /** A slice holding a + b holds a and then b. */
  lemma SliceSplit(input: string, j: nat, a: string, b: string)
    requires j + |a| + |b| <= |input| && input[j..j + |a| + |b|] == a + b
    ensures input[j..j + |a|] == a && input[j + |a|..j + |a| + |b|] == b
  {
    assert input[j..j + |a|] == (a + b)[..|a|];
    assert input[j + |a|..j + |a| + |b|] == (a + b)[|a|..];
  }

  /** A character escapes to itself, or to a backslash and a letter the lexer reads back as it (bar a carriage return). */
  lemma EscapeCharShape(c: char)
    ensures |EscapeChar(c)| == 1 || |EscapeChar(c)| == 2
    ensures |EscapeChar(c)| == 1 ==> EscapeChar(c) == [c] && c != '\\' && c != '"'
    ensures |EscapeChar(c)| == 2 ==> EscapeChar(c)[0] == '\\' && (c != '\r' ==> LangLexer.Unescape(EscapeChar(c)[1]) == c)
  {
  }

  /** The lexer's string loop over a backslash and the character after it. */
  lemma ScanEscapeStep(input: string, j: nat, line: nat, col: nat) returns (line': nat, col': nat)
    requires j + 1 < |input| && input[j] == '\\'
    ensures var r := LangLexer.ScanString(input, j + 2, line', col', false);
            LangLexer.ScanString(input, j, line, col, false) == r.(content := [LangLexer.Unescape(input[j + 1])] + r.content)
  {
    var c2 := input[j + 1];
    line' := if c2 == '\n' then line + 1 else line;
    col' := if c2 == '\n' then 1 else col + 2;
  }

  /** The lexer's string loop over a character that is neither a backslash nor a quote. */
  lemma ScanPlainStep(input: string, j: nat, line: nat, col: nat) returns (line': nat, col': nat)
    requires j < |input| && input[j] != '\\' && input[j] != '"'
    ensures var r := LangLexer.ScanString(input, j + 1, line', col', false);
            LangLexer.ScanString(input, j, line, col, false) == r.(content := [input[j]] + r.content)
  {
    var c := input[j];
    line' := if c == '\n' then line + 1 else line;
    col' := if c == '\n' then 1 else col + 1;
  }

  /** `format_expr`. */
  function FormatExpr(e: Expr, showFloat: real -> string): string
    decreases e
  {
    match e.kind
    case Number(n) => FormatNumber(n, showFloat)
    case Bool(b) => if b then "true" else "false"
    case Text(t) => "\"" + Escape(t) + "\""
    case List(items) =>
      "[" + Join(seq(|items|, i requires 0 <= i < |items| => FormatExpr(items[i], showFloat)), ", ") + "]"
    case Map(entries) =>
      "{ " + Join(seq(|entries|, i requires 0 <= i < |entries| =>
                     "\"" + Escape(entries[i].0) + "\": " + FormatExpr(entries[i].1, showFloat)), ", ") + " }"
    case Var(name) => "$" + name
    case Call(callee, args) =>
      FormatExpr(callee, showFloat) + "("
        + Join(seq(|args|, i requires 0 <= i < |args| => FormatExpr(args[i], showFloat)), ", ") + ")"
    case Binary(op, left, right) =>
      FormatExpr(left, showFloat) + " " + BinaryOpText(op) + " " + FormatExpr(right, showFloat)
    case Unary(op, operand) =>
      (if op == Neg then "-" else "!") + FormatExpr(operand, showFloat)
    case Index(target, index) =>
      FormatExpr(target, showFloat) + "[" + FormatExpr(index, showFloat) + "]"
    case Field(obj, field) => FormatExpr(obj, showFloat) + "." + field
  }

  /** `format_action`. */
  function FormatAction(a: ActionKind, showFloat: real -> string): string
  {
    match a
    case Say(v) => "!say " + FormatExpr(v, showFloat)
    case Ask(v) => "!ask " + FormatExpr(v, showFloat)
    case Fetch(v) => "!fetch " + FormatExpr(v, showFloat)
    case Ui(kind, props) =>
      if |props| == 0 then "!ui " + kind
      else
        "!ui " + kind + " { "
          + Join(seq(|props|, i requires 0 <= i < |props| =>
                   props[i].0 + ": " + FormatExpr(props[i].1, showFloat)), ", ")
          + " }"
    case TextAction(v) => "!text " + FormatExpr(v, showFloat)
    case Button(v) => "!button " + FormatExpr(v, showFloat)
    case Log(v) => "!log " + FormatExpr(v, showFloat)
  }

  // ---------------------------------------------------------------- statements

  predicate IsBlockStmt(s: Stmt)
  {
    s.Rite? || s.Unsafe? || s.FnDef? || s.If? || s.Loop? || s.Each? || s.While?
  }

  /** The header line of a block statement. */
  function Header(s: Stmt, showFloat: real -> string): string
    requires IsBlockStmt(s)
  {
    match s
    case Rite(_, _) => "~ rite"
    case Unsafe(_, _) => "~ unsafe"
    case FnDef(name, params, _, _) =>
      "~ fn " + name + "(" + Join(seq(|params|, i requires 0 <= i < |params| => "$" + params[i]), ", ") + ")"
    case If(cond, _, _, _) => "~ if " + FormatExpr(cond, showFloat)
    case Loop(count, _, _) => "~ loop " + FormatExpr(count, showFloat)
    case Each(v, iter, _, _) => "~ each $" + v + " in " + FormatExpr(iter, showFloat)
    case While(cond, _, _) => "~ while " + FormatExpr(cond, showFloat)
  }

  /** A block nested one level deeper: `indent += 1`, the statements, `indent -= 1`. */
  function Nested(f: Formatter, b: seq<Stmt>, showFloat: real -> string): (r: Formatter)
    decreases b, 1
    ensures r.indent == f.indent
  {
    var inner := FormatBlock(f.(indent := f.indent + 1), b, showFloat);
    inner.(indent := inner.indent - 1)
  }

  /** `format_stmt`. */
  function FormatStmt(f: Formatter, s: Stmt, showFloat: real -> string): (r: Formatter)
    decreases s, 2
    ensures r.indent == f.indent
  {
    match s
    case Rite(body, _) => WriteLine(Nested(WriteLine(f, "~ rite"), body, showFloat), "~ end")
    case Unsafe(body, _) => WriteLine(Nested(WriteLine(f, "~ unsafe"), body, showFloat), "~ end")
    case FnDef(_, _, body, _) => WriteLine(Nested(WriteLine(f, Header(s, showFloat)), body, showFloat), "~ end")
    case Assign(name, expr, _) => WriteLine(f, "$" + name + " = " + FormatExpr(expr, showFloat))
    case If(cond, thenBlock, elseBlock, _) =>
      var afterThen := Nested(WriteLine(f, Header(s, showFloat)), thenBlock, showFloat);
      var afterElse :=
        if |elseBlock| > 0 then Nested(WriteLine(afterThen, "~ else"), elseBlock, showFloat)
        else afterThen;
      WriteLine(afterElse, "~ end")
    case Loop(_, body, _) => WriteLine(Nested(WriteLine(f, Header(s, showFloat)), body, showFloat), "~ end")
    case Each(_, _, body, _) => WriteLine(Nested(WriteLine(f, Header(s, showFloat)), body, showFloat), "~ end")
    case While(_, body, _) => WriteLine(Nested(WriteLine(f, Header(s, showFloat)), body, showFloat), "~ end")
    case Action(action, _) => WriteLine(f, FormatAction(action, showFloat))
    case Return(value, _) =>
      if value.Some? then WriteLine(f, "^ " + FormatExpr(value.value, showFloat)) else WriteLine(f, "^")
    case Import(m, _) => WriteLine(f, "~ import \"" + m + "\"")
  }

  function FormatBlock(f: Formatter, b: seq<Stmt>, showFloat: real -> string): (r: Formatter)
    decreases b, 0
    ensures r.indent == f.indent
  {
    if |b| == 0 then f
    else FormatBlock(FormatStmt(f, b[0], showFloat), b[1..], showFloat)
  }

  /** `format_stmts`: every statement from a fresh formatter at level 0, then `finish`. */
  function FormatStmts(stmts: seq<Stmt>, showFloat: real -> string): (out: string)
    ensures |out| > 0 && out[|out| - 1] == '\n'
  {
    Finish(FormatBlock(Formatter([], 0), stmts, showFloat))
  }

  // ---------------------------------------------------------------- layout

  predicate AllAtLeast(lines: seq<Line>, d: nat)
  {
    forall k :: 0 <= k < |lines| ==> lines[k].indent >= d
  }

  /**
   * The lines a statement writes at level `d`, as a layout independent of
   * the formatter state: a block statement is its header, its body one
   * level deeper, and `~ end`; an if adds `~ else` and the else-block only
   * when that block is non-empty.
   */
  function StmtLines(s: Stmt, d: nat, showFloat: real -> string): (r: seq<Line>)
    decreases s, 1
    ensures |r| >= 1 && AllAtLeast(r, d)
    ensures IsBlockStmt(s) ==> r[0] == Line(d, Header(s, showFloat)) && r[|r| - 1] == Line(d, "~ end")
  {
    match s
    case If(_, t, e, _) =>
      [Line(d, Header(s, showFloat))] + BlockLines(t, d + 1, showFloat)
        + (if |e| > 0 then [Line(d, "~ else")] + BlockLines(e, d + 1, showFloat) else [])
        + [Line(d, "~ end")]
    case Rite(body, _) => [Line(d, Header(s, showFloat))] + BlockLines(body, d + 1, showFloat) + [Line(d, "~ end")]
    case Unsafe(body, _) => [Line(d, Header(s, showFloat))] + BlockLines(body, d + 1, showFloat) + [Line(d, "~ end")]
    case FnDef(_, _, body, _) => [Line(d, Header(s, showFloat))] + BlockLines(body, d + 1, showFloat) + [Line(d, "~ end")]
    case Loop(_, body, _) => [Line(d, Header(s, showFloat))] + BlockLines(body, d + 1, showFloat) + [Line(d, "~ end")]
    case Each(_, _, body, _) => [Line(d, Header(s, showFloat))] + BlockLines(body, d + 1, showFloat) + [Line(d, "~ end")]
    case While(_, body, _) => [Line(d, Header(s, showFloat))] + BlockLines(body, d + 1, showFloat) + [Line(d, "~ end")]
    case Assign(name, expr, _) => [Line(d, "$" + name + " = " + FormatExpr(expr, showFloat))]
    case Action(action, _) => [Line(d, FormatAction(action, showFloat))]
    case Return(value, _) =>
      [Line(d, if value.Some? then "^ " + FormatExpr(value.value, showFloat) else "^")]
    case Import(m, _) => [Line(d, "~ import \"" + m + "\"")]
  }

  function BlockLines(b: seq<Stmt>, d: nat, showFloat: real -> string): (r: seq<Line>)
    decreases b, 0
    ensures AllAtLeast(r, d)
  {
    if |b| == 0 then [] else StmtLines(b[0], d, showFloat) + BlockLines(b[1..], d, showFloat)
  }

  /**
   * The formatter appends exactly the layout lines at its current level
   * and finishes at the level it started from: every `indent += 1` is
   * undone by its `indent -= 1`.
   */
  lemma {:induction false} FormatStmtLayout(f: Formatter, s: Stmt, showFloat: real -> string)
    ensures FormatStmt(f, s, showFloat) == Formatter(f.lines + StmtLines(s, f.indent, showFloat), f.indent)
    decreases s, 3
  {
    match s
    case If(_, t, e, _) => IfLayout(f, s, showFloat);
    case Rite(body, _) => WrappedLayout(f, s, body, showFloat);
    case Unsafe(body, _) => WrappedLayout(f, s, body, showFloat);
    case FnDef(_, _, body, _) => WrappedLayout(f, s, body, showFloat);
    case Loop(_, body, _) => WrappedLayout(f, s, body, showFloat);
    case Each(_, _, body, _) => WrappedLayout(f, s, body, showFloat);
    case While(_, body, _) => WrappedLayout(f, s, body, showFloat);
    case _ =>
  }

  /** A header, a body one level deeper, and `~ end`. */
  lemma {:induction false} WrappedLayout(f: Formatter, s: Stmt, body: seq<Stmt>, showFloat: real -> string)
    requires IsBlockStmt(s) && !s.If? && body == s.body
    ensures WriteLine(Nested(WriteLine(f, Header(s, showFloat)), body, showFloat), "~ end")
      == Formatter(f.lines + StmtLines(s, f.indent, showFloat), f.indent)
    decreases s, 2
  {
    NestedLayout(WriteLine(f, Header(s, showFloat)), body, showFloat);
    WrappedLines(f.lines, s, f.indent, body, showFloat);
  }

  /** The layout of a block statement other than if, appended after earlier lines. */
  lemma WrappedLines(pre: seq<Line>, s: Stmt, d: nat, body: seq<Stmt>, showFloat: real -> string)
    requires IsBlockStmt(s) && !s.If? && body == s.body
    ensures pre + [Line(d, Header(s, showFloat))] + BlockLines(body, d + 1, showFloat) + [Line(d, "~ end")]
      == pre + StmtLines(s, d, showFloat)
  {
    assert StmtLines(s, d, showFloat)
      == [Line(d, Header(s, showFloat))] + BlockLines(body, d + 1, showFloat) + [Line(d, "~ end")];
  }

  lemma {:induction false} IfLayout(f: Formatter, s: Stmt, showFloat: real -> string)
    requires s.If?
    ensures FormatStmt(f, s, showFloat) == Formatter(f.lines + StmtLines(s, f.indent, showFloat), f.indent)
    decreases s, 2
  {
    var d := f.indent;
    var h := WriteLine(f, Header(s, showFloat));
    NestedLayout(h, s.thenBlock, showFloat);
    var afterThen := Nested(h, s.thenBlock, showFloat);
    var tl := BlockLines(s.thenBlock, d + 1, showFloat);
    var el := if |s.elseBlock| > 0 then [Line(d, "~ else")] + BlockLines(s.elseBlock, d + 1, showFloat) else [];
    assert afterThen.lines == f.lines + [Line(d, Header(s, showFloat))] + tl;
    if |s.elseBlock| > 0 {
      NestedLayout(WriteLine(afterThen, "~ else"), s.elseBlock, showFloat);
    }
    var afterElse := if |s.elseBlock| > 0 then Nested(WriteLine(afterThen, "~ else"), s.elseBlock, showFloat) else afterThen;
    assert afterElse.lines == f.lines + [Line(d, Header(s, showFloat))] + tl + el;
    assert afterElse.indent == d;
    var r := FormatStmt(f, s, showFloat);
    assert r == WriteLine(afterElse, "~ end");
    IfLinesShape(s, d, showFloat);
    var hd := [Line(d, Header(s, showFloat))];
    var ed := [Line(d, "~ end")];
    var layout := StmtLines(s, d, showFloat);
    assert layout == hd + tl + el + ed;
    assert r.lines == f.lines + hd + tl + el + ed;
    SeqAssoc4(f.lines, hd, tl, el, ed);
  }

  lemma SeqAssoc4<T>(a: seq<T>, b: seq<T>, c: seq<T>, d: seq<T>, e: seq<T>)
    ensures a + b + c + d + e == a + (b + c + d + e)
  {
  }

  lemma IfLinesShape(s: Stmt, d: nat, showFloat: real -> string)
    requires s.If?
    ensures StmtLines(s, d, showFloat)
      == [Line(d, Header(s, showFloat))] + BlockLines(s.thenBlock, d + 1, showFloat)
         + (if |s.elseBlock| > 0 then [Line(d, "~ else")] + BlockLines(s.elseBlock, d + 1, showFloat) else [])
         + [Line(d, "~ end")]
  {
  }

  lemma {:induction false} NestedLayout(f: Formatter, b: seq<Stmt>, showFloat: real -> string)
    ensures Nested(f, b, showFloat) == Formatter(f.lines + BlockLines(b, f.indent + 1, showFloat), f.indent)
    decreases b, 1
  {
    FormatBlockLayout(f.(indent := f.indent + 1), b, showFloat);
  }

  lemma {:induction false} FormatBlockLayout(f: Formatter, b: seq<Stmt>, showFloat: real -> string)
    ensures FormatBlock(f, b, showFloat) == Formatter(f.lines + BlockLines(b, f.indent, showFloat), f.indent)
    decreases b, 0
  {
    if |b| > 0 {
      FormatStmtLayout(f, b[0], showFloat);
      var f1 := FormatStmt(f, b[0], showFloat);
      FormatBlockLayout(f1, b[1..], showFloat);
      assert f1.lines + BlockLines(b[1..], f.indent, showFloat)
        == f.lines + BlockLines(b, f.indent, showFloat);
    }
  }

  /** The lines written at exactly level `d`. */
  function AtLevel(lines: seq<Line>, d: nat): (r: seq<string>)
    ensures |r| <= |lines|
  {
    if |lines| == 0 then []
    else (if lines[0].indent == d then [lines[0].text] else []) + AtLevel(lines[1..], d)
  }

  lemma {:induction false} AtLevelAppend(a: seq<Line>, b: seq<Line>, d: nat)
    ensures AtLevel(a + b, d) == AtLevel(a, d) + AtLevel(b, d)
  {
    if |a| > 0 {
      assert (a + b)[1..] == a[1..] + b;
      AtLevelAppend(a[1..], b, d);
    } else {
      assert a + b == b;
    }
  }

  lemma {:induction false} AtLevelDeeper(lines: seq<Line>, d: nat)
    requires AllAtLeast(lines, d + 1)
    ensures AtLevel(lines, d) == []
  {
    if |lines| > 0 {
      AtLevelDeeper(lines[1..], d);
    }
  }

  /**
   * At the if's own level an if writes its header, then `~ else` exactly
   * when the else-block is non-empty, then `~ end`; everything else it
   * writes is deeper.
   */
  lemma IfLines(cond: Expr, t: seq<Stmt>, e: seq<Stmt>, span: Option<Span>, d: nat, showFloat: real -> string)
    ensures var s := If(cond, t, e, span);
      AtLevel(StmtLines(s, d, showFloat), d)
        == (if |e| > 0 then [Header(s, showFloat), "~ else", "~ end"] else [Header(s, showFloat), "~ end"])
  {
    var s := If(cond, t, e, span);
    var hd := [Line(d, Header(s, showFloat))];
    var tl := BlockLines(t, d + 1, showFloat);
    var el := if |e| > 0 then [Line(d, "~ else")] + BlockLines(e, d + 1, showFloat) else [];
    var ed := [Line(d, "~ end")];
    assert StmtLines(s, d, showFloat) == hd + tl + el + ed;
    AtLevelAppend(hd + tl + el, ed, d);
    AtLevelAppend(hd + tl, el, d);
    AtLevelAppend(hd, tl, d);
    AtLevelDeeper(tl, d);
    if |e| > 0 {
      AtLevelAppend([Line(d, "~ else")], BlockLines(e, d + 1, showFloat), d);
      AtLevelDeeper(BlockLines(e, d + 1, showFloat), d);
    }
  }

  /** A return prints `^`, or `^ ` and the expression, as one line at the current level. */
  lemma ReturnLine(f: Formatter, value: Option<Expr>, span: Option<Span>, showFloat: real -> string)
    ensures var r := FormatStmt(f, Return(value, span), showFloat);
      && |r.lines| == |f.lines| + 1
      && Render(r.lines) == Render(f.lines)
           + RenderLine(Line(f.indent, if value.Some? then "^ " + FormatExpr(value.value, showFloat) else "^"))
  {
    var text := if value.Some? then "^ " + FormatExpr(value.value, showFloat) else "^";
    var r := FormatStmt(f, Return(value, span), showFloat);
    assert r.lines == f.lines + [Line(f.indent, text)];
    RenderSnoc(f.lines, Line(f.indent, text));
  }

  lemma RenderSnoc(lines: seq<Line>, l: Line)
    ensures Render(lines + [l]) == Render(lines) + RenderLine(l)
  {
    assert (lines + [l])[..|lines|] == lines;
  }

  /** An empty program formats as a single line feed; otherwise the text is exactly the rendered lines. */
  lemma FormatStmtsText(stmts: seq<Stmt>, showFloat: real -> string)
    ensures |stmts| == 0 ==> FormatStmts(stmts, showFloat) == "\n"
    ensures |stmts| > 0 ==> FormatStmts(stmts, showFloat) == Render(BlockLines(stmts, 0, showFloat))
  {
    if |stmts| == 0 {
      EmptyProgramText(showFloat);
    } else {
      ProgramText(stmts, showFloat);
    }
  }

  lemma EmptyProgramText(showFloat: real -> string)
    ensures FormatStmts([], showFloat) == "\n"
  {
    assert FormatBlock(Formatter([], 0), [], showFloat).lines == [];
  }

  lemma ProgramText(stmts: seq<Stmt>, showFloat: real -> string)
    requires |stmts| > 0
    ensures FormatStmts(stmts, showFloat) == Render(BlockLines(stmts, 0, showFloat))
  {
    var lines := BlockLines(stmts, 0, showFloat);
    FormatBlockLayout(Formatter([], 0), stmts, showFloat);
    assert [] + lines == lines;
    assert FormatBlock(Formatter([], 0), stmts, showFloat).lines == lines;
    assert |lines| > 0;
  }
}
