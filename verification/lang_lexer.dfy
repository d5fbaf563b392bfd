/**
 * The naux-lang lexer (lexer.rs): turns source text into tokens with
 * one-based line/column spans, or fails with the first lexical error.
 *
 * The lexer is modelled as a function of the remaining input and the current
 * line and column; `Lex` starts it at line 1, column 1.
 */
module LangLexer {
  import opened Wrappers
  import opened LangToken

  // ---------------------------------------------------------------------
  // Character classes
  // ---------------------------------------------------------------------

  predicate IsAsciiDigit(c: char) { '0' <= c <= '9' }

  predicate IsAsciiAlpha(c: char) { 'a' <= c <= 'z' || 'A' <= c <= 'Z' }

  /** `is_ident_start`: an ASCII letter or underscore. */
  predicate IsIdentStart(c: char) { IsAsciiAlpha(c) || c == '_' }

  /** `is_ident_part`: an ASCII letter, digit or underscore. */
  predicate IsIdentPart(c: char) { IsAsciiAlpha(c) || IsAsciiDigit(c) || c == '_' }

  /** Unicode White_Space, as tested by Rust's `char::is_whitespace`. */
  predicate IsWhitespace(c: char)
  {
    var n := c as int;
    n == 0x20 || (0x09 <= n <= 0x0D) || n == 0x85 || n == 0xA0 || n == 0x1680
    || (0x2000 <= n <= 0x200A) || n == 0x2028 || n == 0x2029 || n == 0x202F
    || n == 0x205F || n == 0x3000
  }

  /** A character that may continue a number literal. */
  predicate IsNumberPart(c: char) { IsAsciiDigit(c) || c == '.' }

  /** The symbols the lexer turns into a token on their own. */
  function SingleSymbol(c: char): Option<TokenKind>
  {
    match c
    case '~' => Some(Tilde)
    case '!' => Some(Bang)
    case '$' => Some(Dollar)
    case '=' => Some(Assign)
    case '.' => Some(Dot)
    case ',' => Some(Comma)
    case '(' => Some(LParen)
    case ')' => Some(RParen)
    case '{' => Some(LBrace)
    case '}' => Some(RBrace)
    case '[' => Some(LBracket)
    case ']' => Some(RBracket)
    case _ => None
  }

  // ---------------------------------------------------------------------
  // Keywords and identifiers
  // ---------------------------------------------------------------------

  const Keywords: set<string> := {"if", "else", "rite", "loop", "each", "while", "end", "in"}

  /** `keyword_or_ident`. */
  function KeywordOrIdent(s: string): TokenKind
  {
    match s
    case "if" => If
    case "else" => Else
    case "rite" => Rite
    case "loop" => Loop
    case "each" => Each
    case "while" => While
    case "end" => End
    case "in" => In
    case _ => Ident(s)
  }

  /** The keyword tokens, as a set of kinds. */
  predicate IsKeywordKind(k: TokenKind)
  {
    k.If? || k.Else? || k.Rite? || k.Loop? || k.Each? || k.While? || k.End? || k.In?
  }

  /** Exactly the eight keywords become keyword tokens; every other word is `Ident` of itself. */
  lemma KeywordOrIdentSpec(s: string)
    ensures s in Keywords <==> IsKeywordKind(KeywordOrIdent(s))
    ensures s !in Keywords <==> KeywordOrIdent(s) == Ident(s)
  {
  }

  /** Distinct keywords give distinct tokens. */
  lemma KeywordOrIdentInjective(s: string, t: string)
    requires KeywordOrIdent(s) == KeywordOrIdent(t)
    ensures s == t
  {
  }

  /** A word of the identifier language `[A-Za-z_][A-Za-z0-9_]*`. */
  predicate IsIdentifier(s: string)
  {
    |s| > 0 && IsIdentStart(s[0]) && forall k :: 1 <= k < |s| ==> IsIdentPart(s[k])
  }

  // ---------------------------------------------------------------------
  // Scanning helpers
  // ---------------------------------------------------------------------

  /** The end of the longest run of characters satisfying `p` that starts at `j`. */
  function RunEnd(s: string, j: nat, p: char -> bool): (k: nat)
    requires j <= |s|
    ensures j <= k <= |s|
    ensures forall m :: j <= m < k ==> p(s[m])
    ensures k == |s| || !p(s[k])
    decreases |s| - j
  {
    if j == |s| || !p(s[j]) then j else RunEnd(s, j + 1, p)
  }

  /** Decoding of the character after a backslash inside a string literal. */
  function Unescape(c: char): char
  {
    match c
    case 'n' => '\n'
    case 't' => '\t'
    case '"' => '"'
    case '\\' => '\\'
    case other => other
  }

  /** What the string-literal loop has produced when it stops. */
  datatype StrScan = StrScan(content: string, next: nat, line: nat, col: nat)

  /**
   * The string-literal loop: reads from `j` (just after the opening quote)
   * up to and including the closing quote, or to the end of the input when
   * the literal is not terminated.  `esc` is set right after a backslash.
   */
  function ScanString(input: string, j: nat, line: nat, col: nat, esc: bool): (r: StrScan)
    requires j <= |input|
    ensures j <= r.next <= |input|
    decreases |input| - j
  {
    if j == |input| then StrScan([], j, line, col)
    else
      var c := input[j];
      var line' := if c == '\n' then line + 1 else line;
      var col' := if c == '\n' then 1 else col + 1;
      if esc then
        var rest := ScanString(input, j + 1, line', col', false);
        rest.(content := [Unescape(c)] + rest.content)
      else if c == '\\' then
        ScanString(input, j + 1, line', col', true)
      else if c == '"' then
        StrScan([], j + 1, line, col)
      else
        var rest := ScanString(input, j + 1, line', col', false);
        rest.(content := [c] + rest.content)
  }

  // ---------------------------------------------------------------------
  // Number literals
  // ---------------------------------------------------------------------

  function DigitValue(c: char): nat
    requires IsAsciiDigit(c)
  {
    (c as int - '0' as int) as nat
  }

  /** The value of a string of decimal digits (0 for the empty string). */
  function DigitsValue(s: string): nat
    requires forall k :: 0 <= k < |s| ==> IsAsciiDigit(s[k])
  {
    if |s| == 0 then 0 else DigitsValue(s[..|s| - 1]) * 10 + DigitValue(s[|s| - 1])
  }

  function Pow10(n: nat): (r: nat)
    ensures r >= 1
  {
    if n == 0 then 1 else 10 * Pow10(n - 1)
  }

  function CountChar(s: string, c: char): (n: nat)
    ensures n <= |s|
  {
    if |s| == 0 then 0 else CountChar(s[..|s| - 1], c) + (if s[|s| - 1] == c then 1 else 0)
  }

  predicate AllDigits(s: string) { forall k :: 0 <= k < |s| ==> IsAsciiDigit(s[k]) }

  /** A run as the lexer collects it: digits and dots, the first one a digit. */
  predicate IsUnsignedRun(s: string)
  {
    |s| > 0 && IsAsciiDigit(s[0]) && forall k :: 0 <= k < |s| ==> IsNumberPart(s[k])
  }

  /** An optional minus sign followed by an unsigned run. */
  predicate IsNumberRun(s: string)
  {
    IsUnsignedRun(s) || (|s| > 0 && s[0] == '-' && IsUnsignedRun(s[1..]))
  }

  /** Index of the first '.' in `s`, or |s| when there is none. */
  function DotIndex(s: string): (k: nat)
    ensures k <= |s|
    ensures forall m :: 0 <= m < k ==> s[m] != '.'
    ensures k < |s| ==> s[k] == '.'
  {
    if |s| == 0 then 0 else if s[0] == '.' then 0 else 1 + DotIndex(s[1..])
  }

  /**
   * `str::parse::<f64>` on the digit-and-dot runs the lexer hands it:
   * `digits` or `digits.digits*`, with an optional leading minus; a second
   * dot makes the parse fail.  The value is the exact decimal value.
   */
  function ParseNumberRun(s: string): Option<real>
  {
    if |s| > 0 && s[0] == '-' then
      match ParseUnsigned(s[1..])
      case None => None
      case Some(v) => Some(-v)
    else ParseUnsigned(s)
  }

  function ParseUnsigned(s: string): Option<real>
  {
    var d := DotIndex(s);
    var whole := s[..d];
    var frac := if d < |s| then s[d + 1..] else [];
    if |whole| == 0 || !AllDigits(whole) || !AllDigits(frac) then None
    else Some(DigitsValue(whole) as real + DigitsValue(frac) as real / Pow10(|frac|) as real)
  }

  lemma CountCharSplit(a: string, b: string, c: char)
    ensures CountChar(a + b, c) == CountChar(a, c) + CountChar(b, c)
    decreases |b|
  {
    if |b| == 0 {
      assert a + b == a;
    } else {
      assert (a + b)[..|a + b| - 1] == a + b[..|b| - 1];
      CountCharSplit(a, b[..|b| - 1], c);
    }
  }

  lemma CountCharZero(s: string, c: char)
    ensures CountChar(s, c) == 0 <==> forall k :: 0 <= k < |s| ==> s[k] != c
    decreases |s|
  {
    if |s| > 0 {
      CountCharZero(s[..|s| - 1], c);
      assert forall k :: 0 <= k < |s| - 1 ==> s[..|s| - 1][k] == s[k];
    }
  }

  /** An unsigned run parses exactly when it has at most one dot. */
  lemma {:induction false} ParseUnsignedSpec(s: string)
    requires IsUnsignedRun(s)
    ensures ParseUnsigned(s).Some? <==> CountChar(s, '.') <= 1
  {
    var d := DotIndex(s);
    assert d > 0;
    CountCharSplit(s[..d], s[d..], '.');
    assert s == s[..d] + s[d..];
    CountCharZero(s[..d], '.');
    assert AllDigits(s[..d]);
    if d < |s| {
      var frac := s[d + 1..];
      assert s[d..] == ['.'] + frac;
      CountCharSplit(['.'], frac, '.');
      assert CountChar(['.'], '.') == 1 by {
        assert ['.'][..0] == [];
      }
      CountCharZero(frac, '.');
      assert AllDigits(frac) <==> forall k :: 0 <= k < |frac| ==> frac[k] != '.';
    } else {
      assert s[d..] == [];
    }
  }

  /** A number run (optionally signed) parses exactly when it has at most one dot. */
  lemma ParseNumberRunSpec(s: string)
    requires IsNumberRun(s)
    ensures ParseNumberRun(s).Some? <==> CountChar(s, '.') <= 1
  {
    if |s| > 0 && s[0] == '-' {
      ParseUnsignedSpec(s[1..]);
      assert s == ['-'] + s[1..];
      CountCharSplit(['-'], s[1..], '.');
      assert CountChar(['-'], '.') == 0 by {
        assert ['-'][..0] == [];
      }
    } else {
      ParseUnsignedSpec(s);
    }
  }

  // ---------------------------------------------------------------------
  // The lexer
  // ---------------------------------------------------------------------

  function Prepend(t: Token, r: Result<seq<Token>, LexError>): Result<seq<Token>, LexError>
  {
    match r
    case Ok(ts) => Ok([t] + ts)
    case Err(e) => Err(e)
  }

  /** A number literal starts here: a digit, or '-' directly followed by a digit. */
  predicate StartsNumber(input: string, i: nat)
    requires i < |input|
  {
    IsAsciiDigit(input[i]) || (input[i] == '-' && i + 1 < |input| && IsAsciiDigit(input[i + 1]))
  }

  /**
   * One iteration of the lexer's main loop at position `i`: the token it
   * pushes (none for white space other than a line feed), where scanning
   * resumes, and the cursor there.
   */
  datatype Step = Step(tok: Option<Token>, next: nat, line: nat, col: nat)

  function LexStep(input: string, i: nat, line: nat, col: nat): (r: Result<Step, LexError>)
    requires i < |input|
    ensures r.Ok? ==> i < r.value.next <= |input|
  {
    var ch := input[i];
    var span := Span(line, col);
    if ch == '\n' then
      Ok(Step(Some(Token(Newline, Span(line + 1, 1))), i + 1, line + 1, 1))
    else if IsWhitespace(ch) then
      Ok(Step(None, i + 1, line, col + 1))
    else if SingleSymbol(ch).Some? then
      Ok(Step(Some(Token(SingleSymbol(ch).value, span)), i + 1, line, col + 1))
    else if ch == '-' && i + 1 < |input| && input[i + 1] == '>' then
      Ok(Step(Some(Token(Arrow, span)), i + 2, line, col + 2))
    else if ch == '"' then
      var s := ScanString(input, i + 1, line, col + 1, false);
      Ok(Step(Some(Token(StringLit(s.content), span)), s.next, s.line, s.col + 1))
    else if StartsNumber(input, i) then
      var j := RunEnd(input, i + 1, IsNumberPart);
      match ParseNumberRun(input[i..j])
      case None => Err(LexError("Invalid number", span))
      case Some(v) => Ok(Step(Some(Token(Number(v), span)), j, line, col + (j - i)))
    else if IsIdentStart(ch) then
      var j := RunEnd(input, i + 1, IsIdentPart);
      Ok(Step(Some(Token(KeywordOrIdent(input[i..j]), span)), j, line, col + (j - i)))
    else
      Err(LexError("Unexpected character '" + [ch] + "'", span))
  }

  /** `lex`, from position `i` with the cursor at (`line`, `col`). */
  function LexFrom(input: string, i: nat, line: nat, col: nat): Result<seq<Token>, LexError>
    requires i <= |input|
    decreases |input| - i
  {
    if i == |input| then Ok([Token(Eof, Span(line, col))])
    else
      match LexStep(input, i, line, col)
      case Err(e) => Err(e)
      case Ok(st) =>
        var rest := LexFrom(input, st.next, st.line, st.col);
        if st.tok.Some? then Prepend(st.tok.value, rest) else rest
  }

  /** `lex`: tokens of the whole input, ending with `Eof`. */
  function Lex(input: string): Result<seq<Token>, LexError>
  {
    LexFrom(input, 0, 1, 1)
  }

  // ---------------------------------------------------------------------
  // Properties
  // ---------------------------------------------------------------------

  predicate EndsWithSingleEof(ts: seq<Token>)
  {
    |ts| > 0 && ts[|ts| - 1].kind == Eof && forall k :: 0 <= k < |ts| - 1 ==> ts[k].kind != Eof
  }

  /** The tokens pushed by one loop iteration: never Eof, and identifiers are well formed. */
  lemma StepToken(input: string, i: nat, line: nat, col: nat)
    requires i < |input|
    requires LexStep(input, i, line, col).Ok? && LexStep(input, i, line, col).value.tok.Some?
    ensures var t := LexStep(input, i, line, col).value.tok.value;
      t.kind != Eof
      && (t.kind.Ident? ==> IsIdentifier(t.kind.name) && t.kind.name !in Keywords)
      && (t.kind == Newline <==> input[i] == '\n')
      && (t.kind == Newline ==> t.span.column == 1)
  {
    var ch := input[i];
    if !IsWhitespace(ch) && SingleSymbol(ch).None? && ch != '-' && ch != '"'
      && !StartsNumber(input, i) && IsIdentStart(ch)
    {
      var j := RunEnd(input, i + 1, IsIdentPart);
      assert IsIdentifier(input[i..j]);
      KeywordOrIdentSpec(input[i..j]);
    }
  }

  /** A successful lex ends with exactly one Eof token, and it is the last. */
  lemma {:induction false} LexFromEndsWithEof(input: string, i: nat, line: nat, col: nat)
    requires i <= |input|
    requires LexFrom(input, i, line, col).Ok?
    ensures EndsWithSingleEof(LexFrom(input, i, line, col).value)
    decreases |input| - i
  {
    if i < |input| {
      var st := LexStep(input, i, line, col).value;
      LexFromEndsWithEof(input, st.next, st.line, st.col);
      if st.tok.Some? {
        StepToken(input, i, line, col);
      }
    }
  }

  lemma LexEndsWithEof(input: string)
    requires Lex(input).Ok?
    ensures EndsWithSingleEof(Lex(input).value)
  {
    LexFromEndsWithEof(input, 0, 1, 1);
  }

  /** Every identifier token is a word of `[A-Za-z_][A-Za-z0-9_]*` that is not a keyword. */
  lemma {:induction false} LexFromIdentifiers(input: string, i: nat, line: nat, col: nat)
    requires i <= |input|
    requires LexFrom(input, i, line, col).Ok?
    ensures forall t :: t in LexFrom(input, i, line, col).value && t.kind.Ident? ==>
      IsIdentifier(t.kind.name) && t.kind.name !in Keywords
    decreases |input| - i
  {
    if i < |input| {
      var st := LexStep(input, i, line, col).value;
      LexFromIdentifiers(input, st.next, st.line, st.col);
      if st.tok.Some? {
        StepToken(input, i, line, col);
      }
    }
  }

  function CountNewlines(ts: seq<Token>): nat
  {
    if |ts| == 0 then 0 else (if ts[0].kind == Newline then 1 else 0) + CountNewlines(ts[1..])
  }

  function CountIn(s: string, c: char): nat
  {
    if |s| == 0 then 0 else (if s[0] == c then 1 else 0) + CountIn(s[1..], c)
  }

  /** A stretch without line feeds contributes no line feeds. */
  lemma {:induction false} NoFeedBetween(s: string, j: nat, k: nat)
    requires j <= k <= |s|
    requires forall m :: j <= m < k ==> s[m] != '\n'
    ensures CountIn(s[j..], '\n') == CountIn(s[k..], '\n')
    decreases k - j
  {
    if j < k {
      assert s[j..] == [s[j]] + s[j + 1..];
      NoFeedBetween(s, j + 1, k);
    }
  }

  /** Outside line feeds and string literals, a loop iteration stays on its line. */
  lemma StepKeepsLine(input: string, i: nat, line: nat, col: nat)
    requires i < |input| && input[i] != '\n' && input[i] != '"'
    requires LexStep(input, i, line, col).Ok?
    ensures LexStep(input, i, line, col).value.line == line
    ensures forall m :: i <= m < LexStep(input, i, line, col).value.next ==> input[m] != '\n'
  {
  }

  /**
   * Outside string literals, each line feed emits exactly one Newline token,
   * at column 1 of the new line: for input without string literals, the
   * number of Newline tokens equals the number of line feeds, and the final
   * Eof sits on line `line` plus that count.
   */
  lemma {:induction false} LexFromNewlines(input: string, i: nat, line: nat, col: nat)
    requires i <= |input|
    requires forall k :: i <= k < |input| ==> input[k] != '"'
    requires LexFrom(input, i, line, col).Ok?
    ensures NewlinesCounted(input, i, line, col)
    decreases |input| - i
  {
    if i < |input| {
      var st := LexStep(input, i, line, col).value;
      LexFromNewlines(input, st.next, st.line, st.col);
      NewlinesStep(input, i, line, col);
    }
  }

  /** The conclusion of `LexFromNewlines` for the tokens lexed from `i`. */
  predicate NewlinesCounted(input: string, i: nat, line: nat, col: nat)
    requires i <= |input| && LexFrom(input, i, line, col).Ok?
  {
    var ts := LexFrom(input, i, line, col).value;
    CountNewlines(ts) == CountIn(input[i..], '\n')
    && |ts| > 0 && ts[|ts| - 1].span.line == line + CountIn(input[i..], '\n')
    && forall t :: t in ts && t.kind == Newline ==> t.span.column == 1
  }

  /** One loop iteration carries the count from the rest of the input back to `i`. */
  lemma NewlinesStep(input: string, i: nat, line: nat, col: nat)
    requires i < |input| && input[i] != '"'
    requires forall k :: i < k < |input| ==> input[k] != '"'
    requires LexFrom(input, i, line, col).Ok?
    requires var st := LexStep(input, i, line, col).value; NewlinesCounted(input, st.next, st.line, st.col)
    ensures NewlinesCounted(input, i, line, col)
  {
    var st := LexStep(input, i, line, col).value;
    var rest := LexFrom(input, st.next, st.line, st.col).value;
    var ts := LexFrom(input, i, line, col).value;
    if st.tok.Some? {
      StepToken(input, i, line, col);
      assert ts == [st.tok.value] + rest && ts[1..] == rest;
    }
    if input[i] == '\n' {
      assert input[i..] == [input[i]] + input[i + 1..];
    } else {
      StepKeepsLine(input, i, line, col);
      NoFeedBetween(input, i, st.next);
    }
  }

  /** `-` followed by `>` is an Arrow token at the minus sign. */
  lemma LexArrow(input: string, i: nat, line: nat, col: nat)
    requires i + 1 < |input| && input[i] == '-' && input[i + 1] == '>'
    requires LexFrom(input, i, line, col).Ok?
    ensures LexFrom(input, i, line, col).value[0] == Token(Arrow, Span(line, col))
  {
  }

  /** `-` followed by a digit starts a number literal, whose value is not positive. */
  lemma LexNegativeNumber(input: string, i: nat, line: nat, col: nat)
    requires i + 1 < |input| && input[i] == '-' && IsAsciiDigit(input[i + 1])
    requires LexFrom(input, i, line, col).Ok?
    ensures var t := LexFrom(input, i, line, col).value[0];
      t.span == Span(line, col) && t.kind.Number? && t.kind.num <= 0.0
  {
    NumberStep(input, i, line, col);
    var j := RunEnd(input, i + 1, IsNumberPart);
    var run := input[i..j];
    assert run[0] == '-';
    UnsignedNotNegative(run[1..]);
  }

  /** At the start of a number literal the loop scans the whole run and parses it. */
  lemma NumberStep(input: string, i: nat, line: nat, col: nat)
    requires i < |input| && StartsNumber(input, i)
    ensures var j := RunEnd(input, i + 1, IsNumberPart);
      && (ParseNumberRun(input[i..j]).None? ==> LexStep(input, i, line, col) == Err(LexError("Invalid number", Span(line, col))))
      && (ParseNumberRun(input[i..j]).Some? ==>
            LexStep(input, i, line, col)
            == Ok(Step(Some(Token(Number(ParseNumberRun(input[i..j]).value), Span(line, col))), j, line, col + (j - i))))
  {
    NotSymbol(input[i]);
    assert !(input[i] == '-' && i + 1 < |input| && input[i + 1] == '>');
  }

  /** A digit or a minus sign is neither white space, nor a symbol token, nor a quote. */
  lemma NotSymbol(c: char)
    requires IsAsciiDigit(c) || c == '-'
    ensures c != '\n' && !IsWhitespace(c) && SingleSymbol(c).None? && c != '"'
  {
  }

  lemma UnsignedNotNegative(s: string)
    ensures ParseUnsigned(s).Some? ==> ParseUnsigned(s).value >= 0.0
  {
  }

  /** Any other `-` is a lexical error at its own span. */
  lemma LexLoneMinus(input: string, i: nat, line: nat, col: nat)
    requires i < |input| && input[i] == '-'
    requires i + 1 == |input| || (input[i + 1] != '>' && !IsAsciiDigit(input[i + 1]))
    ensures LexFrom(input, i, line, col) == Err(LexError("Unexpected character '-'", Span(line, col)))
  {
    assert "Unexpected character '" + ['-'] + "'" == "Unexpected character '-'";
  }

  /** A number run with two or more dots is rejected with "Invalid number" at its start. */
  lemma LexInvalidNumber(input: string, i: nat, line: nat, col: nat)
    requires i < |input| && StartsNumber(input, i)
    requires CountChar(input[i..RunEnd(input, i + 1, IsNumberPart)], '.') >= 2
    ensures LexFrom(input, i, line, col) == Err(LexError("Invalid number", Span(line, col)))
  {
    var j := RunEnd(input, i + 1, IsNumberPart);
    var s := input[i..j];
    assert IsNumberRun(s) by {
      if input[i] == '-' {
        assert s[1..] == input[i + 1..j];
      }
    }
    ParseNumberRunSpec(s);
    NumberStep(input, i, line, col);
  }

  /**
   * The characters the lexer has no rule for: anything that is not white
   * space, one of `~ ! $ = . , ( ) { } [ ]`, a quote, a digit, an identifier
   * start or a minus sign.  Among them are `+ * / < > ^ % & | : ;`.
   */
  predicate Unhandled(c: char)
  {
    !IsWhitespace(c) && c !in "~!$=.,(){}[]\"-" && !IsAsciiDigit(c) && !IsIdentStart(c)
  }

  lemma OperatorsUnhandled()
    ensures Unhandled('+') && Unhandled('*') && Unhandled('/') && Unhandled('<')
    ensures Unhandled('>') && Unhandled('^') && Unhandled('%')
  {
    ArithmeticUnhandled();
    ComparisonUnhandled();
  }

  lemma ArithmeticUnhandled()
    ensures Unhandled('+') && Unhandled('*') && Unhandled('/') && Unhandled('%')
  {
  }

  lemma ComparisonUnhandled()
    ensures Unhandled('<') && Unhandled('>') && Unhandled('^')
  {
  }

  /** An unhandled character is an "Unexpected character" error at its own span. */
  lemma LexUnexpected(input: string, i: nat, line: nat, col: nat)
    requires i < |input| && Unhandled(input[i])
    ensures LexFrom(input, i, line, col)
      == Err(LexError("Unexpected character '" + [input[i]] + "'", Span(line, col)))
  {
  }

  /** Whitespace before a token only moves the column. */
  lemma LexSkipsBlanks(input: string, i: nat, line: nat, col: nat)
    requires i < |input| && IsWhitespace(input[i]) && input[i] != '\n'
    ensures LexFrom(input, i, line, col) == LexFrom(input, i + 1, line, col + 1)
  {
  }

  /** A string literal without a closing quote is not an error: it runs to the end of input. */
  lemma {:induction false} ScanStringUnterminated(input: string, j: nat, line: nat, col: nat, esc: bool)
    requires j <= |input|
    requires forall k :: j <= k < |input| ==> input[k] != '"'
    ensures ScanString(input, j, line, col, esc).next == |input|
    decreases |input| - j
  {
    if j < |input| {
      var c := input[j];
      var line' := if c == '\n' then line + 1 else line;
      var col' := if c == '\n' then 1 else col + 1;
      if esc {
        ScanStringUnterminated(input, j + 1, line', col', false);
      } else if c == '\\' {
        ScanStringUnterminated(input, j + 1, line', col', true);
      } else {
        ScanStringUnterminated(input, j + 1, line', col', false);
      }
    }
  }

  lemma LexUnterminatedString(input: string, i: nat, line: nat, col: nat)
    requires i < |input| && input[i] == '"'
    requires forall k :: i < k < |input| ==> input[k] != '"'
    ensures LexFrom(input, i, line, col).Ok?
    ensures |LexFrom(input, i, line, col).value| == 2
    ensures LexFrom(input, i, line, col).value[0].kind.StringLit?
    ensures LexFrom(input, i, line, col).value[1].kind == Eof
  {
    ScanStringUnterminated(input, i + 1, line, col + 1, false);
  }

  /**
   * The escape rules: after a backslash, `n`, `t`, `"` and `\` decode to
   * line feed, tab, quote and backslash, and any other character decodes to
   * itself; no escape is an error.
   */
  lemma UnescapeSpec(c: char)
    ensures c == 'n' ==> Unescape(c) == '\n'
    ensures c == 't' ==> Unescape(c) == '\t'
    ensures c == '"' ==> Unescape(c) == '"'
    ensures c == '\\' ==> Unescape(c) == '\\'
    ensures c !in "nt\"\\" ==> Unescape(c) == c
  {
  }

  lemma ExampleLex()
    ensures Lex("~ rite\n").Ok?
    ensures Lex("~ rite\n").value == [Token(Tilde, Span(1, 1)), Token(Rite, Span(1, 3)),
                                     Token(Newline, Span(2, 1)), Token(Eof, Span(2, 1))]
  {
    var s := "~ rite\n";
    var eof := Token(Eof, Span(2, 1));
    var nl := Token(Newline, Span(2, 1));
    assert LexFrom(s, 7, 2, 1) == Ok([eof]);
    assert s[6] == '\n' && |s| == 7;
    assert LexStep(s, 6, 1, 7) == Ok(Step(Some(nl), 7, 2, 1));
    assert LexFrom(s, 6, 1, 7).value == [nl] + [eof];
    assert RunEnd(s, 3, IsIdentPart) == 6;
    assert s[2..6] == "rite";
    assert LexStep(s, 2, 1, 3) == Ok(Step(Some(Token(Rite, Span(1, 3))), 6, 1, 7));
    assert LexFrom(s, 2, 1, 3).value == [Token(Rite, Span(1, 3))] + [nl, eof];
    assert s[1] == ' ' && IsWhitespace(s[1]);
    assert LexFrom(s, 1, 1, 2) == LexFrom(s, 2, 1, 3);
    assert s[0] == '~';
  }
}
