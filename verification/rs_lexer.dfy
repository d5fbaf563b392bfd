/**
 * The lexer of the older naux-rs crate (src/lexer.rs): ritual punctuation,
 * comparison operators, colour literals, `#` comments, escaped strings,
 * numbers with an optional sign, `$variables` and identifiers, each token
 * stamped with the line and column where it starts.
 *
 * The source is a Rust `&str`: it walks it char by char but measures and
 * slices it in bytes. The model keeps the text as a sequence of chars and
 * computes UTF-8 lengths where the source slices by byte offset
 * (`match_color`, modelled as written by `MatchColor`, where a slice that
 * would split a char is the host panic `ColorPanic`). The tokenizer takes
 * a flag: as written it uses `MatchColor`, and a panic ends the run with
 * `SlicePanic`; `intended` switches to the corrected `MatchColorIntended`.
 */
module RsLexer {
  import opened Wrappers

  datatype TokenKind =
    | Tilde | Bang | At | Dollar | Caret | Colon | Assign | Arrow | Dot
    | LBracket | RBracket | LBrace | RBrace | Comma
    | Plus | Minus | Star | Slash
    | Ident | Var | StringLit | Number | Color
    | Op      // == != >= <= > <
    | Newline | Eof

  datatype Token = Token(kind: TokenKind, lexeme: string, line: nat, col: nat)

  datatype LexError =
    | UnexpectedChar(ch: char, line: nat, col: nat)
    | UnterminatedString(line: nat, col: nat)
    | SlicePanic(line: nat, col: nat)   // the host panics slicing inside a char

  predicate IsDigit(c: char) { '0' <= c <= '9' }
  predicate IsHex(c: char) { IsDigit(c) || 'a' <= c <= 'f' || 'A' <= c <= 'F' }
  predicate IsAlpha(c: char) { 'a' <= c <= 'z' || 'A' <= c <= 'Z' }
  predicate IsIdentStart(c: char) { IsAlpha(c) || c == '_' }
  predicate IsIdentPart(c: char) { IsAlpha(c) || IsDigit(c) || c == '_' }

  predicate AllHex(s: seq<char>) { forall i :: 0 <= i < |s| ==> IsHex(s[i]) }

  // ------------------------------------------------------------ positions

  /** `advance_char`: a newline starts the next line at column 1, any other char moves one column right. */
  function AdvanceChar(pos: (nat, nat), c: char): (nat, nat)
  {
    if c == '\n' then (pos.0 + 1, 1) else (pos.0, pos.1 + 1)
  }

  function Advance(pos: (nat, nat), cs: seq<char>): (nat, nat)
    decreases |cs|
  {
    if |cs| == 0 then pos else Advance(AdvanceChar(pos, cs[0]), cs[1..])
  }

  function CountNewlines(cs: seq<char>): nat
  {
    if |cs| == 0 then 0 else (if cs[0] == '\n' then 1 else 0) + CountNewlines(cs[1..])
  }

  lemma {:induction false} CountNewlinesAppend(a: seq<char>, b: seq<char>)
    ensures CountNewlines(a + b) == CountNewlines(a) + CountNewlines(b)
  {
    if |a| > 0 {
      assert (a + b)[0] == a[0];
      assert (a + b)[1..] == a[1..] + b;
      CountNewlinesAppend(a[1..], b);
    } else {
      assert a + b == b;
    }
  }

  /**
   * Where a run of chars leaves the cursor: the line goes up by the number
   * of newlines; without one the column moves by the run's length, and
   * otherwise it restarts after the last newline.
   */
  lemma {:induction false} AdvanceCounts(pos: (nat, nat), cs: seq<char>)
    ensures Advance(pos, cs).0 == pos.0 + CountNewlines(cs)
    ensures CountNewlines(cs) == 0 ==> Advance(pos, cs).1 == pos.1 + |cs|
    ensures |cs| > 0 && cs[|cs| - 1] == '\n' ==> Advance(pos, cs).1 == 1
    ensures Advance(pos, cs).1 >= 1 || (cs == [] && pos.1 == 0)
    decreases |cs|
  {
    if |cs| > 0 {
      AdvanceCounts(AdvanceChar(pos, cs[0]), cs[1..]);
      if |cs| > 1 {
        assert cs[1..][|cs[1..]| - 1] == cs[|cs| - 1];
      }
    }
  }

  // -------------------------------------------------------------- colours

  /** The number of bytes `c` takes in UTF-8. */
  function Utf8Len(c: char): (n: nat)
    ensures 1 <= n <= 4 && (n == 1 <==> c as int < 0x80)
  {
    if c as int < 0x80 then 1 else if c as int < 0x800 then 2 else if c as int < 0x1_0000 then 3 else 4
  }

  /** `str::len`, the length in bytes. */
  function ByteLen(s: seq<char>): nat
  {
    if |s| == 0 then 0 else Utf8Len(s[0]) + ByteLen(s[1..])
  }

  /** How many leading chars of `s` take exactly `k` bytes; None when byte `k` falls inside a char. */
  function CharsIn(s: seq<char>, k: nat): (r: Option<nat>)
    ensures r.Some? ==> r.value <= |s| && r.value <= k && ByteLen(s[..r.value]) == k
    ensures k <= ByteLen(s) && (forall i :: 0 <= i < |s| && i < k ==> Utf8Len(s[i]) == 1) ==> r == Some(k)
  {
    if k == 0 then Some(0)
    else if |s| == 0 || Utf8Len(s[0]) > k then None
    else match CharsIn(s[1..], k - Utf8Len(s[0]))
      case None => None
      case Some(n) =>
        assert s[..n + 1][1..] == s[1..][..n];
        Some(n + 1)
  }

  datatype ColorMatch = NoColor | ColorLen(len: nat) | ColorPanic

  /**
   * `match_color`: `#` and three hex digits give length 4; failing that,
   * `#` and six hex digits give length 7. Both tests slice by byte, which
   * panics when the slice end splits a char.
   */
  function MatchColor(s: seq<char>): ColorMatch
  {
    if ByteLen(s) >= 4 && |s| > 0 && s[0] == '#' then
      match CharsIn(s, 4)
      case None => ColorPanic
      case Some(n) => if 1 <= n && AllHex(s[1..n]) then ColorLen(4) else MatchSix(s)
    else MatchSix(s)
  }

  function MatchSix(s: seq<char>): ColorMatch
  {
    if ByteLen(s) >= 7 && |s| > 0 && s[0] == '#' then
      match CharsIn(s, 7)
      case None => ColorPanic
      case Some(n) => if 1 <= n && AllHex(s[1..n]) then ColorLen(7) else NoColor
    else NoColor
  }

  lemma {:induction false} ByteLenAtLeast(s: seq<char>)
    ensures ByteLen(s) >= |s|
  {
    if |s| > 0 {
      ByteLenAtLeast(s[1..]);
    }
  }

  lemma {:induction false} AsciiByteLen(s: seq<char>)
    requires forall i :: 0 <= i < |s| ==> Utf8Len(s[i]) == 1
    ensures ByteLen(s) == |s|
  {
    if |s| > 0 {
      AsciiByteLen(s[1..]);
    }
  }

  lemma {:induction false} ByteLenSplit(s: seq<char>, n: nat)
    requires n <= |s|
    ensures ByteLen(s) == ByteLen(s[..n]) + ByteLen(s[n..])
  {
    if n > 0 {
      assert s[..n][1..] == s[1..][..n - 1];
      assert s[n..] == s[1..][n - 1..];
      ByteLenSplit(s[1..], n - 1);
    }
  }

  /** A colour match is always a `#` followed by three hex digits: a seven-byte colour is never matched. */
  lemma MatchColorShape(s: seq<char>)
    ensures MatchColor(s).ColorLen? ==> MatchColor(s) == ColorLen(4) && 4 <= |s| && s[0] == '#' && AllHex(s[1..4])
    ensures MatchColor(s) != ColorLen(7)
  {
    if ByteLen(s) >= 4 && |s| > 0 && s[0] == '#' {
      var n := CharsIn(s, 4);
      if n.Some? && 1 <= n.value && AllHex(s[1..n.value]) {
        assert n.value == 4 by {
          assert forall i :: 0 <= i < n.value ==> Utf8Len(s[..n.value][i]) == 1 by {
            forall i | 0 <= i < n.value
              ensures Utf8Len(s[..n.value][i]) == 1
            {
              if i > 0 {
                assert s[..n.value][i] == s[1..n.value][i - 1];
              }
            }
          }
          AsciiByteLen(s[..n.value]);
        }
      } else if n.Some? {
        SixNotAfterThree(s, n.value);
      }
    } else if |s| > 0 && s[0] == '#' && ByteLen(s) >= 7 {
      assert false;
    }
  }

  /** A `#` followed by hex digits is all ASCII, so its char count is its byte count. */
  lemma HexRunAscii(s: seq<char>, m: nat)
    requires 1 <= m <= |s| && s[0] == '#' && AllHex(s[1..m])
    ensures forall i :: 0 <= i < m ==> Utf8Len(s[i]) == 1
    ensures ByteLen(s[..m]) == m
  {
    forall i | 0 <= i < m
      ensures Utf8Len(s[i]) == 1
    {
      if i > 0 {
        assert s[i] == s[1..m][i - 1];
      }
    }
    assert forall i :: 0 <= i < m ==> s[..m][i] == s[i];
    AsciiByteLen(s[..m]);
  }

  /** A six-digit colour after `#` also passes the three-digit test. */
  lemma SixPassesThree(s: seq<char>, m: nat)
    requires |s| > 0 && s[0] == '#' && CharsIn(s, 7) == Some(m) && 1 <= m && AllHex(s[1..m])
    ensures m == 7 && CharsIn(s, 4) == Some(4) && AllHex(s[1..4])
  {
    HexRunAscii(s, m);
    ByteLenSplit(s, m);
    assert forall i :: 0 <= i < 3 ==> s[1..4][i] == s[1..m][i];
  }

  /** When the three-digit test ran and failed, the six-digit test cannot pass. */
  lemma SixNotAfterThree(s: seq<char>, n: nat)
    requires |s| > 0 && s[0] == '#' && CharsIn(s, 4) == Some(n) && !(1 <= n && AllHex(s[1..n]))
    ensures MatchSix(s) != ColorLen(7)
  {
    if ByteLen(s) >= 7 {
      var m := CharsIn(s, 7);
      if m.Some? && 1 <= m.value && AllHex(s[1..m.value]) {
        SixPassesThree(s, m.value);
      }
    }
  }

  // ------------------------------------------------------------- scanning

  /** The index of the first newline at or after `i`, or the end: a comment runs up to it. */
  function LineEnd(s: seq<char>, i: nat): (j: nat)
    requires i <= |s|
    ensures i <= j <= |s| && (j < |s| ==> s[j] == '\n')
    ensures forall k :: i <= k < j ==> s[k] != '\n'
    decreases |s| - i
  {
    if i == |s| || s[i] == '\n' then i else LineEnd(s, i + 1)
  }

  /** `read_ident`: the end of the run of letters, digits and underscores starting at `i`. */
  function IdentEnd(s: seq<char>, i: nat): (j: nat)
    requires i <= |s|
    ensures i <= j <= |s| && (j < |s| ==> !IsIdentPart(s[j]))
    ensures forall k :: i <= k < j ==> IsIdentPart(s[k])
    decreases |s| - i
  {
    if i < |s| && IsIdentPart(s[i]) then IdentEnd(s, i + 1) else i
  }

  /** The digits and at most one dot that follow the first char of a number. */
  function NumberEnd(s: seq<char>, i: nat, hasDot: bool): (j: nat)
    requires i <= |s|
    ensures i <= j <= |s|
    decreases |s| - i
  {
    if i < |s| && IsDigit(s[i]) then NumberEnd(s, i + 1, hasDot)
    else if i < |s| && s[i] == '.' && !hasDot then NumberEnd(s, i + 1, true)
    else i
  }

  /** The escape `\c` stands for this char. */
  function Unescape(c: char): char
  {
    match c
    case 'n' => '\n'
    case 't' => '\t'
    case _ => c
  }

  /**
   * The body of a string literal from index `i`: the decoded text and the
   * index of the closing quote, or None when the input ends first. A
   * backslash takes the next char as an escape; a trailing backslash is
   * kept as it is.
   */
  function ScanString(s: seq<char>, i: nat, buf: string): (r: Option<(string, nat)>)
    requires i <= |s|
    ensures r.Some? ==> i <= r.value.1 < |s| && s[r.value.1] == '"'
    decreases |s| - i
  {
    if i == |s| then None
    else if s[i] == '"' then Some((buf, i))
    else if s[i] == '\\' && i + 1 < |s| then ScanString(s, i + 2, buf + [Unescape(s[i + 1])])
    else ScanString(s, i + 1, buf + [s[i]])
  }

  function SingleKind(c: char): Option<TokenKind>
  {
    match c
    case '~' => Some(Tilde)
    case '!' => Some(Bang)
    case '@' => Some(At)
    case '$' => Some(Dollar)
    case '^' => Some(Caret)
    case ':' => Some(Colon)
    case '=' => Some(Assign)
    case '.' => Some(Dot)
    case '[' => Some(LBracket)
    case ']' => Some(RBracket)
    case '{' => Some(LBrace)
    case '}' => Some(RBrace)
    case ',' => Some(Comma)
    case '+' => Some(Plus)
    case '-' => Some(Minus)
    case '*' => Some(Star)
    case '/' => Some(Slash)
    case _ => None
  }

  predicate StartsWith(s: seq<char>, p: seq<char>) { |p| <= |s| && s[..|p|] == p }

  predicate IsTwoCharOp(s: seq<char>)
  {
    StartsWith(s, "==") || StartsWith(s, "!=") || StartsWith(s, ">=") || StartsWith(s, "<=")
  }

  /**
   * One pass of the `tokenize` loop: skip `n` chars, emit a token of
   * `kind` spanning `n` chars, or fail. The caller stamps tokens and
   * errors with the position where the pass started.
   */
  datatype StepOut =
    | Skip(n: nat)
    | Emit(kind: TokenKind, lexeme: string, n: nat)
    | Unexpected(c: char)
    | Unterminated
    | Panic

  /**
   * The body of the `tokenize` loop on the remaining input, in the
   * source's order of tests. The source's second colour test, for a
   * colour not starting with `#`, can never succeed (see `MatchColorHash`)
   * and is omitted.
   */
  function Step(rest: seq<char>, intended: bool): (o: StepOut)
    requires |rest| > 0
    ensures (o.Skip? || o.Emit?) ==> 1 <= o.n <= |rest|
    ensures o.Emit? ==> o.kind != Eof
  {
    var c := rest[0];
    if c == ' ' || c == '\t' || c == '\r' then Skip(1)
    else if c == '\n' then Emit(Newline, "\n", 1)
    else if StartsWith(rest, "->") then Emit(Arrow, "->", 2)
    else if IsTwoCharOp(rest) then Emit(Op, rest[..2], 2)
    else if c == '>' || c == '<' then Emit(Op, [c], 1)
    else if c == '#' then
      if StartsWith(rest, "#>") then Skip(LineEnd(rest, 0))
      else
        match ColorAt(rest, intended)
        case ColorPanic => Panic
        case ColorLen(len) => Emit(Color, rest[..len], len)
        case NoColor => Skip(LineEnd(rest, 0))
    else if c == '"' then
      match ScanString(rest, 1, [])
      case None => Unterminated
      case Some((buf, close)) => Emit(StringLit, buf, close + 1)
    else if IsDigit(c) || (c == '-' && |rest| > 1 && IsDigit(rest[1])) then
      var j := NumberEnd(rest, 1, false);
      Emit(Number, rest[..j], j)
    else if c == '$' && |rest| > 1 && IsIdentStart(rest[1]) then
      var j := IdentEnd(rest, 1);
      Emit(Var, rest[1..j], j)
    else if IsIdentStart(c) then
      var j := IdentEnd(rest, 0);
      Emit(Ident, rest[..j], j)
    else match SingleKind(c)
      case Some(k) => Emit(k, [c], 1)
      case None => Unexpected(c)
  }

  /** The colour matcher the tokenizer uses: as written, or the corrected one. */
  function ColorAt(rest: seq<char>, intended: bool): (m: ColorMatch)
    ensures m.ColorLen? ==> m.len == 4 || m.len == 7
    ensures m.ColorLen? ==> m.len <= |rest|
  {
    MatchColorShape(rest);
    if intended then MatchColorIntended(rest) else MatchColor(rest)
  }

  /** Only input starting with `#` can be a colour, so the colour test after the `#` branch is dead. */
  lemma MatchColorHash(s: seq<char>)
    requires |s| == 0 || s[0] != '#'
    ensures MatchColor(s) == NoColor
  {
  }

  /** The `tokenize` loop from the remaining input `rest` at `line`, `col`, after the tokens `acc`. */
  function Lex(rest: seq<char>, line: nat, col: nat, acc: seq<Token>, intended: bool): (r: Result<seq<Token>, LexError>)
    ensures r.Ok? ==> Closes(acc, r.value)
    decreases |rest|
  {
    if |rest| == 0 then Ok(acc + [Token(Eof, "", line, col)])
    else
      match Step(rest, intended)
      case Unexpected(c) => Err(UnexpectedChar(c, line, col))
      case Unterminated => Err(UnterminatedString(line, col))
      case Panic => Err(SlicePanic(line, col))
      case Skip(n) =>
        var pos := Advance((line, col), rest[..n]);
        Lex(rest[n..], pos.0, pos.1, acc, intended)
      case Emit(kind, lexeme, n) =>
        var pos := Advance((line, col), rest[..n]);
        var acc' := acc + [Token(kind, lexeme, line, col)];
        var r := Lex(rest[n..], pos.0, pos.1, acc', intended);
        if r.Ok? then
          CloseEarlier(acc, Token(kind, lexeme, line, col), r.value);
          r
        else r
  }

  /** ts continues acc with tokens other than Eof and then exactly one Eof. */
  predicate Closes(acc: seq<Token>, ts: seq<Token>)
  {
    && |ts| > |acc| && ts[..|acc|] == acc
    && ts[|ts| - 1].kind == Eof
    && forall i :: |acc| <= i < |ts| - 1 ==> ts[i].kind != Eof
  }

  /** A token other than Eof can be moved from the prefix into the continuation. */
  lemma CloseEarlier(acc: seq<Token>, t: Token, ts: seq<Token>)
    requires t.kind != Eof && Closes(acc + [t], ts)
    ensures Closes(acc, ts)
  {
    assert ts[..|acc|] == ts[..|acc| + 1][..|acc|];
  }

  /** Starting from a real position, every token lexed is stamped with one: line and column count from 1. */
  lemma {:induction false} LexPositions(rest: seq<char>, line: nat, col: nat, acc: seq<Token>, intended: bool)
    requires line >= 1 && col >= 1
    ensures var r := Lex(rest, line, col, acc, intended);
      r.Ok? ==> forall i :: |acc| <= i < |r.value| ==> r.value[i].line >= 1 && r.value[i].col >= 1
    decreases |rest|
  {
    if |rest| > 0 {
      var o := Step(rest, intended);
      if o.Skip? || o.Emit? {
        var pos := Advance((line, col), rest[..o.n]);
        AdvanceCounts((line, col), rest[..o.n]);
        if o.Emit? {
          var acc' := acc + [Token(o.kind, o.lexeme, line, col)];
          LexPositions(rest[o.n..], pos.0, pos.1, acc', intended);
          var r := Lex(rest, line, col, acc, intended);
          if r.Ok? {
            assert r.value[|acc|] == r.value[..|acc'|][|acc|];
          }
        } else {
          LexPositions(rest[o.n..], pos.0, pos.1, acc, intended);
        }
      }
    }
  }

  /** `Lexer::new(src).tokenize()`: starts at line 1, column 1 (as written unless `intended`). */
  function Tokenize(src: string, intended: bool): (r: Result<seq<Token>, LexError>)
    ensures r.Ok? ==> |r.value| > 0 && r.value[|r.value| - 1].kind == Eof
    ensures r.Ok? ==> forall i :: 0 <= i < |r.value| - 1 ==> r.value[i].kind != Eof
    ensures r.Ok? ==> forall i :: 0 <= i < |r.value| ==> r.value[i].line >= 1 && r.value[i].col >= 1
  {
    LexPositions(src, 1, 1, [], intended);
    Lex(src, 1, 1, [], intended)
  }

  /** Operator tokens carry their own text; comparison tokens one of the six comparison operators. */
  predicate OpText(t: Token)
  {
    && (t.kind == Plus ==> t.lexeme == "+")
    && (t.kind == Minus ==> t.lexeme == "-")
    && (t.kind == Star ==> t.lexeme == "*")
    && (t.kind == Slash ==> t.lexeme == "/")
    && (t.kind == Op ==> t.lexeme in {"==", "!=", ">=", "<=", ">", "<"})
  }

  lemma StepOpText(rest: seq<char>, line: nat, col: nat, intended: bool)
    requires |rest| > 0 && Step(rest, intended).Emit?
    ensures OpText(Token(Step(rest, intended).kind, Step(rest, intended).lexeme, line, col))
  {
    var c := rest[0];
    if IsTwoCharOp(rest) {
      assert rest[..2] in {"==", "!=", ">=", "<="};
    } else if c == '>' || c == '<' {
      assert [c] in {">", "<"};
    }
  }

  /** Every token the lexer emits satisfies `OpText`. */
  lemma {:induction false} LexOpText(rest: seq<char>, line: nat, col: nat, acc: seq<Token>, intended: bool)
    requires forall i :: 0 <= i < |acc| ==> OpText(acc[i])
    ensures var r := Lex(rest, line, col, acc, intended);
      r.Ok? ==> forall i :: 0 <= i < |r.value| ==> OpText(r.value[i])
    decreases |rest|
  {
    if |rest| > 0 {
      var o := Step(rest, intended);
      if o.Skip? || o.Emit? {
        var pos := Advance((line, col), rest[..o.n]);
        if o.Emit? {
          StepOpText(rest, line, col, intended);
          var acc' := acc + [Token(o.kind, o.lexeme, line, col)];
          LexOpText(rest[o.n..], pos.0, pos.1, acc', intended);
        } else {
          LexOpText(rest[o.n..], pos.0, pos.1, acc, intended);
        }
      }
    }
  }

  // ----------------------------------------------------------- properties

  /** The escaping that `ScanString` undoes. */
  function Escape(s: string): string
  {
    if |s| == 0 then []
    else
      var c := s[0];
      (if c == '\n' then "\\n" else if c == '\t' then "\\t" else if c == '"' then "\\\"" else if c == '\\' then "\\\\" else [c])
        + Escape(s[1..])
  }

  /** Decoding an escaped text up to its closing quote gives the text back. */
  lemma {:induction false} ScanEscaped(pre: seq<char>, s: string, post: seq<char>, buf: string)
    ensures ScanString(pre + Escape(s) + ['"'] + post, |pre|, buf) == Some((buf + s, |pre| + |Escape(s)|))
    decreases |s|
  {
    var all := pre + Escape(s) + ['"'] + post;
    if |s| == 0 {
      assert Escape(s) == [];
      assert all == pre + ['"'] + post;
      assert all[|pre|] == '"';
      assert buf + s == buf;
    } else {
      var c := s[0];
      var e := Escape(s);
      var head := if c == '\n' then "\\n" else if c == '\t' then "\\t" else if c == '"' then "\\\"" else if c == '\\' then "\\\\" else [c];
      assert e == head + Escape(s[1..]);
      assert all == (pre + head) + Escape(s[1..]) + ['"'] + post;
      assert all[|pre|] == head[0];
      ScanEscaped(pre + head, s[1..], post, buf + [c]);
      assert buf + [c] + s[1..] == buf + s;
      if |head| == 2 {
        assert all[|pre| + 1] == head[1];
      }
    }
  }

  /** A quoted, escaped text lexes as one string token carrying the text, at the quote's position. */
  lemma StringRoundTrip(s: string, post: seq<char>, intended: bool)
    ensures var src := ['"'] + Escape(s) + ['"'] + post;
      Step(src, intended) == Emit(StringLit, s, |Escape(s)| + 2)
  {
    ScanEscaped(['"'], s, post, []);
  }

  /** An unclosed string is an error at the opening quote, wherever the input ends. */
  lemma UnterminatedAtQuote(body: seq<char>, line: nat, col: nat, acc: seq<Token>, intended: bool)
    requires forall i :: 0 <= i < |body| ==> body[i] != '"'
    ensures Lex(['"'] + body, line, col, acc, intended) == Err(UnterminatedString(line, col))
  {
    NoQuoteNoClose(['"'] + body, 1, []);
  }

  lemma {:induction false} NoQuoteNoClose(s: seq<char>, i: nat, buf: string)
    requires i <= |s| && forall k :: i <= k < |s| ==> s[k] != '"'
    ensures ScanString(s, i, buf) == None
    decreases |s| - i
  {
    if i < |s| {
      if s[i] == '\\' && i + 1 < |s| {
        NoQuoteNoClose(s, i + 2, buf + [Unescape(s[i + 1])]);
      } else {
        NoQuoteNoClose(s, i + 1, buf + [s[i]]);
      }
    }
  }

  /** The shape of a number lexeme: an optional `-`, a digit, then digits with at most one dot. */
  predicate NumberShape(lex: seq<char>)
  {
    && |lex| >= 1
    && (IsDigit(lex[0]) || (lex[0] == '-' && |lex| >= 2 && IsDigit(lex[1])))
    && (forall k :: 1 <= k < |lex| ==> IsDigit(lex[k]) || lex[k] == '.')
    && (forall k, m :: 1 <= k < m < |lex| && lex[k] == '.' ==> lex[m] != '.')
  }

  lemma {:induction false} NumberEndShape(s: seq<char>, i: nat, hasDot: bool)
    requires i <= |s|
    requires !hasDot ==> forall k :: 1 <= k < i ==> s[k] != '.'
    ensures var j := NumberEnd(s, i, hasDot);
      && (forall k :: i <= k < j ==> IsDigit(s[k]) || s[k] == '.')
      && (forall k, m :: 1 <= k < m < j && s[k] == '.' && i <= m ==> s[m] != '.')
      && (hasDot ==> forall k :: i <= k < j ==> s[k] != '.')
      && (j < |s| ==> !IsDigit(s[j]) && (s[j] == '.' ==> hasDot || exists k :: i <= k < j && s[k] == '.'))
    decreases |s| - i
  {
    if i < |s| && IsDigit(s[i]) {
      NumberEndShape(s, i + 1, hasDot);
    } else if i < |s| && s[i] == '.' && !hasDot {
      NumberEndShape(s, i + 1, true);
    }
  }

  /**
   * A number token has the shape of a number and is maximal: it is not
   * followed by a digit, nor by a dot unless it already holds one.
   */
  lemma NumberToken(rest: seq<char>, intended: bool)
    requires |rest| > 0
    requires Step(rest, intended).Emit? && Step(rest, intended).kind == Number
    ensures var o := Step(rest, intended);
      && o.lexeme == rest[..o.n] && NumberShape(o.lexeme)
      && (o.n < |rest| ==> !IsDigit(rest[o.n]) && (rest[o.n] == '.' ==> '.' in rest[1..o.n]))
  {
    var j := NumberEnd(rest, 1, false);
    NumberEndShape(rest, 1, false);
    var lex := rest[..j];
    assert forall k :: 1 <= k < |lex| ==> lex[k] == rest[k];
    if j < |rest| && rest[j] == '.' {
      var k :| 1 <= k < j && rest[k] == '.';
      assert rest[1..j][k - 1] == '.';
    }
  }

  /** `->` and the two-char comparisons win over their one-char prefixes. */
  lemma TwoCharFirst(rest: seq<char>, intended: bool)
    requires |rest| >= 2
    ensures rest[..2] == "->" ==> Step(rest, intended) == Emit(Arrow, "->", 2)
    ensures rest[..2] in {"==", "!=", ">=", "<="} ==> Step(rest, intended) == Emit(Op, rest[..2], 2)
  {
  }

  /** `$name` is a variable token whose text leaves out the `$`; a `$` before anything else is a lone Dollar. */
  lemma DollarTokens(rest: seq<char>, intended: bool)
    requires |rest| > 0 && rest[0] == '$'
    ensures var o := Step(rest, intended);
      if |rest| > 1 && IsIdentStart(rest[1]) then
        o.Emit? && o.kind == Var && o.lexeme == rest[1..o.n] && |o.lexeme| > 0
        && (forall k :: 0 <= k < |o.lexeme| ==> IsIdentPart(o.lexeme[k]))
        && (o.n < |rest| ==> !IsIdentPart(rest[o.n]))
      else o == Emit(Dollar, "$", 1)
  {
  }

  /** A `#` that starts no colour, `#>` included, skips to the end of the line and emits nothing. */
  lemma HashComment(rest: seq<char>, intended: bool)
    requires |rest| > 0 && rest[0] == '#'
    requires StartsWith(rest, "#>") || ColorAt(rest, intended) == NoColor
    ensures var o := Step(rest, intended);
      && o.Skip? && (o.n == |rest| || rest[o.n] == '\n')
      && forall k :: 0 <= k < o.n ==> rest[k] != '\n'
  {
  }

  /** An unhandled char is reported at the position where it stands. */
  lemma UnexpectedAtPosition(c: char, rest: seq<char>, line: nat, col: nat, acc: seq<Token>, intended: bool)
    requires !(c in " \t\r\n><#\"$_") && !IsDigit(c) && !IsAlpha(c) && c != '-' && c != '=' && c != '!'
    requires SingleKind(c).None?
    ensures Lex([c] + rest, line, col, acc, intended) == Err(UnexpectedChar(c, line, col))
  {
    assert ([c] + rest)[0] == c;
  }

  // ------------------------------------------------------------- colours

  /**
   * What `match_color` was evidently meant to do: try the longer,
   * six-digit form first, so that `#rrggbb` is one colour. It reads chars
   * rather than byte offsets, so it cannot split one.
   */
  function MatchColorIntended(s: seq<char>): (m: ColorMatch)
    ensures m != ColorPanic
    ensures m == ColorLen(7) <==> |s| >= 7 && s[0] == '#' && AllHex(s[1..7])
    ensures m == ColorLen(4) <==> |s| >= 4 && s[0] == '#' && AllHex(s[1..4]) && !(|s| >= 7 && AllHex(s[1..7]))
    ensures m.ColorLen? ==> m.len == 4 || m.len == 7
  {
    if |s| >= 7 && s[0] == '#' && AllHex(s[1..7]) then ColorLen(7)
    else if |s| >= 4 && s[0] == '#' && AllHex(s[1..4]) then ColorLen(4)
    else NoColor
  }

  /** `#` and six hex digits: the intended matcher takes all seven chars, the matcher as written only four. */
  lemma SixDigitColor(s: seq<char>)
    requires |s| >= 7 && s[0] == '#' && AllHex(s[1..7])
    ensures MatchColorIntended(s) == ColorLen(7)
    ensures MatchColor(s) == ColorLen(4)
  {
    HexRunAscii(s, 7);
    ByteLenSplit(s, 7);
    assert CharsIn(s, 4) == Some(4);
    assert forall i :: 0 <= i < 3 ==> s[1..4][i] == s[1..7][i];
  }

  /** `#` and three hex digits not followed by a fourth: both matchers take four chars. */
  lemma ThreeDigitColor(s: seq<char>)
    requires |s| >= 4 && s[0] == '#' && AllHex(s[1..4]) && (|s| == 4 || !IsHex(s[4]))
    ensures MatchColorIntended(s) == ColorLen(4) == MatchColor(s)
  {
    HexRunAscii(s, 4);
    ByteLenSplit(s, 4);
    assert CharsIn(s, 4) == Some(4);
  }

  /** The input `#abcdef`: as written a colour `#abc` is matched (and `def` then lexes as an identifier). */
  lemma SixDigitColorExample()
    ensures MatchColor("#abcdef") == ColorLen(4)
    ensures MatchColorIntended("#abcdef") == ColorLen(7)
  {
    var s := "#abcdef";
    SixDigitColor(s);
  }

  /** A `#` that does not start `#>` goes to the colour matcher: a colour, a comment to the end of the line, or a panic. */
  lemma HashStep(rest: seq<char>, intended: bool)
    requires |rest| > 1 && rest[0] == '#' && rest[1] != '>'
    ensures Step(rest, intended) == match ColorAt(rest, intended)
              case ColorPanic => Panic
              case ColorLen(len) => Emit(Color, rest[..len], len)
              case NoColor => Skip(LineEnd(rest, 0))
  {
    assert !StartsWith(rest, "#>") by { assert rest[..2][1] == rest[1]; }
    assert !StartsWith(rest, "->") && !IsTwoCharOp(rest) by {
      assert |rest| >= 2 ==> rest[..2][0] == '#';
    }
  }

  /** A letter starts an identifier spanning the longest run of identifier chars. */
  lemma IdentStep(rest: seq<char>, intended: bool)
    requires |rest| > 0 && IsAlpha(rest[0])
    ensures Step(rest, intended) == Emit(Ident, rest[..IdentEnd(rest, 0)], IdentEnd(rest, 0))
  {
    var c := rest[0];
    assert !StartsWith(rest, "->") && !IsTwoCharOp(rest) by {
      assert |rest| >= 2 ==> rest[..2][0] == c;
    }
    assert !IsDigit(c) && c != '-' && c != '$' && c != '"' && c != '#' && c != '>' && c != '<';
    assert IsIdentStart(c);
  }

  /** One emitting round of the tokenizer loop. */
  lemma LexEmit(rest: seq<char>, line: nat, col: nat, acc: seq<Token>, intended: bool, kind: TokenKind, lexeme: string, n: nat)
    requires |rest| > 0 && Step(rest, intended) == Emit(kind, lexeme, n)
    ensures var pos := Advance((line, col), rest[..n]);
            Lex(rest, line, col, acc, intended) == Lex(rest[n..], pos.0, pos.1, acc + [Token(kind, lexeme, line, col)], intended)
  {
  }

  /** One skipping round of the tokenizer loop. */
  lemma LexSkip(rest: seq<char>, line: nat, col: nat, acc: seq<Token>, intended: bool, n: nat)
    requires |rest| > 0 && Step(rest, intended) == Skip(n)
    ensures var pos := Advance((line, col), rest[..n]);
            Lex(rest, line, col, acc, intended) == Lex(rest[n..], pos.0, pos.1, acc, intended)
  {
  }

  /** Advancing over chars other than a line feed moves the column by their number. */
  lemma {:induction false} AdvanceFlat(pos: (nat, nat), cs: seq<char>)
    requires forall k :: 0 <= k < |cs| ==> cs[k] != '\n'
    ensures Advance(pos, cs) == (pos.0, pos.1 + |cs|)
    decreases |cs|
  {
    if |cs| > 0 {
      AdvanceFlat(AdvanceChar(pos, cs[0]), cs[1..]);
    }
  }

  /** Lexing runs out of input with the end-of-file token at the current position. */
  lemma LexEnd(line: nat, col: nat, acc: seq<Token>, intended: bool)
    ensures Lex([], line, col, acc, intended) == Ok(acc + [Token(Eof, "", line, col)])
  {
  }
}
