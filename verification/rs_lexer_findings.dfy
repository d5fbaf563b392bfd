/**
 * The colour-literal finding of the naux-rs lexer, followed through the
 * whole tokenizer: six hex digits after `#` split into a short colour and
 * an identifier, and a wide char after three hex digits panics the host.
 */
module RsLexerFindings {
  import opened Wrappers
  import opened RsLexer

  /** Lower-case hex letters: both a colour's digits and an identifier's chars. */
  predicate LowerHex(s: seq<char>)
  {
    forall k :: 0 <= k < |s| ==> 'a' <= s[k] <= 'f'
  }

  /** An emitting round over chars with no line feed moves the column by the token's length. */
  lemma LexEmitFlat(rest: seq<char>, line: nat, col: nat, acc: seq<Token>, intended: bool, kind: TokenKind, lexeme: string, n: nat)
    requires |rest| > 0 && Step(rest, intended) == Emit(kind, lexeme, n)
    requires forall k :: 0 <= k < n ==> rest[k] != '\n'
    ensures Lex(rest, line, col, acc, intended) == Lex(rest[n..], line, col + n, acc + [Token(kind, lexeme, line, col)], intended)
  {
    AdvanceFlat((line, col), rest[..n]);
    LexEmit(rest, line, col, acc, intended, kind, lexeme, n);
  }

  /** A `#` the colour matcher accepts is a colour token of the matched length. */
  lemma ColorStep(s: seq<char>, intended: bool, len: nat)
    requires |s| > 1 && s[0] == '#' && s[1] != '>'
    requires ColorAt(s, intended) == ColorLen(len)
    ensures Step(s, intended) == Emit(Color, s[..len], len)
  {
    HashStep(s, intended);
  }

  /** A colour the matcher accepts, with no line feed in it, is one token and lexing resumes after it. */
  lemma ColorHead(s: seq<char>, line: nat, col: nat, acc: seq<Token>, intended: bool, len: nat)
    requires |s| > 1 && s[0] == '#' && s[1] != '>'
    requires ColorAt(s, intended) == ColorLen(len)
    requires forall k :: 0 <= k < len ==> s[k] != '\n'
    ensures Lex(s, line, col, acc, intended) == Lex(s[len..], line, col + len, acc + [Token(Color, s[..len], line, col)], intended)
  {
    ColorStep(s, intended, len);
    LexEmitFlat(s, line, col, acc, intended, Color, s[..len], len);
  }

  /** A run of letters at the end of the input is one identifier, then the end-of-file token. */
  lemma IdentToEnd(rest: seq<char>, line: nat, col: nat, acc: seq<Token>, intended: bool, n: nat)
    requires |rest| == n > 0 && LowerHex(rest)
    ensures Lex(rest, line, col, acc, intended) == Ok(acc + [Token(Ident, rest, line, col), Token(Eof, "", line, col + n)])
  {
    IdentStep(rest, intended);
    IdentEndAll(rest, 0);
    assert rest[..|rest|] == rest;
    AdvanceFlat((line, col), rest);
    LexEmit(rest, line, col, acc, intended, Ident, rest, |rest|);
    assert rest[|rest|..] == [];
    LexEnd(line, col + |rest|, acc + [Token(Ident, rest, line, col)], intended);
    assert acc + [Token(Ident, rest, line, col)] + [Token(Eof, "", line, col + |rest|)]
        == acc + [Token(Ident, rest, line, col), Token(Eof, "", line, col + |rest|)];
  }

  /** An identifier runs to the end of input when every char from `i` on is lower-case hex. */
  lemma {:induction false} IdentEndAll(rest: seq<char>, i: nat)
    requires i <= |rest| && LowerHex(rest)
    ensures IdentEnd(rest, i) == |rest|
    decreases |rest| - i
  {
    if i < |rest| {
      IdentEndAll(rest, i + 1);
    }
  }

  /** `#` and six lower-case hex letters. */
  predicate SixHex(s: seq<char>)
  {
    |s| == 7 && s[0] == '#' && LowerHex(s[1..])
  }

  /** What the two colour matchers and the identifier scan see in `#` and six hex letters. */
  lemma SixHexFacts(s: seq<char>)
    requires SixHex(s)
    ensures s[1] != '>' && forall k :: 0 <= k < 7 ==> s[k] != '\n'
    ensures ColorAt(s, false) == ColorLen(4) && ColorAt(s, true) == ColorLen(7)
    ensures LowerHex(s[4..]) && |s[4..]| == 3
  {
    assert forall k :: 1 <= k < 7 ==> s[k] == s[1..][k - 1];
    assert AllHex(s[1..7]) by { assert s[1..7] == s[1..]; }
    SixDigitColor(s);
    assert forall k :: 0 <= k < 3 ==> s[4..][k] == s[1..][k + 3];
  }

  /**
   * Six lower-case hex letters after a `#`: the tokenizer as written emits
   * the first three as a colour and resumes at the fourth letter.
   */
  lemma SixDigitSplits(s: seq<char>, line: nat, col: nat, acc: seq<Token>)
    requires SixHex(s)
    ensures Lex(s, line, col, acc, false) == Lex(s[4..], line, col + 4, acc + [Token(Color, s[..4], line, col)], false)
  {
    SixHexFacts(s);
    ColorHead(s, line, col, acc, false, 4);
  }

  /** The rest of `#` and six hex letters, as written: an identifier, then the end. */
  lemma SixDigitRest(s: seq<char>, line: nat, col: nat, acc: seq<Token>)
    requires SixHex(s)
    ensures Lex(s[4..], line, col, acc, false) == Ok(acc + [Token(Ident, s[4..], line, col), Token(Eof, "", line, col + 3)])
  {
    SixHexFacts(s);
    IdentToEnd(s[4..], line, col, acc, false, 3);
  }

  /** The corrected tokenizer takes the same seven chars as one colour. */
  lemma SixDigitWhole(s: seq<char>, line: nat, col: nat, acc: seq<Token>)
    requires SixHex(s)
    ensures Lex(s, line, col, acc, true) == Ok(acc + [Token(Color, s, line, col), Token(Eof, "", line, col + 7)])
  {
    SixHexFacts(s);
    ColorHead(s, line, col, acc, true, 7);
    assert s[..7] == s && s[7..] == [];
    LexEnd(line, col + 7, acc + [Token(Color, s, line, col)], true);
    assert acc + [Token(Color, s, line, col)] + [Token(Eof, "", line, col + 7)]
        == acc + [Token(Color, s, line, col), Token(Eof, "", line, col + 7)];
  }

  /** The tokenizer as written on `#` and six hex letters: a short colour, then an identifier. */
  lemma SixDigitTokens(s: seq<char>, line: nat, col: nat, acc: seq<Token>)
    requires SixHex(s)
    ensures Lex(s, line, col, acc, false)
         == Ok(acc + [Token(Color, s[..4], line, col), Token(Ident, s[4..], line, col + 4), Token(Eof, "", line, col + 7)])
  {
    var t1 := Token(Color, s[..4], line, col);
    SixDigitSplits(s, line, col, acc);
    SixDigitRest(s, line, col + 4, acc + [t1]);
    assert acc + [t1] + [Token(Ident, s[4..], line, col + 4), Token(Eof, "", line, col + 4 + 3)]
        == acc + [t1, Token(Ident, s[4..], line, col + 4), Token(Eof, "", line, col + 7)];
  }

  /** A `#` the matcher as written panics on ends the run with the panic at the `#`. */
  lemma HashPanics(rest: seq<char>, line: nat, col: nat, acc: seq<Token>, intended: bool)
    requires |rest| > 1 && rest[0] == '#' && rest[1] != '>' && ColorAt(rest, intended) == ColorPanic
    ensures Lex(rest, line, col, acc, intended) == Err(SlicePanic(line, col))
  {
    HashStep(rest, intended);
  }

  /** `#`, two hex digits and a char of two UTF-8 bytes. */
  predicate WideAfterHex(s: seq<char>)
  {
    |s| == 4 && s[0] == '#' && IsHex(s[1]) && IsHex(s[2]) && Utf8Len(s[3]) == 2
  }

  /**
   * As written, the three-digit test slices bytes 1 to 4, which ends
   * inside the wide char, and the host panics.
   */
  lemma WideCharPanics(s: seq<char>, line: nat, col: nat, acc: seq<Token>)
    requires WideAfterHex(s)
    ensures Lex(s, line, col, acc, false) == Err(SlicePanic(line, col))
  {
    assert ByteLen(s[3..]) == 2 by { assert s[3..][1..] == []; }
    assert CharsIn(s[3..], 1) == None;
    assert CharsIn(s[2..], 2) == None by { assert s[2..][1..] == s[3..]; }
    assert CharsIn(s[1..], 3) == None by { assert s[1..][1..] == s[2..]; }
    assert CharsIn(s, 4) == None by { assert s[1..] == s[1..]; }
    ByteLenAtLeast(s);
    HashPanics(s, line, col, acc, false);
  }

  /** Corrected, the same input has no colour and is a comment to the end of the line. */
  lemma WideCharComment(s: seq<char>, line: nat, col: nat, acc: seq<Token>)
    requires WideAfterHex(s) && s[3] != '\n'
    ensures Lex(s, line, col, acc, true) == Ok(acc + [Token(Eof, "", line, col + 4)])
  {
    assert !IsHex(s[3]);
    assert MatchColorIntended(s) == NoColor;
    HashStep(s, true);
    assert LineEnd(s, 0) == 4;
    AdvanceFlat((line, col), s);
    assert s[..4] == s && s[4..] == [];
    LexSkip(s, line, col, acc, true, 4);
    LexEnd(line, col + 4, acc, true);
  }

  /** `#ab` and a two-byte char: the host panics as written; corrected, a comment. */
  lemma WideCharAfterHash(s: string)
    requires s == "#ab\U{e9}"
    ensures Tokenize(s, false) == Err(SlicePanic(1, 1))
    ensures Tokenize(s, true) == Ok([Token(Eof, "", 1, 5)])
  {
    assert WideAfterHex(s);
    WideCharPanics(s, 1, 1, []);
    WideCharComment(s, 1, 1, []);
  }
}
