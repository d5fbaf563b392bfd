/** Tokens of the naux-lang scripting language (token.rs) and source spans (ast.rs). */
module LangToken {

  /** One-based line and column of a token's first character. */
  datatype Span = Span(line: nat, column: nat)

  datatype TokenKind =
    // Symbols
    | Tilde | Bang | Dollar | Assign | Arrow | Dot | Comma | Caret
    | LParen | RParen | LBrace | RBrace | LBracket | RBracket
    | Plus | Minus | Star | Slash | Percent | AndAnd | OrOr | Colon
    | Op(op: string)
    // Literals and identifiers
    | Ident(name: string)
    | Number(num: real)
    | StringLit(text: string)
    // Keywords
    | If | Else | Rite | Unsafe | Import | Fn | Loop | Each | While | End | In
    | Newline
    | Eof

  datatype Token = Token(kind: TokenKind, span: Span)

  datatype LexError = LexError(message: string, span: Span)
}
