/**
 * The token vocabulary of internal/scanner/token.go: the kinds the lexer
 * emits, each paired with the literal text it carries.
 */
module Tokens {

  datatype TokenKind =
    | Illegal   // a character the lexer has no rule for
    | Eof       // end of input
    | Ident     // a tag key or a move such as `Nf3` or `1-0`
    | Number    // an identifier run that reads as an integer, such as `29`
    | Str       // a quoted tag value, quotes removed
    | LBracket  // [
    | RBracket  // ]
    | LParen    // (
    | RParen    // )
    | Dot       // .
    | Asterisk  // *
    | Comment   // a `{...}` block or a `;...` line
    | Nag       // a numeric annotation glyph, `$` removed

  datatype Token = Token(kind: TokenKind, literal: string)

  const EofToken: Token := Token(Eof, "")
}
