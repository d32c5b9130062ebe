/** The token types parser/src/parser.rs, parser/src/ast.rs and
    parser/src/error.rs are written against. parser/src/token.rs defines only
    an older token enum without spans; these are the smallest definitions
    consistent with how the three files use `Span`, `Token` and `TokenKind`. */
module Tokens {
  import opened Prelude

  /** A byte range `[start, end)` of the source text. */
  datatype Span = Span(start: nat, end: nat)

  datatype TokenKind =
    | Plus | Minus | Mul | Div | Pow
    | Eq | Neq | Gt | GtEq | Lt | LtEq | Assign
    | Num(n: i32)
    | LeftParen | RightParen

  /** A token and where it stands in the source. */
  datatype Token = Token(kind: TokenKind, span: Span)

  /** The kinds of a token sequence, in order. */
  function Kinds(ts: seq<Token>): (ks: seq<TokenKind>)
    ensures |ks| == |ts|
    ensures forall i :: 0 <= i < |ts| ==> ks[i] == ts[i].kind
  {
    if |ts| == 0 then [] else [ts[0].kind] + Kinds(ts[1..])
  }
}
