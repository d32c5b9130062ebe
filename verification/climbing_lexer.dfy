/** The lexer of the precedence-climbing prototype (climbing-parser/src/main.rs):
    text to `Token`s, skipping whitespace, one token per operator or
    parenthesis, one `Num` per maximal run of ASCII digits. */
module ClimbingLexer {
  import opened Prelude
  import opened Text
  import opened Scanner

  datatype Token = Plus | Minus | Mul | Div | Num(n: i32) | LeftParen | RightParen

  /** `Token::precedence`: how tightly a token binds as a binary operator;
      `None` for tokens that are not binary operators. */
  function Precedence(t: Token): (r: Option<u8>)
    ensures r.Some? <==> t.Plus? || t.Minus? || t.Mul? || t.Div?
    ensures r == Some(1) <==> t.Plus? || t.Minus?
    ensures r == Some(2) <==> t.Mul? || t.Div?
  {
    match t
    case Plus | Minus => Some(1)
    case Mul | Div => Some(2)
    case LeftParen | RightParen | Num(_) => None
  }

  /** `Eof` is the sentinel `next_token` returns at the end of the input. */
  datatype LexicalError = InvalidToken(s: string) | Eof

  /** The characters that form a token on their own. */
  predicate IsSymbol(ch: char) {
    ch == '+' || ch == '-' || ch == '*' || ch == '/' || ch == '(' || ch == ')'
  }

  /** The arms of `next_token`'s `match` for the six symbols. */
  function SymbolToken(ch: char): Token
    requires IsSymbol(ch)
  {
    match ch
    case '+' => Plus
    case '-' => Minus
    case '*' => Mul
    case '/' => Div
    case '(' => LeftParen
    case ')' => RightParen
  }

  /** Characters the lexer gets past without an error. */
  predicate Acceptable(ch: char) {
    IsWhitespace(ch) || IsAsciiDigit(ch) || IsSymbol(ch)
  }

  /** Reads one token at `c`, which stands after any whitespace. A digit
      starts a number; any other unknown character is an `InvalidToken`. */
  function ReadToken(c: Cursor): (r: Outcome<(Token, Cursor), LexicalError>)
    requires c.Valid()
    ensures r.Done? ==> r.value.1.Valid() && r.value.1.input == c.input && c.at < r.value.1.at
    ensures r == Failed(Eof) <==> c.at == |c.input|
  {
    match Bump(c)
    case (None, _) => Failed(Eof)
    case (Some(ch), c2) =>
      if IsSymbol(ch) then Done((SymbolToken(ch), c2))
      else if IsAsciiDigit(ch) then
        match NextNumber(c2)
        case None => Panic
        case Some((v, c3)) => Done((Num(v), c3))
      else
        Failed(InvalidToken([ch]))
  }

  /** `next_token`: skip whitespace, then read one token; `Eof` at the end. */
  function NextToken(c: Cursor): (r: Outcome<(Token, Cursor), LexicalError>)
    requires c.Valid()
    ensures r.Done? ==> r.value.1.Valid() && r.value.1.input == c.input && c.at < r.value.1.at
    ensures r == Failed(Eof) <==> SkipWhitespace(c).at == |c.input|
  {
    ReadToken(SkipWhitespace(c))
  }

  /** A token is read from acceptable characters only; an `InvalidToken`
      error carries the one character at the cursor, which starts no token. */
  lemma {:induction false} ReadTokenScans(c: Cursor)
    requires c.Valid()
    ensures var r := ReadToken(c);
            r.Done? ==> forall i :: c.at <= i < r.value.1.at ==> Acceptable(c.input[i])
    ensures var r := ReadToken(c);
            r.Failed? && r.error.InvalidToken? ==>
              && c.at < |c.input| && r.error.s == [c.input[c.at]]
              && !IsSymbol(c.input[c.at]) && !IsAsciiDigit(c.input[c.at])
  {
    if c.at < |c.input| && IsAsciiDigit(c.input[c.at]) {
      SkipWhileRun(Bump(c).1, IsAsciiDigit);
    }
  }

  /** `next_token` goes past whitespace and the token's own characters only;
      an `InvalidToken` error names the first character after the whitespace,
      which is not acceptable. */
  lemma {:induction false} NextTokenScans(c: Cursor)
    requires c.Valid()
    ensures var r := NextToken(c);
            r.Done? ==> forall i :: c.at <= i < r.value.1.at ==> Acceptable(c.input[i])
    ensures var r := NextToken(c);
            r.Failed? && r.error.InvalidToken? ==>
              var k := SkipWhitespace(c).at;
              k < |c.input| && r.error.s == [c.input[k]] && !Acceptable(c.input[k])
  {
    SkipWhitespaceRun(c);
    ReadTokenScans(SkipWhitespace(c));
  }

  /** The `lex` loop from cursor `c` on: tokens until `Eof`, which ends the
      scan and is never reported; the first other error aborts. */
  function LexFrom(c: Cursor): (r: Outcome<seq<Token>, LexicalError>)
    requires c.Valid()
    ensures !(r.Failed? && r.error.Eof?)
    decreases |c.input| - c.at
  {
    match NextToken(c)
    case Done((t, next)) =>
      (match LexFrom(next)
       case Done(ts) => Done([t] + ts)
       case Failed(e) => Failed(e)
       case Panic => Panic)
    case Failed(e) => if e.Eof? then Done([]) else Failed(e)
    case Panic => Panic
  }

  /** `Lexer::new(input).lex()`. */
  function Lex(input: string): (r: Outcome<seq<Token>, LexicalError>)
    ensures !(r.Failed? && r.error.Eof?)
  {
    LexFrom(Start(input))
  }

  /** A successful scan went past acceptable characters only. */
  lemma {:induction false} LexFromAccepts(c: Cursor)
    requires c.Valid() && LexFrom(c).Done?
    ensures forall i :: c.at <= i < |c.input| ==> Acceptable(c.input[i])
    decreases |c.input| - c.at
  {
    NextTokenScans(c);
    match NextToken(c)
    case Done((t, next)) =>
      LexFromAccepts(next);
    case Failed(e) =>
      SkipWhitespaceRun(c);
  }

  /** An `InvalidToken` error names the first character of the input that
      no token can start with: everything before it was whitespace or
      tokens. */
  lemma {:induction false} LexFromRejects(c: Cursor)
    requires c.Valid() && LexFrom(c).Failed?
    ensures exists i :: c.at <= i < |c.input| && !Acceptable(c.input[i])
                        && (forall j :: c.at <= j < i ==> Acceptable(c.input[j]))
                        && LexFrom(c).error == InvalidToken([c.input[i]])
    decreases |c.input| - c.at
  {
    NextTokenScans(c);
    match NextToken(c)
    case Done((t, next)) =>
      LexFromRejects(next);
      var i :| next.at <= i < |c.input| && !Acceptable(c.input[i])
               && (forall j :: next.at <= j < i ==> Acceptable(c.input[j]))
               && LexFrom(next).error == InvalidToken([c.input[i]]);
      assert forall j :: c.at <= j < i ==> Acceptable(c.input[j]);
    case Failed(e) =>
      SkipWhitespaceRun(c);
      var k := SkipWhitespace(c).at;
      assert c.at <= k < |c.input| && !Acceptable(c.input[k]);
      assert forall j :: c.at <= j < k ==> Acceptable(c.input[j]);
  }

  /** `lex` succeeds only on text made of whitespace, digits and the six
      symbols, and reports an error exactly when some other character is
      present (unless a number overflows first), naming the first such
      character. */
  lemma {:induction false} LexAcceptsExactly(input: string)
    ensures Lex(input).Done? ==> forall i :: 0 <= i < |input| ==> Acceptable(input[i])
    ensures Lex(input).Failed? ==>
              exists i :: 0 <= i < |input| && !Acceptable(input[i])
                          && (forall j :: 0 <= j < i ==> Acceptable(input[j]))
                          && Lex(input).error == InvalidToken([input[i]])
  {
    if Lex(input).Done? {
      LexFromAccepts(Start(input));
    }
    if Lex(input).Failed? {
      LexFromRejects(Start(input));
    }
  }

  /** `lex` returns no tokens exactly for empty or all-whitespace text:
      anything else is a token, an error or a panic. */
  lemma {:induction false} LexBlank(input: string)
    ensures Lex(input) == Done([]) <==> forall i :: 0 <= i < |input| ==> IsWhitespace(input[i])
  {
    var c := Start(input);
    SkipWhitespaceRun(c);
    if forall i :: 0 <= i < |input| ==> IsWhitespace(input[i]) {
      SkipWhileEnd(c, IsWhitespace, |input|);
    }
  }

  /** A token that a lexer could have produced from text: numbers are never negative. */
  predicate Spellable(t: Token) {
    !t.Num? || t.n >= 0
  }

  /** The character of a symbol token: the inverse of `SymbolToken`. */
  function SymbolChar(t: Token): (ch: char)
    requires !t.Num?
    ensures IsSymbol(ch) && SymbolToken(ch) == t
  {
    match t
    case Plus => '+'
    case Minus => '-'
    case Mul => '*'
    case Div => '/'
    case LeftParen => '('
    case RightParen => ')'
  }

  /** The text of one token. */
  function Spelling(t: Token): (s: string)
    requires Spellable(t)
    ensures |s| >= 1 && !IsWhitespace(s[0])
  {
    if t.Num? then Decimal(t.n) else [SymbolChar(t)]
  }

  /** Tokens written out with `sep`, one space or nothing, between
      neighbours. */
  function Render(ts: seq<Token>, sep: string): string
    requires sep == " " || sep == ""
    requires forall i :: 0 <= i < |ts| ==> Spellable(ts[i])
  {
    if |ts| == 0 then ""
    else if |ts| == 1 then Spelling(ts[0])
    else Spelling(ts[0]) + sep + Render(ts[1..], sep)
  }

  /** No two numbers stand next to each other: written without a space
      between them, they would read as one number. */
  predicate NoAdjacentNumbers(ts: seq<Token>)
    decreases |ts|
  {
    |ts| <= 1 || (!(ts[0].Num? && ts[1].Num?) && NoAdjacentNumbers(ts[1..]))
  }

  /** Tokens that read back as themselves when written with `sep`. */
  predicate Separable(ts: seq<Token>, sep: string) {
    sep == " " || (sep == "" && NoAdjacentNumbers(ts))
  }

  /** Token `t` is spelled in `input` from `k` up to `e`, and the text
      there is read as that token: a symbol character, or a maximal run of
      digits denoting the number. */
  predicate TokenAt(input: string, k: nat, t: Token, e: nat) {
    && k < e <= |input|
    && if t.Num? then
         && (forall i :: k <= i < e ==> IsAsciiDigit(input[i]))
         && (e == |input| || !IsAsciiDigit(input[e]))
         && RunValue(input, k, e) == t.n
       else
         e == k + 1 && IsSymbol(input[k]) && SymbolToken(input[k]) == t
  }

  /** `ts` is rendered with `sep` in `input` from `k` to the end: each token
      where `TokenAt` holds, `sep` between neighbours. */
  predicate RenderedAt(input: string, k: nat, ts: seq<Token>, sep: string)
    decreases |ts|
  {
    if |ts| == 0 then k == |input|
    else
      && Spellable(ts[0])
      && var e := k + |Spelling(ts[0])|;
         && TokenAt(input, k, ts[0], e)
         && if |ts| == 1 then e == |input|
            else
              && e + |sep| <= |input|
              && (sep == " " ==> input[e] == ' ')
              && RenderedAt(input, e + |sep|, ts[1..], sep)
  }
}
