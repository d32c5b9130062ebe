/** parser/src/lexer.rs: the crate's lexer. It shares `peek`, `bump`,
    `skip_whitespace` and `next_number` with the prototype, but knows only
    `+ - * /` and numbers, and signals the end of the input with an `Eof`
    token instead of an error. */
module Lexer {
  import opened Prelude
  import opened Text
  import opened Scanner
  import C = ClimbingLexer
  import ClimbingRoundTrip

  /** The token enum of parser/src/token.rs, with the `Eof` sentinel the
      lexer returns at the end of the input. */
  datatype Token = Plus | Minus | Mul | Div | Num(n: i32) | LeftParen | RightParen | Eof

  /** The boxed "Invalid token" error, with the character it names. */
  datatype LexicalError = InvalidToken(c: char)

  predicate IsOperator(ch: char) {
    ch == '+' || ch == '-' || ch == '*' || ch == '/'
  }

  /** Characters the lexer gets past without an error. */
  predicate Acceptable(ch: char) {
    IsWhitespace(ch) || IsAsciiDigit(ch) || IsOperator(ch)
  }

  /** A token `lex` can return: an operator or a number written in digits. */
  predicate Lexable(t: Token) {
    t.Plus? || t.Minus? || t.Mul? || t.Div? || (t.Num? && t.n >= 0)
  }

  /** `next_token`: skip whitespace, then read one token; `Eof` when nothing
      is left. */
  function NextToken(c: Cursor): (r: Outcome<(Token, Cursor), LexicalError>)
    requires c.Valid()
    ensures r.Done? ==> r.value.1.Valid() && r.value.1.input == c.input
    ensures r.Done? && !r.value.0.Eof? ==> c.at < r.value.1.at && Lexable(r.value.0)
    ensures r.Done? && r.value.0.Eof? <==> SkipWhitespace(c).at == |c.input|
  {
    var c1 := SkipWhitespace(c);
    match Bump(c1)
    case (None, _) => Done((Eof, c1))
    case (Some(ch), c2) =>
      if ch == '+' then Done((Plus, c2))
      else if ch == '-' then Done((Minus, c2))
      else if ch == '*' then Done((Mul, c2))
      else if ch == '/' then Done((Div, c2))
      else if IsAsciiDigit(ch) then
        match NextNumber(c2)
        case None => Panic
        case Some((v, c3)) => Done((Num(v), c3))
      else Failed(InvalidToken(ch))
  }

  /** The `lex` loop from cursor `c` on: tokens in source order up to the
      `Eof`, which is not kept; the first error aborts. */
  function LexFrom(c: Cursor): (r: Outcome<seq<Token>, LexicalError>)
    requires c.Valid()
    ensures r.Done? ==> forall i :: 0 <= i < |r.value| ==> Lexable(r.value[i])
    decreases |c.input| - c.at
  {
    match NextToken(c)
    case Done((t, next)) =>
      if t.Eof? then Done([])
      else
        (match LexFrom(next)
         case Done(ts) => Done([t] + ts)
         case Failed(e) => Failed(e)
         case Panic => Panic)
    case Failed(e) => Failed(e)
    case Panic => Panic
  }

  /** `Lexer::new(input).lex()`. */
  function Lex(input: string): (r: Outcome<seq<Token>, LexicalError>)
    ensures r.Done? ==> forall i :: 0 <= i < |r.value| ==> Lexable(r.value[i]) && !r.value[i].Eof?
  {
    LexFrom(Start(input))
  }

  /** `next_token` goes past whitespace and the token's own characters only;
      an error names the first character after the whitespace, which is
      not acceptable. */
  lemma {:induction false} NextTokenScans(c: Cursor)
    requires c.Valid()
    ensures var r := NextToken(c);
            r.Done? ==> forall i :: c.at <= i < r.value.1.at ==> Acceptable(c.input[i])
    ensures var r := NextToken(c);
            r.Failed? ==>
              var k := SkipWhitespace(c).at;
              k < |c.input| && r.error == InvalidToken(c.input[k]) && !Acceptable(c.input[k])
  {
    SkipWhitespaceRun(c);
    var c1 := SkipWhitespace(c);
    if c1.at < |c.input| && IsAsciiDigit(c.input[c1.at]) {
      DigitRunScans(c, c1);
    }
  }

  /** A number token goes past whitespace, then a run of digits. */
  lemma {:induction false} DigitRunScans(c: Cursor, c1: Cursor)
    requires c.Valid() && c1 == SkipWhitespace(c)
    requires forall i :: c.at <= i < c1.at ==> IsWhitespace(c.input[i])
    requires c1.at < |c.input| && IsAsciiDigit(c.input[c1.at])
    ensures var r := NextToken(c);
            r.Done? ==> forall i :: c.at <= i < r.value.1.at ==> Acceptable(c.input[i])
  {
    var c2 := Bump(c1).1;
    SkipWhileRun(c2, IsAsciiDigit);
  }


  /** A successful scan went past acceptable characters only. */
  lemma {:induction false} LexFromAccepts(c: Cursor)
    requires c.Valid() && LexFrom(c).Done?
    ensures forall i :: c.at <= i < |c.input| ==> Acceptable(c.input[i])
    decreases |c.input| - c.at
  {
    NextTokenScans(c);
    var (t, next) := NextToken(c).value;
    if t.Eof? {
      SkipWhitespaceRun(c);
    } else {
      LexFromAccepts(next);
    }
  }

  /** An error names the first character of the input that no token starts
      with: everything before it was whitespace or tokens. */
  lemma {:induction false} LexFromRejects(c: Cursor)
    requires c.Valid() && LexFrom(c).Failed?
    ensures exists i :: c.at <= i < |c.input| && !Acceptable(c.input[i])
                        && (forall j :: c.at <= j < i ==> Acceptable(c.input[j]))
                        && LexFrom(c).error == InvalidToken(c.input[i])
    decreases |c.input| - c.at
  {
    NextTokenScans(c);
    match NextToken(c)
    case Done((t, next)) =>
      LexFromRejects(next);
      var i :| next.at <= i < |c.input| && !Acceptable(c.input[i])
               && (forall j :: next.at <= j < i ==> Acceptable(c.input[j]))
               && LexFrom(next).error == InvalidToken(c.input[i]);
      assert forall j :: c.at <= j < i ==> Acceptable(c.input[j]);
    case Failed(e) =>
      SkipWhitespaceRun(c);
      var k := SkipWhitespace(c).at;
      assert c.at <= k < |c.input| && !Acceptable(c.input[k]);
      assert forall j :: c.at <= j < k ==> Acceptable(c.input[j]);
  }

  /** `lex` succeeds only on text made of whitespace, digits and `+ - * /`;
      it fails exactly on text holding some other character, `(` and `)`
      included, and names the first such character (unless a number
      overflows first). */
  lemma {:induction false} LexAcceptsExactly(input: string)
    ensures Lex(input).Done? ==> forall i :: 0 <= i < |input| ==> Acceptable(input[i])
    ensures Lex(input).Failed? ==>
              exists i :: 0 <= i < |input| && !Acceptable(input[i])
                          && (forall j :: 0 <= j < i ==> Acceptable(input[j]))
                          && Lex(input).error == InvalidToken(input[i])
  {
    if Lex(input).Done? {
      LexFromAccepts(Start(input));
    }
    if Lex(input).Failed? {
      LexFromRejects(Start(input));
    }
  }

  /** `lex` returns no tokens exactly for empty or all-whitespace text:
      anything else is a token, an error or a panic. */
  lemma {:induction false} LexBlank(input: string)
    ensures Lex(input) == Done([]) <==> forall i :: 0 <= i < |input| ==> IsWhitespace(input[i])
  {
    var c := Start(input);
    SkipWhitespaceRun(c);
    if forall i :: 0 <= i < |input| ==> IsWhitespace(input[i]) {
      SkipWhileEnd(c, IsWhitespace, |input|);
    }
  }

  /** The prototype's token for the same text. */
  function FromClimbing(t: C.Token): (r: Token)
    ensures !r.Eof?
    ensures C.Spellable(t) && !(t.LeftParen? || t.RightParen?) ==> Lexable(r)
  {
    match t
    case Plus => Plus
    case Minus => Minus
    case Mul => Mul
    case Div => Div
    case Num(n) => Num(n)
    case LeftParen => LeftParen
    case RightParen => RightParen
  }

  /** The prototype's token for a lexable token: the inverse of `FromClimbing`. */
  function ToClimbing(t: Token): (r: C.Token)
    requires Lexable(t)
    ensures FromClimbing(r) == t && C.Spellable(r) && !(r.LeftParen? || r.RightParen?)
  {
    match t
    case Plus => C.Plus
    case Minus => C.Minus
    case Mul => C.Mul
    case Div => C.Div
    case Num(n) => C.Num(n)
  }

  function FromClimbingAll(ts: seq<C.Token>): (r: seq<Token>)
    ensures |r| == |ts| && forall i :: 0 <= i < |ts| ==> r[i] == FromClimbing(ts[i])
  {
    if |ts| == 0 then [] else [FromClimbing(ts[0])] + FromClimbingAll(ts[1..])
  }

  function ToClimbingAll(ts: seq<Token>): (r: seq<C.Token>)
    requires forall i :: 0 <= i < |ts| ==> Lexable(ts[i])
    ensures |r| == |ts| && forall i :: 0 <= i < |ts| ==> r[i] == ToClimbing(ts[i])
  {
    if |ts| == 0 then [] else [ToClimbing(ts[0])] + ToClimbingAll(ts[1..])
  }

  predicate NoParens(ts: seq<C.Token>) {
    forall i :: 0 <= i < |ts| ==> !(ts[i].LeftParen? || ts[i].RightParen?)
  }

  /** One step of the two lexers from the same position: the same token
      and position for an operator or a number, an error where the
      prototype reads a parenthesis or rejects a character, `Eof` where the
      prototype reports it, and the same panic on an overflowing number. */
  lemma {:induction false} NextTokenAgrees(c: Cursor)
    requires c.Valid()
    ensures var r := C.NextToken(c);
            r.Done? && !(r.value.0.LeftParen? || r.value.0.RightParen?) ==>
              NextToken(c) == Done((FromClimbing(r.value.0), r.value.1))
    ensures var r := C.NextToken(c);
            r.Done? && (r.value.0.LeftParen? || r.value.0.RightParen?) ==>
              NextToken(c) == Failed(InvalidToken(C.SymbolChar(r.value.0)))
    ensures C.NextToken(c) == Failed(C.LexicalError.Eof) ==> NextToken(c) == Done((Eof, SkipWhitespace(c)))
    ensures var r := C.NextToken(c);
            r.Failed? && r.error.InvalidToken? ==> NextToken(c) == Failed(InvalidToken(r.error.s[0]))
    ensures C.NextToken(c).Panic? <==> NextToken(c).Panic?
  {
    TokenAgrees(c);
    ParenRejected(c);
    EofAgrees(c);
    InvalidAgrees(c);
    PanicAgrees(c);
  }

  lemma {:induction false} TokenAgrees(c: Cursor)
    requires c.Valid()
    ensures var r := C.NextToken(c);
            r.Done? && !(r.value.0.LeftParen? || r.value.0.RightParen?) ==>
              NextToken(c) == Done((FromClimbing(r.value.0), r.value.1))
  {
  }

  lemma {:induction false} ParenRejected(c: Cursor)
    requires c.Valid()
    ensures var r := C.NextToken(c);
            r.Done? && (r.value.0.LeftParen? || r.value.0.RightParen?) ==>
              NextToken(c) == Failed(InvalidToken(C.SymbolChar(r.value.0)))
  {
  }

  lemma {:induction false} EofAgrees(c: Cursor)
    requires c.Valid()
    ensures C.NextToken(c) == Failed(C.LexicalError.Eof) ==> NextToken(c) == Done((Eof, SkipWhitespace(c)))
  {
  }

  lemma {:induction false} InvalidAgrees(c: Cursor)
    requires c.Valid()
    ensures var r := C.NextToken(c);
            r.Failed? && r.error.InvalidToken? ==> NextToken(c) == Failed(InvalidToken(r.error.s[0]))
  {
  }

  lemma {:induction false} PanicAgrees(c: Cursor)
    requires c.Valid()
    ensures C.NextToken(c).Panic? <==> NextToken(c).Panic?
  {
  }

  lemma {:induction false} NoParensCons(t: C.Token, ts: seq<C.Token>)
    requires NoParens([t] + ts)
    ensures !(t.LeftParen? || t.RightParen?) && NoParens(ts)
  {
    assert ([t] + ts)[0] == t;
    assert forall i :: 0 <= i < |ts| ==> ts[i] == ([t] + ts)[i + 1];
  }

  /** Where the prototype lexes to tokens without parentheses, the crate's
      lexer returns the same tokens. */
  lemma {:induction false} LexFromFollows(c: Cursor)
    requires c.Valid() && C.LexFrom(c).Done? && NoParens(C.LexFrom(c).value)
    ensures LexFrom(c) == Done(FromClimbingAll(C.LexFrom(c).value))
    decreases |c.input| - c.at
  {
    NextTokenAgrees(c);
    if C.NextToken(c).Done? {
      var (t, next) := C.NextToken(c).value;
      var ts := C.LexFrom(next).value;
      assert C.LexFrom(c).value == [t] + ts;
      NoParensCons(t, ts);
      LexFromFollows(next);
      assert FromClimbingAll([t] + ts) == [FromClimbing(t)] + FromClimbingAll(ts);
    }
  }

  /** Where the crate's lexer succeeds, the prototype returns the same
      tokens. */
  lemma {:induction false} LexFromLeads(c: Cursor)
    requires c.Valid() && LexFrom(c).Done?
    ensures C.LexFrom(c) == Done(ToClimbingAll(LexFrom(c).value))
    decreases |c.input| - c.at
  {
    NextTokenAgrees(c);
    var (t, next) := NextToken(c).value;
    if !t.Eof? {
      var ts := LexFrom(next).value;
      assert LexFrom(c).value == [t] + ts;
      LexFromLeads(next);
      assert ToClimbingAll([t] + ts) == [ToClimbing(t)] + ToClimbingAll(ts);
    }
  }

  /** The crate's lexer succeeds on exactly the texts the prototype lexes
      without parentheses, and then returns the same tokens. */
  lemma {:induction false} LexFromAgrees(c: Cursor)
    requires c.Valid()
    ensures LexFrom(c).Done? <==> C.LexFrom(c).Done? && NoParens(C.LexFrom(c).value)
    ensures LexFrom(c).Done? ==> LexFrom(c).value == FromClimbingAll(C.LexFrom(c).value)
  {
    if LexFrom(c).Done? {
      LexFromLeads(c);
      assert FromClimbingAll(ToClimbingAll(LexFrom(c).value)) == LexFrom(c).value;
    } else if C.LexFrom(c).Done? && NoParens(C.LexFrom(c).value) {
      LexFromFollows(c);
    }
  }

  /** Operators and numbers written out with one space, or nothing where no
      two numbers meet, lex back to themselves. */
  lemma {:induction false} LexRender(ts: seq<Token>, sep: string)
    requires sep == " " || sep == ""
    requires forall i :: 0 <= i < |ts| ==> Lexable(ts[i])
    requires sep == "" ==> C.NoAdjacentNumbers(ToClimbingAll(ts))
    ensures Lex(C.Render(ToClimbingAll(ts), sep)) == Done(ts)
  {
    var cs := ToClimbingAll(ts);
    ToClimbingAllFacts(ts);
    ClimbingRoundTrip.LexRender(cs, sep);
    var c := Start(C.Render(cs, sep));
    assert C.LexFrom(c) == Done(cs);
    LexFromAgrees(c);
  }

  /** Converted tokens are spellable and parenthesis-free, and convert back. */
  lemma {:induction false} ToClimbingAllFacts(ts: seq<Token>)
    requires forall i :: 0 <= i < |ts| ==> Lexable(ts[i])
    ensures var cs := ToClimbingAll(ts);
            && (forall i :: 0 <= i < |cs| ==> C.Spellable(cs[i]))
            && NoParens(cs) && FromClimbingAll(cs) == ts
  {
    var cs := ToClimbingAll(ts);
    assert forall i :: 0 <= i < |cs| ==> FromClimbingAll(cs)[i] == ts[i];
  }
}
