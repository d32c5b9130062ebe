/** The lexer of the precedence-climbing prototype reads back what is
    written out from tokens: the lemmas behind `LexRender` and the lexer's
    unit tests. */
module ClimbingRoundTrip {
  import opened Prelude
  import opened Text
  import opened Scanner
  import opened ClimbingLexer

  /** Rendered text starts with the first token's spelling. */
  lemma {:induction false} RenderHead(ts: seq<Token>, sep: string)
    requires sep == " " || sep == ""
    requires |ts| >= 1 && forall i :: 0 <= i < |ts| ==> Spellable(ts[i])
    ensures |Render(ts, sep)| >= 1 && Render(ts, sep)[0] == Spelling(ts[0])[0]
  {
  }

  /** A whitespace character in front of the cursor changes nothing the scan
      will produce. */
  lemma {:induction false} LexFromSkipsSpace(c: Cursor)
    requires c.Valid() && c.at < |c.input| && IsWhitespace(c.input[c.at])
    ensures LexFrom(c) == LexFrom(Bump(c).1)
  {
    SkipWhitespaceStep(c);
    LexFromSameSkip(c, Bump(c).1);
  }

  /** Two cursors that skip whitespace to the same place scan alike. */
  lemma {:induction false} LexFromSameSkip(c: Cursor, d: Cursor)
    requires c.Valid() && d.Valid() && SkipWhitespace(c) == SkipWhitespace(d)
    ensures LexFrom(c) == LexFrom(d)
  {
    assert NextToken(c) == NextToken(d);
  }

  /** A symbol character is read as its token. */
  lemma {:induction false} ReadSymbol(c: Cursor)
    requires c.Valid() && c.at < |c.input| && IsSymbol(c.input[c.at])
    ensures ReadToken(c) == Done((SymbolToken(c.input[c.at]), At(c.input, c.at + 1)))
  {
    CursorIsAt(Bump(c).1);
  }

  /** A maximal run of digits denoting an `i32`, from `c.at` to `k`, is read
      as one `Num` and leaves the cursor at `k`. */
  lemma {:induction false} ReadNumber(c: Cursor, k: nat, v: i32)
    requires c.Valid() && c.at < k <= |c.input|
    requires forall i :: c.at <= i < k ==> IsAsciiDigit(c.input[i])
    requires k == |c.input| || !IsAsciiDigit(c.input[k])
    requires DigitsValue(c.input[c.at..k]) == v
    ensures ReadToken(c) == Done((Num(v), At(c.input, k)))
  {
    var c2 := Bump(c).1;
    SkipWhileEnd(c2, IsAsciiDigit, k);
    CursorIsAt(SkipWhile(c2, IsAsciiDigit));
    NextNumberReads(c2);
  }

  /** `next_token` at a token spelled right at the cursor reads that token. */
  lemma {:induction false} NextTokenAt(c: Cursor, t: Token, e: nat)
    requires c.Valid() && TokenAt(c.input, c.at, t, e)
    ensures NextToken(c) == Done((t, At(c.input, e)))
  {
    SkipNoSpace(c);
    if t.Num? {
      RunValueDigits(c.input, c.at, e);
      ReadNumber(c, e, t.n);
    } else {
      ReadSymbol(c);
    }
    NextIsRead(c, Done((t, At(c.input, e))));
  }

  /** The spelling of `t` where a number is not followed by another digit
      is where `TokenAt` holds. */
  lemma {:induction false} SpellingAt(input: string, k: nat, t: Token, rest: string)
    requires Spellable(t) && k <= |input| && input[k..] == Spelling(t) + rest
    requires !t.Num? || |rest| == 0 || !IsAsciiDigit(rest[0])
    ensures TokenAt(input, k, t, k + |Spelling(t)|)
  {
    var s := Spelling(t);
    SplitAt(input, k, s, rest);
    if t.Num? {
      DecimalRoundTrip(t.n);
      RunValueDigits(input, k, k + |s|);
    }
  }

  /** Rendered tokens at the end of a text are described by `RenderedAt`. */
  lemma {:induction false} RenderIsRenderedAt(input: string, k: nat, ts: seq<Token>, sep: string)
    requires sep == " " || sep == ""
    requires (forall i :: 0 <= i < |ts| ==> Spellable(ts[i])) && Separable(ts, sep)
    requires k <= |input| && input[k..] == Render(ts, sep)
    ensures RenderedAt(input, k, ts, sep)
    decreases |ts|, 2
  {
    if |ts| == 0 {
      RenderedAtNil(input, k, ts, sep);
    } else if |ts| == 1 {
      var e := RenderLast(input, k, ts, sep);
      RenderedAtLast(input, k, ts, sep, e);
    } else {
      var e := RenderSplit(input, k, ts, sep);
      RenderConsIsRenderedAt(input, k, e, ts, sep);
    }
  }

  /** Several tokens rendered at the end of a text, once the first is known
      to stand between `k` and `e`. */
  lemma {:induction false} RenderConsIsRenderedAt(input: string, k: nat, e: nat, ts: seq<Token>, sep: string)
    requires sep == " " || sep == ""
    requires |ts| > 1 && (forall i :: 0 <= i < |ts| ==> Spellable(ts[i]))
    requires e == k + |Spelling(ts[0])| && TokenAt(input, k, ts[0], e)
    requires e + |sep| <= |input| && (sep == " " ==> input[e] == ' ')
    requires input[e + |sep|..] == Render(ts[1..], sep) && Separable(ts[1..], sep)
    ensures RenderedAt(input, k, ts, sep)
    decreases |ts|, 1
  {
    RenderRestIsRenderedAt(input, e + |sep|, ts, sep);
    RenderedAtCons(input, k, ts, sep, e);
  }

  /** The rendering of all tokens but the first, at the end of a text. */
  lemma {:induction false} RenderRestIsRenderedAt(input: string, s: nat, ts: seq<Token>, sep: string)
    requires sep == " " || sep == ""
    requires |ts| > 1 && (forall i :: 0 <= i < |ts| ==> Spellable(ts[i])) && Separable(ts[1..], sep)
    requires s <= |input| && input[s..] == Render(ts[1..], sep)
    ensures RenderedAt(input, s, ts[1..], sep)
    decreases |ts|, 0
  {
    var rest := ts[1..];
    assert forall i :: 0 <= i < |rest| ==> Spellable(rest[i]);
    RenderIsRenderedAt(input, s, rest, sep);
  }

  /** In rendered text of several tokens, the first token is followed by
      `sep` and the rendering of the rest. */
  lemma {:induction false} RenderSplit(input: string, k: nat, ts: seq<Token>, sep: string) returns (e: nat)
    requires sep == " " || sep == ""
    requires |ts| > 1 && (forall i :: 0 <= i < |ts| ==> Spellable(ts[i])) && Separable(ts, sep)
    requires k <= |input| && input[k..] == Render(ts, sep)
    ensures e == k + |Spelling(ts[0])| && TokenAt(input, k, ts[0], e)
    ensures e + |sep| <= |input| && (sep == " " ==> input[e] == ' ')
    ensures input[e + |sep|..] == Render(ts[1..], sep) && Separable(ts[1..], sep)
  {
    var s, rest := Spelling(ts[0]), Render(ts[1..], sep);
    e := k + |s|;
    RenderUnfold(ts, sep);
    SpellingAt(input, k, ts[0], sep + rest);
    SplitAt(input, k, s, sep + rest);
    SplitAt(input, e, sep, rest);
  }

  /** Several rendered tokens are the first one's spelling, `sep`, and the
      rendering of the rest, which starts with no digit after a number. */
  lemma {:induction false} RenderUnfold(ts: seq<Token>, sep: string)
    requires sep == " " || sep == ""
    requires |ts| > 1 && (forall i :: 0 <= i < |ts| ==> Spellable(ts[i])) && Separable(ts, sep)
    ensures var tail := sep + Render(ts[1..], sep);
            && Render(ts, sep) == Spelling(ts[0]) + tail && |tail| >= 1
            && (ts[0].Num? ==> !IsAsciiDigit(tail[0]))
    ensures Separable(ts[1..], sep)
  {
    RenderHead(ts[1..], sep);
  }

  /** Rendered text of one token is that token's spelling. */
  lemma {:induction false} RenderLast(input: string, k: nat, ts: seq<Token>, sep: string) returns (e: nat)
    requires sep == " " || sep == ""
    requires |ts| == 1 && Spellable(ts[0])
    requires k <= |input| && input[k..] == Render(ts, sep)
    ensures e == k + |Spelling(ts[0])| == |input| && TokenAt(input, k, ts[0], e)
  {
    e := k + |Spelling(ts[0])|;
    assert input[k..] == Spelling(ts[0]) + "";
    SpellingAt(input, k, ts[0], "");
  }

  lemma {:induction false} RenderedAtNil(input: string, k: nat, ts: seq<Token>, sep: string)
    requires sep == " " || sep == ""
    requires |ts| == 0 && k <= |input| && input[k..] == Render(ts, sep)
    ensures RenderedAt(input, k, ts, sep)
  {
    assert |input[k..]| == 0;
  }

  lemma {:induction false} RenderedAtLast(input: string, k: nat, ts: seq<Token>, sep: string, e: nat)
    requires |ts| == 1 && Spellable(ts[0]) && e == k + |Spelling(ts[0])| == |input|
    requires TokenAt(input, k, ts[0], e)
    ensures RenderedAt(input, k, ts, sep)
  {
  }

  lemma {:induction false} RenderedAtCons(input: string, k: nat, ts: seq<Token>, sep: string, e: nat)
    requires |ts| > 1 && Spellable(ts[0]) && e == k + |Spelling(ts[0])|
    requires TokenAt(input, k, ts[0], e)
    requires e + |sep| <= |input| && (sep == " " ==> input[e] == ' ')
    requires RenderedAt(input, e + |sep|, ts[1..], sep)
    ensures RenderedAt(input, k, ts, sep)
  {
  }

  /** Where there is no whitespace to skip, `next_token` is `ReadToken`. */
  lemma {:induction false} NextIsRead(c: Cursor, r: Outcome<(Token, Cursor), LexicalError>)
    requires c.Valid() && SkipWhitespace(c) == c && ReadToken(c) == r
    ensures NextToken(c) == r
  {
  }

  /** The scan at the end of the input yields no tokens. */
  lemma {:induction false} LexFromEnd(c: Cursor)
    requires c.Valid() && c.at == |c.input|
    ensures LexFrom(c) == Done([])
  {
    SkipWhileEnd(c, IsWhitespace, c.at);
  }

  /** One step of the `lex` loop: a token read, then the rest of the scan. */
  lemma {:induction false} LexFromStep(c: Cursor, next: Cursor, ts: seq<Token>)
    requires c.Valid() && next.Valid() && |ts| >= 1
    requires NextToken(c) == Done((ts[0], next)) && LexFrom(next) == Done(ts[1..])
    ensures LexFrom(c) == Done(ts)
  {
    LexFromCons(c, next, ts[0], ts[1..]);
    HeadTail(ts);
  }

  lemma {:induction false} LexFromCons(c: Cursor, next: Cursor, t: Token, ts: seq<Token>)
    requires c.Valid() && next.Valid()
    requires NextToken(c) == Done((t, next)) && LexFrom(next) == Done(ts)
    ensures LexFrom(c) == Done([t] + ts)
  {
  }

  /** Lexing from a cursor at rendered tokens gives the tokens back:
      whitespace separates, each symbol is one token, and a digit run is read
      whole as its value. */
  lemma {:induction false} LexFromRendered(input: string, k: nat, ts: seq<Token>, sep: string)
    requires sep == " " || sep == ""
    requires k <= |input| && RenderedAt(input, k, ts, sep)
    ensures LexFrom(At(input, k)) == Done(ts)
    decreases |ts|, 2
  {
    if |ts| == 0 {
      LexFromEnd(At(input, k));
    } else {
      var e := RenderedAtHead(input, k, ts, sep);
      LexFromTail(input, e, ts, sep);
      LexFromHead(input, k, e, ts);
    }
  }

  /** The scan from a token spelled between `k` and `e` reads that token,
      then whatever the scan from `e` reads. */
  lemma {:induction false} LexFromHead(input: string, k: nat, e: nat, ts: seq<Token>)
    requires |ts| >= 1 && TokenAt(input, k, ts[0], e)
    requires LexFrom(At(input, e)) == Done(ts[1..])
    ensures LexFrom(At(input, k)) == Done(ts)
  {
    NextTokenAt(At(input, k), ts[0], e);
    LexFromStep(At(input, k), At(input, e), ts);
  }

  /** After the first rendered token, the scan gives the others. */
  lemma {:induction false} LexFromTail(input: string, e: nat, ts: seq<Token>, sep: string)
    requires sep == " " || sep == ""
    requires |ts| >= 1 && e <= |input|
    requires |ts| == 1 ==> e == |input|
    requires |ts| > 1 ==> e + |sep| <= |input| && (sep == " " ==> input[e] == ' ')
    requires |ts| > 1 ==> RenderedAt(input, e + |sep|, ts[1..], sep)
    ensures LexFrom(At(input, e)) == Done(ts[1..])
    decreases |ts|, 1
  {
    if |ts| == 1 {
      LexFromEnd(At(input, e));
      assert ts[1..] == [];
    } else {
      LexFromRenderedMore(input, e, e + |sep|, ts[1..], sep);
    }
  }

  /** The first token of rendered text, and what follows it. */
  lemma {:induction false} RenderedAtHead(input: string, k: nat, ts: seq<Token>, sep: string) returns (e: nat)
    requires |ts| >= 1 && RenderedAt(input, k, ts, sep)
    ensures e == k + |Spelling(ts[0])| && TokenAt(input, k, ts[0], e)
    ensures |ts| == 1 ==> e == |input|
    ensures |ts| > 1 ==> e + |sep| <= |input| && (sep == " " ==> input[e] == ' ')
    ensures |ts| > 1 ==> RenderedAt(input, e + |sep|, ts[1..], sep)
  {
    e := k + |Spelling(ts[0])|;
  }

  lemma {:induction false} LexFromRenderedMore(input: string, e: nat, s: nat, rest: seq<Token>, sep: string)
    requires sep == " " || sep == ""
    requires s == e + |sep| && s <= |input| && (sep == " " ==> input[e] == ' ')
    requires RenderedAt(input, s, rest, sep)
    ensures LexFrom(At(input, e)) == Done(rest)
    decreases |rest| + 1, 0
  {
    LexFromRendered(input, s, rest, sep);
    LexFromPastSeparator(input, e, s, sep, rest);
  }

  /** The scan from just before a separator gives what the scan from just
      after it gives. */
  lemma {:induction false} LexFromPastSeparator(input: string, e: nat, s: nat, sep: string, ts: seq<Token>)
    requires sep == " " || sep == ""
    requires s == e + |sep| && s <= |input| && (sep == " " ==> input[e] == ' ')
    requires LexFrom(At(input, s)) == Done(ts)
    ensures LexFrom(At(input, e)) == Done(ts)
  {
    SeparatorSkipped(input, e, sep);
    LexFromSameSkip(At(input, e), At(input, s));
  }

  /** Skipping whitespace before the separator ends where skipping after it
      does. */
  lemma {:induction false} SeparatorSkipped(input: string, e: nat, sep: string)
    requires sep == " " || sep == ""
    requires e + |sep| <= |input| && (sep == " " ==> input[e] == ' ')
    ensures SkipWhitespace(At(input, e)) == SkipWhitespace(At(input, e + |sep|))
  {
    if sep == " " {
      var c := At(input, e);
      CursorIsAt(Bump(c).1);
      SkipWhitespaceStep(c);
    }
  }

  /** Lexing the rendering of tokens gives the tokens back, whether they are
      written with a space between neighbours or, when no two numbers are
      adjacent, with nothing between them. */
  lemma {:induction false} LexRender(ts: seq<Token>, sep: string)
    requires sep == " " || sep == ""
    requires (forall i :: 0 <= i < |ts| ==> Spellable(ts[i])) && Separable(ts, sep)
    ensures Lex(Render(ts, sep)) == Done(ts)
  {
    RenderIsRenderedAt(Render(ts, sep), 0, ts, sep);
    LexFromRendered(Render(ts, sep), 0, ts, sep);
  }
}
