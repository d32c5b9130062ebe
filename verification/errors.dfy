/** parser/src/error.rs: the crate's error type, which wraps a lexical or a
    syntax error, and the formatter that prints an error under the source
    line with a caret underline. Display texts are taken as given strings. */
module Errors {
  import opened Prelude
  import opened Text
  import opened Tokens
  import P = Parser

  /** The lexical error parser/src/error.rs imports from the lexer, which
      parser/src/lexer.rs does not define: all the formatter needs of it is
      an optional span. */
  datatype LexicalError = LexicalError(at: Option<Span>)

  datatype CompilerError = Lexical(lexical: LexicalError) | Syntax(syntax: P.SyntaxError)

  /** `CompilerError::span`: the span of the wrapped error. */
  function ErrorSpan(e: CompilerError): (r: Option<Span>)
    ensures e.Lexical? ==> r == e.lexical.at
    ensures e.Syntax? ==> r == P.ErrorSpan(e.syntax)
  {
    match e
    case Lexical(l) => l.at
    case Syntax(s) => P.ErrorSpan(s)
  }

  /** `From<LexicalError>`. */
  function FromLexical(e: LexicalError): (r: CompilerError)
    ensures ErrorSpan(r) == e.at
  {
    Lexical(e)
  }

  /** `From<SyntaxError>`. */
  function FromSyntax(e: P.SyntaxError): (r: CompilerError)
    ensures ErrorSpan(r) == P.ErrorSpan(e)
  {
    Syntax(e)
  }

  /** The conversions lose nothing: distinct errors stay distinct, a lexical
      error never converts to what a syntax error does, and the span comes
      through unchanged. */
  lemma {:induction false} ConversionsFaithful(l1: LexicalError, l2: LexicalError, s1: P.SyntaxError, s2: P.SyntaxError)
    ensures FromLexical(l1) == FromLexical(l2) <==> l1 == l2
    ensures FromSyntax(s1) == FromSyntax(s2) <==> s1 == s2
    ensures FromLexical(l1) != FromSyntax(s1)
    ensures ErrorSpan(FromLexical(l1)) == l1.at
    ensures ErrorSpan(FromSyntax(s1)) == P.ErrorSpan(s1)
  {
  }

  /** The underline of a span: spaces up to its start, then one caret per
      column it covers. */
  function Underline(s: Span): (u: string)
    requires s.start <= s.end
    ensures |u| == s.end
    ensures forall i :: 0 <= i < |u| ==> (u[i] == '^' <==> s.start <= i) && (u[i] == ' ' <==> i < s.start)
  {
    Repeat(' ', s.start) + Repeat('^', s.end - s.start)
  }

  /** `format_error`, given the error's display text `shown` and its span.
      The subtraction `end - start` is on `usize`, so a span that ends
      before it starts panics. */
  function FormatError(shown: string, span: Option<Span>, source: string): (out: string)
    requires span.Some? ==> span.value.start <= span.value.end
    ensures var n := |shown| + 1 + |source|;
            && |out| == n + (if span.Some? then 1 + span.value.end else 0)
            && out[..|shown|] == shown && out[|shown|] == '\n' && out[|shown| + 1..n] == source
            && (span.Some? ==> out[n] == '\n' && out[n + 1..] == Underline(span.value))
  {
    if span.None? then shown + "\n" + source
    else shown + "\n" + source + "\n" + Underline(span.value)
  }

  /** `format_error` on a compiler error. */
  function FormatCompilerError(e: CompilerError, shown: string, source: string): string
    requires ErrorSpan(e).Some? ==> ErrorSpan(e).value.start <= ErrorSpan(e).value.end
  {
    FormatError(shown, ErrorSpan(e), source)
  }

  /** For a one-line message and a one-line source, the formatted error reads
      as the message, the source, and, when there is a span, the underline,
      each on its own line. */
  lemma {:induction false} FormatLines(shown: string, span: Option<Span>, source: string)
    requires span.Some? ==> span.value.start <= span.value.end
    requires NoNewline(shown) && NoNewline(source)
    ensures span.None? ==> Split(FormatError(shown, span, source)) == [shown, source]
    ensures span.Some? ==> Split(FormatError(shown, span, source)) == [shown, source, Underline(span.value)]
  {
    if span.None? {
      assert Join([shown, source]) == shown + "\n" + source by {
        assert [shown, source][1..] == [source];
      }
      SplitJoin([shown, source]);
    } else {
      var u := Underline(span.value);
      assert NoNewline(u);
      assert Join([shown, source, u]) == shown + "\n" + source + "\n" + u by {
        assert [shown, source, u][1..] == [source, u];
        assert [source, u][1..] == [u];
        assert Join([source, u]) == source + "\n" + u;
        assert Join([shown, source, u]) == shown + "\n" + (source + "\n" + u);
      }
      SplitJoin([shown, source, u]);
    }
  }
}
