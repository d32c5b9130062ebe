/** The read position both lexers share: `peek`, `bump`, `skip_whitespace` and
    `next_number` are the same code in climbing-parser/src/main.rs and in
    parser/src/lexer.rs. */
module Scanner {
  import opened Prelude
  import opened Text

  /** The lexer's position in its input. `pos` is the byte offset the Rust
      lexer keeps; `at` counts the characters before it, which is how a
      `seq<char>` is indexed. `Valid` ties the two together. */
  datatype Cursor = Cursor(input: string, at: nat, pos: nat) {
    predicate Valid() {
      at <= |input| && pos == ByteOffset(input, at)
    }
  }

  /** `Lexer::new`. */
  function Start(input: string): (c: Cursor)
    ensures c.Valid() && c.input == input && c.at == 0 && c.pos == 0
  {
    Cursor(input, 0, 0)
  }

  /** The valid cursor standing before character `k` of `input`. */
  function At(input: string, k: nat): (c: Cursor)
    requires k <= |input|
    ensures c.Valid() && c.input == input && c.at == k
  {
    Cursor(input, k, ByteOffset(input, k))
  }

  /** A valid cursor is determined by its input and character index. */
  lemma {:induction false} CursorIsAt(c: Cursor)
    requires c.Valid()
    ensures c == At(c.input, c.at)
  {
  }

  /** `peek`: the next character, if any, without moving. */
  function Peek(c: Cursor): (r: Option<char>)
    requires c.Valid()
    ensures r.None? <==> c.at == |c.input|
    ensures r.Some? ==> r.value == c.input[c.at]
  {
    if c.at < |c.input| then Some(c.input[c.at]) else None
  }

  /** `bump`: consume the next character. `pos` moves by that character's
      UTF-8 length, so it stays the byte offset of the cursor; at the end of
      the input nothing moves and `None` comes back. */
  function Bump(c: Cursor): (r: (Option<char>, Cursor))
    requires c.Valid()
    ensures r.1.Valid() && r.1.input == c.input
    ensures r.0 == Peek(c)
    ensures r.0.None? ==> r.1 == c
    ensures r.0.Some? ==> r.1.at == c.at + 1 && r.1.pos == c.pos + CharLen(r.0.value)
  {
    if c.at == |c.input| then (None, c)
    else (Some(c.input[c.at]), Cursor(c.input, c.at + 1, c.pos + CharLen(c.input[c.at])))
  }

  /** `while let Some(c) = self.peek() { if !p(c) { break; } self.bump(); }`:
      the cursor moves over the longest run of characters satisfying `p`. */
  function SkipWhile(c: Cursor, p: char -> bool): (r: Cursor)
    requires c.Valid()
    ensures r.Valid() && r.input == c.input && c.at <= r.at
    ensures r.at == |c.input| || !p(c.input[r.at])
    decreases |c.input| - c.at
  {
    match Peek(c)
    case None => c
    case Some(ch) => if !p(ch) then c else SkipWhile(Bump(c).1, p)
  }

  /** What `SkipWhile` skips satisfies `p`, and the run cannot be extended. */
  lemma {:induction false} SkipWhileRun(c: Cursor, p: char -> bool)
    requires c.Valid()
    ensures var r := SkipWhile(c, p);
            && (forall i :: c.at <= i < r.at ==> p(c.input[i]))
            && (r.at == |c.input| || !p(c.input[r.at]))
    decreases |c.input| - c.at
  {
    if c.at < |c.input| && p(c.input[c.at]) {
      SkipWhileRun(Bump(c).1, p);
    }
  }

  /** A run of characters satisfying `p` from `c.at` to `k` that cannot be
      extended ends exactly where `SkipWhile` stops. */
  lemma {:induction false} SkipWhileEnd(c: Cursor, p: char -> bool, k: nat)
    requires c.Valid() && c.at <= k <= |c.input|
    requires forall i :: c.at <= i < k ==> p(c.input[i])
    requires k == |c.input| || !p(c.input[k])
    ensures SkipWhile(c, p).at == k
  {
    SkipWhileRun(c, p);
  }

  /** `skip_whitespace`. */
  function SkipWhitespace(c: Cursor): (r: Cursor)
    requires c.Valid()
    ensures r.Valid() && r.input == c.input && c.at <= r.at
    ensures r.at == |c.input| || !IsWhitespace(c.input[r.at])
  {
    SkipWhile(c, IsWhitespace)
  }

  /** `skip_whitespace` moves over whitespace only, and as far as it goes. */
  lemma {:induction false} SkipWhitespaceRun(c: Cursor)
    requires c.Valid()
    ensures var r := SkipWhitespace(c);
            && (forall i :: c.at <= i < r.at ==> IsWhitespace(c.input[i]))
            && (r.at == |c.input| || !IsWhitespace(c.input[r.at]))
  {
    SkipWhileRun(c, IsWhitespace);
  }

  /** Skipping whitespace from a whitespace character ends where skipping
      from the next character does. */
  lemma {:induction false} SkipWhitespaceStep(c: Cursor)
    requires c.Valid() && c.at < |c.input| && IsWhitespace(c.input[c.at])
    ensures SkipWhitespace(c) == SkipWhitespace(Bump(c).1)
  {
  }

  /** `skip_whitespace` does not move off a character that is not whitespace. */
  lemma {:induction false} SkipNoSpace(c: Cursor)
    requires c.Valid() && c.at < |c.input| && !IsWhitespace(c.input[c.at])
    ensures SkipWhitespace(c) == c
  {
    SkipWhileEnd(c, IsWhitespace, c.at);
    CursorIsAt(c);
    CursorIsAt(SkipWhitespace(c));
  }

  /** `next_number`, entered just after the first digit was bumped: the rest
      of the digit run is consumed and the whole run, first digit included, is
      parsed as an `i32`. `None` stands for the panic of
      `parse::<i32>().unwrap()` on a run too large for an `i32`. */
  function NextNumber(c: Cursor): (r: Option<(i32, Cursor)>)
    requires c.Valid() && 1 <= c.at && IsAsciiDigit(c.input[c.at - 1])
    ensures r.Some? ==> r.value.1 == SkipWhile(c, IsAsciiDigit) && r.value.0 >= 0
  {
    var e := SkipWhile(c, IsAsciiDigit);
    var digits := c.input[c.at - 1..e.at];
    SkipWhileRun(c, IsAsciiDigit);
    assert forall i :: 0 <= i < |digits| ==> digits[i] == c.input[c.at - 1 + i];
    var v := DigitsValue(digits);
    if v <= I32_MAX then Some((v, e)) else None
  }

  /** The run `next_number` reads is all digits and cannot be extended; it
      yields a number exactly when the run's value fits in an `i32`, and then
      that value. */
  lemma {:induction false} NextNumberReads(c: Cursor)
    requires c.Valid() && 1 <= c.at && IsAsciiDigit(c.input[c.at - 1])
    ensures var e := SkipWhile(c, IsAsciiDigit);
            && AllDigits(c.input[c.at - 1..e.at])
            && (e.at == |e.input| || !IsAsciiDigit(e.input[e.at]))
            && (NextNumber(c).Some? <==> DigitsValue(c.input[c.at - 1..e.at]) <= I32_MAX)
            && (NextNumber(c).Some? ==> NextNumber(c).value.0 == DigitsValue(c.input[c.at - 1..e.at]))
  {
    SkipWhileRun(c, IsAsciiDigit);
    var e := SkipWhile(c, IsAsciiDigit);
    var digits := c.input[c.at - 1..e.at];
    assert forall i :: 0 <= i < |digits| ==> digits[i] == c.input[c.at - 1 + i];
  }
}
