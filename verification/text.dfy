/** Character and string facts the lexers, the code generator and the error
    formatter rely on: UTF-8 widths, Rust's character classes, decimal digits,
    and line joining. */
module Text {

  /** Number of bytes `c` takes in UTF-8 (Rust's `char::len_utf8`). */
  function CharLen(c: char): (n: nat)
    ensures 1 <= n <= 4
    ensures n == 1 <==> c as int < 0x80
  {
    if c as int < 0x80 then 1
    else if c as int < 0x800 then 2
    else if c as int < 0x1_0000 then 3
    else 4
  }

  /** Number of bytes the first `k` characters of `s` take in UTF-8: the byte
      offset of character `k`. */
  function ByteOffset(s: string, k: nat): nat
    requires k <= |s|
  {
    if k == 0 then 0 else ByteOffset(s, k - 1) + CharLen(s[k - 1])
  }

  /** Rust's `char::is_whitespace`: the Unicode White_Space property. */
  predicate IsWhitespace(c: char): (b: bool)
    ensures c as int < 0x80 ==> (b <==> c == ' ' || c == '\t' || c == '\n' || c == '\r' || c == '\U{B}' || c == '\U{C}')
    ensures b ==> !IsAsciiDigit(c)
  {
    var n := c as int;
    (0x09 <= n <= 0x0D) || n == 0x20 || n == 0x85 || n == 0xA0 || n == 0x1680
    || (0x2000 <= n <= 0x200A) || n == 0x2028 || n == 0x2029 || n == 0x202F
    || n == 0x205F || n == 0x3000
  }

  /** Rust's `char::is_ascii_digit`. */
  predicate IsAsciiDigit(c: char) {
    '0' <= c <= '9'
  }

  predicate AllDigits(s: string) {
    forall i :: 0 <= i < |s| ==> IsAsciiDigit(s[i])
  }

  function DigitValue(c: char): (d: nat)
    requires IsAsciiDigit(c)
    ensures d < 10
  {
    c as int - '0' as int
  }

  function DigitChar(d: nat): (c: char)
    requires d < 10
    ensures IsAsciiDigit(c) && DigitValue(c) == d
  {
    ('0' as int + d) as char
  }

  /** The number a run of decimal digits denotes (what `str::parse` computes
      before checking the target width). */
  function DigitsValue(s: string): nat
    requires AllDigits(s)
  {
    if |s| == 0 then 0 else DigitsValue(s[..|s| - 1]) * 10 + DigitValue(s[|s| - 1])
  }

  /** The number the digits from `k` up to `e` in `s` denote, read by
      position rather than from a slice. */
  function RunValue(s: string, k: nat, e: nat): nat
    requires k <= e <= |s|
    decreases e - k
  {
    if e == k then 0
    else RunValue(s, k, e - 1) * 10 + (if IsAsciiDigit(s[e - 1]) then DigitValue(s[e - 1]) else 0)
  }

  lemma {:induction false} RunValueDigits(s: string, k: nat, e: nat)
    requires k <= e <= |s| && forall i :: k <= i < e ==> IsAsciiDigit(s[i])
    ensures AllDigits(s[k..e]) && RunValue(s, k, e) == DigitsValue(s[k..e])
    decreases e - k
  {
    assert forall i :: 0 <= i < e - k ==> s[k..e][i] == s[k + i];
    if e > k {
      RunValueDigits(s, k, e - 1);
      assert s[k..e][..e - k - 1] == s[k..e - 1];
    }
  }

  /** The shortest decimal spelling of `n` (Rust's `Display` for a non-negative integer). */
  function Decimal(n: nat): (s: string)
    ensures |s| >= 1 && AllDigits(s)
    ensures |s| > 1 ==> s[0] != '0'
  {
    if n < 10 then [DigitChar(n)] else Decimal(n / 10) + [DigitChar(n % 10)]
  }

  /** Reading back a printed number gives the number. */
  lemma {:induction false} DecimalRoundTrip(n: nat)
    ensures DigitsValue(Decimal(n)) == n
  {
    if n >= 10 {
      var s := Decimal(n);
      assert s[..|s| - 1] == Decimal(n / 10);
      DecimalRoundTrip(n / 10);
    }
  }

  /** Rust's `Display` for an `i32`: a minus sign before the magnitude. */
  function FormatInt(n: int): (s: string)
    ensures n >= 0 ==> s == Decimal(n)
    ensures n < 0 ==> |s| >= 2 && s[0] == '-' && s[1..] == Decimal(-n)
  {
    if n < 0 then "-" + Decimal(-n) else Decimal(n)
  }

  /** Text after position `k` that starts with `s` followed by `rest`. */
  lemma {:induction false} SplitAt(input: string, k: nat, s: string, rest: string)
    requires k <= |input| && input[k..] == s + rest
    ensures k + |s| <= |input|
    ensures input[k..k + |s|] == s && input[k + |s|..] == rest
    ensures |rest| > 0 ==> input[k + |s|] == rest[0]
  {
    assert input[k..][..|s|] == s;
    assert input[k + |s|..] == (s + rest)[|s|..];
  }

  /** `str::repeat` on a one-character string. */
  function Repeat(c: char, n: nat): (s: string)
    ensures |s| == n
    ensures forall i :: 0 <= i < n ==> s[i] == c
  {
    if n == 0 then [] else Repeat(c, n - 1) + [c]
  }

  predicate NoNewline(s: string) {
    forall i :: 0 <= i < |s| ==> s[i] != '\n'
  }

  /** `lines.join("\n")`. */
  function Join(lines: seq<string>): string {
    if |lines| == 0 then ""
    else if |lines| == 1 then lines[0]
    else lines[0] + "\n" + Join(lines[1..])
  }

  /** Cuts `s` at every newline; the inverse of `Join` on lines without newlines. */
  function Split(s: string): (lines: seq<string>)
    ensures |lines| >= 1
  {
    if |s| == 0 then [""]
    else if s[0] == '\n' then [""] + Split(s[1..])
    else
      var rest := Split(s[1..]);
      [[s[0]] + rest[0]] + rest[1..]
  }

  lemma {:induction false} SplitLine(line: string, rest: string)
    requires NoNewline(line)
    ensures Split(line + "\n" + rest) == [line] + Split(rest)
    ensures Split(line) == [line]
    decreases |line|
  {
    if |line| == 0 {
      assert line + "\n" + rest == "\n" + rest;
      assert ("\n" + rest)[1..] == rest;
    } else {
      assert (line + "\n" + rest)[1..] == line[1..] + "\n" + rest;
      SplitLine(line[1..], rest);
      assert [line[0]] + line[1..] == line;
    }
  }

  /** Joining lines that hold no newline and splitting the text again gives
      the lines back. */
  lemma {:induction false} SplitJoin(lines: seq<string>)
    requires |lines| >= 1
    requires forall i :: 0 <= i < |lines| ==> NoNewline(lines[i])
    ensures Split(Join(lines)) == lines
  {
    if |lines| == 1 {
      SplitLine(lines[0], "");
    } else {
      SplitLine(lines[0], Join(lines[1..]));
      SplitJoin(lines[1..]);
    }
  }
}
