/** Shared vocabulary: optional values, results, Rust's integer widths and the
    integer operations whose Rust semantics differ from Dafny's. */
module Prelude {

  datatype Option<+T> = None | Some(value: T)

  datatype Result<+T, +E> = Ok(value: T) | Err(error: E)

  /** What a Rust call can do: return normally, return an `Err`, or abort the
      thread with a panic (an `unwrap` on a failed parse, for instance). */
  datatype Outcome<+T, +E> = Done(value: T) | Failed(error: E) | Panic

  const I32_MIN: int := -0x8000_0000
  const I32_MAX: int := 0x7fff_ffff

  type i32 = x: int | I32_MIN <= x <= I32_MAX
  type u8 = x: int | 0 <= x < 0x100

  predicate InI32(x: int) {
    I32_MIN <= x <= I32_MAX
  }

  function Abs(x: int): nat {
    if x < 0 then -x else x
  }

  lemma {:induction false} HeadTail<T>(s: seq<T>)
    requires |s| >= 1
    ensures [s[0]] + s[1..] == s
  {
  }

  /** Rust's `/` on signed integers: the quotient rounded toward zero (Dafny's
      own `/` is Euclidean). The remainder it leaves is smaller than the divisor
      and never has the opposite sign of the dividend. */
  function TruncDiv(a: int, b: int): (q: int)
    requires b != 0
    ensures Abs(a - q * b) < Abs(b)
    ensures a - q * b == 0 || ((a - q * b) > 0 <==> a > 0)
  {
    var A, B := Abs(a), Abs(b);
    var m, r := A / B, A % B;
    DivMod(A, B);
    var q := if (a < 0) == (b < 0) then m else -m;
    TruncRemainder(a, b, m, r, q);
    q
  }

  lemma {:induction false} DivMod(A: nat, B: nat)
    requires B != 0
    ensures A == (A / B) * B + A % B && 0 <= A % B < B
  {
  }

  /** With `|a| == m * |b| + r` and `0 <= r < |b|`, the quotient `q == ±m`
      signed by the operands leaves the remainder `r`, signed like `a`. */
  lemma {:induction false} TruncRemainder(a: int, b: int, m: int, r: int, q: int)
    requires b != 0 && Abs(a) == m * Abs(b) + r && 0 <= r < Abs(b)
    requires q == if (a < 0) == (b < 0) then m else -m
    ensures Abs(a - q * b) < Abs(b)
    ensures a - q * b == 0 || ((a - q * b) > 0 <==> a > 0)
  {
    if b < 0 {
      NegateFactor(q, b);
    }
    assert a - q * b == if a < 0 then -r else r;
    RemainderBounds(a, b, q, r);
  }

  lemma {:induction false} RemainderBounds(a: int, b: int, q: int, r: int)
    requires b != 0 && 0 <= r < Abs(b)
    requires a - q * b == if a < 0 then -r else r
    ensures Abs(a - q * b) < Abs(b)
    ensures a - q * b == 0 || ((a - q * b) > 0 <==> a > 0)
  {
  }

  lemma {:induction false} NegateFactor(x: int, y: int)
    ensures x * y == -(x * -y)
  {
  }

  /** `i32::pow`: `b` multiplied by itself `e` times. */
  function Pow(b: int, e: nat): int {
    if e == 0 then 1 else b * Pow(b, e - 1)
  }

  /** Rust's `x as u32` on an `i32`: the value modulo 2^32. */
  function AsU32(x: i32): (r: nat)
    ensures r < 0x1_0000_0000
    ensures (r - x) % 0x1_0000_0000 == 0
  {
    if x >= 0 then x else x + 0x1_0000_0000
  }

  /** `a.pow(b as u32)` for `i32` operands: a non-negative exponent is used
      as it is; a negative one wraps to at least 2^31, so that only the
      bases -1, 0 and 1 give a result within `i32`. */
  lemma {:induction false} PowWrap(a: i32, b: i32)
    ensures b >= 0 ==> Pow(a, AsU32(b)) == Pow(a, b)
    ensures b < 0 ==> (InI32(Pow(a, AsU32(b))) <==> -1 <= a <= 1)
  {
    if b < 0 {
      var e := AsU32(b);
      assert e >= 0x8000_0000;
      if -1 <= a <= 1 {
        PowUnit(a, e);
      } else {
        PowGrows(a, e);
      }
    }
  }

  /** Powers of -1, 0 and 1 stay among them. */
  lemma {:induction false} PowUnit(a: int, e: nat)
    requires -1 <= a <= 1
    ensures -1 <= Pow(a, e) <= 1
  {
    if e > 0 {
      PowUnit(a, e - 1);
      UnitProduct(a, Pow(a, e - 1));
    }
  }

  lemma {:induction false} UnitProduct(x: int, y: int)
    requires -1 <= x <= 1 && -1 <= y <= 1
    ensures -1 <= x * y <= 1
  {
    assert x == -1 || x == 0 || x == 1;
  }

  /** A base of magnitude at least 2 raised to `e` has magnitude above `e`. */
  lemma {:induction false} PowGrows(a: int, e: nat)
    requires Abs(a) >= 2
    ensures Abs(Pow(a, e)) > e
  {
    if e > 0 {
      PowGrows(a, e - 1);
      AbsProduct(a, Pow(a, e - 1));
    }
  }

  /** `|x * y| >= 2 * |y|` when `|x| >= 2`. */
  lemma {:induction false} AbsProduct(x: int, y: int)
    requires Abs(x) >= 2
    ensures Abs(x * y) >= 2 * Abs(y)
  {
    AbsOfProduct(x, y);
    DoubleAtMost(Abs(x), Abs(y));
  }

  lemma {:induction false} AbsOfProduct(x: int, y: int)
    ensures Abs(x * y) == Abs(x) * Abs(y)
  {
    if x < 0 && y < 0 {
      assert x * y == (-x) * (-y);
    } else if x < 0 {
      assert x * y == -((-x) * y);
    } else if y < 0 {
      assert x * y == -(x * (-y));
    }
  }

  lemma {:induction false} DoubleAtMost(X: nat, Y: nat)
    requires X >= 2
    ensures X * Y >= 2 * Y
  {
    assert X * Y == (X - 2) * Y + 2 * Y;
  }

  /** Rust's `/` on `i32`, divisor not zero: the truncated quotient is no
      larger in magnitude than the dividend, and it leaves `i32` only for
      `i32::MIN / -1`. */
  lemma {:induction false} DivWrap(a: i32, b: i32)
    requires b != 0
    ensures Abs(TruncDiv(a, b)) <= Abs(a)
    ensures InI32(TruncDiv(a, b)) <==> !(a == I32_MIN && b == -1)
  {
    var A, B := Abs(a), Abs(b);
    var m := (A as int) / (B as int);
    if B == 1 {
      DivideByOne(A);
    } else {
      QuotientBound(A, B);
    }
    SignedQuotient(a, b, m, TruncDiv(a, b));
  }

  lemma {:induction false} SignedQuotient(a: i32, b: i32, m: int, q: int)
    requires b != 0 && m >= 0
    requires Abs(b) == 1 ==> m == Abs(a)
    requires Abs(b) >= 2 ==> 2 * m <= Abs(a)
    requires q == if (a < 0) == (b < 0) then m else -m
    ensures Abs(q) <= Abs(a)
    ensures InI32(q) <==> !(a == I32_MIN && b == -1)
  {
  }

  lemma {:induction false} DivideByOne(A: nat)
    ensures A / 1 == A
  {
  }

  /** `A / B` is at most half of `A` once `B >= 2`. */
  lemma {:induction false} QuotientBound(A: nat, B: nat)
    requires B >= 2
    ensures 0 <= 2 * (A / B) <= A
  {
    DivMod(A, B);
    ScaledQuotient(A, B, A / B, A % B);
  }

  /** From `A == m * B + r` with `0 <= r < B` and `B >= 2`: `2 * m <= A`. */
  lemma {:induction false} ScaledQuotient(A: nat, B: nat, m: nat, r: int)
    requires B >= 2 && A == m * B + r && 0 <= r < B
    ensures 2 * m <= A
  {
    assert m * B == m * (B - 2) + 2 * m;
    assert m * (B - 2) >= 0;
  }
}
