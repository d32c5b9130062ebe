/** parser/src/parser.rs: the crate's table-driven precedence climber. Its
    operators come from two tables, `binary_op` (with associativity, so
    that `^` groups to the right) and `unary_op`, and its failures are
    `SyntaxError` values that carry the offending token and so its span. A
    position in the token sequence stands for the `Peekable` iterator. */
module Parser {
  import opened Prelude
  import opened Tokens
  import A = Ast

  datatype SyntaxError = UnmatchedLeftParen(tok: Token) | UnexpectedToken(tok: Token) | UnexpectedEof

  /** `Spanned::span` for a syntax error: the span of the token it carries. */
  function ErrorSpan(e: SyntaxError): (r: Option<Span>)
    ensures r.None? <==> e.UnexpectedEof?
    ensures r.Some? ==> r.value == e.tok.span
  {
    match e
    case UnmatchedLeftParen(tok) => Some(tok.span)
    case UnexpectedToken(tok) => Some(tok.span)
    case UnexpectedEof => None
  }

  datatype Expression =
    | Unary(op: TokenKind, expr: Expression)
    | Binary(lhs: Expression, op: TokenKind, rhs: Expression)
    | Value(v: i32)

  /** `binary_op`: the precedence and associativity of a token used as a
      binary operator; `None` for every other token. */
  function BinaryOpInfo(k: TokenKind): (r: Option<A.OpInfo>)
    ensures r.Some? <==> k.Plus? || k.Minus? || k.Mul? || k.Div? || k.Pow?
    ensures r == Some(A.OpInfo(1, A.Left)) <==> k.Plus? || k.Minus?
    ensures r == Some(A.OpInfo(2, A.Left)) <==> k.Mul? || k.Div?
    ensures r == Some(A.OpInfo(4, A.Right)) <==> k.Pow?
  {
    match k
    case Plus | Minus => Some(A.OpInfo(1, A.Left))
    case Mul | Div => Some(A.OpInfo(2, A.Left))
    case Pow => Some(A.OpInfo(4, A.Right))
    case _ => None
  }

  /** `unary_op`: only `-` is a unary operator, at precedence 3. */
  function UnaryOpInfo(k: TokenKind): (r: Option<A.OpInfo>)
    ensures r.Some? <==> k.Minus?
    ensures r.Some? ==> r.value == A.OpInfo(3, A.Left)
  {
    match k
    case Minus => Some(A.OpInfo(3, A.Left))
    case _ => None
  }

  /** The level the right operand of an operator is parsed at: one higher
      for a left-associative operator, the same for a right-associative
      one. */
  function NextPrec(info: A.OpInfo): (p: u8)
    requires info.prec < 0xff
    ensures info.assoc.Left? ==> p > info.prec
    ensures info.assoc.Right? ==> p == info.prec
  {
    match info.assoc
    case Left => info.prec + 1
    case Right => info.prec
  }

  /** The binary operator kinds the climb knows. */
  predicate IsBinary(k: TokenKind) {
    BinaryOpInfo(k).Some?
  }

  function Prec(k: TokenKind): u8
    requires IsBinary(k)
  {
    BinaryOpInfo(k).value.prec
  }

  function RhsPrec(k: TokenKind): u8
    requires IsBinary(k)
  {
    NextPrec(BinaryOpInfo(k).value)
  }

  /** The trees the parser builds: binary nodes hold a `binary_op` operator
      and unary nodes hold `Minus`. */
  predicate WellFormed(e: Expression) {
    match e
    case Value(_) => true
    case Unary(op, x) => op == Minus && WellFormed(x)
    case Binary(l, op, r) => IsBinary(op) && WellFormed(l) && WellFormed(r)
  }

  /** A syntax error about the tokens from `pos` on: it carries one of them,
      and an unmatched parenthesis error carries a `(`. */
  predicate Blames(e: SyntaxError, ts: seq<Token>, pos: nat)
    requires pos <= |ts|
  {
    e.UnexpectedEof? || (e.tok in ts[pos..] && (e.UnmatchedLeftParen? ==> e.tok.kind == LeftParen))
  }

  /** `expect`: the next token must have the given kind. */
  function Expect(ts: seq<Token>, pos: nat, expected: TokenKind): (r: Result<nat, SyntaxError>)
    requires pos <= |ts|
    ensures r.Ok? <==> pos < |ts| && ts[pos].kind == expected
    ensures r.Ok? ==> r.value == pos + 1
    ensures pos == |ts| ==> r == Err(UnexpectedEof)
    ensures pos < |ts| && ts[pos].kind != expected ==> r == Err(UnexpectedToken(ts[pos]))
  {
    if pos == |ts| then Err(UnexpectedEof)
    else if ts[pos].kind == expected then Ok(pos + 1)
    else Err(UnexpectedToken(ts[pos]))
  }

  /** `expr(min_prec)` at `pos`: a primary, then the climb. */
  function Expr(ts: seq<Token>, pos: nat, minPrec: u8): (r: Result<(Expression, nat), SyntaxError>)
    requires pos <= |ts|
    ensures r.Ok? ==> pos < r.value.1 <= |ts| && WellFormed(r.value.0)
    ensures r.Err? ==> Blames(r.error, ts, pos)
    decreases |ts| - pos, 1
  {
    match Primary(ts, pos)
    case Err(e) => Err(e)
    case Ok((lhs, p)) => Climb(ts, p, minPrec, lhs)
  }

  /** The `while let` loop of `expr`: while the next token is a binary
      operator that binds at `minPrec`, consume it, parse the right operand
      at `NextPrec` and fold it into `lhs`. */
  function Climb(ts: seq<Token>, pos: nat, minPrec: u8, lhs: Expression): (r: Result<(Expression, nat), SyntaxError>)
    requires pos <= |ts| && WellFormed(lhs)
    ensures r.Ok? ==> pos <= r.value.1 <= |ts| && WellFormed(r.value.0)
    ensures r.Err? ==> Blames(r.error, ts, pos)
    ensures r.Ok? && r.value.1 < |ts| ==> Stops(ts[r.value.1].kind, minPrec)
    ensures pos < |ts| && Stops(ts[pos].kind, minPrec) ==> r == Ok((lhs, pos))
    ensures pos == |ts| ==> r == Ok((lhs, pos))
    decreases |ts| - pos, 2
  {
    if pos < |ts| && !Stops(ts[pos].kind, minPrec) then
      var op := ts[pos].kind;
      match Expr(ts, pos + 1, RhsPrec(op))
      case Err(e) => Err(e)
      case Ok((rhs, p)) => Climb(ts, p, minPrec, Binary(lhs, op, rhs))
    else
      Ok((lhs, pos))
  }

  /** The climb ends before a token that is not a binary operator or does
      not bind at `minPrec`. */
  predicate Stops(k: TokenKind, minPrec: u8) {
    !IsBinary(k) || !BinaryOpInfo(k).value.BindsAt(minPrec)
  }

  /** The tokens that can start a primary. */
  predicate StartsPrimary(k: TokenKind) {
    k.Num? || k.Minus? || k.LeftParen?
  }

  /** `primary`: a number; a unary minus whose operand is parsed at the
      `unary_op` level; or a parenthesised expression, whose `(` is blamed
      when `expect` finds no `)`. */
  function Primary(ts: seq<Token>, pos: nat): (r: Result<(Expression, nat), SyntaxError>)
    requires pos <= |ts|
    ensures r.Ok? ==> pos < r.value.1 <= |ts| && WellFormed(r.value.0)
    ensures r.Err? ==> Blames(r.error, ts, pos)
    ensures pos == |ts| ==> r == Err(UnexpectedEof)
    ensures pos < |ts| && !StartsPrimary(ts[pos].kind) ==> r == Err(UnexpectedToken(ts[pos]))
    decreases |ts| - pos, 0
  {
    if pos == |ts| then Err(UnexpectedEof)
    else
      match ts[pos].kind
      case Num(n) => Ok((Value(n), pos + 1))
      case Minus =>
        (match Expr(ts, pos + 1, UnaryOpInfo(Minus).value.prec)
         case Err(e) => Err(e)
         case Ok((x, p)) => Ok((Unary(Minus, x), p)))
      case LeftParen =>
        (match Expr(ts, pos + 1, 0)
         case Err(e) => Err(e)
         case Ok((x, p)) =>
           match Expect(ts, p, RightParen)
           case Err(_) => Err(UnmatchedLeftParen(ts[pos]))
           case Ok(q) => Ok((x, q)))
      case _ => Err(UnexpectedToken(ts[pos]))
  }

  /** `Parser::new(tokens).parse()`: one expression at level 0, then the
      first token left over, if any, is unexpected. */
  function Parse(ts: seq<Token>): (r: Result<Expression, SyntaxError>)
    ensures r.Ok? ==> WellFormed(r.value) && |ts| >= 1
    ensures r.Err? ==> Blames(r.error, ts, 0)
    ensures |ts| == 0 ==> r == Err(UnexpectedEof)
  {
    match Expr(ts, 0, 0)
    case Err(e) => Err(e)
    case Ok((e, p)) => if p < |ts| then Err(UnexpectedToken(ts[p])) else Ok(e)
  }

  /** The arithmetic of `eval`'s binary arms on unbounded integers: `/` is
      Rust's, rounding toward zero, and `^` is `pow` with the exponent cast
      to `u32`. */
  function Arith(op: TokenKind, a: i32, b: i32): int
    requires IsBinary(op) && (op == Div ==> b != 0)
  {
    match op
    case Plus => a + b
    case Minus => a - b
    case Mul => a * b
    case Div => TruncDiv(a, b)
    case Pow => Prelude.Pow(a, AsU32(b))
  }

  /** The trees `eval` gets through without a panic: only the operators it
      has arms for (the others are `unreachable!`), no division by zero,
      and every intermediate result within `i32`. */
  predicate Evaluable(e: Expression)
    decreases e, 0
  {
    match e
    case Value(_) => true
    case Unary(op, x) => op == Minus && Evaluable(x) && InI32(-(Eval(x) as int))
    case Binary(l, op, r) =>
      && Evaluable(l) && Evaluable(r) && IsBinary(op)
      && (op == Div ==> Eval(r) != 0)
      && InI32(Arith(op, Eval(l), Eval(r)))
  }

  /** `Expression::eval`. */
  function Eval(e: Expression): (r: i32)
    requires Evaluable(e)
    ensures e.Value? ==> r == e.v
    ensures e.Unary? ==> r == -Eval(e.expr)
    ensures e.Binary? ==> r == Arith(e.op, Eval(e.lhs), Eval(e.rhs))
    decreases e, 1
  {
    match e
    case Value(v) => v
    case Unary(_, x) => -Eval(x)
    case Binary(l, op, r) => Arith(op, Eval(l), Eval(r))
  }

  /** `/` panics on a zero divisor and on `i32::MIN / -1`, the one quotient
      that leaves `i32`; otherwise it rounds toward zero, so the quotient
      is no larger in magnitude than the dividend. `Evaluator` proves the
      same of its own `/` arm. */
  lemma {:induction false} DivisionOperator(l: Expression, r: Expression)
    requires Evaluable(l) && Evaluable(r)
    ensures Evaluable(Binary(l, Div, r)) <==> Eval(r) != 0 && !(Eval(l) == I32_MIN && Eval(r) == -1)
    ensures Evaluable(Binary(l, Div, r)) ==> Abs(Eval(Binary(l, Div, r))) <= Abs(Eval(l))
  {
    if Eval(r) != 0 {
      DivWrap(Eval(l), Eval(r));
    }
  }

  /** `^` casts its exponent to `u32`: a non-negative exponent gives the
      power, panicking when it leaves `i32`; a negative one wraps to at
      least 2^31, and then only the bases -1, 0 and 1 evaluate. This is
      `Expression::eval`'s own `^` arm; `Evaluator.PowerOperator` states the
      same of the separate `Evaluator::eval`. */
  lemma {:induction false} PowerOperator(l: Expression, r: Expression)
    requires Evaluable(l) && Evaluable(r)
    ensures Eval(r) >= 0 ==> (Evaluable(Binary(l, Pow, r)) <==> InI32(Prelude.Pow(Eval(l), Eval(r))))
    ensures Eval(r) >= 0 && Evaluable(Binary(l, Pow, r)) ==> Eval(Binary(l, Pow, r)) == Prelude.Pow(Eval(l), Eval(r))
    ensures Eval(r) < 0 ==> (Evaluable(Binary(l, Pow, r)) <==> -1 <= Eval(l) <= 1)
  {
    PowWrap(Eval(l), Eval(r));
  }

  /** Number of tokens in the fully parenthesised form of `e`. */
  function Width(e: Expression): nat {
    match e
    case Value(_) => 1
    case Unary(_, x) => 3 + Width(x)
    case Binary(l, _, r) => 3 + Width(l) + Width(r)
  }

  /** The fully parenthesised token kinds of a tree: every binary and every
      unary node inside its own parentheses. A bare `- x` would not do: in
      `- x ^ y` the `^` binds tighter than the minus. */
  function Unparse(e: Expression): (ks: seq<TokenKind>)
    ensures |ks| == Width(e)
  {
    match e
    case Value(v) => [Num(v)]
    case Unary(_, x) => [LeftParen, Minus] + Unparse(x) + [RightParen]
    case Binary(l, op, r) => [LeftParen] + Unparse(l) + [op] + Unparse(r) + [RightParen]
  }

  /** The tokens of `ts` from `k` on begin with the fully parenthesised form
      of `e`, stated token by token. */
  predicate UnparsedAt(ts: seq<Token>, k: nat, e: Expression)
    decreases e
  {
    && k + Width(e) <= |ts|
    && match e
       case Value(v) => ts[k].kind == Num(v)
       case Unary(op, x) =>
         && op == Minus && ts[k].kind == LeftParen && ts[k + 1].kind == Minus
         && UnparsedAt(ts, k + 2, x) && ts[k + 2 + Width(x)].kind == RightParen
       case Binary(l, op, r) =>
         var m := k + 1 + Width(l);
         && ts[k].kind == LeftParen && UnparsedAt(ts, k + 1, l)
         && ts[m].kind == op && IsBinary(op)
         && UnparsedAt(ts, m + 1, r) && ts[m + 1 + Width(r)].kind == RightParen
  }

  /** Tokens whose kinds agree with `Unparse(e)` from `k` on satisfy
      `UnparsedAt`. */
  lemma {:induction false} UnparseAt(ts: seq<Token>, k: nat, e: Expression)
    requires WellFormed(e) && k + Width(e) <= |ts|
    requires forall i :: 0 <= i < Width(e) ==> ts[k + i].kind == Unparse(e)[i]
    ensures UnparsedAt(ts, k, e)
    decreases e, 2
  {
    match e
    case Value(_) =>
      assert ts[k + 0].kind == Unparse(e)[0];
    case Unary(_, x) =>
      UnparseAtUnary(ts, k, e);
    case Binary(l, op, r) =>
      UnparseAtBinary(ts, k, e);
  }

  /** Kinds agreeing with `u` from `k` on agree with the piece `u[off..]`
      from `k + off` on. */
  lemma {:induction false} KindsShift(ts: seq<Token>, k: nat, u: seq<TokenKind>, off: nat, piece: seq<TokenKind>, at: nat)
    requires k + |u| <= |ts| && off + |piece| <= |u| && u[off..off + |piece|] == piece && at == k + off
    requires forall i :: 0 <= i < |u| ==> ts[k + i].kind == u[i]
    ensures forall i :: 0 <= i < |piece| ==> ts[at + i].kind == piece[i]
  {
    forall i | 0 <= i < |piece|
      ensures ts[at + i].kind == piece[i]
    {
      assert ts[k + (off + i)].kind == u[off + i];
    }
  }

  /** Where the pieces of a unary node's parenthesised form stand. */
  lemma {:induction false} UnparseUnaryParts(e: Expression)
    requires e.Unary?
    ensures var u, w := Unparse(e), Width(e.expr);
            u[0] == LeftParen && u[1] == Minus && u[2..2 + w] == Unparse(e.expr) && u[2 + w] == RightParen
  {
  }

  /** Where the pieces of a binary node's parenthesised form stand. */
  lemma {:induction false} UnparseBinaryParts(e: Expression)
    requires e.Binary?
    ensures var u, m, wr := Unparse(e), 1 + Width(e.lhs), Width(e.rhs);
            && u[0] == LeftParen && u[1..m] == Unparse(e.lhs) && u[m] == e.op
            && u[m + 1..m + 1 + wr] == Unparse(e.rhs) && u[m + 1 + wr] == RightParen
  {
    var u, ul, ur := Unparse(e), Unparse(e.lhs), Unparse(e.rhs);
    assert u == [LeftParen] + ul + [e.op] + ur + [RightParen];
  }

  /** Where the left operand stands in a binary node's parenthesised form. */
  lemma {:induction false} LeftPart(e: Expression)
    requires e.Binary?
    ensures Unparse(e)[1..1 + Width(e.lhs)] == Unparse(e.lhs)
  {
    UnparseBinaryParts(e);
  }

  /** Where the right operand stands in a binary node's parenthesised form. */
  lemma {:induction false} RightPart(e: Expression)
    requires e.Binary?
    ensures Unparse(e)[2 + Width(e.lhs)..2 + Width(e.lhs) + Width(e.rhs)] == Unparse(e.rhs)
  {
    UnparseBinaryParts(e);
  }

  lemma {:induction false} UnparseAtUnary(ts: seq<Token>, k: nat, e: Expression)
    requires e.Unary? && WellFormed(e) && k + Width(e) <= |ts|
    requires forall i :: 0 <= i < Width(e) ==> ts[k + i].kind == Unparse(e)[i]
    ensures UnparsedAt(ts, k, e)
    decreases e, 1
  {
    var x := e.expr;
    var u := Unparse(e);
    UnparseUnaryParts(e);
    UnaryEdges(ts, k, e);
    UnparseAtPiece(ts, k, u, 2, x, k + 2);
    UnparsedAtUnaryIntro(ts, k, e);
  }

  /** The parentheses and the minus of a unary node's parenthesised form,
      where the kinds from `k` on agree with it. */
  lemma {:induction false} UnaryEdges(ts: seq<Token>, k: nat, e: Expression)
    requires e.Unary? && k + Width(e) <= |ts|
    requires forall i :: 0 <= i < Width(e) ==> ts[k + i].kind == Unparse(e)[i]
    ensures ts[k].kind == LeftParen && ts[k + 1].kind == Minus && ts[k + 2 + Width(e.expr)].kind == RightParen
  {
    var u, w := Unparse(e), Width(e.expr);
    UnparseUnaryParts(e);
    assert ts[k + 0].kind == u[0];
    assert ts[k + 1].kind == u[1];
    assert ts[k + (2 + w)].kind == u[2 + w];
  }

  /** `UnparsedAt` for a unary node, from its parts. */
  lemma {:induction false} UnparsedAtUnaryIntro(ts: seq<Token>, k: nat, e: Expression)
    requires e.Unary? && WellFormed(e) && k + Width(e) <= |ts|
    requires && ts[k].kind == LeftParen && ts[k + 1].kind == Minus
             && UnparsedAt(ts, k + 2, e.expr) && ts[k + 2 + Width(e.expr)].kind == RightParen
    ensures UnparsedAt(ts, k, e)
  {
  }

  lemma {:induction false} UnparseAtBinary(ts: seq<Token>, k: nat, e: Expression)
    requires e.Binary? && WellFormed(e) && k + Width(e) <= |ts|
    requires forall i :: 0 <= i < Width(e) ==> ts[k + i].kind == Unparse(e)[i]
    ensures UnparsedAt(ts, k, e)
    decreases e, 1
  {
    BinaryEdges(ts, k, e);
    LeftOperand(ts, k, e);
    RightOperand(ts, k, e);
    UnparsedAtBinaryIntro(ts, k, e);
  }

  /** The left operand of a binary node's parenthesised form, where the
      kinds from `k` on agree with it. */
  lemma {:induction false} LeftOperand(ts: seq<Token>, k: nat, e: Expression)
    requires e.Binary? && WellFormed(e) && k + Width(e) <= |ts|
    requires forall i :: 0 <= i < Width(e) ==> ts[k + i].kind == Unparse(e)[i]
    ensures UnparsedAt(ts, k + 1, e.lhs)
    decreases e, 0
  {
    var u := Unparse(e);
    LeftPart(e);
    assert forall i :: 0 <= i < |u| ==> ts[k + i].kind == u[i];
    UnparseAtPiece(ts, k, u, 1, e.lhs, k + 1);
  }

  /** The right operand of a binary node's parenthesised form, where the
      kinds from `k` on agree with it. */
  lemma {:induction false} RightOperand(ts: seq<Token>, k: nat, e: Expression)
    requires e.Binary? && WellFormed(e) && k + Width(e) <= |ts|
    requires forall i :: 0 <= i < Width(e) ==> ts[k + i].kind == Unparse(e)[i]
    ensures UnparsedAt(ts, k + 1 + Width(e.lhs) + 1, e.rhs)
    decreases e, 0
  {
    var u, m := Unparse(e), 1 + Width(e.lhs);
    RightPart(e);
    assert forall i :: 0 <= i < |u| ==> ts[k + i].kind == u[i];
    UnparseAtPiece(ts, k, u, m + 1, e.rhs, k + 1 + Width(e.lhs) + 1);
  }


  /** The parentheses and the operator of a binary node's parenthesised
      form, where the kinds from `k` on agree with it. */
  lemma {:induction false} BinaryEdges(ts: seq<Token>, k: nat, e: Expression)
    requires e.Binary? && k + Width(e) <= |ts|
    requires forall i :: 0 <= i < Width(e) ==> ts[k + i].kind == Unparse(e)[i]
    ensures var m := k + 1 + Width(e.lhs);
            ts[k].kind == LeftParen && ts[m].kind == e.op && ts[m + 1 + Width(e.rhs)].kind == RightParen
  {
    var u, m := Unparse(e), 1 + Width(e.lhs);
    UnparseBinaryParts(e);
    assert ts[k + 0].kind == u[0];
    assert ts[k + m].kind == u[m];
    assert ts[k + (m + 1 + Width(e.rhs))].kind == u[m + 1 + Width(e.rhs)];
  }

  /** `UnparsedAt` for a binary node, from its parts. */
  lemma {:induction false} UnparsedAtBinaryIntro(ts: seq<Token>, k: nat, e: Expression)
    requires e.Binary? && WellFormed(e) && k + Width(e) <= |ts|
    requires var m := k + 1 + Width(e.lhs);
             && ts[k].kind == LeftParen && UnparsedAt(ts, k + 1, e.lhs)
             && ts[m].kind == e.op && UnparsedAt(ts, m + 1, e.rhs)
             && ts[m + 1 + Width(e.rhs)].kind == RightParen
    ensures UnparsedAt(ts, k, e)
  {
  }

  /** A subtree whose parenthesised form stands at `off` in `u`, where the
      kinds from `k` on agree with `u`, is unparsed at `k + off`. */
  lemma {:induction false} UnparseAtPiece(ts: seq<Token>, k: nat, u: seq<TokenKind>, off: nat, x: Expression, at: nat)
    requires WellFormed(x) && k + |u| <= |ts| && off + Width(x) <= |u| && at == k + off
    requires u[off..off + Width(x)] == Unparse(x)
    requires forall i :: 0 <= i < |u| ==> ts[k + i].kind == u[i]
    ensures UnparsedAt(ts, at, x)
    decreases x, 3
  {
    KindsShift(ts, k, u, off, Unparse(x), at);
    UnparseAt(ts, at, x);
  }

  /** `primary` reads the fully parenthesised form of `e` back as `e`. */
  lemma {:induction false} PrimaryUnparsed(ts: seq<Token>, k: nat, e: Expression)
    requires UnparsedAt(ts, k, e)
    ensures Primary(ts, k) == Ok((e, k + Width(e)))
    decreases e, 3
  {
    match e
    case Value(_) =>
    case Unary(_, _) =>
      PrimaryUnparsedUnary(ts, k, e);
    case Binary(_, _, _) =>
      PrimaryUnparsedBinary(ts, k, e);
  }

  lemma {:induction false} PrimaryUnparsedUnary(ts: seq<Token>, k: nat, e: Expression)
    requires e.Unary? && UnparsedAt(ts, k, e)
    ensures Primary(ts, k) == Ok((e, k + Width(e)))
    decreases e, 2
  {
    var x := e.expr;
    var q := k + 2 + Width(x);
    assert q + 1 == k + Width(e) && ts[q].kind == RightParen;
    ExprUnparsed(ts, k + 2, x, 3);
    assert Primary(ts, k + 1) == Ok((e, q));
    assert Expr(ts, k + 1, 0) == Ok((e, q));
    PrimaryParen(ts, k, e, q);
  }

  lemma {:induction false} PrimaryUnparsedBinary(ts: seq<Token>, k: nat, e: Expression)
    requires e.Binary? && UnparsedAt(ts, k, e)
    ensures Primary(ts, k) == Ok((e, k + Width(e)))
    decreases e, 2
  {
    var l, op, r := e.lhs, e.op, e.rhs;
    var m := k + 1 + Width(l);
    var q := m + 1 + Width(r);
    BinaryInside(ts, k + 1, l, op, r, m, q);
    PrimaryParen(ts, k, e, q);
  }

  /** Inside the parentheses of a binary node's form, `expr` reads the node. */
  lemma {:induction false} BinaryInside(ts: seq<Token>, k: nat, l: Expression, op: TokenKind, r: Expression, m: nat, q: nat)
    requires UnparsedAt(ts, k, l) && m == k + Width(l)
    requires m < |ts| && ts[m].kind == op && IsBinary(op)
    requires UnparsedAt(ts, m + 1, r) && q == m + 1 + Width(r)
    requires q < |ts| && ts[q].kind == RightParen
    ensures Expr(ts, k, 0) == Ok((Binary(l, op, r), q))
    decreases Binary(l, op, r), 1
  {
    PrimaryUnparsed(ts, k, l);
    BinaryClimb(ts, m, l, op, r, q);
    ExprOfParts(ts, k, 0, l, m, Binary(l, op, r), q);
  }

  /** After the left operand, the climb takes the operator and the right
      operand and stops at the closing parenthesis. */
  lemma {:induction false} BinaryClimb(ts: seq<Token>, m: nat, l: Expression, op: TokenKind, r: Expression, q: nat)
    requires m < |ts| && ts[m].kind == op && IsBinary(op) && WellFormed(l)
    requires UnparsedAt(ts, m + 1, r) && q == m + 1 + Width(r)
    requires q < |ts| && ts[q].kind == RightParen
    ensures Climb(ts, m, 0, l) == Ok((Binary(l, op, r), q))
    decreases Binary(l, op, r), 0
  {
    ExprUnparsed(ts, m + 1, r, RhsPrec(op));
    ClimbOnce(ts, m, 0, l, r, q);
  }

  /** `expr` is `primary` followed by the climb. */
  lemma {:induction false} ExprOfParts(ts: seq<Token>, pos: nat, minPrec: u8, l: Expression, p: nat, e: Expression, q: nat)
    requires pos <= |ts| && Primary(ts, pos) == Ok((l, p))
    requires Climb(ts, p, minPrec, l) == Ok((e, q))
    ensures Expr(ts, pos, minPrec) == Ok((e, q))
  {
  }

  /** One turn of the climb: an operator binding at `minPrec`, its right
      operand, and then a token that stops the climb. */
  lemma {:induction false} ClimbOnce(ts: seq<Token>, m: nat, minPrec: u8, l: Expression, r: Expression, q: nat)
    requires m < |ts| && WellFormed(l) && !Stops(ts[m].kind, minPrec)
    requires Expr(ts, m + 1, RhsPrec(ts[m].kind)) == Ok((r, q))
    requires q < |ts| ==> Stops(ts[q].kind, minPrec)
    ensures Climb(ts, m, minPrec, l) == Ok((Binary(l, ts[m].kind, r), q))
  {
  }

  /** A parenthesised expression followed by its `)` is a primary. */
  lemma {:induction false} PrimaryParen(ts: seq<Token>, k: nat, x: Expression, q: nat)
    requires k < q < |ts| && ts[k].kind == LeftParen && ts[q].kind == RightParen
    requires Expr(ts, k + 1, 0) == Ok((x, q))
    ensures Primary(ts, k) == Ok((x, q + 1))
  {
  }

  /** An expression parse over the fully parenthesised form of `e` returns
      `e` when the climb stops right after it. */
  lemma {:induction false} ExprUnparsed(ts: seq<Token>, k: nat, e: Expression, minPrec: u8)
    requires UnparsedAt(ts, k, e)
    requires k + Width(e) < |ts| ==> Stops(ts[k + Width(e)].kind, minPrec)
    ensures Expr(ts, k, minPrec) == Ok((e, k + Width(e)))
    decreases e, 4
  {
    PrimaryUnparsed(ts, k, e);
  }

  /** Parsing tokens spelling the fully parenthesised form of a tree the
      parser can build gives the tree back, whatever the spans. */
  lemma {:induction false} ParseUnparse(ts: seq<Token>, e: Expression)
    requires WellFormed(e) && Kinds(ts) == Unparse(e)
    ensures Parse(ts) == Ok(e)
  {
    UnparseAt(ts, 0, e);
    ExprUnparsed(ts, 0, e, 0);
  }

  /** A `(` whose expression is not followed by `)` is an unmatched
      parenthesis, and the error carries that `(`. */
  lemma {:induction false} ParenUnmatched(ts: seq<Token>, k: nat, x: Expression, p: nat)
    requires k < |ts| && ts[k].kind == LeftParen && Expr(ts, k + 1, 0) == Ok((x, p))
    requires p == |ts| || ts[p].kind != RightParen
    ensures Primary(ts, k) == Err(UnmatchedLeftParen(ts[k]))
  {
  }

  /** An opening parenthesis before a complete expression that is never
      closed makes the parse fail with that parenthesis. */
  lemma {:induction false} UnclosedParen(ts: seq<Token>, e: Expression)
    requires WellFormed(e) && |ts| == 1 + Width(e) && ts[0].kind == LeftParen
    requires forall i :: 0 <= i < Width(e) ==> ts[1 + i].kind == Unparse(e)[i]
    ensures Parse(ts) == Err(UnmatchedLeftParen(ts[0]))
  {
    UnparseAt(ts, 1, e);
    ExprToEnd(ts, 1, e);
    ParenUnmatched(ts, 0, e, |ts|);
  }

  /** `expr` reads a complete expression that runs to the end of the tokens. */
  lemma {:induction false} ExprToEnd(ts: seq<Token>, k: nat, e: Expression)
    requires UnparsedAt(ts, k, e) && k + Width(e) == |ts|
    ensures Expr(ts, k, 0) == Ok((e, |ts|))
  {
    ExprUnparsed(ts, k, e, 0);
  }

  /** After a complete expression, a token that is not a binary operator is
      reported as unexpected. */
  lemma {:induction false} LeftoverToken(ts: seq<Token>, e: Expression)
    requires WellFormed(e) && Width(e) < |ts| && !IsBinary(ts[Width(e)].kind)
    requires forall i :: 0 <= i < Width(e) ==> ts[0 + i].kind == Unparse(e)[i]
    ensures Parse(ts) == Err(UnexpectedToken(ts[Width(e)]))
  {
    UnparseAt(ts, 0, e);
    ExprUnparsed(ts, 0, e, 0);
  }

  /** Three numbers and two binary operators: the second operator takes the
      middle number exactly when it binds at the level the first operator's
      right operand is parsed at. So `1 - 2 - 3` is `(1 - 2) - 3`,
      `1 + 2 * 3` is `1 + (2 * 3)` and `2 ^ 3 ^ 2` is `2 ^ (3 ^ 2)`. */
  lemma {:induction false} ThreeOperands(ts: seq<Token>, a: i32, o1: TokenKind, b: i32, o2: TokenKind, c: i32)
    requires IsBinary(o1) && IsBinary(o2)
    requires Kinds(ts) == [Num(a), o1, Num(b), o2, Num(c)]
    ensures Parse(ts) ==
            Ok(if Prec(o2) >= RhsPrec(o1)
               then Binary(Value(a), o1, Binary(Value(b), o2, Value(c)))
               else Binary(Binary(Value(a), o1, Value(b)), o2, Value(c)))
  {
    assert ts[0].kind == Num(a) && ts[1].kind == o1 && ts[2].kind == Num(b);
    assert ts[3].kind == o2 && ts[4].kind == Num(c) && |ts| == 5;
    if Prec(o2) >= RhsPrec(o1) {
      ThreeOperandsRight(ts, a, o1, b, o2, c);
    } else {
      ThreeOperandsLeft(ts, a, o1, b, o2, c);
    }
  }

  lemma {:induction false} ThreeOperandsRight(ts: seq<Token>, a: i32, o1: TokenKind, b: i32, o2: TokenKind, c: i32)
    requires IsBinary(o1) && IsBinary(o2) && Prec(o2) >= RhsPrec(o1) && |ts| == 5
    requires ts[0].kind == Num(a) && ts[1].kind == o1 && ts[2].kind == Num(b)
    requires ts[3].kind == o2 && ts[4].kind == Num(c)
    ensures Parse(ts) == Ok(Binary(Value(a), o1, Binary(Value(b), o2, Value(c))))
  {
    assert Expr(ts, 4, RhsPrec(o2)) == Ok((Value(c), 5));
    assert Primary(ts, 2) == Ok((Value(b), 3));
    ClimbOnce(ts, 3, RhsPrec(o1), Value(b), Value(c), 5);
    var right := Binary(Value(b), o2, Value(c));
    assert Expr(ts, 2, RhsPrec(o1)) == Ok((right, 5));
    ClimbOnce(ts, 1, 0, Value(a), right, 5);
    assert Expr(ts, 0, 0) == Ok((Binary(Value(a), o1, right), 5));
  }

  lemma {:induction false} ThreeOperandsLeft(ts: seq<Token>, a: i32, o1: TokenKind, b: i32, o2: TokenKind, c: i32)
    requires IsBinary(o1) && IsBinary(o2) && Prec(o2) < RhsPrec(o1) && |ts| == 5
    requires ts[0].kind == Num(a) && ts[1].kind == o1 && ts[2].kind == Num(b)
    requires ts[3].kind == o2 && ts[4].kind == Num(c)
    ensures Parse(ts) == Ok(Binary(Binary(Value(a), o1, Value(b)), o2, Value(c)))
  {
    assert Expr(ts, 4, RhsPrec(o2)) == Ok((Value(c), 5));
    assert Primary(ts, 2) == Ok((Value(b), 3));
    assert Expr(ts, 2, RhsPrec(o1)) == Ok((Value(b), 3));
    var left := Binary(Value(a), o1, Value(b));
    ClimbOnce(ts, 3, 0, left, Value(c), 5);
    assert Climb(ts, 1, 0, Value(a)) == Climb(ts, 3, 0, left);
    assert Expr(ts, 0, 0) == Ok((Binary(left, o2, Value(c)), 5));
  }

  /** A unary minus before `a op b`: its operand takes the operator only
      when the operator binds at the unary level, which only `^` does; so
      `-2 ^ 2` is `-(2 ^ 2)` while `-1 + 2` is `(-1) + 2`. */
  lemma {:induction false} MinusBeforeOperator(ts: seq<Token>, a: i32, op: TokenKind, b: i32)
    requires IsBinary(op)
    requires Kinds(ts) == [Minus, Num(a), op, Num(b)]
    ensures Parse(ts) ==
            Ok(if Prec(op) >= UnaryOpInfo(Minus).value.prec
               then Unary(Minus, Binary(Value(a), op, Value(b)))
               else Binary(Unary(Minus, Value(a)), op, Value(b)))
    ensures Prec(op) >= UnaryOpInfo(Minus).value.prec <==> op == Pow
  {
    assert ts[0].kind == Minus && ts[1].kind == Num(a) && ts[2].kind == op;
    assert ts[3].kind == Num(b) && |ts| == 4;
    assert Primary(ts, 3) == Ok((Value(b), 4));
    assert Expr(ts, 3, RhsPrec(op)) == Ok((Value(b), 4));
    assert Primary(ts, 1) == Ok((Value(a), 2));
    if Prec(op) >= 3 {
      ClimbOnce(ts, 2, 3, Value(a), Value(b), 4);
      var power := Binary(Value(a), op, Value(b));
      assert Expr(ts, 1, 3) == Ok((power, 4));
      assert Primary(ts, 0) == Ok((Unary(Minus, power), 4));
    } else {
      assert Expr(ts, 1, 3) == Ok((Value(a), 2));
      var neg := Unary(Minus, Value(a));
      assert Primary(ts, 0) == Ok((neg, 2));
      ClimbOnce(ts, 2, 0, neg, Value(b), 4);
    }
  }
}
