/** The precedence-climbing parser and the evaluator of the prototype
    (climbing-parser/src/main.rs). The parser works on the token vector the
    lexer produced; a position in that vector stands for the `Peekable`
    iterator. Its panics are `Abort` values. */
module ClimbingParser {
  import opened Prelude
  import opened ClimbingLexer

  datatype Expression =
    | Binary(lhs: Expression, op: Token, rhs: Expression)
    | Unary(op: Token, expr: Expression)
    | Num(v: i32)

  /** The parser's panics: an unclosed `(`, a token that cannot start a
      primary (`None` at the end of the tokens), and a token left over after
      the whole expression (the `debug_assert!` in `parse`). */
  datatype Abort = MissingClosingParen | UnexpectedInPrimary(found: Option<Token>) | TrailingToken(t: Token)

  /** The trees the parser builds: binary nodes hold binary operators and
      unary nodes hold `Minus`. */
  predicate WellFormed(e: Expression) {
    match e
    case Num(_) => true
    case Unary(op, x) => op == Minus && WellFormed(x)
    case Binary(l, op, r) => Precedence(op).Some? && WellFormed(l) && WellFormed(r)
  }

  /** `expression(min_prec)` at `pos`: a primary, then the climb. */
  function Expr(ts: seq<Token>, pos: nat, minPrec: u8): (r: Result<(Expression, nat), Abort>)
    requires pos <= |ts|
    ensures r.Ok? ==> pos < r.value.1 <= |ts| && WellFormed(r.value.0)
    ensures r.Err? ==> !r.error.TrailingToken?
    decreases |ts| - pos, 1
  {
    match Primary(ts, pos)
    case Err(a) => Err(a)
    case Ok((lhs, p)) => Climb(ts, p, minPrec, lhs)
  }

  /** The `loop` of `expression`: while the next token is a binary operator
      binding at least `minPrec`, consume it, parse the right operand one
      level higher (which makes operators of equal precedence associate to
      the left) and fold it into `lhs`. */
  function Climb(ts: seq<Token>, pos: nat, minPrec: u8, lhs: Expression): (r: Result<(Expression, nat), Abort>)
    requires pos <= |ts| && WellFormed(lhs)
    ensures r.Ok? ==> pos <= r.value.1 <= |ts| && WellFormed(r.value.0)
    ensures r.Err? ==> !r.error.TrailingToken?
    ensures r.Ok? && r.value.1 < |ts| ==> Stops(Some(ts[r.value.1]), minPrec)
    ensures Stops(if pos < |ts| then Some(ts[pos]) else None, minPrec) ==> r == Ok((lhs, pos))
    decreases |ts| - pos, 2
  {
    if pos < |ts| && Precedence(ts[pos]).Some? && Precedence(ts[pos]).value >= minPrec then
      var op := ts[pos];
      match Expr(ts, pos + 1, Precedence(op).value + 1)
      case Err(a) => Err(a)
      case Ok((rhs, p)) => Climb(ts, p, minPrec, Binary(lhs, op, rhs))
    else
      Ok((lhs, pos))
  }

  /** The climb ends at `next`: the end of the tokens, a token that is not a
      binary operator, or one that binds below `minPrec`. */
  predicate Stops(next: Option<Token>, minPrec: u8) {
    next.None? || Precedence(next.value).None? || Precedence(next.value).value < minPrec
  }

  /** `primary`: a number; a unary minus whose operand is parsed at
      precedence 3; or a parenthesised expression, which must be closed. */
  function Primary(ts: seq<Token>, pos: nat): (r: Result<(Expression, nat), Abort>)
    requires pos <= |ts|
    ensures r.Ok? ==> pos < r.value.1 <= |ts| && WellFormed(r.value.0)
    ensures r.Err? ==> !r.error.TrailingToken?
    ensures pos == |ts| ==> r == Err(UnexpectedInPrimary(None))
    ensures pos < |ts| && !(ts[pos].Num? || ts[pos] == Minus || ts[pos] == LeftParen) ==>
              r == Err(UnexpectedInPrimary(Some(ts[pos])))
    decreases |ts| - pos, 0
  {
    if pos == |ts| then Err(UnexpectedInPrimary(None))
    else
      match ts[pos]
      case Num(v) => Ok((Expression.Num(v), pos + 1))
      case Minus =>
        (match Expr(ts, pos + 1, 3)
         case Err(a) => Err(a)
         case Ok((x, p)) => Ok((Unary(Minus, x), p)))
      case LeftParen =>
        (match Expr(ts, pos + 1, 0)
         case Err(a) => Err(a)
         case Ok((x, p)) => if p < |ts| && ts[p] == RightParen then Ok((x, p + 1)) else Err(MissingClosingParen))
      case _ => Err(UnexpectedInPrimary(Some(ts[pos])))
  }

  /** `Parser::new(tokens).parse()`: one expression at precedence 0 that must
      use up every token. */
  function Parse(ts: seq<Token>): (r: Result<Expression, Abort>)
    ensures r.Ok? ==> WellFormed(r.value) && |ts| >= 1
    ensures |ts| == 0 ==> r == Err(UnexpectedInPrimary(None))
    ensures r.Err? && r.error.TrailingToken? ==> Precedence(r.error.t).None?
  {
    match Expr(ts, 0, 0)
    case Err(a) => Err(a)
    case Ok((e, p)) => if p < |ts| then Err(TrailingToken(ts[p])) else Ok(e)
  }

  /** The arithmetic of `eval`'s binary arms on unbounded integers; `/` is
      Rust's, rounding toward zero. */
  function Arith(op: Token, a: int, b: int): int
    requires Precedence(op).Some? && (op == Div ==> b != 0)
  {
    if op == Plus then a + b
    else if op == Minus then a - b
    else if op == Mul then a * b
    else TruncDiv(a, b)
  }

  /** The trees `eval` gets through without a panic: no non-operator token in
      a binary node (those arms are `unreachable!`), no division by zero, and
      every intermediate result within `i32` (a debug build panics on
      overflow). */
  predicate Evaluable(e: Expression)
    decreases e, 0
  {
    match e
    case Num(_) => true
    case Unary(_, x) => Evaluable(x) && InI32(-(Eval(x) as int))
    case Binary(l, op, r) =>
      && Evaluable(l) && Evaluable(r) && Precedence(op).Some?
      && (op == Div ==> Eval(r) != 0)
      && InI32(Arith(op, Eval(l), Eval(r)))
  }

  /** `Expression::eval`. A unary node negates its operand whatever its
      operator token is. */
  function Eval(e: Expression): (r: i32)
    requires Evaluable(e)
    ensures e.Num? ==> r == e.v
    ensures e.Unary? ==> r == -Eval(e.expr)
    decreases e, 1
  {
    match e
    case Num(v) => v
    case Unary(_, x) => -Eval(x)
    case Binary(l, op, r) => Arith(op, Eval(l), Eval(r))
  }

  /** With a minimum precedence above every binary operator the climb takes
      nothing: the operand of a unary minus is a primary alone, never a
      binary node built by the climb. */
  lemma {:induction false} UnaryOperandIsPrimary(ts: seq<Token>, pos: nat)
    requires pos <= |ts|
    ensures Expr(ts, pos, 3) == Primary(ts, pos)
  {
    match Primary(ts, pos)
    case Err(_) =>
    case Ok((lhs, p)) =>
      assert Stops(if p < |ts| then Some(ts[p]) else None, 3);
  }

  /** Number of tokens in the fully parenthesised form of `e`. */
  function Width(e: Expression): nat {
    match e
    case Num(_) => 1
    case Unary(_, x) => 1 + Width(x)
    case Binary(l, _, r) => 3 + Width(l) + Width(r)
  }

  /** The fully parenthesised token form of a tree: each binary node inside
      its own parentheses, each unary node a `Minus` before its operand. */
  function Unparse(e: Expression): (ts: seq<Token>)
    ensures |ts| == Width(e)
  {
    match e
    case Num(v) => [Token.Num(v)]
    case Unary(_, x) => [Minus] + Unparse(x)
    case Binary(l, op, r) => [LeftParen] + Unparse(l) + [op] + Unparse(r) + [RightParen]
  }

  /** The tokens of `ts` from `k` on begin with the fully parenthesised form
      of `e`, stated token by token. */
  predicate UnparsedAt(ts: seq<Token>, k: nat, e: Expression)
    decreases e
  {
    && k + Width(e) <= |ts|
    && match e
       case Num(v) => ts[k] == Token.Num(v)
       case Unary(op, x) => op == Minus && ts[k] == Minus && UnparsedAt(ts, k + 1, x)
       case Binary(l, op, r) =>
         var m := k + 1 + Width(l);
         && ts[k] == LeftParen && UnparsedAt(ts, k + 1, l)
         && ts[m] == op && Precedence(op).Some?
         && UnparsedAt(ts, m + 1, r) && ts[m + 1 + Width(r)] == RightParen
  }

  /** Tokens that agree with `Unparse(e)` from `k` on satisfy `UnparsedAt`. */
  lemma {:induction false} UnparseAt(ts: seq<Token>, k: nat, e: Expression)
    requires WellFormed(e) && k + Width(e) <= |ts|
    requires forall i :: 0 <= i < Width(e) ==> ts[k + i] == Unparse(e)[i]
    ensures UnparsedAt(ts, k, e)
    decreases e, 2
  {
    match e
    case Num(_) =>
      assert ts[k + 0] == Unparse(e)[0];
    case Unary(_, x) =>
      var u := Unparse(e);
      assert u[1..] == Unparse(x);
      assert ts[k + 0] == u[0];
      UnparseAtPiece(ts, k, u, 1, x, k + 1);
    case Binary(_, _, _) =>
      BinaryEdges(ts, k, e);
      LeftOperand(ts, k, e);
      RightOperand(ts, k, e);
  }

  /** Where the pieces of a binary node's parenthesised form stand. */
  lemma {:induction false} UnparseBinaryParts(e: Expression)
    requires e.Binary?
    ensures var u, m, wr := Unparse(e), 1 + Width(e.lhs), Width(e.rhs);
            && u[0] == LeftParen && u[1..m] == Unparse(e.lhs) && u[m] == e.op
            && u[m + 1..m + 1 + wr] == Unparse(e.rhs) && u[m + 1 + wr] == RightParen
  {
    var u, ul, ur := Unparse(e), Unparse(e.lhs), Unparse(e.rhs);
    assert u == [LeftParen] + ul + [e.op] + ur + [RightParen];
  }

  /** Where the left operand stands in a binary node's parenthesised form. */
  lemma {:induction false} LeftPart(e: Expression)
    requires e.Binary?
    ensures Unparse(e)[1..1 + Width(e.lhs)] == Unparse(e.lhs)
  {
    UnparseBinaryParts(e);
  }

  /** Where the right operand stands in a binary node's parenthesised form. */
  lemma {:induction false} RightPart(e: Expression)
    requires e.Binary?
    ensures Unparse(e)[2 + Width(e.lhs)..2 + Width(e.lhs) + Width(e.rhs)] == Unparse(e.rhs)
  {
    UnparseBinaryParts(e);
  }

  /** The parentheses and the operator of a binary node's parenthesised
      form, where the tokens from `k` on agree with it. */
  lemma {:induction false} BinaryEdges(ts: seq<Token>, k: nat, e: Expression)
    requires e.Binary? && k + Width(e) <= |ts|
    requires forall i :: 0 <= i < Width(e) ==> ts[k + i] == Unparse(e)[i]
    ensures var m := k + 1 + Width(e.lhs);
            ts[k] == LeftParen && ts[m] == e.op && ts[m + 1 + Width(e.rhs)] == RightParen
  {
    var u, m := Unparse(e), 1 + Width(e.lhs);
    UnparseBinaryParts(e);
    assert ts[k + 0] == u[0];
    assert ts[k + m] == u[m];
    assert ts[k + (m + 1 + Width(e.rhs))] == u[m + 1 + Width(e.rhs)];
  }

  /** The left operand of a binary node's parenthesised form, where the
      tokens from `k` on agree with it. */
  lemma {:induction false} LeftOperand(ts: seq<Token>, k: nat, e: Expression)
    requires e.Binary? && WellFormed(e) && k + Width(e) <= |ts|
    requires forall i :: 0 <= i < Width(e) ==> ts[k + i] == Unparse(e)[i]
    ensures UnparsedAt(ts, k + 1, e.lhs)
    decreases e, 1
  {
    var u := Unparse(e);
    LeftPart(e);
    assert forall i :: 0 <= i < |u| ==> ts[k + i] == u[i];
    UnparseAtPiece(ts, k, u, 1, e.lhs, k + 1);
  }

  /** The right operand of a binary node's parenthesised form, where the
      tokens from `k` on agree with it. */
  lemma {:induction false} RightOperand(ts: seq<Token>, k: nat, e: Expression)
    requires e.Binary? && WellFormed(e) && k + Width(e) <= |ts|
    requires forall i :: 0 <= i < Width(e) ==> ts[k + i] == Unparse(e)[i]
    ensures UnparsedAt(ts, k + 1 + Width(e.lhs) + 1, e.rhs)
    decreases e, 1
  {
    var u, m := Unparse(e), 1 + Width(e.lhs);
    RightPart(e);
    assert forall i :: 0 <= i < |u| ==> ts[k + i] == u[i];
    UnparseAtPiece(ts, k, u, m + 1, e.rhs, k + 1 + Width(e.lhs) + 1);
  }


  /** A subtree whose parenthesised form stands at `off` in `u`, where the
      tokens from `k` on agree with `u`, is unparsed at `k + off`. */
  lemma {:induction false} UnparseAtPiece(ts: seq<Token>, k: nat, u: seq<Token>, off: nat, x: Expression, at: nat)
    requires WellFormed(x) && k + |u| <= |ts| && off + Width(x) <= |u| && at == k + off
    requires u[off..off + Width(x)] == Unparse(x)
    requires forall i :: 0 <= i < |u| ==> ts[k + i] == u[i]
    ensures UnparsedAt(ts, at, x)
    decreases x, 3
  {
    forall i | 0 <= i < Width(x)
      ensures ts[at + i] == Unparse(x)[i]
    {
      assert ts[k + (off + i)] == u[off + i];
    }
    UnparseAt(ts, at, x);
  }

  /** `primary` reads the fully parenthesised form of `e` back as `e`. */
  lemma {:induction false} PrimaryUnparsed(ts: seq<Token>, k: nat, e: Expression)
    requires UnparsedAt(ts, k, e)
    ensures Primary(ts, k) == Ok((e, k + Width(e)))
    decreases e, 1
  {
    match e
    case Num(_) =>
    case Unary(_, x) =>
      PrimaryUnparsed(ts, k + 1, x);
    case Binary(_, _, _) =>
      PrimaryUnparsedBinary(ts, k, e);
  }

  lemma {:induction false} PrimaryUnparsedBinary(ts: seq<Token>, k: nat, e: Expression)
    requires e.Binary? && UnparsedAt(ts, k, e)
    ensures Primary(ts, k) == Ok((e, k + Width(e)))
    decreases e, 0
  {
    var l, op, r := e.lhs, e.op, e.rhs;
    var m := k + 1 + Width(l);
    var q := m + 1 + Width(r);
    assert q + 1 == k + Width(e) && ts[q] == RightParen;
    PrimaryUnparsed(ts, k + 1, l);
    ExprUnparsed(ts, m + 1, r, Precedence(op).value + 1);
    ClimbOnce(ts, m, 0, l, r, q);
    PrimaryParen(ts, k, e, q);
  }

  /** One turn of the climb: an operator binding at `minPrec`, its right
      operand, and then a token that stops the climb. */
  lemma {:induction false} ClimbOnce(ts: seq<Token>, m: nat, minPrec: u8, l: Expression, r: Expression, q: nat)
    requires m < |ts| && WellFormed(l) && Precedence(ts[m]).Some? && Precedence(ts[m]).value >= minPrec
    requires Expr(ts, m + 1, Precedence(ts[m]).value + 1) == Ok((r, q))
    requires Stops(if q < |ts| then Some(ts[q]) else None, minPrec)
    ensures Climb(ts, m, minPrec, l) == Ok((Binary(l, ts[m], r), q))
  {
  }

  /** A parenthesised expression followed by its `)` is a primary. */
  lemma {:induction false} PrimaryParen(ts: seq<Token>, k: nat, x: Expression, q: nat)
    requires k < q < |ts| && ts[k] == LeftParen && ts[q] == RightParen
    requires Expr(ts, k + 1, 0) == Ok((x, q))
    ensures Primary(ts, k) == Ok((x, q + 1))
  {
  }

  /** An expression parse over the fully parenthesised form of `e` returns
      `e` when the climb stops right after it. */
  lemma {:induction false} ExprUnparsed(ts: seq<Token>, k: nat, e: Expression, minPrec: u8)
    requires UnparsedAt(ts, k, e)
    requires Stops(if k + Width(e) < |ts| then Some(ts[k + Width(e)]) else None, minPrec)
    ensures Expr(ts, k, minPrec) == Ok((e, k + Width(e)))
    decreases e, 2
  {
    PrimaryUnparsed(ts, k, e);
  }

  /** Parsing the fully parenthesised form of a tree the parser can build
      gives the tree back. */
  lemma {:induction false} ParseUnparse(e: Expression)
    requires WellFormed(e)
    ensures Parse(Unparse(e)) == Ok(e)
  {
    var ts := Unparse(e);
    UnparseAt(ts, 0, e);
    ExprUnparsed(ts, 0, e, 0);
  }

  /** An opening parenthesis that is never closed aborts the parse. */
  lemma {:induction false} UnclosedParen(e: Expression)
    requires WellFormed(e)
    ensures Parse([LeftParen] + Unparse(e)) == Err(MissingClosingParen)
  {
    var ts := [LeftParen] + Unparse(e);
    UnparseAfter(LeftParen, e);
    ExprAfterParen(ts, e);
    ParenNotClosed(ts, e);
  }

  lemma {:induction false} ExprAfterParen(ts: seq<Token>, e: Expression)
    requires WellFormed(e) && |ts| == 1 + Width(e)
    requires forall i :: 0 <= i < Width(e) ==> ts[1 + i] == Unparse(e)[i]
    ensures Expr(ts, 1, 0) == Ok((e, |ts|))
  {
    UnparseAt(ts, 1, e);
    ExprUnparsed(ts, 1, e, 0);
  }

  lemma {:induction false} UnparseAfter(t: Token, e: Expression)
    ensures forall i :: 0 <= i < Width(e) ==> ([t] + Unparse(e))[1 + i] == Unparse(e)[i]
  {
  }

  lemma {:induction false} ParenNotClosed(ts: seq<Token>, x: Expression)
    requires |ts| >= 1 && ts[0] == LeftParen && Expr(ts, 1, 0) == Ok((x, |ts|))
    ensures Parse(ts) == Err(MissingClosingParen)
  {
    assert Primary(ts, 0) == Err(MissingClosingParen);
  }

  /** A closing parenthesis after a complete expression is left over. */
  lemma {:induction false} TrailingParen(e: Expression)
    requires WellFormed(e)
    ensures Parse(Unparse(e) + [RightParen]) == Err(TrailingToken(RightParen))
  {
    UnparsedBefore(e, RightParen);
    LeftoverAfter(Unparse(e) + [RightParen], e);
  }

  /** The parenthesised form of `e` followed by one more token. */
  lemma {:induction false} UnparsedBefore(e: Expression, t: Token)
    requires WellFormed(e)
    ensures var ts := Unparse(e) + [t];
            UnparsedAt(ts, 0, e) && |ts| == Width(e) + 1 && ts[Width(e)] == t
  {
    var u := Unparse(e);
    var ts := u + [t];
    assert forall i :: 0 <= i < Width(e) ==> ts[0 + i] == u[i];
    UnparseAt(ts, 0, e);
  }

  /** A closing parenthesis right after an expression that fills the rest
      of the tokens is left over. */
  lemma {:induction false} LeftoverAfter(ts: seq<Token>, e: Expression)
    requires UnparsedAt(ts, 0, e) && |ts| == Width(e) + 1 && ts[Width(e)] == RightParen
    ensures Parse(ts) == Err(TrailingToken(RightParen))
  {
    ExprUnparsed(ts, 0, e, 0);
  }

  /** Three numbers and two binary operators: the second operator takes the
      middle number only when it binds strictly tighter than the first;
      otherwise the first operation is done first (left associativity). */
  lemma {:induction false} ThreeOperands(a: i32, o1: Token, b: i32, o2: Token, c: i32)
    requires Precedence(o1).Some? && Precedence(o2).Some?
    ensures Parse([Token.Num(a), o1, Token.Num(b), o2, Token.Num(c)]) ==
            Ok(if Precedence(o2).value > Precedence(o1).value
               then Binary(Expression.Num(a), o1, Binary(Expression.Num(b), o2, Expression.Num(c)))
               else Binary(Binary(Expression.Num(a), o1, Expression.Num(b)), o2, Expression.Num(c)))
  {
    var ts := [Token.Num(a), o1, Token.Num(b), o2, Token.Num(c)];
    var p1, p2 := Precedence(o1).value, Precedence(o2).value;
    assert Primary(ts, 4) == Ok((Expression.Num(c), 5));
    assert Expr(ts, 4, p2 + 1) == Ok((Expression.Num(c), 5));
    if p2 > p1 {
      ClimbOnce(ts, 3, p1 + 1, Expression.Num(b), Expression.Num(c), 5);
      assert Expr(ts, 2, p1 + 1) == Ok((Binary(Expression.Num(b), o2, Expression.Num(c)), 5));
      var right := Binary(Expression.Num(b), o2, Expression.Num(c));
      ClimbOnce(ts, 1, 0, Expression.Num(a), right, 5);
      assert Expr(ts, 0, 0) == Ok((Binary(Expression.Num(a), o1, right), 5));
    } else {
      assert Expr(ts, 2, p1 + 1) == Ok((Expression.Num(b), 3));
      ClimbOnce(ts, 3, 0, Binary(Expression.Num(a), o1, Expression.Num(b)), Expression.Num(c), 5);
      var left := Binary(Expression.Num(a), o1, Expression.Num(b));
      assert Climb(ts, 1, 0, Expression.Num(a)) == Climb(ts, 3, 0, left);
      assert Expr(ts, 0, 0) == Ok((Binary(left, o2, Expression.Num(c)), 5));
    }
  }

  /** Operator and number tokens alternating: `op1 n1 op2 n2 …`. */
  function Chain(rest: seq<(Token, i32)>): (ts: seq<Token>)
    ensures |ts| == 2 * |rest|
  {
    if |rest| == 0 then [] else [rest[0].0, Token.Num(rest[0].1)] + Chain(rest[1..])
  }

  /** The left fold of a chain onto `acc`: `((acc op1 n1) op2 n2) …`. */
  function FoldLeft(acc: Expression, rest: seq<(Token, i32)>): Expression
    decreases |rest|
  {
    if |rest| == 0 then acc
    else FoldLeft(Binary(acc, rest[0].0, Expression.Num(rest[0].1)), rest[1..])
  }

  /** The tokens of `ts` from `k` to the end are the chain `rest`. */
  predicate ChainAt(ts: seq<Token>, k: nat, rest: seq<(Token, i32)>) {
    && k + 2 * |rest| == |ts|
    && forall i :: 0 <= i < |rest| ==> ts[k + 2 * i] == rest[i].0 && ts[k + 2 * i + 1] == Token.Num(rest[i].1)
  }

  lemma {:induction false} ChainIndex(rest: seq<(Token, i32)>)
    ensures ChainAt(Chain(rest), 0, rest)
    decreases |rest|
  {
    if |rest| > 0 {
      ChainIndex(rest[1..]);
      var c := Chain(rest);
      assert c == [rest[0].0, Token.Num(rest[0].1)] + Chain(rest[1..]);
      forall i | 1 <= i < |rest|
        ensures c[2 * i] == rest[i].0 && c[2 * i + 1] == Token.Num(rest[i].1)
      {
        assert c[2 * i] == Chain(rest[1..])[2 * (i - 1)];
        assert c[2 * i + 1] == Chain(rest[1..])[2 * (i - 1) + 1];
      }
    }
  }

  /** A chain of operators of one precedence is folded to the left by the
      climb. */
  lemma {:induction false} ClimbChain(ts: seq<Token>, k: nat, minPrec: u8, acc: Expression, rest: seq<(Token, i32)>, p: u8)
    requires ChainAt(ts, k, rest) && WellFormed(acc) && minPrec <= p
    requires forall i :: 0 <= i < |rest| ==> Precedence(rest[i].0) == Some(p)
    ensures Climb(ts, k, minPrec, acc) == Ok((FoldLeft(acc, rest), |ts|))
    decreases |rest|
  {
    if |rest| > 0 {
      var op, n := rest[0].0, Expression.Num(rest[0].1);
      ClimbChainStep(ts, k, minPrec, acc, rest, p);
      ChainAtTail(ts, k, rest);
      ClimbChain(ts, k + 2, minPrec, Binary(acc, op, n), rest[1..], p);
    }
  }

  /** The climb over a chain takes its first operator and number. */
  lemma {:induction false} ClimbChainStep(ts: seq<Token>, k: nat, minPrec: u8, acc: Expression, rest: seq<(Token, i32)>, p: u8)
    requires ChainAt(ts, k, rest) && |rest| > 0 && WellFormed(acc) && minPrec <= p
    requires forall i :: 0 <= i < |rest| ==> Precedence(rest[i].0) == Some(p)
    ensures Climb(ts, k, minPrec, acc) == Climb(ts, k + 2, minPrec, Binary(acc, rest[0].0, Expression.Num(rest[0].1)))
  {
    var op, n := rest[0].0, Expression.Num(rest[0].1);
    assert ts[k + 2 * 0] == op && ts[k + 2 * 0 + 1] == Token.Num(rest[0].1);
    assert k + 2 < |ts| ==> ts[k + 2 * 1] == rest[1].0;
    assert Expr(ts, k + 1, p + 1) == Ok((n, k + 2));
  }

  /** What follows the first operator and number of a chain is the rest of
      the chain. */
  lemma {:induction false} ChainAtTail(ts: seq<Token>, k: nat, rest: seq<(Token, i32)>)
    requires ChainAt(ts, k, rest) && |rest| > 0
    ensures ChainAt(ts, k + 2, rest[1..])
  {
    forall i | 0 <= i < |rest| - 1
      ensures ts[k + 2 + 2 * i] == rest[1..][i].0 && ts[k + 2 + 2 * i + 1] == Token.Num(rest[1..][i].1)
    {
      assert ts[k + 2 * (i + 1)] == rest[i + 1].0;
      assert ts[k + 2 * (i + 1) + 1] == Token.Num(rest[i + 1].1);
    }
  }

  /** A number followed by a chain of operators of one precedence parses as
      the left fold: `1 - 2 - 3` is `(1 - 2) - 3`. */
  lemma {:induction false} ParseChain(a: i32, rest: seq<(Token, i32)>, p: u8)
    requires forall i :: 0 <= i < |rest| ==> Precedence(rest[i].0) == Some(p)
    ensures Parse([Token.Num(a)] + Chain(rest)) == Ok(FoldLeft(Expression.Num(a), rest))
  {
    var ts := [Token.Num(a)] + Chain(rest);
    ChainIndex(rest);
    assert ChainAt(ts, 1, rest) by {
      forall i | 0 <= i < |rest|
        ensures ts[1 + 2 * i] == rest[i].0 && ts[1 + 2 * i + 1] == Token.Num(rest[i].1)
      {
        assert ts[1 + 2 * i] == Chain(rest)[2 * i];
        assert ts[1 + (2 * i + 1)] == Chain(rest)[2 * i + 1];
      }
    }
    ClimbChain(ts, 1, 0, Expression.Num(a), rest, p);
    assert Expr(ts, 0, 0) == Climb(ts, 1, 0, Expression.Num(a));
  }

  /** The value of `acc op1 n1 op2 n2 …` worked out one operator at a time
      from the left, the way the tests read it: `None` when a step meets a
      token that is not an operator, divides by zero, or leaves `i32`. */
  function FoldValue(acc: int, rest: seq<(Token, i32)>): Option<int>
    decreases |rest|
  {
    if |rest| == 0 then Some(acc)
    else
      var op, n := rest[0].0, rest[0].1;
      if Precedence(op).None? || (op == Div && n == 0) then None
      else
        var v := Arith(op, acc, n);
        if InI32(v) then FoldValue(v, rest[1..]) else None
  }

  /** A left fold `eval` gets through has an innermost operand it gets
      through. */
  lemma {:induction false} FoldLeftInner(acc: Expression, rest: seq<(Token, i32)>)
    requires Evaluable(FoldLeft(acc, rest))
    ensures Evaluable(acc)
    decreases |rest|
  {
    if |rest| > 0 {
      FoldLeftInner(Binary(acc, rest[0].0, Expression.Num(rest[0].1)), rest[1..]);
    }
  }

  /** `eval` of a left fold is the operator-by-operator value of the chain:
      it panics exactly when some step does, and otherwise agrees with it. */
  lemma {:induction false} EvalFoldLeft(acc: Expression, rest: seq<(Token, i32)>)
    requires Evaluable(acc)
    ensures Evaluable(FoldLeft(acc, rest)) <==> FoldValue(Eval(acc), rest).Some?
    ensures Evaluable(FoldLeft(acc, rest)) ==> Eval(FoldLeft(acc, rest)) == FoldValue(Eval(acc), rest).value
    decreases |rest|
  {
    if |rest| > 0 {
      var next := Binary(acc, rest[0].0, Expression.Num(rest[0].1));
      assert Eval(Expression.Num(rest[0].1)) == rest[0].1;
      if Evaluable(next) {
        assert Eval(next) == Arith(rest[0].0, Eval(acc), rest[0].1);
        EvalFoldLeft(next, rest[1..]);
      } else {
        var op, n := rest[0].0, rest[0].1;
        assert Evaluable(Expression.Num(n));
        assert next == Binary(acc, op, Expression.Num(n));
        assert FoldValue(Eval(acc), rest).None?;
        if Evaluable(FoldLeft(acc, rest)) {
          FoldLeftInner(next, rest[1..]);
        }
      }
    }
  }

  /** A number followed by a chain of operators of one precedence evaluates,
      after parsing, to the chain's value taken from the left: the general
      form of `1 - 2 - 3` giving -4. */
  lemma {:induction false} ParseEvalChain(a: i32, rest: seq<(Token, i32)>, p: u8)
    requires forall i :: 0 <= i < |rest| ==> Precedence(rest[i].0) == Some(p)
    ensures var r := Parse([Token.Num(a)] + Chain(rest));
            && r.Ok?
            && (Evaluable(r.value) <==> FoldValue(a, rest).Some?)
            && (Evaluable(r.value) ==> Eval(r.value) == FoldValue(a, rest).value)
  {
    ParseChain(a, rest, p);
    EvalFoldLeft(Expression.Num(a), rest);
  }
}
