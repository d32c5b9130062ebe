/** parser/src/evaluator.rs: the tree-walking evaluator over the syntax tree
    of parser/src/ast.rs. It has no environment, handles unary minus, the
    four arithmetic operators, `^` and the four ordering comparisons, and
    answers a comparison with 1 or 0. */
module Evaluator {
  import opened Prelude
  import opened Ast
  import P = Parser
  import Tokens

  /** The binary operators `eval` has an arm for; `Eq`, `Neq` and `Assign`
      have none. */
  predicate Handled(op: BinaryOp) {
    !(op.Eq? || op.Neq? || op.Assign?)
  }

  /** The value of one binary arm on unbounded integers. */
  function Arith(op: BinaryOp, a: i32, b: i32): int
    requires Handled(op) && (op.Div? ==> b != 0)
  {
    match op
    case Plus => a + b
    case Minus => a - b
    case Mul => a * b
    case Div => TruncDiv(a, b)
    case Pow => Prelude.Pow(a, AsU32(b))
    case Gt => if a > b then 1 else 0
    case GtEq => if a >= b then 1 else 0
    case Lt => if a < b then 1 else 0
    case LtEq => if a <= b then 1 else 0
  }

  /** The trees `eval` gets through without a panic: no variables and no
      operator without an arm, no division by zero, every intermediate
      result within `i32`. */
  predicate Evaluable(e: Expression)
    decreases e, 0
  {
    match e
    case Value(_) => true
    case Var(_) => false
    case Unary(_, x) => Evaluable(x) && InI32(-(Eval(x) as int))
    case Binary(l, op, r) =>
      && Evaluable(l) && Evaluable(r) && Handled(op)
      && (op.Div? ==> Eval(r) != 0)
      && InI32(Arith(op, Eval(l), Eval(r)))
  }

  /** `Evaluator::eval`. */
  function Eval(e: Expression): (r: i32)
    requires Evaluable(e)
    ensures e.Value? ==> r == e.v
    ensures e.Unary? ==> r == -Eval(e.expr)
    ensures e.Binary? && IsComparison(e.op) ==> r == 0 || r == 1
    ensures e.Binary? && e.op.Gt? ==> (r == 1 <==> Eval(e.lhs) > Eval(e.rhs))
    ensures e.Binary? && e.op.GtEq? ==> (r == 1 <==> Eval(e.lhs) >= Eval(e.rhs))
    ensures e.Binary? && e.op.Lt? ==> (r == 1 <==> Eval(e.lhs) < Eval(e.rhs))
    ensures e.Binary? && e.op.LtEq? ==> (r == 1 <==> Eval(e.lhs) <= Eval(e.rhs))
    decreases e, 1
  {
    match e
    case Value(v) => v
    case Unary(_, x) => -Eval(x)
    case Binary(l, op, r) => Arith(op, Eval(l), Eval(r))
  }

  /** The comparisons are each other's mirror images and complements: `a > b`
      is `b < a`, and exactly one of `a > b` and `a <= b` holds. */
  lemma {:induction false} ComparisonsAgree(l: Expression, r: Expression)
    requires Evaluable(l) && Evaluable(r)
    ensures Evaluable(Binary(l, Gt, r)) && Evaluable(Binary(r, Lt, l))
    ensures Evaluable(Binary(l, LtEq, r)) && Evaluable(Binary(l, GtEq, r)) && Evaluable(Binary(r, LtEq, l))
    ensures Eval(Binary(l, Gt, r)) == Eval(Binary(r, Lt, l))
    ensures Eval(Binary(l, GtEq, r)) == Eval(Binary(r, LtEq, l))
    ensures Eval(Binary(l, Gt, r)) + Eval(Binary(l, LtEq, r)) == 1
  {
  }

  /** The parser's tree as a tree of parser/src/ast.rs: each operator token
      becomes the `BinaryOp` `TryFromKind` maps it to. */
  function FromParsed(e: P.Expression): (r: Expression)
    requires P.WellFormed(e)
    ensures r.Value? <==> e.Value?
  {
    match e
    case Value(v) => Value(v)
    case Unary(_, x) => Unary(UnaryOp.Minus, FromParsed(x))
    case Binary(l, k, r) => Binary(FromParsed(l), TryFromKind(k).value, FromParsed(r))
  }

  /** `/` panics on a zero divisor and on `i32::MIN / -1`; otherwise the
      quotient, rounded toward zero, is no larger in magnitude than the
      dividend. The parser's own `/` arm is covered by
      `Parser.DivisionOperator`. */
  lemma {:induction false} DivisionOperator(l: Expression, r: Expression)
    requires Evaluable(l) && Evaluable(r)
    ensures Evaluable(Binary(l, Div, r)) <==> Eval(r) != 0 && !(Eval(l) == I32_MIN && Eval(r) == -1)
    ensures Evaluable(Binary(l, Div, r)) ==> Abs(Eval(Binary(l, Div, r))) <= Abs(Eval(l))
  {
    if Eval(r) != 0 {
      DivWrap(Eval(l), Eval(r));
    }
  }

  /** `^` with the exponent cast to `u32`: the power for a non-negative
      exponent, and for a negative one a value only for the bases -1, 0
      and 1. The parser's `Expression::eval` has its own `^` arm, which
      `Parser.PowerOperator` covers. */
  lemma {:induction false} PowerOperator(l: Expression, r: Expression)
    requires Evaluable(l) && Evaluable(r)
    ensures Eval(r) >= 0 ==> (Evaluable(Binary(l, Pow, r)) <==> InI32(Prelude.Pow(Eval(l), Eval(r))))
    ensures Eval(r) >= 0 && Evaluable(Binary(l, Pow, r)) ==> Eval(Binary(l, Pow, r)) == Prelude.Pow(Eval(l), Eval(r))
    ensures Eval(r) < 0 ==> (Evaluable(Binary(l, Pow, r)) <==> -1 <= Eval(l) <= 1)
  {
    PowWrap(Eval(l), Eval(r));
  }

  /** The evaluator and the parser's own `eval` agree: on a tree the parser
      builds, one panics exactly when the other does, and otherwise both give
      the same value. */
  lemma {:induction false} EvalAgrees(e: P.Expression)
    requires P.WellFormed(e)
    ensures Evaluable(FromParsed(e)) <==> P.Evaluable(e)
    ensures P.Evaluable(e) ==> Eval(FromParsed(e)) == P.Eval(e)
    decreases e
  {
    match e
    case Value(_) =>
    case Unary(_, x) =>
      EvalAgrees(x);
    case Binary(l, k, r) =>
      EvalAgrees(l);
      EvalAgrees(r);
      BinaryAgrees(l, k, r);
  }

  /** A binary node evaluates alike in both once its operands do. */
  lemma {:induction false} BinaryAgrees(l: P.Expression, k: Tokens.TokenKind, r: P.Expression)
    requires P.WellFormed(P.Binary(l, k, r))
    requires Evaluable(FromParsed(l)) <==> P.Evaluable(l)
    requires P.Evaluable(l) ==> Eval(FromParsed(l)) == P.Eval(l)
    requires Evaluable(FromParsed(r)) <==> P.Evaluable(r)
    requires P.Evaluable(r) ==> Eval(FromParsed(r)) == P.Eval(r)
    ensures Evaluable(FromParsed(P.Binary(l, k, r))) <==> P.Evaluable(P.Binary(l, k, r))
    ensures P.Evaluable(P.Binary(l, k, r)) ==> Eval(FromParsed(P.Binary(l, k, r))) == P.Eval(P.Binary(l, k, r))
  {
    if P.Evaluable(l) && P.Evaluable(r) && (k == Tokens.Div ==> P.Eval(r) != 0) {
      ArithAgrees(k, P.Eval(l), P.Eval(r));
    } else {
      ArithAgrees(k, 0, 1);
    }
  }

  /** An operator token's arm in the parser's `eval` computes what the arm
      of the `BinaryOp` it maps to computes. */
  lemma {:induction false} ArithAgrees(k: Tokens.TokenKind, a: i32, b: i32)
    requires P.IsBinary(k) && (k == Tokens.Div ==> b != 0)
    ensures var op := TryFromKind(k).value;
            && Handled(op) && (op.Div? <==> k == Tokens.Div)
            && Arith(op, a, b) == P.Arith(k, a, b)
  {
  }
}
