/** parser/src/ast.rs: the precedence levels, the operator table and the
    syntax tree of the statement-level language. */
module Ast {
  import opened Prelude
  import opened Tokens

  /** The `prec` constants, from the loosest level to the tightest. */
  const LOWEST: u8 := 0
  const ASSIGN: u8 := 1
  const COMPARE: u8 := 2
  const PLUS: u8 := 3
  const MUL: u8 := 4
  const UNARY: u8 := 5
  const POW: u8 := 6

  datatype Assoc = Left | Right

  /** How tightly an operator binds and which way it groups. */
  datatype OpInfo = OpInfo(prec: u8, assoc: Assoc) {
    /** `binds_at`: the operator may be taken by a climb at level `minPrec`. */
    predicate BindsAt(minPrec: u8) {
      prec >= minPrec
    }
  }

  datatype BinaryOp = Plus | Minus | Mul | Div | Pow | Eq | Neq | Gt | GtEq | Lt | LtEq | Assign

  datatype UnaryOp = Minus

  predicate IsComparison(op: BinaryOp) {
    op.Eq? || op.Neq? || op.Gt? || op.GtEq? || op.Lt? || op.LtEq?
  }

  /** The token kinds that name a binary operator. */
  predicate IsOperatorKind(k: TokenKind) {
    !(k.Num? || k.LeftParen? || k.RightParen?)
  }

  /** `TryFrom<&TokenKind> for BinaryOp`: the same-named operator, `Err(())`
      for numbers and parentheses. */
  function TryFromKind(k: TokenKind): (r: Result<BinaryOp, ()>)
    ensures r.Ok? <==> IsOperatorKind(k)
    ensures r.Ok? ==> KindOf(r.value) == k
  {
    match k
    case Plus => Ok(BinaryOp.Plus)
    case Minus => Ok(BinaryOp.Minus)
    case Mul => Ok(BinaryOp.Mul)
    case Div => Ok(BinaryOp.Div)
    case Pow => Ok(BinaryOp.Pow)
    case Eq => Ok(BinaryOp.Eq)
    case Neq => Ok(BinaryOp.Neq)
    case Gt => Ok(BinaryOp.Gt)
    case Lt => Ok(BinaryOp.Lt)
    case GtEq => Ok(BinaryOp.GtEq)
    case LtEq => Ok(BinaryOp.LtEq)
    case Assign => Ok(BinaryOp.Assign)
    case _ => Err(())
  }

  /** The token kind spelling each operator: an independent table to check
      `TryFromKind` against. */
  function KindOf(op: BinaryOp): (k: TokenKind)
    ensures IsOperatorKind(k)
  {
    match op
    case Plus => TokenKind.Plus
    case Minus => TokenKind.Minus
    case Mul => TokenKind.Mul
    case Div => TokenKind.Div
    case Pow => TokenKind.Pow
    case Eq => TokenKind.Eq
    case Neq => TokenKind.Neq
    case Gt => TokenKind.Gt
    case GtEq => TokenKind.GtEq
    case Lt => TokenKind.Lt
    case LtEq => TokenKind.LtEq
    case Assign => TokenKind.Assign
  }

  /** `TryFromKind` and `KindOf` are inverse: every operator comes from
      exactly its own kind, so the mapping is injective. */
  lemma {:induction false} TryFromKindInverse(k: TokenKind, op: BinaryOp)
    ensures TryFromKind(k) == Ok(op) <==> k == KindOf(op)
  {
  }

  lemma {:induction false} TryFromKindInjective(k1: TokenKind, k2: TokenKind)
    requires TryFromKind(k1).Ok? && TryFromKind(k1) == TryFromKind(k2)
    ensures k1 == k2
  {
    TryFromKindInverse(k1, TryFromKind(k1).value);
    TryFromKindInverse(k2, TryFromKind(k1).value);
  }

  /** `BinaryOp::op_info`. */
  function OpInfoOf(op: BinaryOp): (r: OpInfo)
    ensures r.assoc == Right <==> op.Pow? || op.Assign?
    ensures r.prec == COMPARE <==> IsComparison(op)
    ensures r.prec == PLUS <==> op.Plus? || op.Minus?
    ensures r.prec == MUL <==> op.Mul? || op.Div?
    ensures r.prec == POW <==> op.Pow?
    ensures r.prec == ASSIGN <==> op.Assign?
  {
    match op
    case Eq | Neq | Gt | GtEq | Lt | LtEq => OpInfo(COMPARE, Left)
    case Plus | Minus => OpInfo(PLUS, Left)
    case Mul | Div => OpInfo(MUL, Left)
    case Pow => OpInfo(POW, Right)
    case Assign => OpInfo(ASSIGN, Right)
  }

  /** The levels strictly increase, every operator binds at `LOWEST`, and
      unary minus sits above every binary operator except `^`. */
  lemma {:induction false} Levels(op: BinaryOp)
    ensures LOWEST < ASSIGN < COMPARE < PLUS < MUL < UNARY < POW
    ensures OpInfoOf(op).BindsAt(LOWEST)
    ensures OpInfoOf(op).BindsAt(UNARY) <==> op.Pow?
  {
  }

  datatype Expression =
    | Unary(uop: UnaryOp, expr: Expression)
    | Binary(lhs: Expression, op: BinaryOp, rhs: Expression)
    | Value(v: i32)
    | Var(name: string)

  /** `If`, `While` and `For` are folded into the statement type; `then` is
      a keyword here, so the branch is `thenBody`. */
  datatype Statement =
    | ExpressionStatement(e: Expression)
    | BlockStatement(stmts: seq<Statement>)
    | If(cond: Expression, thenBody: seq<Statement>)
    | While(whileCond: Expression, body: seq<Statement>)
    | For(init: Option<Expression>, forCond: Option<Expression>, update: Option<Expression>, forBody: seq<Statement>)

  datatype Program = Program(body: seq<Statement>)
}
