/** The unit tests of parser/src/lexer.rs, the example in the documentation
    of parser/src/parser.rs, and how the parser crate groups its operators,
    stated about the model. */
module CrateTests {
  import opened Prelude
  import C = ClimbingLexer
  import Lexer
  import opened Tokens
  import opened Parser
  import ClimbingTests

  lemma {:induction false} LexPlus()
    ensures Lexer.Lex("+") == Done([Lexer.Plus])
  {
    assert Lexer.ToClimbingAll([Lexer.Plus]) == [C.Plus];
    assert C.Render([C.Plus], " ") == "+";
    Lexer.LexRender([Lexer.Plus], " ");
  }

  lemma {:induction false} LexComplex()
    ensures Lexer.Lex("+ 123") == Done([Lexer.Plus, Lexer.Num(123)])
  {
    ClimbingTests.Decimal123();
    assert Lexer.ToClimbingAll([Lexer.Plus, Lexer.Num(123)]) == [C.Plus, C.Num(123)];
    assert C.Render([C.Plus, C.Num(123)], " ") == "+ 123";
    Lexer.LexRender([Lexer.Plus, Lexer.Num(123)], " ");
  }

  lemma {:induction false} LexNumber()
    ensures Lexer.Lex("123") == Done([Lexer.Num(123)])
  {
    ClimbingTests.Decimal123();
    assert Lexer.ToClimbingAll([Lexer.Num(123)]) == [C.Num(123)];
    assert C.Render([C.Num(123)], " ") == "123";
    Lexer.LexRender([Lexer.Num(123)], " ");
  }

  /** The documented example: `1+2` parses to a sum worth 3. */
  lemma {:induction false} ParseSum(ts: seq<Token>)
    requires Kinds(ts) == [Num(1), Plus, Num(2)]
    ensures Parse(ts) == Ok(Binary(Value(1), Plus, Value(2)))
    ensures Eval(Parse(ts).value) == 3
  {
    assert ts[0].kind == Num(1) && ts[1].kind == Plus && ts[2].kind == Num(2) && |ts| == 3;
    assert Expr(ts, 2, RhsPrec(Plus)) == Ok((Value(2), 3));
    ClimbOnce(ts, 1, 0, Value(1), Value(2), 3);
    assert Expr(ts, 0, 0) == Ok((Binary(Value(1), Plus, Value(2)), 3));
  }

  /** `1 + 2 * 3` puts the product under the sum, as the parser's
      documentation draws it. */
  lemma {:induction false} ProductUnderSum(ts: seq<Token>)
    requires Kinds(ts) == [Num(1), Plus, Num(2), Mul, Num(3)]
    ensures Parse(ts) == Ok(Binary(Value(1), Plus, Binary(Value(2), Mul, Value(3))))
    ensures Eval(Parse(ts).value) == 7
  {
    ThreeOperands(ts, 1, Plus, 2, Mul, 3);
  }

  /** Subtraction groups to the left: `1 - 2 - 3` is `(1 - 2) - 3`. */
  lemma {:induction false} DifferenceGroupsLeft(ts: seq<Token>)
    requires Kinds(ts) == [Num(1), Minus, Num(2), Minus, Num(3)]
    ensures Parse(ts) == Ok(Binary(Binary(Value(1), Minus, Value(2)), Minus, Value(3)))
    ensures Eval(Parse(ts).value) == -4
  {
    ThreeOperands(ts, 1, Minus, 2, Minus, 3);
  }

  /** `^` groups to the right: `2 ^ 3 ^ 2` is `2 ^ 9`. */
  lemma {:induction false} PowerGroupsRight(ts: seq<Token>)
    requires Kinds(ts) == [Num(2), Pow, Num(3), Pow, Num(2)]
    ensures Parse(ts) == Ok(Binary(Value(2), Pow, Binary(Value(3), Pow, Value(2))))
    ensures Eval(Parse(ts).value) == 512
  {
    ThreeOperands(ts, 2, Pow, 3, Pow, 2);
    assert Prelude.Pow(3, 2) == 9;
    assert Prelude.Pow(2, 9) == 512;
  }

  /** `^` binds tighter than unary minus: `-2 ^ 2` is `-(2 ^ 2)`. */
  lemma {:induction false} MinusOfPower(ts: seq<Token>)
    requires Kinds(ts) == [Minus, Num(2), Pow, Num(2)]
    ensures Parse(ts) == Ok(Unary(Minus, Binary(Value(2), Pow, Value(2))))
    ensures Eval(Parse(ts).value) == -4
  {
    MinusBeforeOperator(ts, 2, Pow, 2);
    assert Prelude.Pow(2, 2) == 4;
  }

  /** Unary minus binds tighter than `*`: `-2 * 3` is `(-2) * 3`. */
  lemma {:induction false} MinusOfFactor(ts: seq<Token>)
    requires Kinds(ts) == [Minus, Num(2), Mul, Num(3)]
    ensures Parse(ts) == Ok(Binary(Unary(Minus, Value(2)), Mul, Value(3)))
    ensures Eval(Parse(ts).value) == -6
  {
    MinusBeforeOperator(ts, 2, Mul, 3);
  }
}
