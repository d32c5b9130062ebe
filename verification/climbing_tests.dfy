/** The unit tests of climbing-parser/src/main.rs, stated about the model:
    each input is lexed, and its tokens parsed and evaluated, as the test
    expects. */
module ClimbingTests {
  import opened Prelude
  import opened Text
  import opened ClimbingLexer
  import opened ClimbingRoundTrip
  import opened ClimbingParser

  lemma {:induction false} Decimal123()
    ensures Decimal(123) == "123"
  {
    assert Decimal(1) == "1";
    assert Decimal(12) == "12";
  }

  /** The lexer tests, and the lexing of every input the parser tests use. */
  lemma {:induction false} LexPlus()
    ensures Lex("+") == Done([Plus])
  {
    assert Render([Plus], " ") == "+";
    LexRender([Plus], " ");
  }

  lemma {:induction false} LexNumber()
    ensures Lex("123") == Done([Token.Num(123)])
  {
    Decimal123();
    assert Render([Token.Num(123)], " ") == "123";
    LexRender([Token.Num(123)], " ");
  }

  lemma {:induction false} LexPlusNumber()
    ensures Lex("+ 123") == Done([Plus, Token.Num(123)])
  {
    Decimal123();
    assert Render([Plus, Token.Num(123)], " ") == "+ 123";
    LexRender([Plus, Token.Num(123)], " ");
  }

  lemma {:induction false} LexParenthesis()
    ensures Lex("(1)") == Done([LeftParen, Token.Num(1), RightParen])
  {
    assert Render([LeftParen, Token.Num(1), RightParen], "") == "(1)";
    LexRender([LeftParen, Token.Num(1), RightParen], "");
  }

  lemma {:induction false} LexUnaryMinus()
    ensures Lex("-1") == Done([Minus, Token.Num(1)])
  {
    assert Render([Minus, Token.Num(1)], "") == "-1";
    LexRender([Minus, Token.Num(1)], "");
  }

  lemma {:induction false} LexSum()
    ensures Lex("1 + 2") == Done([Token.Num(1), Plus, Token.Num(2)])
  {
    assert Render([Token.Num(1), Plus, Token.Num(2)], " ") == "1 + 2";
    LexRender([Token.Num(1), Plus, Token.Num(2)], " ");
  }

  lemma {:induction false} LexWithoutSpace()
    ensures Lex("1+2") == Done([Token.Num(1), Plus, Token.Num(2)])
  {
    assert Render([Token.Num(1), Plus, Token.Num(2)], "") == "1+2";
    LexRender([Token.Num(1), Plus, Token.Num(2)], "");
  }

  lemma {:induction false} LexDifference()
    ensures Lex("1 - 2 - 3") == Done([Token.Num(1), Minus, Token.Num(2), Minus, Token.Num(3)])
  {
    assert Render([Token.Num(1), Minus, Token.Num(2), Minus, Token.Num(3)], " ") == "1 - 2 - 3";
    LexRender([Token.Num(1), Minus, Token.Num(2), Minus, Token.Num(3)], " ");
  }

  lemma {:induction false} LexSumOfThree()
    ensures Lex("1 + 2 + 3") == Done([Token.Num(1), Plus, Token.Num(2), Plus, Token.Num(3)])
  {
    assert Render([Token.Num(1), Plus, Token.Num(2), Plus, Token.Num(3)], " ") == "1 + 2 + 3";
    LexRender([Token.Num(1), Plus, Token.Num(2), Plus, Token.Num(3)], " ");
  }

  lemma {:induction false} LexProductOfThree()
    ensures Lex("1*2*3") == Done([Token.Num(1), Mul, Token.Num(2), Mul, Token.Num(3)])
  {
    assert Render([Token.Num(1), Mul, Token.Num(2), Mul, Token.Num(3)], "") == "1*2*3";
    LexRender([Token.Num(1), Mul, Token.Num(2), Mul, Token.Num(3)], "");
  }

  lemma {:induction false} LexPriority()
    ensures Lex("1+2*3") == Done([Token.Num(1), Plus, Token.Num(2), Mul, Token.Num(3)])
  {
    assert Render([Token.Num(1), Plus, Token.Num(2), Mul, Token.Num(3)], "") == "1+2*3";
    LexRender([Token.Num(1), Plus, Token.Num(2), Mul, Token.Num(3)], "");
  }

  lemma {:induction false} LexWithParen()
    ensures Lex("(1+2)") == Done([LeftParen, Token.Num(1), Plus, Token.Num(2), RightParen])
  {
    assert Render([LeftParen, Token.Num(1), Plus, Token.Num(2), RightParen], "") == "(1+2)";
    LexRender([LeftParen, Token.Num(1), Plus, Token.Num(2), RightParen], "");
  }

  lemma {:induction false} LexWithParenPrecedence()
    ensures Lex("(1+2)*3") == Done([LeftParen, Token.Num(1), Plus, Token.Num(2), RightParen, Mul, Token.Num(3)])
  {
    assert Render([RightParen, Mul, Token.Num(3)], "") == ")*3";
    assert Render([LeftParen, Token.Num(1), Plus, Token.Num(2), RightParen, Mul, Token.Num(3)], "") == "(1+2)*3";
    LexRender([LeftParen, Token.Num(1), Plus, Token.Num(2), RightParen, Mul, Token.Num(3)], "");
  }

  lemma {:induction false} LexUnmatchedLeftParen()
    ensures Lex("(1+2") == Done([LeftParen, Token.Num(1), Plus, Token.Num(2)])
  {
    assert Render([LeftParen, Token.Num(1), Plus, Token.Num(2)], "") == "(1+2";
    LexRender([LeftParen, Token.Num(1), Plus, Token.Num(2)], "");
  }

  lemma {:induction false} LexUnmatchedRightParen()
    ensures Lex("1+2)") == Done([Token.Num(1), Plus, Token.Num(2), RightParen])
  {
    assert Render([Token.Num(1), Plus, Token.Num(2), RightParen], "") == "1+2)";
    LexRender([Token.Num(1), Plus, Token.Num(2), RightParen], "");
  }

  /** `"(1)"` is the number alone. */
  lemma {:induction false} ParseParenthesis()
    ensures Parse([LeftParen, Token.Num(1), RightParen]) == Ok(Expression.Num(1))
  {
    var ts := [LeftParen, Token.Num(1), RightParen];
    assert Expr(ts, 1, 0) == Ok((Expression.Num(1), 2));
    PrimaryParen(ts, 0, Expression.Num(1), 2);
  }

  /** `"-1"` is a unary minus on 1 and evaluates to -1. */
  lemma {:induction false} ParseUnaryMinus()
    ensures Parse([Minus, Token.Num(1)]) == Ok(Unary(Minus, Expression.Num(1)))
    ensures Eval(Unary(Minus, Expression.Num(1))) == -1
  {
    var ts := [Minus, Token.Num(1)];
    assert Expr(ts, 1, 3) == Ok((Expression.Num(1), 2));
  }

  /** `"1 + 2"` and `"1+2"` are a sum that evaluates to 3. */
  lemma {:induction false} ParseSum()
    ensures Parse([Token.Num(1), Plus, Token.Num(2)]) == Ok(Binary(Expression.Num(1), Plus, Expression.Num(2)))
    ensures Eval(Binary(Expression.Num(1), Plus, Expression.Num(2))) == 3
  {
    ParseChain(1, [(Plus, 2)], 1);
    assert [Token.Num(1)] + Chain([(Plus, 2)]) == [Token.Num(1), Plus, Token.Num(2)];
  }

  /** `"1 - 2 - 3"` associates to the left and evaluates to -4. */
  lemma {:induction false} ParseDifference()
    ensures Parse([Token.Num(1), Minus, Token.Num(2), Minus, Token.Num(3)])
            == Ok(Binary(Binary(Expression.Num(1), Minus, Expression.Num(2)), Minus, Expression.Num(3)))
  {
    ThreeOperands(1, Minus, 2, Minus, 3);
  }

  lemma {:induction false} EvalDifference()
    ensures Eval(Binary(Binary(Expression.Num(1), Minus, Expression.Num(2)), Minus, Expression.Num(3))) == -4
  {
  }

  /** `"1 + 2 + 3"` evaluates to 6. */
  lemma {:induction false} ParseSumOfThree()
    ensures Parse([Token.Num(1), Plus, Token.Num(2), Plus, Token.Num(3)])
            == Ok(Binary(Binary(Expression.Num(1), Plus, Expression.Num(2)), Plus, Expression.Num(3)))
  {
    ThreeOperands(1, Plus, 2, Plus, 3);
  }

  lemma {:induction false} EvalSumOfThree()
    ensures Eval(Binary(Binary(Expression.Num(1), Plus, Expression.Num(2)), Plus, Expression.Num(3))) == 6
  {
  }

  /** `"1*2*3"` evaluates to 6. */
  lemma {:induction false} ParseProductOfThree()
    ensures Parse([Token.Num(1), Mul, Token.Num(2), Mul, Token.Num(3)])
            == Ok(Binary(Binary(Expression.Num(1), Mul, Expression.Num(2)), Mul, Expression.Num(3)))
  {
    ThreeOperands(1, Mul, 2, Mul, 3);
  }

  lemma {:induction false} EvalProductOfThree()
    ensures Eval(Binary(Binary(Expression.Num(1), Mul, Expression.Num(2)), Mul, Expression.Num(3))) == 6
  {
  }

  /** `"1+2*3"`: the product is the right operand of the sum; 7. */
  lemma {:induction false} ParsePriority()
    ensures Parse([Token.Num(1), Plus, Token.Num(2), Mul, Token.Num(3)])
            == Ok(Binary(Expression.Num(1), Plus, Binary(Expression.Num(2), Mul, Expression.Num(3))))
  {
    ThreeOperands(1, Plus, 2, Mul, 3);
  }

  lemma {:induction false} EvalPriority()
    ensures Eval(Binary(Expression.Num(1), Plus, Binary(Expression.Num(2), Mul, Expression.Num(3)))) == 7
  {
  }

  /** `"(1+2)"` is the sum itself. */
  lemma {:induction false} ParseWithParen()
    ensures Parse([LeftParen, Token.Num(1), Plus, Token.Num(2), RightParen])
            == Ok(Binary(Expression.Num(1), Plus, Expression.Num(2)))
  {
    var e := Binary(Expression.Num(1), Plus, Expression.Num(2));
    assert Unparse(e) == [LeftParen, Token.Num(1), Plus, Token.Num(2), RightParen];
    ParseUnparse(e);
  }

  /** `"(1+2)*3"`: the parenthesised sum is the left operand; 9. */
  lemma {:induction false} ParseWithParenPrecedence()
    ensures Parse([LeftParen, Token.Num(1), Plus, Token.Num(2), RightParen, Mul, Token.Num(3)])
            == Ok(Binary(Binary(Expression.Num(1), Plus, Expression.Num(2)), Mul, Expression.Num(3)))
  {
    var ts := [LeftParen, Token.Num(1), Plus, Token.Num(2), RightParen, Mul, Token.Num(3)];
    var sum := Binary(Expression.Num(1), Plus, Expression.Num(2));
    SumInParens(ts);
    assert Expr(ts, 6, 3) == Ok((Expression.Num(3), 7));
    ClimbOnce(ts, 5, 0, sum, Expression.Num(3), 7);
  }

  /** `(1+2)` at the front of the tokens is a primary. */
  lemma {:induction false} SumInParens(ts: seq<Token>)
    requires |ts| >= 5 && ts[..5] == [LeftParen, Token.Num(1), Plus, Token.Num(2), RightParen]
    ensures Primary(ts, 0) == Ok((Binary(Expression.Num(1), Plus, Expression.Num(2)), 5))
  {
    var sum := Binary(Expression.Num(1), Plus, Expression.Num(2));
    assert forall i :: 0 <= i < Width(sum) ==> ts[0 + i] == ts[..5][i] == Unparse(sum)[i];
    UnparseAt(ts, 0, sum);
    PrimaryUnparsed(ts, 0, sum);
  }

  lemma {:induction false} EvalWithParenPrecedence()
    ensures Eval(Binary(Binary(Expression.Num(1), Plus, Expression.Num(2)), Mul, Expression.Num(3))) == 9
  {
  }

  /** `"(1+2"` aborts: the parenthesis is never closed. */
  lemma {:induction false} ParseUnmatchedLeftParen()
    ensures Parse([LeftParen, Token.Num(1), Plus, Token.Num(2)]) == Err(MissingClosingParen)
  {
    var ts := [LeftParen, Token.Num(1), Plus, Token.Num(2)];
    assert Expr(ts, 3, 2) == Ok((Expression.Num(2), 4));
    ClimbOnce(ts, 2, 0, Expression.Num(1), Expression.Num(2), 4);
    ParenNotClosed(ts, Binary(Expression.Num(1), Plus, Expression.Num(2)));
  }

  /** `"1+2)"` aborts: the `)` is left over. */
  lemma {:induction false} ParseUnmatchedRightParen()
    ensures Parse([Token.Num(1), Plus, Token.Num(2), RightParen]) == Err(TrailingToken(RightParen))
  {
    var ts := [Token.Num(1), Plus, Token.Num(2), RightParen];
    assert Expr(ts, 2, 2) == Ok((Expression.Num(2), 3));
    ClimbOnce(ts, 1, 0, Expression.Num(1), Expression.Num(2), 3);
  }
}
