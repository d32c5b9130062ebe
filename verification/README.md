# Arithmetic front ends and a poker hand evaluator, in Dafny

This project models three small Rust programs and proves properties of the
models.

- **climbing-parser.** A lexer turns text into tokens. It skips whitespace,
  reads a maximal run of ASCII digits as one number, and advances its byte
  position by each character's UTF-8 length. A precedence-climbing parser
  builds `Binary`/`Unary`/`Num` trees, and `eval` computes their value.
- **The `parser` crate.**
  - A second lexer that ends the scan with an `Eof` token and rejects
    parentheses.
  - A table-driven precedence climber with a right-associative `^`, a
    separate unary table, and `SyntaxError`s that carry token spans.
  - The `ast` operator tables.
  - A tree-walking evaluator whose comparisons yield 0 or 1.
  - An AArch64 code generator with a push/pop stack discipline.
  - The caret-underline error formatter.
- **simple-porker.** Card validity and the deck's contents, drawing and
  exchanging cards, the sliding-window straight check with the Ace counting
  low or high, the pair check, ranking, and the straight hands the tests
  build.

Rust panics are modelled in three ways:
- **Preconditions.** Overflow, division by zero and `unreachable!` arms
  during evaluation (`Evaluable`), and the `unimplemented!` arms of code
  generation (`Generatable`).
- **Explicit outcomes.** An `i32` overflow in the lexer's `parse().unwrap()`
  is the `Panic` case of `Outcome`. The prototype parser's panics are
  `Abort` values.
- **`None`.** `Card::new` out of range.

Some panics are instead excluded by a precondition, so the model says
nothing about inputs that reach them:
- `format_error` on a span whose `end` is before its `start`: `end - start`
  underflows `usize` (parser/src/error.rs:67).
- `wrap(0)` in `Hands::straight`: `n - 1` underflows `u8`
  (simple-porker/src/main.rs:282).
- `Hands::straight` with `start > 251`: `start + 4` overflows `u8`
  (simple-porker/src/main.rs:286-290).
- `Deck::draw` on an empty deck and `exchange` with a card that is not in
  the hand: both `unwrap` a `None` (simple-porker/src/main.rs:113, 270).

The prototype's `parse` checks with `debug_assert!` that no token is left
over (climbing-parser/src/main.rs:277). The model treats that check as
active, as in a debug build.

Both lexers share one cursor model (`Scanner`). It keeps the character index
that `seq<char>` needs next to the byte offset that the Rust code keeps, and
proves the two always agree.

Modules, in dependency order:

| module | models |
|---|---|
| Prelude | `Option`, `Result`, `Outcome`; `i32`/`u8`; Rust's truncating `/`; `pow`; `as u32` |
| Text | UTF-8 widths, `is_whitespace`, digits, decimal printing, `repeat`, `join("\n")` and its inverse |
| Scanner | `Lexer::new`, `peek`, `bump`, `skip_whitespace`, `next_number` |
| ClimbingLexer, ClimbingRoundTrip | the prototype's lexer, and the proof that rendered tokens lex back |
| ClimbingParser | the prototype's parser and evaluator |
| ClimbingTests | the prototype's unit tests |
| Tokens | the `Span`, `TokenKind` and `Token` types the crate's parser assumes |
| Ast, Lexer, Parser, Evaluator, Codegen, Errors | the crate's files of the same names |
| CrateTests | the crate lexer's unit tests, the parser's documented example, and the grouping of `-`, `^` and unary minus |
| Poker | simple-porker |

## Model

| member | source | states |
|---|---|---|
| Prelude.TruncDiv | climbing-parser/src/main.rs:246 | Rust's `/` on integers: the remainder is smaller than the divisor in magnitude and never has the opposite sign of the dividend (rounding toward zero, unlike Dafny's `/`) |
| Prelude.AsU32 | parser/src/parser.rs:66 | `x as u32` is the value modulo 2^32, in 0..2^32 |
| Prelude.PowWrap | parser/src/parser.rs:66 | `a.pow(b as u32)` is `a` to the `b` when `b >= 0`; when `b < 0` it fits in `i32` exactly for the bases -1, 0 and 1 |
| Prelude.DivWrap | parser/src/parser.rs:65 | Rust's `/` with a non-zero divisor is no larger in magnitude than the dividend and leaves `i32` only for `i32::MIN / -1` |
| Text.CharLen | climbing-parser/src/main.rs:128 | `len_utf8` is 1 to 4 bytes, and 1 exactly for ASCII |
| Text.DecimalRoundTrip | climbing-parser/src/main.rs:144-146 | reading back the decimal spelling of a number gives the number |
| Text.FormatInt | parser/src/codegen.rs:191 | an `i32` prints as its decimal digits, with a leading `-` exactly when it is negative |
| Text.IsWhitespace | climbing-parser/src/main.rs:111 | `is_whitespace` on ASCII is exactly space, tab, line feed, vertical tab, form feed and carriage return, and no digit is whitespace |
| Text.Repeat | parser/src/error.rs:66-67 | `repeat` gives `n` copies of the character and nothing else |
| Text.SplitJoin | parser/src/error.rs:68 | lines joined with `"\n"` split back into the same lines when none holds a newline |
| Scanner.Start | climbing-parser/src/main.rs:57-59 | a new lexer stands at character 0 and byte 0 |
| Scanner.Peek | climbing-parser/src/main.rs:118-120 | `peek` is `None` exactly at the end of the input, and is otherwise the next character |
| Scanner.Bump | climbing-parser/src/main.rs:123-131 | `bump` returns what `peek` would; it moves nothing at the end of the input and otherwise moves one character and that character's UTF-8 length in bytes |
| Scanner.SkipWhitespace | climbing-parser/src/main.rs:109-116 | `skip_whitespace` moves forward over the same input and stops at the end or before a character that is not whitespace |
| Scanner.SkipWhitespaceRun | climbing-parser/src/main.rs:109-116 | `skip_whitespace` passes over whitespace only, and stops before a character that is not whitespace or at the end |
| Scanner.SkipNoSpace | climbing-parser/src/main.rs:109-116 | `skip_whitespace` does not move off a character that is not whitespace |
| Scanner.NextNumber | climbing-parser/src/main.rs:133-147 | a number read by `next_number` is non-negative and leaves the cursor just past the digit run |
| Scanner.NextNumberReads | climbing-parser/src/main.rs:133-147 | `next_number` reads the maximal digit run that starts at the already-bumped digit; it yields a number exactly when the run's decimal value fits in an `i32`, and then it yields that value |
| ClimbingLexer.Precedence | climbing-parser/src/main.rs:21-29 | `+`/`-` have precedence 1, `*`/`/` have 2, and numbers and parentheses have none |
| ClimbingLexer.ReadToken | climbing-parser/src/main.rs:87-106 | a token moves the cursor forward over the same input; the `Eof` error comes exactly at the end of the input |
| ClimbingLexer.NextToken | climbing-parser/src/main.rs:82-107 | a token always moves the cursor forward; the `Eof` error comes exactly when only whitespace is left |
| ClimbingLexer.NextTokenScans | climbing-parser/src/main.rs:82-107 | a token is read from whitespace, digits and the six symbols only; `InvalidToken` names the first character after the whitespace, and that character starts no token |
| ClimbingLexer.LexFrom | climbing-parser/src/main.rs:66-78 | `Eof` ends the scan and is never reported as an error |
| ClimbingLexer.Lex | climbing-parser/src/main.rs:66-78 | `lex` never reports `Eof` as an error |
| ClimbingLexer.LexAcceptsExactly | climbing-parser/src/main.rs:66-107 | `lex` succeeds only on text made of whitespace, digits and the six symbols; an error names the first character of the input that is none of these, everything before it being whitespace or tokens |
| ClimbingLexer.LexBlank | climbing-parser/src/main.rs:66-107 | `lex` returns no tokens exactly when the text is empty or all whitespace; any other character yields a token, an error or a panic |
| ClimbingRoundTrip.LexRender | climbing-parser/src/main.rs:66-147 | any tokens written out with single spaces, or with no spaces where no two numbers meet, lex back to the same tokens (whitespace skipping, one token per symbol, maximal munch of digits) |
| ClimbingParser.Expr | climbing-parser/src/main.rs:283-310 | a successful parse consumes at least one token and builds a tree whose binary nodes hold operators and whose unary nodes hold `Minus` |
| ClimbingParser.Climb | climbing-parser/src/main.rs:286-308 | the loop stops exactly at a token that is not an operator or binds below `min_prec`, and returns its left operand unchanged when it stops at once |
| ClimbingParser.Primary | climbing-parser/src/main.rs:312-332 | the end of the tokens, and any token other than a number, `-` or `(`, is the "unexpected token in primary" panic |
| ClimbingParser.Parse | climbing-parser/src/main.rs:275-280 | no tokens is a panic; a token left over is never an operator |
| ClimbingParser.EvalFoldLeft | climbing-parser/src/main.rs:240-254 | `eval` of a left-folded chain panics exactly when some step of the operator-by-operator fold divides by zero or leaves `i32`, and otherwise equals the fold's value |
| ClimbingParser.ParseEvalChain | climbing-parser/src/main.rs:240-310 | `a op b op c …` with operators of one precedence parses, and its value is the chain worked out from the left one operator at a time (the general form of `1 - 2 - 3` giving -4), panicking exactly when a step does |
| ClimbingParser.UnaryOperandIsPrimary | climbing-parser/src/main.rs:315-322 | parsing at precedence 3 takes no binary operator, so the operand of a unary minus is a primary alone |
| ClimbingParser.ParseUnparse | climbing-parser/src/main.rs:275-332 | every tree the parser can build is parsed back from its fully parenthesised tokens |
| ClimbingParser.ExprUnparsed | climbing-parser/src/main.rs:283-310 | the parenthesised form of a tree, followed by a token that stops the climb, parses to that tree |
| ClimbingParser.PrimaryParen | climbing-parser/src/main.rs:323-329 | `(`, an expression and `)` form a primary |
| ClimbingParser.ClimbOnce | climbing-parser/src/main.rs:286-308 | one turn of the loop folds the operator and its right operand, parsed at `prec + 1`, into the left operand |
| ClimbingParser.UnclosedParen | climbing-parser/src/main.rs:323-329 | `(` before a complete expression with no `)` is the missing-parenthesis panic |
| ClimbingParser.ParenNotClosed | climbing-parser/src/main.rs:323-329 | a `(` whose expression runs to the end of the tokens is the missing-parenthesis panic |
| ClimbingParser.TrailingParen | climbing-parser/src/main.rs:275-280 | a complete expression followed by `)` fails on the leftover `)` |
| ClimbingParser.ThreeOperands | climbing-parser/src/main.rs:283-310 | `a o1 b o2 c` groups to the right exactly when `o2` binds strictly tighter than `o1`, and otherwise to the left (left associativity) |
| ClimbingParser.ClimbChain | climbing-parser/src/main.rs:286-308 | a run of operators of one precedence folds to the left |
| ClimbingParser.ParseChain | climbing-parser/src/main.rs:283-310 | `a op b op c …` with operators of one precedence parses as the left fold |
| ClimbingTests.LexPlus | climbing-parser/src/main.rs:161-168 | `"+"` lexes to `[Plus]` |
| ClimbingTests.LexPlusNumber | climbing-parser/src/main.rs:170-177 | `"+ 123"` lexes to `[Plus, Num(123)]` |
| ClimbingTests.LexNumber | climbing-parser/src/main.rs:179-186 | `"123"` lexes to `[Num(123)]` |
| ClimbingTests.LexParenthesis | climbing-parser/src/main.rs:188-192 | `"(1)"` lexes to `[LeftParen, Num(1), RightParen]` |
| ClimbingTests.LexUnaryMinus | climbing-parser/src/main.rs:494-504 | `"-1"` lexes to `[Minus, Num(1)]` |
| ClimbingTests.LexSum | climbing-parser/src/main.rs:358-369 | `"1 + 2"` lexes to `[Num(1), Plus, Num(2)]` |
| ClimbingTests.LexWithoutSpace | climbing-parser/src/main.rs:439-450 | `"1+2"` lexes to the same tokens as `"1 + 2"` |
| ClimbingTests.LexDifference | climbing-parser/src/main.rs:371-386 | `"1 - 2 - 3"` lexes to five tokens |
| ClimbingTests.LexSumOfThree | climbing-parser/src/main.rs:388-403 | `"1 + 2 + 3"` lexes to five tokens |
| ClimbingTests.LexProductOfThree | climbing-parser/src/main.rs:405-420 | `"1*2*3"` lexes to five tokens |
| ClimbingTests.LexPriority | climbing-parser/src/main.rs:422-437 | `"1+2*3"` lexes to five tokens |
| ClimbingTests.LexWithParen | climbing-parser/src/main.rs:452-463 | `"(1+2)"` lexes to five tokens |
| ClimbingTests.LexWithParenPrecedence | climbing-parser/src/main.rs:465-480 | `"(1+2)*3"` lexes to seven tokens |
| ClimbingTests.LexUnmatchedLeftParen | climbing-parser/src/main.rs:482-486 | `"(1+2"` lexes without error, so its failure is the parser's |
| ClimbingTests.LexUnmatchedRightParen | climbing-parser/src/main.rs:488-492 | `"1+2)"` lexes without error, so its failure is the parser's |
| ClimbingTests.ParseParenthesis | climbing-parser/src/main.rs:188-192 | `(1)` parses to `Num(1)` |
| ClimbingTests.ParseUnaryMinus | climbing-parser/src/main.rs:614-622 | `-1` parses to `Unary(Minus, Num(1))`, which evaluates to -1 |
| ClimbingTests.ParseSum | climbing-parser/src/main.rs:358-369 | `1 + 2` parses to a sum, which evaluates to 3 |
| ClimbingTests.ParseDifference | climbing-parser/src/main.rs:371-386 | `1 - 2 - 3` parses as `(1 - 2) - 3` |
| ClimbingTests.ParseSumOfThree | climbing-parser/src/main.rs:388-403 | `1 + 2 + 3` parses as `(1 + 2) + 3` |
| ClimbingTests.ParseProductOfThree | climbing-parser/src/main.rs:405-420 | `1*2*3` parses as `(1*2)*3` |
| ClimbingTests.ParsePriority | climbing-parser/src/main.rs:422-437 | `1+2*3` parses as `1 + (2*3)` |
| ClimbingTests.ParseWithParen | climbing-parser/src/main.rs:452-463 | `(1+2)` parses to the sum |
| ClimbingTests.ParseWithParenPrecedence | climbing-parser/src/main.rs:465-480 | `(1+2)*3` keeps the sum as the left operand of `*` |
| ClimbingTests.EvalWithParenPrecedence | climbing-parser/src/main.rs:586-594 | `(1+2)*3` evaluates to 9 |
| ClimbingTests.EvalDifference | climbing-parser/src/main.rs:526-534 | `(1 - 2) - 3` evaluates to -4 |
| ClimbingTests.EvalSumOfThree | climbing-parser/src/main.rs:536-544 | `(1 + 2) + 3` evaluates to 6 |
| ClimbingTests.EvalProductOfThree | climbing-parser/src/main.rs:546-554 | `(1*2)*3` evaluates to 6 |
| ClimbingTests.EvalPriority | climbing-parser/src/main.rs:556-564 | `1 + (2*3)` evaluates to 7 |
| ClimbingTests.ParseUnmatchedLeftParen | climbing-parser/src/main.rs:596-603 | `(1+2` is the missing-parenthesis panic |
| ClimbingTests.ParseUnmatchedRightParen | climbing-parser/src/main.rs:605-612 | `1+2)` fails on the leftover `)` |
| Ast.TryFromKind | parser/src/ast.rs:53-75 | a kind converts exactly when it names an operator, and then to the operator of the same name |
| Ast.TryFromKindInverse | parser/src/ast.rs:53-75 | `try_from(k) == Ok(op)` exactly when `k` is the kind named after `op` |
| Ast.TryFromKindInjective | parser/src/ast.rs:53-75 | different kinds never convert to the same operator |
| Ast.OpInfoOf | parser/src/ast.rs:77-104 | exactly `^` and `=` are right-associative; the six comparisons share COMPARE; `+`/`-` are PLUS, `*`/`/` are MUL, `^` is POW and `=` is ASSIGN |
| Ast.Levels | parser/src/ast.rs:3-30 | the precedence constants increase strictly; every operator binds at LOWEST; of the binary operators, only `^` binds at UNARY |
| Lexer.NextToken | parser/src/lexer.rs:34-57 | a token other than `Eof` moves the cursor forward and is an operator or a non-negative number; `Eof` comes exactly when only whitespace is left |
| Lexer.LexFrom | parser/src/lexer.rs:19-30 | every token the loop collects is one of `+ - * /` or a non-negative number, never `Eof` |
| Lexer.Lex | parser/src/lexer.rs:19-30 | `Eof` is never in the returned tokens |
| Lexer.NextTokenScans | parser/src/lexer.rs:34-57 | a token is read from whitespace, digits and `+ - * /` only; an error names the first character after the whitespace, and that character (a parenthesis, for instance) starts no token |
| Lexer.LexAcceptsExactly | parser/src/lexer.rs:19-57 | `lex` succeeds only on text made of whitespace, digits and `+ - * /`; an error names the first character of the input that is none of these, everything before it being whitespace or tokens |
| Lexer.LexBlank | parser/src/lexer.rs:19-42 | `lex` returns no tokens exactly when the text is empty or all whitespace; any other character yields a token, an error or a panic |
| Lexer.NextTokenAgrees | parser/src/lexer.rs:34-57 | from the same position, the crate's `next_token` returns what the prototype's does, except that a parenthesis is an error and end of input is the `Eof` token |
| Lexer.LexFromAgrees | parser/src/lexer.rs:19-30 | the crate's `lex` succeeds exactly when the prototype's does and finds no parenthesis, and then returns the same tokens |
| Lexer.LexRender | parser/src/lexer.rs:19-97 | operators and numbers written out with single spaces, or with no spaces where no two numbers meet, lex back to the same tokens |
| Parser.ErrorSpan | parser/src/parser.rs:27-36 | the span of an error carrying a token is that token's span; `UnexpectedEof` has none |
| Parser.BinaryOpInfo | parser/src/parser.rs:95-113 | `+`/`-` are (1, Left), `*`/`/` are (2, Left), `^` is (4, Right), and every other kind has no entry |
| Parser.UnaryOpInfo | parser/src/parser.rs:117-127 | only `-` is a unary operator, at (3, Left) |
| Parser.NextPrec | parser/src/parser.rs:210-213 | the right operand of a left-associative operator is parsed one level higher, and that of a right-associative operator at the same level |
| Parser.Expect | parser/src/parser.rs:251-257 | `expect` consumes the expected kind, reports a different token as unexpected, and reports the end of the tokens as `UnexpectedEof` |
| Parser.Expr | parser/src/parser.rs:195-223 | a successful parse consumes at least one token; an error is `UnexpectedEof`, or it carries a token from the unparsed part, and an `UnmatchedLeftParen` carries a `(` |
| Parser.Climb | parser/src/parser.rs:198-220 | the loop stops exactly at a token that is not a binary operator or does not bind at `min_prec` |
| Parser.Primary | parser/src/parser.rs:225-249 | the end of the tokens is `UnexpectedEof`; a token that cannot start a primary is `UnexpectedToken` carrying it |
| Parser.Parse | parser/src/parser.rs:171-193 | no tokens is `UnexpectedEof`; every error carries a token of the input, and `UnmatchedLeftParen` carries a `(` |
| Parser.DivisionOperator | parser/src/parser.rs:65 | `/` panics exactly on a zero divisor or on `i32::MIN / -1`, and otherwise the quotient is no larger in magnitude than the dividend |
| Parser.PowerOperator | parser/src/parser.rs:66 | `a ^ b` with `b as u32`: for `b >= 0` it evaluates exactly when `a` to the `b` fits in `i32`, and then to that power; for `b < 0` the cast wraps to at least 2^31, so it evaluates exactly when `a` is -1, 0 or 1 |
| Parser.ParseUnparse | parser/src/parser.rs:171-249 | every tree the parser can build is parsed back from its fully parenthesised tokens, whatever their spans |
| Parser.ExprUnparsed | parser/src/parser.rs:195-223 | the parenthesised form of a tree, followed by a token that stops the climb, parses to that tree |
| Parser.PrimaryParen | parser/src/parser.rs:237-243 | `(`, an expression and `)` form a primary |
| Parser.ClimbOnce | parser/src/parser.rs:198-219 | one turn of the loop folds the operator and its right operand, parsed at the operator's next level, into the left operand |
| Parser.ParenUnmatched | parser/src/parser.rs:237-241 | a `(` whose expression is not followed by `)` is `UnmatchedLeftParen` carrying that `(` |
| Parser.UnclosedParen | parser/src/parser.rs:237-241 | `(` before a complete expression with no `)` is `UnmatchedLeftParen` carrying the `(` |
| Parser.LeftoverToken | parser/src/parser.rs:183-192 | a complete expression followed by another token is `UnexpectedToken` carrying the first unconsumed token |
| Parser.ThreeOperands | parser/src/parser.rs:198-219 | `a o1 b o2 c` groups to the right exactly when `o2`'s precedence reaches `o1`'s right-operand level, so equal left-associative operators fold left and `^` folds right |
| Parser.MinusBeforeOperator | parser/src/parser.rs:229-236 | in `-a op b` the minus takes the whole `a op b` exactly when `op` binds at the unary level, which only `^` does |
| Evaluator.DivisionOperator | parser/src/evaluator.rs:22 | `/` panics exactly on a zero divisor or on `i32::MIN / -1`, and otherwise the quotient is no larger in magnitude than the dividend |
| Evaluator.PowerOperator | parser/src/evaluator.rs:23 | `pow(b as u32)`: for `b >= 0` it evaluates exactly when the power fits in `i32`, and then to it; for `b < 0` exactly when the base is -1, 0 or 1 |
| Evaluator.ComparisonsAgree | parser/src/evaluator.rs:24-51 | `l > r` equals `r < l`, `l >= r` equals `r <= l`, and exactly one of `l > r` and `l <= r` is 1 |
| Evaluator.ArithAgrees | parser/src/evaluator.rs:18-23 | each operator token's arm in `Expression::eval` computes what the arm of its `BinaryOp` computes in `Evaluator::eval` |
| Evaluator.EvalAgrees | parser/src/evaluator.rs:13-55 | on the trees `parser.rs` builds, `Evaluator::eval` panics exactly when `Expression::eval` does, and otherwise gives the same value |
| Codegen.Generate | parser/src/codegen.rs:15-31 | cutting the returned text at its newlines gives back the collected lines |
| Codegen.StmtsCode | parser/src/codegen.rs:19-21 | a statement list emits at least three lines per statement, starting with the first statement's lines |
| Codegen.StmtCode | parser/src/codegen.rs:33-62 | a statement emits at least three lines; an expression statement ends by popping into `x0`, and an `if` ends with its two labels |
| Codegen.OpCode | parser/src/codegen.rs:74-185 | an operator's own instructions never touch the stack; a comparison is `cmp x0, x1` followed by its `cset` line |
| Codegen.ExprCode | parser/src/codegen.rs:64-198 | an expression's code ends by pushing its result |
| Codegen.NetConcat | parser/src/codegen.rs:15-198 | stack effects add up over concatenated code, and the lowest point of the whole is the lower of the two parts' lowest points |
| Codegen.OpCodeNeutral | parser/src/codegen.rs:74-185 | an operator's own instructions leave the stack as they found it |
| Codegen.ExprBalanced | parser/src/codegen.rs:64-198 | every expression's code pushes exactly one slot more than it pops, and never pops below where it started |
| Codegen.StmtBalanced | parser/src/codegen.rs:33-62 | an expression statement or an `if` leaves the stack as it found it, never going below |
| Codegen.IfBalanced | parser/src/codegen.rs:39-57 | condition, guard, body and tail together leave the stack as they found it |
| Codegen.StmtsBalanced | parser/src/codegen.rs:19-21 | a statement list leaves the stack as it found it |
| Codegen.ExprLines | parser/src/codegen.rs:64-198 | no line emitted for an expression holds a newline, whatever the number it loads |
| Codegen.TextsShape | parser/src/codegen.rs:15-27 | the collected lines are `.globl _main` and `_main:`, the statements' lines, then the final pop and `ret` |
| Codegen.GenerateLines | parser/src/codegen.rs:15-31 | cutting the text `generate` returns at its newlines gives back exactly the collected lines: `.globl _main` and `_main:`, the statements' code, then the final pop and `ret` |
| Codegen.FinalPopUnderflows | parser/src/codegen.rs:15-27 | as written, the code of every program pops one slot more than it pushes, and dips one slot below the stack `_main` was entered with |
| Codegen.BalancedProgramCode | parser/src/codegen.rs:15-27 | without the extra pop, a program's code is balanced and never pops below its starting point |
| Errors.ErrorSpan | parser/src/error.rs:18-25 | a compiler error's span is that of the error it wraps |
| Errors.FromLexical | parser/src/error.rs:38-42 | the converted lexical error keeps its span |
| Errors.FromSyntax | parser/src/error.rs:44-48 | the converted syntax error keeps its span |
| Errors.ConversionsFaithful | parser/src/error.rs:38-48 | the `From` conversions are injective, never confuse a lexical error with a syntax error, and keep the span |
| Errors.Underline | parser/src/error.rs:66-67 | the underline has length `end`, with spaces before `start` and carets from `start` to `end` |
| Errors.FormatError | parser/src/error.rs:51-68 | the output is the message, a newline and the source, followed, exactly when there is a span, by a newline and the span's underline |
| Errors.FormatLines | parser/src/error.rs:51-68 | for a one-line message and source, the output is the message line and the source line, followed by the underline exactly when there is a span |
| CrateTests.LexPlus | parser/src/lexer.rs:105-112 | `"+"` lexes to `[Plus]` |
| CrateTests.LexComplex | parser/src/lexer.rs:114-121 | `"+ 123"` lexes to `[Plus, Num(123)]` |
| CrateTests.LexNumber | parser/src/lexer.rs:123-130 | `"123"` lexes to `[Num(123)]` |
| CrateTests.ParseSum | parser/src/parser.rs:150-159 | the tokens of `1+2` parse to a sum worth 3 |
| CrateTests.ProductUnderSum | parser/src/parser.rs:138-147 | `1 + 2 * 3` puts the product under the sum |
| CrateTests.DifferenceGroupsLeft | parser/src/parser.rs:210-219 | `1 - 2 - 3` is `(1 - 2) - 3`, worth -4 |
| CrateTests.PowerGroupsRight | parser/src/parser.rs:210-219 | `2 ^ 3 ^ 2` is `2 ^ (3 ^ 2)`, worth 512 |
| CrateTests.MinusOfPower | parser/src/parser.rs:229-236 | `-2 ^ 2` is `-(2 ^ 2)`, worth -4 |
| CrateTests.MinusOfFactor | parser/src/parser.rs:229-236 | `-2 * 3` is `(-2) * 3` |
| Poker.NewCard | simple-porker/src/main.rs:71-77 | a card is made exactly when its number is 1..13, with the given suit and number |
| Poker.Numbers | simple-porker/src/main.rs:93-102 | the `flat_map` lists number by number, Clover, Diamond, Heart, Spade within each number |
| Poker.NewDeck | simple-porker/src/main.rs:90-110 | before the shuffle, the deck has 52 valid cards |
| Poker.DeckIndex | simple-porker/src/main.rs:93-102 | every valid card has a slot in the deck |
| Poker.NewDeckComplete | simple-porker/src/main.rs:90-110 | every valid card is in the deck, and no two slots hold the same card |
| Poker.Draw | simple-porker/src/main.rs:112-114 | `draw` takes the last card, and the deck keeps the rest in order |
| Poker.NewHand | simple-porker/src/main.rs:256-267 | the hand is the deck's last five cards, last first, and the deck keeps the others |
| Poker.FirstIndex | simple-porker/src/main.rs:270 | `position` finds the first slot holding the card |
| Poker.Exchange | simple-porker/src/main.rs:269-273 | the first slot holding the card gets the deck's last card; the other slots are unchanged and the deck loses its last card |
| Poker.ExchangeKeepsCards | simple-porker/src/main.rs:269-273 | no card is lost or made up: the new hand, the rest of the deck and the discarded card are the old hand and deck |
| Poker.MarkNumbers | simple-porker/src/main.rs:191-199 | the first loop of `is_straight` finds no repeat exactly when the five numbers are distinct, and then `seen[k]` is set exactly for the numbers in the hand |
| Poker.CountTrue | simple-porker/src/main.rs:204 | the count of seen values in a window equals the window's width exactly when every value in it is seen |
| Poker.CountSlide | simple-porker/src/main.rs:205-207 | moving the window one step subtracts the value that leaves and adds the one that enters |
| Poker.IsStraight | simple-porker/src/main.rs:189-215 | true exactly when the five numbers are distinct and cover five consecutive values, the Ace counting as 1 or 14 |
| Poker.IsOnePair | simple-porker/src/main.rs:166-178 | true exactly when two cards share a number |
| Poker.MaxNumber | simple-porker/src/main.rs:161 | the highest number in the hand, which some card has |
| Poker.Evaluate | simple-porker/src/main.rs:132-163 | `Straight` exactly for straights, and otherwise `HighCard` of the highest number |
| Poker.Wrap | simple-porker/src/main.rs:281-283 | `wrap` is 1..13 and agrees with its argument modulo 13 |
| Poker.WrapStep | simple-porker/src/main.rs:281-283 | counting on from `n` counts on from `wrap(n)`, back to the Ace after the King |
| Poker.StraightHand | simple-porker/src/main.rs:280-292 | five valid cards of one suit, numbered `wrap(start)` to `wrap(start + 4)` |
| Poker.Wheel | simple-porker/src/main.rs:295-297 | A, 2, 3, 4, 5 |
| Poker.Royal | simple-porker/src/main.rs:300-302 | 10, J, Q, K, then the Ace |
| Poker.StraightHandNumbers | simple-porker/src/main.rs:280-292 | the numbers count up from `wrap(start)` to the King, then go on from the Ace |
| Poker.StraightHandIsStraight | simple-porker/src/main.rs:280-292 | a hand from `straight` is a straight exactly when `wrap(start)` is at most 10; J-Q-K-A-2 and the like are not |
| Poker.WheelIsStraight | simple-porker/src/main.rs:327-333 | A-2-3-4-5 ranks as a straight |
| Poker.RoyalIsStraight | simple-porker/src/main.rs:343-349 | 10-J-Q-K-A ranks as a straight |
| Poker.GapHandNotStraight | simple-porker/src/main.rs:335-341 | A-2-3-4-6 does not rank as a straight |

## Left out

- Standard input and output: the prototype's `main`, all of parser/src/main.rs, simple-porker/src/io.rs and the game loop in simple-porker/src/main.rs. They only read, print and loop over the modelled operations.
- The shuffle in `Deck::new`. It needs a random source. The deck is modelled in its unshuffled order, and the contents properties are stated for that order.
- `Display` implementations: error messages, card symbols, hand listings. `Errors.FormatError` takes the already displayed message as a string parameter.
- What the generated AArch64 instructions do when run. The model keeps the instruction text and counts stack pushes and pops.
- The `unimplemented!()` arms of the code generator: block, `while` and `for` statements, `=`, and variables. `Codegen.Generatable` excludes them.
- The arms that `evaluator.rs` has no case for: `==`, `!=`, `=` and variables. `Evaluator.Evaluable` excludes them, so the evaluator is modelled as if those arms panicked.
- The poker rank checks other than straight and pair. They are `unimplemented!()` and commented out of `evaluate`; the `Rank` type still lists every rank.
- Arithmetic overflow, division by zero and out-of-range powers during evaluation. A debug build panics on them, and `Evaluable` excludes them.
- The type definitions the crate's files assume but parser/src/token.rs does not provide. Tokens supplies `Span`, `TokenKind` (the operator kinds `ast.rs` names) and `Token`. The crate's lexer gets its own token type with `Eof`. The lexical error that error.rs imports is modelled as carrying an optional span, because `lexer.rs` only builds a boxed message.
- The crate lexer's error is a boxed formatted string. It is modelled as `InvalidToken(c)` with the offending character.
- The labels of the generated `if` code are the constant text `.LelseXXX` and `.LendXXX`, exactly as the code emits them. The model does not number them per site.
- `Evaluate`'s `unwrap_or(0)`: a hand always has five cards, so the fallback is never taken.
- Errors.FormatError, Errors.Underline: require `start <= end`. A span that ends before it starts makes `end - start` underflow `usize` and panic (parser/src/error.rs:67), and that panic is not modelled.
- Poker.Wrap: requires `n >= 1`. `wrap(0)` underflows `u8` in `n - 1` and panics (simple-porker/src/main.rs:282), and that panic is not modelled.
- Poker.StraightHand: requires `1 <= start <= 251`. A larger `start` overflows `u8` in `start + 4` (simple-porker/src/main.rs:286-290), and `start == 0` reaches the `wrap(0)` underflow; neither panic is modelled.
- Poker.Draw: requires a non-empty deck. `pop().unwrap()` on an empty deck panics (simple-porker/src/main.rs:113), and that panic is not modelled.
- Poker.Exchange: requires the card to be in the hand and the deck to be non-empty. Otherwise `position(..).unwrap()` or `draw` panics (simple-porker/src/main.rs:270-272), and those panics are not modelled.
- ClimbingParser.Parse: a leftover token is the `TrailingToken` error, because the `debug_assert!` at climbing-parser/src/main.rs:277 is modelled as active. A release build skips that check and returns the tree parsed so far.
- Codegen.ExprCode: its contract says only that the code ends with a push. The line-by-line layout is the function itself, and what the layout promises is the stack balance that `Codegen.ExprBalanced` proves.

## Findings

| source | as written | input that shows it | evidently intended | confidence | as-written member | corrected member |
|---|---|---|---|---|---|---|
| parser/src/codegen.rs:23 | after the statements, `generate` pops once more (`ldr x0, [sp], #16`) before `ret`, although each statement already pops what it pushed | any program; with an empty body, `_main` pops a slot it never pushed | the stack is balanced at `ret`; the last expression statement's pop already leaves its value in `x0` | not executed; the stack accounting is proved for every program | Codegen.FinalPopUnderflows | Codegen.BalancedProgramCode |
