/** parser/src/codegen.rs: the AArch64 text the code generator emits for a
    program, line by line. Every value lives on the machine stack: an
    expression's code pushes its result with `str x0, [sp, #-16]!` and an
    operator pops its operands with `ldr xN, [sp], #16`. What the emitted
    instructions compute is not modelled; what is, is the text and the
    push/pop accounting it implies. */
module Codegen {
  import opened Prelude
  import opened Text
  import opened Ast

  /** One emitted line: a push of `x0`, a pop into a register, or any other
      instruction or label, kept as its text. */
  datatype Line = Push | Pop(reg: Register) | Plain(text: string)

  datatype Register = X0 | X1

  /** The text of a line, as `generate` writes it. */
  function Spell(l: Line): string {
    match l
    case Push => "    str x0, [sp, #-16]!"
    case Pop(X0) => "    ldr x0, [sp], #16"
    case Pop(X1) => "    ldr x1, [sp], #16"
    case Plain(t) => t
  }

  function Texts(lines: seq<Line>): (r: seq<string>)
    ensures |r| == |lines| && forall i :: 0 <= i < |lines| ==> r[i] == Spell(lines[i])
  {
    if |lines| == 0 then [] else [Spell(lines[0])] + Texts(lines[1..])
  }

  /** The expressions `expr` has code for: no variables and no assignment
      (those arms are `unimplemented!`). */
  predicate Generatable(e: Expression) {
    match e
    case Value(_) => true
    case Var(_) => false
    case Unary(_, x) => Generatable(x)
    case Binary(l, op, r) => !op.Assign? && Generatable(l) && Generatable(r)
  }

  /** The statements `stmt` has code for: expression statements and `if`s. */
  predicate StmtGeneratable(s: Statement)
    decreases s, 0
  {
    match s
    case ExpressionStatement(e) => Generatable(e)
    case If(cond, thenBody) => Generatable(cond) && AllGeneratable(thenBody)
    case _ => false
  }

  predicate AllGeneratable(ss: seq<Statement>)
    decreases ss, 1
  {
    forall i :: 0 <= i < |ss| ==> StmtGeneratable(ss[i])
  }

  /** The condition code `cset` uses for a comparison. */
  function CondCode(op: BinaryOp): (cc: string)
    requires IsComparison(op)
    ensures |cc| == 2
  {
    match op
    case Eq => "eq"
    case Neq => "ne"
    case Gt => "gt"
    case GtEq => "ge"
    case Lt => "lt"
    case LtEq => "le"
  }

  /** The relation a comparison tests, as its `cset` comment writes it. */
  function Relation(op: BinaryOp): string
    requires IsComparison(op)
  {
    match op
    case Eq => "=="
    case Neq => "!="
    case Gt => ">"
    case GtEq => ">="
    case Lt => "<"
    case LtEq => "<="
  }

  /** The `cset` line of a comparison, with its comment, for example
      `    cset x0, gt  ; x0 = 1 if x0 > x1`. */
  function CsetLine(op: BinaryOp): string
    requires IsComparison(op)
  {
    "    cset x0, " + CondCode(op) + "  ; x0 = 1 if x0 " + Relation(op) + " x1"
  }

  /** The lines between popping the operands (`x1` the right one, `x0` the
      left one) and pushing the result of a binary operator. */
  function OpCode(op: BinaryOp): (lines: seq<Line>)
    requires !op.Assign?
    ensures |lines| >= 1 && forall i :: 0 <= i < |lines| ==> lines[i].Plain?
    ensures IsComparison(op) ==> lines == [Plain("    cmp x0, x1"), Plain(CsetLine(op))]
  {
    match op
    case Plus => [Plain("    add x0, x0, x1")]
    case Minus => [Plain("    sub x0, x0, x1")]
    case Mul => [Plain("    mul x0, x0, x1")]
    case Div => [Plain("    sdiv x0, x0, x1")]
    case Pow =>
      [Plain("    mov x2, #1"), Plain("0:  "), Plain("    mul x2, x2, x0"),
       Plain("    subs x1, x1, #1  ; b-- and set flags"), Plain("    b.ne 0b"), Plain("1:  "),
       Plain("    mov x0, x2")]
    case Eq | Neq | Gt | GtEq | Lt | LtEq => [Plain("    cmp x0, x1"), Plain(CsetLine(op))]
  }

  /** `expr`: the lines emitted for an expression. */
  function ExprCode(e: Expression): (lines: seq<Line>)
    requires Generatable(e)
    ensures |lines| >= 2 && lines[|lines| - 1] == Push
  {
    match e
    case Value(n) => [Plain("    mov x0, #" + FormatInt(n)), Push]
    case Unary(_, x) => ExprCode(x) + [Pop(X0), Plain("    neg x0, x0"), Push]
    case Binary(l, op, r) => ExprCode(l) + ExprCode(r) + [Pop(X1), Pop(X0)] + OpCode(op) + [Push]
  }

  /** `stmt`: the lines emitted for a statement. The `if` labels are the
      fixed texts `.LelseXXX` and `.LendXXX`. */
  function StmtCode(s: Statement): (lines: seq<Line>)
    requires StmtGeneratable(s)
    ensures |lines| >= 3
    ensures s.ExpressionStatement? ==> lines[|lines| - 1] == Pop(X0)
    ensures s.If? ==> lines[|lines| - 2..] == [Plain(".LelseXXX:"), Plain(".LendXXX:")]
    decreases s, 0
  {
    match s
    case ExpressionStatement(e) => ExprCode(e) + [Pop(X0)]
    case If(cond, thenBody) => ExprCode(cond) + IfGuard + StmtsCode(thenBody) + IfTail
  }

  /** What `if` emits between its condition and its body: pop the
      condition, compare it with zero, and jump to the else label when it
      is zero. */
  const IfGuard: seq<Line> := [Pop(X0), Plain("    cmp x0, #0"), Plain("    b.eq .LelseXXX")]

  /** What `if` emits after its body: the jump to the end and both labels. */
  const IfTail: seq<Line> := [Plain("    b .LendXXX"), Plain(".LelseXXX:"), Plain(".LendXXX:")]

  /** The lines of a statement list, in order. */
  function StmtsCode(ss: seq<Statement>): (lines: seq<Line>)
    requires AllGeneratable(ss)
    ensures |lines| >= 3 * |ss|
    ensures |ss| > 0 ==> |StmtCode(ss[0])| <= |lines| && lines[..|StmtCode(ss[0])|] == StmtCode(ss[0])
    decreases ss, 1
  {
    if |ss| == 0 then [] else StmtCode(ss[0]) + StmtsCode(ss[1..])
  }

  const PROLOGUE: seq<Line> := [Plain("    .globl _main"), Plain("_main:")]
  const EPILOGUE: seq<Line> := [Pop(X0), Plain("    ret")]

  /** The lines `generate` collects before `print` joins them. */
  function ProgramCode(p: Program): (lines: seq<Line>)
    requires AllGeneratable(p.body)
  {
    PROLOGUE + StmtsCode(p.body) + EPILOGUE
  }

  /** `generate` followed by `print`: the lines joined with newlines. */
  function Generate(p: Program): (out: string)
    requires AllGeneratable(p.body)
    ensures Split(out) == Texts(ProgramCode(p))
  {
    var lines := Texts(ProgramCode(p));
    ProgramLines(p);
    SplitJoin(lines);
    Join(lines)
  }

  /** How a line moves the stack pointer: one slot down for a push, one up
      for a pop, not at all otherwise. */
  function Effect(line: Line): (d: int)
    ensures -1 <= d <= 1
  {
    match line
    case Push => 1
    case Pop(_) => -1
    case Plain(_) => 0
  }

  /** The net number of slots a run of lines leaves pushed. */
  function Net(lines: seq<Line>): int {
    if |lines| == 0 then 0 else Effect(lines[0]) + Net(lines[1..])
  }

  /** The lowest the stack gets while the lines run, relative to where it
      started (0 when nothing is ever popped that was not pushed first). */
  function Low(lines: seq<Line>): (m: int)
    ensures m <= 0
  {
    if |lines| == 0 then 0
    else
      var rest := Effect(lines[0]) + Low(lines[1..]);
      if rest < 0 then rest else 0
  }

  lemma {:induction false} NetConcat(a: seq<Line>, b: seq<Line>)
    ensures Net(a + b) == Net(a) + Net(b)
    ensures Low(a + b) == if Net(a) + Low(b) < Low(a) then Net(a) + Low(b) else Low(a)
    decreases |a|
  {
    if |a| > 0 {
      assert (a + b)[1..] == a[1..] + b;
      NetConcat(a[1..], b);
    } else {
      assert a + b == b;
    }
  }

  /** No line of an operator's own code touches the stack. */
  lemma {:induction false} OpCodeNeutral(op: BinaryOp)
    requires !op.Assign?
    ensures Net(OpCode(op)) == 0 && Low(OpCode(op)) == 0
  {
    Neutral(OpCode(op));
  }

  /** Lines none of which pushes or pops leave the stack alone. */
  lemma {:induction false} Neutral(lines: seq<Line>)
    requires forall i :: 0 <= i < |lines| ==> Effect(lines[i]) == 0
    ensures Net(lines) == 0 && Low(lines) == 0
    decreases |lines|
  {
    if |lines| > 0 {
      Neutral(lines[1..]);
    }
  }

  /** The code of every expression leaves exactly one more slot pushed, its
      value, and never pops a slot it did not push first. */
  lemma {:induction false} ExprBalanced(e: Expression)
    requires Generatable(e)
    ensures Net(ExprCode(e)) == 1 && Low(ExprCode(e)) == 0
    decreases e
  {
    match e
    case Value(n) =>
    case Unary(_, x) =>
      ExprBalanced(x);
      NetConcat(ExprCode(x), [Pop(X0), Plain("    neg x0, x0"), Push]);
    case Binary(l, op, r) =>
      ExprBalanced(l);
      ExprBalanced(r);
      OpCodeNeutral(op);
      var cl, cr, oc := ExprCode(l), ExprCode(r), OpCode(op);
      NetConcat(cl, cr);
      NetConcat(cl + cr, [Pop(X1), Pop(X0)]);
      NetConcat(cl + cr + [Pop(X1), Pop(X0)], oc);
      NetConcat(cl + cr + [Pop(X1), Pop(X0)] + oc, [Push]);
  }

  /** The code of every statement leaves the stack as it found it, without
      popping below it. */
  lemma {:induction false} StmtBalanced(s: Statement)
    requires StmtGeneratable(s)
    ensures Net(StmtCode(s)) == 0 && Low(StmtCode(s)) == 0
    decreases s, 0
  {
    match s
    case ExpressionStatement(e) =>
      ExprBalanced(e);
      NetConcat(ExprCode(e), [Pop(X0)]);
    case If(cond, thenBody) =>
      ExprBalanced(cond);
      StmtsBalanced(thenBody);
      IfBalanced(ExprCode(cond), StmtsCode(thenBody));
  }

  /** An `if` whose condition pushes one slot and whose body is balanced is
      balanced. */
  lemma {:induction false} IfBalanced(c: seq<Line>, body: seq<Line>)
    requires Net(c) == 1 && Low(c) == 0 && Net(body) == 0 && Low(body) == 0
    ensures Net(c + IfGuard + body + IfTail) == 0 && Low(c + IfGuard + body + IfTail) == 0
  {
    GuardAndTail();
    NetConcat(c, IfGuard);
    NetConcat(c + IfGuard, body);
    NetConcat(c + IfGuard + body, IfTail);
  }

  /** The guard pops the condition; the tail touches nothing. */
  lemma {:induction false} GuardAndTail()
    ensures Net(IfGuard) == -1 && Low(IfGuard) == -1
    ensures Net(IfTail) == 0 && Low(IfTail) == 0
  {
    Neutral(IfTail);
    Neutral(IfGuard[1..]);
  }

  lemma {:induction false} StmtsBalanced(ss: seq<Statement>)
    requires AllGeneratable(ss)
    ensures Net(StmtsCode(ss)) == 0 && Low(StmtsCode(ss)) == 0
    decreases ss, 1
  {
    if |ss| > 0 {
      StmtBalanced(ss[0]);
      StmtsBalanced(ss[1..]);
      NetConcat(StmtCode(ss[0]), StmtsCode(ss[1..]));
    }
  }

  /** As written, `generate` pops once more after the statements, which
      already popped everything they pushed: every program's code ends one
      slot above where `_main` found the stack. */
  lemma {:induction false} FinalPopUnderflows(p: Program)
    requires AllGeneratable(p.body)
    ensures Net(ProgramCode(p)) == -1 && Low(ProgramCode(p)) == -1
  {
    StmtsBalanced(p.body);
    Neutral(PROLOGUE);
    NetConcat(PROLOGUE, StmtsCode(p.body));
    NetConcat(PROLOGUE + StmtsCode(p.body), EPILOGUE);
  }

  /** The program code without the extra pop: the last statement's pop
      already left its value in `x0`. */
  function BalancedProgramCode(p: Program): (lines: seq<Line>)
    requires AllGeneratable(p.body)
    ensures Net(lines) == 0 && Low(lines) == 0
  {
    StmtsBalanced(p.body);
    Neutral(PROLOGUE);
    Neutral([Plain("    ret")]);
    NetConcat(PROLOGUE, StmtsCode(p.body));
    NetConcat(PROLOGUE + StmtsCode(p.body), [Plain("    ret")]);
    PROLOGUE + StmtsCode(p.body) + [Plain("    ret")]
  }

  /** No line of the run holds a newline, so `join("\n")` keeps the lines apart. */
  predicate SingleLines(lines: seq<Line>) {
    forall i :: 0 <= i < |lines| ==> NoNewline(Spell(lines[i]))
  }

  lemma {:induction false} SingleLinesConcat(a: seq<Line>, b: seq<Line>)
    requires SingleLines(a) && SingleLines(b)
    ensures SingleLines(a + b)
  {
    assert forall i :: 0 <= i < |a + b| ==> (a + b)[i] == if i < |a| then a[i] else b[i - |a|];
  }

  lemma {:induction false} NoNewlineConcat(s: string, t: string)
    requires NoNewline(s) && NoNewline(t)
    ensures NoNewline(s + t)
  {
    assert forall i :: 0 <= i < |s + t| ==> (s + t)[i] == if i < |s| then s[i] else t[i - |s|];
  }

  lemma {:induction false} StackLines()
    ensures NoNewline(Spell(Push)) && NoNewline(Spell(Pop(X0))) && NoNewline(Spell(Pop(X1)))
  {
  }

  lemma {:induction false} FrameLines()
    ensures SingleLines(PROLOGUE) && SingleLines(IfGuard)
  {
    StackLines();
    assert NoNewline(PROLOGUE[0].text) && NoNewline(PROLOGUE[1].text);
    assert NoNewline(IfGuard[1].text) && NoNewline(IfGuard[2].text);
  }

  lemma {:induction false} IfTailWords()
    ensures NoNewline("    b .LendXXX") && NoNewline(".LelseXXX:") && NoNewline(".LendXXX:")
  {
  }

  lemma {:induction false} TailLines()
    ensures SingleLines(IfTail) && SingleLines(EPILOGUE)
  {
    StackLines();
    IfTailWords();
    assert NoNewline("    ret");
  }

  lemma {:induction false} FormatIntLine(n: int)
    ensures NoNewline("    mov x0, #" + FormatInt(n))
  {
    var d := Decimal(if n < 0 then -n else n);
    assert NoNewline(d) by {
      assert forall i :: 0 <= i < |d| ==> IsAsciiDigit(d[i]);
    }
    if n < 0 {
      NoNewlineConcat("-", d);
    }
    assert NoNewline("    mov x0, #");
    NoNewlineConcat("    mov x0, #", FormatInt(n));
  }

  lemma {:induction false} ArithLines(op: BinaryOp)
    requires op.Plus? || op.Minus? || op.Mul? || op.Div?
    ensures SingleLines(OpCode(op))
  {
    ArithWords();
  }

  lemma {:induction false} ArithWords()
    ensures NoNewline("    add x0, x0, x1") && NoNewline("    sub x0, x0, x1")
    ensures NoNewline("    mul x0, x0, x1") && NoNewline("    sdiv x0, x0, x1")
  {
  }

  lemma {:induction false} PowHeadWords()
    ensures NoNewline("    mov x2, #1") && NoNewline("0:  ") && NoNewline("    mul x2, x2, x0")
  {
  }

  lemma {:induction false} PowLoopWords()
    ensures NoNewline("    subs x1, x1, #1  ; b-- and set flags")
  {
  }

  lemma {:induction false} PowTailWords()
    ensures NoNewline("    b.ne 0b") && NoNewline("1:  ") && NoNewline("    mov x0, x2")
  {
  }

  lemma {:induction false} PowLines()
    ensures SingleLines(OpCode(Pow))
  {
    PowHeadWords();
    PowLoopWords();
    PowTailWords();
  }

  lemma {:induction false} CsetWords(op: BinaryOp)
    requires IsComparison(op)
    ensures NoNewline(CondCode(op)) && NoNewline(Relation(op))
  {
  }

  lemma {:induction false} CsetLines(op: BinaryOp)
    requires IsComparison(op)
    ensures SingleLines(OpCode(op))
  {
    var cc, rel := CondCode(op), Relation(op);
    CsetWords(op);
    var a, b, c := "    cset x0, ", "  ; x0 = 1 if x0 ", " x1";
    assert NoNewline(a) && NoNewline(b) && NoNewline(c);
    NoNewlineConcat(a, cc);
    NoNewlineConcat(a + cc, b);
    NoNewlineConcat(a + cc + b, rel);
    NoNewlineConcat(a + cc + b + rel, c);
    assert NoNewline(OpCode(op)[0].text);
  }

  lemma {:induction false} OpCodeLines(op: BinaryOp)
    requires !op.Assign?
    ensures SingleLines(OpCode(op))
  {
    if IsComparison(op) {
      CsetLines(op);
    } else if op.Pow? {
      PowLines();
    } else {
      ArithLines(op);
    }
  }

  lemma {:induction false} ValueLines(n: int)
    ensures SingleLines([Plain("    mov x0, #" + FormatInt(n)), Push])
  {
    FormatIntLine(n);
    StackLines();
  }

  lemma {:induction false} NegateLines()
    ensures SingleLines([Pop(X0), Plain("    neg x0, x0"), Push])
  {
    StackLines();
    var ls := [Pop(X0), Plain("    neg x0, x0"), Push];
    assert NoNewline(Spell(ls[1]));
    assert forall i :: 0 <= i < 3 ==> ls[i] == Pop(X0) || ls[i] == Push || i == 1;
  }

  lemma {:induction false} ExprLines(e: Expression)
    requires Generatable(e)
    ensures SingleLines(ExprCode(e))
    decreases e
  {
    match e
    case Value(n) =>
      ValueLines(n);
    case Unary(_, x) =>
      ExprLines(x);
      NegateLines();
      SingleLinesConcat(ExprCode(x), [Pop(X0), Plain("    neg x0, x0"), Push]);
    case Binary(l, op, r) =>
      StackLines();
      ExprLines(l);
      ExprLines(r);
      OpCodeLines(op);
      var cl, cr, oc := ExprCode(l), ExprCode(r), OpCode(op);
      SingleLinesConcat(cl, cr);
      SingleLinesConcat(cl + cr, [Pop(X1), Pop(X0)]);
      SingleLinesConcat(cl + cr + [Pop(X1), Pop(X0)], oc);
      SingleLinesConcat(cl + cr + [Pop(X1), Pop(X0)] + oc, [Push]);
  }

  lemma {:induction false} StmtLines(s: Statement)
    requires StmtGeneratable(s)
    ensures SingleLines(StmtCode(s))
    decreases s, 0
  {
    match s
    case ExpressionStatement(e) =>
      ExprLines(e);
      StackLines();
      SingleLinesConcat(ExprCode(e), [Pop(X0)]);
    case If(cond, thenBody) =>
      ExprLines(cond);
      StmtsLines(thenBody);
      FrameLines();
      TailLines();
      var c, b := ExprCode(cond), StmtsCode(thenBody);
      SingleLinesConcat(c, IfGuard);
      SingleLinesConcat(c + IfGuard, b);
      SingleLinesConcat(c + IfGuard + b, IfTail);
  }

  lemma {:induction false} StmtsLines(ss: seq<Statement>)
    requires AllGeneratable(ss)
    ensures SingleLines(StmtsCode(ss))
    decreases ss, 1
  {
    if |ss| > 0 {
      StmtLines(ss[0]);
      StmtsLines(ss[1..]);
      SingleLinesConcat(StmtCode(ss[0]), StmtsCode(ss[1..]));
    }
  }

  lemma {:induction false} ProgramLines(p: Program)
    requires AllGeneratable(p.body)
    ensures SingleLines(ProgramCode(p))
  {
    StmtsLines(p.body);
    FrameLines();
    TailLines();
    SingleLinesConcat(PROLOGUE, StmtsCode(p.body));
    SingleLinesConcat(PROLOGUE + StmtsCode(p.body), EPILOGUE);
  }

  /** The program's lines open with the prologue and close with the epilogue. */
  lemma {:induction false} ProgramShape(p: Program)
    requires AllGeneratable(p.body)
    ensures var code := ProgramCode(p);
            |code| == |StmtsCode(p.body)| + 4
            && code[0] == PROLOGUE[0] && code[1] == PROLOGUE[1]
            && code[|code| - 2] == EPILOGUE[0] && code[|code| - 1] == EPILOGUE[1]
  {
  }

  /** `print` loses nothing: cutting the generated text at its newlines
      gives back the collected lines, from `.globl _main` to `ret`. */
  lemma {:induction false} GenerateLines(p: Program)
    requires AllGeneratable(p.body)
    ensures Split(Generate(p)) == Texts(ProgramCode(p))
    ensures var out := Split(Generate(p));
            |out| == |StmtsCode(p.body)| + 4
            && out[0] == "    .globl _main" && out[1] == "_main:"
            && out[|out| - 2] == "    ldr x0, [sp], #16" && out[|out| - 1] == "    ret"
  {
    TextsShape(p);
  }

  /** The collected lines read `.globl _main` and `_main:` first and the
      final pop and `ret` last. */
  lemma {:induction false} TextsShape(p: Program)
    requires AllGeneratable(p.body)
    ensures var out := Texts(ProgramCode(p));
            |out| == |StmtsCode(p.body)| + 4
            && out[0] == "    .globl _main" && out[1] == "_main:"
            && out[|out| - 2] == "    ldr x0, [sp], #16" && out[|out| - 1] == "    ret"
  {
    ProgramShape(p);
    FramedTexts(ProgramCode(p), |StmtsCode(p.body)|);
  }

  /** The texts of lines framed by the prologue and the epilogue. */
  lemma {:induction false} FramedTexts(code: seq<Line>, n: nat)
    requires |code| == n + 4
    requires code[0] == PROLOGUE[0] && code[1] == PROLOGUE[1]
    requires code[|code| - 2] == EPILOGUE[0] && code[|code| - 1] == EPILOGUE[1]
    ensures var out := Texts(code);
            |out| == n + 4
            && out[0] == "    .globl _main" && out[1] == "_main:"
            && out[|out| - 2] == "    ldr x0, [sp], #16" && out[|out| - 1] == "    ret"
  {
    var out := Texts(code);
    assert out[0] == Spell(PROLOGUE[0]) && out[1] == Spell(PROLOGUE[1]);
    assert out[|out| - 2] == Spell(EPILOGUE[0]) && out[|out| - 1] == Spell(EPILOGUE[1]);
  }
}
