/** The lowering as the evaluator performs it: registers and labels drawn from running counters,
    instructions appended to a result list. */
module Evaluation {
  import opened Instructions
  import opened Machine
  import opened AsmCommands
  import opened SourceLanguage
  import opened Lowering
  import opened StatementLowering
  import opened Outcomes
  import opened Compilation

  /** Is the tested value zero? */
  predicate IsZero(value: TestValue, regs: Registers) {
    match value
    case NoValue => false
    case ConstValue(k) => k == 0
    case RegValue(r) => Get(regs, r) == 0
  }

  /** Wherever the code stands, it leads to the label when the value is zero and past the code
      otherwise, and does nothing else. */
  ghost predicate LeavesIfZero(code: seq<Asm>, value: TestValue, l: Label) {
    forall prog: seq<Asm>, input: Input, s: State :: Contains(prog, s.pc, code) ==>
      Run(prog, input, s, |code|) == s.(pc := if IsZero(value, s.regs) then Target(prog, l) else s.pc + |code|)
  }

  lemma BrzStep(prog: seq<Asm>, input: Input, s: State, r: nat, l: Label, hirzel: bool)
    requires s.pc < |prog| && prog[s.pc] == Brz(R(r), l, false, hirzel)
    ensures Step(prog, input, s) == s.(pc := if Get(s.regs, r) == 0 then Target(prog, l) else s.pc + 1)
  {
    hide Alu, Target;
  }

  lemma JumpIfZeroLeaves(value: TestValue, l: Label, ctx: Context)
    ensures LeavesIfZero(JumpIfZero(value, l, ctx), value, l)
  {
    hide Step, Run, Target, Get;
    var code := JumpIfZero(value, l, ctx);
    forall prog: seq<Asm>, input: Input, s: State | Contains(prog, s.pc, code)
      ensures Run(prog, input, s, |code|) == s.(pc := if IsZero(value, s.regs) then Target(prog, l) else s.pc + |code|)
    {
      if code == [] {
        NoStepsYet(prog, input, s);
      } else {
        assert prog[s.pc] == code[0] by { CodeAt(prog, s.pc, code); }
        RunOne(prog, input, s);
        ZeroReadsZero(s.regs);
        BrzStep(prog, input, s, if value.RegValue? then value.reg else 0, l, ctx.hirzel);
      }
    }
  }

  lemma ZeroReadsZero(regs: Registers)
    ensures Get(regs, 0) == 0
  {
  }

  lemma NoStepsYet(prog: seq<Asm>, input: Input, s: State)
    ensures Run(prog, input, s, 0) == s
  {
  }

  class Evaluator {
    const ctx: Context
    /** The next register and the next label number. */
    var regNumber: nat
    var labelIndex: nat

    constructor (ctx: Context, regNumber: nat, labelIndex: nat)
      ensures this.ctx == ctx && Now() == Counters(regNumber, labelIndex)
    {
      this.ctx, this.regNumber, this.labelIndex := ctx, regNumber, labelIndex;
    }

    function Now(): Counters
      reads this
    {
      Counters(regNumber, labelIndex)
    }

    method GetRegisterNumber() returns (reg: nat)
      modifies this
      ensures reg == old(regNumber) && Now() == NextReg(old(Now()))
    {
      reg := regNumber;
      regNumber := regNumber + 1;
    }

    method NewLabel(name: string) returns (l: Label)
      modifies this
      ensures l == Label(name, old(labelIndex)) && Now() == NextLabels(old(Now()), 1)
    {
      l := Label(name, labelIndex);
      labelIndex := labelIndex + 1;
    }

    /** `dst = src + imm`. */
    method Addi(dst: nat, src: nat, imm: int) returns (code: seq<Asm>)
      ensures code == AddCode(dst, src, imm)
    {
      var built := Alui(ADDI, R(dst), R(src), imm);
      code := built.value;
    }

    // ----- Expressions -----

    /** Appends the code of e; the value is in the returned register. */
    method EvaluateExpr(e: Expr) returns (result: seq<Asm>, reg: nat)
      modifies this
      ensures var l := ExprCode(e, ctx, old(Now())); result == l.code && reg == l.reg && Now() == l.next
      decreases e, 1
    {
      hide AddCode, CopyCode, Br, Brz, AsmLabel, NodeEntry;
      result := [];
      match e
      case Var(r) =>
        reg := r;
      case AddVar(lhs, rhs) =>
        var dst;
        result, reg, dst := EvaluateBoth(e, lhs, rhs);
        result := result + [Add(dst, reg)];
        reg := dst;
      case SubVar(lhs, rhs) =>
        var dst;
        result, reg, dst := EvaluateBoth(e, lhs, rhs);
        result := result + [Sub(dst, reg)];
        reg := dst;
      case AddConst(lhs, imm) =>
        var src;
        result, src := EvaluateExpr(lhs);
        reg := GetRegisterNumber();
        var sum := Addi(reg, src, imm);
        result := result + sum;
      case SubConst(lhs, imm) =>
        var src;
        result, src := EvaluateExpr(lhs);
        reg := GetRegisterNumber();
        var difference := Addi(reg, src, -imm);
        result := result + difference;
      case ConstSub(imm, rhs) =>
        var src;
        result, src := EvaluateExpr(rhs);
        reg := GetRegisterNumber();
        var load := Addi(reg, 0, imm);
        result := result + load + [Sub(reg, src)];
      case Neg(a) =>
        var src;
        result, src := EvaluateExpr(a);
        reg := GetRegisterNumber();
        result := result + [SetTo(reg, 0)] + [Sub(reg, src)];
      case Inv(a) =>
        var src;
        result, src := EvaluateExpr(a);
        reg := GetRegisterNumber();
        var load := Addi(reg, 0, -1);
        result := result + load + load + [Sub(reg, src)];
      case Not(a) =>
        var src;
        result, src := EvaluateExpr(a);
        reg := GetRegisterNumber();
        var nzeroLabel := NewLabel("nzero");
        var endLabel := NewLabel("end");
        result := result + [SetTo(reg, 0), Brz(R(src), nzeroLabel, false, ctx.hirzel), Br(endLabel, false, ctx.hirzel),
                            AsmLabel(nzeroLabel), SetTo(reg, 1), AsmLabel(endLabel)];
      case Choose(_, _, _) =>
        result, reg := EvaluateChoose(e);
    }

    /** Both operands, and the first copied to the destination. */
    method EvaluateBoth(ghost e: Expr, lhs: Expr, rhs: Expr) returns (result: seq<Asm>, src: nat, dst: nat)
      requires e in {AddVar(lhs, rhs), SubVar(lhs, rhs)}
      modifies this
      ensures var a := ExprCode(lhs, ctx, old(Now())); var b := ExprCode(rhs, ctx, a.next);
        dst == b.next.reg && src == b.reg && Now() == NextReg(b.next) && result == a.code + b.code + AddCode(dst, a.reg, 0)
      decreases e, 0
    {
      hide AddCode, ExprCode;
      var second, first;
      result, first := EvaluateExpr(lhs);
      second, src := EvaluateExpr(rhs);
      result := result + second;
      dst := GetRegisterNumber();
      var copy := Addi(dst, first, 0);
      result := result + copy;
    }

    /** The value of a lowered operand. */
    method EvaluateOperand(v: Operand) returns (result: seq<Asm>, value: TestValue)
      modifies this
      ensures var l := OperandCode(v, ctx, old(Now())); result == l.code && value == l.value && Now() == l.next
      decreases v, 1
    {
      hide ExprCode;
      match v
      case Constant(k) =>
        result, value := [], ConstValue(k);
      case Runtime(e) =>
        var reg;
        result, reg := EvaluateExpr(e);
        value := RegValue(reg);
    }

    /** Brings a value into register dst. */
    method Copy(dst: nat, value: TestValue) returns (code: seq<Asm>)
      requires value != NoValue
      ensures code == CopyCode(dst, value)
    {
      hide AddCode;
      match value
      case NoValue => assert false; code := [];
      case ConstValue(k) => code := Addi(dst, 0, k);
      case RegValue(r) => code := Addi(dst, r, 0);
    }

    method EvaluateChoose(e: Expr) returns (result: seq<Asm>, reg: nat)
      requires e.Choose?
      modifies this
      ensures var l := ExprCode(e, ctx, old(Now())); result == l.code && reg == l.reg && Now() == l.next
      decreases e, 0
    {
      hide CopyCode, Br, Brz, AsmLabel, NodeEntry, OperandCode;
      var condReg;
      result, condReg := EvaluateExpr(e.cond);
      var elseLabel := NewLabel("else");
      var endLabel := NewLabel("end");
      result := result + [NodeEntry(), Brz(R(condReg), elseLabel, false, ctx.hirzel)];
      var thenCode, thenValue := EvaluateOperand(e.thn);
      var elseCode, elseValue := EvaluateOperand(e.els);
      reg := GetRegisterNumber();
      var thenCopy := Copy(reg, thenValue);
      var elseCopy := Copy(reg, elseValue);
      result := result + (thenCode + thenCopy) + [Br(endLabel, false, ctx.hirzel), AsmLabel(elseLabel)] +
                (elseCode + elseCopy) + [AsmLabel(endLabel)];
    }

    // ----- Whole programs -----

    /** Lowers a statement over variables below base: the list ends exactly when the statement does,
        ends as it does, and sends nothing else. */
    static method EvaluateProgram(s: Stmt, ctx: Context, base: nat) returns (list: seq<Asm>)
      requires Lowerable(s, base) && base > 0
      ensures list == Compiled(s, ctx, base)
      ensures forall input: Input, regs: Registers :: Terminates(list, input, regs) <==> Finishes(s, ctx, regs)
      ensures forall input: Input, regs: Registers, fuel: nat, n: nat ::
        var o := Exec(s, ctx, Store(regs, []), fuel);
        o.Done? && Halted(list, At(list, input, regs, n)) ==> EndsAs(list, At(list, input, regs, n), o.store, base)
      ensures forall input: Input, regs: Registers, n: nat ::
        var o := Exec(s, ctx, Store(regs, []), n);
        At(list, input, regs, n).trace <= if o.Done? then o.store.trace else o.trace
    {
      hide StmtCode, Exec, Lowerable, At, Terminates, Finishes, EndsAs;
      var evaluator := new Evaluator(ctx, base, 0);
      list := evaluator.Evaluate(s);
      forall input: Input, regs: Registers ensures Terminates(list, input, regs) <==> Finishes(s, ctx, regs) {
        CompiledTerminatesIff(s, ctx, base, input, regs);
      }
      forall input: Input, regs: Registers, fuel: nat, n: nat
        ensures var o := Exec(s, ctx, Store(regs, []), fuel);
          o.Done? && Halted(list, At(list, input, regs, n)) ==> EndsAs(list, At(list, input, regs, n), o.store, base)
      {
        var o := Exec(s, ctx, Store(regs, []), fuel);
        if o.Done? && Halted(list, At(list, input, regs, n)) { CompiledResult(s, ctx, base, input, regs, fuel, n); }
      }
      forall input: Input, regs: Registers, n: nat
        ensures var o := Exec(s, ctx, Store(regs, []), n);
          At(list, input, regs, n).trace <= if o.Done? then o.store.trace else o.trace
      {
        CompiledSendsNothingElse(s, ctx, base, input, regs, n);
      }
    }

    // ----- Statements -----

    /** Appends the code of a statement. */
    method Evaluate(s: Stmt) returns (result: seq<Asm>)
      modifies this
      ensures var l := StmtCode(s, ctx, old(Now())); result == l.code && Now() == l.next
      decreases s, 2, 0
    {
      hide ExprCode, OperandCode, CopyCode, AddCode, Br, Brz, AsmLabel, NodeEntry, BlockCode, RepeatConstCode, SwitchCode;
      match s
      case Block(stmts) =>
        result := EvaluateList(stmts);
      case Assign(x, v) =>
        var value;
        result, value := EvaluateOperand(v);
        var copy := Copy(x, value);
        result := result + copy + [NodeEntry()];
      case PreStep(x, delta) =>
        result := Addi(x, x, delta);
      case PostStep(x, delta) =>
        var before := GetRegisterNumber();
        result := Addi(before, x, 0);
        var step := Addi(x, x, delta);
        result := result + step;
      case Command(a) =>
        result := [Asm(a, false)];
      case If(_, _) =>
        result := EvaluateIf(s);
      case IfElse(_, _, _) =>
        result := EvaluateIfElse(s);
      case While(_, _) =>
        result := EvaluateWhile(s);
      case For(_, _, _, _) =>
        result := EvaluateFor(s);
      case DoWhile(_, _) =>
        result := EvaluateDoWhile(s);
      case RepeatVar(_, _) =>
        result := EvaluateRepeatVar(s);
      case RepeatConst(_, _) =>
        result := EvaluateRepeatConst(s);
      case Switch(_, _, _) =>
        result := EvaluateSwitch(s);
    }

    /** The statements of a list, one after the other. */
    method EvaluateList(stmts: seq<Stmt>) returns (result: seq<Asm>)
      modifies this
      ensures var l := BlockCode(stmts, ctx, old(Now())); result == l.code && Now() == l.next
      decreases stmts, 0, 0
    {
      hide StmtCode;
      result := [];
      for i := 0 to |stmts|
        invariant var rest, whole := BlockCode(stmts[i..], ctx, Now()), BlockCode(stmts, ctx, old(Now()));
          whole.code == result + rest.code && whole.next == rest.next
      {
        assert stmts[i..][0] == stmts[i] && stmts[i..][1..] == stmts[i + 1..];
        var code := Evaluate(stmts[i]);
        result := result + code;
      }
    }

    method EvaluateIf(s: Stmt) returns (result: seq<Asm>)
      requires s.If?
      modifies this
      ensures var l := StmtCode(s, ctx, old(Now())); result == l.code && Now() == l.next
      decreases s, 1, 0
    {
      hide ExprCode, Brz, AsmLabel, NodeEntry;
      var endLabel := NewLabel("end");
      var condReg;
      result, condReg := EvaluateExpr(s.cond);
      var ifLabel := NewLabel("if");
      result := result + [NodeEntry(), Brz(R(condReg), endLabel, false, ctx.hirzel), AsmLabel(ifLabel)];
      var body := Evaluate(s.body);
      result := result + body + [AsmLabel(endLabel)];
    }

    method EvaluateIfElse(s: Stmt) returns (result: seq<Asm>)
      requires s.IfElse?
      modifies this
      ensures var l := StmtCode(s, ctx, old(Now())); result == l.code && Now() == l.next
      decreases s, 1, 0
    {
      hide ExprCode, Br, Brz, AsmLabel, NodeEntry;
      var condReg;
      result, condReg := EvaluateExpr(s.cond);
      var ifLabel := NewLabel("if");
      var elseLabel := NewLabel("else");
      var endLabel := NewLabel("end");
      result := result + [NodeEntry(), Brz(R(condReg), elseLabel, false, ctx.hirzel), AsmLabel(ifLabel)];
      var thenCode := Evaluate(s.thn);
      result := result + thenCode + [Br(endLabel, false, ctx.hirzel), AsmLabel(elseLabel)];
      var elseCode := Evaluate(s.els);
      result := result + elseCode + [AsmLabel(endLabel)];
    }

    /** Leaves to the label when the value is zero: never for a nonzero constant, always for 0. */
    method JumpIfZeroTo(value: TestValue, l: Label) returns (code: seq<Asm>)
      ensures code == JumpIfZero(value, l, ctx) && LeavesIfZero(code, value, l)
    {
      JumpIfZeroLeaves(value, l, ctx);
      match value
      case NoValue => code := [];
      case ConstValue(k) => code := if k == 0 then [Br(l, false, ctx.hirzel)] else [];
      case RegValue(r) => code := [Brz(R(r), l, false, ctx.hirzel)];
    }

    method JumpIfNonZeroTo(value: TestValue, l: Label) returns (code: seq<Asm>)
      ensures code == JumpIfNonZero(value, l, ctx)
    {
      match value
      case NoValue => code := [];
      case ConstValue(k) => code := if k != 0 then [Br(l, false, ctx.hirzel)] else [];
      case RegValue(r) => code := [Branch(BRNZ, R(r), l, false)];
    }

    method EvaluateWhile(s: Stmt) returns (result: seq<Asm>)
      requires s.While?
      modifies this
      ensures var l := StmtCode(s, ctx, old(Now())); result == l.code && Now() == l.next
      decreases s, 1, 0
    {
      hide OperandCode, Br, AsmLabel, NodeEntry, JumpIfZero;
      var test, value := EvaluateOperand(s.test);
      var whileLabel := NewLabel("while");
      var loopLabel := NewLabel("loop");
      var endLabel := NewLabel("end");
      var leave := JumpIfZeroTo(value, endLabel);
      result := [AsmLabel(whileLabel)] + test + leave + [NodeEntry(), AsmLabel(loopLabel)];
      var body := Evaluate(s.body);
      result := result + body + [Br(whileLabel, false, ctx.hirzel), AsmLabel(endLabel)];
    }

    method EvaluateTest(test: Option<Operand>) returns (result: seq<Asm>, value: TestValue)
      modifies this
      ensures var l := TestCode(test, ctx, old(Now())); result == l.code && value == l.value && Now() == l.next
    {
      hide OperandCode;
      if test.None? {
        return [], NoValue;
      }
      result, value := EvaluateOperand(test.value);
    }

    method EvaluateFor(s: Stmt) returns (result: seq<Asm>)
      requires s.For?
      modifies this
      ensures var l := StmtCode(s, ctx, old(Now())); result == l.code && Now() == l.next
      decreases s, 1, 0
    {
      hide TestCode, Br, AsmLabel, NodeEntry, JumpIfZero;
      var init := Evaluate(s.init);
      var forLabel := NewLabel("for");
      var test, value := EvaluateTest(s.forTest);
      var incr := Evaluate(s.incr);
      var bodyLabel := NewLabel("body");
      var endLabel := NewLabel("end");
      var leave := JumpIfZeroTo(value, endLabel);
      var body := Evaluate(s.body);
      var loop := [AsmLabel(forLabel)] + test + leave + [AsmLabel(bodyLabel), NodeEntry()] + body + incr +
                  [Br(forLabel, false, ctx.hirzel), AsmLabel(endLabel)];
      result := init + loop;
    }

    /** The test is lowered before the body and, for its value alone, once more after it. */
    method EvaluateDoWhile(s: Stmt) returns (result: seq<Asm>)
      requires s.DoWhile?
      modifies this
      ensures var l := StmtCode(s, ctx, old(Now())); result == l.code && Now() == l.next
      decreases s, 1, 0
    {
      hide OperandCode, AsmLabel, NodeEntry, JumpIfNonZero;
      var doLabel := NewLabel("do");
      var whileLabel := NewLabel("while");
      var endLabel := NewLabel("end");
      var test, value := EvaluateOperand(s.test);
      var body := Evaluate(s.body);
      var _, _ := EvaluateOperand(s.test);
      var again := JumpIfNonZeroTo(value, doLabel);
      result := [AsmLabel(doLabel)] + body + [AsmLabel(whileLabel)] + test + [NodeEntry()] + again + [AsmLabel(endLabel)];
    }

    /** The loop shared by all repeats. */
    method EmitRepeatLoop(counter: nat, loopLabel: Label, body: seq<Asm>) returns (result: seq<Asm>)
      ensures result == RepeatLoop(counter, loopLabel, body)
    {
      hide AddCode, AsmLabel, NodeEntry, Branch;
      result := [AsmLabel(loopLabel), NodeEntry()] + body;
      var decrement := Addi(counter, counter, -1);
      result := result + decrement + [Branch(BRGZ, R(counter), loopLabel, false)];
    }

    method EvaluateRepeatVar(s: Stmt) returns (result: seq<Asm>)
      requires s.RepeatVar?
      modifies this
      ensures var l := StmtCode(s, ctx, old(Now())); result == l.code && Now() == l.next
      decreases s, 1, 0
    {
      hide ExprCode, AddCode, Brz, AsmLabel, RepeatLoop;
      var countReg;
      result, countReg := EvaluateExpr(s.count);
      var counter := GetRegisterNumber();
      var init := Addi(counter, countReg, 0);
      var loopLabel := NewLabel("loop");
      var endLabel := NewLabel("end");
      result := result + init + [Brz(R(counter), endLabel, false, ctx.hirzel)];
      var body := Evaluate(s.body);
      var loop := EmitRepeatLoop(counter, loopLabel, body);
      result := result + loop + [AsmLabel(endLabel)];
    }

    /** A constant count: nothing, the body once, a run-time loop, or copies of an empty body. */
    method EvaluateRepeatConst(s: Stmt) returns (result: seq<Asm>)
      requires s.RepeatConst?
      modifies this
      ensures var l := StmtCode(s, ctx, old(Now())); result == l.code && Now() == l.next
      decreases s, 1, 0
    {
      hide RepeatLoop, AddCode, Unrolled, RepeatRuntimeCode;
      var counter := GetRegisterNumber();
      if s.n < 1 {
        return [];
      }
      if s.n == 1 {
        result := Evaluate(s.body);
        return;
      }
      if s.n <= ctx.unrollLimit {
        var trial := Evaluate(s.body);
        if trial == [] {
          result := EvaluateCopies(s, s.n - 1);
          return;
        }
      }
      result := EvaluateRuntimeLoop(s, counter);
    }

    method EvaluateCopies(s: Stmt, copies: nat) returns (result: seq<Asm>)
      requires s.RepeatConst?
      modifies this
      ensures var l := Unrolled(s, copies, ctx, old(Now())); result == l.code && Now() == l.next
      decreases s, 0, 0
    {
      hide StmtCode;
      result := [];
      for i := 0 to copies
        invariant var rest, whole := Unrolled(s, copies - i, ctx, Now()), Unrolled(s, copies, ctx, old(Now()));
          whole.code == result + rest.code && whole.next == rest.next
      {
        var code := Evaluate(s.body);
        result := result + code;
      }
    }

    method EvaluateRuntimeLoop(s: Stmt, counter: nat) returns (result: seq<Asm>)
      requires s.RepeatConst?
      modifies this
      ensures var l := RepeatRuntimeCode(s, ctx, counter, old(Now())); result == l.code && Now() == l.next
      decreases s, 0, 0
    {
      hide StmtCode, RepeatLoop, AddCode;
      result := Addi(counter, 0, s.n);
      var loopLabel := NewLabel("loop");
      var body := Evaluate(s.body);
      var loop := EmitRepeatLoop(counter, loopLabel, body);
      result := result + loop;
    }

    // ----- Switch -----

    /** Wait for the trigger, run the body, leave. */
    method EmitCaseBody(waitReg: nat, body: seq<Asm>, endLabel: Label) returns (result: seq<Asm>)
      ensures result == CaseBody(waitReg, body, endLabel, ctx)
    {
      hide AddCode, Br, WaitTrigger;
      result := Addi(waitReg, 0, ctx.waitTrigger);
      result := result + [WaitTrigger(R(waitReg), R(waitReg))] + body + [Br(endLabel, true, ctx.hirzel)];
    }

    /** The bodies of the cases. */
    method EvaluateBodies(s: Stmt) returns (bodies: seq<seq<Asm>>)
      requires s.Switch?
      modifies this
      ensures var r := CaseBodies(s, 0, ctx, old(Now())); bodies == r.0 && Now() == r.1
      decreases s, 0, 0
    {
      hide StmtCode;
      bodies := [];
      for i := 0 to |s.cases|
        invariant var rest, whole := CaseBodies(s, i, ctx, Now()), CaseBodies(s, 0, ctx, old(Now()));
          whole.0 == bodies + rest.0 && whole.1 == rest.1
      {
        var body := Evaluate(s.cases[i].body);
        bodies := bodies + [body];
      }
    }

    /** The comparison of case i, and its body behind its label. */
    method EvaluateCase(cases: seq<Case>, i: nat, condReg: nat, bodies: seq<seq<Asm>>, endLabel: Label, ghost c: Counters)
      returns (test: seq<Asm>, labelled: seq<Asm>)
      requires i < |cases| == |bodies| && Now() == Counters(c.reg + 2 * i, c.lbl + i)
      modifies this
      ensures test == CaseTest(cases, i, condReg, ctx, c) && labelled == LabelledBody(bodies, i, endLabel, ctx, c)
      ensures Now() == Counters(c.reg + 2 * (i + 1), c.lbl + i + 1)
    {
      hide AddCode, Brz, CaseBody, AsmLabel;
      var caseReg := GetRegisterNumber();
      var caseLabel := NewLabel("case");
      var compare := Addi(caseReg, condReg, -cases[i].value);
      test := compare + [Brz(R(caseReg), caseLabel, false, ctx.hirzel)];
      var waitReg := GetRegisterNumber();
      var body := EmitCaseBody(waitReg, bodies[i], endLabel);
      labelled := [AsmLabel(caseLabel)] + body;
    }

    /** The comparisons of all cases, and their bodies behind their labels. */
    method EvaluateCases(cases: seq<Case>, condReg: nat, bodies: seq<seq<Asm>>, endLabel: Label)
      returns (tests: seq<Asm>, labelled: seq<Asm>)
      requires |bodies| == |cases|
      modifies this
      ensures tests == CaseTests(cases, 0, condReg, ctx, old(Now()))
      ensures labelled == LabelledBodies(bodies, 0, endLabel, ctx, old(Now()))
      ensures Now() == Counters(old(regNumber) + 2 * |cases|, old(labelIndex) + |cases|)
    {
      hide CaseTest, LabelledBody;
      tests, labelled := [], [];
      ghost var c := Now();
      for i := 0 to |cases|
        invariant Now() == Counters(c.reg + 2 * i, c.lbl + i)
        invariant CaseTests(cases, 0, condReg, ctx, c) == tests + CaseTests(cases, i, condReg, ctx, c)
        invariant LabelledBodies(bodies, 0, endLabel, ctx, c) == labelled + LabelledBodies(bodies, i, endLabel, ctx, c)
      {
        var test, body := EvaluateCase(cases, i, condReg, bodies, endLabel, c);
        tests := tests + test;
        labelled := labelled + body;
      }
    }

    /** The announcement of the switch. */
    method EmitAnnouncement(s: Stmt, condCode: seq<Asm>, switchReg: nat) returns (result: seq<Asm>)
      requires s.Switch?
      ensures forall d: SwitchNumbers :: d.cond.code == condCode && d.dflt.next.reg == switchReg ==> result == AnnounceCode(s, d)
    {
      hide AddCode, NodeEntry, StoreTo, SwitchCycles;
      result := condCode + [NodeEntry()];
      var announce := Addi(switchReg, 0, SwitchCycles(s.cases, s.otherwise));
      result := result + announce + [StoreTo(R(switchReg), SUSER_TRIGGER_LOAD)];
    }

    /** Label and body of the default, and where the comparisons fall through to. */
    method EvaluateDefault(s: Stmt, dflt: seq<Asm>, ghost d: SwitchNumbers, endLabel: Label) returns (exit: Label, result: seq<Asm>)
      requires s.Switch? && d.dflt.code == dflt && EndLabel(d) == endLabel
      requires Now() == Counters(CaseReg(d.c1, |s.cases|), d.c1.lbl + |s.cases|)
      modifies this
      ensures result == DefaultCode(s, ctx, d) && Now() == SwitchNext(s, d)
      ensures exit == if s.otherwise.Some? then DefaultLabel(s, d) else endLabel
    {
      hide CaseBody, AsmLabel;
      if s.otherwise.None? {
        return endLabel, [];
      }
      exit := NewLabel("default");
      var defReg := GetRegisterNumber();
      var body := EmitCaseBody(defReg, dflt, endLabel);
      result := [AsmLabel(exit)] + body;
    }

    method EvaluateSwitch(s: Stmt) returns (result: seq<Asm>)
      requires s.Switch?
      modifies this
      ensures var l := StmtCode(s, ctx, old(Now())); result == l.code && Now() == l.next
      decreases s, 1, 0
    {
      hide ExprCode, StmtCode, AnnounceCode, CaseTests, LabelledBodies, DefaultCode, Nop, Br, AsmLabel, SwitchNext, CaseBodies;
      ghost var d := NumbersOf(s, ctx, Now());
      SwitchShape(s, ctx, Now());
      var condCode, condReg := EvaluateExpr(s.cond);
      var bodies := EvaluateBodies(s);
      var dflt: seq<Asm> := [];
      if s.otherwise.Some? {
        dflt := Evaluate(s.otherwise.value);
      }
      var switchReg := GetRegisterNumber();
      var endLabel := NewLabel("end");
      result := EmitAnnouncement(s, condCode, switchReg);
      var tests, labelled := EvaluateCases(s.cases, condReg, bodies, endLabel);
      var exit, defaultCode := EvaluateDefault(s, dflt, d, endLabel);
      result := result + tests + [Nop(), Br(exit, false, ctx.hirzel)] + labelled + defaultCode + [AsmLabel(endLabel)];
    }
  }
}
