/** Lowering statements to labelled branches: the code emitted for each construct, as a
    function of the running register and label numbers. */
module Lowering {
  import opened Instructions
  import opened Machine
  import opened AsmCommands
  import opened SourceLanguage

  /** The next register number and the next label number. */
  datatype Counters = Counters(reg: nat, lbl: nat)

  function NextReg(c: Counters): Counters { c.(reg := c.reg + 1) }
  function NextLabels(c: Counters, n: nat): Counters { c.(lbl := c.lbl + n) }

  predicate NotBefore(c: Counters, d: Counters) { c.reg <= d.reg && c.lbl <= d.lbl }

  datatype LoweredExpr = LoweredExpr(code: seq<Asm>, reg: nat, next: Counters)
  datatype Lowered = Lowered(code: seq<Asm>, next: Counters)

  /** The value of a lowered test. */
  datatype TestValue = NoValue | ConstValue(c: int) | RegValue(reg: nat)
  datatype LoweredTest = LoweredTest(code: seq<Asm>, value: TestValue, next: Counters)

  function AddCode(dst: nat, src: nat, imm: int): seq<Asm> {
    AluiCode(ADDI, R(dst), R(src), imm).value
  }

  function Sub(dst: nat, src: nat): Asm { AluRegister(SUBR, R(dst), R(src)) }
  function Add(dst: nat, src: nat): Asm { AluRegister(ADDR, R(dst), R(src)) }
  function SetTo(dst: nat, value: int): Asm { AluImmediate(ADDI, R(dst), R(0), value) }

  // ----- Expressions -----

  function ExprCode(e: Expr, ctx: Context, c: Counters): (l: LoweredExpr)
    ensures NotBefore(c, l.next)
  {
    match e
    case Var(r) => LoweredExpr([], r, c)
    case AddVar(lhs, rhs) =>
      var a := ExprCode(lhs, ctx, c);
      var b := ExprCode(rhs, ctx, a.next);
      var n := b.next.reg;
      LoweredExpr(a.code + b.code + AddCode(n, a.reg, 0) + [Add(n, b.reg)], n, NextReg(b.next))
    case AddConst(lhs, imm) =>
      var a := ExprCode(lhs, ctx, c);
      LoweredExpr(a.code + AddCode(a.next.reg, a.reg, imm), a.next.reg, NextReg(a.next))
    case SubVar(lhs, rhs) =>
      var a := ExprCode(lhs, ctx, c);
      var b := ExprCode(rhs, ctx, a.next);
      var n := b.next.reg;
      LoweredExpr(a.code + b.code + AddCode(n, a.reg, 0) + [Sub(n, b.reg)], n, NextReg(b.next))
    case SubConst(lhs, imm) =>
      var a := ExprCode(lhs, ctx, c);
      LoweredExpr(a.code + AddCode(a.next.reg, a.reg, -imm), a.next.reg, NextReg(a.next))
    case ConstSub(imm, rhs) =>
      var b := ExprCode(rhs, ctx, c);
      var n := b.next.reg;
      LoweredExpr(b.code + AddCode(n, 0, imm) + [Sub(n, b.reg)], n, NextReg(b.next))
    case Neg(e) =>
      var a := ExprCode(e, ctx, c);
      var n := a.next.reg;
      LoweredExpr(a.code + [SetTo(n, 0)] + [Sub(n, a.reg)], n, NextReg(a.next))
    case Inv(e) =>
      var a := ExprCode(e, ctx, c);
      var n := a.next.reg;
      LoweredExpr(a.code + AddCode(n, 0, -1) + AddCode(n, 0, -1) + [Sub(n, a.reg)], n, NextReg(a.next))
    case Not(e) =>
      var a := ExprCode(e, ctx, c);
      var n := a.next.reg;
      LoweredExpr(a.code + NotCode(n, a.reg, a.next.lbl, ctx), n, NextLabels(NextReg(a.next), 2))
    case Choose(cond, thn, els) =>
      var t := ExprCode(cond, ctx, c);
      var elseLabel, endLabel := Label("else", t.next.lbl), Label("end", t.next.lbl + 1);
      var a := OperandCode(thn, ctx, NextLabels(t.next, 2));
      var b := OperandCode(els, ctx, a.next);
      var n := b.next.reg;
      LoweredExpr(t.code + [NodeEntry(), Brz(R(t.reg), elseLabel, false, ctx.hirzel)] +
                  (a.code + CopyCode(n, a.value)) + [Br(endLabel, false, ctx.hirzel), AsmLabel(elseLabel)] +
                  (b.code + CopyCode(n, b.value)) + [AsmLabel(endLabel)],
                  n, NextReg(b.next))
  }

  function NotCode(n: nat, src: nat, lbl: nat, ctx: Context): seq<Asm> {
    var nzeroLabel, endLabel := Label("nzero", lbl), Label("end", lbl + 1);
    [SetTo(n, 0), Brz(R(src), nzeroLabel, false, ctx.hirzel), Br(endLabel, false, ctx.hirzel),
     AsmLabel(nzeroLabel), SetTo(n, 1), AsmLabel(endLabel)]
  }

  function OperandCode(v: Operand, ctx: Context, c: Counters): (l: LoweredTest)
    ensures NotBefore(c, l.next) && l.value != NoValue
  {
    match v
    case Constant(k) => LoweredTest([], ConstValue(k), c)
    case Runtime(e) => var a := ExprCode(e, ctx, c); LoweredTest(a.code, RegValue(a.reg), a.next)
  }

  /** Bringing a value into register n. */
  function CopyCode(n: nat, v: TestValue): seq<Asm> {
    match v
    case NoValue => []
    case ConstValue(k) => AddCode(n, 0, k)
    case RegValue(r) => AddCode(n, r, 0)
  }

  // ----- Tests and jumps -----

  function TestCode(test: Option<Operand>, ctx: Context, c: Counters): (l: LoweredTest)
    ensures NotBefore(c, l.next)
  {
    match test
    case None => LoweredTest([], NoValue, c)
    case Some(v) => OperandCode(v, ctx, c)
  }

  function JumpIfZero(v: TestValue, l: Label, ctx: Context): seq<Asm> {
    match v
    case NoValue => []
    case ConstValue(k) => if k == 0 then [Br(l, false, ctx.hirzel)] else []
    case RegValue(r) => [Brz(R(r), l, false, ctx.hirzel)]
  }

  function JumpIfNonZero(v: TestValue, l: Label, ctx: Context): seq<Asm> {
    match v
    case NoValue => []
    case ConstValue(k) => if k != 0 then [Br(l, false, ctx.hirzel)] else []
    case RegValue(r) => [Branch(BRNZ, R(r), l, false)]
  }

  // ----- Statements -----

  function StmtCode(s: Stmt, ctx: Context, c: Counters): (l: Lowered)
    ensures NotBefore(c, l.next)
    decreases s, 2, 0
  {
    match s
    case Block(stmts) => BlockCode(stmts, ctx, c)
    case Assign(x, v) =>
      var a := OperandCode(v, ctx, c);
      Lowered(a.code + CopyCode(x, a.value) + [NodeEntry()], a.next)
    case PreStep(x, delta) => Lowered(AddCode(x, x, delta), c)
    case PostStep(x, delta) => Lowered(AddCode(c.reg, x, 0) + AddCode(x, x, delta), NextReg(c))
    case Command(a) => Lowered([Asm(a, false)], c)
    case If(cond, body) =>
      var endLabel := Label("end", c.lbl);
      var t := ExprCode(cond, ctx, NextLabels(c, 1));
      var ifLabel := Label("if", t.next.lbl);
      var b := StmtCode(body, ctx, NextLabels(t.next, 1));
      Lowered(t.code + [NodeEntry(), Brz(R(t.reg), endLabel, false, ctx.hirzel), AsmLabel(ifLabel)] +
              b.code + [AsmLabel(endLabel)], b.next)
    case IfElse(cond, thn, els) =>
      var t := ExprCode(cond, ctx, c);
      var ifLabel, elseLabel, endLabel :=
        Label("if", t.next.lbl), Label("else", t.next.lbl + 1), Label("end", t.next.lbl + 2);
      var a := StmtCode(thn, ctx, NextLabels(t.next, 3));
      var b := StmtCode(els, ctx, a.next);
      Lowered(t.code + [NodeEntry(), Brz(R(t.reg), elseLabel, false, ctx.hirzel), AsmLabel(ifLabel)] +
              a.code + [Br(endLabel, false, ctx.hirzel), AsmLabel(elseLabel)] +
              b.code + [AsmLabel(endLabel)], b.next)
    case While(test, body) =>
      var t := OperandCode(test, ctx, c);
      var whileLabel, loopLabel, endLabel :=
        Label("while", t.next.lbl), Label("loop", t.next.lbl + 1), Label("end", t.next.lbl + 2);
      var b := StmtCode(body, ctx, NextLabels(t.next, 3));
      Lowered([AsmLabel(whileLabel)] + t.code + JumpIfZero(t.value, endLabel, ctx) +
              [NodeEntry(), AsmLabel(loopLabel)] + b.code +
              [Br(whileLabel, false, ctx.hirzel), AsmLabel(endLabel)], b.next)
    case For(init, test, incr, body) =>
      var i := StmtCode(init, ctx, c);
      var forLabel := Label("for", i.next.lbl);
      var t := TestCode(test, ctx, NextLabels(i.next, 1));
      var j := StmtCode(incr, ctx, t.next);
      var bodyLabel, endLabel := Label("body", j.next.lbl), Label("end", j.next.lbl + 1);
      var b := StmtCode(body, ctx, NextLabels(j.next, 2));
      Lowered(i.code + ([AsmLabel(forLabel)] + t.code + JumpIfZero(t.value, endLabel, ctx) +
              [AsmLabel(bodyLabel), NodeEntry()] + b.code + j.code +
              [Br(forLabel, false, ctx.hirzel), AsmLabel(endLabel)]), b.next)
    case DoWhile(body, test) =>
      var doLabel, whileLabel, endLabel :=
        Label("do", c.lbl), Label("while", c.lbl + 1), Label("end", c.lbl + 2);
      var t := OperandCode(test, ctx, NextLabels(c, 3));
      var b := StmtCode(body, ctx, t.next);
      var again := OperandCode(test, ctx, b.next);
      Lowered([AsmLabel(doLabel)] + b.code + [AsmLabel(whileLabel)] + t.code + [NodeEntry()] +
              JumpIfNonZero(t.value, doLabel, ctx) + [AsmLabel(endLabel)], again.next)
    case RepeatVar(count, body) =>
      var t := ExprCode(count, ctx, c);
      var counter := t.next.reg;
      var loopLabel, endLabel := Label("loop", t.next.lbl), Label("end", t.next.lbl + 1);
      var b := StmtCode(body, ctx, NextLabels(NextReg(t.next), 2));
      Lowered(t.code + AddCode(counter, t.reg, 0) + [Brz(R(counter), endLabel, false, ctx.hirzel)] +
              RepeatLoop(counter, loopLabel, b.code) + [AsmLabel(endLabel)], b.next)
    case RepeatConst(n, body) => RepeatConstCode(s, ctx, c)
    case Switch(cond, cases, otherwise) => SwitchCode(s, ctx, c)
  }

  /** The loop shared by all repeats: run the body, count down, go on while positive. */
  function RepeatLoop(counter: nat, loopLabel: Label, body: seq<Asm>): seq<Asm> {
    [AsmLabel(loopLabel), NodeEntry()] + body + AddCode(counter, counter, -1) +
    [Branch(BRGZ, R(counter), loopLabel, false)]
  }

  function BlockCode(stmts: seq<Stmt>, ctx: Context, c: Counters): (l: Lowered)
    ensures NotBefore(c, l.next)
    decreases stmts, 0, 0
  {
    if stmts == [] then Lowered([], c)
    else
      var first := StmtCode(stmts[0], ctx, c);
      var rest := BlockCode(stmts[1..], ctx, first.next);
      Lowered(first.code + rest.code, rest.next)
  }

  /** Constant counts: nothing for 0, the body for 1. From 2 on a run-time loop when the count
      is over the unroll limit or the body emits anything, else the unrolled copies. */
  function RepeatConstCode(s: Stmt, ctx: Context, c: Counters): (l: Lowered)
    requires s.RepeatConst?
    ensures NotBefore(c, l.next)
    decreases s, 1, 0
  {
    var start := NextReg(c);
    if s.n < 1 then Lowered([], start)
    else if s.n == 1 then StmtCode(s.body, ctx, start)
    else if s.n > ctx.unrollLimit then RepeatRuntimeCode(s, ctx, c.reg, start)
    else
      var trial := StmtCode(s.body, ctx, start);
      if trial.code != [] then RepeatRuntimeCode(s, ctx, c.reg, trial.next)
      else Unrolled(s, s.n - 1, ctx, trial.next)
  }

  function RepeatRuntimeCode(s: Stmt, ctx: Context, counter: nat, c: Counters): (l: Lowered)
    requires s.RepeatConst?
    ensures NotBefore(c, l.next)
    decreases s, 0, 0
  {
    var b := StmtCode(s.body, ctx, NextLabels(c, 1));
    Lowered(AddCode(counter, 0, s.n) + RepeatLoop(counter, Label("loop", c.lbl), b.code), b.next)
  }

  function Unrolled(s: Stmt, copies: nat, ctx: Context, c: Counters): (l: Lowered)
    requires s.RepeatConst?
    ensures NotBefore(c, l.next)
    decreases s, 0, copies
  {
    if copies == 0 then Lowered([], c)
    else
      var first := StmtCode(s.body, ctx, c);
      var rest := Unrolled(s, copies - 1, ctx, first.next);
      Lowered(first.code + rest.code, rest.next)
  }

  /** The bodies of the cases from i on, each with its own fragment. */
  function CaseBodies(s: Stmt, i: nat, ctx: Context, c: Counters): (r: (seq<seq<Asm>>, Counters))
    requires s.Switch? && i <= |s.cases|
    ensures |r.0| == |s.cases| - i && NotBefore(c, r.1)
    decreases s, 0, |s.cases| - i
  {
    if i == |s.cases| then ([], c)
    else
      var first := StmtCode(s.cases[i].body, ctx, c);
      var rest := CaseBodies(s, i + 1, ctx, first.next);
      ([first.code] + rest.0, rest.1)
  }

  function CaseReg(c: Counters, i: nat): nat { c.reg + 2 * i }
  function CaseLabel(c: Counters, i: nat): Label { Label("case", c.lbl + i) }

  /** Case i: compare with its constant and branch to its label. */
  function CaseTest(cases: seq<Case>, i: nat, condReg: nat, ctx: Context, c: Counters): seq<Asm>
    requires i < |cases|
  {
    AddCode(CaseReg(c, i), condReg, -cases[i].value) + [Brz(R(CaseReg(c, i)), CaseLabel(c, i), false, ctx.hirzel)]
  }

  function CaseTests(cases: seq<Case>, i: nat, condReg: nat, ctx: Context, c: Counters): seq<Asm>
    requires i <= |cases|
    decreases |cases| - i
  {
    if i == |cases| then []
    else CaseTest(cases, i, condReg, ctx, c) + CaseTests(cases, i + 1, condReg, ctx, c)
  }

  /** Wait for the trigger, run the body, leave. */
  function CaseBody(waitReg: nat, body: seq<Asm>, endLabel: Label, ctx: Context): seq<Asm> {
    AddCode(waitReg, 0, ctx.waitTrigger) + [WaitTrigger(R(waitReg), R(waitReg))] + body +
    [Br(endLabel, true, ctx.hirzel)]
  }

  function LabelledBody(bodies: seq<seq<Asm>>, i: nat, endLabel: Label, ctx: Context, c: Counters): seq<Asm>
    requires i < |bodies|
  {
    [AsmLabel(CaseLabel(c, i))] + CaseBody(CaseReg(c, i) + 1, bodies[i], endLabel, ctx)
  }

  function LabelledBodies(bodies: seq<seq<Asm>>, i: nat, endLabel: Label, ctx: Context, c: Counters): seq<Asm>
    requires i <= |bodies|
    decreases |bodies| - i
  {
    if i == |bodies| then []
    else LabelledBody(bodies, i, endLabel, ctx, c) + LabelledBodies(bodies, i + 1, endLabel, ctx, c)
  }

  /** Announce, test the cases in order, fall to the default or the end; then the bodies. */
  function SwitchCode(s: Stmt, ctx: Context, c: Counters): (l: Lowered)
    requires s.Switch?
    ensures NotBefore(c, l.next)
    decreases s, 1, 0
  {
    var t := ExprCode(s.cond, ctx, c);
    var bodies := CaseBodies(s, 0, ctx, t.next);
    var dflt := if s.otherwise.Some? then StmtCode(s.otherwise.value, ctx, bodies.1) else Lowered([], bodies.1);
    var switchReg := dflt.next.reg;
    var endLabel := Label("end", dflt.next.lbl);
    var c1 := NextLabels(NextReg(dflt.next), 1);
    var defReg := CaseReg(c1, |s.cases|);
    var defaultLabel := Label("default", c1.lbl + |s.cases|);
    var exit := if s.otherwise.Some? then defaultLabel else endLabel;
    Lowered(
      t.code + [NodeEntry()] +
      AddCode(switchReg, 0, SwitchCycles(s.cases, s.otherwise)) + [StoreTo(R(switchReg), SUSER_TRIGGER_LOAD)] +
      CaseTests(s.cases, 0, t.reg, ctx, c1) + [Nop(), Br(exit, false, ctx.hirzel)] +
      LabelledBodies(bodies.0, 0, endLabel, ctx, c1) +
      (if s.otherwise.Some? then [AsmLabel(defaultLabel)] + CaseBody(defReg, dflt.code, endLabel, ctx) else []) +
      [AsmLabel(endLabel)],
      Counters(defReg + (if s.otherwise.Some? then 1 else 0),
               c1.lbl + |s.cases| + (if s.otherwise.Some? then 1 else 0)))
  }

  // ----- What a switch announces -----

  function CyclesOf(code: seq<Asm>): int {
    if code == [] then 0 else GetCycles(code[0].assembler.cmd) + CyclesOf(code[1..])
  }

  lemma {:induction false} CyclesSum(a: seq<Asm>, b: seq<Asm>)
    ensures CyclesOf(a + b) == CyclesOf(a) + CyclesOf(b)
    decreases a
  {
    hide GetCycles;
    if a == [] {
      assert a + b == b;
    } else {
      CyclesSum(a[1..], b);
      assert (a + b)[1..] == a[1..] + b;
    }
  }

  /** The cases from i on whose constants take two instructions to compare with. */
  function WideCases(cases: seq<Case>, i: nat): nat
    requires i <= |cases|
    decreases |cases| - i
  {
    if i == |cases| then 0 else WideCases(cases, i + 1) + (if FitsDirectly(-cases[i].value) then 0 else 1)
  }

  lemma AddCycles(dst: nat, src: nat, imm: int)
    ensures CyclesOf(AddCode(dst, src, imm)) == if FitsDirectly(imm) then 1 else 2
  {
    hide FitsDirectly;
    var low, high := AluImmediate(ADDI, R(dst), R(src), Low(imm)), AluImmediate(ADDIU, R(dst), R(dst), Upper(imm));
    OneCycle(AluImmediate(ADDI, R(dst), R(src), imm));
    OneCycle(low);
    OneCycle(high);
    CyclesSum([low], [high]);
    assert [low] + [high] == [low, high];
  }

  lemma OneCycle(e: Asm)
    ensures CyclesOf([e]) == GetCycles(e.assembler.cmd)
  {
    assert [e][1..] == [];
  }

  lemma BranchCycles(reg: nat, l: Label, noOpt: bool, hirzel: bool)
    ensures CyclesOf([Brz(R(reg), l, noOpt, hirzel)]) == if hirzel && reg == 0 then 1 else 3
  {
  }

  /** The comparisons take four cycles each, and one more for a wide constant. */
  lemma {:induction false} TestsCycles(cases: seq<Case>, i: nat, condReg: nat, ctx: Context, c: Counters)
    requires i <= |cases| && c.reg > 0
    ensures CyclesOf(CaseTests(cases, i, condReg, ctx, c)) == 4 * (|cases| - i) + WideCases(cases, i)
    decreases |cases| - i
  {
    hide FitsDirectly, AddCode, Brz, CyclesOf, GetCycles;
    if i < |cases| {
      var add, branch := AddCode(CaseReg(c, i), condReg, -cases[i].value), [Brz(R(CaseReg(c, i)), CaseLabel(c, i), false, ctx.hirzel)];
      AddCycles(CaseReg(c, i), condReg, -cases[i].value);
      BranchCycles(CaseReg(c, i), CaseLabel(c, i), false, ctx.hirzel);
      CyclesSum(add, branch);
      CyclesSum(add + branch, CaseTests(cases, i + 1, condReg, ctx, c));
      TestsCycles(cases, i + 1, condReg, ctx, c);
    } else {
      NoCycles();
    }
  }

  lemma NoCycles()
    ensures CyclesOf([]) == 0
  {
  }

  /** The cycles from the announcement to the default, or past the comparisons when there is none:
      each comparison with a short constant, and a NOP and a branch to the default. */
  function CyclesToDecide(cases: seq<Case>, otherwise: Option<Stmt>, condReg: nat, exit: Label, ctx: Context, c: Counters): int {
    CyclesOf(CaseTests(cases, 0, condReg, ctx, c)) - WideCases(cases, 0) +
    (if otherwise.Some? then CyclesOf([Nop(), Br(exit, false, false)]) else 0)
  }

  /** That number is what a switch stores to address 0x1a. */
  lemma SwitchAnnouncesCycles(cases: seq<Case>, otherwise: Option<Stmt>, condReg: nat, exit: Label, ctx: Context, c: Counters)
    requires c.reg > 0
    ensures AnnounceEvent(cases, otherwise) == Event(ST, [], [0x1a], Wrap(CyclesToDecide(cases, otherwise, condReg, exit, ctx, c)), 0)
  {
    hide CaseTests, WideCases, CyclesOf, SwitchCycles, Wrap, Nop, Br;
    TestsCycles(cases, 0, condReg, ctx, c);
    ExitCycles(exit);
    AnnouncedNumber(cases, otherwise);
  }

  lemma AnnouncedNumber(cases: seq<Case>, otherwise: Option<Stmt>)
    ensures SwitchCycles(cases, otherwise) == 4 * |cases| + (if otherwise.Some? then 4 else 0)
  {
    assert GetCycles(BRZ) == 3 && GetCycles(ADDI) == 1;
  }

  lemma ExitCycles(exit: Label)
    ensures CyclesOf([Nop(), Br(exit, false, false)]) == 4
  {
    BranchCycles(0, exit, false, false);
    CyclesSum([Nop()], [Br(exit, false, false)]);
    OneCycle(Nop());
    assert [Nop()] + [Br(exit, false, false)] == [Nop(), Br(exit, false, false)];
  }

  // ----- Which statements emit code -----

  /** Everything but empty blocks and repeats that come to nothing. A repeat over the unroll limit
      is a loop even when its body is empty. */
  predicate Emits(s: Stmt, limit: int) {
    match s
    case Block(stmts) => exists i :: 0 <= i < |stmts| && Emits(stmts[i], limit)
    case RepeatConst(n, body) => n >= 1 && (Emits(body, limit) || (n >= 2 && n > limit))
    case _ => true
  }

  /** Whether a statement emits code does not depend on the counters. */
  lemma {:induction false} EmitsIff(s: Stmt, ctx: Context, c: Counters)
    ensures StmtCode(s, ctx, c).code != [] <==> Emits(s, ctx.unrollLimit)
    decreases s, 2, 0
  {
    match s
    case Block(stmts) =>
      BlockEmitsIff(stmts, ctx, c);
    case RepeatConst(n, body) =>
      RepeatEmitsIff(s, ctx, c);
    case _ =>
      SomethingEmitted(s, ctx, c);
  }

  lemma SomethingEmitted(s: Stmt, ctx: Context, c: Counters)
    requires !s.Block? && !s.RepeatConst?
    ensures StmtCode(s, ctx, c).code != []
  {
    hide ExprCode, OperandCode, TestCode, FitsDirectly, CaseTests, LabelledBodies, CaseBodies;
  }

  lemma {:induction false} BlockEmitsIff(stmts: seq<Stmt>, ctx: Context, c: Counters)
    ensures BlockCode(stmts, ctx, c).code != [] <==> exists i :: 0 <= i < |stmts| && Emits(stmts[i], ctx.unrollLimit)
    decreases stmts, 0, 0
  {
    hide Emits;
    if stmts != [] {
      EmitsIff(stmts[0], ctx, c);
      BlockEmitsIff(stmts[1..], ctx, StmtCode(stmts[0], ctx, c).next);
      assert forall i :: 1 <= i < |stmts| ==> stmts[i] == stmts[1..][i - 1];
    }
  }

  lemma {:induction false} RepeatEmitsIff(s: Stmt, ctx: Context, c: Counters)
    requires s.RepeatConst?
    ensures RepeatConstCode(s, ctx, c).code != [] <==> Emits(s, ctx.unrollLimit)
    decreases s, 1, 0
  {
    hide StmtCode, Unrolled, RepeatRuntimeCode;
    var start := NextReg(c);
    var trial := StmtCode(s.body, ctx, start);
    EmitsIff(s.body, ctx, start);
    RuntimeCodeEmits(s, ctx, c.reg, start);
    RuntimeCodeEmits(s, ctx, c.reg, trial.next);
    if s.n >= 2 && !Emits(s.body, ctx.unrollLimit) { UnrolledEmpty(s, s.n - 1, ctx, trial.next); }
  }

  lemma RuntimeCodeEmits(s: Stmt, ctx: Context, counter: nat, c: Counters)
    requires s.RepeatConst?
    ensures var code := RepeatRuntimeCode(s, ctx, counter, c).code;
      code != [] && LastEntry(code) == Branch(BRGZ, R(counter), Label("loop", c.lbl), false)
  {
    hide StmtCode, FitsDirectly;
  }

  function LastEntry(code: seq<Asm>): Asm
    requires code != []
  {
    code[|code| - 1]
  }

  lemma {:induction false} UnrolledEmpty(s: Stmt, copies: nat, ctx: Context, c: Counters)
    requires s.RepeatConst? && !Emits(s.body, ctx.unrollLimit)
    ensures Unrolled(s, copies, ctx, c).code == []
    decreases s, 0, copies
  {
    hide StmtCode, Emits;
    if copies > 0 {
      EmitsIff(s.body, ctx, c);
      UnrolledEmpty(s, copies - 1, ctx, StmtCode(s.body, ctx, c).next);
    }
  }

  /** A repeat over a constant is a loop at run time exactly from a count of 2 on, when its body emits
      code or the count is over the unroll limit; otherwise it is its body, or nothing. */
  lemma RepeatConstForm(s: Stmt, ctx: Context, c: Counters)
    requires s.RepeatConst?
    ensures var code, body := StmtCode(s, ctx, c).code, StmtCode(s.body, ctx, NextReg(c)).code;
      if s.n >= 2 && (s.n > ctx.unrollLimit || body != [])
      then code != [] && LastEntry(code).assembler.cmd.BRGZ? && LastEntry(code).assembler.regSrc == R(c.reg)
      else code == if s.n == 1 then body else []
  {
    hide Unrolled, RepeatRuntimeCode;
    var start := NextReg(c);
    var trial := StmtCode(s.body, ctx, start);
    RuntimeCodeEmits(s, ctx, c.reg, start);
    RuntimeCodeEmits(s, ctx, c.reg, trial.next);
    EmitsIff(s.body, ctx, start);
    if s.n >= 2 && trial.code == [] { UnrolledEmpty(s, s.n - 1, ctx, trial.next); }
    RepeatCodeIs(s, ctx, c);
  }

  lemma RepeatCodeIs(s: Stmt, ctx: Context, c: Counters)
    requires s.RepeatConst?
    ensures StmtCode(s, ctx, c) == RepeatConstCode(s, ctx, c)
  {
    hide RepeatConstCode;
  }
}
