/** When a run of emitted code shows what a source statement does. */
module Outcomes {
  import opened Instructions
  import opened Machine
  import opened AsmCommands
  import opened SourceLanguage
  import opened Lowering
  import opened Execution
  import opened ExpressionLowering

  /** The machine has sent what the source has sent and holds its variables. */
  ghost predicate Stands(m: State, st: Store, base: nat) {
    m.trace == st.trace && AgreeBelow(st.regs, m.regs, base)
  }

  /** The temporaries below keep are as they were. */
  ghost predicate Kept(m: State, t: State, base: nat, keep: nat) {
    forall r: nat :: base <= r < keep ==> Get(t.regs, r) == Get(m.regs, r)
  }

  /** n steps inside the region end at `end` with the statement's variables and commands; or,
      when the fuel ran out, n is at least the fuel and the commands so far are the same. */
  ghost predicate Shows(g: Region, m: State, n: nat, end: nat, o: Outcome, fuel: nat, base: nat, keep: nat) {
    Inside(g, m, n) &&
    (match o
     case Done(st) => Ends(m, Run(g.prog, g.input, m, n), end, st, base, keep)
     case OutOfFuel(trace) => fuel <= n && Run(g.prog, g.input, m, n).trace == trace)
  }

  ghost predicate Ends(m: State, t: State, end: nat, st: Store, base: nat, keep: nat) {
    t.pc == end && Stands(t, st, base) && Kept(m, t, base, keep)
  }

  lemma ShowsDone(g: Region, m: State, n: nat, t: State, end: nat, st: Store, fuel: nat, base: nat, keep: nat)
    requires Path(g, m, n, t) && Ends(m, t, end, st, base, keep)
    ensures Shows(g, m, n, end, Done(st), fuel, base, keep)
  {
  }

  /** Where a finished statement has led. */
  lemma Finished(g: Region, m: State, n: nat, end: nat, st: Store, fuel: nat, base: nat, keep: nat) returns (t: State)
    requires Shows(g, m, n, end, Done(st), fuel, base, keep)
    ensures Path(g, m, n, t) && Ends(m, t, end, st, base, keep) && t.pc == end && Stands(t, st, base) && Kept(m, t, base, keep)
  {
    t := Run(g.prog, g.input, m, n);
  }

  /** A statement that does not end does not reach what follows. */
  lemma Stuck(g: Region, m: State, n: nat, end: nat, end': nat, o: Outcome, fuel: nat, base: nat, keep: nat, keep': nat)
    requires Shows(g, m, n, end, o, fuel, base, keep) && o.OutOfFuel?
    ensures Shows(g, m, n, end', o, fuel, base, keep')
  {
  }

  /** What is shown after a path is shown from its start. */
  lemma ShowsAfter(g: Region, m: State, n: nat, t: State, n': nat, end: nat, o: Outcome, fuel: nat, fuel': nat,
                   base: nat, keep: nat, keep': nat)
    requires Path(g, m, n, t) && Kept(m, t, base, keep) && Shows(g, t, n', end, o, fuel', base, keep')
    requires keep <= keep' && fuel <= fuel' + n
    ensures Shows(g, m, n + n', end, o, fuel, base, keep)
  {
    hide Run, Inside, Stands;
    InsideThen(g, m, n, t, n');
    RunAdd(g.prog, g.input, m, n, n');
  }

  /** Leaving over a label. */
  lemma LeaveAtLabel(g: Region, m: State, n: nat, t: State, l: Label, st: Store, fuel: nat, base: nat, keep: nat)
    requires Path(g, m, n, t) && Placed(g, t.pc, [AsmLabel(l)]) && Stands(t, st, base) && Kept(m, t, base, keep)
    ensures Shows(g, m, n + 1, t.pc + 1, Done(st), fuel, base, keep)
  {
    hide Path, Placed, Get, Run;
    LabelPath(g, t, l);
    PathThen(g, m, n, t, 1, t.(pc := t.pc + 1));
    ShowsDone(g, m, n + 1, t.(pc := t.pc + 1), t.pc + 1, st, fuel, base, keep);
  }

  /** After what is shown up to a label, on over the label. */
  lemma ThenLabel(g: Region, m: State, n: nat, end: nat, l: Label, o: Outcome, fuel: nat, base: nat, keep: nat) returns (n': nat)
    requires Shows(g, m, n, end, o, fuel, base, keep) && Placed(g, end, [AsmLabel(l)])
    ensures Shows(g, m, n', end + 1, o, fuel, base, keep)
  {
    hide *;
    match o
    case OutOfFuel(_) =>
      n' := n;
      Stuck(g, m, n, end, end + 1, o, fuel, base, keep, keep);
    case Done(st) =>
      n' := n + 1;
      var t := Finished(g, m, n, end, st, fuel, base, keep);
      LeaveAtLabel(g, m, n, t, l, st, fuel, base, keep);
  }

  /** After what is shown up to a jump, to the label it leads to and over it. */
  lemma ThenJump(g: Region, m: State, n: nat, at: nat, l: Label, noOpt: bool, hirzel: bool, end: nat,
                 o: Outcome, fuel: nat, base: nat, keep: nat) returns (n': nat)
    requires Shows(g, m, n, at, o, fuel, base, keep)
    requires Placed(g, at, [Br(l, noOpt, hirzel)]) && Placed(g, end, [AsmLabel(l)])
    ensures Shows(g, m, n', end + 1, o, fuel, base, keep)
  {
    hide *;
    match o
    case OutOfFuel(_) =>
      n' := n;
      Stuck(g, m, n, at, end + 1, o, fuel, base, keep, keep);
    case Done(st) =>
      n' := n + 2;
      var t := Finished(g, m, n, at, st, fuel, base, keep);
      JumpPath(g, t, l, noOpt, hirzel);
      LabelPlace(g, end, l);
      PathThen(g, m, n, t, 1, t.(pc := end));
      StandsMoved(t, st, base, end);
      KeptMoved(m, t, base, keep, end);
      LeaveAtLabel(g, m, n + 1, t.(pc := end), l, st, fuel, base, keep);
  }

  lemma KeptThen(m: State, t: State, u: State, base: nat, keep: nat, keep': nat)
    requires Kept(m, t, base, keep) && Kept(t, u, base, keep') && keep <= keep'
    ensures Kept(m, u, base, keep)
  {
  }

  lemma KeptLess(m: State, t: State, base: nat, keep: nat, keep': nat)
    requires Kept(m, t, base, keep') && keep <= keep'
    ensures Kept(m, t, base, keep)
  {
  }

  lemma KeptMoved(m: State, t: State, base: nat, keep: nat, pc: nat)
    requires Kept(m, t, base, keep)
    ensures Kept(m, t.(pc := pc), base, keep)
  {
  }

  lemma KeptSelf(m: State, pc: nat, base: nat, keep: nat)
    ensures Kept(m, m.(pc := pc), base, keep)
  {
  }

  lemma StandsMoved(m: State, st: Store, base: nat, pc: nat)
    requires Stands(m, st, base)
    ensures Stands(m.(pc := pc), st, base)
  {
  }

  /** Computing temporaries changes no variable. */
  lemma FreshStands(m: State, t: State, pc: nat, from: nat, to: nat, st: Store, base: nat, keep: nat)
    requires OnlyFresh(m, t, pc, from, to) && Stands(m, st, base) && base <= keep <= from
    ensures Stands(t, st, base) && Kept(m, t, base, keep) && t.pc == pc
  {
  }

  /** Setting a temporary changes no variable. */
  lemma SetsStands(m: State, t: State, pc: nat, r: nat, v: Word, st: Store, base: nat, keep: nat)
    requires OnlySets(m, t, pc, r, v) && Stands(m, st, base) && base <= keep <= r && 0 < r
    ensures Stands(t, st, base) && Kept(m, t, base, keep) && t.pc == pc && Get(t.regs, r) == v
  {
  }

  lemma LeavesStands(m: State, t: State, l: LoweredExpr, c: Counters, st: Store, base: nat, keep: nat, v: Word)
    requires Leaves(m, t, l, c, base, v) && Stands(m, st, base) && base <= keep <= c.reg
    ensures Stands(t, st, base) && Kept(m, t, base, keep) && t.pc == m.pc + |l.code| && Get(t.regs, l.reg) == v
  {
  }

  /** A kept temporary. */
  lemma KeptAt(m: State, t: State, base: nat, keep: nat, r: nat)
    requires Kept(m, t, base, keep) && base <= r < keep
    ensures Get(t.regs, r) == Get(m.regs, r)
  {
  }

  /** Setting temporary r by adding an immediate, keeping the variables. */
  lemma AddRuns(g: Region, m: State, dst: nat, src: nat, imm: int, st: Store, base: nat, keep: nat) returns (n: nat, t: State)
    requires 0 < base <= keep <= dst && Placed(g, m.pc, AddCode(dst, src, imm)) && Stands(m, st, base)
    ensures Path(g, m, n, t) && OnlySets(m, t, m.pc + |AddCode(dst, src, imm)|, dst, Wrap(Get(m.regs, src) + imm))
    ensures Stands(t, st, base) && Kept(m, t, base, keep) && t.pc == m.pc + |AddCode(dst, src, imm)|
    ensures Get(t.regs, dst) == Wrap(Get(m.regs, src) + imm)
  {
    hide Path, Placed, AluiCode, Stands, Kept, OnlySets, Get, Wrap;
    n, t := AddPath(g, m, dst, src, imm);
    SetsStands(m, t, m.pc + n, dst, Wrap(Get(m.regs, src) + imm), st, base, keep);
  }

  /** Sending one command, as the source does. */
  lemma SendRuns(g: Region, m: State, e: Asm, ev: Event, st: Store, base: nat, keep: nat) returns (t: State)
    requires Placed(g, m.pc, [e]) && IsIo(e.assembler.cmd) && Emitted(e.assembler, m.regs) == [ev] && Stands(m, st, base)
    ensures Path(g, m, 1, t) && Stands(t, st.(trace := st.trace + [ev]), base) && Kept(m, t, base, keep) && t.pc == m.pc + 1
    ensures t.regs == m.regs
  {
    hide Path, Placed, Emitted, Get;
    CommandPath(g, m, e);
    t := State(m.pc + 1, m.regs, m.trace + Emitted(e.assembler, m.regs));
  }

  /** A value of the machine is the source's value. */
  lemma SameValue(e: Expr, m: State, st: Store, base: nat)
    requires ExprBelow(e, base) && Stands(m, st, base)
    ensures Eval(e, m.regs) == Eval(e, st.regs)
  {
    hide Eval, ExprBelow, AgreeBelow;
    EvalAgrees(e, base, st.regs, m.regs);
  }

  lemma SameOperand(v: Operand, m: State, st: Store, base: nat)
    requires OperandBelow(v, base) && Stands(m, st, base)
    ensures EvalOperand(v, m.regs) == EvalOperand(v, st.regs)
  {
    hide EvalOperand, OperandBelow, AgreeBelow;
    OperandAgrees(v, base, st.regs, m.regs);
  }

  /** Assigning variable x. */
  lemma AssignStands(m: State, t: State, st: Store, x: nat, v: Word, base: nat, from: nat, to: nat, pc: nat, keep: nat)
    requires Brought(m, t, pc, x, v, from, to) && Stands(m, st, base) && 0 < x < base <= keep <= from
    ensures Ends(m, t, pc, st.(regs := Set(st.regs, R(x), v)), base, keep)
  {
  }

  /** Stepping variable x. */
  lemma StepStands(m: State, t: State, st: Store, x: nat, v: Word, base: nat, pc: nat, keep: nat)
    requires OnlySets(m, t, pc, x, v) && Stands(m, st, base) && 0 < x < base
    ensures Ends(m, t, pc, st.(regs := Set(st.regs, R(x), v)), base, keep)
  {
  }

  /** A command reads only variables, so it sends what the source sends. */
  lemma CommandStands(m: State, t: State, st: Store, a: Assembler, base: nat, keep: nat)
    requires Stands(m, st, base) && IsIo(a.cmd) && forall r :: r in Mentions(a) ==> r < base
    requires t == State(m.pc + 1, m.regs, m.trace + Emitted(a, m.regs))
    ensures Ends(m, t, m.pc + 1, st.(trace := st.trace + Emitted(a, st.regs)), base, keep)
  {
    assert Storage(a.regSrc) <= Mentions(a) && Storage(a.regAux) <= Mentions(a);
    CommandValue(a.regSrc, m, st, base);
    CommandValue(a.regAux, m, st, base);
    hide Get;
  }

  lemma CommandValue(reg: Register, m: State, st: Store, base: nat)
    requires Stands(m, st, base) && forall r :: r in Storage(reg) ==> r < base
    ensures Value(m.regs, reg) == Value(st.regs, reg)
  {
    if reg.R? && reg.number > 0 { assert reg.number in Storage(reg); }
  }

  // ----- Tests -----

  /** The code of a loop test and its jump out of the loop. */
  function GuardCode(test: Option<Operand>, exit: Label, ctx: Context, c: Counters): seq<Asm> {
    TestCode(test, ctx, c).code + JumpIfZero(TestCode(test, ctx, c).value, exit, ctx)
  }

  predicate TestBelow(test: Option<Operand>, base: nat) {
    test.Some? ==> OperandBelow(test.value, base)
  }

  /** Past the test when it holds, at the exit when it does not. */
  lemma GuardRuns(test: Option<Operand>, exit: Label, ctx: Context, c: Counters, base: nat, g: Region, m: State)
    returns (n: nat, t: State)
    requires TestBelow(test, base) && 0 < base <= c.reg && Placed(g, m.pc, GuardCode(test, exit, ctx, c))
    ensures Path(g, m, n, t)
    ensures OnlyFresh(m, t, if Holds(test, m.regs) then m.pc + |GuardCode(test, exit, ctx, c)| else Target(g.prog, exit),
                      c.reg, TestCode(test, ctx, c).next.reg)
  {
    hide Path, Placed, Target, ExprCode, Eval, Br, Brz, Get;
    if test == None || (test.value.Constant? && test.value.c != 0) {
      n, t := 0, m;
      PathNone(g, m);
    } else if test.value.Constant? {
      assert GuardCode(test, exit, ctx, c) == [Br(exit, false, ctx.hirzel)];
      JumpPath(g, m, exit, false, ctx.hirzel);
      n, t := 1, m.(pc := Target(g.prog, exit));
    } else {
      n, t := RuntimeGuardRuns(test.value.e, exit, ctx, c, base, g, m);
    }
  }

  lemma RuntimeGuardRuns(e: Expr, exit: Label, ctx: Context, c: Counters, base: nat, g: Region, m: State)
    returns (n: nat, t: State)
    requires ExprBelow(e, base) && 0 < base <= c.reg
    requires Placed(g, m.pc, ExprCode(e, ctx, c).code + [Brz(R(ExprCode(e, ctx, c).reg), exit, false, ctx.hirzel)])
    ensures Path(g, m, n, t)
    ensures OnlyFresh(m, t, if Eval(e, m.regs) != 0 then m.pc + |ExprCode(e, ctx, c).code| + 1 else Target(g.prog, exit),
                      c.reg, ExprCode(e, ctx, c).next.reg)
  {
    hide Path, Placed, Target, ExprCode, Eval, Brz, Get;
    var l := ExprCode(e, ctx, c);
    PlacedParts(g, m.pc, l.code, [Brz(R(l.reg), exit, false, ctx.hirzel)]);
    var n1, t1 := ExprRuns(e, ctx, c, base, g, m);
    BrzPath(g, t1, l.reg, exit, false, ctx.hirzel);
    t := t1.(pc := if Get(t1.regs, l.reg) == 0 then Target(g.prog, exit) else t1.pc + 1);
    PathThen(g, m, n1, t1, 1, t);
    n := n1 + 1;
  }

  /** The code of a do-while test and its jump back. */
  function AgainCode(test: Operand, back: Label, ctx: Context, c: Counters): seq<Asm> {
    OperandCode(test, ctx, c).code + [NodeEntry()] + JumpIfNonZero(OperandCode(test, ctx, c).value, back, ctx)
  }

  lemma AgainRuns(test: Operand, back: Label, ctx: Context, c: Counters, base: nat, g: Region, m: State)
    returns (n: nat, t: State)
    requires OperandBelow(test, base) && 0 < base <= c.reg && Placed(g, m.pc, AgainCode(test, back, ctx, c))
    ensures Path(g, m, n, t)
    ensures OnlyFresh(m, t, if Holds(Some(test), m.regs) then Target(g.prog, back) else m.pc + |AgainCode(test, back, ctx, c)|,
                      c.reg, OperandCode(test, ctx, c).next.reg)
  {
    hide Path, Placed, Target, ExprCode, Eval, Br, Brz, Get, Branch;
    var l := OperandCode(test, ctx, c);
    PlacedParts3(g, m.pc, l.code, [NodeEntry()], JumpIfNonZero(l.value, back, ctx));
    var n1, t1;
    if test.Constant? {
      n1, t1 := 0, m;
      PathNone(g, m);
    } else {
      n1, t1 := ExprRuns(test.e, ctx, c, base, g, m);
    }
    SilentPath(g, t1, NodeEntry());
    var t2 := t1.(pc := t1.pc + 1);
    PathThen(g, m, n1, t1, 1, t2);
    var n3, t3 := BackRuns(l.value, back, ctx, g, t2);
    PathThen(g, m, n1 + 1, t2, n3, t3);
    n, t := n1 + 1 + n3, t3;
  }

  predicate NonZero(v: TestValue, regs: Registers) {
    match v
    case NoValue => false
    case ConstValue(k) => k != 0
    case RegValue(r) => Get(regs, r) != 0
  }

  lemma BackRuns(v: TestValue, back: Label, ctx: Context, g: Region, m: State) returns (n: nat, t: State)
    requires v != NoValue && Placed(g, m.pc, JumpIfNonZero(v, back, ctx))
    ensures Path(g, m, n, t)
    ensures t == m.(pc := if NonZero(v, m.regs) then Target(g.prog, back) else m.pc + |JumpIfNonZero(v, back, ctx)|)
  {
    hide Path, Placed, Target, Br, Branch, Get;
    match v
    case NoValue => assert false;
    case ConstValue(k) =>
      if k != 0 {
        JumpPath(g, m, back, false, ctx.hirzel);
        n, t := 1, m.(pc := Target(g.prog, back));
      } else {
        n, t := 0, m;
        PathNone(g, m);
      }
    case RegValue(r) =>
      BranchPath(g, m, BRNZ, r, back);
      n, t := 1, m.(pc := if Get(m.regs, r) != 0 then Target(g.prog, back) else m.pc + 1);
  }
}
