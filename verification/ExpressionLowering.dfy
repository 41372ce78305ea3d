/** Lowered expressions compute the value of the tree and write fresh registers only. */
module ExpressionLowering {
  import opened Instructions
  import opened Machine
  import opened LiveRanges
  import opened AsmCommands
  import opened SourceLanguage
  import opened Lowering
  import opened Execution

  ghost predicate AgreeBelow(regs: Registers, regs': Registers, base: nat) {
    forall r: nat :: r < base ==> Get(regs, r) == Get(regs', r)
  }

  lemma {:induction false} EvalAgrees(e: Expr, base: nat, regs: Registers, regs': Registers)
    requires ExprBelow(e, base) && AgreeBelow(regs, regs', base)
    ensures Eval(e, regs) == Eval(e, regs')
    decreases e
  {
    hide Wrap, BitNot, Get;
    match e
    case Var(_) =>
    case AddVar(l, r) => EvalAgrees(l, base, regs, regs'); EvalAgrees(r, base, regs, regs');
    case AddConst(l, _) => EvalAgrees(l, base, regs, regs');
    case SubVar(l, r) => EvalAgrees(l, base, regs, regs'); EvalAgrees(r, base, regs, regs');
    case SubConst(l, _) => EvalAgrees(l, base, regs, regs');
    case ConstSub(_, r) => EvalAgrees(r, base, regs, regs');
    case Neg(a) => EvalAgrees(a, base, regs, regs');
    case Inv(a) => EvalAgrees(a, base, regs, regs');
    case Not(a) => EvalAgrees(a, base, regs, regs');
    case Choose(c, a, b) =>
      EvalAgrees(c, base, regs, regs');
      if a.Runtime? { EvalAgrees(a.e, base, regs, regs'); }
      if b.Runtime? { EvalAgrees(b.e, base, regs, regs'); }
  }

  lemma OperandAgrees(v: Operand, base: nat, regs: Registers, regs': Registers)
    requires OperandBelow(v, base) && AgreeBelow(regs, regs', base)
    ensures EvalOperand(v, regs) == EvalOperand(v, regs')
  {
    hide Eval, ExprBelow, AgreeBelow;
    if v.Runtime? { EvalAgrees(v.e, base, regs, regs'); }
  }

  // ----- What changes on the way -----

  /** t is m moved to pc, with only registers in [from, to) changed. */
  ghost predicate OnlyFresh(m: State, t: State, pc: nat, from: nat, to: nat) {
    t.pc == pc && t.trace == m.trace && forall r: nat :: r < from || to <= r ==> Get(t.regs, r) == Get(m.regs, r)
  }

  lemma FreshThen(m: State, t: State, u: State, pc: nat, pc': nat, from: nat, mid: nat, mid': nat, to: nat)
    requires OnlyFresh(m, t, pc, from, mid) && OnlyFresh(t, u, pc', mid', to) && from <= mid' && mid <= to
    ensures OnlyFresh(m, u, pc', from, to)
  {
  }

  lemma FreshSets(m: State, t: State, pc: nat, r: nat, v: Word, from: nat, to: nat)
    requires OnlySets(m, t, pc, r, v) && from <= r < to
    ensures OnlyFresh(m, t, pc, from, to)
  {
  }

  lemma FreshKeeps(m: State, t: State, pc: nat, from: nat, to: nat, base: nat)
    requires OnlyFresh(m, t, pc, from, to) && base <= from
    ensures AgreeBelow(m.regs, t.regs, base)
  {
  }

  /** Where the value of a lowered expression is found. */
  predicate ResultPlace(reg: nat, base: nat, from: nat, to: nat) {
    0 < reg && (reg < base || from <= reg < to)
  }

  /** t is past the code of l, whose result register holds the value. */
  ghost predicate Leaves(m: State, t: State, l: LoweredExpr, c: Counters, base: nat, value: Word) {
    OnlyFresh(m, t, m.pc + |l.code|, c.reg, l.next.reg) &&
    ResultPlace(l.reg, base, c.reg, l.next.reg) && Get(t.regs, l.reg) == value
  }

  /** A value computed from one sub-expression by code that sets the next fresh register. */
  lemma UnaryLeaves(m: State, t1: State, t: State, a: LoweredExpr, l: LoweredExpr, c: Counters, base: nat, x: Word, v: Word)
    requires Leaves(m, t1, a, c, base, x) && 0 < base <= c.reg && NotBefore(c, a.next)
    requires OnlySets(t1, t, m.pc + |l.code|, l.reg, v) && l.reg == a.next.reg && l.next.reg == l.reg + 1
    ensures Leaves(m, t, l, c, base, v)
  {
    FreshSets(t1, t, t.pc, l.reg, v, l.reg, l.next.reg);
    FreshThen(m, t1, t, t1.pc, t.pc, c.reg, a.next.reg, l.reg, l.next.reg);
  }

  /** A value computed from two sub-expressions. */
  lemma BinaryLeaves(m: State, t1: State, t2: State, t: State, a: LoweredExpr, b: LoweredExpr, l: LoweredExpr,
                     c: Counters, base: nat, x: Word, y: Word, v: Word)
    requires Leaves(m, t1, a, c, base, x) && Leaves(t1, t2, b, a.next, base, y) && 0 < base <= c.reg
    requires NotBefore(c, a.next) && NotBefore(a.next, b.next) && l.reg == b.next.reg && l.next.reg == l.reg + 1
    requires OnlySets(t2, t, m.pc + |l.code|, l.reg, v)
    ensures Leaves(m, t, l, c, base, v)
  {
    FreshThen(m, t1, t2, t1.pc, t2.pc, c.reg, a.next.reg, a.next.reg, b.next.reg);
    FreshSets(t2, t, t.pc, l.reg, v, l.reg, l.next.reg);
    FreshThen(m, t2, t, t2.pc, t.pc, c.reg, b.next.reg, l.reg, l.next.reg);
  }

  /** Both operands are still there when the second has been computed. */
  lemma OperandsThere(m: State, t1: State, t2: State, a: LoweredExpr, b: LoweredExpr, c: Counters, base: nat, x: Word, y: Word)
    requires Leaves(m, t1, a, c, base, x) && Leaves(t1, t2, b, a.next, base, y) && 0 < base <= c.reg && NotBefore(c, a.next)
    requires NotBefore(a.next, b.next)
    ensures Get(t2.regs, a.reg) == x && Get(t2.regs, b.reg) == y && 0 < b.reg < b.next.reg
    ensures t2.pc == m.pc + |a.code| + |b.code|
  {
  }

  // ----- Short sequences -----

  lemma WrapThen(x: int, y: int)
    ensures Wrap(Wrap(x) + y) == Wrap(x + y) && Wrap(Wrap(x) - y) == Wrap(x - y)
  {
  }

  lemma AddSubValue(cmd: Command, x: int, y: Word)
    requires cmd in {ADDR, SUBR}
    ensures Alu(cmd, 0, y, Wrap(x), 0, 0) == if cmd.ADDR? then Wrap(x + y) else Wrap(x - y)
  {
    WrapThen(x, y);
  }

  function AddOrSub(cmd: Command, x: int, y: Word): Word {
    if cmd.ADDR? then Wrap(x + y) else Wrap(x - y)
  }

  /** `dst = a op b` by a copy and a register operation. */
  lemma BinaryTail(g: Region, m: State, cmd: Command, dst: nat, a: nat, imm: int, b: nat)
    returns (n: nat, t: State)
    requires cmd in {ADDR, SUBR} && dst > 0 && b != dst
    requires Placed(g, m.pc, AddCode(dst, a, imm)) && Placed(g, m.pc + |AddCode(dst, a, imm)|, [AluRegister(cmd, R(dst), R(b))])
    ensures Path(g, m, n, t)
    ensures OnlySets(m, t, m.pc + |AddCode(dst, a, imm)| + 1, dst, AddOrSub(cmd, Get(m.regs, a) + imm, Get(m.regs, b)))
  {
    hide Path, Placed, AluiCode, Alu, Wrap, Get;
    var n1, t1 := AddPath(g, m, dst, a, imm);
    t := RegisterPath(g, t1, cmd, dst, b);
    PathThen(g, m, n1, t1, 1, t);
    n := n1 + 1;
    var v := Alu(cmd, 0, Get(t1.regs, b), Get(t1.regs, dst), 0, 0);
    assert Get(t1.regs, b) == Get(m.regs, b) && Get(t1.regs, dst) == Wrap(Get(m.regs, a) + imm);
    AddSubValue(cmd, Get(m.regs, a) + imm, Get(m.regs, b));
    SetsAgain(m, t1, t, t1.pc, t.pc, dst, Wrap(Get(m.regs, a) + imm), v);
  }

  /** The pieces of the six entries that compute `!x`. */
  lemma NotLayout(g: Region, pc: nat, dst: nat, src: nat, lbl: nat, ctx: Context)
    requires Placed(g, pc, NotCode(dst, src, lbl, ctx))
    ensures Placed(g, pc, [SetTo(dst, 0)]) && Placed(g, pc + 1, [Brz(R(src), Label("nzero", lbl), false, ctx.hirzel)])
    ensures Placed(g, pc + 2, [Br(Label("end", lbl + 1), false, ctx.hirzel)]) && Placed(g, pc + 3, [AsmLabel(Label("nzero", lbl))])
    ensures Placed(g, pc + 4, [SetTo(dst, 1)]) && Placed(g, pc + 5, [AsmLabel(Label("end", lbl + 1))])
  {
    hide Placed;
    var code := NotCode(dst, src, lbl, ctx);
    assert code == code[..2] + code[2..4] + code[4..];
    PlacedParts3(g, pc, code[..2], code[2..4], code[4..]);
    assert code[..2] == [code[0], code[1]] && code[2..4] == [code[2], code[3]] && code[4..] == [code[4], code[5]];
    PlacedPair(g, pc, code[0], code[1]);
    PlacedPair(g, pc + 2, code[2], code[3]);
    PlacedPair(g, pc + 4, code[4], code[5]);
  }

  /** `!x`: the branch sequence leaves 1 for 0 and 0 for anything else. */
  lemma NotRuns(g: Region, m: State, dst: nat, src: nat, lbl: nat, ctx: Context) returns (n: nat, t: State)
    requires dst > 0 && src != dst && Placed(g, m.pc, NotCode(dst, src, lbl, ctx))
    ensures Path(g, m, n, t)
    ensures OnlySets(m, t, m.pc + 6, dst, if Get(m.regs, src) == 0 then 1 else 0)
  {
    NotLayout(g, m.pc, dst, src, lbl, ctx);
    LabelPlace(g, m.pc + 3, Label("nzero", lbl));
    LabelPlace(g, m.pc + 5, Label("end", lbl + 1));
    hide Path, Placed, Target, NotCode;
    var t1 := SetToPath(g, m, dst, 0);
    BrzPath(g, t1, src, Label("nzero", lbl), false, ctx.hirzel);
    assert Get(t1.regs, src) == Get(m.regs, src);
    hide Get, Br, Brz;
    if Get(m.regs, src) == 0 {
      n, t := NotZeroArm(g, m, t1, dst, lbl);
    } else {
      var t2 := t1.(pc := m.pc + 2);
      PathThen(g, m, 1, t1, 1, t2);
      JumpPath(g, t2, Label("end", lbl + 1), false, ctx.hirzel);
      var t3 := t2.(pc := m.pc + 5);
      PathThen(g, m, 2, t2, 1, t3);
      SilentPath(g, t3, AsmLabel(Label("end", lbl + 1)));
      t := t3.(pc := m.pc + 6);
      PathThen(g, m, 3, t3, 1, t);
      n := 4;
    }
  }

  lemma NotZeroArm(g: Region, m: State, t1: State, dst: nat, lbl: nat) returns (n: nat, t: State)
    requires Path(g, m, 1, t1) && Path(g, t1, 1, t1.(pc := m.pc + 3)) && OnlySets(m, t1, m.pc + 1, dst, 0)
    requires Placed(g, m.pc + 3, [AsmLabel(Label("nzero", lbl))]) && Placed(g, m.pc + 4, [SetTo(dst, 1)])
    requires Placed(g, m.pc + 5, [AsmLabel(Label("end", lbl + 1))])
    ensures Path(g, m, n, t) && OnlySets(m, t, m.pc + 6, dst, 1)
  {
    hide Path, Placed, Get;
    var t2 := t1.(pc := m.pc + 3);
    PathThen(g, m, 1, t1, 1, t2);
    SilentPath(g, t2, AsmLabel(Label("nzero", lbl)));
    var t3 := t2.(pc := m.pc + 4);
    PathThen(g, m, 2, t2, 1, t3);
    var t4 := SetToPath(g, t3, dst, 1);
    PathThen(g, m, 3, t3, 1, t4);
    SilentPath(g, t4, AsmLabel(Label("end", lbl + 1)));
    t := t4.(pc := m.pc + 6);
    PathThen(g, m, 4, t4, 1, t);
    n := 5;
  }

  /** `dst = imm - b`, after loading -1 once more or not. */
  lemma FromConstTail(g: Region, m: State, before: seq<Asm>, dst: nat, imm: int, b: nat) returns (n: nat, t: State)
    requires dst > 0 && b != dst && (before == [] || before == AddCode(dst, 0, -1))
    requires Placed(g, m.pc, before) && Placed(g, m.pc + |before|, AddCode(dst, 0, imm))
    requires Placed(g, m.pc + |before| + |AddCode(dst, 0, imm)|, [Sub(dst, b)])
    ensures Path(g, m, n, t)
    ensures OnlySets(m, t, m.pc + |before| + |AddCode(dst, 0, imm)| + 1, dst, Wrap(imm - Get(m.regs, b)))
  {
    hide Path, Placed, AluiCode, Wrap;
    if before == [] {
      n, t := BinaryTail(g, m, SUBR, dst, 0, imm, b);
    } else {
      var n1, t1 := AddPath(g, m, dst, 0, -1);
      var n2;
      n2, t := BinaryTail(g, t1, SUBR, dst, 0, imm, b);
      PathThen(g, m, n1, t1, n2, t);
      n := n1 + n2;
    }
  }

  lemma MinusOneMinus(x: Word)
    ensures Wrap(-1 - x) == BitNot(x)
  {
  }

  // ----- The main result on expressions -----

  /** By induction over the tree, the emitted code runs to its end, the result register holds
      the tree's 32-bit value, and only fresh registers changed. */
  lemma {:induction false} ExprRuns(e: Expr, ctx: Context, c: Counters, base: nat, g: Region, m: State)
    returns (n: nat, t: State)
    requires ExprBelow(e, base) && 0 < base <= c.reg && Placed(g, m.pc, ExprCode(e, ctx, c).code)
    ensures Path(g, m, n, t) && Leaves(m, t, ExprCode(e, ctx, c), c, base, Eval(e, m.regs))
    decreases e, 1
  {
    hide Path, Placed, AluiCode, NotCode;
    match e
    case Var(_) =>
      n, t := 0, m;
      PathNone(g, m);
    case AddVar(lhs, rhs) =>
      n, t := BinaryRuns(e, lhs, rhs, ADDR, ctx, c, base, g, m);
    case SubVar(lhs, rhs) =>
      n, t := BinaryRuns(e, lhs, rhs, SUBR, ctx, c, base, g, m);
    case AddConst(lhs, imm) =>
      n, t := AddConstRuns(e, lhs, imm, ctx, c, base, g, m);
    case SubConst(lhs, imm) =>
      n, t := AddConstRuns(e, lhs, -imm, ctx, c, base, g, m);
    case ConstSub(imm, rhs) =>
      n, t := FromConstRuns(e, rhs, imm, [], ctx, c, base, g, m);
    case Inv(a) =>
      n, t := FromConstRuns(e, a, -1, AddCode(ExprCode(a, ctx, c).next.reg, 0, -1), ctx, c, base, g, m);
    case Neg(_) =>
      n, t := NegRuns(e, ctx, c, base, g, m);
    case Not(_) =>
      n, t := NotExprRuns(e, ctx, c, base, g, m);
    case Choose(_, _, _) =>
      n, t := ChooseRuns(e, ctx, c, base, g, m);
  }

  lemma {:induction false} NotExprRuns(e: Expr, ctx: Context, c: Counters, base: nat, g: Region, m: State)
    returns (n: nat, t: State)
    requires e.Not? && ExprBelow(e, base) && 0 < base <= c.reg && Placed(g, m.pc, ExprCode(e, ctx, c).code)
    ensures Path(g, m, n, t) && Leaves(m, t, ExprCode(e, ctx, c), c, base, Eval(e, m.regs))
    decreases e, 0
  {
    var l, a := ExprCode(e, ctx, c), ExprCode(e.e, ctx, c);
    hide Path, Placed, Get, Br, Brz;
    PlacedParts(g, m.pc, a.code, NotCode(l.reg, a.reg, a.next.lbl, ctx));
    var n1, t1 := ExprRuns(e.e, ctx, c, base, g, m);
    var n2;
    n2, t := NotRuns(g, t1, l.reg, a.reg, a.next.lbl, ctx);
    PathThen(g, m, n1, t1, n2, t);
    n := n1 + n2;
    UnaryLeaves(m, t1, t, a, l, c, base, Eval(e.e, m.regs), Eval(e, m.regs));
  }

  lemma BinaryShape(e: Expr, lhs: Expr, rhs: Expr, cmd: Command, ctx: Context, c: Counters, base: nat, regs: Registers)
    requires (e == AddVar(lhs, rhs) && cmd.ADDR?) || (e == SubVar(lhs, rhs) && cmd.SUBR?)
    ensures var l := ExprCode(e, ctx, c); var a := ExprCode(lhs, ctx, c); var b := ExprCode(rhs, ctx, a.next);
      l.code == a.code + b.code + AddCode(l.reg, a.reg, 0) + [AluRegister(cmd, R(l.reg), R(b.reg))] &&
      l.reg == b.next.reg && l.next.reg == l.reg + 1 && NotBefore(c, a.next) && NotBefore(a.next, b.next) &&
      c.reg <= a.next.reg <= b.next.reg
    ensures ExprBelow(e, base) ==> ExprBelow(lhs, base) && ExprBelow(rhs, base)
    ensures Eval(e, regs) == AddOrSub(cmd, Eval(lhs, regs) + 0, Eval(rhs, regs))
  {
    hide Wrap, AluiCode, Get;
  }

  /** Var + Var and Var - Var. */
  lemma {:induction false} BinaryRuns(e: Expr, lhs: Expr, rhs: Expr, cmd: Command, ctx: Context, c: Counters, base: nat,
                                      g: Region, m: State)
    returns (n: nat, t: State)
    requires (e == AddVar(lhs, rhs) && cmd.ADDR?) || (e == SubVar(lhs, rhs) && cmd.SUBR?)
    requires ExprBelow(e, base) && 0 < base <= c.reg && Placed(g, m.pc, ExprCode(e, ctx, c).code)
    ensures Path(g, m, n, t) && Leaves(m, t, ExprCode(e, ctx, c), c, base, Eval(e, m.regs))
    decreases e, 0
  {
    hide *;
    var l := ExprCode(e, ctx, c);
    var a := ExprCode(lhs, ctx, c);
    var b := ExprCode(rhs, ctx, a.next);
    BinaryShape(e, lhs, rhs, cmd, ctx, c, base, m.regs);
    PlacedParts4(g, m.pc, a.code, b.code, AddCode(l.reg, a.reg, 0), [AluRegister(cmd, R(l.reg), R(b.reg))]);
    var n1, t1 := ExprRuns(lhs, ctx, c, base, g, m);
    LeavesKeeps(m, t1, a, c, base, Eval(lhs, m.regs));
    var n2, t2 := ExprRuns(rhs, ctx, a.next, base, g, t1);
    EvalAgrees(rhs, base, m.regs, t1.regs);
    PathThen(g, m, n1, t1, n2, t2);
    OperandsThere(m, t1, t2, a, b, c, base, Eval(lhs, m.regs), Eval(rhs, m.regs));
    var n3;
    n3, t := BinaryTail(g, t2, cmd, l.reg, a.reg, 0, b.reg);
    PathThen(g, m, n1 + n2, t2, n3, t);
    n := n1 + n2 + n3;
    assert t2.pc + |AddCode(l.reg, a.reg, 0)| + 1 == m.pc + |l.code|;
    BinaryLeaves(m, t1, t2, t, a, b, l, c, base, Eval(lhs, m.regs), Eval(rhs, m.regs), Eval(e, m.regs));
  }

  lemma LeavesKeeps(m: State, t: State, l: LoweredExpr, c: Counters, base: nat, v: Word)
    requires Leaves(m, t, l, c, base, v) && base <= c.reg
    ensures AgreeBelow(m.regs, t.regs, base) && t.pc == m.pc + |l.code| && t.trace == m.trace
  {
  }

  /** Var + Const, Const + Var and Var - Const. */
  lemma {:induction false} AddConstRuns(e: Expr, lhs: Expr, imm: int, ctx: Context, c: Counters, base: nat,
                                        g: Region, m: State)
    returns (n: nat, t: State)
    requires e == AddConst(lhs, imm) || e == SubConst(lhs, -imm)
    requires ExprBelow(e, base) && 0 < base <= c.reg && Placed(g, m.pc, ExprCode(e, ctx, c).code)
    ensures Path(g, m, n, t) && Leaves(m, t, ExprCode(e, ctx, c), c, base, Eval(e, m.regs))
    decreases e, 0
  {
    hide Path, Placed, AluiCode, Wrap, Get;
    var l, a := ExprCode(e, ctx, c), ExprCode(lhs, ctx, c);
    PlacedParts(g, m.pc, a.code, AddCode(l.reg, a.reg, imm));
    var n1, t1 := ExprRuns(lhs, ctx, c, base, g, m);
    var n2;
    n2, t := AddPath(g, t1, l.reg, a.reg, imm);
    PathThen(g, m, n1, t1, n2, t);
    n := n1 + n2;
    UnaryLeaves(m, t1, t, a, l, c, base, Eval(lhs, m.regs), Eval(e, m.regs));
  }

  /** Const - Var and bitwise inversion, which loads -1 once more beforehand. */
  lemma {:induction false} FromConstRuns(e: Expr, sub: Expr, imm: int, before: seq<Asm>, ctx: Context, c: Counters, base: nat,
                                         g: Region, m: State)
    returns (n: nat, t: State)
    requires (e == ConstSub(imm, sub) && before == []) ||
             (e == Inv(sub) && imm == -1 && before == AddCode(ExprCode(sub, ctx, c).next.reg, 0, -1))
    requires ExprBelow(e, base) && 0 < base <= c.reg && Placed(g, m.pc, ExprCode(e, ctx, c).code)
    ensures Path(g, m, n, t) && Leaves(m, t, ExprCode(e, ctx, c), c, base, Eval(e, m.regs))
    decreases e, 0
  {
    hide Path, Placed, AluiCode, Wrap, BitNot, Get;
    var l, a := ExprCode(e, ctx, c), ExprCode(sub, ctx, c);
    var load := AddCode(l.reg, 0, imm);
    assert l.code == a.code + before + load + [Sub(l.reg, a.reg)];
    PlacedParts4(g, m.pc, a.code, before, load, [Sub(l.reg, a.reg)]);
    var n1, t1 := ExprRuns(sub, ctx, c, base, g, m);
    var n2;
    n2, t := FromConstTail(g, t1, before, l.reg, imm, a.reg);
    MinusOneMinus(Eval(sub, m.regs));
    PathThen(g, m, n1, t1, n2, t);
    n := n1 + n2;
    UnaryLeaves(m, t1, t, a, l, c, base, Eval(sub, m.regs), Eval(e, m.regs));
  }

  lemma {:induction false} NegRuns(e: Expr, ctx: Context, c: Counters, base: nat, g: Region, m: State)
    returns (n: nat, t: State)
    requires e.Neg? && ExprBelow(e, base) && 0 < base <= c.reg && Placed(g, m.pc, ExprCode(e, ctx, c).code)
    ensures Path(g, m, n, t) && Leaves(m, t, ExprCode(e, ctx, c), c, base, Eval(e, m.regs))
    decreases e, 0
  {
    hide Path, Placed, Get, Wrap, AluImmediate, AluRegister;
    var l, a := ExprCode(e, ctx, c), ExprCode(e.e, ctx, c);
    PlacedParts3(g, m.pc, a.code, [SetTo(l.reg, 0)], [Sub(l.reg, a.reg)]);
    var n1, t1 := ExprRuns(e.e, ctx, c, base, g, m);
    var n2;
    n2, t := NegTail(g, t1, l.reg, a.reg);
    PathThen(g, m, n1, t1, n2, t);
    n := n1 + n2;
    UnaryLeaves(m, t1, t, a, l, c, base, Eval(e.e, m.regs), Eval(e, m.regs));
  }

  lemma NegTail(g: Region, m: State, dst: nat, src: nat) returns (n: nat, t: State)
    requires dst > 0 && src != dst && Placed(g, m.pc, [SetTo(dst, 0)]) && Placed(g, m.pc + 1, [Sub(dst, src)])
    ensures Path(g, m, n, t) && OnlySets(m, t, m.pc + 2, dst, Wrap(0 - Get(m.regs, src)))
  {
    hide Path, Placed, Get, Wrap;
    var t1 := SetToPath(g, m, dst, 0);
    t := RegisterPath(g, t1, SUBR, dst, src);
    PathThen(g, m, 1, t1, 1, t);
    AddSubValue(SUBR, 0, Get(m.regs, src));
    SetsAgain(m, t1, t, t1.pc, t.pc, dst, Wrap(0), Wrap(0 - Get(m.regs, src)));
    n := 2;
  }

  // ----- The conditional expression -----

  /** Register dst holds v; besides it only registers in [from, to) changed. */
  ghost predicate Brought(m: State, t: State, pc: nat, dst: nat, v: Word, from: nat, to: nat) {
    t.pc == pc && t.trace == m.trace && Get(t.regs, dst) == v &&
    forall r: nat :: r != dst && (r < from || to <= r) ==> Get(t.regs, r) == Get(m.regs, r)
  }

  /** An operand computed and brought into register dst. */
  function BroughtCode(v: Operand, dst: nat, ctx: Context, c: Counters): seq<Asm> {
    OperandCode(v, ctx, c).code + CopyCode(dst, OperandCode(v, ctx, c).value)
  }

  lemma {:induction false} OperandRuns(v: Operand, dst: nat, ctx: Context, c: Counters, base: nat, g: Region, m: State)
    returns (n: nat, t: State)
    requires OperandBelow(v, base) && 0 < base <= c.reg && dst > 0 && Placed(g, m.pc, BroughtCode(v, dst, ctx, c))
    ensures Path(g, m, n, t)
    ensures Brought(m, t, m.pc + |BroughtCode(v, dst, ctx, c)|, dst, EvalOperand(v, m.regs), c.reg, OperandCode(v, ctx, c).next.reg)
    decreases v, 2
  {
    hide Path, Placed, AluiCode, Wrap, Get;
    match v
    case Constant(k) =>
      assert BroughtCode(v, dst, ctx, c) == AddCode(dst, 0, k);
      n, t := AddPath(g, m, dst, 0, k);
      assert Get(m.regs, 0) == 0 by { ZeroReads(m.regs); }
    case Runtime(e) =>
      var l := ExprCode(e, ctx, c);
      PlacedParts(g, m.pc, l.code, AddCode(dst, l.reg, 0));
      var n1, t1 := ExprRuns(e, ctx, c, base, g, m);
      var n2;
      n2, t := AddPath(g, t1, dst, l.reg, 0);
      PathThen(g, m, n1, t1, n2, t);
      WrapWord(Eval(e, m.regs));
      n := n1 + n2;
  }

  lemma ZeroReads(regs: Registers)
    ensures Get(regs, 0) == 0
  {
  }

  lemma WrapWord(x: Word)
    ensures Wrap(x) == x && Wrap(x + 0) == x
  {
  }

  /** Past the node entry and the test, where the condition says. */
  lemma {:induction false} TestRuns(e: Expr, l: Label, ctx: Context, c: Counters, base: nat, g: Region, m: State)
    returns (n: nat, t: State)
    requires ExprBelow(e, base) && 0 < base <= c.reg && Placed(g, m.pc, ExprCode(e, ctx, c).code)
    requires Placed(g, m.pc + |ExprCode(e, ctx, c).code|, [NodeEntry()])
    requires Placed(g, m.pc + |ExprCode(e, ctx, c).code| + 1, [Brz(R(ExprCode(e, ctx, c).reg), l, false, ctx.hirzel)])
    ensures Path(g, m, n, t)
    ensures OnlyFresh(m, t, if Eval(e, m.regs) == 0 then Target(g.prog, l) else m.pc + |ExprCode(e, ctx, c).code| + 2,
                      c.reg, ExprCode(e, ctx, c).next.reg)
    decreases e, 2
  {
    hide Path, Placed, Target, ExprCode, Eval, Brz;
    var n1, t1 := ExprRuns(e, ctx, c, base, g, m);
    SilentPath(g, t1, NodeEntry());
    var t2 := t1.(pc := t1.pc + 1);
    PathThen(g, m, n1, t1, 1, t2);
    BrzPath(g, t2, ExprCode(e, ctx, c).reg, l, false, ctx.hirzel);
    t := t2.(pc := if Eval(e, m.regs) == 0 then Target(g.prog, l) else t2.pc + 1);
    PathThen(g, m, n1 + 1, t2, 1, t);
    n := n1 + 2;
  }

  /** One arm up to the end label, reached by falling off the arm or by a jump. */
  lemma {:induction false} ArmRuns(v: Operand, dst: nat, ctx: Context, c: Counters, base: nat, leave: Asm, endLabel: Label,
                                   end: nat, g: Region, m: State)
    returns (n: nat, t: State)
    requires OperandBelow(v, base) && 0 < base <= c.reg && dst > 0 && Placed(g, m.pc, BroughtCode(v, dst, ctx, c))
    requires Placed(g, m.pc + |BroughtCode(v, dst, ctx, c)|, [leave]) && Placed(g, end, [AsmLabel(endLabel)])
    requires leave == Br(endLabel, false, ctx.hirzel) || (leave == AsmLabel(endLabel) && end == m.pc + |BroughtCode(v, dst, ctx, c)|)
    ensures Path(g, m, n, t)
    ensures Brought(m, t, end + 1, dst, EvalOperand(v, m.regs), c.reg, OperandCode(v, ctx, c).next.reg)
    decreases v, 3
  {
    hide Path, Placed, Target, BroughtCode, OperandCode, EvalOperand, Get;
    var n1, t1 := OperandRuns(v, dst, ctx, c, base, g, m);
    LabelPlace(g, end, endLabel);
    if leave == AsmLabel(endLabel) {
      n, t := n1, t1;
    } else {
      JumpPath(g, t1, endLabel, false, ctx.hirzel);
      t := t1.(pc := end);
      PathThen(g, m, n1, t1, 1, t);
      n := n1 + 1;
    }
    SilentPath(g, t, AsmLabel(endLabel));
    PathThen(g, m, n, t, 1, t.(pc := end + 1));
    n, t := n + 1, t.(pc := end + 1);
  }

  /** The pieces of a conditional expression. */
  lemma ChooseShape(e: Expr, ctx: Context, c: Counters, base: nat, regs: Registers)
    requires e.Choose?
    ensures var l, tc := ExprCode(e, ctx, c), ExprCode(e.cond, ctx, c);
      var c1 := NextLabels(tc.next, 2); var c2 := OperandCode(e.thn, ctx, c1).next; var c3 := OperandCode(e.els, ctx, c2).next;
      var elseLabel, endLabel := Label("else", tc.next.lbl), Label("end", tc.next.lbl + 1);
      l.code == tc.code + [NodeEntry(), Brz(R(tc.reg), elseLabel, false, ctx.hirzel)] + BroughtCode(e.thn, l.reg, ctx, c1) +
                [Br(endLabel, false, ctx.hirzel), AsmLabel(elseLabel)] + BroughtCode(e.els, l.reg, ctx, c2) + [AsmLabel(endLabel)] &&
      l.reg == c3.reg && l.next.reg == l.reg + 1 && c.reg <= tc.next.reg == c1.reg <= c2.reg <= c3.reg
    ensures ExprBelow(e, base) ==> ExprBelow(e.cond, base) && OperandBelow(e.thn, base) && OperandBelow(e.els, base)
    ensures Eval(e, regs) == if Eval(e.cond, regs) != 0 then EvalOperand(e.thn, regs) else EvalOperand(e.els, regs)
  {
    hide AluiCode, CopyCode, Br, Brz, Get, Wrap;
  }

  /** From the test to past the end label. */
  lemma ChooseLeaves(m: State, t1: State, t2: State, t: State, l: LoweredExpr, tc: LoweredExpr, c: Counters, base: nat,
                     pc: nat, end: nat, from: nat, to: nat, v: Word)
    requires OnlyFresh(m, t1, pc, c.reg, tc.next.reg) && (t2 == t1 || t2 == t1.(pc := t1.pc + 1))
    requires Brought(t2, t, end, l.reg, v, from, to) && tc.next.reg <= from <= to <= l.reg && 0 < base <= c.reg <= tc.next.reg
    requires l.next.reg == l.reg + 1 && end == m.pc + |l.code|
    ensures Leaves(m, t, l, c, base, v)
  {
  }

  /** The conditional expression. */
  lemma {:induction false} ChooseRuns(e: Expr, ctx: Context, c: Counters, base: nat, g: Region, m: State)
    returns (n: nat, t: State)
    requires e.Choose? && ExprBelow(e, base) && 0 < base <= c.reg && Placed(g, m.pc, ExprCode(e, ctx, c).code)
    ensures Path(g, m, n, t) && Leaves(m, t, ExprCode(e, ctx, c), c, base, Eval(e, m.regs))
    decreases e, 0
  {
    hide *;
    var l := ExprCode(e, ctx, c);
    var tc := ExprCode(e.cond, ctx, c);
    var elseLabel, endLabel := Label("else", tc.next.lbl), Label("end", tc.next.lbl + 1);
    var c1 := NextLabels(tc.next, 2);
    var c2 := OperandCode(e.thn, ctx, c1).next;
    var ac, bc := BroughtCode(e.thn, l.reg, ctx, c1), BroughtCode(e.els, l.reg, ctx, c2);
    var brz, br := Brz(R(tc.reg), elseLabel, false, ctx.hirzel), Br(endLabel, false, ctx.hirzel);
    ChooseShape(e, ctx, c, base, m.regs);
    ChooseLayout(g, m.pc, tc.code, NodeEntry(), brz, ac, br, AsmLabel(elseLabel), bc, AsmLabel(endLabel));
    var kA := m.pc + |tc.code| + 2;
    var kB := kA + |ac| + 2;
    var end := kB + |bc|;
    LabelPlace(g, kB - 1, elseLabel);
    var n1, t1 := TestRuns(e.cond, elseLabel, ctx, c, base, g, m);
    var pc1 := if Eval(e.cond, m.regs) == 0 then kB - 1 else kA;
    FreshAt(m, t1, pc1, c.reg, tc.next.reg);
    FreshKeeps(m, t1, pc1, c.reg, tc.next.reg, base);
    var n2, t2;
    if Eval(e.cond, m.regs) != 0 {
      t2 := t1;
      n2, t := ArmRuns(e.thn, l.reg, ctx, c1, base, br, endLabel, end, g, t1);
      OperandAgrees(e.thn, base, m.regs, t1.regs);
      PathThen(g, m, n1, t1, n2, t);
      n := n1 + n2;
      ChooseLeaves(m, t1, t1, t, l, tc, c, base, pc1, end + 1, c1.reg, c2.reg, Eval(e, m.regs));
    } else {
      LabelPath(g, t1, elseLabel);
      t2 := t1.(pc := kB);
      PathThen(g, m, n1, t1, 1, t2);
      n2, t := ArmRuns(e.els, l.reg, ctx, c2, base, AsmLabel(endLabel), endLabel, end, g, t2);
      OperandAgrees(e.els, base, m.regs, t1.regs);
      PathThen(g, m, n1 + 1, t2, n2, t);
      n := n1 + 1 + n2;
      ChooseLeaves(m, t1, t2, t, l, tc, c, base, pc1, end + 1, c2.reg, OperandCode(e.els, ctx, c2).next.reg, Eval(e, m.regs));
    }
  }

  lemma FreshAt(m: State, t: State, pc: nat, from: nat, to: nat)
    requires OnlyFresh(m, t, pc, from, to)
    ensures t.pc == pc && t.trace == m.trace
  {
  }

  lemma ChooseLayout(g: Region, k: nat, t: seq<Asm>, node: Asm, test: Asm, a: seq<Asm>, br: Asm, els: Asm, b: seq<Asm>, last: Asm)
    requires Placed(g, k, t + [node, test] + a + [br, els] + b + [last])
    ensures Placed(g, k, t) && Placed(g, k + |t|, [node]) && Placed(g, k + |t| + 1, [test])
    ensures Placed(g, k + |t| + 2, a) && Placed(g, k + |t| + 2 + |a|, [br]) && Placed(g, k + |t| + |a| + 3, [els])
    ensures Placed(g, k + |t| + |a| + 4, b) && Placed(g, k + |t| + |a| + 4 + |b|, [last])
  {
    hide Placed;
    PlacedParts3(g, k, t + [node, test] + a + [br, els], b, [last]);
    PlacedParts4(g, k, t, [node, test], a, [br, els]);
    PlacedPair(g, k + |t|, node, test);
    PlacedPair(g, k + |t| + 2 + |a|, br, els);
  }
}
