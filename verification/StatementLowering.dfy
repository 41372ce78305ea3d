/** The code of a statement does what the statement does. */
module StatementLowering {
  import opened Instructions
  import opened Machine
  import opened AsmCommands
  import opened SourceLanguage
  import opened Lowering
  import opened Execution
  import opened ExpressionLowering
  import opened Outcomes

  /** Main induction: whatever the nesting, n steps of the emitted code end at its end with the
      statement's effect on variables and commands, or show the commands of all the rounds the
      fuel allows. Temporaries from base up to c.reg are left alone. */
  lemma {:induction false} StmtRuns(s: Stmt, ctx: Context, c: Counters, base: nat, g: Region, m: State, st: Store, fuel: nat)
    returns (n: nat)
    requires Lowerable(s, base) && 0 < base <= c.reg && Placed(g, m.pc, StmtCode(s, ctx, c).code) && Stands(m, st, base)
    ensures Shows(g, m, n, m.pc + |StmtCode(s, ctx, c).code|, Exec(s, ctx, st, fuel), fuel, base, c.reg)
    decreases fuel, s, 2, 0
  {
    hide *;
    match s
    case Block(stmts) =>
      BlockShape(s, ctx, c, base, st, fuel);
      n := BlockRuns(stmts, ctx, c, base, g, m, st, fuel);
    case Assign(_, _) => n := AssignRuns(s, ctx, c, base, g, m, st, fuel);
    case PreStep(_, _) => n := StepRuns(s, ctx, c, base, g, m, st, fuel);
    case PostStep(_, _) => n := StepRuns(s, ctx, c, base, g, m, st, fuel);
    case Command(_) => n := CommandRuns(s, ctx, c, base, g, m, st, fuel);
    case If(_, _) => n := IfRuns(s, ctx, c, base, g, m, st, fuel);
    case IfElse(_, _, _) => n := IfElseRuns(s, ctx, c, base, g, m, st, fuel);
    case While(_, _) => n := WhileRuns(s, ctx, c, base, g, m, st, fuel);
    case For(_, _, _, _) => n := ForRuns(s, ctx, c, base, g, m, st, fuel);
    case DoWhile(_, _) => n := DoWhileRuns(s, ctx, c, base, g, m, st, fuel);
    case RepeatVar(_, _) => n := RepeatVarRuns(s, ctx, c, base, g, m, st, fuel);
    case RepeatConst(_, _) => n := RepeatConstRuns(s, ctx, c, base, g, m, st, fuel);
    case Switch(_, _, _) => n := SwitchRuns(s, ctx, c, base, g, m, st, fuel);
  }

  // ----- Straight-line statements -----

  lemma AssignRuns(s: Stmt, ctx: Context, c: Counters, base: nat, g: Region, m: State, st: Store, fuel: nat) returns (n: nat)
    requires s.Assign? && Lowerable(s, base) && 0 < base <= c.reg && Placed(g, m.pc, StmtCode(s, ctx, c).code) && Stands(m, st, base)
    ensures Shows(g, m, n, m.pc + |StmtCode(s, ctx, c).code|, Exec(s, ctx, st, fuel), fuel, base, c.reg)
  {
    hide Path, Placed, Shows, Stands, Ends, OperandCode, CopyCode, NodeEntry, EvalOperand, OperandBelow, Inside, Run;
    var code := BroughtCode(s.v, s.x, ctx, c);
    PlacedParts(g, m.pc, code, [NodeEntry()]);
    var n1, t1 := OperandRuns(s.v, s.x, ctx, c, base, g, m);
    hide BroughtCode;
    SameOperand(s.v, m, st, base);
    NodePath(g, t1);
    var t := t1.(pc := t1.pc + 1);
    PathThen(g, m, n1, t1, 1, t);
    AssignStands(m, t, st, s.x, EvalOperand(s.v, st.regs), base, c.reg, OperandCode(s.v, ctx, c).next.reg, t.pc, c.reg);
    ShowsDone(g, m, n1 + 1, t, t.pc, st.(regs := Set(st.regs, R(s.x), EvalOperand(s.v, st.regs))), fuel, base, c.reg);
    n := n1 + 1;
  }

  lemma StepRuns(s: Stmt, ctx: Context, c: Counters, base: nat, g: Region, m: State, st: Store, fuel: nat) returns (n: nat)
    requires (s.PreStep? || s.PostStep?) && Lowerable(s, base) && 0 < base <= c.reg
    requires Placed(g, m.pc, StmtCode(s, ctx, c).code) && Stands(m, st, base)
    ensures Shows(g, m, n, m.pc + |StmtCode(s, ctx, c).code|, Exec(s, ctx, st, fuel), fuel, base, c.reg)
    ensures s.PostStep? ==> Get(Run(g.prog, g.input, m, n).regs, c.reg) == Get(st.regs, s.x)
  {
    hide Path, Placed, Shows, AluiCode, Inside, Run, Get, Wrap;
    var v := Wrap(Get(st.regs, s.x) + s.delta);
    var n1, t1 := 0, m;
    if s.PostStep? {
      PlacedParts(g, m.pc, AddCode(c.reg, s.x, 0), AddCode(s.x, s.x, s.delta));
      n1, t1 := AddPath(g, m, c.reg, s.x, 0);
    } else {
      PathNone(g, m);
    }
    var n2, t := AddPath(g, t1, s.x, s.x, s.delta);
    PathThen(g, m, n1, t1, n2, t);
    StepStands(t1, t, st, s.x, v, base, t.pc, c.reg);
    n := n1 + n2;
    assert Ends(m, t, t.pc, st.(regs := Set(st.regs, R(s.x), v)), base, c.reg);
    ShowsDone(g, m, n, t, t.pc, st.(regs := Set(st.regs, R(s.x), v)), fuel, base, c.reg);
    if s.PostStep? {
      assert Run(g.prog, g.input, m, n) == t by { PathIsRun(g, m, n, t); }
      assert Get(t.regs, c.reg) == Wrap(Get(m.regs, s.x) + 0);
      WrapOfWord(Get(m.regs, s.x));
    }
  }

  lemma PathIsRun(g: Region, m: State, n: nat, t: State)
    requires Path(g, m, n, t)
    ensures Run(g.prog, g.input, m, n) == t
  {
    hide Run;
  }

  lemma WrapOfWord(w: Word)
    ensures Wrap(w + 0) == w
  {
  }

  lemma CommandRuns(s: Stmt, ctx: Context, c: Counters, base: nat, g: Region, m: State, st: Store, fuel: nat) returns (n: nat)
    requires s.Command? && Lowerable(s, base) && 0 < base <= c.reg && Placed(g, m.pc, StmtCode(s, ctx, c).code) && Stands(m, st, base)
    ensures Shows(g, m, n, m.pc + |StmtCode(s, ctx, c).code|, Exec(s, ctx, st, fuel), fuel, base, c.reg)
  {
    hide Path, Placed, Shows, Stands, Ends, Inside, Run, Emitted, Get;
    CommandPath(g, m, Asm(s.a, false));
    n := 1;
    var t := State(m.pc + 1, m.regs, m.trace + Emitted(s.a, m.regs));
    CommandStands(m, t, st, s.a, base, c.reg);
    ShowsDone(g, m, 1, t, t.pc, st.(trace := st.trace + Emitted(s.a, st.regs)), fuel, base, c.reg);
  }

  lemma BlockShape(s: Stmt, ctx: Context, c: Counters, base: nat, st: Store, fuel: nat)
    requires s.Block?
    ensures StmtCode(s, ctx, c) == BlockCode(s.stmts, ctx, c) && Exec(s, ctx, st, fuel) == ExecBlock(s.stmts, ctx, st, fuel)
    ensures Lowerable(s, base) ==> AllLowerable(s.stmts, base)
  {
    hide Stands;
  }

  ghost predicate AllLowerable(stmts: seq<Stmt>, base: nat) {
    forall i :: 0 <= i < |stmts| ==> Lowerable(stmts[i], base)
  }

  lemma BlockStep(stmts: seq<Stmt>, ctx: Context, c: Counters, base: nat, st: Store, fuel: nat)
    requires stmts != []
    ensures var a := StmtCode(stmts[0], ctx, c); var b := BlockCode(stmts[1..], ctx, a.next);
      BlockCode(stmts, ctx, c) == Lowered(a.code + b.code, b.next) && c.reg <= a.next.reg
    ensures AllLowerable(stmts, base) ==> Lowerable(stmts[0], base) && AllLowerable(stmts[1..], base)
    ensures var o := Exec(stmts[0], ctx, st, fuel);
      ExecBlock(stmts, ctx, st, fuel) == if o.Done? then ExecBlock(stmts[1..], ctx, o.store, fuel) else o
  {
    hide StmtCode, Exec, Lowerable;
  }

  lemma BlockEnd(ctx: Context, c: Counters, st: Store, fuel: nat)
    ensures BlockCode([], ctx, c) == Lowered([], c) && ExecBlock([], ctx, st, fuel) == Done(st)
  {
  }

  lemma {:induction false} BlockRuns(stmts: seq<Stmt>, ctx: Context, c: Counters, base: nat, g: Region, m: State, st: Store, fuel: nat)
    returns (n: nat)
    requires AllLowerable(stmts, base) && 0 < base <= c.reg && Placed(g, m.pc, BlockCode(stmts, ctx, c).code) && Stands(m, st, base)
    ensures Shows(g, m, n, m.pc + |BlockCode(stmts, ctx, c).code|, ExecBlock(stmts, ctx, st, fuel), fuel, base, c.reg)
    decreases fuel, stmts, 0, 0
  {
    hide *;
    var end := m.pc + |BlockCode(stmts, ctx, c).code|;
    if stmts == [] {
      BlockEnd(ctx, c, st, fuel);
      n := 0;
      StayedShows(g, m, st, fuel, base, c.reg);
    } else {
      BlockStep(stmts, ctx, c, base, st, fuel);
      var a := StmtCode(stmts[0], ctx, c);
      PlacedParts(g, m.pc, a.code, BlockCode(stmts[1..], ctx, a.next).code);
      var n1 := StmtRuns(stmts[0], ctx, c, base, g, m, st, fuel);
      var o := Exec(stmts[0], ctx, st, fuel);
      if o.Done? {
        var t := Finished(g, m, n1, m.pc + |a.code|, o.store, fuel, base, c.reg);
        var n2 := BlockRuns(stmts[1..], ctx, a.next, base, g, t, o.store, fuel);
        n := n1 + n2;
        ShowsAfter(g, m, n1, t, n2, end, ExecBlock(stmts, ctx, st, fuel), fuel, fuel, base, c.reg, a.next.reg);
      } else {
        n := n1;
        Stuck(g, m, n1, m.pc + |a.code|, end, o, fuel, base, c.reg, c.reg);
      }
    }
  }

  lemma StayedShows(g: Region, m: State, st: Store, fuel: nat, base: nat, keep: nat)
    requires Stands(m, st, base)
    ensures Shows(g, m, 0, m.pc, Done(st), fuel, base, keep)
  {
  }

  // ----- Conditionals -----

  lemma IfShape(s: Stmt, ctx: Context, c: Counters, base: nat, st: Store, fuel: nat)
    requires s.If?
    ensures var c1 := NextLabels(c, 1); var t := ExprCode(s.cond, ctx, c1); var c2 := NextLabels(t.next, 1);
      StmtCode(s, ctx, c).code ==
        t.code + [NodeEntry(), Brz(R(t.reg), Label("end", c.lbl), false, ctx.hirzel), AsmLabel(Label("if", t.next.lbl))] +
        StmtCode(s.body, ctx, c2).code + [AsmLabel(Label("end", c.lbl))] && c.reg == c1.reg <= t.next.reg == c2.reg &&
      StmtCode(s, ctx, c).next == StmtCode(s.body, ctx, c2).next
    ensures Lowerable(s, base) ==> ExprBelow(s.cond, base) && Lowerable(s.body, base)
    ensures Exec(s, ctx, st, fuel) == if Eval(s.cond, st.regs) != 0 then Exec(s.body, ctx, st, fuel) else Done(st)
  {
    hide ExprCode, Brz, Eval, ExprBelow, NodeEntry, AsmLabel;
  }

  lemma {:induction false} IfRuns(s: Stmt, ctx: Context, c: Counters, base: nat, g: Region, m: State, st: Store, fuel: nat)
    returns (n: nat)
    requires s.If? && Lowerable(s, base) && 0 < base <= c.reg && Placed(g, m.pc, StmtCode(s, ctx, c).code) && Stands(m, st, base)
    ensures Shows(g, m, n, m.pc + |StmtCode(s, ctx, c).code|, Exec(s, ctx, st, fuel), fuel, base, c.reg)
    decreases fuel, s, 1, 0
  {
    hide *;
    var c1 := NextLabels(c, 1);
    var t := ExprCode(s.cond, ctx, c1);
    var c2 := NextLabels(t.next, 1);
    var ifLabel, endLabel := Label("if", t.next.lbl), Label("end", c.lbl);
    var brz := Brz(R(t.reg), endLabel, false, ctx.hirzel);
    var code := StmtCode(s.body, ctx, c2).code;
    IfShape(s, ctx, c, base, st, fuel);
    PlacedParts4(g, m.pc, t.code, [NodeEntry(), brz, AsmLabel(ifLabel)], code, [AsmLabel(endLabel)]);
    PlacedTriple(g, m.pc + |t.code|, NodeEntry(), brz, AsmLabel(ifLabel));
    var k := m.pc + |t.code| + 3;
    LabelPlace(g, k + |code|, endLabel);
    var n1, t1 := TestRuns(s.cond, endLabel, ctx, c1, base, g, m);
    SameValue(s.cond, m, st, base);
    var pc1 := if Eval(s.cond, m.regs) == 0 then k + |code| else k - 1;
    FreshStands(m, t1, pc1, c1.reg, t.next.reg, st, base, c.reg);
    if Eval(s.cond, m.regs) == 0 {
      LeaveAtLabel(g, m, n1, t1, endLabel, st, fuel, base, c.reg);
      n := n1 + 1;
    } else {
      var n2, t2 := PassLabel(g, m, n1, t1, ifLabel, st, base, c.reg);
      var n3 := StmtRuns(s.body, ctx, c2, base, g, t2, st, fuel);
      n3 := ThenLabel(g, t2, n3, k + |code|, endLabel, Exec(s.body, ctx, st, fuel), fuel, base, c2.reg);
      ShowsAfter(g, m, n2, t2, n3, k + |code| + 1, Exec(s, ctx, st, fuel), fuel, fuel, base, c.reg, c2.reg);
      n := n2 + n3;
    }
  }

  /** On over a label, keeping what is known. */
  lemma PassLabel(g: Region, m: State, n: nat, t: State, l: Label, st: Store, base: nat, keep: nat) returns (n': nat, t': State)
    requires Path(g, m, n, t) && Placed(g, t.pc, [AsmLabel(l)]) && Stands(t, st, base) && Kept(m, t, base, keep)
    ensures n' == n + 1 && t' == t.(pc := t.pc + 1) && Path(g, m, n', t') && Stands(t', st, base) && Kept(m, t', base, keep)
  {
    hide *;
    LabelPath(g, t, l);
    n', t' := n + 1, t.(pc := t.pc + 1);
    PathThen(g, m, n, t, 1, t');
    StandsMoved(t, st, base, t'.pc);
    KeptMoved(m, t, base, keep, t'.pc);
  }

  lemma PassNode(g: Region, m: State, n: nat, t: State, st: Store, base: nat, keep: nat) returns (n': nat, t': State)
    requires Path(g, m, n, t) && Placed(g, t.pc, [NodeEntry()]) && Stands(t, st, base) && Kept(m, t, base, keep)
    ensures n' == n + 1 && t' == t.(pc := t.pc + 1) && Path(g, m, n', t') && Stands(t', st, base) && Kept(m, t', base, keep)
  {
    hide *;
    NodePath(g, t);
    n', t' := n + 1, t.(pc := t.pc + 1);
    PathThen(g, m, n, t, 1, t');
    StandsMoved(t, st, base, t'.pc);
    KeptMoved(m, t, base, keep, t'.pc);
  }

  lemma IfElseShape(s: Stmt, ctx: Context, c: Counters, base: nat, st: Store, fuel: nat)
    requires s.IfElse?
    ensures var t := ExprCode(s.cond, ctx, c); var c1 := NextLabels(t.next, 3);
      var a := StmtCode(s.thn, ctx, c1); var b := StmtCode(s.els, ctx, a.next);
      var elseLabel, endLabel := Label("else", t.next.lbl + 1), Label("end", t.next.lbl + 2);
      StmtCode(s, ctx, c).code ==
        t.code + [NodeEntry(), Brz(R(t.reg), elseLabel, false, ctx.hirzel), AsmLabel(Label("if", t.next.lbl))] +
        a.code + [Br(endLabel, false, ctx.hirzel), AsmLabel(elseLabel)] + b.code + [AsmLabel(endLabel)] &&
      c.reg <= t.next.reg == c1.reg <= a.next.reg && StmtCode(s, ctx, c).next == b.next
    ensures Lowerable(s, base) ==> ExprBelow(s.cond, base) && Lowerable(s.thn, base) && Lowerable(s.els, base)
    ensures Exec(s, ctx, st, fuel) ==
      if Eval(s.cond, st.regs) != 0 then Exec(s.thn, ctx, st, fuel) else Exec(s.els, ctx, st, fuel)
  {
    hide ExprCode, Br, Brz, Eval, ExprBelow, NodeEntry, AsmLabel;
  }

  lemma {:induction false} IfElseRuns(s: Stmt, ctx: Context, c: Counters, base: nat, g: Region, m: State, st: Store, fuel: nat)
    returns (n: nat)
    requires s.IfElse? && Lowerable(s, base) && 0 < base <= c.reg && Placed(g, m.pc, StmtCode(s, ctx, c).code) && Stands(m, st, base)
    ensures Shows(g, m, n, m.pc + |StmtCode(s, ctx, c).code|, Exec(s, ctx, st, fuel), fuel, base, c.reg)
    decreases fuel, s, 1, 0
  {
    hide *;
    var t := ExprCode(s.cond, ctx, c);
    var c1 := NextLabels(t.next, 3);
    var a := StmtCode(s.thn, ctx, c1);
    var b := StmtCode(s.els, ctx, a.next);
    var ifLabel, elseLabel, endLabel := Label("if", t.next.lbl), Label("else", t.next.lbl + 1), Label("end", t.next.lbl + 2);
    var brz, br := Brz(R(t.reg), elseLabel, false, ctx.hirzel), Br(endLabel, false, ctx.hirzel);
    IfElseShape(s, ctx, c, base, st, fuel);
    IfElseLayout(g, m.pc, t.code, NodeEntry(), brz, AsmLabel(ifLabel), a.code, br, AsmLabel(elseLabel), b.code, AsmLabel(endLabel));
    var k := m.pc + |t.code| + 3;
    var j := k + |a.code| + 1;
    var end := j + 1 + |b.code|;
    LabelPlace(g, j, elseLabel);
    var n1, t1 := TestRuns(s.cond, elseLabel, ctx, c, base, g, m);
    SameValue(s.cond, m, st, base);
    FreshStands(m, t1, if Eval(s.cond, m.regs) == 0 then j else k - 1, c.reg, t.next.reg, st, base, c.reg);
    if Eval(s.cond, m.regs) == 0 {
      var n2, t2 := PassLabel(g, m, n1, t1, elseLabel, st, base, c.reg);
      var n3 := StmtRuns(s.els, ctx, a.next, base, g, t2, st, fuel);
      n3 := ThenLabel(g, t2, n3, end, endLabel, Exec(s.els, ctx, st, fuel), fuel, base, a.next.reg);
      ShowsAfter(g, m, n2, t2, n3, end + 1, Exec(s, ctx, st, fuel), fuel, fuel, base, c.reg, a.next.reg);
      n := n2 + n3;
    } else {
      var n2, t2 := PassLabel(g, m, n1, t1, ifLabel, st, base, c.reg);
      var n3 := StmtRuns(s.thn, ctx, c1, base, g, t2, st, fuel);
      n3 := ThenJump(g, t2, n3, j - 1, endLabel, false, ctx.hirzel, end, Exec(s.thn, ctx, st, fuel), fuel, base, c1.reg);
      ShowsAfter(g, m, n2, t2, n3, end + 1, Exec(s, ctx, st, fuel), fuel, fuel, base, c.reg, c1.reg);
      n := n2 + n3;
    }
  }

  lemma IfElseLayout(g: Region, k: nat, t: seq<Asm>, node: Asm, test: Asm, first: Asm, a: seq<Asm>, br: Asm, els: Asm,
                     b: seq<Asm>, last: Asm)
    requires Placed(g, k, t + [node, test, first] + a + [br, els] + b + [last])
    ensures Placed(g, k, t) && Placed(g, k + |t|, [node]) && Placed(g, k + |t| + 1, [test]) && Placed(g, k + |t| + 2, [first])
    ensures Placed(g, k + |t| + 3, a) && Placed(g, k + |t| + 3 + |a|, [br]) && Placed(g, k + |t| + |a| + 4, [els])
    ensures Placed(g, k + |t| + |a| + 5, b) && Placed(g, k + |t| + |a| + 5 + |b|, [last])
  {
    hide Placed;
    PlacedParts3(g, k, t + [node, test, first] + a + [br, els], b, [last]);
    PlacedParts4(g, k, t, [node, test, first], a, [br, els]);
    PlacedTriple(g, k + |t|, node, test, first);
    PlacedPair(g, k + |t| + 3 + |a|, br, els);
  }

  // ----- While and for -----

  /** What the two loops share: the head label, the counters of the test, the exit label, two
      entries before the body, and the code of one round. */
  datatype LoopParts = LoopParts(head: Label, tests: Counters, exit: Label, e1: Asm, e2: Asm, round: seq<Asm>)

  function RoundCounters(s: Stmt, ctx: Context, c: Counters): Counters
    requires s.While? || s.For?
  {
    if s.While? then NextLabels(OperandCode(s.test, ctx, c).next, 3)
    else NextLabels(StmtCode(s.incr, ctx, IncrCounters(s, ctx, c)).next, 2)
  }

  function IncrCounters(s: Stmt, ctx: Context, c: Counters): Counters
    requires s.For?
  {
    TestCode(s.forTest, ctx, NextLabels(StmtCode(s.init, ctx, c).next, 1)).next
  }

  function RoundCode(s: Stmt, ctx: Context, c: Counters): seq<Asm>
    requires s.While? || s.For?
  {
    var body := StmtCode(s.body, ctx, RoundCounters(s, ctx, c)).code;
    if s.While? then body else body + StmtCode(s.incr, ctx, IncrCounters(s, ctx, c)).code
  }

  function PartsOf(s: Stmt, ctx: Context, c: Counters): LoopParts
    requires s.While? || s.For?
  {
    if s.While? then
      var lbl := OperandCode(s.test, ctx, c).next.lbl;
      LoopParts(Label("while", lbl), c, Label("end", lbl + 2), NodeEntry(), AsmLabel(Label("loop", lbl + 1)), RoundCode(s, ctx, c))
    else
      var c1 := StmtCode(s.init, ctx, c).next;
      var lbl := StmtCode(s.incr, ctx, IncrCounters(s, ctx, c)).next.lbl;
      LoopParts(Label("for", c1.lbl), NextLabels(c1, 1), Label("end", lbl + 1), AsmLabel(Label("body", lbl)), NodeEntry(), RoundCode(s, ctx, c))
  }

  function LoopEntries(p: LoopParts, test: Option<Operand>, ctx: Context): seq<Asm> {
    [AsmLabel(p.head)] + GuardCode(test, p.exit, ctx, p.tests) + [p.e1, p.e2] + p.round +
    [Br(p.head, false, ctx.hirzel), AsmLabel(p.exit)]
  }

  lemma WhileShape(s: Stmt, ctx: Context, c: Counters, base: nat, st: Store, fuel: nat)
    requires s.While?
    ensures StmtCode(s, ctx, c) == Lowered(LoopEntries(PartsOf(s, ctx, c), LoopTest(s), ctx), StmtCode(s.body, ctx, RoundCounters(s, ctx, c)).next)
    ensures Exec(s, ctx, st, fuel) == ExecLoop(s, ctx, st, fuel)
  {
    hide OperandCode, JumpIfZero, Br, NodeEntry, AsmLabel, ExecLoop;
    var t := OperandCode(s.test, ctx, c);
    var p := PartsOf(s, ctx, c);
    assert GuardCode(LoopTest(s), p.exit, ctx, c) == t.code + JumpIfZero(t.value, p.exit, ctx);
    var b := StmtCode(s.body, ctx, NextLabels(t.next, 3));
    assert StmtCode(s, ctx, c).code == [AsmLabel(p.head)] + t.code + JumpIfZero(t.value, p.exit, ctx) + [p.e1, p.e2] + b.code +
      [Br(p.head, false, ctx.hirzel), AsmLabel(p.exit)];
    assert [AsmLabel(p.head)] + t.code + JumpIfZero(t.value, p.exit, ctx) ==
      [AsmLabel(p.head)] + (t.code + JumpIfZero(t.value, p.exit, ctx));
  }

  lemma ForShape(s: Stmt, ctx: Context, c: Counters, base: nat, st: Store, fuel: nat)
    requires s.For?
    ensures StmtCode(s, ctx, c).code == StmtCode(s.init, ctx, c).code + LoopEntries(PartsOf(s, ctx, c), LoopTest(s), ctx)
    ensures StmtCode(s, ctx, c).next == StmtCode(s.body, ctx, RoundCounters(s, ctx, c)).next
    ensures Lowerable(s, base) ==> Lowerable(s.init, base)
    ensures var o := Exec(s.init, ctx, st, fuel);
      Exec(s, ctx, st, fuel) == if o.Done? then ExecLoop(s, ctx, o.store, fuel) else o
  {
    hide TestCode, JumpIfZero, Br, NodeEntry, AsmLabel, ExecLoop;
    var i := StmtCode(s.init, ctx, c);
    var t := TestCode(s.forTest, ctx, NextLabels(i.next, 1));
    var p := PartsOf(s, ctx, c);
    var j := StmtCode(s.incr, ctx, t.next);
    var b := StmtCode(s.body, ctx, NextLabels(j.next, 2));
    var head, jump, tail := [AsmLabel(p.head)], JumpIfZero(t.value, p.exit, ctx), [Br(p.head, false, ctx.hirzel), AsmLabel(p.exit)];
    assert StmtCode(s, ctx, c).code == i.code + (head + t.code + jump + [p.e1, p.e2] + b.code + j.code + tail);
    assert head + t.code + jump == head + (t.code + jump);
    assert head + (t.code + jump) + [p.e1, p.e2] + b.code + j.code == head + (t.code + jump) + [p.e1, p.e2] + (b.code + j.code);
  }

  lemma LoopShape(s: Stmt, ctx: Context, c: Counters, base: nat, st: Store, fuel: nat)
    requires s.While? || s.For?
    ensures Lowerable(s, base) ==> TestBelow(LoopTest(s), base)
    ensures c.reg <= PartsOf(s, ctx, c).tests.reg && PartsOf(s, ctx, c).round == RoundCode(s, ctx, c)
    ensures fuel == 0 ==> ExecLoop(s, ctx, st, fuel) == OutOfFuel(st.trace)
    ensures fuel > 0 && !Holds(LoopTest(s), st.regs) ==> ExecLoop(s, ctx, st, fuel) == Done(st)
    ensures fuel > 0 && Holds(LoopTest(s), st.regs) ==>
      var o := ExecRound(s, ctx, st, fuel);
      ExecLoop(s, ctx, st, fuel) == if o.Done? then ExecLoop(s, ctx, o.store, fuel - 1) else o
  {
    hide OperandCode, ExecRound, Holds, OperandBelow;
  }

  lemma SameTest(test: Option<Operand>, m: State, st: Store, base: nat)
    requires TestBelow(test, base) && Stands(m, st, base)
    ensures Holds(test, m.regs) == Holds(test, st.regs)
  {
    hide Eval, ExprBelow, Stands;
    if test.Some? && test.value.Runtime? { SameValue(test.value.e, m, st, base); }
  }

  lemma RoundShape(s: Stmt, ctx: Context, c: Counters, base: nat, st: Store, fuel: nat)
    requires s.While? || s.For?
    ensures Lowerable(s, base) ==> Lowerable(s.body, base) && (s.For? ==> Lowerable(s.incr, base))
    ensures c.reg <= RoundCounters(s, ctx, c).reg && (s.For? ==> c.reg <= IncrCounters(s, ctx, c).reg)
    ensures var code := StmtCode(s.body, ctx, RoundCounters(s, ctx, c)).code;
      RoundCode(s, ctx, c) == if s.While? then code else code + StmtCode(s.incr, ctx, IncrCounters(s, ctx, c)).code
    ensures var o := Exec(s.body, ctx, st, fuel);
      ExecRound(s, ctx, st, fuel) == if o.OutOfFuel? || s.While? then o else Exec(s.incr, ctx, o.store, fuel)
  {
    hide OperandCode, TestCode, OperandBelow;
  }

  /** One round. */
  lemma {:induction false} RoundRuns(s: Stmt, ctx: Context, c: Counters, base: nat, g: Region, m: State, st: Store, fuel: nat)
    returns (n: nat)
    requires (s.While? || s.For?) && Lowerable(s, base) && 0 < base <= c.reg
    requires Placed(g, m.pc, RoundCode(s, ctx, c)) && Stands(m, st, base)
    ensures Shows(g, m, n, m.pc + |RoundCode(s, ctx, c)|, ExecRound(s, ctx, st, fuel), fuel, base, c.reg)
    decreases fuel, s, 0, 0
  {
    hide *;
    var c1 := RoundCounters(s, ctx, c);
    var code := StmtCode(s.body, ctx, c1).code;
    var o := Exec(s.body, ctx, st, fuel);
    RoundShape(s, ctx, c, base, st, fuel);
    if s.While? {
      n := StmtRuns(s.body, ctx, c1, base, g, m, st, fuel);
      ShowsLess(g, m, n, m.pc + |code|, o, fuel, base, c.reg, c1.reg);
    } else {
      var c2 := IncrCounters(s, ctx, c);
      var incr := StmtCode(s.incr, ctx, c2).code;
      PlacedParts(g, m.pc, code, incr);
      n := StmtRuns(s.body, ctx, c1, base, g, m, st, fuel);
      if o.Done? {
        var t := Finished(g, m, n, m.pc + |code|, o.store, fuel, base, c1.reg);
        var n2 := StmtRuns(s.incr, ctx, c2, base, g, t, o.store, fuel);
        KeptLess(m, t, base, c.reg, c1.reg);
        ShowsAfter(g, m, n, t, n2, t.pc + |incr|, ExecRound(s, ctx, st, fuel), fuel, fuel, base, c.reg, c2.reg);
        n := n + n2;
      } else {
        Stuck(g, m, n, m.pc + |code|, m.pc + |RoundCode(s, ctx, c)|, o, fuel, base, c1.reg, c.reg);
      }
    }
  }

  lemma ShowsLess(g: Region, m: State, n: nat, end: nat, o: Outcome, fuel: nat, base: nat, keep: nat, keep': nat)
    requires Shows(g, m, n, end, o, fuel, base, keep') && keep <= keep'
    ensures Shows(g, m, n, end, o, fuel, base, keep)
  {
  }

  lemma LoopLayout(g: Region, k: nat, p: LoopParts, test: Option<Operand>, ctx: Context)
    requires Placed(g, k, LoopEntries(p, test, ctx))
    ensures var j := k + 1 + |GuardCode(test, p.exit, ctx, p.tests)|; var e := j + 2 + |p.round|;
      Placed(g, k, [AsmLabel(p.head)]) && Placed(g, k + 1, GuardCode(test, p.exit, ctx, p.tests)) &&
      Placed(g, j, [p.e1]) && Placed(g, j + 1, [p.e2]) && Placed(g, j + 2, p.round) &&
      Placed(g, e, [Br(p.head, false, ctx.hirzel)]) && Placed(g, e + 1, [AsmLabel(p.exit)]) &&
      k + |LoopEntries(p, test, ctx)| == e + 2
  {
    hide Placed, GuardCode, Br, AsmLabel;
    var guard := GuardCode(test, p.exit, ctx, p.tests);
    var br := Br(p.head, false, ctx.hirzel);
    PlacedParts3(g, k, [AsmLabel(p.head)] + guard + [p.e1, p.e2], p.round, [br, AsmLabel(p.exit)]);
    PlacedParts3(g, k, [AsmLabel(p.head)], guard, [p.e1, p.e2]);
    PlacedPair(g, k + 1 + |guard|, p.e1, p.e2);
    PlacedPair(g, k + 3 + |guard| + |p.round|, br, AsmLabel(p.exit));
  }

  /** The two entries before the body are a node and a label. */
  lemma EnterRound(s: Stmt, ctx: Context, c: Counters, g: Region, m: State, n: nat, t: State, st: Store, base: nat, keep: nat)
    returns (n': nat, t': State)
    requires (s.While? || s.For?) && Path(g, m, n, t) && Stands(t, st, base) && Kept(m, t, base, keep)
    requires Placed(g, t.pc, [PartsOf(s, ctx, c).e1]) && Placed(g, t.pc + 1, [PartsOf(s, ctx, c).e2])
    ensures n' == n + 2 && t' == t.(pc := t.pc + 2) && Path(g, m, n', t') && Stands(t', st, base) && Kept(m, t', base, keep)
  {
    hide Path, Placed, Stands, Kept, StmtCode, OperandCode, RoundCode, TestCode, AsmLabel, NodeEntry;
    var p := PartsOf(s, ctx, c);
    if s.While? {
      n', t' := PassNode(g, m, n, t, st, base, keep);
      var l := Label("loop", OperandCode(s.test, ctx, c).next.lbl + 1);
      n', t' := PassLabel(g, m, n', t', l, st, base, keep);
    } else {
      var l := Label("body", StmtCode(s.incr, ctx, IncrCounters(s, ctx, c)).next.lbl);
      n', t' := PassLabel(g, m, n, t, l, st, base, keep);
      n', t' := PassNode(g, m, n', t', st, base, keep);
    }
  }

  /** The rounds of a loop. */
  lemma {:induction false} LoopRuns(s: Stmt, ctx: Context, c: Counters, base: nat, g: Region, m: State, st: Store, fuel: nat)
    returns (n: nat)
    requires (s.While? || s.For?) && Lowerable(s, base) && 0 < base <= c.reg
    requires Placed(g, m.pc, LoopEntries(PartsOf(s, ctx, c), LoopTest(s), ctx)) && Stands(m, st, base)
    ensures Shows(g, m, n, m.pc + |LoopEntries(PartsOf(s, ctx, c), LoopTest(s), ctx)|, ExecLoop(s, ctx, st, fuel), fuel, base, c.reg)
    decreases fuel, s, 0, 1
  {
    hide *;
    var p, test := PartsOf(s, ctx, c), LoopTest(s);
    var end := m.pc + |LoopEntries(p, test, ctx)|;
    var result := ExecLoop(s, ctx, st, fuel);
    LoopShape(s, ctx, c, base, st, fuel);
    if fuel == 0 {
      n := 0;
      NoFuelShows(g, m, end, st, base, c.reg);
    } else {
      LoopLayout(g, m.pc, p, test, ctx);
      var j := m.pc + 1 + |GuardCode(test, p.exit, ctx, p.tests)|;
      LabelPlace(g, end - 1, p.exit);
      PathNone(g, m);
      KeptSelf(m, m.pc, base, c.reg);
      var n1, t1 := PassLabel(g, m, 0, m, p.head, st, base, c.reg);
      var n2, t2 := GuardRuns(test, p.exit, ctx, p.tests, base, g, t1);
      SameTest(test, t1, st, base);
      FreshStands(t1, t2, if Holds(test, st.regs) then j else end - 1, p.tests.reg, TestCode(test, ctx, p.tests).next.reg, st, base, c.reg);
      PathThen(g, m, n1, t1, n2, t2);
      KeptThen(m, t1, t2, base, c.reg, c.reg);
      if !Holds(test, st.regs) {
        LeaveAtLabel(g, m, n1 + n2, t2, p.exit, st, fuel, base, c.reg);
        n := n1 + n2 + 1;
      } else {
        var n3, t3 := EnterRound(s, ctx, c, g, m, n1 + n2, t2, st, base, c.reg);
        var n4 := RoundRuns(s, ctx, c, base, g, t3, st, fuel);
        var o := ExecRound(s, ctx, st, fuel);
        ShowsAfter(g, m, n3, t3, n4, end - 2, o, fuel, fuel, base, c.reg, c.reg);
        if o.OutOfFuel? {
          n := n3 + n4;
          Stuck(g, m, n, end - 2, end, o, fuel, base, c.reg, c.reg);
        } else {
          var t4 := Finished(g, m, n3 + n4, end - 2, o.store, fuel, base, c.reg);
          var t5 := JumpBack(g, m, n3 + n4, t4, p.head, ctx, o.store, base, c.reg);
          var n5 := LoopRuns(s, ctx, c, base, g, t5, o.store, fuel - 1);
          n := n3 + n4 + 1 + n5;
          ShowsAfter(g, m, n3 + n4 + 1, t5, n5, end, result, fuel, fuel - 1, base, c.reg, c.reg);
        }
      }
    }
  }

  lemma NoFuelShows(g: Region, m: State, end: nat, st: Store, base: nat, keep: nat)
    requires Stands(m, st, base)
    ensures Shows(g, m, 0, end, OutOfFuel(st.trace), 0, base, keep)
  {
  }

  /** The jump back to where the run started. */
  lemma JumpBack(g: Region, m: State, n: nat, t: State, head: Label, ctx: Context, st: Store, base: nat, keep: nat) returns (t': State)
    requires Path(g, m, n, t) && Placed(g, t.pc, [Br(head, false, ctx.hirzel)]) && Placed(g, m.pc, [AsmLabel(head)])
    requires Stands(t, st, base) && Kept(m, t, base, keep)
    ensures t'.pc == m.pc && Path(g, m, n + 1, t') && Stands(t', st, base) && Kept(m, t', base, keep)
  {
    hide *;
    LabelPlace(g, m.pc, head);
    JumpPath(g, t, head, false, ctx.hirzel);
    t' := t.(pc := m.pc);
    PathThen(g, m, n, t, 1, t');
    StandsMoved(t, st, base, m.pc);
    KeptMoved(m, t, base, keep, m.pc);
  }

  lemma {:induction false} WhileRuns(s: Stmt, ctx: Context, c: Counters, base: nat, g: Region, m: State, st: Store, fuel: nat)
    returns (n: nat)
    requires s.While? && Lowerable(s, base) && 0 < base <= c.reg && Placed(g, m.pc, StmtCode(s, ctx, c).code) && Stands(m, st, base)
    ensures Shows(g, m, n, m.pc + |StmtCode(s, ctx, c).code|, Exec(s, ctx, st, fuel), fuel, base, c.reg)
    decreases fuel, s, 1, 0
  {
    hide *;
    WhileShape(s, ctx, c, base, st, fuel);
    n := LoopRuns(s, ctx, c, base, g, m, st, fuel);
  }

  lemma {:induction false} ForRuns(s: Stmt, ctx: Context, c: Counters, base: nat, g: Region, m: State, st: Store, fuel: nat)
    returns (n: nat)
    requires s.For? && Lowerable(s, base) && 0 < base <= c.reg && Placed(g, m.pc, StmtCode(s, ctx, c).code) && Stands(m, st, base)
    ensures Shows(g, m, n, m.pc + |StmtCode(s, ctx, c).code|, Exec(s, ctx, st, fuel), fuel, base, c.reg)
    decreases fuel, s, 1, 0
  {
    hide *;
    ForShape(s, ctx, c, base, st, fuel);
    var init := StmtCode(s.init, ctx, c).code;
    var loop := LoopEntries(PartsOf(s, ctx, c), LoopTest(s), ctx);
    var o := Exec(s.init, ctx, st, fuel);
    PlacedParts(g, m.pc, init, loop);
    n := StmtRuns(s.init, ctx, c, base, g, m, st, fuel);
    if o.OutOfFuel? {
      Stuck(g, m, n, m.pc + |init|, m.pc + |StmtCode(s, ctx, c).code|, o, fuel, base, c.reg, c.reg);
    } else {
      var t := Finished(g, m, n, m.pc + |init|, o.store, fuel, base, c.reg);
      var n2 := LoopRuns(s, ctx, c, base, g, t, o.store, fuel);
      ShowsAfter(g, m, n, t, n2, t.pc + |loop|, Exec(s, ctx, st, fuel), fuel, fuel, base, c.reg, c.reg);
      n := n + n2;
    }
  }

  // ----- Do-while -----

  lemma DoWhileShape(s: Stmt, ctx: Context, c: Counters, base: nat, st: Store, fuel: nat)
    requires s.DoWhile?
    ensures var c1 := NextLabels(c, 3); var c2 := OperandCode(s.test, ctx, c1).next;
      StmtCode(s, ctx, c).code ==
        [AsmLabel(Label("do", c.lbl))] + StmtCode(s.body, ctx, c2).code + [AsmLabel(Label("while", c.lbl + 1))] +
        AgainCode(s.test, Label("do", c.lbl), ctx, c1) + [AsmLabel(Label("end", c.lbl + 2))] && c.reg == c1.reg <= c2.reg &&
      StmtCode(s, ctx, c).next == OperandCode(s.test, ctx, StmtCode(s.body, ctx, c2).next).next
    ensures Lowerable(s, base) ==> OperandBelow(s.test, base) && Lowerable(s.body, base)
    ensures Exec(s, ctx, st, fuel) == ExecDo(s, ctx, st, fuel)
    ensures fuel == 0 ==> ExecDo(s, ctx, st, fuel) == OutOfFuel(st.trace)
    ensures fuel > 0 ==>
      var o := Exec(s.body, ctx, st, fuel);
      ExecDo(s, ctx, st, fuel) ==
        if o.OutOfFuel? then o
        else if Holds(Some(s.test), o.store.regs) then ExecDo(s, ctx, o.store, fuel - 1) else o
  {
    hide OperandCode, JumpIfNonZero, OperandBelow, NodeEntry, AsmLabel, Holds;
    var c1 := NextLabels(c, 3);
    var t := OperandCode(s.test, ctx, c1);
    var b := StmtCode(s.body, ctx, t.next);
    var jump := JumpIfNonZero(t.value, Label("do", c.lbl), ctx);
    var front := [AsmLabel(Label("do", c.lbl))] + b.code + [AsmLabel(Label("while", c.lbl + 1))];
    assert front + t.code + [NodeEntry()] + jump == front + (t.code + [NodeEntry()] + jump);
  }

  lemma {:induction false} DoWhileRuns(s: Stmt, ctx: Context, c: Counters, base: nat, g: Region, m: State, st: Store, fuel: nat)
    returns (n: nat)
    requires s.DoWhile? && Lowerable(s, base) && 0 < base <= c.reg && Placed(g, m.pc, StmtCode(s, ctx, c).code) && Stands(m, st, base)
    ensures Shows(g, m, n, m.pc + |StmtCode(s, ctx, c).code|, Exec(s, ctx, st, fuel), fuel, base, c.reg)
    decreases fuel, s, 1, 0
  {
    hide *;
    DoWhileShape(s, ctx, c, base, st, fuel);
    var c1 := NextLabels(c, 3);
    var c2 := OperandCode(s.test, ctx, c1).next;
    var doLabel, whileLabel, endLabel := Label("do", c.lbl), Label("while", c.lbl + 1), Label("end", c.lbl + 2);
    var code, again := StmtCode(s.body, ctx, c2).code, AgainCode(s.test, doLabel, ctx, c1);
    var end := m.pc + |StmtCode(s, ctx, c).code|;
    if fuel == 0 {
      n := 0;
      NoFuelShows(g, m, end, st, base, c.reg);
    } else {
      PlacedParts(g, m.pc, [AsmLabel(doLabel)] + code + [AsmLabel(whileLabel)] + again, [AsmLabel(endLabel)]);
      PlacedParts4(g, m.pc, [AsmLabel(doLabel)], code, [AsmLabel(whileLabel)], again);
      PathNone(g, m);
      KeptSelf(m, m.pc, base, c.reg);
      var n1, t1 := PassLabel(g, m, 0, m, doLabel, st, base, c.reg);
      var n2 := StmtRuns(s.body, ctx, c2, base, g, t1, st, fuel);
      var o := Exec(s.body, ctx, st, fuel);
      var k := m.pc + 1 + |code|;
      ShowsAfter(g, m, n1, t1, n2, k, o, fuel, fuel, base, c.reg, c2.reg);
      if o.OutOfFuel? {
        n := n1 + n2;
        Stuck(g, m, n, k, end, o, fuel, base, c.reg, c.reg);
      } else {
        var t2 := Finished(g, m, n1 + n2, k, o.store, fuel, base, c.reg);
        var n3, t3 := PassLabel(g, m, n1 + n2, t2, whileLabel, o.store, base, c.reg);
        LabelPlace(g, m.pc, doLabel);
        var n4, t4 := AgainRuns(s.test, doLabel, ctx, c1, base, g, t3);
        SameTestSome(s.test, t3, o.store, base);
        var go := Holds(Some(s.test), o.store.regs);
        FreshStands(t3, t4, if go then m.pc else end - 1, c1.reg, c2.reg, o.store, base, c.reg);
        PathThen(g, m, n3, t3, n4, t4);
        KeptThen(m, t3, t4, base, c.reg, c.reg);
        if go {
          var n5 := DoWhileRuns(s, ctx, c, base, g, t4, o.store, fuel - 1);
          DoWhileShape(s, ctx, c, base, o.store, fuel - 1);
          ShowsAfter(g, m, n3 + n4, t4, n5, end, Exec(s, ctx, st, fuel), fuel, fuel - 1, base, c.reg, c.reg);
          n := n3 + n4 + n5;
        } else {
          LeaveAtLabel(g, m, n3 + n4, t4, endLabel, o.store, fuel, base, c.reg);
          n := n3 + n4 + 1;
        }
      }
    }
  }

  lemma SameTestSome(test: Operand, m: State, st: Store, base: nat)
    requires OperandBelow(test, base) && Stands(m, st, base)
    ensures Holds(Some(test), m.regs) == Holds(Some(test), st.regs)
  {
    hide Stands, Holds;
    SameTest(Some(test), m, st, base);
  }

  // ----- Repeat -----

  /** Counting down and testing for "still positive" stops exactly after Repetitions(v) rounds. */
  lemma CountDown(v: Word)
    requires v > 0
    ensures var w := Wrap(v + -1);
      Repetitions(v) > 0 && Repetitions(v) - 1 == (if BranchTaken(BRGZ, w) then Repetitions(w) else 0) &&
      (BranchTaken(BRGZ, w) ==> 0 < w < v)
  {
  }

  lemma TimesStep(s: Stmt, n: nat, ctx: Context, st: Store, fuel: nat)
    requires s.RepeatVar? || s.RepeatConst?
    ensures n == 0 ==> ExecTimes(s, n, ctx, st, fuel) == Done(st)
    ensures n > 0 ==>
      var o := Exec(s.body, ctx, st, fuel);
      ExecTimes(s, n, ctx, st, fuel) == if o.Done? then ExecTimes(s, n - 1, ctx, o.store, fuel) else o
  {
    hide Exec;
  }

  lemma RepeatShape(s: Stmt, base: nat)
    requires s.RepeatVar? || s.RepeatConst?
    ensures Lowerable(s, base) ==> Lowerable(s.body, base) && (s.RepeatVar? ==> ExprBelow(s.count, base))
    ensures Lowerable(s, base) && s.RepeatConst? ==> 0 <= s.n < 0x8000_0000
  {
    hide ExprBelow;
  }

  lemma RepeatLayout(g: Region, k: nat, counter: nat, l: Label, body: seq<Asm>)
    requires Placed(g, k, RepeatLoop(counter, l, body))
    ensures var j := k + 2 + |body|; var e := j + |AddCode(counter, counter, -1)|;
      Placed(g, k, [AsmLabel(l)]) && Placed(g, k + 1, [NodeEntry()]) && Placed(g, k + 2, body) &&
      Placed(g, j, AddCode(counter, counter, -1)) && Placed(g, e, [Branch(BRGZ, R(counter), l, false)]) &&
      k + |RepeatLoop(counter, l, body)| == e + 1
  {
    hide Placed, AddCode, Branch, AsmLabel, NodeEntry;
    PlacedParts4(g, k, [AsmLabel(l), NodeEntry()], body, AddCode(counter, counter, -1), [Branch(BRGZ, R(counter), l, false)]);
    PlacedPair(g, k, AsmLabel(l), NodeEntry());
  }

  /** The loop shared by all repeats, entered with v > 0 in the counter. */
  lemma {:induction false} RepeatRuns(s: Stmt, counter: nat, l: Label, cb: Counters, ctx: Context, base: nat, g: Region, m: State,
                                      st: Store, fuel: nat, v: Word)
    returns (n: nat)
    requires (s.RepeatVar? || s.RepeatConst?) && Lowerable(s.body, base) && 0 < base <= counter < cb.reg
    requires Placed(g, m.pc, RepeatLoop(counter, l, StmtCode(s.body, ctx, cb).code)) && Stands(m, st, base)
    requires v > 0 && Get(m.regs, counter) == v
    ensures Shows(g, m, n, m.pc + |RepeatLoop(counter, l, StmtCode(s.body, ctx, cb).code)|,
                  ExecTimes(s, Repetitions(v), ctx, st, fuel), fuel, base, counter)
    decreases fuel, s, 0, v
  {
    hide *;
    var code := StmtCode(s.body, ctx, cb).code;
    var dec := AddCode(counter, counter, -1);
    var k := m.pc + 2 + |code|;
    var end := k + |dec| + 1;
    var result := ExecTimes(s, Repetitions(v), ctx, st, fuel);
    RepeatLayout(g, m.pc, counter, l, code);
    CountDown(v);
    TimesStep(s, Repetitions(v), ctx, st, fuel);
    PathNone(g, m);
    KeptSelf(m, m.pc, base, cb.reg);
    var n1, t1 := PassLabel(g, m, 0, m, l, st, base, cb.reg);
    n1, t1 := PassNode(g, m, n1, t1, st, base, cb.reg);
    var n2 := StmtRuns(s.body, ctx, cb, base, g, t1, st, fuel);
    var o := Exec(s.body, ctx, st, fuel);
    ShowsAfter(g, m, n1, t1, n2, k, o, fuel, fuel, base, cb.reg, cb.reg);
    if o.OutOfFuel? {
      n := n1 + n2;
      Stuck(g, m, n, k, end, o, fuel, base, cb.reg, counter);
    } else {
      var t2 := Finished(g, m, n1 + n2, k, o.store, fuel, base, cb.reg);
      KeptAt(m, t2, base, cb.reg, counter);
      KeptLess(m, t2, base, counter, cb.reg);
      var n3, t3 := AddRuns(g, t2, counter, counter, -1, o.store, base, counter);
      PathThen(g, m, n1 + n2, t2, n3, t3);
      KeptThen(m, t2, t3, base, counter, counter);
      var w := Wrap(v + -1);
      var n4 := n1 + n2 + n3;
      BranchPath(g, t3, BRGZ, counter, l);
      LabelPlace(g, m.pc, l);
      var t4 := t3.(pc := if BranchTaken(BRGZ, w) then m.pc else end);
      PathThen(g, m, n4, t3, 1, t4);
      StandsMoved(t3, o.store, base, t4.pc);
      KeptMoved(m, t3, base, counter, t4.pc);
      if BranchTaken(BRGZ, w) {
        var n5 := RepeatRuns(s, counter, l, cb, ctx, base, g, t4, o.store, fuel, w);
        n := n4 + 1 + n5;
        ShowsAfter(g, m, n4 + 1, t4, n5, end, result, fuel, fuel, base, counter, counter);
      } else {
        n := n4 + 1;
        TimesStep(s, 0, ctx, o.store, fuel);
        ReachedShows(g, m, n, t4, o.store, fuel, base, counter);
      }
    }
  }

  lemma ReachedShows(g: Region, m: State, n: nat, t: State, st: Store, fuel: nat, base: nat, keep: nat)
    requires Path(g, m, n, t) && Stands(t, st, base) && Kept(m, t, base, keep)
    ensures Shows(g, m, n, t.pc, Done(st), fuel, base, keep)
  {
    hide Path, Stands, Kept;
    ShowsDone(g, m, n, t, t.pc, st, fuel, base, keep);
  }

  lemma RepeatVarShape(s: Stmt, ctx: Context, c: Counters, st: Store, fuel: nat)
    requires s.RepeatVar?
    ensures var t := ExprCode(s.count, ctx, c); var counter := t.next.reg; var cb := NextLabels(NextReg(t.next), 2);
      var loopLabel, endLabel := Label("loop", t.next.lbl), Label("end", t.next.lbl + 1);
      StmtCode(s, ctx, c).code ==
        t.code + AddCode(counter, t.reg, 0) + [Brz(R(counter), endLabel, false, ctx.hirzel)] +
        RepeatLoop(counter, loopLabel, StmtCode(s.body, ctx, cb).code) + [AsmLabel(endLabel)] &&
      c.reg <= counter < cb.reg && StmtCode(s, ctx, c).next == StmtCode(s.body, ctx, cb).next
    ensures Exec(s, ctx, st, fuel) == ExecTimes(s, Repetitions(Eval(s.count, st.regs)), ctx, st, fuel)
    ensures Repetitions(0) == 0
  {
    hide ExprCode, AddCode, Brz, RepeatLoop, AsmLabel, Eval;
  }

  /** `repeat` over a register: exactly Repetitions(count) rounds. */
  lemma {:induction false} RepeatVarRuns(s: Stmt, ctx: Context, c: Counters, base: nat, g: Region, m: State, st: Store, fuel: nat)
    returns (n: nat)
    requires s.RepeatVar? && Lowerable(s, base) && 0 < base <= c.reg && Placed(g, m.pc, StmtCode(s, ctx, c).code) && Stands(m, st, base)
    ensures Shows(g, m, n, m.pc + |StmtCode(s, ctx, c).code|, Exec(s, ctx, st, fuel), fuel, base, c.reg)
    decreases fuel, s, 1, 0
  {
    hide *;
    var t := ExprCode(s.count, ctx, c);
    var counter, cb := t.next.reg, NextLabels(NextReg(t.next), 2);
    var loopLabel, endLabel := Label("loop", t.next.lbl), Label("end", t.next.lbl + 1);
    var copy, brz := AddCode(counter, t.reg, 0), Brz(R(counter), endLabel, false, ctx.hirzel);
    var loop := RepeatLoop(counter, loopLabel, StmtCode(s.body, ctx, cb).code);
    RepeatVarShape(s, ctx, c, st, fuel);
    RepeatShape(s, base);
    PlacedParts3(g, m.pc, t.code + copy + [brz], loop, [AsmLabel(endLabel)]);
    PlacedParts3(g, m.pc, t.code, copy, [brz]);
    var k := m.pc + |t.code| + |copy| + 1;
    var end := k + |loop|;
    var v := Eval(s.count, st.regs);
    var n1, t1 := ExprRuns(s.count, ctx, c, base, g, m);
    SameValue(s.count, m, st, base);
    LeavesStands(m, t1, t, c, st, base, c.reg, v);
    var n2, t2 := AddRuns(g, t1, counter, t.reg, 0, st, base, c.reg);
    WrapWord(v);
    PathThen(g, m, n1, t1, n2, t2);
    KeptThen(m, t1, t2, base, c.reg, c.reg);
    BrzPath(g, t2, counter, endLabel, false, ctx.hirzel);
    LabelPlace(g, end, endLabel);
    var t3 := t2.(pc := if v == 0 then end else k);
    PathThen(g, m, n1 + n2, t2, 1, t3);
    StandsMoved(t2, st, base, t3.pc);
    KeptMoved(m, t2, base, c.reg, t3.pc);
    if v == 0 {
      TimesStep(s, 0, ctx, st, fuel);
      LeaveAtLabel(g, m, n1 + n2 + 1, t3, endLabel, st, fuel, base, c.reg);
      n := n1 + n2 + 2;
    } else {
      var o := Exec(s, ctx, st, fuel);
      var n3 := RepeatRuns(s, counter, loopLabel, cb, ctx, base, g, t3, st, fuel, v);
      n3 := ThenLabel(g, t3, n3, end, endLabel, o, fuel, base, counter);
      ShowsAfter(g, m, n1 + n2 + 1, t3, n3, end + 1, o, fuel, fuel, base, c.reg, counter);
      n := n1 + n2 + 1 + n3;
    }
  }

  lemma RepeatConstShape(s: Stmt, ctx: Context, c: Counters, st: Store, fuel: nat)
    requires s.RepeatConst? && 0 <= s.n < 0x8000_0000
    ensures Exec(s, ctx, st, fuel) == ExecTimes(s, s.n, ctx, st, fuel)
    ensures s.n >= 1 ==> Repetitions(s.n) == s.n == Wrap(0 + s.n)
    ensures var start := NextReg(c); var l := StmtCode(s, ctx, c); var trial := StmtCode(s.body, ctx, start);
      start.reg == c.reg + 1 <= trial.next.reg &&
      (s.n == 0 ==> l == Lowered([], start)) && (s.n == 1 ==> l == trial) &&
      (s.n > 1 ==>
        l == RepeatRuntimeCode(s, ctx, c.reg, start) ||
        (trial.code == [] && l == Unrolled(s, s.n - 1, ctx, trial.next)) ||
        (trial.code != [] && l == RepeatRuntimeCode(s, ctx, c.reg, trial.next)))
  {
    hide RepeatRuntimeCode, Unrolled, ExecTimes;
  }

  lemma RuntimeShape(s: Stmt, ctx: Context, counter: nat, c: Counters)
    requires s.RepeatConst?
    ensures RepeatRuntimeCode(s, ctx, counter, c).code ==
      AddCode(counter, 0, s.n) + RepeatLoop(counter, Label("loop", c.lbl), StmtCode(s.body, ctx, NextLabels(c, 1)).code)
    ensures NextLabels(c, 1).reg == c.reg && RepeatRuntimeCode(s, ctx, counter, c).next == StmtCode(s.body, ctx, NextLabels(c, 1)).next
  {
  }

  /** The run-time loop of a constant count. */
  lemma {:induction false} RuntimeRuns(s: Stmt, ctx: Context, counter: nat, c: Counters, base: nat, g: Region, m: State, st: Store, fuel: nat)
    returns (n: nat)
    requires s.RepeatConst? && Lowerable(s.body, base) && 0 < base <= counter < c.reg
    requires s.n >= 1 && Repetitions(Wrap(0 + s.n)) == s.n && Wrap(0 + s.n) == s.n
    requires Placed(g, m.pc, RepeatRuntimeCode(s, ctx, counter, c).code) && Stands(m, st, base)
    ensures Shows(g, m, n, m.pc + |RepeatRuntimeCode(s, ctx, counter, c).code|, ExecTimes(s, s.n, ctx, st, fuel), fuel, base, counter)
    decreases fuel, s, 1, 0
  {
    hide *;
    RuntimeShape(s, ctx, counter, c);
    var cb := NextLabels(c, 1);
    var load := AddCode(counter, 0, s.n);
    var loop := RepeatLoop(counter, Label("loop", c.lbl), StmtCode(s.body, ctx, cb).code);
    PlacedParts(g, m.pc, load, loop);
    ZeroReads(m.regs);
    var n1, t1 := AddRuns(g, m, counter, 0, s.n, st, base, counter);
    var n2 := RepeatRuns(s, counter, Label("loop", c.lbl), cb, ctx, base, g, t1, st, fuel, s.n);
    n := n1 + n2;
    ShowsAfter(g, m, n1, t1, n2, t1.pc + |loop|, ExecTimes(s, s.n, ctx, st, fuel), fuel, fuel, base, counter, counter);
  }

  lemma UnrolledShape(s: Stmt, copies: nat, ctx: Context, c: Counters)
    requires s.RepeatConst?
    ensures copies == 0 ==> Unrolled(s, copies, ctx, c) == Lowered([], c)
    ensures copies > 0 ==>
      var a := StmtCode(s.body, ctx, c);
      var b := Unrolled(s, copies - 1, ctx, a.next);
      Unrolled(s, copies, ctx, c) == Lowered(a.code + b.code, b.next) && c.reg <= a.next.reg
  {
  }

  lemma {:induction false} UnrolledRuns(s: Stmt, copies: nat, ctx: Context, c: Counters, base: nat, g: Region, m: State, st: Store, fuel: nat)
    returns (n: nat)
    requires s.RepeatConst? && Lowerable(s.body, base) && 0 < base <= c.reg
    requires Placed(g, m.pc, Unrolled(s, copies, ctx, c).code) && Stands(m, st, base)
    ensures Shows(g, m, n, m.pc + |Unrolled(s, copies, ctx, c).code|, ExecTimes(s, copies, ctx, st, fuel), fuel, base, c.reg)
    decreases fuel, s, 0, copies
  {
    hide *;
    UnrolledShape(s, copies, ctx, c);
    TimesStep(s, copies, ctx, st, fuel);
    if copies == 0 {
      n := 0;
      StayedShows(g, m, st, fuel, base, c.reg);
    } else {
      var a := StmtCode(s.body, ctx, c);
      var rest := Unrolled(s, copies - 1, ctx, a.next).code;
      var end := m.pc + |a.code| + |rest|;
      PlacedParts(g, m.pc, a.code, rest);
      n := StmtRuns(s.body, ctx, c, base, g, m, st, fuel);
      var o := Exec(s.body, ctx, st, fuel);
      if o.OutOfFuel? {
        Stuck(g, m, n, m.pc + |a.code|, end, o, fuel, base, c.reg, c.reg);
      } else {
        var t := Finished(g, m, n, m.pc + |a.code|, o.store, fuel, base, c.reg);
        var n2 := UnrolledRuns(s, copies - 1, ctx, a.next, base, g, t, o.store, fuel);
        ShowsAfter(g, m, n, t, n2, end, ExecTimes(s, copies, ctx, st, fuel), fuel, fuel, base, c.reg, a.next.reg);
        n := n + n2;
      }
    }
  }

  lemma PlacedNothing(g: Region, pc: nat, code: seq<Asm>)
    requires Placed(g, pc, code)
    ensures Placed(g, pc, [])
  {
    hide Placed;
    assert [] + code == code;
    PlacedParts(g, pc, [], code);
  }

  /** `repeat` over a constant: exactly n rounds, unrolled or not. */
  lemma {:induction false} RepeatConstRuns(s: Stmt, ctx: Context, c: Counters, base: nat, g: Region, m: State, st: Store, fuel: nat)
    returns (n: nat)
    requires s.RepeatConst? && Lowerable(s, base) && 0 < base <= c.reg && Placed(g, m.pc, StmtCode(s, ctx, c).code) && Stands(m, st, base)
    ensures Shows(g, m, n, m.pc + |StmtCode(s, ctx, c).code|, Exec(s, ctx, st, fuel), fuel, base, c.reg)
    decreases fuel, s, 1, 1
  {
    hide *;
    RepeatShape(s, base);
    RepeatConstShape(s, ctx, c, st, fuel);
    var l, start := StmtCode(s, ctx, c), NextReg(c);
    var trial := StmtCode(s.body, ctx, start);
    TimesStep(s, s.n, ctx, st, fuel);
    if s.n == 0 {
      n := 0;
      StayedShows(g, m, st, fuel, base, c.reg);
    } else if s.n == 1 {
      n := StmtRuns(s.body, ctx, start, base, g, m, st, fuel);
      var o := Exec(s.body, ctx, st, fuel);
      if o.Done? { TimesStep(s, 0, ctx, o.store, fuel); }
      ShowsLess(g, m, n, m.pc + |l.code|, o, fuel, base, c.reg, start.reg);
    } else if l == RepeatRuntimeCode(s, ctx, c.reg, start) {
      n := RuntimeRuns(s, ctx, c.reg, start, base, g, m, st, fuel);
    } else if trial.code != [] {
      n := RuntimeRuns(s, ctx, c.reg, trial.next, base, g, m, st, fuel);
    } else {
      PlacedNothing(g, m.pc, l.code);
      n := StmtRuns(s.body, ctx, start, base, g, m, st, fuel);
      var o := Exec(s.body, ctx, st, fuel);
      if o.OutOfFuel? {
        Stuck(g, m, n, m.pc, m.pc + |l.code|, o, fuel, base, start.reg, c.reg);
      } else {
        var t := Finished(g, m, n, m.pc, o.store, fuel, base, start.reg);
        var n2 := UnrolledRuns(s, s.n - 1, ctx, trial.next, base, g, t, o.store, fuel);
        KeptLess(m, t, base, c.reg, start.reg);
        ShowsAfter(g, m, n, t, n2, m.pc + |l.code|, Exec(s, ctx, st, fuel), fuel, fuel, base, c.reg, trial.next.reg);
        n := n + n2;
      }
    }
  }

  // ----- Switch -----

  /** The tests lead to the label of the first matching case, or past them all. */
  lemma {:induction false} CaseTestsRun(cases: seq<Case>, i: nat, condReg: nat, ctx: Context, c: Counters, base: nat, keep: nat,
                                        g: Region, m: State, st: Store, v: Word)
    returns (n: nat, t: State)
    requires i <= |cases| && condReg < c.reg && 0 < base <= keep <= c.reg && Get(m.regs, condReg) == v
    requires Placed(g, m.pc, CaseTests(cases, i, condReg, ctx, c)) && Stands(m, st, base)
    ensures Path(g, m, n, t) && Stands(t, st, base) && Kept(m, t, base, keep)
    ensures var k := FirstMatch(cases, i, v);
      t.pc == if k < |cases| then Target(g.prog, CaseLabel(c, k)) else m.pc + |CaseTests(cases, i, condReg, ctx, c)|
    decreases |cases| - i
  {
    hide Path, Placed, Stands, Kept, Target, AddCode, Brz, Get, OnlySets;
    if i == |cases| {
      n, t := 0, m;
      PathNone(g, m);
      KeptSelf(m, m.pc, base, keep);
    } else {
      var r, add := CaseReg(c, i), AddCode(CaseReg(c, i), condReg, -cases[i].value);
      var brz := Brz(R(r), CaseLabel(c, i), false, ctx.hirzel);
      var rest := CaseTests(cases, i + 1, condReg, ctx, c);
      PlacedParts(g, m.pc, add + [brz], rest);
      PlacedParts(g, m.pc, add, [brz]);
      var n1, t1 := AddRuns(g, m, r, condReg, -cases[i].value, st, base, keep);
      SetsElse(m, t1, t1.pc, r, Wrap(v - cases[i].value), condReg);
      MatchTest(v, cases[i].value);
      BrzPath(g, t1, r, CaseLabel(c, i), false, ctx.hirzel);
      var t2 := t1.(pc := if Wrap(cases[i].value) == v then Target(g.prog, CaseLabel(c, i)) else t1.pc + 1);
      PathThen(g, m, n1, t1, 1, t2);
      StandsMoved(t1, st, base, t2.pc);
      KeptMoved(m, t1, base, keep, t2.pc);
      if Wrap(cases[i].value) == v {
        n, t := n1 + 1, t2;
      } else {
        var n3;
        n3, t := CaseTestsRun(cases, i + 1, condReg, ctx, c, base, keep, g, t2, st, v);
        PathThen(g, m, n1 + 1, t2, n3, t);
        KeptThen(m, t2, t, base, keep, keep);
        n := n1 + 1 + n3;
      }
    }
  }

  lemma SetsElse(m: State, t: State, pc: nat, r: nat, v: Word, q: nat)
    requires OnlySets(m, t, pc, r, v) && q != r
    ensures Get(t.regs, q) == Get(m.regs, q)
  {
  }

  lemma MatchTest(v: Word, value: int)
    ensures Wrap(v + -value) == Wrap(v - value)
    ensures Wrap(v - value) == 0 <==> Wrap(value) == v
  {
  }

  /** Where the entries of case k lie. */
  lemma {:induction false} BodyPlaced(g: Region, pc: nat, bodies: seq<seq<Asm>>, i: nat, k: nat, endLabel: Label, ctx: Context, c: Counters)
    returns (at: nat)
    requires i <= k < |bodies| && Placed(g, pc, LabelledBodies(bodies, i, endLabel, ctx, c))
    ensures Placed(g, at, LabelledBody(bodies, k, endLabel, ctx, c))
    decreases k - i
  {
    hide Placed, LabelledBody;
    var first := LabelledBody(bodies, i, endLabel, ctx, c);
    PlacedParts(g, pc, first, LabelledBodies(bodies, i + 1, endLabel, ctx, c));
    if i == k {
      at := pc;
    } else {
      at := BodyPlaced(g, pc + |first|, bodies, i + 1, k, endLabel, ctx, c);
    }
  }

  /** Each body was lowered from counters of its own. */
  lemma {:induction false} BodyCode(s: Stmt, i: nat, k: nat, ctx: Context, c: Counters) returns (ck: Counters)
    requires s.Switch? && i <= k < |s.cases|
    ensures CaseBodies(s, i, ctx, c).0[k - i] == StmtCode(s.cases[k].body, ctx, ck).code && c.reg <= ck.reg
    decreases k - i
  {
    hide StmtCode;
    if i == k {
      ck := c;
    } else {
      ck := BodyCode(s, i + 1, k, ctx, StmtCode(s.cases[i].body, ctx, c).next);
    }
  }

  lemma CaseBodyLayout(g: Region, k: nat, waitReg: nat, body: seq<Asm>, endLabel: Label, ctx: Context)
    requires Placed(g, k, CaseBody(waitReg, body, endLabel, ctx))
    ensures var load := AddCode(waitReg, 0, ctx.waitTrigger);
      Placed(g, k, load) && Placed(g, k + |load|, [WaitTrigger(R(waitReg), R(waitReg))]) &&
      Placed(g, k + |load| + 1, body) && Placed(g, k + |load| + 1 + |body|, [Br(endLabel, true, ctx.hirzel)])
  {
    hide Placed, AddCode, Br, WaitTrigger;
    PlacedParts4(g, k, AddCode(waitReg, 0, ctx.waitTrigger), [WaitTrigger(R(waitReg), R(waitReg))], body, [Br(endLabel, true, ctx.hirzel)]);
  }

  lemma WaitEmits(r: nat, regs: Registers, ctx: Context)
    requires Get(regs, r) == Wrap(ctx.waitTrigger)
    ensures IsIo(WaitTrigger(R(r), R(r)).assembler.cmd)
    ensures Emitted(WaitTrigger(R(r), R(r)).assembler, regs) == [WaitEvent(ctx)]
  {
    hide Get, Wrap;
  }

  /** Wait for the trigger, run the body, leave over the end label. */
  lemma {:induction false} CaseBodyRuns(body: Stmt, waitReg: nat, ctx: Context, ck: Counters, endLabel: Label, end: nat, base: nat,
                                        keep: nat, g: Region, m: State, st: Store, fuel: nat)
    returns (n: nat)
    requires Lowerable(body, base) && 0 < base <= keep <= ck.reg && keep <= waitReg && Stands(m, st, base)
    requires Placed(g, m.pc, CaseBody(waitReg, StmtCode(body, ctx, ck).code, endLabel, ctx)) && Placed(g, end, [AsmLabel(endLabel)])
    ensures Shows(g, m, n, end + 1, Exec(body, ctx, st.(trace := st.trace + [WaitEvent(ctx)]), fuel), fuel, base, keep)
    decreases fuel, body, 3, 0
  {
    hide *;
    var load, code := AddCode(waitReg, 0, ctx.waitTrigger), StmtCode(body, ctx, ck).code;
    var wait := WaitTrigger(R(waitReg), R(waitReg));
    var st' := st.(trace := st.trace + [WaitEvent(ctx)]);
    CaseBodyLayout(g, m.pc, waitReg, code, endLabel, ctx);
    var n1, t1 := AddRuns(g, m, waitReg, 0, ctx.waitTrigger, st, base, keep);
    ZeroReads(m.regs);
    WaitEmits(waitReg, t1.regs, ctx);
    var t2 := SendRuns(g, t1, wait, WaitEvent(ctx), st, base, keep);
    PathThen(g, m, n1, t1, 1, t2);
    KeptThen(m, t1, t2, base, keep, keep);
    var n3 := StmtRuns(body, ctx, ck, base, g, t2, st', fuel);
    var o := Exec(body, ctx, st', fuel);
    n3 := ThenJump(g, t2, n3, t2.pc + |code|, endLabel, true, ctx.hirzel, end, o, fuel, base, ck.reg);
    ShowsAfter(g, m, n1 + 1, t2, n3, end + 1, o, fuel, fuel, base, keep, ck.reg);
    n := n1 + 1 + n3;
  }

  /** The numbers a switch takes once its bodies are lowered. */
  datatype SwitchNumbers = SwitchNumbers(cond: LoweredExpr, bodies: seq<seq<Asm>>, ck: Counters, dflt: Lowered, c1: Counters)

  function NumbersOf(s: Stmt, ctx: Context, c: Counters): SwitchNumbers
    requires s.Switch?
  {
    var t := ExprCode(s.cond, ctx, c);
    var bodies := CaseBodies(s, 0, ctx, t.next);
    var dflt := if s.otherwise.Some? then StmtCode(s.otherwise.value, ctx, bodies.1) else Lowered([], bodies.1);
    SwitchNumbers(t, bodies.0, bodies.1, dflt, NextLabels(NextReg(dflt.next), 1))
  }

  function EndLabel(d: SwitchNumbers): Label { Label("end", d.dflt.next.lbl) }
  function DefaultLabel(s: Stmt, d: SwitchNumbers): Label
    requires s.Switch?
  { Label("default", d.c1.lbl + |s.cases|) }

  /** The announcement of the switch. */
  function AnnounceCode(s: Stmt, d: SwitchNumbers): seq<Asm>
    requires s.Switch?
  {
    d.cond.code + [NodeEntry()] + AddCode(d.dflt.next.reg, 0, SwitchCycles(s.cases, s.otherwise)) +
    [StoreTo(R(d.dflt.next.reg), SUSER_TRIGGER_LOAD)]
  }

  function DefaultCode(s: Stmt, ctx: Context, d: SwitchNumbers): seq<Asm>
    requires s.Switch?
  {
    if s.otherwise.Some? then
      [AsmLabel(DefaultLabel(s, d))] + CaseBody(CaseReg(d.c1, |s.cases|), d.dflt.code, EndLabel(d), ctx)
    else []
  }

  function ExitCode(s: Stmt, ctx: Context, d: SwitchNumbers): seq<Asm>
    requires s.Switch?
  {
    [Nop(), Br(if s.otherwise.Some? then DefaultLabel(s, d) else EndLabel(d), false, ctx.hirzel)]
  }

  /** The counters a switch hands on. */
  function SwitchNext(s: Stmt, d: SwitchNumbers): Counters
    requires s.Switch?
  {
    var used := if s.otherwise.Some? then 1 else 0;
    Counters(CaseReg(d.c1, |s.cases|) + used, d.c1.lbl + |s.cases| + used)
  }

  lemma SwitchShape(s: Stmt, ctx: Context, c: Counters)
    requires s.Switch?
    ensures var d := NumbersOf(s, ctx, c);
      |d.bodies| == |s.cases| &&
      StmtCode(s, ctx, c).code ==
        AnnounceCode(s, d) + CaseTests(s.cases, 0, d.cond.reg, ctx, d.c1) + ExitCode(s, ctx, d) +
        LabelledBodies(d.bodies, 0, EndLabel(d), ctx, d.c1) + DefaultCode(s, ctx, d) + [AsmLabel(EndLabel(d))] &&
      d.cond == ExprCode(s.cond, ctx, c) && d.bodies == CaseBodies(s, 0, ctx, d.cond.next).0 &&
      (s.otherwise.Some? ==> d.dflt == StmtCode(s.otherwise.value, ctx, d.ck)) &&
      c.reg <= d.cond.next.reg <= d.ck.reg <= d.dflt.next.reg < d.c1.reg && d.c1.lbl == d.dflt.next.lbl + 1 &&
      d.ck == CaseBodies(s, 0, ctx, d.cond.next).1 && (s.otherwise.None? ==> d.dflt == Lowered([], d.ck)) &&
      StmtCode(s, ctx, c).next == SwitchNext(s, d)
  {
    hide ExprCode, CaseBodies, AddCode, StoreTo, CaseTests, Br, LabelledBodies, CaseBody, AsmLabel, NodeEntry, SwitchCycles;
  }

  lemma SwitchMeaning(s: Stmt, ctx: Context, base: nat, st: Store, fuel: nat)
    requires s.Switch?
    ensures Lowerable(s, base) ==> ExprBelow(s.cond, base) && (s.otherwise.Some? ==> Lowerable(s.otherwise.value, base))
    ensures Lowerable(s, base) ==> forall k :: 0 <= k < |s.cases| ==> Lowerable(s.cases[k].body, base)
    ensures var k := FirstMatch(s.cases, 0, Eval(s.cond, st.regs));
      var st' := st.(trace := st.trace + [AnnounceEvent(s.cases, s.otherwise)]);
      var st'' := st'.(trace := st'.trace + [WaitEvent(ctx)]);
      Exec(s, ctx, st, fuel) ==
        if k < |s.cases| then Exec(s.cases[k].body, ctx, st'', fuel)
        else if s.otherwise.Some? then Exec(s.otherwise.value, ctx, st'', fuel)
        else Done(st')
  {
    hide ExprBelow, Eval;
  }

  lemma SwitchLayout(g: Region, k: nat, s: Stmt, ctx: Context, c: Counters)
    requires s.Switch? && Placed(g, k, StmtCode(s, ctx, c).code)
    ensures var d := NumbersOf(s, ctx, c);
      var a := k + |AnnounceCode(s, d)|; var x := a + |CaseTests(s.cases, 0, d.cond.reg, ctx, d.c1)|;
      |d.bodies| == |s.cases| && var y := x + 2 + |LabelledBodies(d.bodies, 0, EndLabel(d), ctx, d.c1)|; var e := y + |DefaultCode(s, ctx, d)|;
      Placed(g, k, AnnounceCode(s, d)) && Placed(g, a, CaseTests(s.cases, 0, d.cond.reg, ctx, d.c1)) &&
      Placed(g, x, ExitCode(s, ctx, d)) && Placed(g, x + 2, LabelledBodies(d.bodies, 0, EndLabel(d), ctx, d.c1)) &&
      Placed(g, y, DefaultCode(s, ctx, d)) && Placed(g, e, [AsmLabel(EndLabel(d))]) && k + |StmtCode(s, ctx, c).code| == e + 1
  {
    hide Placed, AnnounceCode, CaseTests, LabelledBodies, DefaultCode, AsmLabel, NumbersOf, EndLabel, StmtCode, Br, Nop;
    SwitchShape(s, ctx, c);
    var d := NumbersOf(s, ctx, c);
    var tests, bodies := CaseTests(s.cases, 0, d.cond.reg, ctx, d.c1), LabelledBodies(d.bodies, 0, EndLabel(d), ctx, d.c1);
    PlacedParts3(g, k, AnnounceCode(s, d) + tests + ExitCode(s, ctx, d) + bodies, DefaultCode(s, ctx, d), [AsmLabel(EndLabel(d))]);
    PlacedParts4(g, k, AnnounceCode(s, d), tests, ExitCode(s, ctx, d), bodies);
  }

  lemma AnnounceEmits(s: Stmt, r: nat, regs: Registers)
    requires s.Switch? && Get(regs, r) == Wrap(SwitchCycles(s.cases, s.otherwise))
    ensures IsIo(StoreTo(R(r), SUSER_TRIGGER_LOAD).assembler.cmd)
    ensures Emitted(StoreTo(R(r), SUSER_TRIGGER_LOAD).assembler, regs) == [AnnounceEvent(s.cases, s.otherwise)]
  {
    hide Get, Wrap, SwitchCycles;
  }

  lemma ResultBefore(m: State, t: State, l: LoweredExpr, c: Counters, base: nat, v: Word)
    requires Leaves(m, t, l, c, base, v) && base <= c.reg <= l.next.reg
    ensures l.reg < l.next.reg
  {
  }

  lemma AnnounceRuns(s: Stmt, ctx: Context, c: Counters, base: nat, g: Region, m: State, st: Store) returns (n: nat, t: State)
    requires s.Switch? && ExprBelow(s.cond, base) && 0 < base <= c.reg && Stands(m, st, base)
    requires Placed(g, m.pc, AnnounceCode(s, NumbersOf(s, ctx, c)))
    ensures var d := NumbersOf(s, ctx, c);
      Path(g, m, n, t) && t.pc == m.pc + |AnnounceCode(s, d)| && Kept(m, t, base, c.reg) &&
      Stands(t, st.(trace := st.trace + [AnnounceEvent(s.cases, s.otherwise)]), base) &&
      Get(t.regs, d.cond.reg) == Eval(s.cond, st.regs) && d.cond.reg < d.c1.reg
  {
    hide *;
    var d := NumbersOf(s, ctx, c);
    SwitchShape(s, ctx, c);
    var r, v := d.dflt.next.reg, Eval(s.cond, st.regs);
    var load, store := AddCode(r, 0, SwitchCycles(s.cases, s.otherwise)), StoreTo(R(r), SUSER_TRIGGER_LOAD);
    AnnounceShape(s, d);
    PlacedParts4(g, m.pc, d.cond.code, [NodeEntry()], load, [store]);
    var n1, t1 := ExprRuns(s.cond, ctx, c, base, g, m);
    SameValue(s.cond, m, st, base);
    LeavesStands(m, t1, d.cond, c, st, base, c.reg, v);
    ResultBefore(m, t1, d.cond, c, base, v);
    var n2, t2 := PassNode(g, m, n1, t1, st, base, c.reg);
    var n3, t3 := AddRuns(g, t2, r, 0, SwitchCycles(s.cases, s.otherwise), st, base, c.reg);
    ZeroReads(t2.regs);
    SetsElse(t2, t3, t3.pc, r, Wrap(0 + SwitchCycles(s.cases, s.otherwise)), d.cond.reg);
    PathThen(g, m, n2, t2, n3, t3);
    KeptThen(m, t2, t3, base, c.reg, c.reg);
    AnnounceEmits(s, r, t3.regs);
    t := SendRuns(g, t3, store, AnnounceEvent(s.cases, s.otherwise), st, base, c.reg);
    n := n2 + n3 + 1;
    PathThen(g, m, n2 + n3, t3, 1, t);
    KeptThen(m, t3, t, base, c.reg, c.reg);
  }

  lemma AnnounceShape(s: Stmt, d: SwitchNumbers)
    requires s.Switch?
    ensures AnnounceCode(s, d) ==
      d.cond.code + [NodeEntry()] + AddCode(d.dflt.next.reg, 0, SwitchCycles(s.cases, s.otherwise)) +
      [StoreTo(R(d.dflt.next.reg), SUSER_TRIGGER_LOAD)]
  {
  }

  /** A matching case. */
  lemma {:induction false} CaseRuns(s: Stmt, k: nat, ctx: Context, c: Counters, base: nat, end: nat, pc: nat, g: Region, m: State, st: Store, fuel: nat)
    returns (n: nat)
    requires s.Switch? && k < |s.cases| && Lowerable(s.cases[k].body, base) && 0 < base <= c.reg && Stands(m, st, base)
    requires var d := NumbersOf(s, ctx, c);
      |d.bodies| == |s.cases| && Placed(g, pc, LabelledBodies(d.bodies, 0, EndLabel(d), ctx, d.c1)) &&
      Placed(g, end, [AsmLabel(EndLabel(d))]) && m.pc == Target(g.prog, CaseLabel(d.c1, k))
    ensures Shows(g, m, n, end + 1, Exec(s.cases[k].body, ctx, st.(trace := st.trace + [WaitEvent(ctx)]), fuel), fuel, base, c.reg)
    decreases fuel, s, 0, 0
  {
    hide *;
    SwitchShape(s, ctx, c);
    var d := NumbersOf(s, ctx, c);
    var endLabel, own, waitReg := EndLabel(d), CaseLabel(d.c1, k), CaseReg(d.c1, k) + 1;
    var at := BodyPlaced(g, pc, d.bodies, 0, k, endLabel, ctx, d.c1);
    var ck := BodyCode(s, 0, k, ctx, d.cond.next);
    var body := CaseBody(waitReg, d.bodies[k], endLabel, ctx);
    LabelledShape(d.bodies, k, endLabel, ctx, d.c1);
    PlacedParts(g, at, [AsmLabel(own)], body);
    LabelPlace(g, at, own);
    PathNone(g, m);
    KeptSelf(m, m.pc, base, c.reg);
    var n1, t1 := PassLabel(g, m, 0, m, own, st, base, c.reg);
    var n2 := CaseBodyRuns(s.cases[k].body, waitReg, ctx, ck, endLabel, end, base, c.reg, g, t1, st, fuel);
    ShowsAfter(g, m, n1, t1, n2, end + 1, Exec(s.cases[k].body, ctx, st.(trace := st.trace + [WaitEvent(ctx)]), fuel),
               fuel, fuel, base, c.reg, c.reg);
    n := n1 + n2;
  }

  lemma LabelledShape(bodies: seq<seq<Asm>>, k: nat, endLabel: Label, ctx: Context, c: Counters)
    requires k < |bodies|
    ensures LabelledBody(bodies, k, endLabel, ctx, c) == [AsmLabel(CaseLabel(c, k))] + CaseBody(CaseReg(c, k) + 1, bodies[k], endLabel, ctx)
    ensures CaseReg(c, k) >= c.reg
  {
  }

  /** The default. */
  lemma {:induction false} DefaultRuns(s: Stmt, ctx: Context, c: Counters, base: nat, end: nat, pc: nat, g: Region, m: State, st: Store, fuel: nat)
    returns (n: nat)
    requires s.Switch? && s.otherwise.Some? && Lowerable(s.otherwise.value, base) && 0 < base <= c.reg && Stands(m, st, base)
    requires var d := NumbersOf(s, ctx, c);
      Placed(g, pc, DefaultCode(s, ctx, d)) && Placed(g, end, [AsmLabel(EndLabel(d))]) && m.pc == Target(g.prog, DefaultLabel(s, d))
    ensures Shows(g, m, n, end + 1, Exec(s.otherwise.value, ctx, st.(trace := st.trace + [WaitEvent(ctx)]), fuel), fuel, base, c.reg)
    decreases fuel, s, 0, 0
  {
    hide *;
    SwitchShape(s, ctx, c);
    var d := NumbersOf(s, ctx, c);
    var endLabel, own, waitReg := EndLabel(d), DefaultLabel(s, d), CaseReg(d.c1, |s.cases|);
    DefaultShape(s, ctx, d);
    PlacedParts(g, pc, [AsmLabel(own)], CaseBody(waitReg, d.dflt.code, endLabel, ctx));
    LabelPlace(g, pc, own);
    PathNone(g, m);
    KeptSelf(m, m.pc, base, c.reg);
    var n1, t1 := PassLabel(g, m, 0, m, own, st, base, c.reg);
    var n2 := CaseBodyRuns(s.otherwise.value, waitReg, ctx, d.ck, endLabel, end, base, c.reg, g, t1, st, fuel);
    ShowsAfter(g, m, n1, t1, n2, end + 1, Exec(s.otherwise.value, ctx, st.(trace := st.trace + [WaitEvent(ctx)]), fuel),
               fuel, fuel, base, c.reg, c.reg);
    n := n1 + n2;
  }

  lemma DefaultShape(s: Stmt, ctx: Context, d: SwitchNumbers)
    requires s.Switch? && s.otherwise.Some?
    ensures DefaultCode(s, ctx, d) ==
      [AsmLabel(DefaultLabel(s, d))] + CaseBody(CaseReg(d.c1, |s.cases|), d.dflt.code, EndLabel(d), ctx)
    ensures CaseReg(d.c1, |s.cases|) >= d.c1.reg
  {
  }

  lemma PassNop(g: Region, m: State, t: State, n: nat, l: Label, ctx: Context, st: Store, base: nat, keep: nat) returns (n': nat, t': State)
    requires Path(g, m, n, t) && Placed(g, t.pc, [Nop(), Br(l, false, ctx.hirzel)]) && Stands(t, st, base) && Kept(m, t, base, keep)
    ensures Path(g, m, n', t') && t'.pc == Target(g.prog, l) && Stands(t', st, base) && Kept(m, t', base, keep)
  {
    hide Path, Placed, Stands, Kept, Br, Target;
    PlacedPair(g, t.pc, Nop(), Br(l, false, ctx.hirzel));
    SilentPath(g, t, Nop());
    PathThen(g, m, n, t, 1, t.(pc := t.pc + 1));
    JumpPath(g, t.(pc := t.pc + 1), l, false, ctx.hirzel);
    n', t' := n + 2, t.(pc := Target(g.prog, l));
    PathThen(g, m, n + 1, t.(pc := t.pc + 1), 1, t');
    StandsMoved(t, st, base, t'.pc);
    KeptMoved(m, t, base, keep, t'.pc);
  }

  lemma ExitShape(s: Stmt, ctx: Context, d: SwitchNumbers)
    requires s.Switch?
    ensures ExitCode(s, ctx, d) == [Nop(), Br(if s.otherwise.Some? then DefaultLabel(s, d) else EndLabel(d), false, ctx.hirzel)]
  {
  }

  /** `switch`: exactly the body of the first case equal modulo 2^32, else the default, else
      nothing; every path leaves over the end label. */
  lemma {:induction false} SwitchRuns(s: Stmt, ctx: Context, c: Counters, base: nat, g: Region, m: State, st: Store, fuel: nat)
    returns (n: nat)
    requires s.Switch? && Lowerable(s, base) && 0 < base <= c.reg && Placed(g, m.pc, StmtCode(s, ctx, c).code) && Stands(m, st, base)
    ensures Shows(g, m, n, m.pc + |StmtCode(s, ctx, c).code|, Exec(s, ctx, st, fuel), fuel, base, c.reg)
    decreases fuel, s, 1, 0
  {
    hide *;
    var d := NumbersOf(s, ctx, c);
    SwitchShape(s, ctx, c);
    SwitchMeaning(s, ctx, base, st, fuel);
    SwitchLayout(g, m.pc, s, ctx, c);
    ExitShape(s, ctx, d);
    var v, k := Eval(s.cond, st.regs), FirstMatch(s.cases, 0, Eval(s.cond, st.regs));
    var st' := st.(trace := st.trace + [AnnounceEvent(s.cases, s.otherwise)]);
    var end := m.pc + |StmtCode(s, ctx, c).code| - 1;
    var o := Exec(s, ctx, st, fuel);
    var n1, t1 := AnnounceRuns(s, ctx, c, base, g, m, st);
    var n2, t2 := CaseTestsRun(s.cases, 0, d.cond.reg, ctx, d.c1, base, c.reg, g, t1, st', v);
    PathThen(g, m, n1, t1, n2, t2);
    KeptThen(m, t1, t2, base, c.reg, c.reg);
    var x := t1.pc + |CaseTests(s.cases, 0, d.cond.reg, ctx, d.c1)|;
    if k < |s.cases| {
      var n3 := CaseRuns(s, k, ctx, c, base, end, x + 2, g, t2, st', fuel);
      ShowsAfter(g, m, n1 + n2, t2, n3, end + 1, o, fuel, fuel, base, c.reg, c.reg);
      n := n1 + n2 + n3;
    } else {
      var exit := if s.otherwise.Some? then DefaultLabel(s, d) else EndLabel(d);
      var n3, t3 := PassNop(g, m, t2, n1 + n2, exit, ctx, st', base, c.reg);
      if s.otherwise.Some? {
        var n4 := DefaultRuns(s, ctx, c, base, end, end - |DefaultCode(s, ctx, d)|, g, t3, st', fuel);
        ShowsAfter(g, m, n3, t3, n4, end + 1, o, fuel, fuel, base, c.reg, c.reg);
        n := n3 + n4;
      } else {
        LabelPlace(g, end, EndLabel(d));
        LeaveAtLabel(g, m, n3, t3, EndLabel(d), st', fuel, base, c.reg);
        n := n3 + 1;
      }
    }
  }
}
