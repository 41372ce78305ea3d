/** Labels of lowered code: each number used once, every branch landing inside its own
    fragment, and loops entered at their head only. */
module LoweredFragments {
  import opened Instructions
  import opened Machine
  import opened LiveRanges
  import opened JumpsAndLabels
  import opened DeadCode
  import opened AsmCommands
  import opened SourceLanguage
  import opened Lowering
  import opened Fragments
  import opened Outcomes
  import opened StatementLowering

  predicate Between(lo: nat, k: nat, hi: nat) { lo <= k < hi }

  function Numbers(lo: nat, hi: nat): set<nat> { set k: nat | k < hi && Between(lo, k, hi) }

  /** A fragment of its own, with the label numbers from lo to hi. */
  ghost predicate Tidy(code: seq<Asm>, lo: nat, hi: nat) {
    lo <= hi && Fragment(code, Numbers(lo, hi), {})
  }

  // ----- Building up code from left to right -----

  lemma ThenPlain(a: seq<Asm>, A: set<nat>, x: set<Label>, b: seq<Asm>)
    requires Fragment(a, A, x) && Plain(b)
    ensures Fragment(a + b, A, x)
  {
    hide Fragment, Plain, NoLoops;
    PlainFragment(b);
    Joined(a, A, x, b, {}, {});
    assert A + {} == A && x + {} == x;
  }

  lemma ThenTidy(a: seq<Asm>, A: set<nat>, x: set<Label>, b: seq<Asm>, lo: nat, hi: nat)
    requires Fragment(a, A, x) && Tidy(b, lo, hi) && A !! Numbers(lo, hi) && Foreign(x, Numbers(lo, hi))
    ensures Fragment(a + b, A + Numbers(lo, hi), x)
  {
    hide Fragment;
    Joined(a, A, x, b, Numbers(lo, hi), {});
    assert x + {} == x;
  }

  lemma ThenOwnLabel(a: seq<Asm>, A: set<nat>, x: set<Label>, l: Label)
    requires Fragment(a, A, x) && l.Label? && l.number !in A
    ensures Fragment(a + [AsmLabel(l)], A + {l.number}, x - {l})
  {
    hide Fragment, NoLoops, Defined;
    LabelFragment(AsmLabel(l), l);
    Joined(a, A, x, [AsmLabel(l)], {l.number}, {});
    DefinedSum(a, [AsmLabel(l)], l);
    Widened(a + [AsmLabel(l)], A + {l.number}, x + {}, A + {l.number}, x - {l});
  }

  lemma ThenBranch(a: seq<Asm>, A: set<nat>, x: set<Label>, e: Asm, l: Label)
    requires Fragment(a, A, x) && l.Label? && l.number !in A && IsBranch(e.assembler.cmd) && e.assembler.lbl == l
    ensures Fragment(a + [e], A, x + {l})
  {
    hide Fragment, NoLoops;
    BranchFragment(e, l);
    Joined(a, A, x, [e], {}, {l});
    assert A + {} == A;
  }

  lemma StartLabel(l: Label)
    requires l.Label?
    ensures Fragment([AsmLabel(l)], {l.number}, {})
  {
    LabelFragment(AsmLabel(l), l);
  }

  lemma MakeTidy(code: seq<Asm>, A: set<nat>, x: set<Label>, lo: nat, hi: nat)
    requires Fragment(code, A, x) && A <= Numbers(lo, hi) && x == {} && lo <= hi
    ensures Tidy(code, lo, hi)
  {
    hide Fragment;
    Widened(code, A, x, Numbers(lo, hi), {});
  }

  lemma PlainTidy(code: seq<Asm>, lo: nat, hi: nat)
    requires Plain(code) && lo <= hi
    ensures Tidy(code, lo, hi)
  {
    hide Fragment;
    PlainFragment(code);
    MakeTidy(code, {}, {}, lo, hi);
  }

  lemma NothingTidy(lbl: nat)
    ensures Tidy([], lbl, lbl)
  {
    hide Tidy;
    PlainTidy([], lbl, lbl);
  }

  lemma AddPlain(dst: nat, src: nat, imm: int)
    ensures Plain(AddCode(dst, src, imm))
  {
    hide Low, Upper, FitsDirectly;
  }

  lemma CopyPlain(dst: nat, v: TestValue)
    ensures Plain(CopyCode(dst, v))
  {
    hide AddCode;
    match v
    case NoValue =>
    case ConstValue(k) => AddPlain(dst, 0, k);
    case RegValue(r) => AddPlain(dst, r, 0);
  }

  lemma PlainSum(a: seq<Asm>, b: seq<Asm>)
    requires Plain(a) && Plain(b)
    ensures Plain(a + b)
  {
  }

  // ----- Expressions -----

  lemma {:induction false} ExprTidy(e: Expr, ctx: Context, c: Counters)
    ensures Tidy(ExprCode(e, ctx, c).code, c.lbl, ExprCode(e, ctx, c).next.lbl)
    decreases e, 1
  {
    hide Fragment, AddCode, NotCode, Plain, CopyCode, Br, Brz;
    match e
    case Var(_) => NothingTidy(c.lbl);
    case AddVar(l, r) => BinaryTidy(e, l, r, Add(ExprCode(e, ctx, c).reg, ExprCode(r, ctx, ExprCode(l, ctx, c).next).reg), ctx, c);
    case SubVar(l, r) => BinaryTidy(e, l, r, Sub(ExprCode(e, ctx, c).reg, ExprCode(r, ctx, ExprCode(l, ctx, c).next).reg), ctx, c);
    case AddConst(l, imm) => UnaryTidy(l, imm, ctx, c);
    case SubConst(l, imm) => UnaryTidy(l, -imm, ctx, c);
    case ConstSub(imm, r) => TailTidy(r, AddCode(ExprCode(e, ctx, c).reg, 0, imm), Sub(ExprCode(e, ctx, c).reg, ExprCode(r, ctx, c).reg), ctx, c) by {
      AddPlain(ExprCode(e, ctx, c).reg, 0, imm);
    }
    case Neg(a) => TailTidy(a, [SetTo(ExprCode(e, ctx, c).reg, 0)], Sub(ExprCode(e, ctx, c).reg, ExprCode(a, ctx, c).reg), ctx, c) by {
      SetPlain(ExprCode(e, ctx, c).reg, 0);
    }
    case Inv(a) =>
      var load := AddCode(ExprCode(e, ctx, c).reg, 0, -1);
      var sub := Sub(ExprCode(e, ctx, c).reg, ExprCode(a, ctx, c).reg);
      AddPlain(ExprCode(e, ctx, c).reg, 0, -1);
      PlainSum(load, load);
      TailTidy(a, load + load, sub, ctx, c);
      assert ExprCode(a, ctx, c).code + load + load + [sub] == ExprCode(a, ctx, c).code + (load + load) + [sub];
    case Not(a) =>
      ExprTidy(a, ctx, c);
      NotTidy(a, ctx, c);
    case Choose(_, _, _) => ChooseTidy(e, ctx, c);
  }

  lemma SetPlain(dst: nat, imm: int)
    ensures Plain([SetTo(dst, imm)])
  {
  }

  lemma {:induction false} UnaryTidy(l: Expr, imm: int, ctx: Context, c: Counters)
    ensures var a := ExprCode(l, ctx, c); Tidy(a.code + AddCode(a.next.reg, a.reg, imm), c.lbl, a.next.lbl)
    decreases l, 2
  {
    hide Fragment, AddCode, Plain, ExprCode;
    var a := ExprCode(l, ctx, c);
    ExprTidy(l, ctx, c);
    AddPlain(a.next.reg, a.reg, imm);
    ThenPlain(a.code, Numbers(c.lbl, a.next.lbl), {}, AddCode(a.next.reg, a.reg, imm));
  }

  lemma {:induction false} TailTidy(sub: Expr, load: seq<Asm>, last: Asm, ctx: Context, c: Counters)
    requires Plain(load) && GetCmdType(last.assembler.cmd) == 7
    ensures Tidy(ExprCode(sub, ctx, c).code + load + [last], c.lbl, ExprCode(sub, ctx, c).next.lbl)
    decreases sub, 2
  {
    hide Fragment, ExprCode;
    var a := ExprCode(sub, ctx, c);
    ExprTidy(sub, ctx, c);
    ThenPlain(a.code, Numbers(c.lbl, a.next.lbl), {}, load);
    ThenPlain(a.code + load, Numbers(c.lbl, a.next.lbl), {}, [last]);
  }

  lemma {:induction false} BinaryTidy(e: Expr, l: Expr, r: Expr, last: Asm, ctx: Context, c: Counters)
    requires GetCmdType(last.assembler.cmd) == 7 && e in {AddVar(l, r), SubVar(l, r)}
    ensures var a := ExprCode(l, ctx, c); var b := ExprCode(r, ctx, a.next);
      Tidy(a.code + b.code + AddCode(b.next.reg, a.reg, 0) + [last], c.lbl, b.next.lbl)
    decreases e, 0
  {
    hide Fragment, ExprCode, AddCode;
    var a := ExprCode(l, ctx, c);
    var b := ExprCode(r, ctx, a.next);
    ExprTidy(l, ctx, c);
    ExprTidy(r, ctx, a.next);
    var A, B := Numbers(c.lbl, a.next.lbl), Numbers(a.next.lbl, b.next.lbl);
    ThenTidy(a.code, A, {}, b.code, a.next.lbl, b.next.lbl);
    AddPlain(b.next.reg, a.reg, 0);
    ThenPlain(a.code + b.code, A + B, {}, AddCode(b.next.reg, a.reg, 0));
    ThenPlain(a.code + b.code + AddCode(b.next.reg, a.reg, 0), A + B, {}, [last]);
    MakeTidy(a.code + b.code + AddCode(b.next.reg, a.reg, 0) + [last], A + B, {}, c.lbl, b.next.lbl);
  }

  lemma NotTidy(e: Expr, ctx: Context, c: Counters)
    requires Tidy(ExprCode(e, ctx, c).code, c.lbl, ExprCode(e, ctx, c).next.lbl)
    ensures var a := ExprCode(e, ctx, c);
      Tidy(a.code + NotCode(a.next.reg, a.reg, a.next.lbl, ctx), c.lbl, a.next.lbl + 2)
  {
    hide Fragment, ExprCode;
    var a := ExprCode(e, ctx, c);
    var k := a.next.lbl;
    var nzero, end := Label("nzero", k), Label("end", k + 1);
    var code := NotCode(a.next.reg, a.reg, k, ctx);
    var A := Numbers(c.lbl, k);
    var s := a.code;
    ThenPlain(s, A, {}, [code[0]]);
    s := s + [code[0]];
    ThenBranch(s, A, {}, code[1], nzero);
    s := s + [code[1]];
    ThenBranch(s, A, {} + {nzero}, code[2], end);
    s := s + [code[2]];
    var x := {} + {nzero} + {end};
    ThenOwnLabel(s, A, x, nzero);
    s := s + [code[3]];
    A, x := A + {k}, x - {nzero};
    ThenPlain(s, A, x, [code[4]]);
    s := s + [code[4]];
    ThenOwnLabel(s, A, x, end);
    s := s + [code[5]];
    assert s == a.code + code;
    MakeTidy(s, A + {k + 1}, x - {end}, c.lbl, k + 2);
  }

  lemma {:induction false} OperandTidy(v: Operand, ctx: Context, c: Counters)
    ensures Tidy(OperandCode(v, ctx, c).code, c.lbl, OperandCode(v, ctx, c).next.lbl)
    decreases v, 1
  {
    hide Fragment;
    match v
    case Constant(_) => NothingTidy(c.lbl);
    case Runtime(e) => ExprTidy(e, ctx, c);
  }

  lemma {:induction false} ChooseTidy(e: Expr, ctx: Context, c: Counters)
    requires e.Choose?
    ensures Tidy(ExprCode(e, ctx, c).code, c.lbl, ExprCode(e, ctx, c).next.lbl)
    decreases e, 0
  {
    hide Fragment, OperandCode, CopyCode, AddCode, Br, Brz;
    var l, t := ExprCode(e, ctx, c), ExprCode(e.cond, ctx, c);
    ExprTidy(e.cond, ctx, c);
    var c1 := NextLabels(t.next, 2);
    var a := OperandCode(e.thn, ctx, c1);
    OperandTidy(e.thn, ctx, c1);
    var b := OperandCode(e.els, ctx, a.next);
    OperandTidy(e.els, ctx, a.next);
    var n := b.next.reg;
    CopyPlain(n, a.value);
    CopyPlain(n, b.value);
    var els, end := Label("else", t.next.lbl), Label("end", t.next.lbl + 1);
    var brz, br := Brz(R(t.reg), els, false, ctx.hirzel), Br(end, false, ctx.hirzel);
    var s := TwoArms(t.code, c.lbl, t.next.lbl, [NodeEntry()], brz, els, [], a.code, CopyCode(n, a.value), c1.lbl, a.next.lbl,
                     br, end, b.code, CopyCode(n, b.value), b.next.lbl) by {
      BranchesNamed(ctx, R(t.reg), els);
      BranchesNamed(ctx, R(0), end);
    }
    assert l.code == s by {
      assert t.code + [NodeEntry()] + [brz] + [] == t.code + [NodeEntry(), brz];
      assert a.code + CopyCode(n, a.value) + [br] + [AsmLabel(els)] == (a.code + CopyCode(n, a.value)) + [br, AsmLabel(els)];
    }
  }

  lemma BranchesNamed(ctx: Context, reg: Register, l: Label)
    ensures var brz, br := Brz(reg, l, false, ctx.hirzel), Br(l, false, ctx.hirzel);
      IsBranch(brz.assembler.cmd) && brz.assembler.lbl == l && IsBranch(br.assembler.cmd) && br.assembler.lbl == l
  {
  }

  /** Test, first arm, jump to the end, else label, second arm, end label. */
  lemma TwoArms(t: seq<Asm>, lo: nat, k: nat, node: seq<Asm>, brz: Asm, els: Label, first: seq<Asm>, a: seq<Asm>, copyA: seq<Asm>,
                loA: nat, hiA: nat, br: Asm, end: Label, b: seq<Asm>, copyB: seq<Asm>, hiB: nat)
    returns (s: seq<Asm>)
    requires Tidy(t, lo, k) && Tidy(a, loA, hiA) && Tidy(b, hiA, hiB) && Plain(node) && Plain(copyA) && Plain(copyB)
    requires IsBranch(brz.assembler.cmd) && brz.assembler.lbl == els && IsBranch(br.assembler.cmd) && br.assembler.lbl == end
    requires els.Label? && end.Label? && k <= els.number < end.number < loA
    requires first == [] || (k < els.number && first == [AsmLabel(Label("if", k))])
    ensures s == t + node + [brz] + first + a + copyA + [br] + [AsmLabel(els)] + b + copyB + [AsmLabel(end)]
    ensures Tidy(s, lo, hiB)
  {
    hide Fragment;
    var A := Numbers(lo, k);
    ThenPlain(t, A, {}, node);
    s := t + node;
    ThenBranch(s, A, {}, brz, els);
    s := s + [brz];
    var x := {} + {els};
    if first == [] {
      assert s + first == s;
    } else {
      ThenOwnLabel(s, A, x, Label("if", k));
      A := A + {k};
      x := x - {Label("if", k)};
      assert x == {els};
    }
    s := s + first;
    ThenTidy(s, A, x, a, loA, hiA);
    A := A + Numbers(loA, hiA);
    s := s + a;
    ThenPlain(s, A, x, copyA);
    s := s + copyA;
    ThenBranch(s, A, x, br, end);
    x := x + {end};
    s := s + [br];
    ThenOwnLabel(s, A, x, els);
    A, x := A + {els.number}, x - {els};
    assert x == {end};
    s := s + [AsmLabel(els)];
    ThenTidy(s, A, x, b, hiA, hiB);
    A := A + Numbers(hiA, hiB);
    s := s + b;
    ThenPlain(s, A, x, copyB);
    s := s + copyB;
    ThenOwnLabel(s, A, x, end);
    s := s + [AsmLabel(end)];
    MakeTidy(s, A + {end.number}, x - {end}, lo, hiB);
  }

  // ----- Statements -----

  lemma TidyWider(code: seq<Asm>, lo: nat, hi: nat, lo': nat, hi': nat)
    requires Tidy(code, lo, hi) && lo' <= lo && hi <= hi'
    ensures Tidy(code, lo', hi')
  {
    hide Fragment;
    MakeTidy(code, Numbers(lo, hi), {}, lo', hi');
  }

  lemma TidySum(a: seq<Asm>, b: seq<Asm>, lo: nat, mid: nat, hi: nat)
    requires Tidy(a, lo, mid) && Tidy(b, mid, hi)
    ensures Tidy(a + b, lo, hi)
  {
    hide Fragment;
    ThenTidy(a, Numbers(lo, mid), {}, b, mid, hi);
    MakeTidy(a + b, Numbers(lo, mid) + Numbers(mid, hi), {}, lo, hi);
  }

  /** A loop: head label, inside, branch back to the head. */
  lemma HeadClosed(head: Label, inner: seq<Asm>, A: set<nat>, x: set<Label>, e: Asm)
    requires Fragment(inner, A, x) && head.Label? && head.number !in A && Foreign(x, {head.number})
    requires IsBranch(e.assembler.cmd) && e.assembler.lbl == head
    ensures Fragment([AsmLabel(head)] + inner + [e], {head.number} + A, x)
  {
    hide Fragment, NoLoops;
    var first := [AsmLabel(head)];
    StartLabel(head);
    Joined(first, {head.number}, {}, inner, A, x);
    assert {} + x == x && head !in x;
    NeverNames(inner, A, x, head);
    forall j: nat | BranchEntry(first + inner, j) ensures LabelAt(first + inner, j) != head {
      EntriesOfSum(first, inner, j);
    }
    EntriesOfSum(first, inner, 0);
    LoopClosed(first + inner, {head.number} + A, x, e, head);
  }

  /** While and for. */
  lemma LoopTidy(head: Label, guard: seq<Asm>, G: set<nat>, exit: Label, mid: seq<Asm>, m: nat, round: seq<Asm>, B: set<nat>, e: Asm)
    requires head.Label? && exit.Label? && head.number != exit.number && {head.number, exit.number} !! (G + {m} + B)
    requires Fragment(guard, G, {exit}) && Fragment(mid, {m}, {}) && Fragment(round, B, {}) && G !! {m} && G !! B && m !in B
    requires IsBranch(e.assembler.cmd) && e.assembler.lbl == head
    ensures Fragment([AsmLabel(head)] + guard + mid + round + [e] + [AsmLabel(exit)],
                     {head.number} + (G + {m} + B) + {exit.number}, {exit} - {exit})
  {
    hide Fragment, NoLoops;
    Joined(guard, G, {exit}, mid, {m}, {});
    assert {exit} + {} == {exit};
    Joined(guard + mid, G + {m}, {exit}, round, B, {});
    HeadClosed(head, guard + mid + round, G + {m} + B, {exit}, e);
    assert [AsmLabel(head)] + (guard + mid + round) + [e] == [AsmLabel(head)] + guard + mid + round + [e];
    ThenOwnLabel([AsmLabel(head)] + guard + mid + round + [e], {head.number} + (G + {m} + B), {exit}, exit);
  }

  lemma GuardFragment(test: Option<Operand>, exit: Label, ctx: Context, c: Counters)
    requires exit.Label? && exit.number !in Numbers(c.lbl, TestCode(test, ctx, c).next.lbl)
    ensures Fragment(GuardCode(test, exit, ctx, c), Numbers(c.lbl, TestCode(test, ctx, c).next.lbl), {exit})
  {
    hide Fragment, OperandCode, Br, Brz;
    var t := TestCode(test, ctx, c);
    if test.None? { NothingTidy(c.lbl); } else { OperandTidy(test.value, ctx, c); }
    var A := Numbers(c.lbl, t.next.lbl);
    var jump := JumpIfZero(t.value, exit, ctx);
    if jump == [] {
      assert t.code + jump == t.code;
      Widened(t.code, A, {}, A, {exit});
    } else {
      BranchesNamed(ctx, if t.value.RegValue? then R(t.value.reg) else R(0), exit);
      ThenBranch(t.code, A, {}, jump[0], exit);
      assert {} + {exit} == {exit} && jump == [jump[0]];
    }
  }

  lemma NodeLabelFragment(l: Label)
    requires l.Label?
    ensures Fragment([NodeEntry(), AsmLabel(l)], {l.number}, {}) && Fragment([AsmLabel(l), NodeEntry()], {l.number}, {})
  {
    hide Fragment;
    assert Plain([NodeEntry()]);
    PlainFragment([NodeEntry()]);
    ThenOwnLabel([NodeEntry()], {}, {}, l);
    assert [NodeEntry()] + [AsmLabel(l)] == [NodeEntry(), AsmLabel(l)] && {} + {l.number} == {l.number} && {} - {l} == {};
    StartLabel(l);
    ThenPlain([AsmLabel(l)], {l.number}, {}, [NodeEntry()]);
    assert [AsmLabel(l)] + [NodeEntry()] == [AsmLabel(l), NodeEntry()];
  }

  /** What the lowering of s leaves behind has label numbers of its own. */
  ghost predicate OwnLabels(s: Stmt, ctx: Context, c: Counters) {
    Tidy(StmtCode(s, ctx, c).code, c.lbl, StmtCode(s, ctx, c).next.lbl)
  }

  const NOWHERE: Store := Store(map[], [])

  /** Main result on labels: the numbers from c.lbl on, each used once; every branch lands
      inside; loops are entered at their head only. */
  lemma {:induction false} StmtTidy(s: Stmt, ctx: Context, c: Counters, base: nat)
    requires Lowerable(s, base)
    ensures OwnLabels(s, ctx, c)
    decreases s, 3, 0
  {
    hide *;
    match s
    case Block(stmts) =>
      BlockShape(s, ctx, c, base, NOWHERE, 0);
      BlockTidy(stmts, ctx, c, base);
      OwnLabelsIntro(s, ctx, c);
    case Assign(_, _) => StraightTidy(s, ctx, c, base);
    case PreStep(_, _) => StraightTidy(s, ctx, c, base);
    case PostStep(_, _) => StraightTidy(s, ctx, c, base);
    case Command(_) => StraightTidy(s, ctx, c, base);
    case If(_, _) => IfTidy(s, ctx, c, base);
    case IfElse(_, _, _) => IfElseTidy(s, ctx, c, base);
    case While(_, _) => WhileTidy(s, ctx, c, base);
    case For(_, _, _, _) => ForTidy(s, ctx, c, base);
    case DoWhile(_, _) => DoWhileTidy(s, ctx, c, base);
    case RepeatVar(_, _) => RepeatVarTidy(s, ctx, c, base);
    case RepeatConst(_, _) => RepeatConstTidy(s, ctx, c, base);
    case Switch(_, _, _) => SwitchTidy(s, ctx, c, base);
  }

  lemma OwnLabelsIntro(s: Stmt, ctx: Context, c: Counters)
    requires Tidy(StmtCode(s, ctx, c).code, c.lbl, StmtCode(s, ctx, c).next.lbl)
    ensures OwnLabels(s, ctx, c)
  {
  }

  lemma StraightTidy(s: Stmt, ctx: Context, c: Counters, base: nat)
    requires Lowerable(s, base) && (s.Assign? || s.PreStep? || s.PostStep? || s.Command?)
    ensures OwnLabels(s, ctx, c)
  {
    hide Tidy, OperandCode, CopyCode, AddCode, Emitted;
    match s
    case Assign(x, v) =>
      var l := OperandCode(v, ctx, c);
      OperandTidy(v, ctx, c);
      CopyPlain(x, l.value);
      PlainAfter(l.code, CopyCode(x, l.value), [NodeEntry()], c.lbl, l.next.lbl);
    case PreStep(x, d) =>
      AddPlain(x, x, d);
      PlainTidy(AddCode(x, x, d), c.lbl, c.lbl);
    case PostStep(x, d) =>
      AddPlain(c.reg, x, 0);
      AddPlain(x, x, d);
      PlainSum(AddCode(c.reg, x, 0), AddCode(x, x, d));
      PlainTidy(AddCode(c.reg, x, 0) + AddCode(x, x, d), c.lbl, c.lbl);
    case Command(a) => PlainTidy([Asm(a, false)], c.lbl, c.lbl);
  }

  lemma PlainAfter(a: seq<Asm>, b: seq<Asm>, b': seq<Asm>, lo: nat, hi: nat)
    requires Tidy(a, lo, hi) && Plain(b) && Plain(b')
    ensures Tidy(a + b + b', lo, hi)
  {
    hide Fragment;
    ThenPlain(a, Numbers(lo, hi), {}, b);
    ThenPlain(a + b, Numbers(lo, hi), {}, b');
  }

  lemma {:induction false} BlockTidy(stmts: seq<Stmt>, ctx: Context, c: Counters, base: nat)
    requires AllLowerable(stmts, base)
    ensures Tidy(BlockCode(stmts, ctx, c).code, c.lbl, BlockCode(stmts, ctx, c).next.lbl)
    decreases stmts, 0, 0
  {
    hide Tidy, AllLowerable, StmtCode, BlockCode, Lowerable;
    if stmts == [] {
      BlockEnd(ctx, c, NOWHERE, 0);
      NothingTidy(c.lbl);
    } else {
      BlockStep(stmts, ctx, c, base, NOWHERE, 0);
      var a := StmtCode(stmts[0], ctx, c);
      var b := BlockCode(stmts[1..], ctx, a.next);
      StmtTidy(stmts[0], ctx, c, base);
      BlockTidy(stmts[1..], ctx, a.next, base);
      TidySum(a.code, b.code, c.lbl, a.next.lbl, b.next.lbl);
    }
  }

  lemma {:induction false} IfTidy(s: Stmt, ctx: Context, c: Counters, base: nat)
    requires s.If? && Lowerable(s, base)
    ensures OwnLabels(s, ctx, c)
    decreases s, 2, 0
  {
    hide Fragment, StmtCode, ExprCode, Lowerable, ExprBelow, Br, Brz, Exec, Eval;
    var c1 := NextLabels(c, 1);
    var t := ExprCode(s.cond, ctx, c1);
    var c2 := NextLabels(t.next, 1);
    var b := StmtCode(s.body, ctx, c2);
    IfShape(s, ctx, c, base, NOWHERE, 0);
    ExprTidy(s.cond, ctx, c1);
    StmtTidy(s.body, ctx, c2, base);
    var end, own := Label("end", c.lbl), Label("if", t.next.lbl);
    var brz := Brz(R(t.reg), end, false, ctx.hirzel);
    BranchesNamed(ctx, R(t.reg), end);
    var A := Numbers(c1.lbl, t.next.lbl);
    ThenPlain(t.code, A, {}, [NodeEntry()]);
    ThenBranch(t.code + [NodeEntry()], A, {}, brz, end);
    var s1 := t.code + [NodeEntry()] + [brz];
    var x := {} + {end};
    ThenOwnLabel(s1, A, x, own);
    var s2, x2 := s1 + [AsmLabel(own)], x - {own};
    ThenTidy(s2, A + {own.number}, x2, b.code, c2.lbl, b.next.lbl);
    var B := A + {own.number} + Numbers(c2.lbl, b.next.lbl);
    ThenOwnLabel(s2 + b.code, B, x2, end);
    assert StmtCode(s, ctx, c).code == s2 + b.code + [AsmLabel(end)];
    MakeTidy(s2 + b.code + [AsmLabel(end)], B + {end.number}, x2 - {end}, c.lbl, b.next.lbl);
  }

  lemma {:induction false} IfElseTidy(s: Stmt, ctx: Context, c: Counters, base: nat)
    requires s.IfElse? && Lowerable(s, base)
    ensures OwnLabels(s, ctx, c)
    decreases s, 2, 0
  {
    hide Fragment, Tidy, StmtCode, ExprCode, Lowerable, ExprBelow, Br, Brz, Exec, Eval;
    var t := ExprCode(s.cond, ctx, c);
    var c1 := NextLabels(t.next, 3);
    var a := StmtCode(s.thn, ctx, c1);
    var b := StmtCode(s.els, ctx, a.next);
    IfElseShape(s, ctx, c, base, NOWHERE, 0);
    ExprTidy(s.cond, ctx, c);
    StmtTidy(s.thn, ctx, c1, base);
    StmtTidy(s.els, ctx, a.next, base);
    var own, els, end := Label("if", t.next.lbl), Label("else", t.next.lbl + 1), Label("end", t.next.lbl + 2);
    var brz, br := Brz(R(t.reg), els, false, ctx.hirzel), Br(end, false, ctx.hirzel);
    BranchesNamed(ctx, R(t.reg), els);
    BranchesNamed(ctx, R(0), end);
    var code := TwoArms(t.code, c.lbl, t.next.lbl, [NodeEntry()], brz, els, [AsmLabel(own)], a.code, [], c1.lbl, a.next.lbl,
                        br, end, b.code, [], b.next.lbl);
    assert StmtCode(s, ctx, c).code == code;
  }

  lemma {:induction false} WhileTidy(s: Stmt, ctx: Context, c: Counters, base: nat)
    requires s.While? && Lowerable(s, base)
    ensures OwnLabels(s, ctx, c)
    decreases s, 2, 0
  {
    hide Fragment, StmtCode, OperandCode, Lowerable, Br, Brz, GuardCode, NodeEntry, AsmLabel;
    var t := OperandCode(s.test, ctx, c);
    var c1 := RoundCounters(s, ctx, c);
    var b := StmtCode(s.body, ctx, c1);
    var p := PartsOf(s, ctx, c);
    var k := t.next.lbl;
    WhileShape(s, ctx, c, base, NOWHERE, 0);
    RoundShape(s, ctx, c, base, NOWHERE, 0);
    StmtTidy(s.body, ctx, c1, base);
    GuardFragment(LoopTest(s), p.exit, ctx, c);
    NodeLabelFragment(Label("loop", k + 1));
    BranchesNamed(ctx, R(0), p.head);
    var guard, e := GuardCode(LoopTest(s), p.exit, ctx, c), Br(p.head, false, ctx.hirzel);
    LoopTidy(p.head, guard, Numbers(c.lbl, k), p.exit, [p.e1, p.e2], k + 1, b.code, Numbers(c1.lbl, b.next.lbl), e);
    var code := [AsmLabel(p.head)] + guard + [p.e1, p.e2] + b.code + [e] + [AsmLabel(p.exit)];
    assert StmtCode(s, ctx, c).code == code;
    MakeTidy(code, {k} + (Numbers(c.lbl, k) + {k + 1} + Numbers(c1.lbl, b.next.lbl)) + {k + 2}, {p.exit} - {p.exit}, c.lbl, b.next.lbl);
  }

  lemma {:induction false} ForTidy(s: Stmt, ctx: Context, c: Counters, base: nat)
    requires s.For? && Lowerable(s, base)
    ensures OwnLabels(s, ctx, c)
    decreases s, 2, 0
  {
    hide Fragment, StmtCode, OperandCode, Lowerable, Br, Brz, GuardCode, NodeEntry, AsmLabel, TestCode;
    var i := StmtCode(s.init, ctx, c);
    var c1 := NextLabels(i.next, 1);
    var c2 := IncrCounters(s, ctx, c);
    var j := StmtCode(s.incr, ctx, c2);
    var c3 := RoundCounters(s, ctx, c);
    var b := StmtCode(s.body, ctx, c3);
    var p := PartsOf(s, ctx, c);
    var h, k := i.next.lbl, j.next.lbl;
    ForShape(s, ctx, c, base, NOWHERE, 0);
    RoundShape(s, ctx, c, base, NOWHERE, 0);
    StmtTidy(s.init, ctx, c, base);
    StmtTidy(s.incr, ctx, c2, base);
    StmtTidy(s.body, ctx, c3, base);
    GuardFragment(LoopTest(s), p.exit, ctx, c1);
    NodeLabelFragment(Label("body", k));
    BranchesNamed(ctx, R(0), p.head);
    var G, J, B := Numbers(c1.lbl, c2.lbl), Numbers(c2.lbl, k), Numbers(c3.lbl, b.next.lbl);
    ThenTidy(b.code, B, {}, j.code, c2.lbl, k);
    var guard, e := GuardCode(LoopTest(s), p.exit, ctx, c1), Br(p.head, false, ctx.hirzel);
    LoopTidy(p.head, guard, G, p.exit, [p.e1, p.e2], k, b.code + j.code, B + J, e);
    var code := [AsmLabel(p.head)] + guard + [p.e1, p.e2] + (b.code + j.code) + [e] + [AsmLabel(p.exit)];
    assert LoopEntries(p, LoopTest(s), ctx) == code;
    MakeTidy(code, {h} + (G + {k} + (B + J)) + {k + 1}, {p.exit} - {p.exit}, h, b.next.lbl);
    TidySum(i.code, code, c.lbl, h, b.next.lbl);
  }

  lemma {:induction false} DoWhileTidy(s: Stmt, ctx: Context, c: Counters, base: nat)
    requires s.DoWhile? && Lowerable(s, base)
    ensures OwnLabels(s, ctx, c)
    decreases s, 2, 0
  {
    hide Fragment, StmtCode, OperandCode, Lowerable, Br, Branch, NodeEntry, AsmLabel, Exec, ExecDo, OperandBelow;
    DoWhileShape(s, ctx, c, base, NOWHERE, 0);
    var c1 := NextLabels(c, 3);
    var t := OperandCode(s.test, ctx, c1);
    var b := StmtCode(s.body, ctx, t.next);
    OperandTidy(s.test, ctx, c1);
    StmtTidy(s.body, ctx, t.next, base);
    var head, own, end := Label("do", c.lbl), Label("while", c.lbl + 1), Label("end", c.lbl + 2);
    var T, B := Numbers(c1.lbl, t.next.lbl), Numbers(t.next.lbl, b.next.lbl);
    ThenOwnLabel(b.code, B, {}, own);
    var x: set<Label> := {} - {own};
    assert x == {};
    ThenTidy(b.code + [AsmLabel(own)], B + {own.number}, x, t.code, c1.lbl, t.next.lbl);
    var inner, A := b.code + [AsmLabel(own)] + t.code + [NodeEntry()], B + {own.number} + T;
    NodePlain();
    ThenPlain(b.code + [AsmLabel(own)] + t.code, A, x, [NodeEntry()]);
    var jump := JumpIfNonZero(t.value, head, ctx);
    AgainJump(t.value, head, ctx);
    var s1 := [AsmLabel(head)] + inner + jump;
    if jump == [] {
      StartLabel(head);
      Joined([AsmLabel(head)], {head.number}, {}, inner, A, x);
      assert s1 == [AsmLabel(head)] + inner && {} + x == x;
    } else {
      HeadClosed(head, inner, A, x, jump[0]);
      assert jump == [jump[0]];
    }
    ThenOwnLabel(s1, {head.number} + A, x, end);
    assert s1 + [AsmLabel(end)] == StmtCode(s, ctx, c).code;
    var next := StmtCode(s, ctx, c).next;
    assert b.next.lbl <= next.lbl;
    MakeTidy(s1 + [AsmLabel(end)], {head.number} + A + {end.number}, x - {end}, c.lbl, next.lbl);
  }

  lemma NodePlain()
    ensures Plain([NodeEntry()])
  {
  }

  lemma AgainJump(v: TestValue, l: Label, ctx: Context)
    ensures var jump := JumpIfNonZero(v, l, ctx);
      jump == [] || (|jump| == 1 && IsBranch(jump[0].assembler.cmd) && jump[0].assembler.lbl == l)
  {
  }

  /** The shared repeat loop. */
  lemma RepeatTidy(counter: nat, head: Label, body: seq<Asm>, lo: nat, hi: nat)
    requires Tidy(body, lo, hi) && head.Label? && head.number < lo
    ensures Fragment(RepeatLoop(counter, head, body), {head.number} + Numbers(lo, hi), {})
  {
    hide Fragment, AddCode, NodeEntry, AsmLabel, Branch;
    var dec, e := AddCode(counter, counter, -1), Branch(BRGZ, R(counter), head, false);
    var inner, A := [NodeEntry()] + body + dec, Numbers(lo, hi);
    NodePlain();
    PlainFragment([NodeEntry()]);
    ThenTidy([NodeEntry()], {}, {}, body, lo, hi);
    assert {} + A == A;
    AddPlain(counter, counter, -1);
    ThenPlain([NodeEntry()] + body, A, {}, dec);
    HeadClosed(head, inner, A, {}, e) by { CountBranch(counter, head); }
    assert RepeatLoop(counter, head, body) == [AsmLabel(head)] + inner + [e];
  }

  lemma CountBranch(r: nat, l: Label)
    ensures var e := Branch(BRGZ, R(r), l, false); IsBranch(e.assembler.cmd) && e.assembler.lbl == l
  {
  }

  lemma {:induction false} RepeatVarTidy(s: Stmt, ctx: Context, c: Counters, base: nat)
    requires s.RepeatVar? && Lowerable(s, base)
    ensures OwnLabels(s, ctx, c)
    decreases s, 2, 0
  {
    hide Fragment, StmtCode, ExprCode, Lowerable, Brz, AddCode, RepeatLoop, AsmLabel, Exec, Eval, ExprBelow;
    RepeatShape(s, base);
    RepeatVarShape(s, ctx, c, NOWHERE, 0);
    var t := ExprCode(s.count, ctx, c);
    var counter, cb := t.next.reg, NextLabels(NextReg(t.next), 2);
    var b := StmtCode(s.body, ctx, cb);
    var head, end := Label("loop", t.next.lbl), Label("end", t.next.lbl + 1);
    var brz, copy, loop := Brz(R(counter), end, false, ctx.hirzel), AddCode(counter, t.reg, 0), RepeatLoop(counter, head, b.code);
    ExprTidy(s.count, ctx, c);
    StmtTidy(s.body, ctx, cb, base);
    RepeatTidy(counter, head, b.code, cb.lbl, b.next.lbl);
    AddPlain(counter, t.reg, 0);
    BranchesNamed(ctx, R(counter), end);
    var A, B := Numbers(c.lbl, t.next.lbl), {head.number} + Numbers(cb.lbl, b.next.lbl);
    ThenPlain(t.code, A, {}, copy);
    ThenBranch(t.code + copy, A, {}, brz, end);
    var x := {} + {end};
    Joined(t.code + copy + [brz], A, x, loop, B, {});
    ThenOwnLabel(t.code + copy + [brz] + loop, A + B, x + {}, end);
    MakeTidy(t.code + copy + [brz] + loop + [AsmLabel(end)], A + B + {end.number}, x + {} - {end}, c.lbl, b.next.lbl);
  }

  lemma {:induction false} RuntimeTidy(s: Stmt, ctx: Context, counter: nat, c: Counters, base: nat)
    requires s.RepeatConst? && Lowerable(s.body, base)
    ensures var l := RepeatRuntimeCode(s, ctx, counter, c); Tidy(l.code, c.lbl, l.next.lbl)
    decreases s, 1, 0
  {
    hide Fragment, StmtCode, Lowerable, AddCode, RepeatLoop, RepeatRuntimeCode;
    RuntimeShape(s, ctx, counter, c);
    var cb := NextLabels(c, 1);
    var b := StmtCode(s.body, ctx, cb);
    var loop, load := RepeatLoop(counter, Label("loop", c.lbl), b.code), AddCode(counter, 0, s.n);
    StmtTidy(s.body, ctx, cb, base);
    RepeatTidy(counter, Label("loop", c.lbl), b.code, cb.lbl, b.next.lbl);
    AddPlain(counter, 0, s.n);
    PlainFragment(load);
    var B := {c.lbl} + Numbers(cb.lbl, b.next.lbl);
    Joined(load, {}, {}, loop, B, {});
    MakeTidy(load + loop, {} + B, {} + {}, c.lbl, b.next.lbl);
  }

  lemma {:induction false} UnrolledTidy(s: Stmt, copies: nat, ctx: Context, c: Counters, base: nat)
    requires s.RepeatConst? && Lowerable(s.body, base)
    ensures var l := Unrolled(s, copies, ctx, c); Tidy(l.code, c.lbl, l.next.lbl)
    decreases s, 0, copies
  {
    hide Tidy, StmtCode, Lowerable, Unrolled;
    UnrolledShape(s, copies, ctx, c);
    if copies == 0 {
      NothingTidy(c.lbl);
    } else {
      var a := StmtCode(s.body, ctx, c);
      var b := Unrolled(s, copies - 1, ctx, a.next);
      StmtTidy(s.body, ctx, c, base);
      UnrolledTidy(s, copies - 1, ctx, a.next, base);
      TidySum(a.code, b.code, c.lbl, a.next.lbl, b.next.lbl);
    }
  }

  lemma {:induction false} RepeatConstTidy(s: Stmt, ctx: Context, c: Counters, base: nat)
    requires s.RepeatConst? && Lowerable(s, base)
    ensures OwnLabels(s, ctx, c)
    decreases s, 2, 0
  {
    hide Tidy, StmtCode, Lowerable, Unrolled, RepeatRuntimeCode, Exec, ExecTimes;
    RepeatShape(s, base);
    RepeatConstShape(s, ctx, c, NOWHERE, 0);
    var l, start := StmtCode(s, ctx, c), NextReg(c);
    var trial := StmtCode(s.body, ctx, start);
    StmtTidy(s.body, ctx, start, base);
    if s.n == 0 {
      NothingTidy(c.lbl);
    } else if s.n > 1 {
      RuntimeTidy(s, ctx, c.reg, start, base);
      RuntimeTidy(s, ctx, c.reg, trial.next, base);
      UnrolledTidy(s, s.n - 1, ctx, trial.next, base);
      if l == Unrolled(s, s.n - 1, ctx, trial.next) || l == RepeatRuntimeCode(s, ctx, c.reg, trial.next) {
        TidyWider(l.code, trial.next.lbl, l.next.lbl, c.lbl, l.next.lbl);
      }
    }
  }

  // ----- Switch -----

  function CaseLabels(c: Counters, i: nat, n: nat): set<Label> { set k: nat | k < n && Between(i, k, n) :: CaseLabel(c, k) }

  /** The bodies have label numbers of their own, one after the other. */
  ghost predicate BodiesTidy(bodies: seq<seq<Asm>>, lo: nat, hi: nat) {
    if bodies == [] then lo <= hi
    else exists m: nat :: lo <= m <= hi && Tidy(bodies[0], lo, m) && BodiesTidy(bodies[1..], m, hi)
  }

  lemma {:induction false} CaseBodiesTidy(s: Stmt, i: nat, ctx: Context, c: Counters, base: nat)
    requires s.Switch? && i <= |s.cases| && forall k :: 0 <= k < |s.cases| ==> Lowerable(s.cases[k].body, base)
    ensures var r := CaseBodies(s, i, ctx, c); BodiesTidy(r.0, c.lbl, r.1.lbl)
    decreases s, 1, |s.cases| - i
  {
    hide Tidy, StmtCode, Lowerable;
    if i < |s.cases| {
      var first := StmtCode(s.cases[i].body, ctx, c);
      var rest := CaseBodies(s, i + 1, ctx, first.next);
      StmtTidy(s.cases[i].body, ctx, c, base);
      CaseBodiesTidy(s, i + 1, ctx, first.next, base);
      var r := CaseBodies(s, i, ctx, c);
      assert r.0 == [first.code] + rest.0 && r.0[1..] == rest.0 && r.0[0] == first.code;
      assert Tidy(r.0[0], c.lbl, first.next.lbl) && BodiesTidy(r.0[1..], first.next.lbl, r.1.lbl);
    }
  }

  lemma {:induction false} CaseTestsTidy(cases: seq<Case>, i: nat, condReg: nat, ctx: Context, c: Counters)
    requires i <= |cases|
    ensures Fragment(CaseTests(cases, i, condReg, ctx, c), {}, CaseLabels(c, i, |cases|)) && NoLoops(CaseTests(cases, i, condReg, ctx, c))
    decreases |cases| - i
  {
    hide Fragment, NoLoops, AddCode, Brz;
    if i == |cases| {
      NothingFragment();
      assert CaseLabels(c, i, |cases|) == {};
    } else {
      var l := CaseLabel(c, i);
      var add, brz := AddCode(CaseReg(c, i), condReg, -cases[i].value), Brz(R(CaseReg(c, i)), l, false, ctx.hirzel);
      var rest := CaseTests(cases, i + 1, condReg, ctx, c);
      AddPlain(CaseReg(c, i), condReg, -cases[i].value);
      PlainFragment(add);
      BranchesNamed(ctx, R(CaseReg(c, i)), l);
      ThenBranch(add, {}, {}, brz, l);
      CaseTestsTidy(cases, i + 1, condReg, ctx, c);
      Joined(add + [brz], {}, {} + {l}, rest, {}, CaseLabels(c, i + 1, |cases|));
      assert CaseLabels(c, i, |cases|) == {} + {l} + CaseLabels(c, i + 1, |cases|) by { MoreLabels(c, i, |cases|); }
      var none: set<nat> := {};
      assert none + none == none;
      NoLabelsNoLoops(CaseTests(cases, i, condReg, ctx, c), CaseLabels(c, i, |cases|));
    }
  }

  lemma MoreLabels(c: Counters, i: nat, n: nat)
    requires i < n
    ensures CaseLabels(c, i, n) == {CaseLabel(c, i)} + CaseLabels(c, i + 1, n)
  {
    forall l | l in CaseLabels(c, i, n) ensures l in {CaseLabel(c, i)} + CaseLabels(c, i + 1, n) {
      var k: nat :| k < n && Between(i, k, n) && l == CaseLabel(c, k);
      assert k == i || Between(i + 1, k, n);
    }
    forall l | l in {CaseLabel(c, i)} + CaseLabels(c, i + 1, n) ensures l in CaseLabels(c, i, n) {
      if l != CaseLabel(c, i) {
        var k: nat :| k < n && Between(i + 1, k, n) && l == CaseLabel(c, k);
        assert Between(i, k, n);
      } else {
        assert Between(i, i, n);
      }
    }
  }

  lemma NothingFragment()
    ensures Fragment([], {}, {}) && NoLoops([])
  {
    PlainFragment([]);
  }

  lemma NoLabelsNoLoops(code: seq<Asm>, x: set<Label>)
    requires Fragment(code, {}, x)
    ensures NoLoops(code)
  {
    hide Defined, LoopsClosed;
    forall s: nat, t: nat ensures !LoopsBack(code, s, t) {
      assert !LabelEntry(code, t);
    }
  }

  /** Wait, body, jump to the end. */
  lemma CaseBodyTidy(waitReg: nat, body: seq<Asm>, lo: nat, hi: nat, end: Label, ctx: Context)
    requires Tidy(body, lo, hi) && end.Label? && end.number >= hi
    ensures Fragment(CaseBody(waitReg, body, end, ctx), Numbers(lo, hi), {end})
  {
    hide Fragment, AddCode, Brz;
    var load, wait := AddCode(waitReg, 0, ctx.waitTrigger), [WaitTrigger(R(waitReg), R(waitReg))];
    var br := Br(end, true, ctx.hirzel);
    AddPlain(waitReg, 0, ctx.waitTrigger);
    PlainFragment(load);
    ThenPlain(load, {}, {}, wait);
    ThenTidy(load + wait, {}, {}, body, lo, hi);
    assert {} + Numbers(lo, hi) == Numbers(lo, hi) && {} + {end} == {end};
    LeaveNamed(ctx, end);
    ThenBranch(load + wait + body, Numbers(lo, hi), {}, br, end);
  }

  lemma LeaveNamed(ctx: Context, l: Label)
    ensures var br := Br(l, true, ctx.hirzel); IsBranch(br.assembler.cmd) && br.assembler.lbl == l
  {
  }

  /** Behind code that names the cases from i on, and the labels of y, come their bodies. */
  lemma {:induction false} BodiesAppended(a: seq<Asm>, A: set<nat>, y: set<Label>, bodies: seq<seq<Asm>>, i: nat, end: Label,
                                          ctx: Context, c: Counters, lo: nat, hi: nat)
    requires i <= |bodies| && BodiesTidy(bodies[i..], lo, hi) && end.Label? && hi <= end.number < c.lbl
    requires Fragment(a, A, CaseLabels(c, i, |bodies|) + y) && end.number !in A
    requires var B := Numbers(lo, hi) + Numbers(c.lbl + i, c.lbl + |bodies|); A !! B && Foreign(y, B)
    ensures Fragment(a + LabelledBodies(bodies, i, end, ctx, c), A + Numbers(lo, hi) + Numbers(c.lbl + i, c.lbl + |bodies|), y + {end})
    decreases |bodies| - i
  {
    hide Fragment, CaseBody, NoLoops, CaseLabels, BodiesTidy, Tidy;
    FirstBody(bodies, i, lo, hi);
    if i == |bodies| {
      assert a + LabelledBodies(bodies, i, end, ctx, c) == a;
      NoCaseLabels(c, i);
      Widened(a, A, CaseLabels(c, i, |bodies|) + y, A + Numbers(lo, hi) + Numbers(c.lbl + i, c.lbl + |bodies|), y + {end});
    } else {
      var m: nat :| lo <= m <= hi && Tidy(bodies[i], lo, m) && BodiesTidy(bodies[i + 1..], m, hi);
      var own, code := CaseLabel(c, i), LabelledBody(bodies, i, end, ctx, c);
      BodyAppended(a, A, y, bodies[i], i, |bodies|, end, ctx, c, lo, m);
      var A' := A + {own.number} + Numbers(lo, m);
      BodiesAppended(a + code, A', y + {end}, bodies, i + 1, end, ctx, c, m, hi);
      assert a + code + LabelledBodies(bodies, i + 1, end, ctx, c) == a + LabelledBodies(bodies, i, end, ctx, c);
      Widened(a + LabelledBodies(bodies, i, end, ctx, c), A' + Numbers(m, hi) + Numbers(c.lbl + i + 1, c.lbl + |bodies|), y + {end} + {end},
              A + Numbers(lo, hi) + Numbers(c.lbl + i, c.lbl + |bodies|), y + {end});
    }
  }

  lemma FirstBody(bodies: seq<seq<Asm>>, i: nat, lo: nat, hi: nat)
    requires i <= |bodies| && BodiesTidy(bodies[i..], lo, hi)
    ensures i == |bodies| ==> lo <= hi
    ensures i < |bodies| ==> exists m: nat :: lo <= m <= hi && Tidy(bodies[i], lo, m) && BodiesTidy(bodies[i + 1..], m, hi)
  {
    hide Tidy;
    if i < |bodies| {
      var m: nat :| lo <= m <= hi && Tidy(bodies[i..][0], lo, m) && BodiesTidy(bodies[i..][1..], m, hi);
      assert bodies[i..][1..] == bodies[i + 1..] && bodies[i..][0] == bodies[i];
      assert Tidy(bodies[i], lo, m) && BodiesTidy(bodies[i + 1..], m, hi);
    }
  }

  lemma BodyAppended(a: seq<Asm>, A: set<nat>, y: set<Label>, code: seq<Asm>, i: nat, n: nat, end: Label,
                     ctx: Context, c: Counters, lo: nat, m: nat)
    requires i < n && Tidy(code, lo, m) && end.Label? && m <= end.number < c.lbl && end.number !in A
    requires Fragment(a, A, CaseLabels(c, i, n) + y) && A !! Numbers(lo, m) && c.lbl + i !in A
    requires Foreign(y, Numbers(lo, m) + {c.lbl + i})
    ensures Fragment(a + ([AsmLabel(CaseLabel(c, i))] + CaseBody(CaseReg(c, i) + 1, code, end, ctx)), A + {c.lbl + i} + Numbers(lo, m),
                     CaseLabels(c, i + 1, n) + (y + {end}))
  {
    hide Fragment, CaseBody, NoLoops;
    var own := CaseLabel(c, i);
    var body := CaseBody(CaseReg(c, i) + 1, code, end, ctx);
    var x := CaseLabels(c, i, n) + y;
    ThenOwnLabel(a, A, x, own);
    MoreLabels(c, i, n);
    CaseLabelNumbers(c, i + 1, n);
    assert x - {own} == CaseLabels(c, i + 1, n) + y;
    CaseBodyTidy(CaseReg(c, i) + 1, code, lo, m, end, ctx);
    Joined(a + [AsmLabel(own)], A + {own.number}, x - {own}, body, Numbers(lo, m), {end});
    assert CaseLabels(c, i + 1, n) + y + {end} == CaseLabels(c, i + 1, n) + (y + {end});
    assert a + [AsmLabel(own)] + body == a + ([AsmLabel(own)] + body);
  }

  lemma NoCaseLabels(c: Counters, i: nat)
    ensures CaseLabels(c, i, i) == {}
  {
  }

  lemma CaseLabelNumbers(c: Counters, i: nat, n: nat)
    ensures forall l :: l in CaseLabels(c, i, n) ==> l.Label? && c.lbl + i <= l.number < c.lbl + n
  {
  }

  function DefaultNumbers(s: Stmt, d: SwitchNumbers): set<nat>
    requires s.Switch?
  {
    if s.otherwise.Some? then {d.c1.lbl + |s.cases|} else {}
  }

  /** The default, when there is one, behind code that names its label. */
  lemma DefaultAppended(a: seq<Asm>, A: set<nat>, x: set<Label>, s: Stmt, ctx: Context, d: SwitchNumbers, lo: nat)
    requires s.Switch? && Tidy(d.dflt.code, lo, d.dflt.next.lbl) && d.c1.lbl == d.dflt.next.lbl + 1
    requires x == {if s.otherwise.Some? then DefaultLabel(s, d) else EndLabel(d), EndLabel(d)}
    requires Fragment(a, A, x) && A !! Numbers(lo, d.dflt.next.lbl) && d.c1.lbl + |s.cases| !in A && d.dflt.next.lbl !in A
    ensures Fragment(a + DefaultCode(s, ctx, d), A + DefaultNumbers(s, d) + Numbers(lo, d.dflt.next.lbl), {EndLabel(d)})
  {
    hide Fragment, CaseBody, NoLoops;
    var B, own, end := Numbers(lo, d.dflt.next.lbl), DefaultLabel(s, d), EndLabel(d);
    if s.otherwise.Some? {
      ThenOwnLabel(a, A, x, own);
      var body := CaseBody(CaseReg(d.c1, |s.cases|), d.dflt.code, end, ctx);
      CaseBodyTidy(CaseReg(d.c1, |s.cases|), d.dflt.code, lo, d.dflt.next.lbl, end, ctx);
      Joined(a + [AsmLabel(own)], A + {own.number}, x - {own}, body, B, {end});
      assert x - {own} + {end} == {end};
      assert a + [AsmLabel(own)] + body == a + DefaultCode(s, ctx, d);
    } else {
      assert a + DefaultCode(s, ctx, d) == a;
      Widened(a, A, x, A + DefaultNumbers(s, d) + B, {end});
    }
  }

  /** Up to the bodies: own numbers of the condition, jumps to the cases and the exit. */
  lemma FrontTidy(s: Stmt, ctx: Context, d: SwitchNumbers, lo: nat, hi: nat, x: set<Label>)
    requires s.Switch? && Tidy(d.cond.code, lo, hi) && hi <= d.dflt.next.lbl < d.c1.lbl
    requires x == CaseLabels(d.c1, 0, |s.cases|) + {if s.otherwise.Some? then DefaultLabel(s, d) else EndLabel(d)}
    ensures Fragment(AnnounceCode(s, d) + CaseTests(s.cases, 0, d.cond.reg, ctx, d.c1) + ExitCode(s, ctx, d), Numbers(lo, hi), x)
  {
    hide Fragment, CaseTests, AddCode, Brz, NoLoops;
    var A := Numbers(lo, hi);
    var load, store := AddCode(d.dflt.next.reg, 0, SwitchCycles(s.cases, s.otherwise)), [StoreTo(R(d.dflt.next.reg), SUSER_TRIGGER_LOAD)];
    var tests, X := CaseTests(s.cases, 0, d.cond.reg, ctx, d.c1), CaseLabels(d.c1, 0, |s.cases|);
    AddPlain(d.dflt.next.reg, 0, SwitchCycles(s.cases, s.otherwise));
    ThenPlain(d.cond.code, A, {}, [NodeEntry()]);
    ThenPlain(d.cond.code + [NodeEntry()], A, {}, load);
    ThenPlain(d.cond.code + [NodeEntry()] + load, A, {}, store);
    CaseTestsTidy(s.cases, 0, d.cond.reg, ctx, d.c1);
    Joined(AnnounceCode(s, d), A, {}, tests, {}, X) by { assert Foreign(X, A); }
    assert A + {} == A && {} + X == X;
    ThenPlain(AnnounceCode(s, d) + tests, A, X, [Nop()]);
    var exit := if s.otherwise.Some? then DefaultLabel(s, d) else EndLabel(d);
    var br := Br(exit, false, ctx.hirzel);
    BranchesNamed(ctx, R(0), exit);
    ThenBranch(AnnounceCode(s, d) + tests + [Nop()], A, X, br, exit);
    assert AnnounceCode(s, d) + tests + [Nop()] + [br] == AnnounceCode(s, d) + tests + ExitCode(s, ctx, d);
  }

  lemma SwitchAssembled(s: Stmt, ctx: Context, c: Counters)
    requires s.Switch?
    requires var d := NumbersOf(s, ctx, c);
      Tidy(d.cond.code, c.lbl, d.cond.next.lbl) && BodiesTidy(d.bodies, d.cond.next.lbl, d.ck.lbl) &&
      Tidy(d.dflt.code, d.ck.lbl, d.dflt.next.lbl)
    ensures OwnLabels(s, ctx, c)
  {
    hide Fragment, StmtCode, NumbersOf, AnnounceCode, CaseTests, ExitCode, LabelledBodies, DefaultCode, NoLoops, BodiesTidy, AsmLabel;
    SwitchShape(s, ctx, c);
    var d, n := NumbersOf(s, ctx, c), |s.cases|;
    var end, exit := EndLabel(d), if s.otherwise.Some? then DefaultLabel(s, d) else EndLabel(d);
    var lo, k := d.cond.next.lbl, d.ck.lbl;
    BodiesInOrder(d.bodies, lo, k);
    var front := AnnounceCode(s, d) + CaseTests(s.cases, 0, d.cond.reg, ctx, d.c1) + ExitCode(s, ctx, d);
    var A := Numbers(c.lbl, lo);
    FrontTidy(s, ctx, d, c.lbl, lo, CaseLabels(d.c1, 0, n) + {exit});
    BodiesAppended(front, A, {exit}, d.bodies, 0, end, ctx, d.c1, lo, k);
    var s2, A2 := front + LabelledBodies(d.bodies, 0, end, ctx, d.c1), A + Numbers(lo, k) + Numbers(d.c1.lbl + 0, d.c1.lbl + n);
    DefaultAppended(s2, A2, {exit} + {end}, s, ctx, d, k);
    var s3, A3 := s2 + DefaultCode(s, ctx, d), A2 + DefaultNumbers(s, d) + Numbers(k, d.dflt.next.lbl);
    ThenOwnLabel(s3, A3, {end}, end);
    assert StmtCode(s, ctx, c).code == s3 + [AsmLabel(end)];
    MakeTidy(s3 + [AsmLabel(end)], A3 + {end.number}, {end} - {end}, c.lbl, StmtCode(s, ctx, c).next.lbl);
  }

  lemma {:induction false} BodiesInOrder(bodies: seq<seq<Asm>>, lo: nat, hi: nat)
    requires BodiesTidy(bodies, lo, hi)
    ensures lo <= hi && BodiesTidy(bodies[0..], lo, hi)
  {
    assert bodies[0..] == bodies;
  }

  lemma {:induction false} SwitchTidy(s: Stmt, ctx: Context, c: Counters, base: nat)
    requires s.Switch? && Lowerable(s, base)
    ensures OwnLabels(s, ctx, c)
    decreases s, 2, 0
  {
    hide *;
    SwitchShape(s, ctx, c);
    SwitchMeaning(s, ctx, base, NOWHERE, 0);
    var d := NumbersOf(s, ctx, c);
    ExprTidy(s.cond, ctx, c);
    CaseBodiesTidy(s, 0, ctx, d.cond.next, base);
    if s.otherwise.Some? {
      StmtTidy(s.otherwise.value, ctx, d.ck, base);
      OwnLabelsOut(s.otherwise.value, ctx, d.ck);
    } else {
      NothingTidy(d.ck.lbl);
    }
    SwitchAssembled(s, ctx, c);
  }

  lemma OwnLabelsOut(s: Stmt, ctx: Context, c: Counters)
    requires OwnLabels(s, ctx, c)
    ensures Tidy(StmtCode(s, ctx, c).code, c.lbl, StmtCode(s, ctx, c).next.lbl)
  {
  }
}
