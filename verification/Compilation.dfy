/** Whole statements compiled to whole lists: the lowering as a translation that preserves meaning. */
module Compilation {
  import opened Instructions
  import opened Machine
  import opened LiveRanges
  import opened JumpsAndLabels
  import opened DeadCode
  import opened Zeroing
  import opened Passes
  import opened SourceLanguage
  import opened Lowering
  import opened Execution
  import opened ExpressionLowering
  import opened Outcomes
  import opened StatementLowering
  import opened Fragments
  import opened LoweredFragments

  /** The list lowered from a statement over variables below base. */
  function Compiled(s: Stmt, ctx: Context, base: nat): seq<Asm> { StmtCode(s, ctx, Counters(base, 0)).code }

  /** Labels are distinct, every branch lands, and dead code elimination is safe. */
  lemma CompiledLabels(s: Stmt, ctx: Context, base: nat)
    requires Lowerable(s, base)
    ensures var prog := Compiled(s, ctx, base);
      DistinctLabels(prog) && BranchesDefined(prog) && NoJumpBackIntoDead(prog)
  {
    hide StmtCode, DistinctLabels, BranchesDefined, NoJumpBackIntoDead, LabelsOwned, BranchesLand, LoopsClosed, Lowerable;
    var prog := Compiled(s, ctx, base);
    StmtTidy(s, ctx, Counters(base, 0), base);
    LandsSomewhere(prog);
    ClosedLoopsNotDead(prog);
  }

  /** Moment n of the run from the entry. */
  function At(prog: seq<Asm>, input: Input, regs: Registers, n: nat): State { Run(prog, input, Entry(regs), n) }

  ghost predicate RunningUntil(prog: seq<Asm>, input: Input, regs: Registers, n: nat) {
    forall i: nat :: i < n ==> !Halted(prog, At(prog, input, regs, i))
  }

  /** The program has ended as the statement has: same commands sent, same variables. */
  ghost predicate EndsAs(prog: seq<Asm>, t: State, st: Store, base: nat) {
    Halted(prog, t) && t.trace == st.trace && AgreeBelow(st.regs, t.regs, base)
  }

  /** For every amount of fuel: a statement that ends is matched by a run that ends with the same
      commands and variables, and one that is still going by a run at least as long, still going,
      with the same commands. */
  lemma CompiledRuns(s: Stmt, ctx: Context, base: nat, input: Input, regs: Registers, fuel: nat) returns (n: nat)
    requires Lowerable(s, base) && base > 0
    ensures var prog := Compiled(s, ctx, base);
      RunningUntil(prog, input, regs, n) &&
      (match Exec(s, ctx, Store(regs, []), fuel)
       case Done(st) => EndsAs(prog, At(prog, input, regs, n), st, base)
       case OutOfFuel(trace) => fuel <= n && At(prog, input, regs, n).trace == trace)
  {
    hide StmtCode, DistinctLabels, Exec, Run, Lowerable, Stands, BranchesDefined, NoJumpBackIntoDead;
    var prog := Compiled(s, ctx, base);
    CompiledLabels(s, ctx, base);
    var g := Region(prog, input, 0, |prog|);
    StartStands(regs, base);
    assert prog[0..0 + |prog|] == prog;
    n := StmtRuns(s, ctx, Counters(base, 0), base, g, Entry(regs), Store(regs, []), fuel);
    StillInside(g, regs, n);
    EndsHere(prog, Entry(regs), At(prog, input, regs, n), Exec(s, ctx, Store(regs, []), fuel), base);
  }

  lemma StartStands(regs: Registers, base: nat)
    ensures Stands(Entry(regs), Store(regs, []), base)
  {
  }

  lemma StillInside(g: Region, regs: Registers, n: nat)
    requires Inside(g, Entry(regs), n) && g.hi == |g.prog|
    ensures RunningUntil(g.prog, g.input, regs, n)
  {
    hide Run;
  }

  lemma EndsHere(prog: seq<Asm>, m: State, t: State, o: Outcome, base: nat)
    ensures o.Done? && Ends(m, t, |prog|, o.store, base, base) ==> EndsAs(prog, t, o.store, base)
  {
  }

  ghost predicate Terminates(prog: seq<Asm>, input: Input, regs: Registers) {
    exists n: nat :: Halted(prog, At(prog, input, regs, n))
  }

  ghost predicate Finishes(s: Stmt, ctx: Context, regs: Registers) {
    exists fuel: nat :: Exec(s, ctx, Store(regs, []), fuel).Done?
  }

  /** The program ends exactly when the statement does. */
  lemma CompiledTerminatesIff(s: Stmt, ctx: Context, base: nat, input: Input, regs: Registers)
    requires Lowerable(s, base) && base > 0
    ensures Terminates(Compiled(s, ctx, base), input, regs) <==> Finishes(s, ctx, regs)
  {
    hide StmtCode, Exec, Run, Lowerable, Compiled, AgreeBelow;
    var prog := Compiled(s, ctx, base);
    if Finishes(s, ctx, regs) {
      var fuel: nat :| Exec(s, ctx, Store(regs, []), fuel).Done?;
      var n := CompiledRuns(s, ctx, base, input, regs, fuel);
    }
    if Terminates(prog, input, regs) {
      var n: nat :| Halted(prog, At(prog, input, regs, n));
      var m := CompiledRuns(s, ctx, base, input, regs, n + 1);
      assert Exec(s, ctx, Store(regs, []), n + 1).Done?;
    }
  }

  /** When both end, they end alike, whatever the fuel and however long the run goes on. */
  lemma CompiledResult(s: Stmt, ctx: Context, base: nat, input: Input, regs: Registers, fuel: nat, n: nat)
    requires Lowerable(s, base) && base > 0
    requires var o := Exec(s, ctx, Store(regs, []), fuel); o.Done?
    requires Halted(Compiled(s, ctx, base), At(Compiled(s, ctx, base), input, regs, n))
    ensures EndsAs(Compiled(s, ctx, base), At(Compiled(s, ctx, base), input, regs, n), Exec(s, ctx, Store(regs, []), fuel).store, base)
  {
    hide StmtCode, Exec, Run, Lowerable, Compiled, AgreeBelow;
    var prog := Compiled(s, ctx, base);
    var m := CompiledRuns(s, ctx, base, input, regs, fuel);
    assert m <= n;
    RunAdd(prog, input, Entry(regs), m, n - m);
    RunHalted(prog, input, At(prog, input, regs, m), n - m);
  }

  /** Nothing but what the statement sends is ever sent: at each moment the run's commands are
      the first of those sent with enough fuel. */
  lemma CompiledSendsNothingElse(s: Stmt, ctx: Context, base: nat, input: Input, regs: Registers, n: nat)
    requires Lowerable(s, base) && base > 0
    ensures var o := Exec(s, ctx, Store(regs, []), n);
      At(Compiled(s, ctx, base), input, regs, n).trace <= if o.Done? then o.store.trace else o.trace
  {
    hide StmtCode, Exec, Lowerable, Compiled, AgreeBelow, Step;
    var prog := Compiled(s, ctx, base);
    var m := CompiledRuns(s, ctx, base, input, regs, n);
    if n <= m {
      RunAdd(prog, input, Entry(regs), n, m - n);
      TraceGrows(prog, input, At(prog, input, regs, n), m - n);
    } else {
      RunAdd(prog, input, Entry(regs), m, n - m);
      RunHalted(prog, input, At(prog, input, regs, m), n - m);
    }
  }

  /** Lowering, then dead code elimination, the jump and label passes and the folding of register
      clears: still the statement. */
  lemma CompiledCleaned(s: Stmt, ctx: Context, base: nat, q1: seq<Asm>, q2: seq<Asm>, q3: seq<Asm>, q4: seq<Asm>, q5: seq<Asm>)
    requires Lowerable(s, base)
    requires DeadCodeRemoved(Compiled(s, ctx, base), q1) && JumpsRemoved(q1, q2) && LabelsRemoved(q2, q3)
    requires (DistinctLabels(q3) ==> LabelsTidied(q3, q4)) && ZerosMerged(q4, q5)
    ensures Preserves(Compiled(s, ctx, base), q5) && DistinctLabels(q4)
  {
    hide Compiled, NoJumpBackIntoDead, BranchesDefined, Preserves, KilledAt, OneStepJump, UnusedLabel, Lowerable, Mimics, AllReferenced, ZerosMerged;
    var p := Compiled(s, ctx, base);
    CompiledLabels(s, ctx, base);
    DeadCodePreserves(p, q1);
    assert DistinctLabels(q1);
    JumpsRemovedMimics(q1, q2);
    MimicsPreserves(q1, q2);
    LabelsRemovedMimics(q2, q3);
    MimicsPreserves(q2, q3);
    PreservesTransitive(p, q1, q2);
    PreservesTransitive(p, q2, q3);
    assert DistinctLabels(q3) by { JumpsRemovedKeep(q1, q2); LabelsRemovedBookkeeping(q2, q3); }
    PreservesTransitive(p, q3, q4);
    ZerosMergedPreserves(q4, q5);
    PreservesTransitive(p, q4, q5);
  }

  /** Lowering, dead code elimination and the whole pipeline behind it, register passes included:
      when they get lists they are right for, the list they leave is still the statement. */
  lemma CompiledAllocated(s: Stmt, ctx: Context, base: nat, q: seq<Asm>, flags: Flags, first: nat, st: Stages)
    requires Lowerable(s, base)
    requires DeadCodeRemoved(Compiled(s, ctx, base), q) && StagesOf(flags, first, q, st)
    requires flags.registers ==> RegisterStagesSafe(flags, first, st)
    ensures Equivalent(Compiled(s, ctx, base), st.Result(flags))
  {
    hide Compiled, NoJumpBackIntoDead, BranchesDefined, Preserves, Equivalent, KilledAt, Lowerable, StagesOf, RegisterStagesSafe;
    var p := Compiled(s, ctx, base);
    CompiledLabels(s, ctx, base);
    DeadCodePreserves(p, q);
    assert DistinctLabels(q);
    PreservesEquivalent(p, q);
    StagesEquivalent(flags, first, q, st);
    EquivalentTransitive(p, q, st.Result(flags));
  }
}
