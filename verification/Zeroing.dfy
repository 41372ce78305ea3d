/** Folding a register clear into the upper-immediate add that follows it. */
module Zeroing {
  import opened Instructions
  import opened Machine
  import opened Allocation
  import opened JumpsAndLabels

  /** `ADDI r,R0,0` followed by an optimisable `ADDIU r,r,x`. */
  predicate ZeroPair(prog: seq<Asm>, k: nat) {
    0 < k < |prog| && !prog[k].noOpt &&
    var prev, cur := prog[k - 1].assembler, prog[k].assembler;
    prev.cmd.ADDI? && prev.regSrc == R(0) && prev.outputs == [0] &&
    cur.cmd.ADDIU? && cur.regSrc == cur.regDst && cur.regSrc == prev.regDst
  }

  function FromZero(e: Asm): Asm {
    e.(assembler := e.assembler.(regSrc := R(0)))
  }

  ghost predicate ZerosMerged(p: seq<Asm>, q: seq<Asm>) {
    |p| == |q| && forall i :: 0 <= i < |p| ==>
      q[i] == if ZeroPair(p, i + 1) then Killed(p[i]) else if ZeroPair(p, i) then FromZero(p[i]) else p[i]
  }

  /** Between the two entries of a pair the cleared register is 0 on the old side only. */
  ghost predicate InStep(p: seq<Asm>, s: State, t: State) {
    s.pc == t.pc && s.trace == t.trace &&
    (forall r: nat :: ZeroPair(p, s.pc) && R(r) == p[s.pc].assembler.regDst ==> Get(s.regs, r) == 0) &&
    forall r: nat :: !(ZeroPair(p, s.pc) && R(r) == p[s.pc].assembler.regDst) ==> Get(s.regs, r) == Get(t.regs, r)
  }

  lemma ZerosMergedTargets(p: seq<Asm>, q: seq<Asm>, l: Label)
    requires ZerosMerged(p, q)
    ensures Target(p, l) == Target(q, l)
  {
    forall i | 0 <= i < |p| ensures Defines(p, i, l) == Defines(q, i, l) {
      assert q[i] == if ZeroPair(p, i + 1) then Killed(p[i]) else if ZeroPair(p, i) then FromZero(p[i]) else p[i];
    }
    SameTargets(p, q, l);
  }

  lemma PairEnteredFromAbove(p: seq<Asm>, s: State)
    requires s.pc < |p| && ZeroPair(p, NextPc(p, s))
    ensures NextPc(p, s) == s.pc + 1 && !IsBranch(p[s.pc].assembler.cmd)
  {
  }

  /** The same instruction on registers that read alike. */
  lemma SameStep(a: Assembler, s: State, t: State, input: Input)
    requires s.trace == t.trace && forall r: nat :: Get(s.regs, r) == Get(t.regs, r)
    ensures Taken(a, s.regs) == Taken(a, t.regs) && Emitted(a, s.regs) == Emitted(a, t.regs)
    ensures var s', t' := WriteBack(s.regs, a, Result(a, s, input)), WriteBack(t.regs, a, Result(a, t, input));
      forall r: nat :: Get(s', r) == Get(t', r)
  {
    hide Alu;
    assert SameOperands(a, s.regs, a, t.regs);
    forall r: nat
      ensures Get(WriteBack(s.regs, a, Result(a, s, input)), r) == Get(WriteBack(t.regs, a, Result(a, t, input)), r)
    {
      SameOperandsSameResult(a, s, a, t, input);
      GetAfterWriteBack(s.regs, a, Result(a, s, input), r);
      GetAfterWriteBack(t.regs, a, Result(a, t, input), r);
    }
  }

  lemma StepInStep(p: seq<Asm>, q: seq<Asm>, input: Input, s: State, t: State)
    requires ZerosMerged(p, q) && InStep(p, s, t)
    ensures InStep(p, Step(p, input, s), Step(q, input, t))
  {
    if s.pc < |p| {
      var a, b := p[s.pc].assembler, q[s.pc].assembler;
      ZerosMergedTargets(p, q, a.lbl);
      if ZeroPair(p, s.pc + 1) {
        ClearSkipped(p, q, input, s, t);
      } else if ZeroPair(p, s.pc) {
        UpperFromZero(p, q, input, s, t);
      } else {
        SameStep(a, s, t, input);
        if ZeroPair(p, NextPc(p, s)) { PairEnteredFromAbove(p, s); }
      }
    }
  }

  lemma ClearSkipped(p: seq<Asm>, q: seq<Asm>, input: Input, s: State, t: State)
    requires ZerosMerged(p, q) && InStep(p, s, t) && ZeroPair(p, s.pc + 1)
    ensures InStep(p, Step(p, input, s), Step(q, input, t))
  {
    var a := p[s.pc].assembler;
    assert q[s.pc] == Killed(p[s.pc]);
    assert Step(q, input, t) == t.(pc := t.pc + 1) by { SilentStep(q, input, t); }
    assert !ZeroPair(p, s.pc) && Result(a, s, input) == 0;
    assert Step(p, input, s) == State(s.pc + 1, WriteBack(s.regs, a, 0), s.trace);
    hide Step, Alu, Value, WriteBack, ZerosMerged, Run;
    forall r: nat ensures Get(WriteBack(s.regs, a, 0), r) == if R(r) == a.regDst && r > 0 then 0 else Get(s.regs, r) {
      GetAfterWriteBack(s.regs, a, 0, r);
    }
  }

  lemma UpperFromZero(p: seq<Asm>, q: seq<Asm>, input: Input, s: State, t: State)
    requires ZerosMerged(p, q) && InStep(p, s, t) && ZeroPair(p, s.pc)
    ensures InStep(p, Step(p, input, s), Step(q, input, t))
  {
    var a, b := p[s.pc].assembler, q[s.pc].assembler;
    assert !ZeroPair(p, s.pc + 1);
    assert b == a.(regSrc := R(0));
    assert Result(a, s, input) == Wrap(Immediate(a) * 0x1000) == Result(b, t, input);
    forall r: nat
      ensures Get(WriteBack(s.regs, a, Result(a, s, input)), r) == Get(WriteBack(t.regs, b, Result(b, t, input)), r)
    {
      GetAfterWriteBack(s.regs, a, Result(a, s, input), r);
      GetAfterWriteBack(t.regs, b, Result(b, t, input), r);
    }
  }

  lemma {:induction false} RunsInStep(p: seq<Asm>, q: seq<Asm>, input: Input, s: State, t: State, n: nat)
    requires ZerosMerged(p, q) && InStep(p, s, t)
    ensures InStep(p, Run(p, input, s, n), Run(q, input, t, n))
    decreases n
  {
    hide Step, InStep, ZerosMerged;
    if n > 0 {
      StepInStep(p, q, input, s, t);
      RunsInStep(p, q, input, Step(p, input, s), Step(q, input, t), n - 1);
    }
  }

  /** Merging register clears changes no run: entry by entry the same output. */
  lemma ZerosMergedPreserves(p: seq<Asm>, q: seq<Asm>)
    requires ZerosMerged(p, q)
    ensures Preserves(p, q)
  {
    hide Step, Run;
    forall input: Input, regs: Registers, n: nat ensures Follows(p, q, input, regs, n) {
      RunsInStep(p, q, input, Entry(regs), Entry(regs), n);
      assert SameView(p, Run(p, input, Entry(regs), n), q, Run(q, input, Entry(regs), n));
    }
  }

  /** Entry k when the pairs up to entry it have been folded. */
  function ZeroMergedUpTo(p: seq<Asm>, it: nat, k: nat): Asm
    requires k < |p|
  {
    if k + 1 < it && ZeroPair(p, k + 1) then Killed(p[k])
    else if k < it && ZeroPair(p, k) then FromZero(p[k])
    else p[k]
  }

  lemma PairSeen(p: seq<Asm>, now: seq<Asm>, it: nat)
    requires |now| == |p| && 0 < it < |p| && now[it] == p[it] && now[it - 1] == ZeroMergedUpTo(p, it, it - 1)
    ensures var prev, cur := now[it - 1].assembler, now[it].assembler;
      ZeroPair(p, it) <==>
        !now[it].noOpt && prev.cmd.ADDI? && prev.regSrc == R(0) && prev.outputs == [0] &&
        cur.cmd.ADDIU? && cur.regSrc == cur.regDst && cur.regSrc == prev.regDst
    ensures ZeroPair(p, it) ==> now[it - 1] == p[it - 1]
  {
  }

  /** No clear with an addition to be folded behind it is left. */
  lemma NoPairLeft(p: seq<Asm>, q: seq<Asm>, k: nat)
    requires ZerosMerged(p, q) && 0 < k < |q| && !q[k].noOpt
    ensures var prev, cur := q[k - 1].assembler, q[k].assembler;
      !(prev.cmd.ADDI? && prev.regSrc == R(0) && prev.outputs == [0] && cur.cmd.ADDIU? && cur.regSrc == cur.regDst == prev.regDst)
  {
    forall i | k - 1 <= i <= k
      ensures q[i] == if ZeroPair(p, i + 1) then Killed(p[i]) else if ZeroPair(p, i) then FromZero(p[i]) else p[i]
    {}
    if ZeroPair(p, k) {
      assert q[k - 1] == Killed(p[k - 1]);
    } else if ZeroPair(p, k + 1) {
      assert q[k] == Killed(p[k]);
    } else if !ZeroPair(p, k - 1) {
      assert q[k - 1] == p[k - 1] && q[k] == p[k];
    }
  }
}
