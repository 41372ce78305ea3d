/** Dead code elimination: which entries are killed, and when no run can notice. */
module DeadCode {
  import opened Instructions
  import opened Machine
  import opened Liveness

  /** Is entry i met while in a stretch behind an unconditional branch? */
  ghost predicate AfterBranch(prog: seq<Asm>, i: nat)
    requires i <= |prog|
    decreases i, 0
  {
    i > 0 &&
    var a := prog[i - 1].assembler;
    if AfterBranch(prog, i - 1) then !a.cmd.LABEL? || !CalledBefore(prog, i - 1)
    else AlwaysTaken(a)
  }

  ghost predicate KilledAt(prog: seq<Asm>, i: nat)
    requires i < |prog|
    decreases i, 1
  {
    AfterBranch(prog, i) && !prog[i].assembler.cmd.LABEL?
  }

  /** Does a surviving branch further up name the label of entry i? */
  ghost predicate CalledBefore(prog: seq<Asm>, i: nat)
    requires i < |prog|
    decreases i, 0
  {
    exists j :: 0 <= j < i && !KilledAt(prog, j) && IsBranch(prog[j].assembler.cmd) &&
      prog[j].assembler.lbl == prog[i].assembler.lbl
  }

  /** Entry i is in a stretch nothing falls into: a killed entry or a label left uncalled. */
  ghost predicate InDeadStretch(prog: seq<Asm>, i: nat)
    requires i < |prog|
  {
    KilledAt(prog, i) || (AfterBranch(prog, i) && !CalledBefore(prog, i))
  }

  ghost predicate DeadCodeRemoved(p: seq<Asm>, q: seq<Asm>) {
    |p| == |q| && forall i :: 0 <= i < |p| ==> q[i] == if KilledAt(p, i) then Killed(p[i]) else p[i]
  }

  /** A branch at s, not itself in a dead stretch, whose label is at t above it. */
  ghost predicate SurvivingJumpBack(prog: seq<Asm>, s: nat, t: nat) {
    t <= s < |prog| && !InDeadStretch(prog, s) && IsBranch(prog[s].assembler.cmd) &&
    t == Target(prog, prog[s].assembler.lbl)
  }

  /** No reachable surviving branch jumps back into a deleted stretch. */
  ghost predicate NoJumpBackIntoDead(prog: seq<Asm>) {
    forall s: nat, t: nat :: Reachable(prog, s) && SurvivingJumpBack(prog, s, t) ==> !InDeadStretch(prog, t)
  }

  ghost predicate DeadNeverReached(prog: seq<Asm>) {
    forall i: nat :: i < |prog| && Reachable(prog, i) ==> !InDeadStretch(prog, i)
  }

  lemma LiveSuccessor(prog: seq<Asm>, i: nat, j: nat)
    requires NoJumpBackIntoDead(prog) && Reachable(prog, i)
    requires i < |prog| && !InDeadStretch(prog, i) && j in Successors(prog, i) && j < |prog|
    ensures !InDeadStretch(prog, j)
  {
    var a := prog[i].assembler;
    if IsBranch(a.cmd) && j == Target(prog, a.lbl) {
      if j > i {
        assert CalledBefore(prog, j);
      } else {
        assert SurvivingJumpBack(prog, i, j);
      }
    } else {
      assert j == i + 1;
      assert !AfterBranch(prog, j);
    }
  }

  lemma {:induction false} ReachableIsLive(prog: seq<Asm>, i: nat, k: nat)
    requires NoJumpBackIntoDead(prog) && i < |prog| && ReachableIn(prog, i, k)
    ensures !InDeadStretch(prog, i)
    decreases k
  {
    if k == 0 {
      assert !AfterBranch(prog, 0);
    } else {
      var j :| 0 <= j < |prog| && ReachableIn(prog, j, k - 1) && i in Successors(prog, j);
      ReachableIsLive(prog, j, k - 1);
      LiveSuccessor(prog, j, i);
    }
  }

  /** The exact condition: paths stay out of the deleted stretches when and only when no
      surviving branch they reach jumps back into one. */
  lemma DeadNeverReachedIff(prog: seq<Asm>)
    ensures DeadNeverReached(prog) <==> NoJumpBackIntoDead(prog)
  {
    if NoJumpBackIntoDead(prog) {
      forall i: nat | i < |prog| && Reachable(prog, i) ensures !InDeadStretch(prog, i) {
        var k: nat :| ReachableIn(prog, i, k);
        ReachableIsLive(prog, i, k);
      }
    }
    if DeadNeverReached(prog) {
      forall s: nat, t: nat | Reachable(prog, s) && SurvivingJumpBack(prog, s, t)
        ensures !InDeadStretch(prog, t)
      {
        assert t in Successors(prog, s);
        ReachableNext(prog, s, t);
      }
    }
  }

  lemma {:induction false} DeadCodeLockstep(p: seq<Asm>, q: seq<Asm>, input: Input, s: State, n: nat)
    requires DeadCodeRemoved(p, q) && NoJumpBackIntoDead(p) && Reachable(p, s.pc)
    ensures Run(q, input, s, n) == Run(p, input, s, n)
    decreases n
  {
    hide Alu, Emitted, WriteBack, Value, KilledAt;
    if n > 0 {
      if s.pc < |p| {
        DeadNeverReachedIff(p);
        assert !InDeadStretch(p, s.pc);
        DeadCodeTargets(p, q, p[s.pc].assembler.lbl);
        NextPcIsSuccessor(p, s);
        ReachableNext(p, s.pc, NextPc(p, s));
      }
      DeadCodeLockstep(p, q, input, Step(p, input, s), n - 1);
    }
  }

  lemma DeadCodeTargets(p: seq<Asm>, q: seq<Asm>, l: Label)
    requires DeadCodeRemoved(p, q)
    ensures Target(p, l) == Target(q, l)
  {
    var t, u := Target(p, l), Target(q, l);
    if t < |p| { assert Defines(q, t, l); }
    if u < |q| { assert Defines(p, u, l); }
  }

  /** Dead code elimination changes no run from the entry, state for state. */
  lemma DeadCodePreserves(p: seq<Asm>, q: seq<Asm>)
    requires DeadCodeRemoved(p, q) && NoJumpBackIntoDead(p)
    ensures forall input: Input, regs: Registers, n: nat :: Run(q, input, Entry(regs), n) == Run(p, input, Entry(regs), n)
    ensures Preserves(p, q)
  {
    hide Step, Run;
    EntryReachable(p);
    forall input: Input, regs: Registers, n: nat
      ensures Run(q, input, Entry(regs), n) == Run(p, input, Entry(regs), n)
    {
      DeadCodeLockstep(p, q, input, Entry(regs), n);
    }
    forall input: Input, regs: Registers, n: nat ensures Follows(p, q, input, regs, n) {
      assert SameView(p, Run(p, input, Entry(regs), n), q, Run(q, input, Entry(regs), n));
    }
  }

  /** Killed entries being no branches, the rewritten part answers as the rule asks. */
  lemma CalledNow(p: seq<Asm>, now: seq<Asm>, it: nat)
    requires |now| == |p| && it < |p|
    requires forall k :: 0 <= k < it ==> now[k] == if KilledAt(p, k) then Killed(p[k]) else p[k]
    ensures CalledBefore(p, it) <==>
      exists j :: 0 <= j < it && IsBranch(now[j].assembler.cmd) && now[j].assembler.lbl == p[it].assembler.lbl
  {
    hide KilledAt;
    if CalledBefore(p, it) {
      var j :| 0 <= j < it && !KilledAt(p, j) && IsBranch(p[j].assembler.cmd) && p[j].assembler.lbl == p[it].assembler.lbl;
      assert now[j] == p[j];
    }
    forall j | 0 <= j < it && IsBranch(now[j].assembler.cmd) && now[j].assembler.lbl == p[it].assembler.lbl ensures CalledBefore(p, it) {
      assert !KilledAt(p, j) && now[j] == p[j];
    }
  }

  // ----- The pass seen from outside -----

  /** Branch b survives, is always taken, and no label between it and entry i is called by a
      surviving branch above. */
  ghost predicate CutOffBy(prog: seq<Asm>, b: nat, i: nat)
    requires b < i <= |prog|
  {
    AlwaysTaken(prog[b].assembler) && !KilledAt(prog, b) &&
    forall k :: b < k < i && prog[k].assembler.cmd.LABEL? ==> !CalledBefore(prog, k)
  }

  lemma {:induction false} AfterBranchIff(prog: seq<Asm>, i: nat)
    requires i <= |prog|
    ensures AfterBranch(prog, i) <==> exists b: nat :: b < i && CutOffBy(prog, b, i)
    decreases i
  {
    hide CalledBefore, AlwaysTaken;
    if i > 0 {
      var j := i - 1;
      AfterBranchIff(prog, j);
      TakenIsNoLabel(prog[j].assembler);
      if AfterBranch(prog, i) {
        if AfterBranch(prog, j) {
          var b: nat :| b < j && CutOffBy(prog, b, j);
          assert CutOffBy(prog, b, i);
        } else {
          assert CutOffBy(prog, j, i);
        }
      }
      forall b: nat | b < j && CutOffBy(prog, b, i) ensures CutOffBy(prog, b, j) && (prog[j].assembler.cmd.LABEL? ==> !CalledBefore(prog, j)) {}
    }
  }

  lemma TakenIsNoLabel(a: Assembler)
    ensures AlwaysTaken(a) ==> !a.cmd.LABEL?
  {
  }

  /** An entry is deleted exactly when it is no label and some surviving branch above is always
      taken with no called label between. */
  lemma KilledIff(prog: seq<Asm>, i: nat)
    requires i < |prog|
    ensures KilledAt(prog, i) <==> !prog[i].assembler.cmd.LABEL? && exists b: nat :: b < i && CutOffBy(prog, b, i)
  {
    AfterBranchIff(prog, i);
  }
}
