/** One-step jump removal, label removal and label merging: pointwise rewrites under which
    every step of the old list is some steps of the new one. */
module JumpsAndLabels {
  import opened Instructions
  import opened Machine
  import opened LiveRanges

  /** Entries that only move the program counter on. */
  predicate IsSilent(cmd: Command) {
    cmd.INVALID? || cmd.NOP? || cmd.LABEL?
  }

  /** From every state, one step of p is at least one step of q to the very same state. */
  ghost predicate Mimics(p: seq<Asm>, q: seq<Asm>) {
    |p| == |q| && forall input: Input, s: State :: CatchesUp(p, q, input, s)
  }

  ghost predicate CatchesUp(p: seq<Asm>, q: seq<Asm>, input: Input, s: State) {
    exists m: nat :: m >= 1 && Run(q, input, s, m) == Step(p, input, s)
  }

  lemma {:induction false} MimicsRun(p: seq<Asm>, q: seq<Asm>, input: Input, s: State, n: nat) returns (m: nat)
    requires Mimics(p, q)
    ensures n <= m && Run(q, input, s, m) == Run(p, input, s, n)
    decreases n
  {
    hide Step;
    m := 0;
    if n > 0 {
      assert CatchesUp(p, q, input, s);
      var first: nat :| first >= 1 && Run(q, input, s, first) == Step(p, input, s);
      var rest := MimicsRun(p, q, input, Step(p, input, s), n - 1);
      RunAdd(q, input, s, first, rest);
      m := first + rest;
    }
  }

  lemma MimicsPreserves(p: seq<Asm>, q: seq<Asm>)
    requires Mimics(p, q)
    ensures Preserves(p, q)
  {
    hide Step, Run;
    forall input: Input, regs: Registers, n: nat ensures Follows(p, q, input, regs, n) {
      var m := MimicsRun(p, q, input, Entry(regs), n);
      assert SameView(p, Run(p, input, Entry(regs), n), q, Run(q, input, Entry(regs), m));
    }
  }

  ghost predicate SilentBetween(prog: seq<Asm>, i: nat, t: nat) {
    t <= |prog| && forall k :: i <= k < t ==> IsSilent(prog[k].assembler.cmd)
  }

  lemma SilentStep(prog: seq<Asm>, input: Input, s: State)
    requires s.pc < |prog| && IsSilent(prog[s.pc].assembler.cmd)
    ensures Step(prog, input, s) == s.(pc := s.pc + 1)
  {
  }

  lemma {:induction false} RunThroughSilence(prog: seq<Asm>, input: Input, s: State, t: nat)
    requires s.pc <= t && SilentBetween(prog, s.pc, t)
    ensures Run(prog, input, s, t - s.pc) == s.(pc := t)
    decreases t - s.pc
  {
    hide Step;
    if s.pc < t {
      SilentStep(prog, input, s);
      RunThroughSilence(prog, input, s.(pc := s.pc + 1), t);
    }
  }

  // ----- One-step jumps -----

  /** A branch whose label follows with nothing but dead entries, NOPs and labels between. */
  ghost predicate OneStepJump(prog: seq<Asm>, i: nat) {
    i < |prog| && !prog[i].noOpt && IsBranch(prog[i].assembler.cmd) &&
    exists t: nat :: i < t < |prog| && SilentBetween(prog, i + 1, t) && Defines(prog, t, prog[i].assembler.lbl)
  }

  ghost predicate JumpsRemoved(p: seq<Asm>, q: seq<Asm>) {
    |p| == |q| && forall i :: 0 <= i < |p| ==> q[i] == if OneStepJump(p, i) then Killed(p[i]) else p[i]
  }

  lemma TargetIs(prog: seq<Asm>, t: nat, l: Label)
    requires DistinctLabels(prog) && t < |prog| && Defines(prog, t, l)
    ensures Target(prog, l) == t
  {
    var u := Target(prog, l);
    assert u <= t;
  }

  lemma JumpsRemovedTargets(p: seq<Asm>, q: seq<Asm>, l: Label)
    requires JumpsRemoved(p, q)
    ensures Target(p, l) == Target(q, l)
  {
    var t, u := Target(p, l), Target(q, l);
    if t < |p| { assert Defines(q, t, l); }
    if u < |q| { assert Defines(p, u, l); }
  }

  /** Killing one-step jumps changes no run: the jump is replaced by walking there. */
  lemma JumpsRemovedMimics(p: seq<Asm>, q: seq<Asm>)
    requires JumpsRemoved(p, q) && DistinctLabels(p)
    ensures Mimics(p, q)
  {
    hide Alu, Emitted, WriteBack, Value;
    forall input: Input, s: State ensures CatchesUp(p, q, input, s) {
      if s.pc < |p| {
        JumpsRemovedTargets(p, q, p[s.pc].assembler.lbl);
      }
      if s.pc < |p| && OneStepJump(p, s.pc) {
        KilledJumpCatchesUp(p, q, input, s);
      } else {
        assert Run(q, input, s, 1) == Step(q, input, s);
        assert Step(q, input, s) == Step(p, input, s);
      }
    }
  }

  lemma BranchStep(prog: seq<Asm>, input: Input, s: State)
    requires s.pc < |prog| && IsBranch(prog[s.pc].assembler.cmd)
    ensures Step(prog, input, s) == s.(pc := NextPc(prog, s))
  {
  }

  lemma KilledJumpCatchesUp(p: seq<Asm>, q: seq<Asm>, input: Input, s: State)
    requires JumpsRemoved(p, q) && DistinctLabels(p) && OneStepJump(p, s.pc)
    ensures CatchesUp(p, q, input, s)
  {
    hide Step;
    var t: nat :| s.pc < t < |p| && SilentBetween(p, s.pc + 1, t) && Defines(p, t, p[s.pc].assembler.lbl);
    TargetIs(p, t, p[s.pc].assembler.lbl);
    BranchStep(p, input, s);
    var u := NextPc(p, s);
    assert u == t || u == s.pc + 1;
    forall k | s.pc <= k < u ensures IsSilent(q[k].assembler.cmd) {}
    RunThroughSilence(q, input, s, u);
  }

  // ----- Unused labels -----

  ghost predicate Referenced(prog: seq<Asm>, l: Label) {
    exists j :: 0 <= j < |prog| && IsBranch(prog[j].assembler.cmd) && prog[j].assembler.lbl == l
  }

  /** A dead entry whose label text is cleared too. */
  function Erased(e: Asm): Asm {
    e.(assembler := e.assembler.(cmd := INVALID, lbl := NoLabel))
  }

  ghost predicate UnusedLabel(prog: seq<Asm>, i: nat) {
    i < |prog| && prog[i].assembler.cmd.LABEL? && !Referenced(prog, prog[i].assembler.lbl)
  }

  ghost predicate LabelsRemoved(p: seq<Asm>, q: seq<Asm>) {
    |p| == |q| && forall i :: 0 <= i < |p| ==> q[i] == if UnusedLabel(p, i) then Erased(p[i]) else p[i]
  }

  lemma LabelsRemovedTargets(p: seq<Asm>, q: seq<Asm>, j: nat)
    requires LabelsRemoved(p, q) && j < |p| && IsBranch(p[j].assembler.cmd)
    ensures Target(p, p[j].assembler.lbl) == Target(q, p[j].assembler.lbl)
  {
    var l := p[j].assembler.lbl;
    assert Referenced(p, l);
    var t, u := Target(p, l), Target(q, l);
    if t < |p| { assert Defines(q, t, l); }
    if u < |q| { assert Defines(p, u, l); }
  }

  /** Erasing labels no branch names leaves every single step as it was. */
  lemma LabelsRemovedMimics(p: seq<Asm>, q: seq<Asm>)
    requires LabelsRemoved(p, q)
    ensures Mimics(p, q)
  {
    hide Alu, Emitted, WriteBack, Value;
    forall input: Input, s: State ensures CatchesUp(p, q, input, s) {
      if s.pc < |p| {
        if UnusedLabel(p, s.pc) {
          SilentStep(p, input, s);
          SilentStep(q, input, s);
        } else if IsBranch(p[s.pc].assembler.cmd) {
          LabelsRemovedTargets(p, q, s.pc);
        }
      }
      assert Run(q, input, s, 1) == Step(q, input, s);
    }
  }

  // ----- Adjacent labels -----

  /** Every branch names a label that is defined. */
  ghost predicate BranchesDefined(prog: seq<Asm>) {
    forall j :: 0 <= j < |prog| && IsBranch(prog[j].assembler.cmd) ==> Target(prog, prog[j].assembler.lbl) < |prog|
  }

  /** No label is left that no branch names. */
  ghost predicate AllReferenced(prog: seq<Asm>) {
    forall i :: 0 <= i < |prog| && prog[i].assembler.cmd.LABEL? ==> Referenced(prog, prog[i].assembler.lbl)
  }

  function Redirected(e: Asm, from: Label, to: Label): Asm {
    if IsBranch(e.assembler.cmd) && e.assembler.lbl == from
    then e.(assembler := e.assembler.(lbl := to)) else e
  }

  /** Label j is given up for label i: its branches are redirected and it is erased. */
  ghost predicate LabelMerged(p: seq<Asm>, q: seq<Asm>, i: nat, j: nat) {
    i < j < |p| && |p| == |q| && p[i].assembler.cmd.LABEL? && p[j].assembler.cmd.LABEL? &&
    SilentBetween(p, i, j) &&
    forall k :: 0 <= k < |p| ==>
      q[k] == if k == j then Erased(p[j]) else Redirected(p[k], p[j].assembler.lbl, p[i].assembler.lbl)
  }

  lemma LabelMergedKeepsDistinct(p: seq<Asm>, q: seq<Asm>, i: nat, j: nat)
    requires LabelMerged(p, q, i, j) && DistinctLabels(p)
    ensures DistinctLabels(q)
  {
    forall k, l | 0 <= k < l < |q| && q[k].assembler.cmd.LABEL? && q[l].assembler.cmd.LABEL?
      ensures q[k].assembler.lbl != q[l].assembler.lbl
    {
      assert p[k].assembler.cmd.LABEL? && p[l].assembler.cmd.LABEL?;
    }
  }

  lemma LabelMergedTargets(p: seq<Asm>, q: seq<Asm>, i: nat, j: nat, k: nat)
    requires LabelMerged(p, q, i, j) && DistinctLabels(p) && k < |p| && IsBranch(p[k].assembler.cmd)
    ensures p[k].assembler.lbl == p[j].assembler.lbl ==>
      Target(p, p[k].assembler.lbl) == j && Target(q, q[k].assembler.lbl) == i
    ensures p[k].assembler.lbl != p[j].assembler.lbl ==>
      q[k].assembler.lbl == p[k].assembler.lbl && Target(p, p[k].assembler.lbl) == Target(q, q[k].assembler.lbl)
  {
    LabelMergedKeepsDistinct(p, q, i, j);
    var l := p[k].assembler.lbl;
    if l == p[j].assembler.lbl {
      TargetIs(p, j, l);
      TargetIs(q, i, p[i].assembler.lbl);
    } else {
      var t, u := Target(p, l), Target(q, l);
      if t < |p| { assert Defines(q, t, l); }
      if u < |q| { assert Defines(p, u, l); }
    }
  }

  /** Merging adjacent labels changes no run: a redirected jump lands a little earlier and
      walks to the old place. */
  lemma LabelMergedMimics(p: seq<Asm>, q: seq<Asm>, i: nat, j: nat)
    requires LabelMerged(p, q, i, j) && DistinctLabels(p)
    ensures Mimics(p, q)
  {
    hide Alu, Emitted, WriteBack, Value;
    forall input: Input, s: State ensures CatchesUp(p, q, input, s) {
      if s.pc < |p| && IsBranch(p[s.pc].assembler.cmd) {
        RedirectedCatchesUp(p, q, i, j, input, s);
      } else {
        if s.pc == j {
          SilentStep(p, input, s);
          SilentStep(q, input, s);
        }
        assert Run(q, input, s, 1) == Step(q, input, s);
      }
    }
  }

  lemma RedirectedCatchesUp(p: seq<Asm>, q: seq<Asm>, i: nat, j: nat, input: Input, s: State)
    requires LabelMerged(p, q, i, j) && DistinctLabels(p)
    requires s.pc < |p| && IsBranch(p[s.pc].assembler.cmd)
    ensures CatchesUp(p, q, input, s)
  {
    hide Step;
    LabelMergedTargets(p, q, i, j, s.pc);
    BranchStep(p, input, s);
    BranchStep(q, input, s);
    assert Run(q, input, s, 1) == Step(q, input, s);
    if Taken(p[s.pc].assembler, s.regs) && p[s.pc].assembler.lbl == p[j].assembler.lbl {
      var landed := s.(pc := i);
      forall k | i <= k < j ensures IsSilent(q[k].assembler.cmd) {}
      RunThroughSilence(q, input, landed, j);
      RunAdd(q, input, s, 1, j - i);
    }
  }

  /** Merging leaves branch labels defined and the other labels referenced. */
  lemma LabelMergedBookkeeping(p: seq<Asm>, q: seq<Asm>, i: nat, j: nat)
    requires LabelMerged(p, q, i, j) && DistinctLabels(p)
    ensures BranchesDefined(p) ==> BranchesDefined(q)
    ensures AllReferenced(p) ==> AllReferenced(q)
  {
    if BranchesDefined(p) {
      forall k | 0 <= k < |q| && IsBranch(q[k].assembler.cmd)
        ensures Target(q, q[k].assembler.lbl) < |q|
      {
        LabelMergedTargets(p, q, i, j, k);
      }
    }
    if AllReferenced(p) {
      forall k | 0 <= k < |q| && q[k].assembler.cmd.LABEL?
        ensures Referenced(q, q[k].assembler.lbl)
      {
        assert Referenced(p, p[k].assembler.lbl);
        var b :| 0 <= b < |p| && IsBranch(p[b].assembler.cmd) && p[b].assembler.lbl == p[k].assembler.lbl;
        assert IsBranch(q[b].assembler.cmd) && q[b].assembler.lbl == q[k].assembler.lbl;
      }
    }
  }

  lemma LabelsRemovedBookkeeping(p: seq<Asm>, q: seq<Asm>)
    requires LabelsRemoved(p, q)
    ensures AllReferenced(q)
    ensures BranchesDefined(p) ==> BranchesDefined(q)
    ensures DistinctLabels(p) ==> DistinctLabels(q)
  {
    forall k | 0 <= k < |q| && q[k].assembler.cmd.LABEL?
      ensures Referenced(q, q[k].assembler.lbl)
    {
      var b :| 0 <= b < |p| && IsBranch(p[b].assembler.cmd) && p[b].assembler.lbl == p[k].assembler.lbl;
      assert IsBranch(q[b].assembler.cmd);
    }
    if BranchesDefined(p) {
      forall k | 0 <= k < |q| && IsBranch(q[k].assembler.cmd)
        ensures Target(q, q[k].assembler.lbl) < |q|
      {
        LabelsRemovedTargets(p, q, k);
      }
    }
  }

  // ----- The passes, step by step -----

  lemma NextIsTarget(p: seq<Asm>, it: nat, next: nat, found: bool)
    requires it < next <= |p| && !p[it].noOpt && IsBranch(p[it].assembler.cmd) && SilentBetween(p, it + 1, next)
    requires found <==> exists t: nat :: it < t < next && Defines(p, t, p[it].assembler.lbl)
    requires found || next == |p| || !IsSilent(p[next].assembler.cmd)
    ensures OneStepJump(p, it) <==> found
  {
    if found {
      var t: nat :| it < t < next && Defines(p, t, p[it].assembler.lbl);
      assert SilentBetween(p, it + 1, t);
    }
    if OneStepJump(p, it) {
      var t: nat :| it < t < |p| && SilentBetween(p, it + 1, t) && Defines(p, t, p[it].assembler.lbl);
      assert t < next || found;
    }
  }

  lemma JumpsRemovedKeep(p: seq<Asm>, q: seq<Asm>)
    requires JumpsRemoved(p, q)
    ensures DistinctLabels(p) ==> Preserves(p, q) && DistinctLabels(q)
    ensures BranchesDefined(p) ==> BranchesDefined(q)
  {
    hide Preserves, OneStepJump;
    if DistinctLabels(p) {
      JumpsRemovedMimics(p, q);
      MimicsPreserves(p, q);
    }
    forall l: Label ensures Target(p, l) == Target(q, l) {
      forall i | 0 <= i < |p| ensures Defines(p, i, l) == Defines(q, i, l) {
        if OneStepJump(p, i) { BranchIsNoLabel(p, i); }
      }
      SameTargets(p, q, l);
    }
  }

  lemma BranchIsNoLabel(p: seq<Asm>, i: nat)
    requires OneStepJump(p, i)
    ensures IsBranch(p[i].assembler.cmd) && !p[i].assembler.cmd.LABEL?
  {
  }

  lemma ReferencedNow(p: seq<Asm>, now: seq<Asm>, it: nat)
    requires |now| == |p| && it < |p|
    requires forall k :: 0 <= k < it ==> now[k] == if UnusedLabel(p, k) then Erased(p[k]) else p[k]
    requires forall k :: it <= k < |p| ==> now[k] == p[k]
    ensures Referenced(p, p[it].assembler.lbl) <==>
      exists j :: 0 <= j < |now| && IsBranch(now[j].assembler.cmd) && now[j].assembler.lbl == p[it].assembler.lbl
  {
    var l := p[it].assembler.lbl;
    if Referenced(p, l) {
      var j :| 0 <= j < |p| && IsBranch(p[j].assembler.cmd) && p[j].assembler.lbl == l;
      assert now[j] == p[j];
    }
    forall j | 0 <= j < |now| && IsBranch(now[j].assembler.cmd) && now[j].assembler.lbl == l ensures Referenced(p, l) {
      assert now[j] == p[j];
    }
  }

  ghost predicate NoAdjacentLabels(q: seq<Asm>) {
    forall k :: 0 <= k < |q| - 1 ==> !(q[k].assembler.cmd.LABEL? && q[k + 1].assembler.cmd.LABEL?)
  }

  predicate IsLabel(p: seq<Asm>, k: nat) { k < |p| && p[k].assembler.cmd.LABEL? }

  /** A label right behind another one. */
  predicate Follower(p: seq<Asm>, k: nat) { IsLabel(p, k) && k > 0 && IsLabel(p, k - 1) }

  /** The first label of the run of adjacent labels that entry k belongs to. */
  function RunHead(p: seq<Asm>, k: nat): (h: nat)
    ensures h <= k && !Follower(p, h) && (IsLabel(p, k) ==> IsLabel(p, h)) && forall i :: h < i <= k ==> Follower(p, i)
  {
    if Follower(p, k) then RunHead(p, k - 1) else k
  }

  /** Entry k when the labels before entry n have been merged: followers are erased, and branches to
      a label of a run name its first. */
  function MergedUpTo(p: seq<Asm>, n: nat, k: nat): Asm
    requires k < |p|
  {
    var t := Target(p, p[k].assembler.lbl);
    if k < n && Follower(p, k) then Erased(p[k])
    else if IsBranch(p[k].assembler.cmd) && t < n && t < |p| then
      p[k].(assembler := p[k].assembler.(lbl := p[RunHead(p, t)].assembler.lbl))
    else p[k]
  }

  function LabelsMerged(p: seq<Asm>): (q: seq<Asm>)
    ensures |q| == |p|
  {
    seq(|p|, k requires 0 <= k < |p| => MergedUpTo(p, |p|, k))
  }

  lemma NoneMerged(p: seq<Asm>, k: nat)
    requires k < |p|
    ensures MergedUpTo(p, 0, k) == p[k]
  {
  }

  /** An entry that is no follower adds nothing. */
  lemma NothingMerges(p: seq<Asm>, n: nat, k: nat)
    requires DistinctLabels(p) && k < |p| && !Follower(p, n)
    ensures MergedUpTo(p, n + 1, k) == MergedUpTo(p, n, k)
  {
    var t := Target(p, p[k].assembler.lbl);
    if t == n && t < |p| { assert RunHead(p, t) == t; }
  }

  /** A follower is erased and its branches redirected. */
  lemma FollowerMerges(p: seq<Asm>, h: nat, n: nat, k: nat)
    requires DistinctLabels(p) && k < |p| && Follower(p, n) && h < n && RunHead(p, n) == h
    ensures MergedUpTo(p, n + 1, k) ==
      if k == n then Erased(p[n]) else Redirected(MergedUpTo(p, n, k), p[n].assembler.lbl, p[h].assembler.lbl)
    ensures MergedUpTo(p, n, n) == p[n] && MergedUpTo(p, n, h) == p[h]
  {
    var l := p[k].assembler.lbl;
    var t := Target(p, l);
    if IsBranch(p[k].assembler.cmd) {
      if l == p[n].assembler.lbl { TargetIs(p, n, l); }
      if t < n { assert IsLabel(p, RunHead(p, t)) && RunHead(p, t) < n; }
    }
  }

  lemma {:induction false} RunGoesOn(p: seq<Asm>, h: nat, n: nat)
    requires h < n && IsLabel(p, h) && !Follower(p, h) && IsLabel(p, n) && forall i :: h < i < n ==> Follower(p, i)
    ensures Follower(p, n) && RunHead(p, n) == h
    decreases n
  {
    if h < n - 1 {
      assert Follower(p, n - 1);
      RunGoesOn(p, h, n - 1);
    }
  }

  /** What merging labels keeps. */
  ghost predicate LabelsTidied(p: seq<Asm>, q: seq<Asm>) {
    Preserves(p, q) && DistinctLabels(q) && (BranchesDefined(p) ==> BranchesDefined(q)) && (AllReferenced(p) ==> AllReferenced(q))
  }

  lemma LabelsTidiedReflexive(p: seq<Asm>)
    ensures DistinctLabels(p) ==> LabelsTidied(p, p)
  {
    PreservesReflexive(p);
  }

  lemma LabelsTidiedStep(p: seq<Asm>, q: seq<Asm>, r: seq<Asm>, i: nat, j: nat)
    requires LabelsTidied(p, q) && LabelMerged(q, r, i, j)
    ensures LabelsTidied(p, r)
  {
    hide Preserves, DistinctLabels, BranchesDefined, AllReferenced, LabelMerged;
    LabelMergedMimics(q, r, i, j);
    MimicsPreserves(q, r);
    PreservesTransitive(p, q, r);
    LabelMergedKeepsDistinct(q, r, i, j);
    LabelMergedBookkeeping(q, r, i, j);
  }

  /** Labels only go, and from entry n on none has gone. */
  ghost predicate LabelsLeft(p: seq<Asm>, now: seq<Asm>, n: nat) {
    |now| == |p| &&
    (forall k :: 0 <= k < |p| && now[k].assembler.cmd.LABEL? ==> p[k].assembler.cmd.LABEL?) &&
    forall k :: n <= k < |p| ==> now[k].assembler.cmd == p[k].assembler.cmd
  }

  ghost predicate NoneAdjacentBefore(now: seq<Asm>, it: nat) {
    forall k :: 0 <= k < it && k + 1 < |now| ==> !(now[k].assembler.cmd.LABEL? && now[k + 1].assembler.cmd.LABEL?)
  }

  /** Merging label n into label h, with nothing but labels given up between. */
  lemma GiveUpLabel(p: seq<Asm>, before: seq<Asm>, now: seq<Asm>, h: nat, n: nat)
    requires LabelMerged(before, now, h, n) && LabelsLeft(p, before, n) && NoneAdjacentBefore(before, h)
    requires forall k :: h < k < n ==> before[k].assembler.cmd.INVALID?
    ensures LabelsLeft(p, now, n + 1) && NoneAdjacentBefore(now, h) && now[h].assembler.cmd.LABEL?
    ensures forall k :: h < k < n + 1 ==> now[k].assembler.cmd.INVALID?
  {
    hide DistinctLabels;
    forall k | 0 <= k < |p| ensures now[k].assembler.cmd == if k == n then INVALID else before[k].assembler.cmd {}
  }

  /** The list when the labels before entry n have been merged. */
  ghost predicate MergedInto(p: seq<Asm>, now: seq<Asm>, n: nat) {
    |now| == |p| && DistinctLabels(p) ==> LabelsTidied(p, now) && forall k: nat :: k < |p| ==> now[k] == MergedUpTo(p, n, k)
  }

  lemma NothingMergedYet(p: seq<Asm>)
    ensures MergedInto(p, p, 0)
  {
    hide LabelsTidied, DistinctLabels;
    LabelsTidiedReflexive(p);
    forall k: nat | k < |p| ensures p[k] == MergedUpTo(p, 0, k) { NoneMerged(p, k); }
  }

  lemma PassedInto(p: seq<Asm>, now: seq<Asm>, n: nat)
    requires MergedInto(p, now, n) && !Follower(p, n)
    ensures MergedInto(p, now, n + 1)
  {
    hide LabelsTidied, DistinctLabels, MergedUpTo;
    if |now| == |p| && DistinctLabels(p) {
      forall k: nat | k < |p| ensures MergedUpTo(p, n + 1, k) == MergedUpTo(p, n, k) { NothingMerges(p, n, k); }
    }
  }

  /** One label given up. */
  lemma FollowerInto(p: seq<Asm>, before: seq<Asm>, now: seq<Asm>, h: nat, n: nat)
    requires MergedInto(p, before, n) && |before| == |p| && LabelMerged(before, now, h, n)
    requires h < n && Follower(p, n) && RunHead(p, n) == h
    ensures MergedInto(p, now, n + 1)
  {
    hide LabelsTidied, DistinctLabels, MergedUpTo, RunHead;
    if DistinctLabels(p) {
      LabelsTidiedStep(p, before, now, h, n);
      forall k: nat | k < |p| ensures now[k] == MergedUpTo(p, n + 1, k) {
        FollowerMerges(p, h, n, k);
      }
    }
  }

  lemma MergedIntoAll(p: seq<Asm>, now: seq<Asm>)
    requires MergedInto(p, now, |p|) && |now| == |p|
    ensures DistinctLabels(p) ==> now == LabelsMerged(p) && LabelsTidied(p, now)
  {
    hide LabelsTidied, DistinctLabels, MergedUpTo;
  }

  /** Entries exempt from optimisation keep their jumps. */
  lemma ExemptJumpsStay(p: seq<Asm>, q: seq<Asm>, i: nat)
    requires JumpsRemoved(p, q) && i < |p| && p[i].noOpt
    ensures q[i] == p[i]
  {
  }
}
