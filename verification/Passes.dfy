/** The passes of the optimiser one after the other. */
module Passes {
  import opened Instructions
  import opened Machine
  import opened Liveness
  import opened LiveRanges
  import opened Allocation
  import opened JumpsAndLabels
  import opened DeadCode
  import opened Zeroing
  import opened UnusedRegisters
  import opened SplitConstants
  import opened SplitPlans

  /** Which passes run: 0x01, 0x02, 0x04, 0x08 and 0x10. */
  datatype Flags = Flags(jumps: bool, labels: bool, deadCode: bool, unused: bool, registers: bool)

  /** The lists between the passes, and what allocation worked with. */
  datatype Stages = Stages(jumps: seq<Asm>, unlabelled: seq<Asm>, labels: seq<Asm>, zeroed: seq<Asm>, unused: seq<Asm>,
                           base: seq<Asm>, firstCount: nat, numRegs: nat, retried: bool, ranges: Ranges, naming: Naming) {
    function Result(flags: Flags): seq<Asm> {
      if flags.registers then RenameAll(naming, base) else zeroed
    }
  }

  /** The register numbers the stages use. */
  ghost function RegisterCount(flags: Flags, first: nat, st: Stages): nat {
    RemoveFrom(st.zeroed, 0, [], 0, flags.unused).1 + (if st.retried then SplitConstantsOf(st.unused, first).count else 0)
  }

  /** Each stage is what its pass makes of the one before. */
  ghost predicate StagesOf(flags: Flags, first: nat, input: seq<Asm>, st: Stages) {
    (if flags.jumps then JumpsRemoved(input, st.jumps) else st.jumps == input) &&
    (if flags.labels then LabelsRemoved(st.jumps, st.unlabelled) else st.unlabelled == st.jumps) &&
    (if flags.labels
     then NoAdjacentLabels(st.labels) && (DistinctLabels(st.unlabelled) ==> MergedWell(st.unlabelled, st.labels))
     else st.labels == st.unlabelled) &&
    (if flags.unused then ZerosMerged(st.labels, st.zeroed) else st.zeroed == st.labels) &&
    (flags.registers ==> RegisterStagesOf(flags, first, st))
  }

  ghost predicate MergedWell(p: seq<Asm>, q: seq<Asm>) { q == LabelsMerged(p) && LabelsTidied(p, q) }

  ghost predicate RegisterStagesOf(flags: Flags, first: nat, st: Stages) {
    (st.unused, st.firstCount) == RemoveFrom(st.zeroed, 0, [], 0, flags.unused) &&
    st.base == (if st.retried then SplitConstantsOf(st.unused, first).list else st.unused) &&
    st.numRegs == RegisterCount(flags, first, st) &&
    RangesOf(st.base, st.numRegs, st.ranges) && KeepsApart(st.ranges, st.naming)
  }

  /** What the register passes ask of the lists they get. */
  ghost predicate StagesSafe(flags: Flags, first: nat, input: seq<Asm>, st: Stages) {
    DistinctLabels(input) && (flags.registers ==> RegisterStagesSafe(flags, first, st))
  }

  ghost predicate RegisterStagesSafe(flags: Flags, first: nat, st: Stages) {
    (RemovalSafe(st.zeroed) || !flags.unused) && (st.retried ==> SplitsSafe(st.unused, first) || SplitsApart(st.unused, first)) &&
    AllocationSafe(st.base, st.naming)
  }

  /** The whole pipeline changes nothing an observer sees. */
  lemma StagesEquivalent(flags: Flags, first: nat, input: seq<Asm>, st: Stages)
    requires StagesOf(flags, first, input, st)
    ensures StagesSafe(flags, first, input, st) ==> Equivalent(input, st.Result(flags))
  {
    hide JumpsRemoved, LabelsRemoved, DistinctLabels, LabelsTidied, ZerosMerged, RegisterStagesOf, Equivalent, Preserves, RenameAll;
    hide RegisterStagesSafe;
    if StagesSafe(flags, first, input, st) {
      LabelStages(flags, first, input, st);
      if flags.unused { ZerosMergedPreserves(st.labels, st.zeroed); } else { PreservesReflexive(st.labels); }
      PreservesTransitive(input, st.labels, st.zeroed);
      PreservesEquivalent(input, st.zeroed);
      if flags.registers {
        RegisterStages(flags, first, st);
        EquivalentTransitive(input, st.zeroed, st.Result(flags));
      }
    }
  }

  lemma LabelStages(flags: Flags, first: nat, input: seq<Asm>, st: Stages)
    requires StagesOf(flags, first, input, st) && DistinctLabels(input)
    ensures Preserves(input, st.labels)
  {
    hide JumpsRemoved, LabelsRemoved, DistinctLabels, ZerosMerged, RegisterStagesOf, Preserves, BranchesDefined, AllReferenced;
    PreservesReflexive(input);
    if flags.jumps { JumpsRemovedKeep(input, st.jumps); }
    if flags.labels {
      LabelsRemovedMimics(st.jumps, st.unlabelled);
      MimicsPreserves(st.jumps, st.unlabelled);
      LabelsRemovedBookkeeping(st.jumps, st.unlabelled);
      PreservesTransitive(input, st.jumps, st.unlabelled);
      PreservesTransitive(input, st.unlabelled, st.labels);
    }
  }

  lemma RegisterStages(flags: Flags, first: nat, st: Stages)
    requires flags.registers && RegisterStagesOf(flags, first, st)
    requires RegisterStagesSafe(flags, first, st)
    ensures Equivalent(st.zeroed, st.Result(flags))
  {
    hide RemovalSafe, SplitsSafe, SplitsApart, AllocationSafe, RangesOf, KeepsApart, RenameAll, RemoveFrom, SplitConstantsOf, Equivalent, Preserves;
    RemovalPreserves(st.zeroed, flags.unused);
    PreservesEquivalent(st.zeroed, st.unused);
    if st.retried {
      if SplitsApart(st.unused, first) { SplitsPlanned(st.unused, first); }
      SplitConstantsKeep(st.unused, first);
      EquivalentTransitive(st.zeroed, st.unused, st.base);
    }
    AllocationResults(st.base, st.numRegs, st.ranges, st.naming, 0);
    PreservesEquivalent(st.base, st.Result(flags));
    EquivalentTransitive(st.zeroed, st.base, st.Result(flags));
  }

  /** Which registers the count handed to the allocator misses: those moved up by a fold, and after
      a retry the fresh ones when the register counter is too far ahead. */
  lemma MissedRegisters(flags: Flags, first: nat, st: Stages, limit: nat)
    requires RegisterStagesOf(flags, first, st)
    ensures !st.retried ==>
      (MissedBelow(st.base, st.numRegs, limit) <==> !flags.unused || MissedFoldsBelow(st.zeroed, st.numRegs, limit))
    ensures var count := RemoveFrom(st.zeroed, 0, [], 0, flags.unused).1;
      var s := SplitConstantsOf(st.unused, first);
      st.retried && SplitsApart(st.unused, first) && (!flags.unused || FoldsCounted(st.zeroed, count)) ==>
        (MissedBelow(st.base, st.numRegs, limit) <==>
           s.first == first || first <= count + SplittableLoadsIn(st.unused) + 1 || s.first <= limit)
  {
    hide RemoveFrom, SplitConstantsOf, RangesOf, KeepsApart, SplitsApart, MissedFoldsBelow, FoldsCounted, SplittableLoadsIn, BoundsRegisters, MentionedAt;
    var count := RemoveFrom(st.zeroed, 0, [], 0, flags.unused).1;
    CountBoundsIff(st.zeroed, limit);
    if st.retried {
      if SplitsApart(st.unused, first) { SplitsApartResult(st.unused, first, count, limit); }
    } else if !flags.unused {
      BoundedMissesNothing(st.base, st.numRegs, limit);
    }
  }

  lemma BoundedMissesNothing(prog: seq<Asm>, count: nat, limit: nat)
    requires BoundsRegisters(prog, count)
    ensures MissedBelow(prog, count, limit)
  {
    hide MentionedAt;
  }

  /** With the label passes on, branches stay defined, labels stay distinct, and every label
      left is named by some branch. */
  lemma LabelsKept(flags: Flags, first: nat, input: seq<Asm>, st: Stages)
    requires StagesOf(flags, first, input, st) && flags.labels && DistinctLabels(input) && BranchesDefined(input)
    ensures DistinctLabels(st.zeroed) && BranchesDefined(st.zeroed) && AllReferenced(st.zeroed)
  {
    hide JumpsRemoved, LabelsRemoved, DistinctLabels, ZerosMerged, RegisterStagesOf, Preserves, BranchesDefined, AllReferenced;
    if flags.jumps { JumpsRemovedKeep(input, st.jumps); }
    LabelsRemovedBookkeeping(st.jumps, st.unlabelled);
    if flags.unused { ZeroingKeepsLabels(st.labels, st.zeroed); }
  }

  lemma ZeroingKeepsLabels(p: seq<Asm>, q: seq<Asm>)
    requires ZerosMerged(p, q)
    ensures DistinctLabels(p) ==> DistinctLabels(q)
    ensures BranchesDefined(p) ==> BranchesDefined(q)
    ensures AllReferenced(p) ==> AllReferenced(q)
  {
    forall i | 0 <= i < |p| ensures p[i].assembler.lbl == q[i].assembler.lbl && (p[i].assembler.cmd.LABEL? <==> q[i].assembler.cmd.LABEL?) &&
      (IsBranch(p[i].assembler.cmd) <==> IsBranch(q[i].assembler.cmd))
    {
      assert q[i] == if ZeroPair(p, i + 1) then Killed(p[i]) else if ZeroPair(p, i) then FromZero(p[i]) else p[i];
    }
    hide ZerosMerged;
    if AllReferenced(p) {
      forall i | 0 <= i < |q| && q[i].assembler.cmd.LABEL? ensures Referenced(q, q[i].assembler.lbl) {
        var j :| 0 <= j < |p| && IsBranch(p[j].assembler.cmd) && p[j].assembler.lbl == p[i].assembler.lbl;
        assert IsBranch(q[j].assembler.cmd);
      }
    }
    forall l: Label ensures Target(p, l) == Target(q, l) { SameTargets(p, q, l); }
  }
}
