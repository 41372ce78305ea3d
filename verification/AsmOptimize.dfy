/** The optimiser: a working copy of the instruction list that each pass rewrites in place. */
module Optimizer {
  import opened Instructions
  import opened Machine
  import opened Liveness
  import opened LiveRanges
  import opened Allocation
  import opened JumpsAndLabels
  import opened DeadCode
  import opened Zeroing
  import opened UnusedRegisters
  import opened SplitRegisters
  import opened SplitConstants
  import opened SplitPlans
  import opened Passes

  class AsmOptimize {
    const numPhysicalRegs: nat
    const flags: Flags
    var asm: seq<Asm>
    /** The next register number nobody uses. */
    var regNumber: nat

    constructor (numPhysicalRegs: nat, flags: Flags, regNumber: nat)
      ensures this.numPhysicalRegs == numPhysicalRegs && this.flags == flags && this.regNumber == regNumber && asm == []
    {
      this.numPhysicalRegs := numPhysicalRegs;
      this.flags := flags;
      this.regNumber := regNumber;
      asm := [];
    }

    // ----- Dead code -----

    /** Does a branch above entry i name the label? */
    method IsLabelCalled(l: Label, i: nat) returns (called: bool)
      requires i <= |asm|
      ensures called <==> exists j :: 0 <= j < i && IsBranch(asm[j].assembler.cmd) && asm[j].assembler.lbl == l
    {
      for pos := 0 to i
        invariant forall j :: 0 <= j < pos ==> !(IsBranch(asm[j].assembler.cmd) && asm[j].assembler.lbl == l)
      {
        if IsBranch(asm[pos].assembler.cmd) && asm[pos].assembler.lbl == l {
          return true;
        }
      }
      return false;
    }

    /** Kills what stands behind an unconditional branch, up to a label called from above. */
    method DeadCodeElimination()
      modifies this`asm
      ensures DeadCodeRemoved(old(asm), asm)
      ensures NoJumpBackIntoDead(old(asm)) ==> Preserves(old(asm), asm)
    {
      hide Preserves, NoJumpBackIntoDead;
      ghost var p := asm;
      var afterBranch := false;
      for it := 0 to |asm|
        invariant |asm| == |p| && afterBranch == AfterBranch(p, it)
        invariant forall k :: 0 <= k < it ==> asm[k] == if KilledAt(p, k) then Killed(p[k]) else p[k]
        invariant forall k :: it <= k < |p| ==> asm[k] == p[k]
      {
        var a := asm[it].assembler;
        if afterBranch {
          if a.cmd.LABEL? {
            var called := IsLabelCalled(a.lbl, it);
            CalledNow(p, asm, it);
            afterBranch := !called;
          } else {
            asm := asm[it := Killed(asm[it])];
          }
        } else {
          afterBranch := a.cmd.JMP? || (a.cmd.BRZ? && a.regSrc == R(0));
        }
      }
      if NoJumpBackIntoDead(p) { DeadCodePreserves(p, asm); }
    }

    // ----- Jumps and labels -----

    /** Kills branches whose label is the next thing that counts. */
    method OneStepJumpElimination()
      modifies this`asm
      ensures JumpsRemoved(old(asm), asm) && |asm| == |old(asm)|
      ensures DistinctLabels(old(asm)) ==> Preserves(old(asm), asm) && DistinctLabels(asm)
      ensures BranchesDefined(old(asm)) ==> BranchesDefined(asm)
    {
      hide Preserves;
      ghost var p := asm;
      for it := 0 to |asm|
        invariant |asm| == |p|
        invariant forall k :: 0 <= k < it ==> asm[k] == if OneStepJump(p, k) then Killed(p[k]) else p[k]
        invariant forall k :: it <= k < |p| ==> asm[k] == p[k]
      {
        if asm[it].noOpt || !IsBranch(asm[it].assembler.cmd) {
          continue;
        }
        var targetLabel := asm[it].assembler.lbl;
        var next, found := it + 1, false;
        while next < |asm| && !found && IsSilent(asm[next].assembler.cmd)
          invariant it < next <= |asm| && |asm| == |p|
          invariant SilentBetween(p, it + 1, next)
          invariant forall t :: it < t < next ==> Defines(p, t, targetLabel) ==> found && t == next - 1
          invariant found ==> it + 1 < next && Defines(p, next - 1, targetLabel)
        {
          found := asm[next].assembler.cmd.LABEL? && asm[next].assembler.lbl == targetLabel;
          next := next + 1;
        }
        NextIsTarget(p, it, next, found);
        if found {
          asm := asm[it := Killed(asm[it])];
        }
      }
      JumpsRemovedKeep(p, asm);
    }

    /** Erases labels no branch names. */
    method RemoveUnusedLabels()
      modifies this`asm
      ensures LabelsRemoved(old(asm), asm) && |asm| == |old(asm)|
      ensures Preserves(old(asm), asm) && AllReferenced(asm)
      ensures BranchesDefined(old(asm)) ==> BranchesDefined(asm)
      ensures DistinctLabels(old(asm)) ==> DistinctLabels(asm)
    {
      hide Preserves;
      ghost var p := asm;
      for it := 0 to |asm|
        invariant |asm| == |p|
        invariant forall k :: 0 <= k < it ==> asm[k] == if UnusedLabel(p, k) then Erased(p[k]) else p[k]
        invariant forall k :: it <= k < |p| ==> asm[k] == p[k]
      {
        if !asm[it].assembler.cmd.LABEL? {
          continue;
        }
        var found := IsLabelCalled(asm[it].assembler.lbl, |asm|);
        ReferencedNow(p, asm, it);
        if !found {
          asm := asm[it := Erased(asm[it])];
        }
      }
      LabelsRemovedMimics(p, asm);
      MimicsPreserves(p, asm);
      LabelsRemovedBookkeeping(p, asm);
    }

    /** Renames every branch to `from` into a branch to `to`. */
    method Redirect(from: Label, to: Label)
      modifies this`asm
      ensures |asm| == |old(asm)|
      ensures forall k :: 0 <= k < |asm| ==> asm[k] == Redirected(old(asm)[k], from, to)
    {
      for scan := 0 to |asm|
        invariant |asm| == |old(asm)|
        invariant forall k :: 0 <= k < scan ==> asm[k] == Redirected(old(asm)[k], from, to)
        invariant forall k :: scan <= k < |asm| ==> asm[k] == old(asm)[k]
      {
        if IsBranch(asm[scan].assembler.cmd) && asm[scan].assembler.lbl == from {
          asm := asm[scan := asm[scan].(assembler := asm[scan].assembler.(lbl := to))];
        }
      }
    }

    /** Makes one label of each run of adjacent labels. */
    method MergeLabels()
      modifies this`asm
      ensures |asm| == |old(asm)| && NoAdjacentLabels(asm)
      ensures DistinctLabels(old(asm)) ==> asm == LabelsMerged(old(asm)) && LabelsTidied(old(asm), asm)
    {
      hide LabelsTidied, DistinctLabels, MergedInto, RunHead;
      ghost var p := asm;
      ghost var n := 0;
      NothingMergedYet(p);
      for it := 0 to |asm|
        invariant it <= n <= |asm| && LabelsLeft(p, asm, n) && NoneAdjacentBefore(asm, it) && MergedInto(p, asm, n)
        invariant n < |p| ==> !Follower(p, n)
        invariant forall k :: it <= k < n ==> !asm[k].assembler.cmd.LABEL?
      {
        if it == n {
          PassedInto(p, asm, n);
          n := n + 1;
        }
        if !asm[it].assembler.cmd.LABEL? {
          continue;
        }
        n := MergeRun(p, it);
      }
      MergedIntoAll(p, asm);
    }

    /** Gives up the labels right behind the one at entry it. */
    method MergeRun(ghost p: seq<Asm>, it: nat) returns (ghost n: nat)
      requires it < |asm| && asm[it].assembler.cmd.LABEL? && !Follower(p, it)
      requires LabelsLeft(p, asm, it + 1) && NoneAdjacentBefore(asm, it) && MergedInto(p, asm, it + 1)
      modifies this`asm
      ensures it < n <= |asm| && LabelsLeft(p, asm, n) && NoneAdjacentBefore(asm, it + 1) && MergedInto(p, asm, n)
      ensures n < |p| ==> !Follower(p, n)
      ensures forall k :: it < k < n ==> !asm[k].assembler.cmd.LABEL?
    {
      hide LabelsTidied, DistinctLabels, MergedInto, RunHead;
      var next := it + 1;
      while next < |asm| && asm[next].assembler.cmd.LABEL?
        invariant it < next <= |asm| && asm[it].assembler.cmd.LABEL?
        invariant LabelsLeft(p, asm, next) && NoneAdjacentBefore(asm, it) && MergedInto(p, asm, next)
        invariant forall i :: it < i < next ==> Follower(p, i)
        invariant forall k :: it < k < next ==> asm[k].assembler.cmd.INVALID?
      {
        ghost var before := asm;
        RunGoesOn(p, it, next);
        Redirect(asm[next].assembler.lbl, asm[it].assembler.lbl);
        asm := asm[next := Erased(asm[next])];
        assert LabelMerged(before, asm, it, next);
        GiveUpLabel(p, before, asm, it, next);
        FollowerInto(p, before, asm, it, next);
        next := next + 1;
      }
      return next;
    }

    // ----- Registers -----

    /** Folds a register clear into the upper-immediate add behind it. */
    method MergeRegisterZeroing()
      requires asm != []
      modifies this`asm
      ensures ZerosMerged(old(asm), asm)
      ensures Preserves(old(asm), asm)
    {
      hide Preserves;
      ghost var p := asm;
      for it := 1 to |asm|
        invariant |asm| == |p|
        invariant forall k :: 0 <= k < it ==> asm[k] == ZeroMergedUpTo(p, it, k)
        invariant forall k :: it <= k < |p| ==> asm[k] == p[k]
      {
        var prev, cur := asm[it - 1].assembler, asm[it].assembler;
        PairSeen(p, asm, it);
        if !asm[it].noOpt && prev.cmd.ADDI? && prev.regSrc == R(0) && prev.outputs == [0] &&
           cur.cmd.ADDIU? && cur.regSrc == cur.regDst && cur.regSrc == prev.regDst {
          asm := asm[it - 1 := Killed(asm[it - 1])][it := FromZero(asm[it])];
        }
      }
      ZerosMergedPreserves(p, asm);
    }

    /** Folds `ADDI x,d,0` into the entry before it when d is not named again. */
    method SimplifyAssign(it: nat) returns (done: bool)
      requires it < |asm|
      modifies this`asm
      ensures done == CanFold(old(asm), it) && asm == Fold(old(asm), it)
    {
      var next := it + 1;
      if next == |asm| || !IsCopy(asm[next].assembler) || asm[next].assembler.regSrc != asm[it].assembler.regDst {
        return false;
      }
      var destReg := asm[it].assembler.regDst;
      for scan := it + 2 to |asm|
        invariant forall k :: it + 2 <= k < scan ==> asm[k].assembler.regSrc != destReg && asm[k].assembler.regAux != destReg
      {
        if asm[scan].assembler.regSrc == destReg || asm[scan].assembler.regAux == destReg {
          return false;
        }
      }
      asm := asm[it := asm[it].(assembler := asm[it].assembler.(regDst := asm[next].assembler.regDst))]
                [next := Killed(asm[next])];
      return true;
    }

    /** How reg is used from entry i on. */
    method ScanUsage(i: nat, reg: Register) returns (usage: Usage)
      requires i <= |asm|
      ensures usage == UsageFrom(asm, i, reg, false, false)
    {
      var read, written := false, false;
      for scan := i to |asm|
        invariant UsageFrom(asm, i, reg, false, false) == UsageFrom(asm, scan, reg, read, written)
      {
        var a := asm[scan].assembler;
        if a.cmd.INVALID? {
          continue;
        }
        if a.regSrc == reg {
          if IsBranch(a.cmd) {
            return GiveUp;
          }
          read := true;
        }
        if a.regDst == reg {
          written := true;
        }
        if a.regAux == reg || (read && written) {
          return GiveUp;
        }
      }
      return Usage.Flags(read, written);
    }

    /** Examines the register written at entry it, unless it was examined before. */
    method VisitEntry(it: nat, tracked: seq<Register>) returns (writeOnlyRegs: seq<Register>)
      requires it < |asm|
      modifies this`asm
      ensures (asm, writeOnlyRegs) == Visit(old(asm), it, tracked)
    {
      hide UsageFrom, Fold;
      writeOnlyRegs := tracked;
      var a := asm[it].assembler;
      var destReg := Destination(a);
      if !WritesDst(a.cmd) || destReg in tracked {
        return;
      }
      writeOnlyRegs := writeOnlyRegs + [destReg];
      var usage := ScanUsage(it + 1, destReg);
      if usage.GiveUp? {
        return;
      }
      if !usage.read {
        asm := asm[it := KillWrite(asm[it])];
      } else if !usage.written {
        var _ := SimplifyAssign(it);
      }
    }

    /** Removes writes never read and folds copies; returns the highest register number counted. */
    method RemoveUnusedRegs() returns (maxReg: nat)
      modifies this`asm
      ensures (asm, maxReg) == RemoveFrom(old(asm), 0, [], 0, flags.unused)
      ensures RemovalSafe(old(asm)) || !flags.unused ==> Preserves(old(asm), asm)
      ensures BoundsRegisters(asm, maxReg) <==> !flags.unused || FoldsCounted(old(asm), maxReg)
    {
      hide Preserves, RemovalSafe, Visit, BoundsRegisters, FoldsCounted;
      maxReg := 0;
      var writeOnlyRegs: seq<Register> := [];
      for it := 0 to |asm|
        invariant |asm| == |old(asm)|
        invariant RemoveFrom(old(asm), 0, [], 0, flags.unused) == RemoveFrom(asm, it, writeOnlyRegs, maxReg, flags.unused)
      {
        ghost var before, tracked := asm, writeOnlyRegs;
        var a := asm[it].assembler;
        if !IsBarrier(a.cmd) {
          var highest := HighestRegisterNumber(a);
          if highest > maxReg {
            maxReg := highest;
          }
          if flags.unused {
            writeOnlyRegs := VisitEntry(it, writeOnlyRegs);
          }
        }
        BarrierVisited(before, it, tracked);
      }
      RemovalPreserves(old(asm), flags.unused);
      CountBoundsIff(old(asm), 0);
    }

    // ----- Splitting constant registers -----

    /** The highest register number named in the list, or 0. */
    static method MaxRegister(list: seq<Asm>) returns (maxReg: nat)
      ensures forall i, r: nat :: 0 <= i < |list| && r in Mentions(list[i].assembler) ==> r <= maxReg
      ensures maxReg == 0 || exists i :: 0 <= i < |list| && HighestRegisterNumber(list[i].assembler) == maxReg
    {
      maxReg := 0;
      for i := 0 to |list|
        invariant forall k, r: nat :: 0 <= k < i && r in Mentions(list[k].assembler) ==> r <= maxReg
        invariant maxReg == 0 || exists k :: 0 <= k < i && HighestRegisterNumber(list[k].assembler) == maxReg
      {
        var highest := HighestRegisterNumber(list[i].assembler);
        if highest > maxReg {
          maxReg := highest;
        }
      }
    }

    /** Moves the register counter past every register of the list. */
    method PrepareResources(list: seq<Asm>)
      modifies this`regNumber
      ensures regNumber >= old(regNumber)
      ensures forall i, r: nat :: 0 <= i < |list| && r in Mentions(list[i].assembler) ==> r < regNumber
      ensures regNumber <= 1 || regNumber == old(regNumber) ||
        exists i :: 0 <= i < |list| && regNumber - 1 in Mentions(list[i].assembler)
    {
      var maxReg := MaxRegister(list);
      while regNumber <= maxReg
        invariant regNumber >= old(regNumber)
        invariant regNumber <= maxReg + 1 || regNumber == old(regNumber)
      {
        regNumber := regNumber + 1;
      }
      if maxReg > 0 {
        ghost var i :| 0 <= i < |list| && HighestRegisterNumber(list[i].assembler) == maxReg;
        assert maxReg in Mentions(list[i].assembler);
      }
    }

    /** Gives each far use of reg a fresh register, reloaded in the two entries before it. */
    method SplitReg(listIn: seq<Asm>, reg: Register, start: nat, end: nat) returns (list: seq<Asm>)
      requires start < |listIn| && end == LoadEnd(listIn, start, start + 1)
      modifies this`regNumber
      ensures var sp := Split(reg, start, end, old(regNumber));
        SplitInto(listIn, sp, list) && regNumber == old(regNumber) + FarUses(listIn, sp, |listIn|)
    {
      hide FarUse, NearUse, CountInstructions, SplitUpTo, IsRead, IsWritten, IsBarrier, FarUses, LoadEnd, Retargeted;
      ghost var sp := Split(reg, start, end, regNumber);
      list := listIn;
      var didSplit, allSplitOk, instrCount := false, true, 0;
      NoUsesYet(listIn, sp);
      forall k: nat | k < |listIn| ensures listIn[k] == SplitUpTo(listIn, sp, start + 1, k) { NoneApplied(listIn, sp, k); }
      for iter := start + 1 to |list|
        invariant |list| == |listIn| && instrCount == CountInstructions(listIn, start + 1, iter)
        invariant regNumber == old(regNumber) + FarUses(listIn, sp, iter)
        invariant didSplit <==> exists i: nat :: i < iter && FarUse(listIn, sp, i)
        invariant allSplitOk <==> forall i: nat :: i < iter ==> !NearUse(listIn, sp, i)
        invariant forall k: nat :: k < |listIn| ==> list[k] == SplitUpTo(listIn, sp, iter, k)
      {
        LoadsUntouched(listIn, sp, iter);
        SplitOneMore(listIn, sp, iter);
        SplitApplied(listIn, sp, iter, list);
        var a := list[iter].assembler;
        if IsBarrier(a.cmd) {
          continue;
        }
        var usesReg := IsRead(a, reg) && !IsWritten(a, reg);
        if usesReg && instrCount < SPLIT_DISTANCE {
          allSplitOk := false;
        } else if usesReg {
          ghost var done := WithUseSplit(listIn, sp, iter, list);
          var newReg := R(regNumber);
          regNumber := regNumber + 1;
          list := list[iter - 2 := Reload(list[start], newReg, list[start].assembler.regSrc)];
          if end != |list| {
            list := list[iter - 1 := Reload(list[end], newReg, if list[start].assembler.cmd.ADDI? then newReg else R(0))];
          }
          list := list[iter := Retargeted(list[iter], reg, newReg)];
          assert list == done;
          didSplit := true;
        }
        instrCount := instrCount + 1;
      }
      NoUsesBeyond(listIn, sp);
      ghost var split := list;
      if allSplitOk && didSplit {
        list := list[start := Killed(list[start])];
        if end != |list| {
          list := list[end := Killed(list[end])];
        }
      }
      SplitFinished(listIn, sp, split, list);
    }

    // ----- Register allocation -----

    /** Appends instrIdx to the ranges of the registers the entry names, each once. */
    static function AddToLiveRange(ranges: Ranges, reg: Register, instrIdx: nat): (r: Ranges)
      ensures |r| == |ranges|
      ensures forall v :: 0 <= v < |r| ==>
        r[v] == if v > 0 && reg == R(v) then ranges[v] + [instrIdx] else ranges[v]
    {
      if reg.R? && 0 < reg.number < |ranges|
      then ranges[reg.number := ranges[reg.number] + [instrIdx]]
      else ranges
    }

    static function RecordEntry(ranges: Ranges, a: Assembler, instrIdx: nat): (r: Ranges)
      ensures |r| == |ranges|
      ensures forall v :: 0 <= v < |r| ==>
        r[v] == if v in Mentions(a) then ranges[v] + [instrIdx] else ranges[v]
    {
      var dst := AddToLiveRange(ranges, a.regDst, instrIdx);
      var src := if a.regSrc != a.regDst then AddToLiveRange(dst, a.regSrc, instrIdx) else dst;
      if a.regAux != a.regDst && a.regAux != a.regSrc then AddToLiveRange(src, a.regAux, instrIdx) else src
    }

    method RecordMentions(numRegs: nat) returns (liveRanges: Ranges)
      ensures |liveRanges| == numRegs + 1 && liveRanges[0] == []
      ensures forall r :: 1 <= r <= numRegs ==> MentionsUpTo(asm, r, liveRanges[r], |asm|)
    {
      liveRanges := seq(numRegs + 1, _ => []);
      for instrIdx := 0 to |asm|
        invariant |liveRanges| == numRegs + 1 && liveRanges[0] == []
        invariant forall r :: 1 <= r <= numRegs ==> MentionsUpTo(asm, r, liveRanges[r], instrIdx)
      {
        forall r | 1 <= r <= numRegs
          ensures MentionsUpTo(asm, r, if MentionedAt(asm, r, instrIdx) then liveRanges[r] + [instrIdx] else liveRanges[r], instrIdx + 1)
        {
          MentionsOneMore(asm, r, liveRanges[r], instrIdx);
        }
        if !IsBarrier(asm[instrIdx].assembler.cmd) {
          liveRanges := RecordEntry(liveRanges, asm[instrIdx].assembler, instrIdx);
        }
      }
    }

    method BuildLabelMap() returns (labelMap: map<Label, nat>)
      ensures forall l :: l in labelMap ==> MapsTo(asm, l, labelMap[l])
      ensures forall i :: 0 <= i < |asm| && asm[i].assembler.cmd.LABEL? ==> asm[i].assembler.lbl in labelMap
    {
      labelMap := map[];
      for instrIdx := 0 to |asm|
        invariant forall l :: l in labelMap ==> labelMap[l] < instrIdx && Defines(asm, labelMap[l], l)
        invariant forall l, i :: l in labelMap && labelMap[l] < i < instrIdx ==> !Defines(asm, i, l)
        invariant forall i :: 0 <= i < instrIdx && asm[i].assembler.cmd.LABEL? ==> asm[i].assembler.lbl in labelMap
      {
        if asm[instrIdx].assembler.cmd.LABEL? {
          labelMap := labelMap[asm[instrIdx].assembler.lbl := instrIdx];
        }
      }
    }

    method FindBackwardBranches(labelMap: map<Label, nat>) returns (branches: seq<(nat, nat)>)
      requires forall l :: l in labelMap ==> MapsTo(asm, l, labelMap[l])
      requires forall i :: 0 <= i < |asm| && asm[i].assembler.cmd.LABEL? ==> asm[i].assembler.lbl in labelMap
      ensures BackwardUpTo(asm, branches, |asm|)
    {
      branches := [];
      for instrIdx := 0 to |asm|
        invariant BackwardUpTo(asm, branches, instrIdx)
      {
        var a := asm[instrIdx].assembler;
        ghost var before := branches;
        if IsBranch(a.cmd) && a.lbl != NoLabel && a.lbl in labelMap && instrIdx > labelMap[a.lbl] {
          assert MapsTo(asm, a.lbl, labelMap[a.lbl]);
          branches := branches + [(labelMap[a.lbl], instrIdx)];
          assert branches[|branches| - 1] == (labelMap[a.lbl], instrIdx);
        }
        forall t: nat, s: nat | s < instrIdx + 1 && BackwardBranch(asm, t, s)
          ensures (t, s) in branches
        {
          if s == instrIdx {
            assert Defines(asm, t, a.lbl);
            assert t == labelMap[a.lbl];
          } else {
            assert (t, s) in before;
          }
        }
      }
    }

    /** Is vr read in [targetIdx, sourceIdx) before it is overwritten? */
    method ScanLoopBody(vr: nat, targetIdx: nat, sourceIdx: nat) returns (conflict: bool)
      requires targetIdx <= sourceIdx <= |asm|
      ensures conflict == ScanReads(asm, vr, targetIdx, sourceIdx)
    {
      var scanIdx := targetIdx;
      while scanIdx < sourceIdx
        invariant targetIdx <= scanIdx <= sourceIdx
        invariant ScanReads(asm, vr, targetIdx, sourceIdx) == ScanReads(asm, vr, scanIdx, sourceIdx)
      {
        var a := asm[scanIdx].assembler;
        if !IsBarrier(a.cmd) {
          if IsRead(a, R(vr)) {
            return true;
          }
          if IsWritten(a, R(vr)) {
            return false;
          }
        }
        scanIdx := scanIdx + 1;
      }
      return false;
    }

    /** Makes every range reach the branches it is live across. */
    method ExtendOverLoops(numRegs: nat, recorded: Ranges, branches: seq<(nat, nat)>) returns (liveRanges: Ranges)
      requires |recorded| == numRegs + 1 && recorded[0] == []
      requires forall r :: 1 <= r <= numRegs ==> MentionsUpTo(asm, r, recorded[r], |asm|)
      requires BackwardUpTo(asm, branches, |asm|)
      ensures RangesOf(asm, numRegs, liveRanges)
    {
      liveRanges := recorded;
      forall r | 1 <= r <= numRegs ensures RangeAfter(asm, r, liveRanges[r], branches, 0) {
        RangeBefore(asm, r, recorded[r], branches);
      }
      for k := 0 to |branches|
        invariant |liveRanges| == numRegs + 1 && liveRanges[0] == []
        invariant forall r :: 1 <= r <= numRegs ==> RangeAfter(asm, r, liveRanges[r], branches, k)
      {
        var targetIdx, sourceIdx := branches[k].0, branches[k].1;
        assert BackwardBranch(asm, targetIdx, sourceIdx);
        for vr := 1 to numRegs + 1
          invariant |liveRanges| == numRegs + 1 && liveRanges[0] == []
          invariant forall r :: 1 <= r < vr ==> RangeAfter(asm, r, liveRanges[r], branches, k + 1)
          invariant forall r :: vr <= r <= numRegs ==> RangeAfter(asm, r, liveRanges[r], branches, k)
        {
          var lr := liveRanges[vr];
          var conflict := false;
          if lr != [] && Last(lr) < sourceIdx {
            conflict := ScanLoopBody(vr, targetIdx, sourceIdx);
          }
          if conflict {
            RangeExtended(asm, vr, lr, branches, k);
            liveRanges := liveRanges[vr := lr + [sourceIdx]];
          } else {
            RangeKept(asm, vr, lr, branches, k);
          }
        }
      }
      forall r | 1 <= r <= numRegs ensures RangeOf(asm, r, liveRanges[r]) {
        RangeComplete(asm, r, liveRanges[r], branches);
      }
    }

    /** Renames oldReg to newReg in every slot of the listed entries. */
    method RegisterUpdate(indices: seq<nat>, oldReg: Register, newReg: Register)
      modifies this`asm
      ensures |asm| == |old(asm)|
      ensures forall i :: 0 <= i < |asm| ==>
        asm[i] == if i in indices then ReplaceRegister(old(asm)[i], oldReg, newReg) else old(asm)[i]
    {
      var k := |indices|;
      while k > 0
        invariant 0 <= k <= |indices| && |asm| == |old(asm)|
        invariant forall i :: 0 <= i < |asm| ==>
          asm[i] == if i in indices[k..] then ReplaceRegister(old(asm)[i], oldReg, newReg) else old(asm)[i]
      {
        k := k - 1;
        var idx := indices[k];
        assert indices[k..] == [idx] + indices[k + 1..];
        if idx < |asm| {
          asm := asm[idx := ReplaceRegister(asm[idx], oldReg, newReg)];
        }
      }
    }

    /** Registers 1 .. EffectivePhysical - 1 are the ones allocation may use. */
    function EffectivePhysical(): nat {
      if numPhysicalRegs < 1 then 1 else numPhysicalRegs
    }

    /** Tries to merge preg into vreg. */
    method TryMerge(ghost original: seq<Asm>, numRegs: nat, ghost ranges: Ranges, vreg: nat, preg: nat,
                    physIn: seq<seq<seq<nat>>>, conflictsIn: set<nat>, ghost namingIn: Naming)
      returns (phys: seq<seq<seq<nat>>>, conflicts: set<nat>, ghost naming: Naming)
      requires RangesOf(original, numRegs, ranges) && 1 <= vreg < preg <= numRegs
      requires Merging(ranges, namingIn, physIn, conflictsIn, vreg) && preg in conflictsIn
      requires asm == RenameAll(namingIn, original)
      requires forall r :: r in namingIn && namingIn[r] == vreg ==> r < preg
      modifies this`asm
      ensures Merging(ranges, naming, phys, conflicts, vreg) && MovesTo(ranges, namingIn, naming, vreg)
      ensures asm == RenameAll(naming, original)
      ensures forall r :: r in naming && naming[r] == vreg ==> r <= preg
      ensures conflicts <= conflictsIn && (preg in conflicts ==> Blocked(ranges, naming, vreg, preg))
      ensures physIn[vreg] == [] || phys[vreg] != []
      ensures forall w :: 0 <= w < vreg ==> phys[w] == physIn[w]
    {
      hide RangeOf, Blocked, RenameEntry, ReplaceRegister;
      phys, conflicts, naming := physIn, conflictsIn, namingIn;
      assert Unvisited(ranges, naming, phys[preg], conflicts, preg);
      var canMerge, insertPos := FindPosition(phys[vreg], phys[preg][0]);
      if canMerge {
        MergeOne(original, numRegs, ranges, naming, phys, conflicts, vreg, preg, insertPos);
        RegisterUpdate(phys[preg][0], R(preg), R(vreg));
        forall i | 0 <= i < |asm| ensures asm[i] == RenameEntry(naming[preg := vreg], original[i]) {
          assert RenamedOnce(ranges, naming, original[i], i, preg, vreg);
        }
        naming := naming[preg := vreg];
        phys := phys[vreg := Inserted(phys[vreg], insertPos, phys[preg][0])][preg := []];
        conflicts := conflicts - {preg};
      } else {
        NotMergeableIsBlocked(ranges, naming, phys[vreg], vreg, preg);
      }
    }

    /** Merges later registers into vreg, in ascending order, while their ranges fit. */
    method FillRegister(ghost original: seq<Asm>, numRegs: nat, ghost ranges: Ranges, vreg: nat,
                        physIn: seq<seq<seq<nat>>>, conflictsIn: set<nat>, ghost namingIn: Naming)
      returns (phys: seq<seq<seq<nat>>>, conflicts: set<nat>, ghost naming: Naming)
      requires RangesOf(original, numRegs, ranges) && 1 <= vreg <= numRegs
      requires Merging(ranges, namingIn, physIn, conflictsIn, vreg)
      requires asm == RenameAll(namingIn, original)
      requires forall r :: r in namingIn && namingIn[r] == vreg ==> r == vreg
      modifies this`asm
      ensures Merging(ranges, naming, phys, conflicts, vreg) && MovesTo(ranges, namingIn, naming, vreg)
      ensures asm == RenameAll(naming, original)
      ensures conflicts <= conflictsIn
      ensures forall u :: vreg < u <= numRegs && u in conflicts ==> Blocked(ranges, naming, vreg, u)
      ensures physIn[vreg] == [] || phys[vreg] != []
      ensures forall w :: 0 <= w < vreg ==> phys[w] == physIn[w]
    {
      hide Holds, KeepsApart, RangeOf, Blocked, RenameEntry, Ordered, RangesIncreasing;
      phys, conflicts, naming := physIn, conflictsIn, namingIn;
      for preg := vreg + 1 to numRegs + 1
        invariant Merging(ranges, naming, phys, conflicts, vreg) && MovesTo(ranges, namingIn, naming, vreg)
        invariant asm == RenameAll(naming, original)
        invariant forall r :: r in naming && naming[r] == vreg ==> r < preg
        invariant conflicts <= conflictsIn
        invariant forall u :: vreg < u < preg && u in conflicts ==> Blocked(ranges, naming, vreg, u)
        invariant physIn[vreg] == [] || phys[vreg] != []
        invariant forall w :: 0 <= w < vreg ==> phys[w] == physIn[w]
      {
        if preg in conflicts {
          phys, conflicts, naming := TryMerge(original, numRegs, ranges, vreg, preg, phys, conflicts, naming);
        }
      }
    }

    /** Maps registers 1 .. numRegs onto the physical ones, or fails having changed the list.
        It succeeds exactly when first fit gives every register one of 1 .. numPhysicalRegs - 1.
        Either way the list is a renaming of the original in which registers with meeting ranges
        keep different names. */
    method RegisterAllocation(numRegs: nat)
      returns (ok: bool, ghost ranges: Ranges, ghost naming: Naming, ghost stuck: nat)
      modifies this`asm
      ensures FitOf(old(asm), numRegs, ranges, naming, numPhysicalRegs) && asm == RenameAll(naming, old(asm))
      ensures ok <==> Allocatable(old(asm), numRegs, numPhysicalRegs)
      ensures !ok <==> OutOfRegisters(old(asm), numRegs, numPhysicalRegs)
      ensures ok ==> FirstFit(ranges, naming) && forall r :: r in naming ==> 1 <= naming[r] < numPhysicalRegs
      ensures !ok ==> StuckAt(ranges, naming, numPhysicalRegs, stuck) && naming[stuck] == stuck
      ensures AllocationSafe(old(asm), naming) ==> Preserves(old(asm), asm)
      ensures RangesSuffice(old(asm), numRegs, ranges) ==> AllocationSafe(old(asm), naming)
      ensures ok ==> (OnlyPhysical(asm, numPhysicalRegs) <==> MissedBelow(old(asm), numRegs, numPhysicalRegs))
      ensures forall i :: 0 <= i < |asm| && IsBarrier(old(asm)[i].assembler.cmd) ==> asm[i] == old(asm)[i]
    {
      hide RangesOf, KeepsApart, FitsBelow, StuckAt, FirstFit, RenameAll, OnlyPhysical, MissedBelow, IsBarrier, Preserves, RangesSuffice, AllocationSafe;
      ok, ranges, naming, stuck := AllocateRegisters(numRegs);
      AllocationResults(old(asm), numRegs, ranges, naming, numPhysicalRegs);
      if !ok { StuckIsNotAllocatable(old(asm), numRegs, numPhysicalRegs); }
      if OutOfRegisters(old(asm), numRegs, numPhysicalRegs) { StuckIsNotAllocatable(old(asm), numRegs, numPhysicalRegs); }
    }

    /** The allocation itself. */
    method AllocateRegisters(numRegs: nat)
      returns (ok: bool, ghost ranges: Ranges, ghost naming: Naming, ghost stuck: nat)
      modifies this`asm
      ensures FitOf(old(asm), numRegs, ranges, naming, numPhysicalRegs) && asm == RenameAll(naming, old(asm))
      ensures ok ==> FirstFit(ranges, naming) && forall r :: r in naming ==> 1 <= naming[r] < numPhysicalRegs
      ensures !ok ==> StuckAt(ranges, naming, numPhysicalRegs, stuck) && naming[stuck] == stuck
    {
      hide Holds, RangeOf, Blocked, KeepsApart, RenameEntry, Ordered, RangesIncreasing, FirstFit, FitsUpTo, FitsBelow;
      var liveRanges := ComputeLiveRanges(numRegs);
      ranges := liveRanges;
      var numPhysical := EffectivePhysical();
      var totalPhysical := numPhysical + 1;
      var phys, conflicts;
      phys, conflicts, naming := InitialRegisters(numRegs, liveRanges);
      NothingFitted(ranges, naming, numPhysical);

      for vreg := 1 to numRegs + 1
        invariant Merging(ranges, naming, phys, conflicts, vreg - 1)
        invariant asm == RenameAll(naming, old(asm))
        invariant BlockedBelow(ranges, naming, conflicts, vreg, numPhysical)
        invariant FitsUpTo(ranges, naming, vreg - 1, numPhysical)
        invariant forall w :: numPhysical <= w < vreg ==> phys[w] == []
      {
        assert Unvisited(ranges, naming, phys[vreg], conflicts, vreg);
        WaitingInPool(ranges, naming, phys, conflicts, vreg - 1);
        assert Merging(ranges, naming, phys, conflicts, vreg - 1);
        VisitNext(ranges, naming, phys, conflicts, vreg - 1);
        if vreg >= numPhysical && phys[vreg] == [] {
          NobodyNamed(ranges, naming, phys, conflicts, vreg, numPhysical);
          continue;
        }
        if forall u :: vreg <= u <= numRegs ==> u !in conflicts {
          AllPlaced(ranges, naming, phys, conflicts, vreg - 1, numPhysical);
          FitComplete(ranges, naming, phys, conflicts, vreg - 1, numPhysical);
          FirstFitFits(ranges, naming, numPhysicalRegs);
          return true, ranges, naming, 0;
        }
        if vreg == totalPhysical {
          StuckFits(ranges, naming, phys, conflicts, vreg - 1, numPhysical, numPhysicalRegs);
          return false, ranges, naming, vreg;
        }
        ghost var before := naming;
        ghost var pool := conflicts;
        phys, conflicts, naming := FillRegister(old(asm), numRegs, ranges, vreg, phys, conflicts, naming);
        FillKeepsBlocked(ranges, before, naming, pool, conflicts, vreg, numRegs, numPhysical);
        FillKeepsFit(ranges, before, naming, pool, vreg, numPhysical);
        if vreg >= numPhysical && phys[vreg] != [] {
          StuckFits(ranges, naming, phys, conflicts, vreg, numPhysical, numPhysicalRegs);
          return false, ranges, naming, vreg;
        }
      }
      AllPlaced(ranges, naming, phys, conflicts, numRegs, numPhysical);
      FitComplete(ranges, naming, phys, conflicts, numRegs, numPhysical);
      FirstFitFits(ranges, naming, numPhysicalRegs);
      return true, ranges, naming, 0;
    }

    method ComputeLiveRanges(numRegs: nat) returns (liveRanges: Ranges)
      ensures RangesOf(asm, numRegs, liveRanges)
    {
      var recorded := RecordMentions(numRegs);
      var labelMap := BuildLabelMap();
      var branches := FindBackwardBranches(labelMap);
      liveRanges := ExtendOverLoops(numRegs, recorded, branches);
    }

    /** Every register with a range starts alone under its own name, waiting to be merged. */
    method InitialRegisters(numRegs: nat, liveRanges: Ranges)
      returns (phys: seq<seq<seq<nat>>>, conflicts: set<nat>, ghost naming: Naming)
      requires RangesOf(asm, numRegs, liveRanges)
      ensures |phys| == numRegs + 1 && conflicts == set u | 1 <= u <= numRegs && liveRanges[u] != []
      ensures forall u :: 0 <= u <= numRegs ==> phys[u] == if u in conflicts then [liveRanges[u]] else []
      ensures Merging(liveRanges, naming, phys, conflicts, 0)
      ensures RenameAll(naming, asm) == asm
    {
      phys := seq(numRegs + 1, _ => []);
      conflicts := {};
      for i := 1 to numRegs + 1
        invariant |phys| == numRegs + 1
        invariant conflicts == set u | 1 <= u < i && liveRanges[u] != []
        invariant forall u :: 0 <= u <= numRegs ==> phys[u] == if u in conflicts then [liveRanges[u]] else []
      {
        if liveRanges[i] != [] {
          phys := phys[i := [liveRanges[i]]];
          conflicts := conflicts + {i};
        }
      }
      naming := map u | 1 <= u <= numRegs && liveRanges[u] != [] :: u;
      NothingMerged(asm, numRegs, liveRanges, naming, phys, conflicts);
    }

    /** The entry holding the upper half of the load at entry i, or |list|. */
    method FindLoadEnd(list: seq<Asm>, i: nat) returns (end: nat)
      requires i < |list|
      ensures end == LoadEnd(list, i, i + 1)
    {
      var destReg := list[i].assembler.regDst;
      for scan := i + 1 to |list|
        invariant LoadEnd(list, i, i + 1) == LoadEnd(list, i, scan)
      {
        var a := list[scan].assembler;
        if a.cmd.COMMENT_NOP? || a.cmd.INVALID? {
          continue;
        }
        if a.cmd.ADDIU? && a.regDst == destReg && a.regSrc == (if list[i].assembler.cmd.ADDI? then destReg else R(0)) {
          return scan;
        }
        return |list|;
      }
      return |list|;
    }

    /** Is there a constant load at entry i whose register nothing else overwrites later? */
    method FindSplittable(list: seq<Asm>, i: nat) returns (found: bool, end: nat)
      requires i < |list|
      ensures found == Splittable(list, i) && end == LoadEnd(list, i, i + 1)
    {
      var a := list[i].assembler;
      end := FindLoadEnd(list, i);
      if !(a.cmd.ADDI? || ((a.cmd.INVALID? || a.cmd.COMMENT_NOP?) && end < |list|)) || a.regSrc != R(0) {
        return false, end;
      }
      for check := i + 1 to |list|
        invariant forall k :: i < k < check && k != end ==> !IsWritten(list[k].assembler, a.regDst)
      {
        if check != end && IsWritten(list[check].assembler, a.regDst) {
          return false, end;
        }
      }
      return true, end;
    }

    /** Splits the registers that hold constants; returns the register count to go on with. */
    method SplitConstRegisters(numRegs: nat) returns (newNumRegs: nat)
      modifies this
      ensures var r := SplitConstantsOf(old(asm), old(regNumber));
        asm == r.list && regNumber == r.first && newNumRegs == numRegs + r.count
      ensures SplitsSafe(old(asm), old(regNumber)) || SplitsApart(old(asm), old(regNumber)) ==> Equivalent(old(asm), asm)
      ensures SplitsApart(old(asm), old(regNumber)) ==>
        newNumRegs == numRegs + SplittableLoadsIn(old(asm)) + (regNumber - old(regNumber))
      ensures BoundsRegisters(old(asm), numRegs) ==>
        (BoundsRegisters(asm, newNumRegs) <==>
           forall r: nat :: old(regNumber) <= r < regNumber && Named(asm, r) ==> r <= newNumRegs)
      ensures BoundsRegisters(old(asm), numRegs) && SplitsApart(old(asm), old(regNumber)) ==>
        (BoundsRegisters(asm, newNumRegs) <==>
           regNumber == old(regNumber) || old(regNumber) <= numRegs + SplittableLoadsIn(old(asm)) + 1)
    {
      hide Equivalent, Splittable, SplitInto, SplitsSafe, SplitsApart, BoundsRegisters, Named, SplittableLoadsIn;
      var tmpList: seq<Asm> := [];
      for it := 0 to |asm|
        invariant asm == old(asm) && regNumber == old(regNumber) && tmpList == Interleaved(asm[..it])
      {
        var barrier := Room(asm[it]);
        assert asm[..it + 1][..it] == asm[..it];
        if IsBarrier(asm[it].assembler.cmd) {
          tmpList := tmpList + [asm[it]];
        } else {
          tmpList := tmpList + [barrier, barrier, Unflagged(asm[it])];
        }
      }
      assert asm[..|asm|] == asm;
      ghost var full := tmpList;
      var splitCount := 0;
      for it := 0 to |tmpList|
        invariant asm == old(asm) && |tmpList| == |full|
        invariant SplitAll(full, 0, old(regNumber), 0) == SplitAll(tmpList, it, regNumber, splitCount)
      {
        var found, splitEnd := FindSplittable(tmpList, it);
        if found {
          ghost var before, sp := tmpList, Split(tmpList[it].assembler.regDst, it, splitEnd, regNumber);
          tmpList := SplitReg(tmpList, tmpList[it].assembler.regDst, it, splitEnd);
          SplitIsUnique(before, sp, tmpList);
          splitCount := splitCount + 1;
        }
      }
      StripInto(tmpList);
      SplitConstantsKeep(old(asm), old(regNumber));
      if SplitsApart(old(asm), old(regNumber)) { SplitsApartResult(old(asm), old(regNumber), numRegs, 0); }
      if BoundsRegisters(old(asm), numRegs) { SplitCountIff(old(asm), old(regNumber), numRegs, 0); }
      return numRegs + splitCount;
    }

    /** Drops the room from tmpList and makes it the working list. */
    method StripInto(tmpList: seq<Asm>)
      modifies this`asm
      ensures asm == Stripped(tmpList)
    {
      asm := [];
      for k := 0 to |tmpList|
        invariant asm == Stripped(tmpList[..k])
      {
        assert tmpList[..k + 1][..k] == tmpList[..k];
        if !IsRoom(tmpList[k]) {
          asm := asm + [tmpList[k]];
        }
      }
      assert tmpList[..|tmpList|] == tmpList;
    }

    // ----- The pass pipelines -----

    /** Before the waveforms: dead code. */
    method OptimizePreWaveform(input: seq<Asm>) returns (output: seq<Asm>)
      modifies this`asm
      ensures output == asm
      ensures if flags.deadCode then DeadCodeRemoved(input, output) else output == input
      ensures NoJumpBackIntoDead(input) ==> Preserves(input, output)
    {
      hide Preserves, NoJumpBackIntoDead, DeadCodeRemoved;
      asm := input;
      PreservesReflexive(input);
      if flags.deadCode {
        DeadCodeElimination();
      }
      return asm;
    }

    /** After the waveforms: jumps, labels, zeroing and registers; when allocation fails, once
        more on the split list. */
    method OptimizePostWaveform(input: seq<Asm>) returns (ok: bool, ghost st: Stages)
      requires flags.unused ==> input != []
      modifies this
      ensures StagesOf(flags, old(regNumber), input, st)
      ensures ok ==> asm == st.Result(flags)
      ensures ok && StagesSafe(flags, old(regNumber), input, st) ==> Equivalent(input, asm)
      ensures ok <==> !flags.registers || Allocatable(st.base, st.numRegs, numPhysicalRegs)
      ensures !ok <==> flags.registers && OutOfRegisters(st.base, st.numRegs, numPhysicalRegs)
      ensures st.retried <==> flags.registers && OutOfRegisters(st.unused, st.firstCount, numPhysicalRegs)
      ensures !ok ==> st.retried
      ensures regNumber == if st.retried then SplitConstantsOf(st.unused, old(regNumber)).first else old(regNumber)
      ensures ok && flags.registers ==> forall r :: r in st.naming ==> 1 <= st.naming[r] < numPhysicalRegs
      ensures ok && flags.registers ==>
        (OnlyPhysical(asm, numPhysicalRegs) <==> MissedBelow(st.base, st.numRegs, numPhysicalRegs))
      ensures ok && flags.registers && !st.retried ==>
        (OnlyPhysical(asm, numPhysicalRegs) <==>
           !flags.unused || MissedFoldsBelow(st.zeroed, st.numRegs, numPhysicalRegs))
    {
      hide JumpsRemoved, LabelsRemoved, LabelsTidied, ZerosMerged, RemoveFrom, RangesOf, KeepsApart, SplitConstantsOf, RenameAll,
        OnlyPhysical, DistinctLabels, BranchesDefined, AllReferenced, RemovalSafe, AllocationSafe, SplitsSafe, SplitsApart, Blocked, MissedBelow,
        MissedFoldsBelow, SplittableLoadsIn, Named, BoundsRegisters, FoldsCounted, Allocatable, OutOfRegisters, FitsBelow, StuckAt, FirstFit;
      hide Preserves, Equivalent, StagesSafe;
      asm := input;
      if flags.jumps {
        OneStepJumpElimination();
      }
      ghost var jumps := asm;
      if flags.labels {
        RemoveUnusedLabels();
      }
      ghost var unlabelled := asm;
      if flags.labels {
        MergeLabels();
      }
      ghost var labels := asm;
      if flags.unused {
        MergeRegisterZeroing();
      }
      ghost var zeroed := asm;
      st := Stages(jumps, unlabelled, labels, zeroed, zeroed, zeroed, 0, 0, false, [], map[]);
      ok := true;
      if flags.registers {
        var numRegs := RemoveUnusedRegs();
        var backup := asm;
        ghost var unused, firstCount := asm, numRegs;
        ghost var ranges, naming, stuck;
        ok, ranges, naming, stuck := RegisterAllocation(numRegs);
        st := Stages(jumps, unlabelled, labels, zeroed, unused, unused, numRegs, numRegs, false, ranges, naming);
        if !ok {
          asm := backup;
          numRegs := SplitConstRegisters(numRegs);
          ghost var base := asm;
          ok, ranges, naming, stuck := RegisterAllocation(numRegs);
          st := Stages(jumps, unlabelled, labels, zeroed, unused, base, firstCount, numRegs, true, ranges, naming);
        }
      }
      StagesEquivalent(flags, old(regNumber), input, st);
      if flags.registers { MissedRegisters(flags, old(regNumber), st, numPhysicalRegs); }
    }
  }
}
