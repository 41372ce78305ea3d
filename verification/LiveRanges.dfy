/** The live ranges recorded by the register allocator, and when they are wide enough:
    a register needed at a reachable entry must lie between its first and last index. */
module LiveRanges {
  import opened Instructions
  import opened Machine
  import opened Liveness

  /** Per register, the indices recorded for it, in ascending order. */
  type Ranges = seq<seq<nat>>

  function First(range: seq<nat>): nat
    requires range != []
  {
    range[0]
  }

  function Last(range: seq<nat>): nat
    requires range != []
  {
    range[|range| - 1]
  }

  ghost predicate Increasing(range: seq<nat>) {
    forall i, j :: 0 <= i < j < |range| ==> range[i] < range[j]
  }

  /** The label map keeps the last entry defining a label. */
  predicate MapsTo(prog: seq<Asm>, l: Label, t: nat) {
    t < |prog| && Defines(prog, t, l) && forall i :: t < i < |prog| ==> !Defines(prog, i, l)
  }

  ghost predicate BackwardBranch(prog: seq<Asm>, t: nat, s: nat) {
    t < s < |prog| && IsBranch(prog[s].assembler.cmd) && prog[s].assembler.lbl != NoLabel &&
    MapsTo(prog, prog[s].assembler.lbl, t)
  }

  /** The linear scan of a loop body: is r read before it is overwritten? */
  predicate ScanReads(prog: seq<Asm>, r: nat, i: nat, s: nat)
    requires s <= |prog|
    decreases s - i
  {
    i < s &&
    var a := prog[i].assembler;
    if IsBarrier(a.cmd) then ScanReads(prog, r, i + 1, s)
    else if IsRead(a, R(r)) then true
    else if IsWritten(a, R(r)) then false
    else ScanReads(prog, r, i + 1, s)
  }

  ghost predicate ExtendedTo(prog: seq<Asm>, r: nat, s: nat) {
    exists t: nat :: BackwardBranch(prog, t, s) && ScanReads(prog, r, t, s)
  }

  predicate MentionedAt(prog: seq<Asm>, r: nat, i: nat)
    requires i < |prog|
  {
    !IsBarrier(prog[i].assembler.cmd) && r in Mentions(prog[i].assembler)
  }

  /** What the recording loops leave for one register: every mention, and beyond the
      last mention only backward branches whose body reads the register first. */
  ghost predicate RangeOf(prog: seq<Asm>, r: nat, range: seq<nat>) {
    Increasing(range) &&
    (forall i :: i in range ==> i < |prog| && (MentionedAt(prog, r, i) || ExtendedTo(prog, r, i))) &&
    (forall i :: 0 <= i < |prog| && MentionedAt(prog, r, i) ==> i in range) &&
    (range != [] ==> First(range) < |prog| && MentionedAt(prog, r, First(range))) &&
    (range != [] ==> forall s: nat :: ExtendedTo(prog, r, s) ==> s <= Last(range))
  }

  ghost predicate RangesOf(prog: seq<Asm>, numRegs: nat, ranges: Ranges) {
    |ranges| == numRegs + 1 && ranges[0] == [] &&
    forall r :: 1 <= r <= numRegs ==> RangeOf(prog, r, ranges[r])
  }

  /** numRegs bounds every register named in a real instruction. */
  ghost predicate BoundsRegisters(prog: seq<Asm>, numRegs: nat) {
    forall i: nat, r: nat :: i < |prog| && MentionedAt(prog, r, i) ==> r <= numRegs
  }

  ghost predicate Spans(ranges: Ranges, r: nat, i: nat, j: nat) {
    r < |ranges| && ranges[r] != [] && First(ranges[r]) <= i && j <= Last(ranges[r])
  }

  /** The recorded ranges cover every needed position. */
  ghost predicate Covered(prog: seq<Asm>, ranges: Ranges) {
    forall r: nat, i: nat :: Reachable(prog, i) && Needed(prog, r, i) ==> Spans(ranges, r, i, i)
  }

  ghost predicate BackEdge(prog: seq<Asm>, s: nat, t: nat) {
    s < |prog| && t <= s && t in Successors(prog, s)
  }

  /** Every reachable backward jump lies inside the range of what is needed at its target. */
  ghost predicate BackEdgesCovered(prog: seq<Asm>, ranges: Ranges) {
    forall r: nat, s: nat, t: nat ::
      Reachable(prog, s) && BackEdge(prog, s, t) && Needed(prog, r, t) ==> Spans(ranges, r, t, s)
  }

  lemma ReadsAreMentions(a: Assembler)
    ensures Reads(a) <= Mentions(a) && Writes(a) <= Mentions(a)
    ensures IsBarrier(a.cmd) ==> Reads(a) == {} && Writes(a) == {}
    ensures IsBranch(a.cmd) || a.cmd.END? ==> Writes(a) == {}
  {
  }

  lemma MentionInRange(prog: seq<Asm>, numRegs: nat, ranges: Ranges, r: nat, i: nat)
    requires RangesOf(prog, numRegs, ranges) && BoundsRegisters(prog, numRegs)
    requires i < |prog| && (r in Reads(prog[i].assembler) || r in Writes(prog[i].assembler))
    ensures Spans(ranges, r, i, i)
  {
    ReadsAreMentions(prog[i].assembler);
    assert MentionedAt(prog, r, i);
    assert RangeOf(prog, r, ranges[r]);
    assert i in ranges[r];
  }

  lemma {:induction false} UpperBound(prog: seq<Asm>, numRegs: nat, ranges: Ranges, r: nat, i: nat, k: nat)
    requires RangesOf(prog, numRegs, ranges) && BoundsRegisters(prog, numRegs)
    requires BackEdgesCovered(prog, ranges)
    requires Reachable(prog, i) && NeededIn(prog, r, i, k)
    ensures r < |ranges| && ranges[r] != [] && i <= Last(ranges[r])
    decreases k
  {
    if r in Reads(prog[i].assembler) {
      MentionInRange(prog, numRegs, ranges, r, i);
    } else {
      var j :| j in Successors(prog, i) && NeededIn(prog, r, j, k - 1);
      ReachableNext(prog, i, j);
      if j > i {
        UpperBound(prog, numRegs, ranges, r, j, k - 1);
      } else {
        assert Needed(prog, r, j);
        assert BackEdge(prog, i, j);
        assert Spans(ranges, r, j, i);
      }
    }
  }

  /** From its last write on, a path to where a register is needed stays behind the range's first
      index: a step back lands in the range. */
  lemma LowerBound(prog: seq<Asm>, numRegs: nat, ranges: Ranges, r: nat, path: seq<nat>)
    requires RangesOf(prog, numRegs, ranges) && BoundsRegisters(prog, numRegs)
    requires BackEdgesCovered(prog, ranges) && NothingNeededAtEntry(prog)
    requires IsPath(prog, path) && Needed(prog, r, path[|path| - 1])
    ensures r < |ranges| && ranges[r] != [] && First(ranges[r]) <= path[|path| - 1]
  {
    hide RangeOf, BoundsRegisters, Needed, Successors, Reachable, Writes;
    var w := WrittenOnTheWay(prog, r, path);
    MentionInRange(prog, numRegs, ranges, r, path[w]);
    for k := w to |path| - 1
      invariant First(ranges[r]) <= path[k]
    {
      PathReachable(prog, path, k);
      if path[k + 1] <= path[k] { assert Spans(ranges, r, path[k + 1], path[k]); }
    }
  }

  /** Main result on ranges: they cover every needed position exactly when they cover the
      reachable backward jumps. */
  lemma CoveredIffBackEdgesCovered(prog: seq<Asm>, numRegs: nat, ranges: Ranges)
    requires RangesOf(prog, numRegs, ranges) && BoundsRegisters(prog, numRegs)
    requires NothingNeededAtEntry(prog)
    ensures Covered(prog, ranges) <==> BackEdgesCovered(prog, ranges)
  {
    if BackEdgesCovered(prog, ranges) {
      forall r: nat, i: nat | Reachable(prog, i) && Needed(prog, r, i)
        ensures Spans(ranges, r, i, i)
      {
        var k: nat :| NeededIn(prog, r, i, k);
        UpperBound(prog, numRegs, ranges, r, i, k);
        var k': nat :| ReachableIn(prog, i, k');
        var path := PathTo(prog, i, k');
        LowerBound(prog, numRegs, ranges, r, path);
      }
    }
    if Covered(prog, ranges) {
      forall r: nat, s: nat, t: nat |
        Reachable(prog, s) && BackEdge(prog, s, t) && Needed(prog, r, t)
        ensures Spans(ranges, r, t, s)
      {
        ReachableNext(prog, s, t);
        ReadsAreMentions(prog[s].assembler);
        NeededBefore(prog, r, s, t);
        assert Spans(ranges, r, t, t) && Spans(ranges, r, s, s);
      }
    }
  }

  ghost predicate ForwardOnly(prog: seq<Asm>) {
    forall s: nat, t: nat :: !BackEdge(prog, s, t)
  }

  /** Lists without backward branches are always covered. */
  lemma ForwardOnlyCovered(prog: seq<Asm>, numRegs: nat, ranges: Ranges)
    requires RangesOf(prog, numRegs, ranges) && BoundsRegisters(prog, numRegs)
    requires NothingNeededAtEntry(prog) && ForwardOnly(prog)
    ensures Covered(prog, ranges)
  {
    CoveredIffBackEdgesCovered(prog, numRegs, ranges);
  }

  ghost predicate DistinctLabels(prog: seq<Asm>) {
    forall i, j :: 0 <= i < j < |prog| && prog[i].assembler.cmd.LABEL? && prog[j].assembler.cmd.LABEL?
      ==> prog[i].assembler.lbl != prog[j].assembler.lbl
  }

  /** Neither label, branch nor shift strictly between i and s. */
  ghost predicate StraightBetween(prog: seq<Asm>, i: nat, s: nat) {
    forall k :: i < k < s < |prog| ==>
      var c := prog[k].assembler.cmd;
      !c.LABEL? && !IsBranch(c) && !IsShift(c)
  }

  /** Every backward jump closes a straight-line body. */
  ghost predicate SimpleLoops(prog: seq<Asm>) {
    DistinctLabels(prog) &&
    (forall i :: 0 <= i < |prog| && IsBranch(prog[i].assembler.cmd) ==> prog[i].assembler.lbl != NoLabel) &&
    forall s: nat, t: nat :: BackEdge(prog, s, t) ==> StraightBetween(prog, t, s)
  }

  lemma BackEdgeIsBackwardBranch(prog: seq<Asm>, s: nat, t: nat)
    requires SimpleLoops(prog) && BackEdge(prog, s, t)
    ensures BackwardBranch(prog, t, s) && t == Target(prog, prog[s].assembler.lbl)
  {
    assert Defines(prog, t, prog[s].assembler.lbl);
  }

  /** Inside a straight body, a needed register is met by the scan or still needed at the
      closing branch. */
  lemma {:induction false} NeededThroughBody(prog: seq<Asm>, r: nat, i: nat, s: nat, k: nat)
    requires i <= s < |prog| && NeededIn(prog, r, i, k)
    requires i < s ==> StraightBetween(prog, i, s) && !IsBranch(prog[i].assembler.cmd) && !IsShift(prog[i].assembler.cmd)
    ensures ScanReads(prog, r, i, s) || exists k' :: 0 <= k' <= k && NeededIn(prog, r, s, k')
    decreases s - i
  {
    var a := prog[i].assembler;
    if i < s && r !in Reads(a) {
      assert Successors(prog, i) == {if a.cmd.END? then |prog| else i + 1};
      var j :| j in Successors(prog, i) && NeededIn(prog, r, j, k - 1);
      NeededThroughBody(prog, r, i + 1, s, k - 1);
      assert !IsWritten(a, R(r)) by { assert r !in Writes(a); if r == 0 { ZeroNeverNeeded(prog, 0, j, k - 1); } }
    } else if i < s {
      ReadsAreMentions(a);
      assert IsRead(a, R(r));
    } else {
      assert NeededIn(prog, r, s, k);
    }
  }

  lemma {:induction false} ZeroNeverNeeded(prog: seq<Asm>, r: nat, i: nat, k: nat)
    requires r == 0
    ensures !NeededIn(prog, r, i, k)
    decreases k
  {
    if NeededIn(prog, r, i, k) {
      var j :| j in Successors(prog, i) && NeededIn(prog, r, j, k - 1);
      ZeroNeverNeeded(prog, r, j, k - 1);
    }
  }

  lemma {:induction false} ScanFindsMention(prog: seq<Asm>, r: nat, i: nat, s: nat)
    requires r > 0 && s <= |prog| && ScanReads(prog, r, i, s)
    ensures exists k :: i <= k < s && MentionedAt(prog, r, k)
    decreases s - i
  {
    var a := prog[i].assembler;
    if !IsBarrier(a.cmd) && IsRead(a, R(r)) {
      assert MentionedAt(prog, r, i);
    } else {
      ScanFindsMention(prog, r, i + 1, s);
    }
  }

  lemma {:induction false} UpperBoundSimple(prog: seq<Asm>, numRegs: nat, ranges: Ranges, r: nat, i: nat, k: nat)
    requires RangesOf(prog, numRegs, ranges) && BoundsRegisters(prog, numRegs) && SimpleLoops(prog)
    requires NeededIn(prog, r, i, k)
    ensures r < |ranges| && ranges[r] != [] && i <= Last(ranges[r])
    decreases k
  {
    hide Successors, Reads, Writes, Reachable;
    if r in Reads(prog[i].assembler) {
      MentionInRange(prog, numRegs, ranges, r, i);
    } else {
      var j :| j in Successors(prog, i) && NeededIn(prog, r, j, k - 1);
      if j > i {
        UpperBoundSimple(prog, numRegs, ranges, r, j, k - 1);
      } else {
        assert BackEdge(prog, i, j);
        BackEdgeIsBackwardBranch(prog, i, j);
        NeededThroughBody(prog, r, j, i, k - 1);
        if ScanReads(prog, r, j, i) {
          assert ExtendedTo(prog, r, i);
          if r == 0 { ZeroNeverNeeded(prog, r, j, k - 1); }
          ScanFindsMention(prog, r, j, i);
          assert RangeOf(prog, r, ranges[r]);
        } else {
          var k' :| 0 <= k' <= k - 1 && NeededIn(prog, r, i, k');
          UpperBoundSimple(prog, numRegs, ranges, r, i, k');
        }
      }
    }
  }

  lemma PredecessorInBody(prog: seq<Asm>, t: nat, i: nat, s: nat, j: nat)
    requires BackEdge(prog, s, t) && SimpleLoops(prog) && t < i <= s
    requires j < |prog| && i in Successors(prog, j)
    ensures j == i - 1
  {
    BackEdgeIsBackwardBranch(prog, s, t);
    assert !prog[i].assembler.cmd.LABEL?;
  }

  /** A straight body is entered through its label only. */
  lemma {:induction false} EnteredThroughLabel(prog: seq<Asm>, t: nat, i: nat, s: nat, k: nat) returns (k': nat)
    requires BackEdge(prog, s, t) && SimpleLoops(prog) && t <= i <= s
    requires ReachableIn(prog, i, k)
    ensures k' <= k && ReachableIn(prog, t, k')
    decreases k
  {
    hide SimpleLoops, BackEdge, Successors;
    if i == t {
      k' := k;
    } else {
      var j :| 0 <= j < |prog| && ReachableIn(prog, j, k - 1) && i in Successors(prog, j);
      PredecessorInBody(prog, t, i, s, j);
      k' := EnteredThroughLabel(prog, t, j, s, k - 1);
    }
  }

  /** What is needed was written further up the list. */
  lemma {:induction false} WrittenAbove(prog: seq<Asm>, r: nat, i: nat, k: nat) returns (w: nat)
    requires SimpleLoops(prog) && !Needed(prog, r, 0)
    requires ReachableIn(prog, i, k) && Needed(prog, r, i)
    ensures w < i && w < |prog| && r in Writes(prog[w].assembler)
    decreases k
  {
    hide SimpleLoops, NeededIn, Writes, Target;
    var j :| 0 <= j < |prog| && ReachableIn(prog, j, k - 1) && i in Successors(prog, j);
    if i <= j {
      var k' := EnteredThroughLabel(prog, i, j, j, k - 1);
      w := WrittenAbove(prog, r, i, k');
    } else if r in Writes(prog[j].assembler) {
      w := j;
    } else {
      NeededBefore(prog, r, j, i);
      w := WrittenAbove(prog, r, j, k - 1);
    }
  }

  /** Lists whose loops are straight-line are always covered: the linear scan is exact there. */
  lemma SimpleLoopsCovered(prog: seq<Asm>, numRegs: nat, ranges: Ranges)
    requires RangesOf(prog, numRegs, ranges) && BoundsRegisters(prog, numRegs)
    requires NothingNeededAtEntry(prog) && SimpleLoops(prog)
    ensures Covered(prog, ranges)
  {
    forall r: nat, i: nat | Reachable(prog, i) && Needed(prog, r, i)
      ensures Spans(ranges, r, i, i)
    {
      var k: nat :| NeededIn(prog, r, i, k);
      UpperBoundSimple(prog, numRegs, ranges, r, i, k);
      var k': nat :| ReachableIn(prog, i, k');
      var w := WrittenAbove(prog, r, i, k');
      MentionInRange(prog, numRegs, ranges, r, w);
    }
  }

  // ----- The recording loops, one step at a time -----

  /** The mentions of r among the first n entries. */
  ghost predicate MentionsUpTo(prog: seq<Asm>, r: nat, range: seq<nat>, n: nat)
    requires n <= |prog|
  {
    Increasing(range) &&
    (forall i :: i in range ==> i < n && MentionedAt(prog, r, i)) &&
    forall i :: 0 <= i < n && MentionedAt(prog, r, i) ==> i in range
  }

  lemma IncreasingAppend(range: seq<nat>, i: nat)
    requires Increasing(range) && (range != [] ==> Last(range) < i)
    ensures Increasing(range + [i])
  {
  }

  lemma MentionsOneMore(prog: seq<Asm>, r: nat, range: seq<nat>, n: nat)
    requires n < |prog| && MentionsUpTo(prog, r, range, n)
    ensures MentionsUpTo(prog, r, if MentionedAt(prog, r, n) then range + [n] else range, n + 1)
  {
    if range != [] { assert Last(range) in range; }
    if MentionedAt(prog, r, n) { IncreasingAppend(range, n); }
  }

  /** The backward branches among the first n entries, in order, as (target, source). */
  ghost predicate BackwardUpTo(prog: seq<Asm>, branches: seq<(nat, nat)>, n: nat) {
    (forall k :: 0 <= k < |branches| ==> branches[k].1 < n && BackwardBranch(prog, branches[k].0, branches[k].1)) &&
    (forall k, l :: 0 <= k < l < |branches| ==> branches[k].1 < branches[l].1) &&
    forall t: nat, s: nat :: s < n && BackwardBranch(prog, t, s) ==> (t, s) in branches
  }

  ghost predicate ScannedBranch(prog: seq<Asm>, r: nat, branch: (nat, nat)) {
    branch.1 <= |prog| && ScanReads(prog, r, branch.0, branch.1)
  }

  /** A range after the first k backward branches have been considered. */
  ghost predicate RangeAfter(prog: seq<Asm>, r: nat, range: seq<nat>, branches: seq<(nat, nat)>, k: nat)
    requires k <= |branches|
  {
    Increasing(range) &&
    (forall i :: i in range ==> i < |prog| && (MentionedAt(prog, r, i) || ExtendedTo(prog, r, i))) &&
    (forall i :: 0 <= i < |prog| && MentionedAt(prog, r, i) ==> i in range) &&
    (range != [] ==> First(range) < |prog| && MentionedAt(prog, r, First(range))) &&
    (range != [] ==> forall j :: 0 <= j < k && ScannedBranch(prog, r, branches[j]) ==> branches[j].1 <= Last(range))
  }

  lemma RangeBefore(prog: seq<Asm>, r: nat, range: seq<nat>, branches: seq<(nat, nat)>)
    requires MentionsUpTo(prog, r, range, |prog|)
    ensures RangeAfter(prog, r, range, branches, 0)
  {
    if range != [] { assert First(range) in range; }
  }

  lemma RangeExtended(prog: seq<Asm>, r: nat, range: seq<nat>, branches: seq<(nat, nat)>, k: nat)
    requires k < |branches| && RangeAfter(prog, r, range, branches, k) && range != []
    requires Last(range) < branches[k].1 && BackwardBranch(prog, branches[k].0, branches[k].1)
    requires ScannedBranch(prog, r, branches[k])
    ensures RangeAfter(prog, r, range + [branches[k].1], branches, k + 1)
  {
    IncreasingAppend(range, branches[k].1);
    assert ExtendedTo(prog, r, branches[k].1);
    forall j | 0 <= j < k + 1 && ScannedBranch(prog, r, branches[j])
      ensures branches[j].1 <= Last(range + [branches[k].1])
    {
    }
  }

  lemma RangeKept(prog: seq<Asm>, r: nat, range: seq<nat>, branches: seq<(nat, nat)>, k: nat)
    requires k < |branches| && RangeAfter(prog, r, range, branches, k)
    requires range == [] || branches[k].1 <= Last(range) || !ScannedBranch(prog, r, branches[k])
    ensures RangeAfter(prog, r, range, branches, k + 1)
  {
  }

  lemma RangeComplete(prog: seq<Asm>, r: nat, range: seq<nat>, branches: seq<(nat, nat)>)
    requires BackwardUpTo(prog, branches, |prog|) && RangeAfter(prog, r, range, branches, |branches|)
    ensures RangeOf(prog, r, range)
  {
    forall s: nat | ExtendedTo(prog, r, s) && range != []
      ensures s <= Last(range)
    {
      var t: nat :| BackwardBranch(prog, t, s) && ScanReads(prog, r, t, s);
      assert (t, s) in branches;
      var j :| 0 <= j < |branches| && branches[j] == (t, s);
      assert ScannedBranch(prog, r, branches[j]);
    }
  }

  /** The scan of a loop body says yes exactly when some entry of it reads the register and none
      before that one writes it. */
  lemma {:induction false} ScanReadsIff(prog: seq<Asm>, r: nat, i: nat, s: nat)
    requires s <= |prog|
    ensures ScanReads(prog, r, i, s) <==> exists k: nat :: i <= k < s && FirstRead(prog, r, i, k)
    decreases s - i
  {
    hide IsBarrier, IsRead, IsWritten;
    if i < s {
      ScanReadsIff(prog, r, i + 1, s);
      var a := prog[i].assembler;
      if !IsBarrier(a.cmd) && IsRead(a, R(r)) { assert FirstRead(prog, r, i, i); }
      var next := i + 1;
      if exists k: nat :: next <= k < s && FirstRead(prog, r, next, k) {
        var k: nat :| next <= k < s && FirstRead(prog, r, next, k);
        assert IsBarrier(a.cmd) || !IsWritten(a, R(r)) ==> FirstRead(prog, r, i, k);
      }
      forall k: nat | i < k < s && FirstRead(prog, r, i, k) ensures FirstRead(prog, r, i + 1, k) {}
    }
  }

  ghost predicate FirstRead(prog: seq<Asm>, r: nat, i: nat, k: nat) {
    k < |prog| && !IsBarrier(prog[k].assembler.cmd) && IsRead(prog[k].assembler, R(r)) &&
    forall m :: i <= m < k ==> IsBarrier(prog[m].assembler.cmd) || !IsWritten(prog[m].assembler, R(r))
  }
}
