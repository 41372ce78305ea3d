/** Lists on which the passes, without their hypotheses, change what a program does. */
module Counterexamples {
  import opened Instructions
  import opened Machine
  import opened Liveness
  import opened LiveRanges
  import opened Allocation
  import opened DeadCode
  import opened JumpsAndLabels
  import opened UnusedRegisters

  function Load(dst: nat, src: nat, imm: int): Asm {
    Asm(Assembler(ADDI, [], R(src), R(dst), Unset, [imm], NoLabel), false)
  }
  function Send(r: nat): Asm { Asm(Assembler(ST, [], R(r), Unset, Unset, [0], NoLabel), false) }
  function LabelHere(n: nat): Asm { Asm(Assembler(LABEL, [], Unset, Unset, Unset, [], Label("l", n)), false) }
  function JumpTo(n: nat): Asm { Asm(Assembler(JMP, [], Unset, Unset, Unset, [], Label("l", n)), false) }
  function SkipIfZero(r: nat, n: nat): Asm { Asm(Assembler(BRZ, [], R(r), Unset, Unset, [], Label("l", n)), false) }
  function Sent(v: Word): Event { Event(ST, [], [0], v, 0) }

  /** One more step of a run. */
  lemma RunNext(prog: seq<Asm>, input: Input, s: State, n: nat, t: State, u: State)
    requires Run(prog, input, s, n) == t && Step(prog, input, t) == u
    ensures Run(prog, input, s, n + 1) == u
  {
    hide Step;
    RunAdd(prog, input, s, n, 1);
    assert Run(prog, input, t, 1) == Run(prog, input, u, 0);
  }

  lemma LoadStep(p: seq<Asm>, input: Input, s: State, dst: nat, src: nat, imm: int)
    requires s.pc < |p| && p[s.pc] == Load(dst, src, imm) && dst > 0
    ensures Step(p, input, s) == State(s.pc + 1, s.regs[dst := Wrap(Get(s.regs, src) + imm)], s.trace)
  {
    hide Wrap, Get;
  }

  lemma SendStep(p: seq<Asm>, input: Input, s: State, r: nat)
    requires s.pc < |p| && p[s.pc] == Send(r)
    ensures Step(p, input, s) == State(s.pc + 1, s.regs, s.trace + [Sent(Get(s.regs, r))])
  {
    hide Get, Alu;
  }

  lemma JumpStep(p: seq<Asm>, input: Input, s: State, n: nat)
    requires s.pc < |p| && p[s.pc] == JumpTo(n)
    ensures Step(p, input, s) == s.(pc := Target(p, Label("l", n)))
  {
    hide Target, Alu;
  }

  lemma SkipStep(p: seq<Asm>, input: Input, s: State, r: nat, n: nat)
    requires s.pc < |p| && p[s.pc] == SkipIfZero(r, n) && Get(s.regs, r) == 0
    ensures Step(p, input, s) == s.(pc := Target(p, Label("l", n)))
  {
    hide Target, Alu;
  }

  /** A run that has shown something p does not show at that length is not preserved. */
  lemma NotPreserved(p: seq<Asm>, q: seq<Asm>, input: Input, regs: Registers, n: nat, k: nat)
    requires k < |Run(p, input, Entry(regs), n).trace| && k < |Run(q, input, Entry(regs), n).trace|
    requires Run(p, input, Entry(regs), n).trace[k] != Run(q, input, Entry(regs), n).trace[k]
    ensures !Preserves(p, q)
  {
    hide Step, Run;
    if Preserves(p, q) {
      assert Follows(p, q, input, regs, n);
      var m: nat :| n <= m && SameView(p, Run(p, input, Entry(regs), n), q, Run(q, input, Entry(regs), m));
      RunAdd(q, input, Entry(regs), n, m - n);
      TraceGrows(q, input, Run(q, input, Entry(regs), n), m - n);
    }
  }

  // ----- Allocation without covering ranges -----

  /** A loop with a skipped write of R1, whose scan stops at that write. */
  function SkippedWrite(x: nat): seq<Asm> {
    [Load(1, 0, 5), Load(2, 0, 0), LabelHere(0), SkipIfZero(2, 1), Load(1, 0, 7), LabelHere(1),
     Send(1), Load(x, 0, 1), Send(x), JumpTo(0)]
  }

  function Seven(x: nat, regs: Registers, trace: seq<Event>): seq<State> {
    var sent := trace + [Sent(Get(regs, 1))];
    var regs' := regs[x := 1];
    [State(2, regs, trace), State(3, regs, trace), State(5, regs, trace), State(6, regs, trace),
     State(7, regs, sent), State(8, regs', sent), State(9, regs', sent + [Sent(1)]), State(2, regs', sent + [Sent(1)])]
  }

  /** One round of the loop with the write skipped. */
  lemma LoopRound(x: nat, input: Input, regs: Registers, trace: seq<Event>, i: nat)
    requires x in {1, 3} && Get(regs, 2) == 0 && i < 7
    ensures |Seven(x, regs, trace)| == 8 && Step(SkippedWrite(x), input, Seven(x, regs, trace)[i]) == Seven(x, regs, trace)[i + 1]
  {
    hide Step, Target, Get;
    var p, t := SkippedWrite(x), Seven(x, regs, trace)[i];
    SkipTargets(x);
    if i in {0, 2} { SilentStep(p, input, t); }
    if i == 1 { SkipStep(p, input, t, 2, 1); }
    if i == 3 { SendStep(p, input, t, 1); }
    if i == 4 { LoadStep(p, input, t, x, 0, 1); }
    if i == 5 { SendStep(p, input, t, x); }
    if i == 6 { JumpStep(p, input, t, 0); }
    SmallValues(t.regs, x);
  }

  lemma SmallValues(regs: Registers, x: nat)
    ensures Get(regs, 0) == 0 && Wrap(0 + 1) == 1 && Wrap(0 + 5) == 5 && Wrap(0 + 7) == 7 && Wrap(0 + 0) == 0 && Wrap(5 + 0) == 5
    ensures x > 0 && x in regs ==> Get(regs, x) == regs[x]
  {
  }

  lemma SkipTargets(x: nat)
    ensures Target(SkippedWrite(x), Label("l", 0)) == 2 && Target(SkippedWrite(x), Label("l", 1)) == 5
  {
    assert Defines(SkippedWrite(x), 2, Label("l", 0)) && Defines(SkippedWrite(x), 5, Label("l", 1));
  }

  lemma {:induction false} RoundRuns(x: nat, input: Input, s: State, n: nat, regs: Registers, trace: seq<Event>, i: nat)
    requires x in {1, 3} && Get(regs, 2) == 0 && i <= 7 && |Seven(x, regs, trace)| == 8
    requires Run(SkippedWrite(x), input, s, n) == Seven(x, regs, trace)[0]
    ensures Run(SkippedWrite(x), input, s, n + i) == Seven(x, regs, trace)[i]
    decreases i
  {
    hide Step, Run, Seven;
    if i > 0 {
      RoundRuns(x, input, s, n, regs, trace, i - 1);
      LoopRound(x, input, regs, trace, i - 1);
      RunNext(SkippedWrite(x), input, s, n + i - 1, Seven(x, regs, trace)[i - 1], Seven(x, regs, trace)[i]);
    }
  }

  /** The third command sent: 5 as long as R1 is left alone, 1 when it is shared. */
  lemma ThirdSent(x: nat, input: Input)
    requires x in {1, 3}
    ensures Run(SkippedWrite(x), input, Entry(map[]), 13).trace == [Sent(5), Sent(1), Sent(if x == 1 then 1 else 5)]
  {
    hide Run, Step, SkippedWrite;
    var p, regs: Registers := SkippedWrite(x), map[1 := 5, 2 := 0];
    TwoLoads(x, input);
    RoundRuns(x, input, Entry(map[]), 2, regs, [], 7);
    var t := Seven(x, regs, [])[7];
    RoundRuns(x, input, Entry(map[]), 9, t.regs, t.trace, 4);
    assert Seven(x, t.regs, t.trace)[4].trace == [Sent(5), Sent(1)] + [Sent(Get(t.regs, 1))];
  }

  lemma TwoLoads(x: nat, input: Input)
    ensures Run(SkippedWrite(x), input, Entry(map[]), 2) == State(2, map[1 := 5, 2 := 0], [])
  {
    hide Run, Step, Get;
    var p := SkippedWrite(x);
    var s0, s1, s2 := Entry(map[]), State(1, map[1 := 5], []), State(2, map[1 := 5, 2 := 0], []);
    SmallValues(s0.regs, 1);
    SmallValues(s1.regs, 1);
    LoadStep(p, input, s0, 1, 0, 5);
    LoadStep(p, input, s1, 2, 0, 0);
    NoSteps(p, input, s0);
    RunNext(p, input, s0, 0, s0, s1);
    RunNext(p, input, s0, 1, s1, s2);
  }

  lemma NoSteps(p: seq<Asm>, input: Input, s: State)
    ensures Run(p, input, s, 0) == s
  {
  }

  const SHARED: Naming := map[1 := 1, 2 := 2, 3 := 1]

  lemma OnlyBackBranch(t: nat, s: nat)
    ensures BackwardBranch(SkippedWrite(3), t, s) <==> t == 2 && s == 9
  {
    SkipTargets(3);
    if t == 2 && s == 9 { assert Defines(SkippedWrite(3), 2, Label("l", 0)); }
  }

  /** What the scan asks about each entry of the loop. */
  lemma ScanFacts(r: nat, i: nat)
    requires 2 <= i < 9 && 1 <= r <= 3
    ensures |SkippedWrite(3)| == 10
    ensures var a := SkippedWrite(3)[i].assembler;
      (IsBarrier(a.cmd) <==> i in {2, 5}) && (IsRead(a, R(r)) <==> (r, i) in {(2, 3), (1, 6), (3, 8)}) &&
      (IsWritten(a, R(r)) <==> (r, i) in {(1, 4), (3, 7)})
  {
  }

  lemma {:induction false} ScanOf(r: nat, i: nat)
    requires 2 <= i <= 9 && 1 <= r <= 3
    ensures |SkippedWrite(3)| == 10
    ensures ScanReads(SkippedWrite(3), r, i, 9) <==> (r == 2 && i <= 3) || (r == 1 && 5 <= i <= 6) || (r == 3 && i == 8)
    decreases 9 - i
  {
    hide SkippedWrite, IsRead, IsWritten, IsBarrier;
    ScanFacts(r, if i < 9 then i else 8);
    if i < 9 { ScanOf(r, i + 1); }
  }

  lemma Scanned(r: nat)
    requires 1 <= r <= 3
    ensures |SkippedWrite(3)| == 10 && (ScanReads(SkippedWrite(3), r, 2, 9) <==> r == 2)
  {
    hide SkippedWrite, ScanReads;
    ScanOf(r, 2);
  }

  lemma Extensions(r: nat, s: nat)
    requires 1 <= r <= 3
    ensures ExtendedTo(SkippedWrite(3), r, s) <==> r == 2 && s == 9
  {
    hide ScanReads, BackwardBranch, SkippedWrite;
    Scanned(r);
    forall t: nat ensures BackwardBranch(SkippedWrite(3), t, s) <==> t == 2 && s == 9 { OnlyBackBranch(t, s); }
  }

  lemma Mentioned(r: nat, i: nat)
    requires i < |SkippedWrite(3)|
    ensures MentionedAt(SkippedWrite(3), r, i) <==> MentionList(r, i)
  {
  }

  predicate MentionList(r: nat, i: nat) {
    (r == 1 && i in {0, 4, 6}) || (r == 2 && i in {1, 3}) || (r == 3 && i in {7, 8})
  }

  lemma TenEntries()
    ensures |SkippedWrite(3)| == 10
  {
  }

  /** Where the recorded ranges begin and end: R1 ends at its last mention although the loop needs it. */
  predicate EndsRecorded(ranges: Ranges) {
    |ranges| == 4 && ranges[0] == [] && ranges[1] != [] && ranges[2] != [] && ranges[3] != [] &&
    First(ranges[1]) == 0 && Last(ranges[1]) == 6 && First(ranges[2]) == 1 && Last(ranges[2]) == 9 &&
    First(ranges[3]) == 7 && Last(ranges[3]) == 8
  }

  lemma RangeEnds(r: nat, range: seq<nat>)
    requires 1 <= r <= 3 && RangeOf(SkippedWrite(3), r, range)
    ensures range != []
    ensures First(range) == if r == 1 then 0 else if r == 2 then 1 else 7
    ensures Last(range) == if r == 1 then 6 else if r == 2 then 9 else 8
  {
    hide ExtendedTo, MentionedAt, SkippedWrite;
    var p := SkippedWrite(3);
    assert |p| == 10 by { TenEntries(); }
    forall i: nat | i < |p| ensures MentionedAt(p, r, i) <==> MentionList(r, i) { Mentioned(r, i); }
    forall s: nat ensures ExtendedTo(p, r, s) <==> r == 2 && s == 9 { Extensions(r, s); }
    var first, last := if r == 1 then 0 else if r == 2 then 1 else 7, if r == 1 then 6 else if r == 2 then 3 else 8;
    assert MentionedAt(p, r, first) && MentionedAt(p, r, last);
    assert first in range && last in range && (r == 2 ==> ExtendedTo(p, r, 9));
    assert Last(range) in range && First(range) in range;
  }

  lemma EndsOfRanges(ranges: Ranges)
    requires RangesOf(SkippedWrite(3), 3, ranges)
    ensures EndsRecorded(ranges)
  {
    hide RangeOf, SkippedWrite;
    RangeEnds(1, ranges[1]);
    RangeEnds(2, ranges[2]);
    RangeEnds(3, ranges[3]);
  }

  lemma NumRegsBound()
    ensures BoundsRegisters(SkippedWrite(3), 3)
  {
    hide MentionedAt, SkippedWrite;
    assert |SkippedWrite(3)| == 10 by { TenEntries(); }
    forall r: nat, i: nat | i < |SkippedWrite(3)| && MentionedAt(SkippedWrite(3), r, i) ensures r <= 3 { Mentioned(r, i); }
  }

  /** First fit puts R3 with R1. */
  lemma FirstFitShares(ranges: Ranges, naming: Naming)
    requires EndsRecorded(ranges) && KeepsApart(ranges, naming) && FirstFit(ranges, naming)
    ensures naming == SHARED
  {
    if naming[1] > 1 {
      var r := InTheWay(ranges, naming, 1, 1);
      assert false;
    }
    if naming[2] > 2 {
      var r := InTheWay(ranges, naming, 2, 2);
      assert false;
    }
    if naming[3] > 1 {
      var r := InTheWay(ranges, naming, 3, 1);
      assert false;
    }
  }

  lemma InTheWay(ranges: Ranges, naming: Naming, u: nat, w: nat) returns (r: nat)
    requires FirstFit(ranges, naming) && u in naming && 1 <= w < naming[u]
    ensures u < |ranges| && ranges[u] != []
    ensures r in naming && naming[r] == w && r < u && r < |ranges| && ranges[r] != [] && !Apart(ranges[r], ranges[u])
  {
    assert Blocked(ranges, naming, w, u);
    r :| r in naming && naming[r] == w && r < u && r < |ranges| && ranges[r] != [] && !Apart(ranges[r], ranges[u]);
  }

  lemma SharedName()
    ensures RenameAll(SHARED, SkippedWrite(3)) == SkippedWrite(1)
  {
  }

  /** Whatever ranges are recorded and however the registers are then named first fit, as every
      successful allocation does, the result sends something else. */
  lemma UncoveredRangesBreak(ranges: Ranges, naming: Naming)
    requires RangesOf(SkippedWrite(3), 3, ranges) && KeepsApart(ranges, naming) && FirstFit(ranges, naming)
    ensures BoundsRegisters(SkippedWrite(3), 3)
    ensures !Preserves(SkippedWrite(3), RenameAll(naming, SkippedWrite(3)))
  {
    hide SkippedWrite, Run, RangesOf, KeepsApart, BoundsRegisters, RenameAll, Preserves, FirstFit, EndsRecorded;
    NumRegsBound();
    EndsOfRanges(ranges);
    FirstFitShares(ranges, naming);
    SharedName();
    var input: Input := (_, _) => 0;
    ThirdSent(3, input);
    ThirdSent(1, input);
    NotPreserved(SkippedWrite(3), SkippedWrite(1), input, map[], 13, 2);
  }

  // ----- Removing unused writes in a loop -----

  /** R1 is first set by a copy, then again, to v, at the end of the loop body. */
  function CopiedThenSet(v: int): seq<Asm> {
    [Load(2, 0, 5), Load(1, 2, 0), LabelHere(0), Send(1), Load(1, 0, v), JumpTo(0)]
  }

  /** What the pass leaves: the second write is gone. */
  function SetOnce(v: int): seq<Asm> {
    [Load(1, 0, 5), Killed(Load(1, 2, 0)), LabelHere(0), Send(1), KillWrite(Load(1, 0, v)), JumpTo(0)]
  }

  lemma UsageStep(p: seq<Asm>, i: nat, reg: Register, read: bool, written: bool)
    requires i < |p| && !p[i].assembler.cmd.INVALID? && p[i].assembler.regAux != reg
    requires !(p[i].assembler.regSrc == reg && IsBranch(p[i].assembler.cmd))
    ensures var read', written' := read || p[i].assembler.regSrc == reg, written || p[i].assembler.regDst == reg;
      !(read' && written') ==> UsageFrom(p, i, reg, read, written) == UsageFrom(p, i + 1, reg, read', written')
  {
    hide IsBranch;
  }

  lemma UsageEnd(p: seq<Asm>, reg: Register, read: bool)
    ensures UsageFrom(p, |p|, reg, read, false) == Usage.Flags(read, false)
  {
  }

  lemma CopyIsFolded(v: int)
    ensures var p := CopiedThenSet(v);
      UsageFrom(p, 1, R(2), false, false) == Usage.Flags(true, false) && CanFold(p, 0)
  {
    hide UsageFrom;
    var p := CopiedThenSet(v);
    UsageStep(p, 1, R(2), false, false);
    UsageStep(p, 2, R(2), true, false);
    UsageStep(p, 3, R(2), true, false);
    UsageStep(p, 4, R(2), true, false);
    UsageStep(p, 5, R(2), true, false);
    UsageEnd(p, R(2), true);
  }

  lemma SecondUnread(v: int)
    ensures UsageFrom(CopiedThenSet(v), 5, R(1), false, false) == Usage.Flags(false, false)
  {
    hide UsageFrom;
    UsageStep(CopiedThenSet(v), 5, R(1), false, false);
    UsageEnd(CopiedThenSet(v), R(1), false);
  }

  /** Which entries write, and where. */
  lemma LoopWriters(v: int, i: nat)
    requires i < 6
    ensures |CopiedThenSet(v)| == 6
    ensures var a := CopiedThenSet(v)[i].assembler;
      (WritesDst(a.cmd) <==> i in {0, 1, 4}) && (i == 0 ==> Destination(a) == R(2)) && (i in {1, 4} ==> Destination(a) == R(1))
  {
  }

  lemma FirstTurns(v: int)
    ensures |CopiedThenSet(v)| == 6 && TurnAt(CopiedThenSet(v), 0).Joined? && TurnAt(CopiedThenSet(v), 1).Passed?
    ensures TurnAt(CopiedThenSet(v), 2).Passed? && TurnAt(CopiedThenSet(v), 3).Passed?
  {
    hide CopiedThenSet, UsageFrom, CanFold, Destination, WritesDst, ExaminedBefore;
    var p := CopiedThenSet(v);
    LoopWriters(v, 0);
    LoopWriters(v, 2);
    LoopWriters(v, 3);
    CopyIsFolded(v);
    assert ExaminedBefore(p, 0) == [] by { NothingRemovedYet(p); }
    assert FoldedAway(p, 1);
  }

  lemma ExaminedOne(p: seq<Asm>)
    requires |p| == 6 && TurnAt(p, 0).Joined? && TurnAt(p, 1).Passed? && TurnAt(p, 2).Passed? && TurnAt(p, 3).Passed?
    ensures ExaminedBefore(p, 4) == [Destination(p[0].assembler)] && !FoldedAway(p, 4)
  {
    hide TurnAt, Destination;
    assert ExaminedBefore(p, 1) == [Destination(p[0].assembler)];
    assert ExaminedBefore(p, 2) == ExaminedBefore(p, 1) + [];
    assert ExaminedBefore(p, 3) == ExaminedBefore(p, 2) + [];
    assert ExaminedBefore(p, 4) == ExaminedBefore(p, 3) + [];
  }

  /** The copy is folded and the second write deleted, whatever v is. */
  lemma TurnsOfLoop(v: int)
    ensures var p := CopiedThenSet(v);
      |p| == 6 && TurnAt(p, 0).Joined? && TurnAt(p, 4).Deleted? && forall i :: i in {1, 2, 3, 5} ==> TurnAt(p, i).Passed?
  {
    hide CopiedThenSet, UsageFrom, CanFold, Destination, WritesDst, ExaminedBefore, FoldedAway;
    var p := CopiedThenSet(v);
    FirstTurns(v);
    ExaminedOne(p);
    LoopWriters(v, 0);
    LoopWriters(v, 4);
    LoopWriters(v, 5);
    SecondUnread(v);
  }

  lemma RemovedFromLoop(v: int)
    ensures RemoveFrom(CopiedThenSet(v), 0, [], 0, true).0 == SetOnce(v)
  {
    hide TurnAt, RemoveFrom, KillWrite;
    var p, q := CopiedThenSet(v), SetOnce(v);
    TurnsOfLoop(v);
    RemovedIs(p);
    forall i | 0 <= i < 6 ensures RemovedEntry(p, i) == q[i] {
      assert i == 1 ==> FoldedAway(p, i);
    }
    assert Removed(p) == q;
  }

  lemma HeadOf(v: int)
    ensures Target(CopiedThenSet(v), Label("l", 0)) == 2 && Target(SetOnce(v), Label("l", 0)) == 2
  {
    assert Defines(CopiedThenSet(v), 2, Label("l", 0)) && Defines(SetOnce(v), 2, Label("l", 0));
  }

  lemma ReadsFive(v: int)
    ensures Wrap(0 + 5) == 5 && Wrap(5 + 0) == 5 && Wrap(0 + v) == Wrap(v)
  {
  }

  /** Eight steps: 5 and then v before the pass, 5 and 5 after it. */
  lemma SentBefore(v: int, input: Input)
    ensures Run(CopiedThenSet(v), input, Entry(map[]), 8).trace == [Sent(5), Sent(Wrap(v))]
  {
    hide Run, Step, Get, Target, Wrap;
    var p, r0: Registers := CopiedThenSet(v), map[];
    var r1, r2: Registers, r3: Registers := r0[2 := 5], map[2 := 5, 1 := 5], map[2 := 5, 1 := Wrap(v)];
    var t1 := [Sent(5)];
    HeadOf(v);
    ReadsFive(v);
    SmallValues(r0, 1);
    SmallValues(r1, 2);
    SmallValues(r2, 1);
    SmallValues(r3, 1);
    NoSteps(p, input, Entry(r0));
    LoadStep(p, input, Entry(r0), 2, 0, 5);
    RunNext(p, input, Entry(r0), 0, Entry(r0), State(1, r1, []));
    LoadStep(p, input, State(1, r1, []), 1, 2, 0);
    RunNext(p, input, Entry(r0), 1, State(1, r1, []), State(2, r2, []));
    SilentStep(p, input, State(2, r2, []));
    RunNext(p, input, Entry(r0), 2, State(2, r2, []), State(3, r2, []));
    SendStep(p, input, State(3, r2, []), 1);
    RunNext(p, input, Entry(r0), 3, State(3, r2, []), State(4, r2, t1));
    LoadStep(p, input, State(4, r2, t1), 1, 0, v);
    RunNext(p, input, Entry(r0), 4, State(4, r2, t1), State(5, r3, t1));
    JumpStep(p, input, State(5, r3, t1), 0);
    RunNext(p, input, Entry(r0), 5, State(5, r3, t1), State(2, r3, t1));
    SilentStep(p, input, State(2, r3, t1));
    RunNext(p, input, Entry(r0), 6, State(2, r3, t1), State(3, r3, t1));
    SendStep(p, input, State(3, r3, t1), 1);
    RunNext(p, input, Entry(r0), 7, State(3, r3, t1), State(4, r3, t1 + [Sent(Wrap(v))]));
  }

  /** What holds on the way when v is 5 as well. */
  ghost predicate BothFive(s: State, t: State) {
    s.pc == t.pc <= 5 && s.trace == t.trace &&
    (s.pc == 1 ==> Get(s.regs, 2) == 5) && (s.pc >= 1 ==> Get(t.regs, 1) == 5) && (s.pc >= 2 ==> Get(s.regs, 1) == 5)
  }

  lemma BothFiveStep(v: int, input: Input, s: State, t: State)
    requires Wrap(v) == 5 && BothFive(s, t)
    ensures BothFive(Step(CopiedThenSet(v), input, s), Step(SetOnce(v), input, t))
  {
    hide Step, Target, Wrap;
    var p, q := CopiedThenSet(v), SetOnce(v);
    HeadOf(v);
    ReadsFive(v);
    if s.pc == 0 { LoadStep(p, input, s, 2, 0, 5); LoadStep(q, input, t, 1, 0, 5); }
    if s.pc == 1 { LoadStep(p, input, s, 1, 2, 0); SilentStep(q, input, t); }
    if s.pc == 2 { SilentStep(p, input, s); SilentStep(q, input, t); }
    if s.pc == 3 { SendStep(p, input, s, 1); SendStep(q, input, t, 1); }
    if s.pc == 4 { LoadStep(p, input, s, 1, 0, v); SilentStep(q, input, t); }
    if s.pc == 5 { JumpStep(p, input, s, 0); JumpStep(q, input, t, 0); }
  }

  lemma {:induction false} BothFiveRun(v: int, input: Input, s: State, t: State, n: nat)
    requires Wrap(v) == 5 && BothFive(s, t)
    ensures BothFive(Run(CopiedThenSet(v), input, s, n), Run(SetOnce(v), input, t, n))
    decreases n
  {
    hide Step, Wrap, BothFive, CopiedThenSet, SetOnce;
    if n > 0 {
      BothFiveStep(v, input, s, t);
      BothFiveRun(v, input, Step(CopiedThenSet(v), input, s), Step(SetOnce(v), input, t), n - 1);
    }
  }

  lemma FiveIsPreserved(v: int)
    requires Wrap(v) == 5
    ensures Preserves(CopiedThenSet(v), SetOnce(v))
  {
    hide Step, Wrap, Run;
    var p, q := CopiedThenSet(v), SetOnce(v);
    assert |p| == |q| == 6;
    forall input: Input, regs: Registers, n: nat ensures Follows(p, q, input, regs, n) {
      BothFiveRun(v, input, Entry(regs), Entry(regs), n);
      assert SameView(p, Run(p, input, Entry(regs), n), q, Run(q, input, Entry(regs), n));
    }
  }

  /** With 5 for v the pass's result sends what the list itself sends. */
  lemma SentAfter(v: int, input: Input)
    ensures Run(SetOnce(v), input, Entry(map[]), 8).trace == [Sent(5), Sent(5)]
  {
    hide Run, Step, Get, Target, Wrap;
    var p, r0: Registers, r1: Registers := SetOnce(v), map[], map[1 := 5];
    var t1 := [Sent(5)];
    HeadOf(v);
    ReadsFive(v);
    SmallValues(r0, 1);
    SmallValues(r1, 1);
    NoSteps(p, input, Entry(r0));
    LoadStep(p, input, Entry(r0), 1, 0, 5);
    RunNext(p, input, Entry(r0), 0, Entry(r0), State(1, r1, []));
    SilentStep(p, input, State(1, r1, []));
    RunNext(p, input, Entry(r0), 1, State(1, r1, []), State(2, r1, []));
    SilentStep(p, input, State(2, r1, []));
    RunNext(p, input, Entry(r0), 2, State(2, r1, []), State(3, r1, []));
    SendStep(p, input, State(3, r1, []), 1);
    RunNext(p, input, Entry(r0), 3, State(3, r1, []), State(4, r1, t1));
    SilentStep(p, input, State(4, r1, t1));
    RunNext(p, input, Entry(r0), 4, State(4, r1, t1), State(5, r1, t1));
    JumpStep(p, input, State(5, r1, t1), 0);
    RunNext(p, input, Entry(r0), 5, State(5, r1, t1), State(2, r1, t1));
    SilentStep(p, input, State(2, r1, t1));
    RunNext(p, input, Entry(r0), 6, State(2, r1, t1), State(3, r1, t1));
    SendStep(p, input, State(3, r1, t1), 1);
    RunNext(p, input, Entry(r0), 7, State(3, r1, t1), State(4, r1, t1 + [Sent(5)]));
  }

  lemma EntryFacts(v: int, i: nat)
    requires i < 6
    ensures |CopiedThenSet(v)| == 6 && WellFormedEntry(CopiedThenSet(v)[i].assembler)
  {
  }

  lemma UsesInLoop(v: int, r: nat, k: nat)
    ensures ReadsAt(CopiedThenSet(v), r, k) <==> (r, k) in {(2, 1), (1, 3)}
    ensures WritesAt(CopiedThenSet(v), r, k) <==> (r, k) in {(2, 0), (1, 1), (1, 4)}
  {
  }

  lemma LoopGoesRound(v: int)
    ensures var p := CopiedThenSet(v);
      |p| == 6 && Successors(p, 5) == {2} && forall i :: 0 <= i < 5 ==> Successors(p, i) == {i + 1}
  {
    hide Target;
    HeadOf(v);
  }

  /** The deleted write is needed: the loop goes round to the command that sends R1. */
  lemma DeletedIsNeeded(v: int)
    ensures !OnlyUnneeded(CopiedThenSet(v)) && !CopiesSettled(CopiedThenSet(v))
  {
    hide CopiedThenSet, Successors, ReadsAt, WritesAt, TurnAt, Reads, Writes, Needed, Reachable;
    var p := CopiedThenSet(v);
    TurnsOfLoop(v);
    LoopGoesRound(v);
    forall k: nat ensures (ReadsAt(p, 1, k) <==> k == 3) && (WritesAt(p, 1, k) <==> k in {1, 4}) { UsesInLoop(v, 1, k); }
    assert Removes(p, 4, 1);
    EntryReachable(p);
    ReachableNext(p, 0, 1);
    ReachableNext(p, 1, 2);
    ReachableNext(p, 2, 3);
    ReachableNext(p, 3, 4);
    ReadsAtMeans(p, 1, 3);
    NeededWhereRead(p, 1, 3);
    WritesAtMeans(p, 1, 2);
    NeededBefore(p, 1, 2, 3);
    WritesAtMeans(p, 1, 5);
    NeededBefore(p, 1, 5, 2);
    assert MovedUp(p, 0, 1) by { CopyTarget(v); }
    assert FoldedInto(p, 4, 1);
  }

  lemma CopyTarget(v: int)
    ensures |CopiedThenSet(v)| == 6 && CopiedThenSet(v)[1].assembler.regDst == R(1)
  {
  }

  lemma ReadsAtMeans(p: seq<Asm>, r: nat, k: nat)
    requires ReadsAt(p, r, k)
    ensures k < |p| && r in Reads(p[k].assembler)
  {
  }

  lemma WritesAtMeans(p: seq<Asm>, r: nat, k: nat)
    requires !WritesAt(p, r, k) && k < |p|
    ensures r !in Writes(p[k].assembler)
  {
  }

  lemma LoopIsWrittenFirst(v: int)
    ensures WellFormed(CopiedThenSet(v)) && WrittenFirst(CopiedThenSet(v))
  {
    hide CopiedThenSet, ReadsAt, WritesAt, WellFormedEntry;
    var p := CopiedThenSet(v);
    forall i | 0 <= i < |p| ensures WellFormedEntry(p[i].assembler) { EntryFacts(v, if i < 6 then i else 0); }
    forall r: nat, k: nat ensures (ReadsAt(p, r, k) <==> (r, k) in {(2, 1), (1, 3)}) && (WritesAt(p, r, k) <==> (r, k) in {(2, 0), (1, 1), (1, 4)}) {
      UsesInLoop(v, r, k);
    }
    assert WritesAt(p, 1, 1) && WritesAt(p, 2, 0);
  }

  /** Registers written before they are read are not enough in a loop: the pass deletes a write
      that is needed. Whether an observer sees it depends on the value written and on nothing
      else, so no condition on paths decides that. */
  lemma UnsettledCopiesBreak(v: int)
    ensures WellFormed(CopiedThenSet(v)) && WrittenFirst(CopiedThenSet(v))
    ensures !CopiesSettled(CopiedThenSet(v)) && !OnlyUnneeded(CopiedThenSet(v))
    ensures Preserves(CopiedThenSet(v), RemoveFrom(CopiedThenSet(v), 0, [], 0, true).0) <==> Wrap(v) == 5
  {
    hide Run, Preserves, RemoveFrom, Wrap, WellFormed, WrittenFirst, CopiesSettled, OnlyUnneeded;
    RemovedFromLoop(v);
    LoopIsWrittenFirst(v);
    DeletedIsNeeded(v);
    if Wrap(v) == 5 {
      FiveIsPreserved(v);
    } else {
      var input: Input := (_, _) => 0;
      SentBefore(v, input);
      SentAfter(v, input);
      NotPreserved(CopiedThenSet(v), SetOnce(v), input, map[], 8, 1);
    }
  }

  // ----- A fold above the count -----

  function CopyToSeven(): seq<Asm> { [Load(1, 0, 5), Load(7, 1, 0)] }

  lemma FoldOfSeven()
    ensures TurnAt(CopyToSeven(), 0).Joined? && TurnAt(CopyToSeven(), 1).Passed?
  {
    hide UsageFrom;
    var p := CopyToSeven();
    UsageStep(p, 1, R(1), false, false);
    UsageEnd(p, R(1), true);
    assert CanFold(p, 0);
  }

  lemma CountOfSeven()
    ensures RemoveFrom(CopyToSeven(), 0, [], 0, true).1 == 1
  {
    hide TurnAt, Visit;
    var p := CopyToSeven();
    FoldOfSeven();
    NothingRemovedYet(p);
    VisitIsTurn(p, 0);
    VisitIsTurn(p, 1);
    HalfNext(p, 0);
    var half := HalfRemoved(p, 1);
    assert half[1] == Killed(p[1]);
    assert RemoveFrom(p, 0, [], 0, true) == RemoveFrom(half, 1, ExaminedBefore(p, 1), Counted(0, p[0].assembler), true);
  }

  /** Folding puts a register into an entry whose registers were already counted. */
  lemma FoldEscapesTheCount()
    ensures var r := RemoveFrom(CopyToSeven(), 0, [], 0, true);
      r.1 == 1 && MovedUp(CopyToSeven(), 0, 7) && !BoundsRegisters(r.0, r.1)
  {
    hide RemoveFrom, TurnAt;
    FoldOfSeven();
    CountOfSeven();
    CountBoundsIff(CopyToSeven(), 0);
    assert MovedUp(CopyToSeven(), 0, 7);
  }

  // ----- Dead code reached by a jump back -----

  /** The label behind the first jump is named only from further down. */
  function JumpBackBehind(): seq<Asm> { [JumpTo(1), LabelHere(0), Send(1), LabelHere(1), JumpTo(0)] }

  lemma DeadSendReached(input: Input)
    ensures Run(JumpBackBehind(), input, Entry(map[]), 4).pc == 2
    ensures Run(JumpBackBehind(), input, Entry(map[]), 5).trace == [Sent(0)]
  {
    hide Run, Step, Get, Target;
    var p, r: Registers := JumpBackBehind(), map[];
    BehindTargets();
    SmallValues(r, 1);
    NoSteps(p, input, Entry(r));
    JumpStep(p, input, Entry(r), 1);
    RunNext(p, input, Entry(r), 0, Entry(r), State(3, r, []));
    SilentStep(p, input, State(3, r, []));
    RunNext(p, input, Entry(r), 1, State(3, r, []), State(4, r, []));
    JumpStep(p, input, State(4, r, []), 0);
    RunNext(p, input, Entry(r), 2, State(4, r, []), State(1, r, []));
    SilentStep(p, input, State(1, r, []));
    RunNext(p, input, Entry(r), 3, State(1, r, []), State(2, r, []));
    SendStep(p, input, State(2, r, []), 1);
    assert Get(r, 1) == 0 by { NeverSet(1); }
    RunNext(p, input, Entry(r), 4, State(2, r, []), State(3, r, [Sent(0)]));
  }

  lemma NeverSet(r: nat)
    ensures Get(map[], r) == 0
  {
  }

  lemma BehindTargets()
    ensures Target(JumpBackBehind(), Label("l", 1)) == 3 && Target(JumpBackBehind(), Label("l", 0)) == 1
  {
    var p := JumpBackBehind();
    assert Defines(p, 3, Label("l", 1)) && Defines(p, 1, Label("l", 0));
  }

  lemma SendIsDead()
    ensures KilledAt(JumpBackBehind(), 2)
  {
    var p := JumpBackBehind();
    assert AfterBranch(p, 1) && !CalledBefore(p, 1) && AfterBranch(p, 2);
  }

  /** So the pass deletes a command the program sends, and the result differs; the hypothesis rules
      this out. */
  lemma JumpBackIsDropped(input: Input)
    ensures KilledAt(JumpBackBehind(), 2) && Run(JumpBackBehind(), input, Entry(map[]), 5).trace == [Sent(0)]
    ensures !NoJumpBackIntoDead(JumpBackBehind())
    ensures forall q :: DeadCodeRemoved(JumpBackBehind(), q) ==> !Preserves(JumpBackBehind(), q)
  {
    hide Run, KilledAt, Step, NoJumpBackIntoDead, JumpBackBehind, AfterBranch, CalledBefore, Reachable;
    var p := JumpBackBehind();
    SendIsDead();
    DeadSendReached(input);
    EntryReachable(p);
    RunStaysReachable(p, input, Entry(map[]), 4);
    assert |p| == 5 by { FiveEntries(); }
    assert InDeadStretch(p, 2);
    DeadNeverReachedIff(p);
    forall q | DeadCodeRemoved(p, q) ensures !Preserves(p, q) { DroppedIsSeen(q, input); }
  }

  lemma {:induction false} NothingSent(q: seq<Asm>, input: Input, s: State, n: nat)
    requires forall k :: 0 <= k < |q| ==> !IsIo(q[k].assembler.cmd)
    ensures Run(q, input, s, n).trace == s.trace
    decreases n
  {
    hide NextPc, WriteBack, Result, IsIo;
    if n > 0 { NothingSent(q, input, Step(q, input, s), n - 1); }
  }

  lemma OnlyOneSends(k: nat)
    requires k < 5
    ensures |JumpBackBehind()| == 5 && (k != 2 ==> !IsIo(JumpBackBehind()[k].assembler.cmd))
  {
  }

  lemma DroppedIsSeen(q: seq<Asm>, input: Input)
    requires DeadCodeRemoved(JumpBackBehind(), q)
    ensures !Preserves(JumpBackBehind(), q)
  {
    hide Run, Step, KilledAt, JumpBackBehind, AfterBranch, CalledBefore, Reachable;
    var p := JumpBackBehind();
    SendIsDead();
    DeadSendReached(input);
    FiveEntries();
    forall k | 0 <= k < |q| ensures !IsIo(q[k].assembler.cmd) { OnlyOneSends(k); }
    if Preserves(p, q) {
      assert Follows(p, q, input, map[], 5);
      var m: nat :| 5 <= m && SameView(p, Run(p, input, Entry(map[]), 5), q, Run(q, input, Entry(map[]), m));
      NothingSent(q, input, Entry(map[]), m);
    }
  }

  lemma FiveEntries()
    ensures |JumpBackBehind()| == 5
  {
  }
}
