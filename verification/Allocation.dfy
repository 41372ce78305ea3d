/** Merging registers whose ranges do not meet, and why the renamed list behaves alike. */
module Allocation {
  import opened Instructions
  import opened Machine
  import opened Liveness
  import opened LiveRanges

  /** Two ranges that have no index in common, gaps included. */
  predicate Apart(a: seq<nat>, b: seq<nat>)
    requires a != [] && b != []
  {
    Last(a) < First(b) || Last(b) < First(a)
  }

  /** The new name of every register with a range. */
  type Naming = map<nat, nat>

  function NewName(naming: Naming, r: nat): nat {
    if r in naming then naming[r] else r
  }

  function RenameSlot(naming: Naming, reg: Register): Register {
    if reg.R? then R(NewName(naming, reg.number)) else reg
  }

  function RenameEntry(naming: Naming, e: Asm): Asm {
    if IsBarrier(e.assembler.cmd) then e
    else e.(assembler := e.assembler.(
              regSrc := RenameSlot(naming, e.assembler.regSrc),
              regDst := RenameSlot(naming, e.assembler.regDst),
              regAux := RenameSlot(naming, e.assembler.regAux)))
  }

  function RenameAll(naming: Naming, prog: seq<Asm>): (q: seq<Asm>)
    ensures |q| == |prog|
  {
    seq(|prog|, i requires 0 <= i < |prog| => RenameEntry(naming, prog[i]))
  }

  /** No two registers sharing a name have meeting ranges. */
  ghost predicate KeepsApart(ranges: Ranges, naming: Naming) {
    (forall r: nat :: r in naming <==> r < |ranges| && ranges[r] != []) &&
    (forall r :: r in naming ==> naming[r] > 0) &&
    forall r1, r2 :: r1 in naming && r2 in naming && r1 != r2 && naming[r1] == naming[r2]
      ==> Apart(ranges[r1], ranges[r2])
  }

  /** Same place, same output, and every register still needed found under its new name. */
  ghost predicate Corresponds(prog: seq<Asm>, naming: Naming, s: State, t: State) {
    s.pc == t.pc && s.trace == t.trace &&
    forall r: nat :: Needed(prog, r, s.pc) ==> Get(s.regs, r) == Get(t.regs, NewName(naming, r))
  }

  lemma RenamedSets(naming: Naming, e: Asm)
    requires forall r :: r in naming ==> r > 0 && naming[r] > 0
    ensures var b := RenameEntry(naming, e).assembler;
      (forall r :: r in Writes(e.assembler) ==> NewName(naming, r) in Writes(b)) &&
      (forall q :: q in Writes(b) ==> exists r :: r in Writes(e.assembler) && q == NewName(naming, r))
  {
    ReadsAreMentions(e.assembler);
    var b := RenameEntry(naming, e).assembler;
    forall q | q in Writes(b)
      ensures exists r :: r in Writes(e.assembler) && q == NewName(naming, r)
    {
      var r := if WritesDst(b.cmd) && b.regDst == R(q) then e.assembler.regDst.number else e.assembler.regAux.number;
      assert r in Writes(e.assembler) && q == NewName(naming, r);
    }
  }

  /** A slot that is read holds the same value under its new name. */
  lemma SlotCorresponds(prog: seq<Asm>, naming: Naming, s: State, t: State, reg: Register)
    requires Corresponds(prog, naming, s, t) && s.pc < |prog|
    requires forall r :: r in naming ==> r > 0
    requires Storage(reg) <= Reads(prog[s.pc].assembler)
    ensures Value(s.regs, reg) == Value(t.regs, RenameSlot(naming, reg))
  {
    if reg.R? && reg.number > 0 {
      assert reg.number in Storage(reg);
      NeededWhereRead(prog, reg.number, s.pc);
    }
  }

  /** Instructions differing in register names only do the same on equal operand values. */
  predicate SameOperands(a: Assembler, regs: Registers, b: Assembler, regs': Registers) {
    b == a.(regSrc := b.regSrc, regDst := b.regDst, regAux := b.regAux) &&
    (ReadsSrc(a.cmd) || IsBranch(a.cmd) ==> Value(regs, a.regSrc) == Value(regs', b.regSrc)) &&
    (ReadsAux(a.cmd) ==> Value(regs, a.regAux) == Value(regs', b.regAux)) &&
    (IsShift(a.cmd) ==> Value(regs, a.regDst) == Value(regs', b.regDst))
  }

  lemma SameOperandsSameResult(a: Assembler, s: State, b: Assembler, t: State, input: Input)
    requires SameOperands(a, s.regs, b, t.regs) && s.trace == t.trace
    ensures Writes(a) != {} ==> Result(a, s, input) == Result(b, t, input)
  {
    hide BitAnd, BitOr, BitXor, BitNot, Wrap, Value;
    if !ReadsSrc(a.cmd) { assert Writes(a) == {} || a.cmd.LD?; }
  }

  lemma OperandsCorrespond(prog: seq<Asm>, naming: Naming, s: State, t: State)
    requires Corresponds(prog, naming, s, t) && s.pc < |prog|
    requires forall r :: r in naming ==> r > 0
    ensures SameOperands(prog[s.pc].assembler, s.regs, RenameEntry(naming, prog[s.pc]).assembler, t.regs)
  {
    var a := prog[s.pc].assembler;
    if !IsBarrier(a.cmd) {
      if ReadsSrc(a.cmd) || IsBranch(a.cmd) { SlotCorresponds(prog, naming, s, t, a.regSrc); }
      if ReadsAux(a.cmd) { SlotCorresponds(prog, naming, s, t, a.regAux); }
      if IsShift(a.cmd) { SlotCorresponds(prog, naming, s, t, a.regDst); }
    }
  }

  /** Registers live at the same entry keep different names. */
  lemma OneNameEach(ranges: Ranges, naming: Naming, i: nat, r: nat, w: nat)
    requires KeepsApart(ranges, naming) && Spans(ranges, r, i, i) && Spans(ranges, w, i, i)
    ensures NewName(naming, w) == NewName(naming, r) ==> w == r
  {
    assert r in naming && w in naming;
  }

  lemma RenamingKeepsTargets(naming: Naming, prog: seq<Asm>, l: Label)
    ensures Target(prog, l) == Target(RenameAll(naming, prog), l)
  {
    SameTargets(prog, RenameAll(naming, prog), l);
  }

  /** Renamed instructions on equal operand values go the same way and send the same. */
  lemma SameWay(prog: seq<Asm>, naming: Naming, input: Input, s: State, t: State)
    requires Corresponds(prog, naming, s, t) && s.pc < |prog| && forall r :: r in naming ==> r > 0
    ensures var s', t' := Step(prog, input, s), Step(RenameAll(naming, prog), input, t); s'.pc == t'.pc && s'.trace == t'.trace
    ensures var a, b := prog[s.pc].assembler, RenameEntry(naming, prog[s.pc]).assembler;
      Writes(a) != {} ==> Result(a, s, input) == Result(b, t, input)
  {
    hide Alu, WriteBack, Value, Target, Needed;
    var a, b := prog[s.pc].assembler, RenameEntry(naming, prog[s.pc]).assembler;
    OperandsCorrespond(prog, naming, s, t);
    SameOperandsSameResult(a, s, b, t, input);
    RenamingKeepsTargets(naming, prog, a.lbl);
    hide RenameEntry, Writes;
    assert Taken(a, s.regs) == Taken(b, t.regs) && Emitted(a, s.regs) == Emitted(b, t.regs);
  }

  /** No reachable write of a register meets another one of the same name that is still needed
      behind it. */
  ghost predicate Unclobbered(prog: seq<Asm>, naming: Naming) {
    NamesReal(naming) && forall i: nat, j: nat, w: nat, r: nat :: !Clobbers(prog, naming, i, j, w, r)
  }

  predicate NamesReal(naming: Naming) { forall r :: r in naming ==> r > 0 && naming[r] > 0 }

  /** Entry i, reached, goes on to entry j; it writes w, and r of the same name is needed there. */
  ghost predicate Clobbers(prog: seq<Asm>, naming: Naming, i: nat, j: nat, w: nat, r: nat) {
    Reachable(prog, i) && i < |prog| && w in Writes(prog[i].assembler) && r !in Writes(prog[i].assembler) &&
    j in Successors(prog, i) && Needed(prog, r, j) && NewName(naming, w) == NewName(naming, r)
  }

  /** Ranges that cover every needed position see to that. */
  lemma CoveredIsUnclobbered(prog: seq<Asm>, numRegs: nat, ranges: Ranges, naming: Naming)
    requires RangesOf(prog, numRegs, ranges) && BoundsRegisters(prog, numRegs)
    requires KeepsApart(ranges, naming) && Covered(prog, ranges)
    ensures Unclobbered(prog, naming)
  {
    hide RangeOf, BoundsRegisters, Successors, Reads, Writes, Reachable, Needed;
    forall i: nat, j: nat, w: nat, r: nat ensures !Clobbers(prog, naming, i, j, w, r) {
      if Clobbers(prog, naming, i, j, w, r) {
        MentionInRange(prog, numRegs, ranges, w, i);
        NeededBefore(prog, r, i, j);
        OneNameEach(ranges, naming, i, r, w);
      }
    }
  }

  /** The place on a path, before its end, of the last write of r; -1 when there is none. */
  function LastWrite(prog: seq<Asm>, r: nat, path: seq<nat>): int
    decreases |path|
  {
    var n := |path| - 1;
    if n <= 0 then -1
    else if path[n - 1] < |prog| && r in Writes(prog[path[n - 1]].assembler) then n - 1
    else LastWrite(prog, r, path[..n])
  }

  /** Where r is needed, its new name was last written where r was. */
  ghost predicate SameWriter(prog: seq<Asm>, naming: Naming, r: nat, path: seq<nat>) {
    IsPath(prog, path) && Needed(prog, r, path[|path| - 1]) ==>
      LastWrite(prog, r, path) == LastWrite(RenameAll(naming, prog), NewName(naming, r), path)
  }

  lemma {:induction false} SameWriters(prog: seq<Asm>, naming: Naming, r: nat, path: seq<nat>)
    requires Unclobbered(prog, naming)
    ensures SameWriter(prog, naming, r, path)
    decreases |path|
  {
    hide Writes, Reads, Successors, Needed, Reachable, RenameEntry;
    if IsPath(prog, path) && Needed(prog, r, path[|path| - 1]) && |path| > 1 {
      var n := |path| - 1;
      var i := path[n - 1];
      PathReachable(prog, path, n - 1);
      RenamedSets(naming, prog[i]);
      if r !in Writes(prog[i].assembler) {
        NeededBefore(prog, r, i, path[n]);
        forall w | w in Writes(prog[i].assembler) ensures NewName(naming, w) != NewName(naming, r) {
          assert !Clobbers(prog, naming, i, path[n], w, r);
        }
        SameWriters(prog, naming, r, path[..n]);
      }
    }
  }

  /** Exactly when: on every path every needed register was last written where its new name was. */
  lemma UnclobberedIff(prog: seq<Asm>, naming: Naming)
    requires NamesReal(naming)
    ensures Unclobbered(prog, naming) <==> forall r: nat, path: seq<nat> :: SameWriter(prog, naming, r, path)
  {
    hide Writes, Reads, Successors, Needed, Reachable, RenameEntry, SameWriter;
    if Unclobbered(prog, naming) {
      forall r: nat, path: seq<nat> ensures SameWriter(prog, naming, r, path) { SameWriters(prog, naming, r, path); }
    } else {
      var i: nat, j: nat, w: nat, r: nat :| Clobbers(prog, naming, i, j, w, r);
      var path := ClobberedPath(prog, naming, i, j, w, r);
    }
  }

  lemma ClobberedPath(prog: seq<Asm>, naming: Naming, i: nat, j: nat, w: nat, r: nat) returns (path: seq<nat>)
    requires NamesReal(naming) && Clobbers(prog, naming, i, j, w, r)
    ensures !SameWriter(prog, naming, r, path)
  {
    hide Writes, Reads, Successors, Needed, RenameEntry;
    var k: nat :| ReachableIn(prog, i, k);
    var front := PathTo(prog, i, k);
    path := front + [j];
    RenamedSets(naming, prog[i]);
    assert path[..k + 1] == front;
    LastWriteBelow(prog, r, front);
  }

  lemma {:induction false} LastWriteBelow(prog: seq<Asm>, r: nat, path: seq<nat>)
    requires path != []
    ensures LastWrite(prog, r, path) < |path| - 1
    decreases |path|
  {
    hide Writes;
    if |path| > 1 { LastWriteBelow(prog, r, path[..|path| - 1]); }
  }

  lemma StepCorresponds(prog: seq<Asm>, naming: Naming, input: Input, s: State, t: State)
    requires Unclobbered(prog, naming) && Reachable(prog, s.pc) && Corresponds(prog, naming, s, t)
    ensures Corresponds(prog, naming, Step(prog, input, s), Step(RenameAll(naming, prog), input, t))
  {
    hide Successors, Alu, WriteBack, Reads, Writes, Emitted, Taken, RenameEntry, Result, Reachable, Needed;
    if s.pc < |prog| {
      var a, b := prog[s.pc].assembler, RenameEntry(naming, prog[s.pc]).assembler;
      SameWay(prog, naming, input, s, t);
      var s', t' := Step(prog, input, s), Step(RenameAll(naming, prog), input, t);
      NextPcIsSuccessor(prog, s);
      forall r: nat | Needed(prog, r, s'.pc)
        ensures Get(s'.regs, r) == Get(t'.regs, NewName(naming, r))
      {
        GetAfterWriteBack(s.regs, a, Result(a, s, input), r);
        GetAfterWriteBack(t.regs, b, Result(b, t, input), NewName(naming, r));
        RenamedSets(naming, prog[s.pc]);
        if r !in Writes(a) {
          NeededBefore(prog, r, s.pc, s'.pc);
          forall w | w in Writes(a) ensures NewName(naming, w) != NewName(naming, r) {
            assert !Clobbers(prog, naming, s.pc, s'.pc, w, r);
          }
        }
      }
    }
  }

  lemma OneStep(prog: seq<Asm>, input: Input, s: State)
    ensures Run(prog, input, s, 1) == Step(prog, input, s)
  {
    hide Step;
    assert Run(prog, input, s, 1) == Run(prog, input, Step(prog, input, s), 0);
  }

  /** Main result: when no needed register is clobbered, every step of every run of the renamed list
      is at the same entry, with the same output, as the original's; branch decisions included.
      Neither run's initial registers matter beyond what is needed at entry. */
  lemma {:induction false} AllocationPreserves(prog: seq<Asm>, naming: Naming, input: Input, s: State, t: State, n: nat)
    requires Unclobbered(prog, naming) && Reachable(prog, s.pc) && Corresponds(prog, naming, s, t)
    ensures Corresponds(prog, naming, Run(prog, input, s, n), Run(RenameAll(naming, prog), input, t, n))
    decreases n
  {
    hide Unclobbered, Corresponds, Step, Reachable, RenameAll;
    if n > 0 {
      OneStep(prog, input, s);
      StepCorresponds(prog, naming, input, s, t);
      RunStaysReachable(prog, input, s, 1);
      AllocationPreserves(prog, naming, input, Step(prog, input, s), Step(RenameAll(naming, prog), input, t), n - 1);
    }
  }

  lemma AllocationPreservesRuns(prog: seq<Asm>, naming: Naming)
    requires Unclobbered(prog, naming) && NothingNeededAtEntry(prog)
    ensures Preserves(prog, RenameAll(naming, prog))
    ensures forall input: Input, regs: Registers, regs': Registers, n: nat ::
      var s, t := Run(prog, input, Entry(regs), n), Run(RenameAll(naming, prog), input, Entry(regs'), n);
      s.pc == t.pc && s.trace == t.trace
  {
    hide Unclobbered;
    var q := RenameAll(naming, prog);
    forall input: Input, regs: Registers, regs': Registers, n: nat
      ensures var s, t := Run(prog, input, Entry(regs), n), Run(q, input, Entry(regs'), n);
        s.pc == t.pc && s.trace == t.trace
    {
      EntryReachable(prog);
      AllocationPreserves(prog, naming, input, Entry(regs), Entry(regs'), n);
    }
    forall input: Input, regs: Registers, n: nat ensures Follows(prog, q, input, regs, n) {
      assert SameView(prog, Run(prog, input, Entry(regs), n), q, Run(q, input, Entry(regs), n));
    }
  }

  // ----- The ordered lists of sub-ranges kept per physical register -----

  /** Sub-ranges in ascending order with no overlap. */
  ghost predicate Ordered(subs: seq<seq<nat>>) {
    (forall i :: 0 <= i < |subs| ==> subs[i] != [] && Increasing(subs[i])) &&
    forall i, j :: 0 <= i < j < |subs| ==> Last(subs[i]) < First(subs[j])
  }

  function Inserted(subs: seq<seq<nat>>, pos: nat, sub: seq<nat>): seq<seq<nat>>
    requires pos <= |subs|
  {
    subs[..pos] + [sub] + subs[pos..]
  }

  ghost predicate ApartFromAll(subs: seq<seq<nat>>, cand: seq<nat>)
    requires cand != [] && forall i :: 0 <= i < |subs| ==> subs[i] != []
  {
    forall i :: 0 <= i < |subs| ==> Apart(subs[i], cand)
  }

  lemma FirstNotAfterLast(range: seq<nat>)
    requires range != [] && Increasing(range)
    ensures First(range) <= Last(range)
  {
  }

  /** The append, prepend and gap tests: a position is found exactly when the candidate meets
      none of the sub-ranges, and inserting there keeps the list ordered. */
  method FindPosition(subs: seq<seq<nat>>, cand: seq<nat>) returns (canMerge: bool, insertPos: nat)
    requires Ordered(subs) && cand != [] && Increasing(cand)
    ensures canMerge <==> ApartFromAll(subs, cand)
    ensures canMerge ==> insertPos <= |subs| && Ordered(Inserted(subs, insertPos, cand))
  {
    canMerge, insertPos := false, 0;
    if subs == [] {
      return true, 0;
    }
    var minCand, maxCand := First(cand), Last(cand);
    if minCand > Last(subs[|subs| - 1]) {
      InsertAtEnd(subs, cand);
      return true, |subs|;
    }
    if maxCand < First(subs[0]) {
      InsertAtStart(subs, cand);
      return true, 0;
    }
    var i := 1;
    while i < |subs|
      invariant 1 <= i <= |subs|
      invariant !canMerge
      invariant forall k :: 1 <= k < i ==> Last(subs[k - 1]) >= minCand || First(subs[k]) <= maxCand
    {
      if Last(subs[i - 1]) < minCand && First(subs[i]) > maxCand {
        InsertInGap(subs, i, cand);
        return true, i;
      }
      i := i + 1;
    }
    NoGapMeansMeeting(subs, cand);
  }

  lemma InsertAtEnd(subs: seq<seq<nat>>, cand: seq<nat>)
    requires Ordered(subs) && subs != [] && cand != [] && Increasing(cand)
    requires First(cand) > Last(subs[|subs| - 1])
    ensures Ordered(Inserted(subs, |subs|, cand)) && ApartFromAll(subs, cand)
  {
    forall i | 0 <= i < |subs| ensures Last(subs[i]) < First(cand) {
      FirstNotAfterLast(subs[|subs| - 1]);
    }
  }

  lemma InsertAtStart(subs: seq<seq<nat>>, cand: seq<nat>)
    requires Ordered(subs) && subs != [] && cand != [] && Increasing(cand)
    requires Last(cand) < First(subs[0])
    ensures Ordered(Inserted(subs, 0, cand)) && ApartFromAll(subs, cand)
  {
    forall i | 0 <= i < |subs| ensures Last(cand) < First(subs[i]) { FirstNotAfterLast(subs[0]); }
  }

  lemma InsertInGap(subs: seq<seq<nat>>, pos: nat, cand: seq<nat>)
    requires Ordered(subs) && cand != [] && Increasing(cand)
    requires 1 <= pos < |subs| && Last(subs[pos - 1]) < First(cand) && Last(cand) < First(subs[pos])
    ensures Ordered(Inserted(subs, pos, cand)) && ApartFromAll(subs, cand)
  {
    FirstNotAfterLast(cand);
    forall i | 0 <= i < |subs|
      ensures i < pos ==> Last(subs[i]) < First(cand)
      ensures i >= pos ==> Last(cand) < First(subs[i])
    {
      FirstNotAfterLast(subs[pos - 1]);
      FirstNotAfterLast(subs[pos]);
    }
  }

  lemma NoGapMeansMeeting(subs: seq<seq<nat>>, cand: seq<nat>)
    requires Ordered(subs) && subs != [] && cand != [] && Increasing(cand)
    requires First(cand) <= Last(subs[|subs| - 1]) && First(subs[0]) <= Last(cand)
    requires forall k :: 1 <= k < |subs| ==> Last(subs[k - 1]) >= First(cand) || First(subs[k]) <= Last(cand)
    ensures !ApartFromAll(subs, cand)
  {
    if ApartFromAll(subs, cand) {
      var i := 0;
      FirstNotAfterLast(cand);
      assert Apart(subs[0], cand);
      while i + 1 < |subs|
        invariant 0 <= i < |subs| && Last(subs[i]) < First(cand)
      {
        assert Apart(subs[i + 1], cand);
        i := i + 1;
      }
    }
  }

  // ----- What the greedy merge keeps -----

  /** Register u cannot join v: it meets the range of a lower register there. */
  ghost predicate Blocked(ranges: Ranges, naming: Naming, v: nat, u: nat) {
    u < |ranges| && ranges[u] != [] &&
    exists r :: r in naming && naming[r] == v && r < u && r < |ranges| && ranges[r] != [] && !Apart(ranges[r], ranges[u])
  }

  ghost predicate RangesIncreasing(ranges: Ranges) {
    forall r :: 0 <= r < |ranges| ==> Increasing(ranges[r])
  }

  /** subs holds, in order, exactly the ranges of the registers named w. */
  ghost predicate Holds(ranges: Ranges, naming: Naming, subs: seq<seq<nat>>, w: nat) {
    Ordered(subs) &&
    (forall r :: r in naming && naming[r] == w ==> r < |ranges| && ranges[r] in subs) &&
    forall k :: 0 <= k < |subs| ==> HeldFor(ranges, naming, subs[k], w)
  }

  ghost predicate HeldFor(ranges: Ranges, naming: Naming, sub: seq<nat>, w: nat) {
    exists r :: r in naming && naming[r] == w && r < |ranges| && sub == ranges[r]
  }

  /** A register not yet visited holds at most its own range, and is in the conflict set
      exactly when it does. */
  ghost predicate Unvisited(ranges: Ranges, naming: Naming, subs: seq<seq<nat>>, conflicts: set<nat>, u: nat)
    requires u < |ranges|
  {
    (u in conflicts <==> u in naming && naming[u] == u) &&
    subs == if u in conflicts then [ranges[u]] else []
  }

  /** The state of the merge loop while register v is being filled. */
  ghost predicate Merging(ranges: Ranges, naming: Naming, phys: seq<seq<seq<nat>>>, conflicts: set<nat>, v: nat) {
    |phys| == |ranges| && RangesIncreasing(ranges) && KeepsApart(ranges, naming) &&
    (forall r :: r in naming ==> r > 0 && (naming[r] == r || naming[r] <= v)) &&
    (forall u :: v < u < |phys| ==> Unvisited(ranges, naming, phys[u], conflicts, u)) &&
    forall w :: 0 <= w <= v && w < |phys| ==> Holds(ranges, naming, phys[w], w)
  }

  /** Replaces one register by another in all three slots, as a single rename does. */
  function ReplaceSlot(reg: Register, oldReg: Register, newReg: Register): Register {
    if reg == oldReg then newReg else reg
  }

  function ReplaceRegister(e: Asm, oldReg: Register, newReg: Register): Asm {
    e.(assembler := e.assembler.(
         regSrc := ReplaceSlot(e.assembler.regSrc, oldReg, newReg),
         regDst := ReplaceSlot(e.assembler.regDst, oldReg, newReg),
         regAux := ReplaceSlot(e.assembler.regAux, oldReg, newReg)))
  }

  lemma RenameSlotOneMore(naming: Naming, reg: Register, preg: nat, v: nat)
    requires preg in naming && naming[preg] == preg
    requires forall r :: r in naming && naming[r] == preg ==> r == preg
    ensures RenameSlot(naming[preg := v], reg) == ReplaceSlot(RenameSlot(naming, reg), R(preg), R(v))
    ensures reg != R(preg) ==> RenameSlot(naming, reg) != R(preg)
  {
  }

  /** Renaming preg to v at the recorded indices extends the naming everywhere. */
  lemma RenamingOneMore(prog: seq<Asm>, range: seq<nat>, naming: Naming, preg: nat, v: nat, i: nat)
    requires RangeOf(prog, preg, range) && i < |prog| && preg > 0
    requires preg in naming && naming[preg] == preg
    requires forall r :: r in naming && naming[r] == preg ==> r == preg
    ensures RenameEntry(naming[preg := v], prog[i]) ==
      if i in range then ReplaceRegister(RenameEntry(naming, prog[i]), R(preg), R(v))
      else RenameEntry(naming, prog[i])
  {
    var a := prog[i].assembler;
    RenameSlotOneMore(naming, a.regSrc, preg, v);
    RenameSlotOneMore(naming, a.regDst, preg, v);
    RenameSlotOneMore(naming, a.regAux, preg, v);
    if i in range {
      assert !IsBarrier(a.cmd);
    } else if !IsBarrier(a.cmd) {
      assert preg !in Mentions(a);
    }
  }

  lemma MergeKeepsApart(ranges: Ranges, naming: Naming, subs: seq<seq<nat>>, v: nat, preg: nat)
    requires KeepsApart(ranges, naming) && Holds(ranges, naming, subs, v) && v > 0
    requires preg in naming && ApartFromAll(subs, ranges[preg])
    ensures KeepsApart(ranges, naming[preg := v])
  {
    forall r | r in naming && r != preg && naming[r] == v
      ensures Apart(ranges[r], ranges[preg])
    {
      assert ranges[r] in subs;
    }
  }

  lemma InsertedMembers(subs: seq<seq<nat>>, pos: nat, sub: seq<nat>)
    requires pos <= |subs|
    ensures forall x :: x in Inserted(subs, pos, sub) <==> x == sub || x in subs
  {
    assert subs == subs[..pos] + subs[pos..];
  }

  lemma HoldsInserted(ranges: Ranges, naming: Naming, subs: seq<seq<nat>>, v: nat, preg: nat, pos: nat)
    requires Holds(ranges, naming, subs, v) && preg < |ranges| && preg in naming
    requires pos <= |subs| && Ordered(Inserted(subs, pos, ranges[preg]))
    ensures Holds(ranges, naming[preg := v], Inserted(subs, pos, ranges[preg]), v)
  {
    var naming', ins := naming[preg := v], Inserted(subs, pos, ranges[preg]);
    InsertedMembers(subs, pos, ranges[preg]);
    forall k | 0 <= k < |ins| ensures HeldFor(ranges, naming', ins[k], v) {
      assert ins[k] in ins;
      if ins[k] == ranges[preg] {
        assert naming'[preg] == v;
      } else {
        var k' :| 0 <= k' < |subs| && subs[k'] == ins[k];
        assert HeldFor(ranges, naming, subs[k'], v);
        var r :| r in naming && naming[r] == v && r < |ranges| && subs[k'] == ranges[r];
        assert r in naming' && naming'[r] == v;
      }
    }
  }

  lemma HoldsElsewhere(ranges: Ranges, naming: Naming, subs: seq<seq<nat>>, w: nat, v: nat, preg: nat)
    requires Holds(ranges, naming, subs, w) && preg in naming && naming[preg] != w && v != w
    ensures Holds(ranges, naming[preg := v], subs, w)
  {
    forall k | 0 <= k < |subs| ensures HeldFor(ranges, naming[preg := v], subs[k], w) {
      assert HeldFor(ranges, naming, subs[k], w);
      var r :| r in naming && naming[r] == w && r < |ranges| && subs[k] == ranges[r];
      assert r in naming[preg := v] && naming[preg := v][r] == w;
    }
  }

  lemma MergeNames(ranges: Ranges, naming: Naming, v: nat, preg: nat)
    requires KeepsApart(ranges, naming)
    ensures preg in naming ==> preg < |ranges| && ranges[preg] != []
  {
  }

  /** One merge keeps the invariant. */
  lemma MergeStep(ranges: Ranges, naming: Naming, phys: seq<seq<seq<nat>>>, conflicts: set<nat>, v: nat, preg: nat, pos: nat)
    requires Merging(ranges, naming, phys, conflicts, v) && 1 <= v < preg < |phys| && preg in conflicts
    requires ranges[preg] != [] && ApartFromAll(phys[v], ranges[preg])
    requires pos <= |phys[v]| && Ordered(Inserted(phys[v], pos, ranges[preg]))
    ensures Merging(ranges, naming[preg := v], phys[v := Inserted(phys[v], pos, ranges[preg])][preg := []],
                    conflicts - {preg}, v)
  {
    hide Ordered, RangesIncreasing, Holds, KeepsApart, ApartFromAll, Inserted;
    assert Unvisited(ranges, naming, phys[preg], conflicts, preg);
    MergeNames(ranges, naming, v, preg);
    MergeKeepsApart(ranges, naming, phys[v], v, preg);
    HoldsInserted(ranges, naming, phys[v], v, preg, pos);
    forall w | 0 <= w < v ensures Holds(ranges, naming[preg := v], phys[w], w) {
      HoldsElsewhere(ranges, naming, phys[w], w, v, preg);
    }
    forall u | v < u < |phys| && u != preg
      ensures Unvisited(ranges, naming[preg := v], phys[u], conflicts - {preg}, u)
    {
      assert Unvisited(ranges, naming, phys[u], conflicts, u);
    }
  }

  /** Visiting the next register leaves its own range in place. */
  lemma VisitNext(ranges: Ranges, naming: Naming, phys: seq<seq<seq<nat>>>, conflicts: set<nat>, v: nat)
    requires Merging(ranges, naming, phys, conflicts, v) && v + 1 < |phys|
    ensures Merging(ranges, naming, phys, conflicts, v + 1)
  {
    var w := v + 1;
    assert Unvisited(ranges, naming, phys[w], conflicts, w);
    if phys[w] != [] {
      assert HeldFor(ranges, naming, phys[w][0], w);
    }
  }

  lemma NotMergeableIsBlocked(ranges: Ranges, naming: Naming, subs: seq<seq<nat>>, v: nat, u: nat)
    requires KeepsApart(ranges, naming) && Holds(ranges, naming, subs, v)
    requires u in naming && !ApartFromAll(subs, ranges[u])
    requires forall r :: r in naming && naming[r] == v ==> r < u
    ensures Blocked(ranges, naming, v, u)
  {
    var k :| 0 <= k < |subs| && !Apart(subs[k], ranges[u]);
    assert HeldFor(ranges, naming, subs[k], v);
  }

  lemma StaysBlocked(ranges: Ranges, naming: Naming, v: nat, u: nat, preg: nat, w: nat)
    requires Blocked(ranges, naming, v, u) && preg in naming && naming[preg] != v
    ensures Blocked(ranges, naming[preg := w], v, u)
  {
    var r :| r in naming && naming[r] == v && r < u && r < |ranges| && ranges[r] != [] && !Apart(ranges[r], ranges[u]);
    assert r in naming[preg := w] && naming[preg := w][r] == v;
  }

  /** Filling v moves later registers to v only, and unblocks nothing below v. */
  ghost predicate MovesTo(ranges: Ranges, before: Naming, after: Naming, v: nat) {
    (forall r :: r in before <==> r in after) &&
    (forall r :: r in before ==> after[r] == before[r] || (after[r] == v && before[r] == r > v)) &&
    forall w: nat, u: nat :: w <= v && Blocked(ranges, before, w, u) ==> Blocked(ranges, after, w, u)
  }

  ghost predicate RenamedOnce(ranges: Ranges, naming: Naming, e: Asm, i: nat, preg: nat, v: nat)
    requires preg < |ranges|
  {
    RenameEntry(naming[preg := v], e) ==
      if i in ranges[preg] then ReplaceRegister(RenameEntry(naming, e), R(preg), R(v)) else RenameEntry(naming, e)
  }

  /** One rename of the listed entries. */
  lemma MergeRenames(prog: seq<Asm>, numRegs: nat, ranges: Ranges, naming: Naming, preg: nat, v: nat, i: nat)
    requires RangesOf(prog, numRegs, ranges) && 1 <= preg <= numRegs && i < |prog| && preg in naming && naming[preg] == preg
    requires forall r :: r in naming && naming[r] == preg ==> r == preg
    ensures RenamedOnce(ranges, naming, prog[i], i, preg, v)
  {
    hide RenameEntry, ReplaceRegister;
    assert RangeOf(prog, preg, ranges[preg]);
    RenamingOneMore(prog, ranges[preg], naming, preg, v, i);
  }

  /** All that one merge does to the list and to the bookkeeping. */
  lemma MergeOne(prog: seq<Asm>, numRegs: nat, ranges: Ranges, naming: Naming, phys: seq<seq<seq<nat>>>,
                 conflicts: set<nat>, v: nat, preg: nat, pos: nat)
    requires RangesOf(prog, numRegs, ranges)
    requires Merging(ranges, naming, phys, conflicts, v) && 1 <= v < preg < |phys| && preg in conflicts
    requires ranges[preg] != [] && ApartFromAll(phys[v], ranges[preg])
    requires pos <= |phys[v]| && Ordered(Inserted(phys[v], pos, ranges[preg]))
    ensures Merging(ranges, naming[preg := v], phys[v := Inserted(phys[v], pos, ranges[preg])][preg := []],
                    conflicts - {preg}, v)
    ensures MovesTo(ranges, naming, naming[preg := v], v)
    ensures forall i :: 0 <= i < |prog| ==> RenamedOnce(ranges, naming, prog[i], i, preg, v)
  {
    hide KeepsApart, Holds, Ordered, RangesIncreasing, ApartFromAll, RenamedOnce, RangeOf;
    MergeStep(ranges, naming, phys, conflicts, v, preg, pos);
    assert Unvisited(ranges, naming, phys[preg], conflicts, preg);
    forall w: nat, u: nat | w <= v && Blocked(ranges, naming, w, u)
      ensures Blocked(ranges, naming[preg := v], w, u)
    {
      StaysBlocked(ranges, naming, w, u, preg, v);
    }
    forall i | 0 <= i < |prog| ensures RenamedOnce(ranges, naming, prog[i], i, preg, v) {
      MergeRenames(prog, numRegs, ranges, naming, preg, v, i);
    }
  }

  /** Before any merge every register keeps its own name. */
  lemma NothingMerged(prog: seq<Asm>, numRegs: nat, ranges: Ranges, naming: Naming, phys: seq<seq<seq<nat>>>, conflicts: set<nat>)
    requires RangesOf(prog, numRegs, ranges) && |phys| == numRegs + 1
    requires naming == map u | 1 <= u <= numRegs && ranges[u] != [] :: u
    requires conflicts == set u | 1 <= u <= numRegs && ranges[u] != []
    requires forall u :: 0 <= u <= numRegs ==> phys[u] == if u in conflicts then [ranges[u]] else []
    ensures Merging(ranges, naming, phys, conflicts, 0)
    ensures RenameAll(naming, prog) == prog
  {
    hide RenameAll, Ordered;
    forall r | 0 <= r < |ranges| ensures Increasing(ranges[r]) {
      if r > 0 { assert RangeOf(prog, r, ranges[r]); }
    }
    hide RangeOf, Increasing;
    assert KeepsApart(ranges, naming);
    forall u | 0 < u < |phys| ensures Unvisited(ranges, naming, phys[u], conflicts, u) {}
    NothingHeld(ranges, naming, phys[0]);
    SameNames(prog, naming);
  }

  lemma NothingHeld(ranges: Ranges, naming: Naming, subs: seq<seq<nat>>)
    requires subs == [] && forall r :: r in naming ==> naming[r] > 0
    ensures Holds(ranges, naming, subs, 0)
  {
  }

  lemma SameNames(prog: seq<Asm>, naming: Naming)
    requires forall r :: r in naming ==> naming[r] == r
    ensures RenameAll(naming, prog) == prog
  {
    forall i | 0 <= i < |prog| ensures RenameEntry(naming, prog[i]) == prog[i] {}
  }

  /** With no unvisited register left and the visited high ones empty, only low names remain. */
  lemma AllPlaced(ranges: Ranges, naming: Naming, phys: seq<seq<seq<nat>>>, conflicts: set<nat>, v: nat, numPhysical: nat)
    requires Merging(ranges, naming, phys, conflicts, v) && v < |phys|
    requires forall u :: v < u < |phys| ==> u !in conflicts
    requires forall w :: numPhysical <= w <= v && w < |phys| ==> phys[w] == []
    ensures forall r :: r in naming ==> 1 <= naming[r] < numPhysical
  {
    forall u | v < u < |phys| ensures !(u in naming && naming[u] == u) {
      assert Unvisited(ranges, naming, phys[u], conflicts, u);
    }
    forall r | r in naming ensures 1 <= naming[r] < numPhysical {
      assert r < |phys|;
      assert Holds(ranges, naming, phys[naming[r]], naming[r]);
    }
  }

  /** Everything still waiting is kept out of every allowed register already filled. */
  ghost predicate BlockedBelow(ranges: Ranges, naming: Naming, conflicts: set<nat>, v: nat, numPhysical: nat) {
    forall w, u: nat :: 1 <= w < v && w < numPhysical && v <= u < |ranges| && u in conflicts ==> Blocked(ranges, naming, w, u)
  }

  lemma FillKeepsBlocked(ranges: Ranges, before: Naming, after: Naming, pool: set<nat>, conflicts: set<nat>,
                         v: nat, numRegs: nat, numPhysical: nat)
    requires BlockedBelow(ranges, before, pool, v, numPhysical) && MovesTo(ranges, before, after, v)
    requires conflicts <= pool && |ranges| == numRegs + 1
    requires forall u :: v < u <= numRegs && u in conflicts ==> Blocked(ranges, after, v, u)
    ensures BlockedBelow(ranges, after, conflicts, v + 1, numPhysical)
    ensures forall w :: 1 <= w < v && w < numPhysical && v in pool && v <= numRegs ==> Blocked(ranges, after, w, v)
  {
  }

  // ----- First fit -----

  /** Every register has the least name at which no lower register is in its way. */
  ghost predicate FirstFit(ranges: Ranges, naming: Naming) {
    forall u, w: nat :: u in naming && 1 <= w < naming[u] ==> Blocked(ranges, naming, w, u)
  }

  /** The same for the names given so far. */
  ghost predicate FitsUpTo(ranges: Ranges, naming: Naming, v: nat, numPhysical: nat) {
    forall u, w: nat :: u in naming && naming[u] <= v && 1 <= w < naming[u] && w < numPhysical ==> Blocked(ranges, naming, w, u)
  }

  lemma NothingFitted(ranges: Ranges, naming: Naming, numPhysical: nat)
    ensures FitsUpTo(ranges, naming, 0, numPhysical)
  {
  }

  lemma FillKeepsFit(ranges: Ranges, before: Naming, after: Naming, pool: set<nat>, v: nat, numPhysical: nat)
    requires v > 0 && FitsUpTo(ranges, before, v - 1, numPhysical) && BlockedBelow(ranges, before, pool, v, numPhysical)
    requires MovesTo(ranges, before, after, v)
    requires forall u :: u in before ==> u < |ranges| && (before[u] == u || before[u] <= v - 1)
    requires forall u :: u in before && before[u] == u >= v ==> u in pool
    ensures FitsUpTo(ranges, after, v, numPhysical)
  {
    hide Blocked;
    forall u, w: nat | u in after && after[u] <= v && 1 <= w < after[u] && w < numPhysical ensures Blocked(ranges, after, w, u) {
      assert Blocked(ranges, before, w, u);
    }
  }

  lemma WaitingInPool(ranges: Ranges, naming: Naming, phys: seq<seq<seq<nat>>>, conflicts: set<nat>, v: nat)
    requires Merging(ranges, naming, phys, conflicts, v)
    ensures forall u :: u in naming ==> u < |ranges| && (naming[u] == u || naming[u] <= v)
    ensures forall u :: u in naming && naming[u] == u > v ==> u in conflicts
  {
    forall u | u in naming && naming[u] == u > v ensures u in conflicts {
      assert Unvisited(ranges, naming, phys[u], conflicts, u);
    }
  }

  lemma NobodyNamed(ranges: Ranges, naming: Naming, phys: seq<seq<seq<nat>>>, conflicts: set<nat>, v: nat, numPhysical: nat)
    requires Merging(ranges, naming, phys, conflicts, v) && 0 < v < |phys| && phys[v] == [] && FitsUpTo(ranges, naming, v - 1, numPhysical)
    ensures FitsUpTo(ranges, naming, v, numPhysical)
  {
    hide Blocked;
    assert Holds(ranges, naming, phys[v], v);
  }

  lemma FitComplete(ranges: Ranges, naming: Naming, phys: seq<seq<seq<nat>>>, conflicts: set<nat>, v: nat, numPhysical: nat)
    requires Merging(ranges, naming, phys, conflicts, v) && v < |phys| && FitsUpTo(ranges, naming, v, numPhysical)
    requires forall u :: v < u < |phys| ==> u !in conflicts
    requires forall r :: r in naming ==> 1 <= naming[r] < numPhysical
    ensures FirstFit(ranges, naming)
  {
    hide Blocked, Holds;
    WaitingInPool(ranges, naming, phys, conflicts, v);
  }

  /** First fit among the names below a limit: every register has the least of them at which no lower
      register is in its way, or a name from the limit on when there is none. */
  ghost predicate FitsBelow(ranges: Ranges, naming: Naming, limit: nat) {
    forall u, w: nat :: u in naming && 1 <= w < naming[u] && w < limit ==> Blocked(ranges, naming, w, u)
  }

  lemma FirstFitFits(ranges: Ranges, naming: Naming, limit: nat)
    requires FirstFit(ranges, naming)
    ensures FitsBelow(ranges, naming, limit)
  {
    hide Blocked;
  }

  /** When filling stops at a register that got no allowed name. */
  lemma StuckFits(ranges: Ranges, naming: Naming, phys: seq<seq<seq<nat>>>, conflicts: set<nat>, v: nat, numPhysical: nat, limit: nat)
    requires Merging(ranges, naming, phys, conflicts, v) && FitsUpTo(ranges, naming, v, numPhysical) && limit <= numPhysical <= v + 1
    requires BlockedBelow(ranges, naming, conflicts, v + 1, numPhysical)
    ensures FitsBelow(ranges, naming, limit)
  {
    hide Blocked;
    WaitingInPool(ranges, naming, phys, conflicts, v);
  }

  /** Two recordings for the same list: each range begins and ends alike. */
  ghost predicate SameExtent(a: Ranges, b: Ranges) {
    |a| == |b| && forall r :: 0 <= r < |a| ==>
      (a[r] == [] <==> b[r] == []) && (a[r] != [] ==> b[r] != [] && First(a[r]) == First(b[r]) && Last(a[r]) == Last(b[r]))
  }

  lemma RangeExtent(prog: seq<Asm>, r: nat, a: seq<nat>, b: seq<nat>)
    requires RangeOf(prog, r, a) && RangeOf(prog, r, b)
    ensures a == [] <==> b == []
    ensures a != [] && b != [] ==> First(a) == First(b) && Last(a) == Last(b)
  {
    hide MentionedAt, ExtendedTo;
    if a != [] && b != [] {
      assert First(a) in b && First(b) in a;
      assert Last(a) in a && Last(b) in b;
    }
  }

  lemma RangesExtent(prog: seq<Asm>, numRegs: nat, a: Ranges, b: Ranges)
    requires RangesOf(prog, numRegs, a) && RangesOf(prog, numRegs, b)
    ensures SameExtent(a, b)
  {
    hide RangeOf;
    forall r | 0 <= r < |a|
      ensures (a[r] == [] <==> b[r] == []) && (a[r] != [] ==> b[r] != [] && First(a[r]) == First(b[r]) && Last(a[r]) == Last(b[r]))
    {
      if r > 0 { RangeExtent(prog, r, a[r], b[r]); }
    }
  }

  /** First fit leaves no choice: whatever ranges were recorded, the registers that get an allowed
      name are the same, and so are their names. */
  lemma {:induction false} SameFit(ra: Ranges, rb: Ranges, a: Naming, b: Naming, limit: nat, u: nat)
    requires SameExtent(ra, rb) && KeepsApart(ra, a) && KeepsApart(rb, b) && FitsBelow(ra, a, limit) && FitsBelow(rb, b, limit)
    requires u in a
    ensures u in b && (a[u] < limit || b[u] < limit ==> a[u] == b[u])
    decreases u
  {
    if a[u] < b[u] && a[u] < limit {
      assert Blocked(rb, b, a[u], u);
      var r :| r in b && b[r] == a[u] && r < u && r < |rb| && rb[r] != [] && !Apart(rb[r], rb[u]);
      SameFit(ra, rb, a, b, limit, r);
    } else if b[u] < a[u] && b[u] < limit {
      assert Blocked(ra, a, b[u], u);
      var r :| r in a && a[r] == b[u] && r < u && r < |ra| && ra[r] != [] && !Apart(ra[r], ra[u]);
      SameFit(ra, rb, a, b, limit, r);
    }
  }

  lemma FirstFitUnique(ra: Ranges, rb: Ranges, a: Naming, b: Naming, limit: nat)
    requires SameExtent(ra, rb) && KeepsApart(ra, a) && KeepsApart(rb, b) && FitsBelow(ra, a, limit) && FitsBelow(rb, b, limit)
    ensures forall u :: u in a <==> u in b
    ensures forall u :: u in a && (a[u] < limit || b[u] < limit) ==> a[u] == b[u]
  {
    hide Blocked, Apart;
    forall u: nat | u in a ensures u in b && (a[u] < limit || b[u] < limit ==> a[u] == b[u]) { SameFit(ra, rb, a, b, limit, u); }
  }

  /** First fit gives every register an allowed name. */
  ghost predicate Allocatable(prog: seq<Asm>, numRegs: nat, limit: nat) {
    exists ranges: Ranges, naming: Naming :: FitOf(prog, numRegs, ranges, naming, limit) && forall r :: r in naming ==> naming[r] < limit
  }

  ghost predicate FitOf(prog: seq<Asm>, numRegs: nat, ranges: Ranges, naming: Naming, limit: nat) {
    RangesOf(prog, numRegs, ranges) && KeepsApart(ranges, naming) && FitsBelow(ranges, naming, limit)
  }

  /** Under the names given so far, register u meets a range in every allowed register. */
  ghost predicate StuckAt(ranges: Ranges, naming: Naming, limit: nat, u: nat) {
    u in naming && naming[u] >= limit && forall v :: 1 <= v < limit ==> Blocked(ranges, naming, v, u)
  }

  ghost predicate OutOfRegisters(prog: seq<Asm>, numRegs: nat, limit: nat) {
    exists ranges: Ranges, naming: Naming, u: nat :: FitOf(prog, numRegs, ranges, naming, limit) && StuckAt(ranges, naming, limit, u)
  }

  /** A list either fits or runs out of registers, never both. */
  lemma StuckIsNotAllocatable(prog: seq<Asm>, numRegs: nat, limit: nat)
    requires OutOfRegisters(prog, numRegs, limit)
    ensures !Allocatable(prog, numRegs, limit)
  {
    hide RangesOf, KeepsApart, FitsBelow, Blocked;
    var ra: Ranges, a: Naming, u: nat :| FitOf(prog, numRegs, ra, a, limit) && StuckAt(ra, a, limit, u);
    if Allocatable(prog, numRegs, limit) {
      var rb: Ranges, b: Naming :| FitOf(prog, numRegs, rb, b, limit) && forall r :: r in b ==> b[r] < limit;
      RangesExtent(prog, numRegs, ra, rb);
      FirstFitUnique(ra, rb, a, b, limit);
    }
  }

  // ----- What an allocation gives -----

  ghost predicate AllocationSafe(prog: seq<Asm>, naming: Naming) {
    Unclobbered(prog, naming) && NothingNeededAtEntry(prog)
  }

  /** The recorded ranges alone show that a naming that keeps them apart is safe. */
  ghost predicate RangesSuffice(prog: seq<Asm>, numRegs: nat, ranges: Ranges) {
    BoundsRegisters(prog, numRegs) && Covered(prog, ranges) && NothingNeededAtEntry(prog)
  }

  /** Instructions name R0 and registers below the limit only. */
  ghost predicate OnlyPhysical(prog: seq<Asm>, limit: nat) {
    forall i :: 0 <= i < |prog| && !IsBarrier(prog[i].assembler.cmd) ==> NamesBelow(prog[i].assembler, limit)
  }

  predicate NamesBelow(a: Assembler, limit: nat) {
    forall r :: r in Mentions(a) ==> r < limit
  }

  /** The registers the count misses are below the limit anyway. */
  ghost predicate MissedBelow(prog: seq<Asm>, numRegs: nat, limit: nat) {
    forall i: nat, r: nat :: i < |prog| && MentionedAt(prog, r, i) && r > numRegs ==> r < limit
  }

  /** A successful allocation leaves allowed names only exactly when the registers above the
      count, which it does not touch, were allowed already. */
  lemma AllocationResults(prog: seq<Asm>, numRegs: nat, ranges: Ranges, naming: Naming, limit: nat)
    requires RangesOf(prog, numRegs, ranges) && KeepsApart(ranges, naming)
    ensures AllocationSafe(prog, naming) ==> Preserves(prog, RenameAll(naming, prog))
    ensures RangesSuffice(prog, numRegs, ranges) ==> AllocationSafe(prog, naming)
    ensures (forall r :: r in naming ==> 1 <= naming[r] < limit) ==>
      (OnlyPhysical(RenameAll(naming, prog), limit) <==> MissedBelow(prog, numRegs, limit))
    ensures forall i :: 0 <= i < |prog| && IsBarrier(prog[i].assembler.cmd) ==> RenameAll(naming, prog)[i] == prog[i]
  {
    hide Preserves, Covered, NothingNeededAtEntry, Unclobbered;
    if RangesSuffice(prog, numRegs, ranges) { CoveredIsUnclobbered(prog, numRegs, ranges, naming); }
    if AllocationSafe(prog, naming) { AllocationPreservesRuns(prog, naming); }
    if forall r :: r in naming ==> 1 <= naming[r] < limit { OnlyPhysicalIff(prog, numRegs, ranges, naming, limit); }
  }

  lemma OnlyPhysicalIff(prog: seq<Asm>, numRegs: nat, ranges: Ranges, naming: Naming, limit: nat)
    requires RangesOf(prog, numRegs, ranges) && KeepsApart(ranges, naming)
    requires forall r :: r in naming ==> 1 <= naming[r] < limit
    ensures OnlyPhysical(RenameAll(naming, prog), limit) <==> MissedBelow(prog, numRegs, limit)
  {
    hide MentionedAt, RangesOf, KeepsApart, RenameEntry, NamesBelow;
    var q := RenameAll(naming, prog);
    if OnlyPhysical(q, limit) {
      forall i: nat, r: nat | i < |prog| && MentionedAt(prog, r, i) && r > numRegs ensures r < limit {
        MissedKeepsName(prog, numRegs, ranges, naming, r, i);
        assert NamesBelow(q[i].assembler, limit);
        BelowMeans(q[i].assembler, limit, r);
      }
    }
    if MissedBelow(prog, numRegs, limit) {
      forall i | 0 <= i < |q| && !IsBarrier(q[i].assembler.cmd) ensures NamesBelow(q[i].assembler, limit) {
        EntryAllocated(prog, numRegs, ranges, naming, limit, i);
      }
    }
  }

  lemma BelowMeans(a: Assembler, limit: nat, r: nat)
    requires NamesBelow(a, limit) && r in Mentions(a)
    ensures r < limit
  {
  }

  /** Above the count a register keeps its name. */
  lemma MissedKeepsName(prog: seq<Asm>, numRegs: nat, ranges: Ranges, naming: Naming, r: nat, i: nat)
    requires RangesOf(prog, numRegs, ranges) && KeepsApart(ranges, naming)
    requires i < |prog| && MentionedAt(prog, r, i) && r > numRegs
    ensures !IsBarrier(RenameEntry(naming, prog[i]).assembler.cmd) && r in Mentions(RenameEntry(naming, prog[i]).assembler)
  {
    hide Apart, RangeOf;
    assert r !in naming;
  }

  lemma EntryAllocated(prog: seq<Asm>, numRegs: nat, ranges: Ranges, naming: Naming, limit: nat, i: nat)
    requires RangesOf(prog, numRegs, ranges) && KeepsApart(ranges, naming) && MissedBelow(prog, numRegs, limit)
    requires i < |prog| && !IsBarrier(RenameEntry(naming, prog[i]).assembler.cmd)
    requires forall r :: r in naming ==> 1 <= naming[r] < limit
    ensures NamesBelow(RenameEntry(naming, prog[i]).assembler, limit)
  {
    var a := prog[i].assembler;
    assert !IsBarrier(a.cmd) by { hide *; BarrierKept(naming, prog[i]); }
    assert 0 !in naming;
    hide Mentions, RenameEntry, KeepsApart, RangesOf;
    forall r | r in Mentions(a) ensures NewName(naming, r) < limit {
      assert MentionedAt(prog, r, i);
      if r <= numRegs { MentionNamed(prog, numRegs, ranges, naming, r, i); } else { AboveUnnamed(numRegs, ranges, naming, r); }
    }
    NamesBelowAfter(naming, prog[i], limit);
  }

  lemma BarrierKept(naming: Naming, e: Asm)
    ensures IsBarrier(e.assembler.cmd) == IsBarrier(RenameEntry(naming, e).assembler.cmd)
  {
  }

  lemma AboveUnnamed(numRegs: nat, ranges: Ranges, naming: Naming, r: nat)
    requires KeepsApart(ranges, naming) && |ranges| == numRegs + 1 && r > numRegs
    ensures r !in naming
  {
  }

  lemma MentionNamed(prog: seq<Asm>, numRegs: nat, ranges: Ranges, naming: Naming, r: nat, i: nat)
    requires RangesOf(prog, numRegs, ranges) && KeepsApart(ranges, naming) && r <= numRegs
    requires i < |prog| && !IsBarrier(prog[i].assembler.cmd) && r in Mentions(prog[i].assembler)
    ensures r in naming
  {
    hide Apart;
    assert r > 0;
    assert MentionedAt(prog, r, i);
    assert RangeOf(prog, r, ranges[r]);
  }

  lemma NamesBelowAfter(naming: Naming, e: Asm, limit: nat)
    requires !IsBarrier(e.assembler.cmd) && 0 !in naming && forall r :: r in Mentions(e.assembler) ==> NewName(naming, r) < limit
    ensures NamesBelow(RenameEntry(naming, e).assembler, limit)
  {
    var a := e.assembler;
    forall reg: Register | reg in {a.regSrc, a.regDst, a.regAux} && reg.R? && reg.number > 0 ensures NewName(naming, reg.number) < limit {
      assert reg.number in Mentions(a);
    }
  }

  /** No instruction ever has two different registers collapsed into one. */
  lemma NeverCollapsed(prog: seq<Asm>, numRegs: nat, ranges: Ranges, naming: Naming, i: nat, r1: nat, r2: nat)
    requires RangesOf(prog, numRegs, ranges) && KeepsApart(ranges, naming) && BoundsRegisters(prog, numRegs)
    requires i < |prog| && !IsBarrier(prog[i].assembler.cmd) && r1 != r2
    requires r1 in Mentions(prog[i].assembler) && r2 in Mentions(prog[i].assembler)
    ensures NewName(naming, r1) != NewName(naming, r2)
  {
    SpansMention(prog, numRegs, ranges, r1, i);
    SpansMention(prog, numRegs, ranges, r2, i);
    hide RangesOf, KeepsApart, BoundsRegisters, Spans;
    OneNameEach(ranges, naming, i, r1, r2);
  }

  lemma SpansMention(prog: seq<Asm>, numRegs: nat, ranges: Ranges, r: nat, i: nat)
    requires RangesOf(prog, numRegs, ranges) && BoundsRegisters(prog, numRegs)
    requires i < |prog| && !IsBarrier(prog[i].assembler.cmd) && r in Mentions(prog[i].assembler)
    ensures Spans(ranges, r, i, i)
  {
    assert r > 0;
    hide Mentions;
    assert MentionedAt(prog, r, i);
    assert RangeOf(prog, r, ranges[r]);
    assert i in ranges[r];
  }
}
