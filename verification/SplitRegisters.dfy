/** Splitting a register that holds a constant: far uses get a fresh register, loaded with the
    constant in the two entries before the use. */
module SplitRegisters {
  import opened Instructions
  import opened Machine
  import opened Liveness
  import opened Allocation

  // ----- The rewrite -----

  /** A register, the entries that load it (end == |list| when there is only one), and the
      first fresh register number. */
  datatype Split = Split(reg: Register, start: nat, end: nat, first: nat)

  predicate KeepsNoOpt(cmd: Command) { cmd.MESSAGE? || cmd.COMMENT_NOP? || cmd.ERROR_MSG? }

  /** Instructions from entry i up to entry j, not counting barriers. */
  function CountInstructions(list: seq<Asm>, i: nat, j: nat): nat
    requires j <= |list|
    decreases j
  {
    if i >= j then 0
    else CountInstructions(list, i, j - 1) + (if IsBarrier(list[j - 1].assembler.cmd) then 0 else 1)
  }

  predicate Uses(list: seq<Asm>, reg: Register, i: nat) {
    i < |list| && !IsBarrier(list[i].assembler.cmd) && IsRead(list[i].assembler, reg) && !IsWritten(list[i].assembler, reg)
  }

  const SPLIT_DISTANCE := 10

  /** Uses far enough behind the load to be split, and uses too near. */
  predicate FarUse(list: seq<Asm>, sp: Split, i: nat) {
    sp.start < i && Uses(list, sp.reg, i) && CountInstructions(list, sp.start + 1, i) >= SPLIT_DISTANCE
  }

  predicate NearUse(list: seq<Asm>, sp: Split, i: nat) {
    sp.start < i && Uses(list, sp.reg, i) && CountInstructions(list, sp.start + 1, i) < SPLIT_DISTANCE
  }

  function FarUses(list: seq<Asm>, sp: Split, i: nat): nat {
    if i == 0 then 0 else FarUses(list, sp, i - 1) + (if FarUse(list, sp, i - 1) then 1 else 0)
  }

  /** Each far use gets the next register number. */
  function FreshFor(list: seq<Asm>, sp: Split, i: nat): Register { R(sp.first + FarUses(list, sp, i)) }

  function Reload(e: Asm, dst: Register, src: Register): Asm {
    Asm(e.assembler.(regDst := dst, regSrc := src), KeepsNoOpt(e.assembler.cmd))
  }

  /** Goes two entries before a use. */
  function LoadLow(list: seq<Asm>, sp: Split, use: nat): Asm
    requires sp.start < |list|
  {
    Reload(list[sp.start], FreshFor(list, sp, use), list[sp.start].assembler.regSrc)
  }

  /** Goes one entry before a use. */
  function LoadHigh(list: seq<Asm>, sp: Split, use: nat): Asm
    requires sp.start < |list| && sp.end < |list|
  {
    Reload(list[sp.end], FreshFor(list, sp, use),
           if list[sp.start].assembler.cmd.ADDI? then FreshFor(list, sp, use) else R(0))
  }

  function Retargeted(e: Asm, reg: Register, dst: Register): Asm {
    e.(assembler := e.assembler.(
      regSrc := if e.assembler.regSrc == reg then dst else e.assembler.regSrc,
      regAux := if e.assembler.regAux == reg then dst else e.assembler.regAux))
  }

  /** Every use is split, so the original load goes. */
  ghost predicate LoadGoes(list: seq<Asm>, sp: Split) {
    (exists i: nat :: FarUse(list, sp, i)) && forall i: nat :: !NearUse(list, sp, i)
  }

  /** What becomes of entry i. */
  ghost function SplitEntry(list: seq<Asm>, sp: Split, i: nat): Asm
    requires i < |list| && sp.start < |list|
  {
    var e :=
      if FarUse(list, sp, i + 2) then LoadLow(list, sp, i + 2)
      else if FarUse(list, sp, i + 1) && sp.end < |list| then LoadHigh(list, sp, i + 1)
      else if FarUse(list, sp, i) then Retargeted(list[i], sp.reg, FreshFor(list, sp, i))
      else list[i];
    if LoadGoes(list, sp) && i in {sp.start, sp.end} then Killed(e) else e
  }

  ghost predicate SplitInto(list: seq<Asm>, sp: Split, q: seq<Asm>) {
    sp.start < |list| && |q| == |list| && forall i: nat :: i < |list| ==> q[i] == SplitEntry(list, sp, i)
  }

  // ----- When it is safe -----

  /** The load of a constant: `ADDI r,R0,x`, `ADDIU r,R0,y` behind a dead entry, or both. */
  ghost predicate ConstantLoad(list: seq<Asm>, sp: Split) {
    sp.start < sp.end <= |list| && sp.reg.R? && sp.reg.number > 0 &&
    (var a := list[sp.start].assembler;
     (a.cmd.ADDI? || ((a.cmd.INVALID? || a.cmd.COMMENT_NOP?) && sp.end < |list|)) && a.regSrc == R(0) && a.regDst == sp.reg) &&
    (sp.end < |list| ==>
      var b := list[sp.end].assembler;
      b.cmd.ADDIU? && b.regDst == sp.reg && b.regSrc == (if list[sp.start].assembler.cmd.ADDI? then sp.reg else R(0))) &&
    (sp.end < |list| ==> forall k: nat :: sp.start < k < sp.end ==> PassedOver(list, k))
  }

  predicate PassedOver(list: seq<Asm>, k: nat) {
    k < |list| && (list[k].assembler.cmd.INVALID? || list[k].assembler.cmd.COMMENT_NOP?)
  }

  /** Nothing else writes the register. */
  ghost predicate LoadedOnce(list: seq<Asm>, sp: Split) {
    forall k: nat :: k < |list| && sp.reg.R? && sp.reg.number in Writes(list[k].assembler) ==> k == sp.start || k == sp.end
  }

  /** All reads come later in the list and are visible to the classification. */
  ghost predicate ReadsSeen(list: seq<Asm>, sp: Split) {
    forall k: nat :: k < |list| && sp.reg.R? && sp.reg.number in Reads(list[k].assembler) ==>
      k > sp.start && IsRead(list[k].assembler, sp.reg)
  }

  /** The two entries before each far use are free. */
  ghost predicate SlotsFree(list: seq<Asm>, sp: Split) {
    forall i: nat :: FarUse(list, sp, i) ==>
      i >= 2 && list[i - 1].assembler.cmd.INVALID? && list[i - 2].assembler.cmd.INVALID?
  }

  /** The fresh numbers are above those of all instructions. */
  ghost predicate FreshAbove(list: seq<Asm>, sp: Split) {
    forall k: nat, r: nat :: k < |list| && !IsBarrier(list[k].assembler.cmd) && r in Mentions(list[k].assembler) ==> r < sp.first
  }

  ghost predicate SafeSplit(list: seq<Asm>, sp: Split) {
    ConstantLoad(list, sp) && LoadedOnce(list, sp) && ReadsSeen(list, sp) && SlotsFree(list, sp) && FreshAbove(list, sp) &&
    !Needed(list, sp.reg.number, 0)
  }

  // ----- The register holds the constant wherever it is needed -----

  function LowPart(list: seq<Asm>, sp: Split): Word
    requires sp.start < |list|
  { Wrap(Immediate(list[sp.start].assembler)) }

  function ConstantOf(list: seq<Asm>, sp: Split): Word
    requires sp.start < |list|
  {
    if sp.end >= |list| then LowPart(list, sp)
    else
      var low := if list[sp.start].assembler.cmd.ADDI? then LowPart(list, sp) else 0;
      Wrap(low + Immediate(list[sp.end].assembler) * 0x1000)
  }

  predicate BetweenLoads(list: seq<Asm>, sp: Split, pc: nat) { sp.start < pc <= sp.end < |list| }

  ghost predicate Loaded(list: seq<Asm>, sp: Split, s: State)
    requires sp.start < |list| && sp.reg.R?
  {
    Needed(list, sp.reg.number, s.pc) ==>
      Get(s.regs, sp.reg.number) == if BetweenLoads(list, sp, s.pc) then LowPart(list, sp) else ConstantOf(list, sp)
  }

  /** Behind a dead start nothing needs the register until the end loads it. */
  lemma {:induction false} NotNeededBetween(list: seq<Asm>, sp: Split, k: nat, n: nat)
    requires ConstantLoad(list, sp) && !list[sp.start].assembler.cmd.ADDI? && sp.start < k <= sp.end < |list|
    ensures !NeededIn(list, sp.reg.number, k, n)
    decreases sp.end - k
  {
    var r := sp.reg.number;
    if k == sp.end {
      assert r in Writes(list[k].assembler) && r !in Reads(list[k].assembler);
    } else {
      assert PassedOver(list, k) && Successors(list, k) == {k + 1} && Reads(list[k].assembler) == {};
      if n > 0 { NotNeededBetween(list, sp, k + 1, n - 1); }
    }
  }

  /** Entries without a label are entered from above only. */
  lemma EnteredFromAbove(list: seq<Asm>, s: State, k: nat)
    requires s.pc < |list| && NextPc(list, s) == k && k < |list| && !list[k].assembler.cmd.LABEL?
    ensures k == s.pc + 1
  {
  }

  lemma BetweenEnteredFromAbove(list: seq<Asm>, sp: Split, s: State)
    requires ConstantLoad(list, sp) && s.pc < |list| && BetweenLoads(list, sp, NextPc(list, s))
    ensures NextPc(list, s) == s.pc + 1 && sp.start <= s.pc < sp.end
  {
    var k := NextPc(list, s);
    assert k < sp.end ==> PassedOver(list, k);
    EnteredFromAbove(list, s, k);
  }

  lemma FallsThrough(list: seq<Asm>, s: State)
    requires s.pc < |list| && !IsBranch(list[s.pc].assembler.cmd) && !list[s.pc].assembler.cmd.END?
    ensures NextPc(list, s) == s.pc + 1
  {
  }

  /** The value a load entry leaves. */
  lemma LoadValue(a: Assembler, s: State, input: Input, dst: Register, src: Register, low: Word)
    requires (a.cmd.ADDI? && a.regSrc == R(0)) || (a.cmd.ADDIU? && a.regSrc == src && Value(s.regs, src) == low)
    requires a.regDst == dst && dst.R? && dst.number > 0
    ensures Get(WriteBack(s.regs, a, Result(a, s, input)), dst.number) ==
      if a.cmd.ADDI? then Wrap(Immediate(a)) else Wrap(low + Immediate(a) * 0x1000)
  {
  }

  /** Every step keeps the constant in the register wherever it is needed. */
  lemma StaysLoaded(list: seq<Asm>, sp: Split, input: Input, s: State)
    requires ConstantLoad(list, sp) && LoadedOnce(list, sp) && s.pc < |list| && Loaded(list, sp, s)
    ensures Loaded(list, sp, Step(list, input, s))
  {
    hide Alu, Reads, Immediate, Result, Emitted, NeededIn;
    var r, a, k := sp.reg.number, list[s.pc].assembler, NextPc(list, s);
    var s' := Step(list, input, s);
    if Needed(list, r, k) {
      NextPcIsSuccessor(list, s);
      GetAfterWriteBack(s.regs, a, Result(a, s, input), r);
      if s.pc == sp.end {
        EndLoads(list, sp, input, s);
      } else if s.pc == sp.start && a.cmd.ADDI? {
        FallsThrough(list, s);
        LoadValue(a, s, input, sp.reg, R(0), 0);
      } else {
        assert s.pc == sp.start ==> Writes(a) == {};
        NeededBefore(list, r, s.pc, k);
        if BetweenLoads(list, sp, k) { BetweenEnteredFromAbove(list, sp, s); }
        if BetweenLoads(list, sp, s.pc) { assert PassedOver(list, s.pc); FallsThrough(list, s); }
        if s.pc == sp.start { DeadStartNotNeeded(list, sp, s); }
      }
    }
  }

  lemma DeadStartNotNeeded(list: seq<Asm>, sp: Split, s: State)
    requires ConstantLoad(list, sp) && s.pc == sp.start && !list[sp.start].assembler.cmd.ADDI?
    ensures !Needed(list, sp.reg.number, NextPc(list, s))
  {
    var r, k := sp.reg.number, sp.start + 1;
    forall n: nat ensures !NeededIn(list, r, k, n) { NotNeededBetween(list, sp, k, n); }
  }

  lemma EndLoads(list: seq<Asm>, sp: Split, input: Input, s: State)
    requires ConstantLoad(list, sp) && s.pc == sp.end < |list| && Loaded(list, sp, s)
    ensures Get(Step(list, input, s).regs, sp.reg.number) == ConstantOf(list, sp) && NextPc(list, s) == sp.end + 1
  {
    hide Alu, Emitted;
    var a := list[sp.end].assembler;
    FallsThrough(list, s);
    if list[sp.start].assembler.cmd.ADDI? {
      assert sp.reg.number in Reads(a);
      NeededWhereRead(list, sp.reg.number, s.pc);
      LoadValue(a, s, input, sp.reg, sp.reg, LowPart(list, sp));
    } else {
      LoadValue(a, s, input, sp.reg, R(0), 0);
    }
  }

  // ----- Both lists in lockstep -----

  /** What the fresh register of the next use holds in the entry before it. */
  ghost predicate HalfLoaded(list: seq<Asm>, sp: Split, t: State, use: nat)
    requires sp.start < |list|
  {
    if sp.end >= |list| then Get(t.regs, FreshFor(list, sp, use).number) == ConstantOf(list, sp)
    else list[sp.start].assembler.cmd.ADDI? ==> Get(t.regs, FreshFor(list, sp, use).number) == LowPart(list, sp)
  }

  /** Same place, same commands, same registers, but for the fresh ones and the split one when
      its load goes; on the last steps to a use its fresh register is loaded. */
  ghost predicate SplitAlike(list: seq<Asm>, sp: Split, s: State, t: State)
    requires sp.start < |list| && sp.reg.R?
  {
    s.pc == t.pc && s.trace == t.trace &&
    (forall q: nat :: q < sp.first && !(LoadGoes(list, sp) && q == sp.reg.number) ==> Get(s.regs, q) == Get(t.regs, q)) &&
    (FarUse(list, sp, s.pc) ==> Get(t.regs, FreshFor(list, sp, s.pc).number) == ConstantOf(list, sp)) &&
    (FarUse(list, sp, s.pc + 1) ==> HalfLoaded(list, sp, t, s.pc + 1))
  }

  lemma UseEnteredFromAbove(list: seq<Asm>, sp: Split, s: State, use: nat)
    requires SlotsFree(list, sp) && FarUse(list, sp, use) && s.pc < |list|
    requires NextPc(list, s) == use || NextPc(list, s) + 1 == use
    ensures NextPc(list, s) == s.pc + 1 && (s.pc + 1 == use || s.pc + 2 == use)
  {
    EnteredFromAbove(list, s, NextPc(list, s));
  }

  lemma SplitTargets(list: seq<Asm>, sp: Split, q: seq<Asm>, l: Label)
    requires SplitInto(list, sp, q) && ConstantLoad(list, sp) && SlotsFree(list, sp)
    ensures Target(list, l) == Target(q, l)
  {
    hide FarUse, LoadGoes, FreshFor;
    forall i | 0 <= i < |list| ensures Defines(list, i, l) == Defines(q, i, l) {
      assert q[i] == SplitEntry(list, sp, i);
      if FarUse(list, sp, i) { UseIsPlain(list, sp, i); }
    }
    SameTargets(list, q, l);
  }

  lemma UseIsPlain(list: seq<Asm>, sp: Split, i: nat)
    requires FarUse(list, sp, i)
    ensures i < |list| && !list[i].assembler.cmd.LABEL? && !list[i].assembler.cmd.INVALID?
  {
  }

  lemma {:induction false} NoneBetween(list: seq<Asm>, sp: Split, k: nat)
    requires ConstantLoad(list, sp) && k <= sp.end < |list|
    ensures CountInstructions(list, sp.start + 1, k) == 0
    decreases k
  {
    if k > sp.start + 1 {
      NoneBetween(list, sp, k - 1);
      assert PassedOver(list, k - 1);
    }
  }

  /** Far from the load is behind it. */
  lemma FarIsBehind(list: seq<Asm>, sp: Split, i: nat)
    requires ConstantLoad(list, sp) && i <= |list| && CountInstructions(list, sp.start + 1, i) >= SPLIT_DISTANCE
    ensures i > sp.start + 1 && (sp.end < |list| ==> i > sp.end + 1)
  {
    if sp.end < |list| && i <= sp.end + 1 { NoneBetween(list, sp, if i <= sp.end then i else i - 1); }
  }

  /** Which rule applies where. */
  lemma SplitCases(list: seq<Asm>, sp: Split, i: nat)
    requires ConstantLoad(list, sp) && SlotsFree(list, sp) && i < |list|
    ensures FarUse(list, sp, i + 2) ==>
      list[i].assembler.cmd.INVALID? && i > sp.start && i != sp.end && !FarUse(list, sp, i + 1) && !FarUse(list, sp, i)
    ensures FarUse(list, sp, i + 1) ==> list[i].assembler.cmd.INVALID? && i > sp.start && i != sp.end && !FarUse(list, sp, i)
    ensures FarUse(list, sp, i) ==> i > sp.start && i != sp.end
  {
    hide IsRead, IsWritten, ConstantLoad;
    forall u: nat | FarUse(list, sp, u) ensures u >= 2 && u - 2 > sp.start && (sp.end < |list| ==> u - 2 > sp.end) {
      assert CountInstructions(list, sp.start + 1, u) == CountInstructions(list, sp.start + 1, u - 1);
      assert CountInstructions(list, sp.start + 1, u - 1) == CountInstructions(list, sp.start + 1, u - 2);
      FarIsBehind(list, sp, u - 2);
    }
  }

  lemma SplitAt(list: seq<Asm>, sp: Split, q: seq<Asm>, i: nat)
    requires ConstantLoad(list, sp) && SlotsFree(list, sp) && SplitInto(list, sp, q) && i < |list|
    ensures |q| == |list|
    ensures FarUse(list, sp, i + 2) ==> q[i] == LoadLow(list, sp, i + 2)
    ensures FarUse(list, sp, i + 1) ==> q[i] == if sp.end < |list| then LoadHigh(list, sp, i + 1) else list[i]
    ensures FarUse(list, sp, i) ==> q[i] == Retargeted(list[i], sp.reg, FreshFor(list, sp, i))
    ensures !FarUse(list, sp, i + 2) && !FarUse(list, sp, i + 1) && !FarUse(list, sp, i) ==>
      q[i] == if LoadGoes(list, sp) && i in {sp.start, sp.end} then Killed(list[i]) else list[i]
  {
    hide FarUse, LoadGoes, FreshFor, ConstantLoad, SlotsFree;
    SplitCases(list, sp, i);
    assert q[i] == SplitEntry(list, sp, i);
  }

  /** A dead or comment entry does nothing. */
  lemma NothingStep(prog: seq<Asm>, input: Input, s: State)
    requires PassedOver(prog, s.pc)
    ensures Step(prog, input, s) == s.(pc := s.pc + 1)
  {
    hide Alu;
  }

  /** A reload writes its fresh register and nothing else. */
  lemma ReloadStep(prog: seq<Asm>, input: Input, s: State, f: nat, low: Word)
    requires s.pc < |prog| && f > 0 && var a := prog[s.pc].assembler;
      a.regDst == R(f) &&
      ((a.cmd.ADDI? && a.regSrc == R(0)) ||
       (a.cmd.ADDIU? && a.regSrc == R(0) && low == 0) || (a.cmd.ADDIU? && a.regSrc == R(f) && Get(s.regs, f) == low))
    ensures var t, a := Step(prog, input, s), prog[s.pc].assembler;
      t.pc == s.pc + 1 && t.trace == s.trace && (forall q: nat :: q != f ==> Get(t.regs, q) == Get(s.regs, q)) &&
      Get(t.regs, f) == if a.cmd.ADDI? then Wrap(Immediate(a)) else Wrap(low + Immediate(a) * 0x1000)
  {
    hide Alu, Result, Immediate, Wrap;
    var a := prog[s.pc].assembler;
    var v := Result(a, s, input);
    assert Writes(a) == {f} && !IsBranch(a.cmd) && !IsIo(a.cmd);
    forall q: nat ensures Get(WriteBack(s.regs, a, v), q) == if q == f then v else Get(s.regs, q) {
      GetAfterWriteBack(s.regs, a, v, q);
    }
    LoadValue(a, s, input, R(f), a.regSrc, low);
  }

  /** The first reload. */
  lemma SlotLowStep(list: seq<Asm>, sp: Split, q: seq<Asm>, input: Input, s: State, t: State)
    requires SafeSplit(list, sp) && SplitInto(list, sp, q) && SplitAlike(list, sp, s, t)
    requires s.pc < |list| && FarUse(list, sp, s.pc + 2)
    ensures SplitAlike(list, sp, Step(list, input, s), Step(q, input, t))
  {
    hide FarUse, LoadGoes, Step, SlotsFree, ReadsSeen, LoadedOnce, FreshAbove, FarUses, SplitInto;
    var use := s.pc + 2;
    SplitCases(list, sp, s.pc);
    SplitAt(list, sp, q, s.pc);
    UseNotInvalid(list, sp, use);
    NothingStep(list, input, s);
    FirstAbove(list, sp);
    if list[sp.start].assembler.cmd.ADDI? {
      ReloadStep(q, input, t, FreshFor(list, sp, use).number, 0);
    } else {
      NothingStep(q, input, t);
    }
  }

  lemma FirstAbove(list: seq<Asm>, sp: Split)
    requires ConstantLoad(list, sp) && FreshAbove(list, sp)
    ensures sp.first > sp.reg.number
  {
    var k := if list[sp.start].assembler.cmd.ADDI? then sp.start else sp.end;
    assert sp.reg.number in Mentions(list[k].assembler);
  }

  /** The slots of a use are not uses themselves. */
  lemma UseNotInvalid(list: seq<Asm>, sp: Split, use: nat)
    requires FarUse(list, sp, use) && SlotsFree(list, sp)
    ensures !FarUse(list, sp, use - 1) && !FarUse(list, sp, use - 2) && !FarUse(list, sp, use + 1) && !FarUse(list, sp, use + 2)
  {
    hide IsRead, IsWritten, CountInstructions;
  }

  /** The second reload. */
  lemma SlotHighStep(list: seq<Asm>, sp: Split, q: seq<Asm>, input: Input, s: State, t: State)
    requires SafeSplit(list, sp) && SplitInto(list, sp, q) && SplitAlike(list, sp, s, t)
    requires s.pc < |list| && FarUse(list, sp, s.pc + 1)
    ensures SplitAlike(list, sp, Step(list, input, s), Step(q, input, t))
  {
    hide FarUse, LoadGoes, Step, SlotsFree, ReadsSeen, LoadedOnce, FreshAbove, FarUses, SplitInto;
    var use := s.pc + 1;
    SplitCases(list, sp, s.pc);
    SplitAt(list, sp, q, s.pc);
    UseNotInvalid(list, sp, use);
    NothingStep(list, input, s);
    FirstAbove(list, sp);
    if sp.end < |list| {
      var f := FreshFor(list, sp, use).number;
      ReloadStep(q, input, t, f, if list[sp.start].assembler.cmd.ADDI? then LowPart(list, sp) else 0);
    } else {
      NothingStep(q, input, t);
    }
  }

  /** Arriving anywhere but from a slot leaves no fresh register to be loaded. */
  lemma NoUseAhead(list: seq<Asm>, sp: Split, s: State)
    requires SlotsFree(list, sp) && s.pc < |list| && !FarUse(list, sp, s.pc + 1) && !FarUse(list, sp, s.pc + 2)
    ensures !FarUse(list, sp, NextPc(list, s)) && !FarUse(list, sp, NextPc(list, s) + 1)
  {
    hide FarUse, NextPc;
    var k := NextPc(list, s);
    if FarUse(list, sp, k) { UseEnteredFromAbove(list, sp, s, k); }
    if FarUse(list, sp, k + 1) { UseEnteredFromAbove(list, sp, s, k + 1); }
  }

  lemma RegIsReal(list: seq<Asm>, sp: Split)
    requires ConstantLoad(list, sp)
    ensures sp.reg.R? && sp.reg.number > 0 && sp.start < |list|
  {
  }

  predicate NamesIn(a: Assembler, reg: Register) { reg in {a.regSrc, a.regDst, a.regAux} }

  /** A slot of an instruction, on both sides. */
  lemma SlotAlike(list: seq<Asm>, sp: Split, s: State, t: State, reg: Register)
    requires sp.start < |list| && sp.reg.R? && FreshAbove(list, sp) && SplitAlike(list, sp, s, t)
    requires s.pc < |list| && NamesIn(list[s.pc].assembler, reg) && (reg == sp.reg ==> !LoadGoes(list, sp))
    requires !IsBarrier(list[s.pc].assembler.cmd)
    ensures Value(s.regs, reg) == Value(t.regs, reg)
  {
    hide LoadGoes, FarUse, HalfLoaded;
    if reg.R? && reg.number > 0 {
      assert reg.number in Mentions(list[s.pc].assembler);
    }
  }

  /** The operands of a use. */
  lemma UseOperands(list: seq<Asm>, sp: Split, s: State, t: State)
    requires SafeSplit(list, sp) && SplitAlike(list, sp, s, t) && Loaded(list, sp, s)
    requires FarUse(list, sp, s.pc) && !BetweenLoads(list, sp, s.pc)
    ensures var e := list[s.pc]; var f := Retargeted(e, sp.reg, FreshFor(list, sp, s.pc));
      SameOperands(e.assembler, s.regs, f.assembler, t.regs) && Writes(f.assembler) == Writes(e.assembler)
  {
    hide LoadGoes, SlotsFree, ReadsSeen, FarUses, ConstantOf, LoadedOnce, CountInstructions, Needed, Get;
    var a, r := list[s.pc].assembler, sp.reg.number;
    var f := FreshFor(list, sp, s.pc);
    assert r in Reads(a);
    NeededWhereRead(list, r, s.pc);
    assert Value(s.regs, sp.reg) == Value(t.regs, f);
    if a.regSrc != sp.reg { SlotAlike(list, sp, s, t, a.regSrc); }
    if a.regAux != sp.reg { SlotAlike(list, sp, s, t, a.regAux); }
    if a.regDst != sp.reg { SlotAlike(list, sp, s, t, a.regDst); }
  }

  /** The same instruction but for renamed reads, on equal operands. */
  lemma AlikeStep(list: seq<Asm>, sp: Split, q: seq<Asm>, input: Input, s: State, t: State)
    requires sp.start < |list| && sp.reg.R? && |q| == |list| && s.pc < |list| && SplitAlike(list, sp, s, t) && FreshAbove(list, sp)
    requires SlotsFree(list, sp) && !FarUse(list, sp, s.pc + 1) && !FarUse(list, sp, s.pc + 2)
    requires Target(list, list[s.pc].assembler.lbl) == Target(q, list[s.pc].assembler.lbl)
    requires SameOperands(list[s.pc].assembler, s.regs, q[s.pc].assembler, t.regs)
    requires Writes(q[s.pc].assembler) == Writes(list[s.pc].assembler)
    ensures SplitAlike(list, sp, Step(list, input, s), Step(q, input, t))
  {
    hide FarUse, LoadGoes, HalfLoaded, SlotsFree, Alu, Reads, Writes, Value, FreshAbove, FarUses;
    var a, b := list[s.pc].assembler, q[s.pc].assembler;
    var v, w := Result(a, s, input), Result(b, t, input);
    SameOperandsSameResult(a, s, b, t, input);
    NoUseAhead(list, sp, s);
    assert Taken(a, s.regs) == Taken(b, t.regs) && Emitted(a, s.regs) == Emitted(b, t.regs);
    assert NextPc(list, s) == NextPc(q, t);
    forall r: nat | r < sp.first && !(LoadGoes(list, sp) && r == sp.reg.number)
      ensures Get(WriteBack(s.regs, a, v), r) == Get(WriteBack(t.regs, b, w), r)
    {
      GetAfterWriteBack(s.regs, a, v, r);
      GetAfterWriteBack(t.regs, b, w, r);
    }
  }

  /** A use. */
  lemma UseStep(list: seq<Asm>, sp: Split, q: seq<Asm>, input: Input, s: State, t: State)
    requires SafeSplit(list, sp) && SplitInto(list, sp, q) && SplitAlike(list, sp, s, t) && Loaded(list, sp, s)
    requires s.pc < |list| && FarUse(list, sp, s.pc)
    ensures SplitAlike(list, sp, Step(list, input, s), Step(q, input, t))
  {
    hide FarUse, LoadGoes, Step, SlotsFree, ReadsSeen, LoadedOnce, FreshAbove, FarUses, SplitInto, Loaded, SplitAlike, SameOperands, Writes;
    SplitAt(list, sp, q, s.pc);
    UseNotInvalid(list, sp, s.pc);
    FarNotBetween(list, sp, s.pc);
    UseOperands(list, sp, s, t);
    SplitTargets(list, sp, q, list[s.pc].assembler.lbl);
    SamePlace(list, sp, s, t);
    AlikeStep(list, sp, q, input, s, t);
  }

  lemma SamePlace(list: seq<Asm>, sp: Split, s: State, t: State)
    requires sp.start < |list| && sp.reg.R? && SplitAlike(list, sp, s, t)
    ensures s.pc == t.pc && s.trace == t.trace
  {
  }

  lemma FarNotBetween(list: seq<Asm>, sp: Split, i: nat)
    requires ConstantLoad(list, sp) && FarUse(list, sp, i)
    ensures !BetweenLoads(list, sp, i)
  {
    FarIsBehind(list, sp, i);
  }

  /** A load that goes. */
  lemma GoneStep(list: seq<Asm>, sp: Split, q: seq<Asm>, input: Input, s: State, t: State)
    requires SafeSplit(list, sp) && SplitInto(list, sp, q) && SplitAlike(list, sp, s, t)
    requires s.pc < |list| && s.pc in {sp.start, sp.end} && LoadGoes(list, sp)
    requires !FarUse(list, sp, s.pc + 2) && !FarUse(list, sp, s.pc + 1) && !FarUse(list, sp, s.pc)
    ensures SplitAlike(list, sp, Step(list, input, s), Step(q, input, t))
  {
    hide FarUse, LoadGoes, SlotsFree, ReadsSeen, LoadedOnce, FreshAbove, FarUses, SplitInto, HalfLoaded, Result, NextPc, Needed;
    var a := list[s.pc].assembler;
    SplitAt(list, sp, q, s.pc);
    NothingStep(q, input, t);
    NoUseAhead(list, sp, s);
    FallsThrough(list, s);
    assert Emitted(a, s.regs) == [] && Writes(a) <= {sp.reg.number};
    hide ConstantLoad, Emitted, WriteBack, Writes;
    forall r: nat | r != sp.reg.number ensures Get(WriteBack(s.regs, a, Result(a, s, input)), r) == Get(s.regs, r) {
      GetAfterWriteBack(s.regs, a, Result(a, s, input), r);
    }
  }

  /** An entry that stays as it is reads the register only if its load stays. */
  lemma KeptOperands(list: seq<Asm>, sp: Split, s: State, t: State)
    requires SafeSplit(list, sp) && SplitAlike(list, sp, s, t) && s.pc < |list| && !FarUse(list, sp, s.pc)
    requires !(LoadGoes(list, sp) && s.pc in {sp.start, sp.end})
    ensures SameOperands(list[s.pc].assembler, s.regs, list[s.pc].assembler, t.regs)
  {
    hide SlotsFree, FarUses, CountInstructions, Needed, Get, HalfLoaded, ConstantLoad;
    RegIsReal(list, sp);
    var a := list[s.pc].assembler;
    if sp.reg.number in Reads(a) {
      BarrierReadsNothing(a);
      WrittenIsLoad(list, sp, s.pc);
      assert s.pc in {sp.start, sp.end} || NearUse(list, sp, s.pc);
      SlotAlike(list, sp, s, t, a.regSrc);
      SlotAlike(list, sp, s, t, a.regAux);
      SlotAlike(list, sp, s, t, a.regDst);
    } else {
      UnreadSlots(list, sp, s, t);
    }
  }

  lemma BarrierReadsNothing(a: Assembler)
    ensures IsBarrier(a.cmd) ==> Reads(a) == {}
  {
  }

  lemma WrittenIsLoad(list: seq<Asm>, sp: Split, k: nat)
    requires LoadedOnce(list, sp) && k < |list| && sp.reg.R? && sp.reg.number > 0
    ensures IsWritten(list[k].assembler, sp.reg) ==> k in {sp.start, sp.end}
  {
    assert IsWritten(list[k].assembler, sp.reg) ==> sp.reg.number in Writes(list[k].assembler);
  }

  lemma UnreadSlots(list: seq<Asm>, sp: Split, s: State, t: State)
    requires sp.start < |list| && sp.reg.R? && sp.reg.number > 0 && FreshAbove(list, sp) && SplitAlike(list, sp, s, t)
    requires s.pc < |list| && sp.reg.number !in Reads(list[s.pc].assembler)
    ensures SameOperands(list[s.pc].assembler, s.regs, list[s.pc].assembler, t.regs)
  {
    hide LoadGoes, FarUse, HalfLoaded, FreshAbove, Value, SplitAlike;
    var a := list[s.pc].assembler;
    if !IsBarrier(a.cmd) {
      if a.regSrc != sp.reg { SlotAlike(list, sp, s, t, a.regSrc); }
      if a.regAux != sp.reg { SlotAlike(list, sp, s, t, a.regAux); }
      if a.regDst != sp.reg { SlotAlike(list, sp, s, t, a.regDst); }
    }
  }

  /** One step of both lists. */
  lemma SplitStep(list: seq<Asm>, sp: Split, q: seq<Asm>, input: Input, s: State, t: State)
    requires SafeSplit(list, sp) && SplitInto(list, sp, q) && SplitAlike(list, sp, s, t) && Loaded(list, sp, s) && s.pc < |list|
    ensures SplitAlike(list, sp, Step(list, input, s), Step(q, input, t))
    ensures Loaded(list, sp, Step(list, input, s))
  {
    hide FarUse, LoadGoes, Step, SlotsFree, ReadsSeen, LoadedOnce, FreshAbove, SplitInto, Loaded, SplitAlike, SameOperands, ConstantLoad, Writes;
    RegIsReal(list, sp);
    StaysLoaded(list, sp, input, s);
    if FarUse(list, sp, s.pc + 2) {
      SlotLowStep(list, sp, q, input, s, t);
    } else if FarUse(list, sp, s.pc + 1) {
      SlotHighStep(list, sp, q, input, s, t);
    } else if FarUse(list, sp, s.pc) {
      UseStep(list, sp, q, input, s, t);
    } else if LoadGoes(list, sp) && s.pc in {sp.start, sp.end} {
      GoneStep(list, sp, q, input, s, t);
    } else {
      SplitAt(list, sp, q, s.pc);
      KeptOperands(list, sp, s, t);
      SplitTargets(list, sp, q, list[s.pc].assembler.lbl);
      SamePlace(list, sp, s, t);
      AlikeStep(list, sp, q, input, s, t);
    }
  }

  lemma {:induction false} SplitRun(list: seq<Asm>, sp: Split, q: seq<Asm>, input: Input, s: State, t: State, n: nat)
    requires SafeSplit(list, sp) && SplitInto(list, sp, q) && SplitAlike(list, sp, s, t) && Loaded(list, sp, s)
    ensures SplitAlike(list, sp, Run(list, input, s, n), Run(q, input, t, n))
    decreases n
  {
    hide FarUse, LoadGoes, SlotsFree, ReadsSeen, LoadedOnce, FreshAbove, Loaded, HalfLoaded, ConstantLoad, NextPc, WriteBack, Emitted, SplitEntry;
    if n > 0 {
      if s.pc < |list| { SplitStep(list, sp, q, input, s, t); }
      SplitRun(list, sp, q, input, Step(list, input, s), Step(q, input, t), n - 1);
    }
  }

  /** Main result on splitting: replacing the far uses by fresh reloads changes no run, also
      when the original load goes. */
  lemma SplitPreserves(list: seq<Asm>, sp: Split, q: seq<Asm>)
    requires SafeSplit(list, sp) && SplitInto(list, sp, q)
    ensures Preserves(list, q) && Preserves(q, list)
  {
    hide FarUse, LoadGoes, SlotsFree, ReadsSeen, LoadedOnce, FreshAbove, Run, SplitEntry;
    forall input: Input, regs: Registers, n: nat ensures Follows(list, q, input, regs, n) && Follows(q, list, input, regs, n) {
      SlotsNotFirst(list, sp);
      SplitRun(list, sp, q, input, Entry(regs), Entry(regs), n);
      assert SameView(list, Run(list, input, Entry(regs), n), q, Run(q, input, Entry(regs), n));
      assert SameView(q, Run(q, input, Entry(regs), n), list, Run(list, input, Entry(regs), n));
    }
  }

  lemma SlotsNotFirst(list: seq<Asm>, sp: Split)
    requires ConstantLoad(list, sp) && SlotsFree(list, sp)
    ensures !FarUse(list, sp, 0) && !FarUse(list, sp, 1)
  {
    hide IsRead, IsWritten, ConstantLoad;
  }
}
