/** What each command reads, writes and does, told by the machine's steps, and the opcode tables
    against it. */
module Operands {
  import opened Instructions
  import opened Machine
  import opened Liveness
  import opened Allocation
  import opened AsmCommands
  import opened JumpsAndLabels

  datatype Slot = Src | Dst | Aux

  function SlotOf(a: Assembler, slot: Slot): Register {
    match slot
    case Src => a.regSrc
    case Dst => a.regDst
    case Aux => a.regAux
  }

  /** The current instruction is a, which names r in that slot and in no other. */
  ghost predicate StandsAlone(prog: seq<Asm>, s: State, cmd: Command, slot: Slot, r: nat) {
    s.pc < |prog| && prog[s.pc].assembler.cmd == cmd && r > 0 && SlotOf(prog[s.pc].assembler, slot) == R(r) &&
    forall other: Slot :: SlotOf(prog[s.pc].assembler, other) == R(r) ==> other == slot
  }

  function With(s: State, r: nat, x: Word): State { s.(regs := s.regs[r := x]) }

  /** Another value in r makes another step: it goes elsewhere, sends something else, or leaves
      something else in a register other than r. */
  ghost predicate StepDiffers(prog: seq<Asm>, input: Input, s: State, r: nat, x: Word) {
    var t, u := Step(prog, input, s), Step(prog, input, With(s, r, x));
    t.pc != u.pc || t.trace != u.trace || exists q: nat :: q != r && Get(t.regs, q) != Get(u.regs, q)
  }

  /** Some step of the command depends on the register in the slot. */
  ghost predicate Matters(cmd: Command, slot: Slot) {
    exists prog: seq<Asm>, input: Input, s: State, r: nat, x: Word ::
      StandsAlone(prog, s, cmd, slot, r) && StepDiffers(prog, input, s, r, x)
  }

  /** Some step of the command changes the register in the slot. */
  ghost predicate Changes(cmd: Command, slot: Slot) {
    exists prog: seq<Asm>, input: Input, s: State, r: nat ::
      StandsAlone(prog, s, cmd, slot, r) && Get(Step(prog, input, s).regs, r) != Get(s.regs, r)
  }

  // ----- What is not read does not matter -----

  lemma GetWith(s: State, r: nat, x: Word, q: nat)
    ensures Get(With(s, r, x).regs, q) == if q == r && r > 0 then x else Get(s.regs, q)
  {
  }

  /** The slots a step depends on, command by command. */
  predicate Carried(cmd: Command, slot: Slot) {
    match slot
    case Src => SendsSrc(cmd) || cmd.BRZ? || cmd.BRNZ? || cmd.BRGZ? || (CombinesRegisters(cmd) && !IsShift(cmd)) ||
                (LeavesResult(cmd) && !CombinesRegisters(cmd) && !cmd.LD?)
    case Aux => SendsBoth(cmd) || (CombinesRegisters(cmd) && !IsShift(cmd))
    case Dst => IsShift(cmd)
  }

  lemma ValueWith(s: State, r: nat, x: Word, reg: Register)
    requires reg != R(r)
    ensures Value(With(s, r, x).regs, reg) == Value(s.regs, reg)
  {
  }

  /** Equal values in the slots carried make equal results, commands and branch decisions. */
  lemma SameCarried(a: Assembler, s: State, t: State, input: Input)
    requires s.trace == t.trace
    requires forall slot: Slot :: Carried(a.cmd, slot) ==> Value(s.regs, SlotOf(a, slot)) == Value(t.regs, SlotOf(a, slot))
    ensures Emitted(a, s.regs) == Emitted(a, t.regs) && Taken(a, s.regs) == Taken(a, t.regs)
    ensures LeavesResult(a.cmd) ==> Result(a, s, input) == Result(a, t, input)
  {
    hide Value, BitAnd, BitOr, BitXor, BitNot, Wrap;
    assert Carried(a.cmd, Src) ==> Value(s.regs, a.regSrc) == Value(t.regs, a.regSrc) by { assert SlotOf(a, Src) == a.regSrc; }
    assert Carried(a.cmd, Aux) ==> Value(s.regs, a.regAux) == Value(t.regs, a.regAux) by { assert SlotOf(a, Aux) == a.regAux; }
    assert Carried(a.cmd, Dst) ==> Value(s.regs, a.regDst) == Value(t.regs, a.regDst) by { assert SlotOf(a, Dst) == a.regDst; }
  }

  /** A register in none of the slots carried makes no difference. */
  lemma UncarriedDoesNotMatter(prog: seq<Asm>, input: Input, s: State, r: nat, x: Word)
    requires s.pc < |prog| && var a := prog[s.pc].assembler; forall slot: Slot :: Carried(a.cmd, slot) ==> SlotOf(a, slot) != R(r)
    ensures !StepDiffers(prog, input, s, r, x)
  {
    hide Alu, Value, Carried, Emitted, Taken, Result, LeavesResult, CombinesRegisters;
    var a, t := prog[s.pc].assembler, With(s, r, x);
    forall other: Slot | Carried(a.cmd, other) ensures Value(s.regs, SlotOf(a, other)) == Value(t.regs, SlotOf(a, other)) {
      ValueWith(s, r, x, SlotOf(a, other));
    }
    SameCarried(a, s, t, input);
    NextGoes(prog, s, t);
    forall q: nat | q != r ensures Get(Step(prog, input, s).regs, q) == Get(Step(prog, input, t).regs, q) {
      GetAfterWriteBack(s.regs, a, Result(a, s, input), q);
      GetAfterWriteBack(t.regs, a, Result(a, t, input), q);
      GetWith(s, r, x, q);
      WritesLeave(a);
    }
  }

  lemma NextGoes(prog: seq<Asm>, s: State, t: State)
    requires s.pc == t.pc < |prog| && Taken(prog[s.pc].assembler, s.regs) == Taken(prog[s.pc].assembler, t.regs)
    ensures NextPc(prog, s) == NextPc(prog, t)
  {
  }

  lemma WritesLeave(a: Assembler)
    ensures Writes(a) != {} ==> LeavesResult(a.cmd)
  {
  }

  // ----- What is read does matter -----

  function Instr(cmd: Command, src: Register, dst: Register, aux: Register, imm: int): Asm {
    Asm(Assembler(cmd, [], src, dst, aux, [imm], NoLabel), false)
  }

  function NoInput(): Input { (address, sent) => 0 }

  /** Immediate and operand values on which the command's result depends on its source. */
  function SrcImmediate(cmd: Command): int { if cmd.ANDI? || cmd.ANDIU? then 1 else 0 }
  function SrcWord(cmd: Command): Word { if cmd.ANDIU? then 0x1000 else 1 }

  lemma WordsOfTwo(op: Bitwise, w: Word)
    ensures Words(op, w, w) == (if op.Xor? then 0 else w) && Words(op, 0, w) == (if op.And? then 0 else w)
    ensures Words(op, w, 0) == if op.And? then 0 else w
  {
    WordConstants(op, w);
    SwapWords(op, w, 0);
  }

  lemma BitsOfTwo(w: Word)
    ensures BitAnd(w, w) == w && BitAnd(0, w) == 0 && BitAnd(w, 0) == 0 && BitAnd(0, 0) == 0
    ensures BitOr(w, 0) == w && BitOr(0, w) == w && BitOr(0, 0) == 0
    ensures BitXor(w, 0) == w && BitXor(0, w) == w && BitXor(0, 0) == 0
  {
    WordsOfTwo(And, w);
    WordsOfTwo(Or, w);
    WordsOfTwo(Xor, w);
    WordsOfTwo(And, 0);
    WordsOfTwo(Or, 0);
    WordsOfTwo(Xor, 0);
  }

  lemma SmallWraps()
    ensures Wrap(0) == 0 && Wrap(1) == 1 && Wrap(0x1000) == 0x1000 && Wrap(2) == 2
    ensures Wrap(-1) == 0xFFFF_FFFF
  {
  }

  lemma NotOf()
    ensures BitNot(0) != BitNot(1)
  {
  }

  /** An immediate operation tells 0 from another source. */
  lemma ImmediateDiffers(cmd: Command)
    requires LeavesResult(cmd) && !CombinesRegisters(cmd) && !cmd.LD?
    ensures Alu(cmd, SrcImmediate(cmd), 0, 0, 0, 0) != Alu(cmd, SrcImmediate(cmd), SrcWord(cmd), 0, 0, 0)
  {
    hide BitAnd, BitOr, BitXor, BitNot, Wrap, Words, Bits;
    SmallWraps();
    BitsOfTwo(1);
    BitsOfTwo(0x1000);
    NotOf();
    match cmd
    case ADDI =>
    case ADDIU =>
    case ANDI =>
    case ANDIU =>
    case ORI =>
    case ORIU =>
    case XNORI =>
    case XNORIU =>
  }

  /** A register operation tells 0 from 1 in either operand, the other being 1 for `and`, else 0. */
  lemma CombiningDiffers(cmd: Command)
    requires CombinesRegisters(cmd) && !IsShift(cmd)
    ensures var w: Word := if cmd.ANDR? then 1 else 0;
      Alu(cmd, 0, 0, w, 0, 0) != Alu(cmd, 0, 1, w, 0, 0) && Alu(cmd, 0, w, 0, 0, 0) != Alu(cmd, 0, w, 1, 0, 0)
  {
    hide BitAnd, BitOr, BitXor, BitNot, Wrap, Words, Bits;
    SmallWraps();
    BitsOfTwo(1);
    NotOf();
    match cmd
    case ADDR =>
    case SUBR =>
    case ANDR =>
    case ORR =>
    case XNORR =>
    case XORR =>
  }

  function Alone(cmd: Command, src: Register, dst: Register, aux: Register, imm: int): seq<Asm> {
    [Instr(cmd, src, dst, aux, imm), Instr(NOP, Unset, Unset, Unset, 0)]
  }

  lemma SentMatters(cmd: Command, slot: Slot)
    requires (slot.Src? && SendsSrc(cmd)) || (slot.Aux? && SendsBoth(cmd))
    ensures Matters(cmd, slot)
  {
    hide Alu;
    var prog := if slot.Src? then Alone(cmd, R(1), Unset, Unset, 0) else Alone(cmd, Unset, Unset, R(1), 0);
    var s := State(0, map[], []);
    assert StandsAlone(prog, s, cmd, slot, 1);
    var sent, other := Emitted(prog[0].assembler, s.regs), Emitted(prog[0].assembler, With(s, 1, 1).regs);
    assert sent != other && [] + sent == sent && [] + other == other;
    assert StepDiffers(prog, NoInput(), s, 1, 1);
  }

  lemma BranchMatters(cmd: Command)
    requires cmd.BRZ? || cmd.BRNZ? || cmd.BRGZ?
    ensures Matters(cmd, Src)
  {
    hide Alu;
    var prog := Alone(cmd, R(1), Unset, Unset, 0);
    var s := State(0, map[], []);
    assert Target(prog, NoLabel) == 2;
    assert StandsAlone(prog, s, cmd, Src, 1);
    assert NextPc(prog, s) != NextPc(prog, With(s, 1, 1));
    assert StepDiffers(prog, NoInput(), s, 1, 1);
  }

  /** What a step of an instruction that leaves a result does. */
  lemma ResultStep(prog: seq<Asm>, input: Input, s: State, q: nat)
    requires s.pc < |prog| && LeavesResult(prog[s.pc].assembler.cmd) && q > 0
    requires prog[s.pc].assembler.regDst == R(q) || (CombinesRegisters(prog[s.pc].assembler.cmd) && prog[s.pc].assembler.regAux == R(q))
    ensures Get(Step(prog, input, s).regs, q) == Result(prog[s.pc].assembler, s, input)
  {
    hide Result;
    GetAfterWriteBack(s.regs, prog[s.pc].assembler, Result(prog[s.pc].assembler, s, input), q);
  }

  lemma ImmediateMatters(cmd: Command)
    requires LeavesResult(cmd) && !CombinesRegisters(cmd) && !cmd.LD?
    ensures Matters(cmd, Src)
  {
    hide Step, BitAnd, BitOr, BitXor, BitNot, Wrap;
    var prog := Alone(cmd, R(1), R(2), Unset, SrcImmediate(cmd));
    var s, x := State(0, map[], []), SrcWord(cmd);
    assert StandsAlone(prog, s, cmd, Src, 1);
    ImmediateDiffers(cmd);
    ResultStep(prog, NoInput(), s, 2);
    ResultStep(prog, NoInput(), With(s, 1, x), 2);
    GetWith(s, 1, x, 1);
    NothingHeld(1);
    hide Alu;
    assert StepDiffers(prog, NoInput(), s, 1, x);
  }

  lemma NothingHeld(r: nat)
    ensures Get(map[], r) == 0
  {
  }

  lemma CombiningMatters(cmd: Command, slot: Slot)
    requires CombinesRegisters(cmd) && !IsShift(cmd) && !slot.Dst?
    ensures Matters(cmd, slot)
  {
    hide *;
    var w: Word := if cmd.ANDR? then 1 else 0;
    var src, aux := if slot.Src? then R(1) else R(2), if slot.Src? then R(2) else R(1);
    var prog, regs: Registers := Alone(cmd, src, R(3), aux, 0), map[2 := w];
    var s := State(0, regs, []);
    AloneShape(cmd, slot, src, R(3), aux, 0, s);
    CombiningDiffers(cmd);
    CombiningLeaves(cmd);
    StaysAt(s, 1, 1);
    GetWith(s, 1, 1, 1);
    GetWith(s, 1, 1, 2);
    HeldThere(w);
    CombinedStep(prog, s);
    CombinedStep(prog, With(s, 1, 1));
    DiffersAt(prog, s, cmd, slot, 1, 1, 3);
  }

  lemma AloneShape(cmd: Command, slot: Slot, src: Register, dst: Register, aux: Register, imm: int, s: State)
    requires s.pc == 0 && src != dst && aux != dst && src != aux && R(1) in {src, aux, dst}
    requires (slot.Src? ==> src == R(1)) && (slot.Aux? ==> aux == R(1)) && (slot.Dst? ==> dst == R(1))
    ensures var prog := Alone(cmd, src, dst, aux, imm); var a := prog[0].assembler;
      StandsAlone(prog, s, cmd, slot, 1) && |prog| == 2 && prog[0].assembler == a && a.cmd == cmd && a.regSrc == src && a.regDst == dst &&
      a.regAux == aux && a.outputs == [imm]
  {
  }

  lemma StaysAt(s: State, r: nat, x: Word)
    ensures With(s, r, x).pc == s.pc && With(s, r, x).trace == s.trace
  {
  }

  lemma DiffersAt(prog: seq<Asm>, s: State, cmd: Command, slot: Slot, r: nat, x: Word, q: nat)
    requires StandsAlone(prog, s, cmd, slot, r)
    requires q != r && Get(Step(prog, NoInput(), s).regs, q) != Get(Step(prog, NoInput(), With(s, r, x)).regs, q)
    ensures Matters(cmd, slot)
  {
    hide Step, Get, StandsAlone;
    assert StepDiffers(prog, NoInput(), s, r, x);
  }

  lemma CombiningLeaves(cmd: Command)
    ensures CombinesRegisters(cmd) ==> LeavesResult(cmd)
  {
  }

  /** The step of a register operation that stands first and leaves its result in register 3. */
  lemma CombinedStep(prog: seq<Asm>, s: State)
    requires s.pc < |prog|
    requires var a := prog[s.pc].assembler;
      LeavesResult(a.cmd) && !IsShift(a.cmd) && a.regDst == R(3) && a.outputs == [0] &&
      a.regSrc.R? && a.regAux.R?
    ensures var a := prog[s.pc].assembler;
      Get(Step(prog, NoInput(), s).regs, 3) == Alu(a.cmd, 0, Get(s.regs, a.regSrc.number), Get(s.regs, a.regAux.number), 0, 0)
  {
    hide Step, Alu, LeavesResult, IsShift, Get;
    ResultStep(prog, NoInput(), s, 3);
  }

  lemma HeldThere(w: Word)
    ensures var regs: Registers := map[2 := w]; Get(regs, 1) == 0 && Get(regs, 2) == w
  {
  }

  lemma ShiftMatters(cmd: Command)
    requires IsShift(cmd)
    ensures Matters(cmd, Dst)
  {
    hide Step;
    var prog := Alone(cmd, Unset, R(1), R(2), 0);
    var s := State(0, map[], []);
    assert StandsAlone(prog, s, cmd, Dst, 1);
    ResultStep(prog, NoInput(), s, 2);
    ResultStep(prog, NoInput(), With(s, 1, 2), 2);
    GetWith(s, 1, 2, 1);
    NothingHeld(1);
    assert StepDiffers(prog, NoInput(), s, 1, 2);
  }

  /** A step depends on exactly the slots carried. */
  lemma MattersIff(cmd: Command, slot: Slot)
    ensures Matters(cmd, slot) <==> Carried(cmd, slot)
  {
    hide Matters, StandsAlone, StepDiffers;
    if Carried(cmd, slot) {
      match slot
      case Dst => ShiftMatters(cmd);
      case Aux => if SendsBoth(cmd) { SentMatters(cmd, Aux); } else { CombiningMatters(cmd, Aux); }
      case Src =>
        if SendsSrc(cmd) { SentMatters(cmd, Src); }
        else if cmd.BRZ? || cmd.BRNZ? || cmd.BRGZ? { BranchMatters(cmd); }
        else if CombinesRegisters(cmd) { CombiningMatters(cmd, Src); }
        else { ImmediateMatters(cmd); }
    } else {
      UncarriedNever(cmd, slot);
    }
  }

  lemma UncarriedNever(cmd: Command, slot: Slot)
    requires !Carried(cmd, slot)
    ensures !Matters(cmd, slot)
  {
    hide StepDiffers, Carried;
    forall prog: seq<Asm>, input: Input, s: State, r: nat, x: Word | StandsAlone(prog, s, cmd, slot, r)
      ensures !StepDiffers(prog, input, s, r, x)
    {
      UncarriedDoesNotMatter(prog, input, s, r, x);
    }
  }

  lemma ChangesDst(cmd: Command)
    requires LeavesResult(cmd)
    ensures Changes(cmd, Dst)
  {
    hide Step, Alu;
    var prog := Alone(cmd, Unset, R(1), Unset, 0);
    var none, one, two := State(0, map[], []), State(0, map[1 := 1], []), State(0, map[1 := 3], []);
    assert StandsAlone(prog, none, cmd, Dst, 1) && StandsAlone(prog, one, cmd, Dst, 1) && StandsAlone(prog, two, cmd, Dst, 1);
    ResultStep(prog, NoInput(), none, 1);
    ResultStep(prog, NoInput(), one, 1);
    ResultStep(prog, NoInput(), two, 1);
    Held(1);
    Held(3);
    NothingHeld(1);
    ResultOfShift(prog[0].assembler, one);
    if !IsShift(cmd) { assert Result(prog[0].assembler, none, NoInput()) == Result(prog[0].assembler, one, NoInput()); }
  }

  lemma Held(w: Word)
    ensures var regs: Registers := map[1 := w]; Get(regs, 1) == w
  {
  }

  /** A shift changes a register that holds 1. */
  lemma ResultOfShift(a: Assembler, s: State)
    requires a.regDst == R(1) && Get(s.regs, 1) == 1
    ensures IsShift(a.cmd) ==> Result(a, s, NoInput()) != 1
  {
    hide Get;
  }

  /** A register operation changes its second operand, from 1 for `and`, else from 0. */
  lemma CombiningChanges(cmd: Command)
    requires CombinesRegisters(cmd)
    ensures var aux: Word, src: Word := if cmd.ANDR? then 1 else 0, if cmd.ANDR? then 0 else 1;
      Alu(cmd, 0, src, aux, if IsShift(cmd) then 2 else 0, 0) != aux
  {
    hide Alu, BitAnd, BitOr, BitXor, BitNot, Wrap;
    SmallWraps();
    BitsOfTwo(1);
    FourFits();
    if IsShift(cmd) {
      ShiftResults(0);
    } else {
      CombinedResults(0, 1);
      CombinedResults(1, 0);
      CombiningListed(cmd);
      hide CombinesRegisters, IsShift;
    }
  }

  lemma CombiningListed(cmd: Command)
    ensures CombinesRegisters(cmd) && !IsShift(cmd) <==> cmd in {ADDR, SUBR, ANDR, ORR, XNORR, XORR}
  {
  }

  lemma CombinedResults(src: Word, aux: Word)
    ensures Alu(ADDR, 0, src, aux, 0, 0) == Wrap(aux + src) && Alu(SUBR, 0, src, aux, 0, 0) == Wrap(aux - src)
    ensures Alu(ANDR, 0, src, aux, 0, 0) == BitAnd(aux, src) && Alu(ORR, 0, src, aux, 0, 0) == BitOr(aux, src)
    ensures Alu(XNORR, 0, src, aux, 0, 0) == BitNot(BitXor(aux, src)) && Alu(XORR, 0, src, aux, 0, 0) == BitXor(aux, src)
  {
    hide BitAnd, BitOr, BitXor, BitNot, Wrap;
  }

  lemma ShiftResults(aux: Word)
    ensures Alu(SSL, 0, 1, aux, 2, 0) == 4 && Alu(SSR, 0, 1, aux, 2, 0) == 1
  {
  }

  lemma FourFits()
    ensures BitNot(1) != 0
  {
  }

  lemma ChangesAux(cmd: Command)
    requires CombinesRegisters(cmd)
    ensures Changes(cmd, Aux)
  {
    hide Step;
    var aux: Word, src: Word := if cmd.ANDR? then 1 else 0, if cmd.ANDR? then 0 else 1;
    var prog := Alone(cmd, R(2), R(3), R(1), 0);
    var regs: Registers := map[1 := aux, 2 := src, 3 := 2];
    var s := State(0, regs, []);
    assert StandsAlone(prog, s, cmd, Aux, 1);
    CombiningChanges(cmd);
    ResultStep(prog, NoInput(), s, 1);
    ThreeHeld(aux, src);
    hide Alu;
    assert Get(Step(prog, NoInput(), s).regs, 1) != Get(s.regs, 1);
  }

  lemma ThreeHeld(aux: Word, src: Word)
    ensures var regs: Registers := map[1 := aux, 2 := src, 3 := 2]; Get(regs, 1) == aux && Get(regs, 2) == src && Get(regs, 3) == 2
  {
  }

  lemma OnlyWritesChange(prog: seq<Asm>, input: Input, s: State, r: nat)
    requires s.pc < |prog| && r !in Writes(prog[s.pc].assembler)
    ensures Get(Step(prog, input, s).regs, r) == Get(s.regs, r)
  {
    hide Result, Writes;
    GetAfterWriteBack(s.regs, prog[s.pc].assembler, Result(prog[s.pc].assembler, s, input), r);
  }

  // ----- The tables -----

  /** The pass's classification sees every register a step depends on, but for the test of BRGZ and
      the register a shift shifts. */
  lemma ReadIsSeen(prog: seq<Asm>, input: Input, s: State, r: nat, x: Word)
    requires s.pc < |prog| && StepDiffers(prog, input, s, r, x)
    ensures var a := prog[s.pc].assembler;
      IsRead(a, R(r)) || (a.cmd.BRGZ? && a.regSrc == R(r)) || (IsShift(a.cmd) && a.regDst == R(r))
  {
    hide StepDiffers;
    var a := prog[s.pc].assembler;
    if forall slot: Slot :: Carried(a.cmd, slot) ==> SlotOf(a, slot) != R(r) {
      UncarriedDoesNotMatter(prog, input, s, r, x);
    }
  }

  /** And every register a step changes. */
  lemma WriteIsSeen(prog: seq<Asm>, input: Input, s: State, r: nat)
    requires s.pc < |prog| && Get(Step(prog, input, s).regs, r) != Get(s.regs, r)
    ensures IsWritten(prog[s.pc].assembler, R(r))
  {
    hide Step;
    if r !in Writes(prog[s.pc].assembler) { OnlyWritesChange(prog, input, s, r); }
  }

  /** Command by command the tables say exactly what matters and what changes: type bit 0 the
      source, except that it misses the test of BRGZ and counts the one of WVFEI and of shifts;
      types 1 and 7 the second register, counting it also for commands that carry one only; bit 1
      the destination, and type 7 the second register. */
  lemma TypesExact(cmd: Command)
    ensures Matters(cmd, Src) <==> (ReadsSrc(cmd) && !cmd.WVFEI? && !IsShift(cmd)) || cmd.BRGZ?
    ensures Matters(cmd, Aux) <==> ReadsAux(cmd) && !IsShift(cmd) && cmd !in {WVFS_H, BRZ, BRNZ, ST, CWVFR, WVFE, WVFEI, WVFET}
    ensures Matters(cmd, Dst) <==> IsShift(cmd)
    ensures Changes(cmd, Dst) <==> WritesDst(cmd)
    ensures Changes(cmd, Aux) <==> WritesAux(cmd)
    ensures !Changes(cmd, Src)
  {
    TypeOfSrc(cmd);
    TypeOfAux(cmd);
    TypeOfWrites(cmd);
    hide *;
    assert Carried(cmd, Dst) <==> IsShift(cmd) by { CarriedDst(cmd); }
    MattersIff(cmd, Src);
    MattersIff(cmd, Aux);
    MattersIff(cmd, Dst);
    ChangesIff(cmd, Src);
    ChangesIff(cmd, Dst);
    ChangesIff(cmd, Aux);
  }

  lemma TypeLists(cmd: Command)
    ensures GetCmdType(cmd) == 1 <==> SendsSrc(cmd) || cmd.BRZ? || cmd.BRNZ? || cmd.WVFEI?
    ensures GetCmdType(cmd) == 2 <==> cmd.LD?
    ensures GetCmdType(cmd) == 3 <==> LeavesResult(cmd) && !CombinesRegisters(cmd) && !cmd.LD?
    ensures GetCmdType(cmd) == 7 <==> CombinesRegisters(cmd)
    ensures IsShift(cmd) ==> CombinesRegisters(cmd)
    ensures CombinesRegisters(cmd) || cmd.LD? ==> LeavesResult(cmd)
  {
  }

  lemma TypeOfSrc(cmd: Command)
    ensures Carried(cmd, Src) <==> (ReadsSrc(cmd) && !cmd.WVFEI? && !IsShift(cmd)) || cmd.BRGZ?
  {
    TypeLists(cmd);
    hide GetCmdType, LeavesResult, CombinesRegisters, IsShift;
  }

  lemma TypeOfAux(cmd: Command)
    ensures Carried(cmd, Aux) <==> ReadsAux(cmd) && !IsShift(cmd) && cmd !in {WVFS_H, BRZ, BRNZ, ST, CWVFR, WVFE, WVFEI, WVFET}
  {
  }

  lemma CarriedDst(cmd: Command)
    ensures Carried(cmd, Dst) <==> IsShift(cmd)
  {
  }

  lemma TypeOfWrites(cmd: Command)
    ensures LeavesResult(cmd) <==> WritesDst(cmd)
    ensures CombinesRegisters(cmd) <==> WritesAux(cmd)
  {
  }

  lemma ChangesIff(cmd: Command, slot: Slot)
    ensures Changes(cmd, slot) <==> (slot.Dst? && LeavesResult(cmd)) || (slot.Aux? && CombinesRegisters(cmd))
  {
    if slot.Dst? && LeavesResult(cmd) { ChangesDst(cmd); }
    if slot.Aux? && CombinesRegisters(cmd) { ChangesAux(cmd); }
    hide Step;
    if !((slot.Dst? && LeavesResult(cmd)) || (slot.Aux? && CombinesRegisters(cmd))) {
      forall prog: seq<Asm>, input: Input, s: State, r: nat | StandsAlone(prog, s, cmd, slot, r)
        ensures Get(Step(prog, input, s).regs, r) == Get(s.regs, r)
      {
        NotWrittenThere(prog[s.pc].assembler, slot, r);
        OnlyWritesChange(prog, input, s, r);
      }
    }
  }

  lemma NotWrittenThere(a: Assembler, slot: Slot, r: nat)
    requires r > 0 && SlotOf(a, slot) == R(r) && forall other: Slot :: SlotOf(a, other) == R(r) ==> other == slot
    requires !((slot.Dst? && LeavesResult(a.cmd)) || (slot.Aux? && CombinesRegisters(a.cmd)))
    ensures r !in Writes(a)
  {
    assert slot != Dst ==> SlotOf(a, Dst) != R(r);
    assert slot != Aux ==> SlotOf(a, Aux) != R(r);
  }

  /** The text of a command names exactly the registers its step depends on or changes: the source
      for orders 1, 3 and 4, the second register for order 3, the destination for orders 2 and 4.
      Shifts, which work on their first slot, are the exception. */
  lemma OrdersExact(cmd: Command)
    requires !IsShift(cmd)
    ensures GetRegisterOrder(cmd) in {1, 3, 4} <==> Matters(cmd, Src)
    ensures GetRegisterOrder(cmd) == 3 <==> Matters(cmd, Aux)
    ensures GetRegisterOrder(cmd) in {2, 4} <==> Changes(cmd, Dst) && !Changes(cmd, Aux)
  {
    OrderOf(cmd);
    hide *;
    MattersIff(cmd, Src);
    MattersIff(cmd, Aux);
    ChangesIff(cmd, Dst);
    ChangesIff(cmd, Aux);
  }

  lemma OrderOf(cmd: Command)
    requires !IsShift(cmd)
    ensures GetRegisterOrder(cmd) in {1, 3, 4} <==> Carried(cmd, Src)
    ensures GetRegisterOrder(cmd) == 3 <==> Carried(cmd, Aux)
    ensures GetRegisterOrder(cmd) in {2, 4} <==> LeavesResult(cmd) && !CombinesRegisters(cmd)
  {
    OrderLists(cmd);
    hide GetRegisterOrder, GetCmdType;
    TypeLists(cmd);
    hide LeavesResult, CombinesRegisters, IsShift;
  }

  lemma OrderLists(cmd: Command)
    ensures GetRegisterOrder(cmd) == 1 <==> (SendsSrc(cmd) && !SendsBoth(cmd)) || cmd.BRZ? || cmd.BRNZ? || cmd.BRGZ?
    ensures GetRegisterOrder(cmd) == 2 <==> cmd.LD?
    ensures GetRegisterOrder(cmd) == 3 <==> SendsBoth(cmd) || CombinesRegisters(cmd)
    ensures GetRegisterOrder(cmd) == 4 <==> LeavesResult(cmd) && !CombinesRegisters(cmd) && !cmd.LD?
    ensures SendsBoth(cmd) ==> SendsSrc(cmd)
  {
  }

  // ----- Commands that do nothing -----

  /** Every step of the command only goes on. */
  ghost predicate DoesNothing(cmd: Command) {
    forall prog: seq<Asm>, input: Input, s: State :: s.pc < |prog| && prog[s.pc].assembler.cmd == cmd ==>
      Step(prog, input, s) == s.(pc := s.pc + 1)
  }

  /** Some step of the command is seen from outside. */
  ghost predicate IsSeen(cmd: Command) {
    exists prog: seq<Asm>, input: Input, s: State :: s.pc < |prog| && prog[s.pc].assembler.cmd == cmd &&
      Step(prog, input, s).trace != s.trace
  }

  lemma SeenIff(cmd: Command)
    ensures IsSeen(cmd) <==> IsIo(cmd)
  {
    hide Alu, WriteBack, Result;
    if IsIo(cmd) {
      var prog, s := Alone(cmd, Unset, Unset, Unset, 0), State(0, map[], []);
      assert |Step(prog, NoInput(), s).trace| == 1;
    }
  }

  lemma NothingIff(cmd: Command)
    ensures DoesNothing(cmd) <==> !IsIo(cmd) && !LeavesResult(cmd) && !IsBranch(cmd) && !cmd.END?
  {
    hide Alu;
    if !IsIo(cmd) && !LeavesResult(cmd) && !IsBranch(cmd) && !cmd.END? {
      forall prog: seq<Asm>, input: Input, s: State | s.pc < |prog| && prog[s.pc].assembler.cmd == cmd
        ensures Step(prog, input, s) == s.(pc := s.pc + 1)
      {
        assert Emitted(prog[s.pc].assembler, s.regs) == [] && s.trace + [] == s.trace;
      }
    } else {
      SomethingDone(cmd);
    }
  }

  /** A step that does something. */
  lemma SomethingDone(cmd: Command)
    requires IsIo(cmd) || LeavesResult(cmd) || IsBranch(cmd) || cmd.END?
    ensures !DoesNothing(cmd)
  {
    hide Step, Alu, IsIo, LeavesResult, Alone;
    if IsIo(cmd) {
      SeenIff(cmd);
      var prog: seq<Asm>, input: Input, s: State :|
        s.pc < |prog| && prog[s.pc].assembler.cmd == cmd && Step(prog, input, s).trace != s.trace;
      assert Step(prog, input, s) != s.(pc := s.pc + 1);
    } else if LeavesResult(cmd) {
      ChangesDst(cmd);
      var prog: seq<Asm>, input: Input, s: State, r: nat :|
        StandsAlone(prog, s, cmd, Dst, r) && Get(Step(prog, input, s).regs, r) != Get(s.regs, r);
      assert Step(prog, input, s) != s.(pc := s.pc + 1);
    } else {
      BranchTaken(cmd);
    }
  }

  lemma BranchTaken(cmd: Command)
    requires IsBranch(cmd) || cmd.END?
    ensures !DoesNothing(cmd)
  {
    hide Alu;
    var prog := Alone(cmd, R(1), Unset, Unset, 0);
    assert Target(prog, NoLabel) == 2;
    var s := State(0, if cmd.BRZ? then map[] else map[1 := 1], []);
    Held(1);
    NothingHeld(1);
    assert NextPc(prog, s) == 2;
    assert Step(prog, NoInput(), s).pc == 2;
  }

  /** The tables of classes and cycles, against what the machine does: a command takes cycles
      unless it is a pseudo-instruction that does nothing or the end; three of them when it may go
      two ways. The scans step over three of the commands that do nothing, the jump pass over
      three others. */
  lemma ClassesExact(cmd: Command)
    ensures IsSeen(cmd) <==> GetCycles(cmd) == 1 && !cmd.NOP? && !cmd.JMP? && !WritesDst(cmd)
    ensures DoesNothing(cmd) <==> (GetCycles(cmd) == 0 && !cmd.END?) || cmd.NOP?
    ensures GetCycles(cmd) == 3 <==> Matters(cmd, Src) && !IsSeen(cmd) && !Changes(cmd, Dst)
    ensures IsBarrier(cmd) <==> DoesNothing(cmd) && cmd !in {NOP, MESSAGE, ERROR_MSG}
    ensures IsSilent(cmd) <==> DoesNothing(cmd) && cmd !in {COMMENT_NOP, MESSAGE, ERROR_MSG}
  {
    CyclesOfClasses(cmd);
    hide *;
    SeenIff(cmd);
    NothingIff(cmd);
    MattersIff(cmd, Src);
    ChangesIff(cmd, Dst);
  }

  lemma CyclesOfClasses(cmd: Command)
    ensures IsIo(cmd) <==> GetCycles(cmd) == 1 && !cmd.NOP? && !cmd.JMP? && !WritesDst(cmd)
    ensures !IsIo(cmd) && !LeavesResult(cmd) && !IsBranch(cmd) && !cmd.END? <==> (GetCycles(cmd) == 0 && !cmd.END?) || cmd.NOP?
    ensures GetCycles(cmd) == 3 <==> Carried(cmd, Src) && !IsIo(cmd) && !LeavesResult(cmd)
    ensures IsBarrier(cmd) <==> GetCycles(cmd) == 0 && cmd !in {END, MESSAGE, ERROR_MSG}
    ensures IsSilent(cmd) <==> (GetCycles(cmd) == 0 && cmd !in {END, COMMENT_NOP, MESSAGE, ERROR_MSG}) || cmd.NOP?
    ensures cmd.NOP? ==> GetCycles(cmd) == 1
  {
    CycleLists(cmd);
    TypeOfWrites(cmd);
    hide GetCycles, GetCmdType, GetRegisterOrder;
    IoLists(cmd);
    hide IsIo, LeavesResult, WritesDst;
  }

  lemma CycleLists(cmd: Command)
    ensures GetCycles(cmd) == 3 <==> cmd.BRZ? || cmd.BRNZ? || cmd.BRGZ?
    ensures GetCycles(cmd) == 0 <==> cmd.END? || cmd.LABEL? || cmd.MESSAGE? || cmd.COMMENT_NOP? || cmd.ERROR_MSG? || cmd.INVALID?
    ensures GetCycles(cmd) in {0, 1, 3}
  {
  }

  lemma IoLists(cmd: Command)
    ensures IsIo(cmd) || LeavesResult(cmd) || IsBranch(cmd) || cmd.END? || cmd.NOP? || cmd.LABEL? || cmd.MESSAGE? ||
            cmd.COMMENT_NOP? || cmd.ERROR_MSG? || cmd.INVALID?
    ensures IsIo(cmd) ==> !LeavesResult(cmd)
    ensures IsIo(cmd) || LeavesResult(cmd) ==> !IsBranch(cmd) && !cmd.END? && !cmd.NOP? && !cmd.LABEL?
    ensures IsIo(cmd) || LeavesResult(cmd) ==> !cmd.MESSAGE? && !cmd.COMMENT_NOP? && !cmd.ERROR_MSG? && !cmd.INVALID?
    ensures SendsSrc(cmd) ==> IsIo(cmd)
    ensures CombinesRegisters(cmd) ==> LeavesResult(cmd)
  {
  }
}
