/** Instruction builders: single instructions, and immediates too wide for one of them. */
module AsmCommands {
  import opened Instructions
  import opened Machine

  datatype Option<T> = None | Some(value: T)

  // ----- Single instructions -----

  function Instruction(cmd: Command, dst: Register, src: Register, aux: Register, outputs: seq<int>): Asm {
    Asm(Assembler(cmd, [], src, dst, aux, outputs, NoLabel), false)
  }

  function AluImmediate(cmd: Command, dst: Register, src: Register, imm: int): Asm {
    Instruction(cmd, dst, src, Unset, [imm])
  }

  /** `alur`: the destination is the slot that is both read and written. */
  function AluRegister(cmd: Command, dst: Register, src: Register): Asm {
    Instruction(cmd, Unset, src, dst, [])
  }

  function AsmLabel(l: Label): Asm {
    Asm(Assembler(LABEL, [], Unset, Unset, Unset, [], l), false)
  }

  function Branch(cmd: Command, reg: Register, l: Label, noOpt: bool): Asm {
    Asm(Assembler(cmd, [], reg, Unset, Unset, [], l), noOpt)
  }

  /** `brz`: on one device family a test of R0 becomes a jump without registers. */
  function Brz(reg: Register, l: Label, noOpt: bool, hirzel: bool): Asm {
    if hirzel && reg == R(0) then Branch(JMP, Unset, l, noOpt) else Branch(BRZ, reg, l, noOpt)
  }

  function Br(l: Label, noOpt: bool, hirzel: bool): Asm { Brz(R(0), l, noOpt, hirzel) }

  function StoreTo(reg: Register, addr: int): Asm { Instruction(ST, Unset, reg, Unset, [addr]) }

  function WaitTrigger(r1: Register, r2: Register): Asm { Instruction(WTRIG, Unset, r2, r1, []) }

  function Nop(): Asm { Instruction(NOP, Unset, Unset, Unset, []) }

  /** An entry that only carries a node of the play tree. */
  function NodeEntry(): Asm { Instruction(INVALID, Unset, Unset, Unset, []) }

  // ----- Immediates -----

  /** Does the immediate fit the single-instruction form? */
  predicate FitsDirectly(imm: int) {
    Wrap(imm + 0x7FFFF) <= 0xFFFFD
  }

  function Low(imm: int): int { Wrap(imm) % 0x1000 }
  function Upper(imm: int): int { Wrap(imm) / 0x1000 }

  /** The register-register form standing in for a wide immediate. */
  function RegisterForm(cmd: Command): Option<Command> {
    match cmd
    case ANDI => Some(ANDR)
    case ORI => Some(ORR)
    case XNORI => Some(XNORR)
    case _ => None
  }

  /** The instructions for `dst = src op imm`; None where the builder throws. */
  function AluiCode(cmd: Command, dst: Register, src: Register, imm: int): Option<seq<Asm>> {
    if dst == Unset || src == Unset then None
    else if FitsDirectly(imm) then Some([AluImmediate(cmd, dst, src, imm)])
    else if cmd.ADDI? then
      Some([AluImmediate(ADDI, dst, src, Low(imm)), AluImmediate(ADDIU, dst, dst, Upper(imm))])
    else if RegisterForm(cmd).None? then None
    else
      Some([AluImmediate(ADDI, dst, R(0), Low(imm))] +
           (if Wrap(imm) >= 0x1000 then [AluImmediate(ADDIU, dst, dst, Upper(imm))] else []) +
           [AluRegister(RegisterForm(cmd).value, dst, src)])
  }

  method Alui(cmd: Command, dst: Register, src: Register, imm: int) returns (r: Option<seq<Asm>>)
    ensures r == AluiCode(cmd, dst, src, imm)
  {
    if dst == Unset || src == Unset {
      return None;
    }
    var result: seq<Asm> := [];
    var uval := Wrap(imm);
    if FitsDirectly(imm) {
      result := [AluImmediate(cmd, dst, src, imm)];
      return Some(result);
    }
    if cmd.ADDI? {
      result := [AluImmediate(ADDI, dst, src, uval % 0x1000)];
      result := result + [AluImmediate(ADDIU, dst, dst, uval / 0x1000)];
      assert result == [AluImmediate(ADDI, dst, src, Low(imm)), AluImmediate(ADDIU, dst, dst, Upper(imm))];
      return Some(result);
    }
    result := [AluImmediate(ADDI, dst, R(0), uval % 0x1000)];
    if uval >= 0x1000 {
      result := result + [AluImmediate(ADDIU, dst, dst, uval / 0x1000)];
    }
    var regCmd := RegisterForm(cmd);
    if regCmd.None? {
      return None;
    }
    result := result + [AluRegister(regCmd.value, dst, src)];
    return Some(result);
  }

  /** `addi32`: always two instructions, both exempt from optimisation. */
  function Addi32Code(dst: Register, src: Register, imm: int): Option<seq<Asm>> {
    if dst == Unset || src == Unset then None
    else Some([AluImmediate(ADDI, dst, src, Low(imm)).(noOpt := true),
               AluImmediate(ADDIU, dst, dst, Upper(imm)).(noOpt := true)])
  }

  // ----- What the instructions do, anywhere in a list -----

  predicate Contains(prog: seq<Asm>, k: nat, code: seq<Asm>) {
    k + |code| <= |prog| && prog[k..k + |code|] == code
  }

  lemma ContainsAt(prog: seq<Asm>, k: nat, code: seq<Asm>, i: nat)
    requires Contains(prog, k, code) && i < |code|
    ensures k + i < |prog| && prog[k + i] == code[i]
  {
    assert prog[k..k + |code|][i] == prog[k + i];
  }

  lemma ContainsParts(prog: seq<Asm>, k: nat, a: seq<Asm>, b: seq<Asm>)
    requires Contains(prog, k, a + b)
    ensures Contains(prog, k, a) && Contains(prog, k + |a|, b)
  {
    forall i | 0 <= i < |a| ensures prog[k + i] == a[i] { ContainsAt(prog, k, a + b, i); }
    forall i | 0 <= i < |b| ensures prog[k + |a| + i] == b[i] { ContainsAt(prog, k, a + b, |a| + i); }
  }

  /** t is s at entry pc with register r set to v and nothing else changed. */
  ghost predicate OnlySets(s: State, t: State, pc: nat, r: nat, v: Word) {
    t.pc == pc && t.trace == s.trace && forall q: nat :: Get(t.regs, q) == if q == r && r > 0 then v else Get(s.regs, q)
  }

  /** An instruction that computes a value into r and goes on. */
  lemma AluStep(prog: seq<Asm>, input: Input, s: State, r: nat)
    requires s.pc < |prog|
    requires var a := prog[s.pc].assembler; GetCmdType(a.cmd) in {2, 3, 7} && Writes(a) == Storage(R(r))
    ensures OnlySets(s, Step(prog, input, s), s.pc + 1, r, Result(prog[s.pc].assembler, s, input))
  {
    hide Result, Value;
    var a := prog[s.pc].assembler;
    var v := Result(a, s, input);
    assert !IsBranch(a.cmd) && !IsIo(a.cmd) && !a.cmd.END?;
    forall q: nat ensures Get(WriteBack(s.regs, a, v), q) == if q == r && r > 0 then v else Get(s.regs, q) {
      GetAfterWriteBack(s.regs, a, v, q);
    }
  }

  /** One arithmetic instruction writing regDst. */
  lemma ImmediateStep(prog: seq<Asm>, input: Input, s: State, cmd: Command, dst: nat, src: nat, imm: int)
    requires s.pc < |prog| && GetCmdType(cmd) == 3
    requires prog[s.pc].assembler == AluImmediate(cmd, R(dst), R(src), imm).assembler
    ensures OnlySets(s, Step(prog, input, s), s.pc + 1, dst, Alu(cmd, imm, Get(s.regs, src), 0, 0, 0))
  {
    hide OnlySets, Step, Wrap, BitAnd, BitOr, BitXor, BitNot;
    AluStep(prog, input, s, dst);
  }

  lemma RegisterStep(prog: seq<Asm>, input: Input, s: State, cmd: Command, dst: nat, src: nat)
    requires s.pc < |prog| && GetCmdType(cmd) == 7 && !IsShift(cmd)
    requires prog[s.pc].assembler == AluRegister(cmd, R(dst), R(src)).assembler
    ensures OnlySets(s, Step(prog, input, s), s.pc + 1, dst, Alu(cmd, 0, Get(s.regs, src), Get(s.regs, dst), 0, 0))
  {
    hide OnlySets, Step, Wrap, BitAnd, BitOr, BitXor, BitNot;
    AluStep(prog, input, s, dst);
  }

  lemma RunOne(prog: seq<Asm>, input: Input, s: State)
    ensures Run(prog, input, s, 1) == Step(prog, input, s)
  {
    assert Run(prog, input, s, 1) == Run(prog, input, Step(prog, input, s), 0);
  }

  /** Setting r twice. */
  lemma SetsAgain(s: State, t: State, u: State, pc: nat, pc': nat, r: nat, v: Word, w: Word)
    requires OnlySets(s, t, pc, r, v) && OnlySets(t, u, pc', r, w)
    ensures OnlySets(s, u, pc', r, w)
  {
  }

  /** What is set does not matter when it is R0. */
  lemma SetsNothing(s: State, t: State, pc: nat, v: Word, w: Word)
    requires OnlySets(s, t, pc, 0, v)
    ensures OnlySets(s, t, pc, 0, w)
  {
  }

  lemma SplitSum(x: Word, imm: int)
    ensures Wrap(Wrap(x + Low(imm)) + Upper(imm) * 0x1000) == Wrap(x + imm)
    ensures 0 <= Low(imm) < 0x1000 && 0 <= Upper(imm) < 0x10_0000
  {
  }

  /** Adding an immediate in two parts. */
  lemma TwoPartSum(prog: seq<Asm>, input: Input, s: State, dst: nat, src: nat, imm: int)
    requires s.pc + 1 < |prog|
    requires prog[s.pc].assembler == AluImmediate(ADDI, R(dst), R(src), Low(imm)).assembler
    requires prog[s.pc + 1].assembler == AluImmediate(ADDIU, R(dst), R(dst), Upper(imm)).assembler
    ensures OnlySets(s, Run(prog, input, s, 2), s.pc + 2, dst, Wrap(Get(s.regs, src) + imm))
  {
    hide Step, Wrap, Low, Upper, Run;
    ImmediateStep(prog, input, s, ADDI, dst, src, Low(imm));
    var s1 := Step(prog, input, s);
    ImmediateStep(prog, input, s1, ADDIU, dst, dst, Upper(imm));
    SplitSum(Get(s.regs, src), imm);
    if dst == 0 {
      SetsNothing(s1, Step(prog, input, s1), s.pc + 2, Alu(ADDIU, Upper(imm), 0, 0, 0, 0), Wrap(Get(s.regs, src) + imm));
    }
    RunOne(prog, input, s);
    RunOne(prog, input, s1);
    RunAdd(prog, input, s, 1, 1);
  }

  /** The operation an immediate instruction stands for. */
  function Operation(cmd: Command, x: Word, imm: int): Word {
    Alu(cmd, imm, x, 0, 0, 0)
  }

  /** The code for `dst = src op imm`, wherever it stands, leaves that value in dst and touches
      nothing else. */
  ghost predicate AluiDoes(prog: seq<Asm>, input: Input, s: State, cmd: Command, dst: nat, src: nat, imm: int)
    requires AluiCode(cmd, R(dst), R(src), imm).Some?
  {
    var code := AluiCode(cmd, R(dst), R(src), imm).value;
    Contains(prog, s.pc, code) ==>
      OnlySets(s, Run(prog, input, s, |code|), s.pc + |code|, dst, Operation(cmd, Get(s.regs, src), imm))
  }

  /** A wide and, or, xnor overwrites dst before it reads src; R0 cannot be overwritten. */
  predicate ReadsSourceInTime(cmd: Command, dst: nat, src: nat, imm: int) {
    FitsDirectly(imm) || cmd.ADDI? || dst != src || dst == 0
  }

  lemma AluiCorrect(prog: seq<Asm>, input: Input, s: State, cmd: Command, dst: nat, src: nat, imm: int)
    requires cmd in {ADDI, ANDI, ORI, XNORI}
    requires ReadsSourceInTime(cmd, dst, src, imm)
    ensures AluiDoes(prog, input, s, cmd, dst, src, imm)
  {
    var code := AluiCode(cmd, R(dst), R(src), imm).value;
    hide Step, Run, Alu, Wrap, Low, Upper, OnlySets, FitsDirectly, RegisterForm, Contains, AluiCode;
    if Contains(prog, s.pc, code) {
      if FitsDirectly(imm) {
        DirectInTime(prog, input, s, cmd, dst, src, imm);
      } else if cmd.ADDI? {
        SumInTime(prog, input, s, dst, src, imm);
      } else {
        WideInTime(prog, input, s, cmd, dst, src, imm);
      }
    }
  }

  lemma DirectInTime(prog: seq<Asm>, input: Input, s: State, cmd: Command, dst: nat, src: nat, imm: int)
    requires cmd in {ADDI, ANDI, ORI, XNORI} && FitsDirectly(imm)
    requires Contains(prog, s.pc, AluiCode(cmd, R(dst), R(src), imm).value)
    ensures var n := |AluiCode(cmd, R(dst), R(src), imm).value|;
      OnlySets(s, Run(prog, input, s, n), s.pc + n, dst, Operation(cmd, Get(s.regs, src), imm))
  {
    hide Step, Run, Alu, Wrap, OnlySets, FitsDirectly, Contains;
    CodeAt(prog, s.pc, AluiCode(cmd, R(dst), R(src), imm).value);
    ImmediateStep(prog, input, s, cmd, dst, src, imm);
    RunOne(prog, input, s);
  }

  lemma SumInTime(prog: seq<Asm>, input: Input, s: State, dst: nat, src: nat, imm: int)
    requires !FitsDirectly(imm) && Contains(prog, s.pc, AluiCode(ADDI, R(dst), R(src), imm).value)
    ensures var n := |AluiCode(ADDI, R(dst), R(src), imm).value|;
      OnlySets(s, Run(prog, input, s, n), s.pc + n, dst, Operation(ADDI, Get(s.regs, src), imm))
  {
    hide Step, Run, Alu, Wrap, Low, Upper, OnlySets, FitsDirectly, Contains, Operation;
    CodeAt(prog, s.pc, AluiCode(ADDI, R(dst), R(src), imm).value);
    TwoPartSum(prog, input, s, dst, src, imm);
    AddOperation(Get(s.regs, src), imm);
  }

  lemma WideInTime(prog: seq<Asm>, input: Input, s: State, cmd: Command, dst: nat, src: nat, imm: int)
    requires cmd in {ANDI, ORI, XNORI} && !FitsDirectly(imm) && (dst != src || dst == 0)
    requires Contains(prog, s.pc, AluiCode(cmd, R(dst), R(src), imm).value)
    ensures var n := |AluiCode(cmd, R(dst), R(src), imm).value|;
      OnlySets(s, Run(prog, input, s, n), s.pc + n, dst, Operation(cmd, Get(s.regs, src), imm))
  {
    WideShape(cmd, dst, src, imm);
    hide *;
    var n := |AluiCode(cmd, R(dst), R(src), imm).value|;
    var operand := if dst == src then Wrap(imm) else Get(s.regs, src);
    WideRegisterForm(prog, input, s, cmd, dst, src, imm);
    if dst == 0 {
      SetsNothing(s, Run(prog, input, s, n), s.pc + n, Alu(RegisterForm(cmd).value, 0, operand, Wrap(imm), 0, 0),
        Operation(cmd, Get(s.regs, src), imm));
    } else {
      RegisterFormOperation(cmd, Get(s.regs, src), imm);
    }
  }

  /** Main result: the code is right in every list, for every input and every register file, if
      and only if the source is read in time. */
  lemma AluiCorrectIff(cmd: Command, dst: nat, src: nat, imm: int)
    requires cmd in {ADDI, ANDI, ORI, XNORI}
    ensures (forall prog, input, s :: AluiDoes(prog, input, s, cmd, dst, src, imm))
       <==> ReadsSourceInTime(cmd, dst, src, imm)
  {
    if ReadsSourceInTime(cmd, dst, src, imm) {
      forall prog, input, s ensures AluiDoes(prog, input, s, cmd, dst, src, imm) {
        AluiCorrect(prog, input, s, cmd, dst, src, imm);
      }
    } else {
      WideFormOverwritesItsSource(cmd, dst, imm);
    }
  }

  /** With dst = src every wide and, or, xnor goes wrong: the and and xnor forms on 0, the or
      form on a word of ones. */
  lemma WideFormOverwritesItsSource(cmd: Command, dst: nat, imm: int)
    requires dst > 0 && cmd in {ANDI, ORI, XNORI} && !FitsDirectly(imm)
    ensures exists prog, input, s :: !AluiDoes(prog, input, s, cmd, dst, dst, imm)
  {
    hide Run, Alu, Wrap, FitsDirectly;
    var prog := AluiCode(cmd, R(dst), R(dst), imm).value;
    var input: Input := (address, sent) => 0;
    var x: Word := if cmd.ORI? then 0xFFFF_FFFF else 0;
    var s := State(0, map[dst := x], []);
    assert Contains(prog, 0, prog);
    WideRegisterForm(prog, input, s, cmd, dst, dst, imm);
    ConstantForSource(cmd, x, imm);
    assert Get(Run(prog, input, s, |prog|).regs, dst) != Operation(cmd, x, imm);
    assert !AluiDoes(prog, input, s, cmd, dst, dst, imm);
  }

  lemma ConstantForSource(cmd: Command, x: Word, imm: int)
    requires cmd in {ANDI, ORI, XNORI} && !FitsDirectly(imm)
    requires x == if cmd.ORI? then 0xFFFF_FFFF else 0
    ensures Alu(RegisterForm(cmd).value, 0, Wrap(imm), Wrap(imm), 0, 0) != Operation(cmd, x, imm)
  {
    hide Words, Wrap, FitsDirectly;
    WideRange(imm);
    WordConstants(if cmd.ANDI? then And else if cmd.ORI? then Or else Xor, Wrap(imm));
  }

  lemma WideRange(imm: int)
    requires !FitsDirectly(imm)
    ensures 0 < Wrap(imm) < 0xFFFF_FFFF
  {
  }

  /** A bitwise operation on equal words, and with one word all zeros or all ones. */
  lemma {:induction false} EqualBits(op: Bitwise, w: nat, n: nat)
    requires w < Power(n)
    ensures Bits(op, w, w, n) == if op.Xor? then 0 else w
  {
    if n > 0 { EqualBits(op, w / 2, n - 1); }
  }

  lemma {:induction false} ZeroBits(op: Bitwise, w: nat, n: nat)
    requires w < Power(n)
    ensures Bits(op, 0, w, n) == if op.And? then 0 else w
  {
    if n > 0 { ZeroBits(op, w / 2, n - 1); }
  }

  lemma {:induction false} OneBits(w: nat, n: nat)
    requires w < Power(n)
    ensures Bits(Or, Power(n) - 1, w, n) == Power(n) - 1
  {
    if n > 0 {
      OneBits(w / 2, n - 1);
      assert (Power(n) - 1) / 2 == Power(n - 1) - 1 && (Power(n) - 1) % 2 == 1;
    }
  }

  lemma {:induction false} SwapBits(op: Bitwise, x: nat, y: nat, n: nat)
    ensures Bits(op, x, y, n) == Bits(op, y, x, n)
  {
    if n > 0 { SwapBits(op, x / 2, y / 2, n - 1); }
  }

  lemma SwapWords(op: Bitwise, x: Word, y: Word)
    ensures Words(op, x, y) == Words(op, y, x)
  {
    SwapBits(op, x, y, 32);
  }

  lemma WordConstants(op: Bitwise, w: Word)
    ensures Words(op, w, w) == if op.Xor? then 0 else w
    ensures Words(op, 0, w) == if op.And? then 0 else w
    ensures Words(Or, 0xFFFF_FFFF, w) == 0xFFFF_FFFF
  {
    WordSize();
    hide Bits, Power;
    EqualBits(op, w, 32);
    ZeroBits(op, w, 32);
    OneBits(w, 32);
  }

  lemma CodeAt(prog: seq<Asm>, k: nat, code: seq<Asm>)
    requires Contains(prog, k, code)
    ensures |code| > 0 ==> k < |prog| && prog[k] == code[0]
    ensures |code| > 1 ==> k + 1 < |prog| && prog[k + 1] == code[1]
    ensures |code| > 0 ==> k + |code| <= |prog| && prog[k + |code| - 1] == code[|code| - 1]
  {
    forall i | 0 <= i < |code| ensures prog[k + i] == code[i] { ContainsAt(prog, k, code, i); }
    if |code| > 0 { assert prog[k + 0] == code[0]; }
  }

  lemma AddOperation(x: Word, imm: int)
    ensures Operation(ADDI, x, imm) == Wrap(x + imm)
  {
  }

  lemma LowOnly(imm: int)
    requires Wrap(imm) < 0x1000
    ensures Wrap(0 + Low(imm)) == Wrap(imm)
  {
  }

  lemma RegisterFormOperation(cmd: Command, x: Word, imm: int)
    requires cmd in {ANDI, ORI, XNORI}
    ensures Alu(RegisterForm(cmd).value, 0, x, Wrap(imm), 0, 0) == Operation(cmd, x, imm)
  {
    hide Words, Wrap;
    SwapWords(if cmd.ANDI? then And else if cmd.ORI? then Or else Xor, x, Wrap(imm));
  }

  /** Loading a constant in one or two parts. */
  lemma LoadConstant(prog: seq<Asm>, input: Input, s: State, dst: nat, imm: int, n: nat)
    requires n == (if Wrap(imm) >= 0x1000 then 2 else 1) && s.pc + n <= |prog|
    requires prog[s.pc].assembler == AluImmediate(ADDI, R(dst), R(0), Low(imm)).assembler
    requires n == 2 ==> prog[s.pc + 1].assembler == AluImmediate(ADDIU, R(dst), R(dst), Upper(imm)).assembler
    ensures OnlySets(s, Run(prog, input, s, n), s.pc + n, dst, Wrap(imm))
  {
    hide Step, Run, Alu, Wrap, Low, Upper, OnlySets;
    if n == 2 {
      TwoPartSum(prog, input, s, dst, 0, imm);
    } else {
      ImmediateStep(prog, input, s, ADDI, dst, 0, Low(imm));
      RunOne(prog, input, s);
      AddOperation(0, Low(imm));
      LowOnly(imm);
    }
  }

  lemma WideShape(cmd: Command, dst: nat, src: nat, imm: int)
    requires cmd in {ANDI, ORI, XNORI} && !FitsDirectly(imm)
    ensures var code := AluiCode(cmd, R(dst), R(src), imm).value;
      |code| == (if Wrap(imm) >= 0x1000 then 3 else 2) &&
      code[0] == AluImmediate(ADDI, R(dst), R(0), Low(imm)) &&
      (|code| == 3 ==> code[1] == AluImmediate(ADDIU, R(dst), R(dst), Upper(imm))) &&
      code[|code| - 1] == AluRegister(RegisterForm(cmd).value, R(dst), R(src))
    ensures var reg := RegisterForm(cmd).value; GetCmdType(reg) == 7 && !IsShift(reg)
  {
    hide FitsDirectly, Wrap, Low, Upper, AluImmediate, AluRegister;
  }

  lemma ReadAfter(s: State, t: State, pc: nat, r: nat, v: Word, q: nat)
    requires OnlySets(s, t, pc, r, v)
    ensures t.pc == pc && Get(t.regs, q) == if q == r && r > 0 then v else Get(s.regs, q)
  {
  }

  /** The constant is loaded into dst, then combined with what src holds by then. */
  lemma WideRegisterForm(prog: seq<Asm>, input: Input, s: State, cmd: Command, dst: nat, src: nat, imm: int)
    requires cmd in {ANDI, ORI, XNORI} && !FitsDirectly(imm)
    requires Contains(prog, s.pc, AluiCode(cmd, R(dst), R(src), imm).value)
    ensures var n := |AluiCode(cmd, R(dst), R(src), imm).value|;
      var operand := if dst == src then Wrap(imm) else Get(s.regs, src);
      OnlySets(s, Run(prog, input, s, n), s.pc + n, dst, Alu(RegisterForm(cmd).value, 0, operand, Wrap(imm), 0, 0))
  {
    WideShape(cmd, dst, src, imm);
    hide *;
    var code := AluiCode(cmd, R(dst), R(src), imm).value;
    var n := |code| - 1;
    CodeAt(prog, s.pc, code);
    LoadConstant(prog, input, s, dst, imm, n);
    var loaded := Run(prog, input, s, n);
    var reg := RegisterForm(cmd).value;
    ReadAfter(s, loaded, s.pc + n, dst, Wrap(imm), src);
    ReadAfter(s, loaded, s.pc + n, dst, Wrap(imm), dst);
    RegisterStep(prog, input, loaded, reg, dst, src);
    var last := Step(prog, input, loaded);
    var operand := if dst == src then Wrap(imm) else Get(s.regs, src);
    var v := Alu(reg, 0, Get(loaded.regs, src), Get(loaded.regs, dst), 0, 0);
    RunAdd(prog, input, s, n, 1);
    RunOne(prog, input, loaded);
    SetsAgain(s, loaded, last, s.pc + n, s.pc + n + 1, dst, Wrap(imm), v);
    if dst == 0 { SetsNothing(s, last, s.pc + n + 1, v, Alu(reg, 0, operand, Wrap(imm), 0, 0)); }
  }

  /** `addi32` adds every 32-bit immediate. */
  lemma Addi32Correct(prog: seq<Asm>, input: Input, s: State, dst: nat, src: nat, imm: int)
    requires Contains(prog, s.pc, Addi32Code(R(dst), R(src), imm).value)
    ensures OnlySets(s, Run(prog, input, s, 2), s.pc + 2, dst, Wrap(Get(s.regs, src) + imm))
  {
    hide Step, Run, Alu, Wrap, Low, Upper, OnlySets;
    CodeAt(prog, s.pc, Addi32Code(R(dst), R(src), imm).value);
    TwoPartSum(prog, input, s, dst, src, imm);
  }

  lemma DirectRange(imm: int)
    requires -0x8000_0000 <= imm < 0x8000_0000
    ensures FitsDirectly(imm) <==> -0x7_FFFF <= imm <= 0x7_FFFE
  {
  }

  /** Every split field fits its encoding: 12 bits below, 20 bits above; unsplit immediates
      fit 20 signed bits. */
  lemma FieldsFit(cmd: Command, dst: Register, src: Register, imm: int)
    requires -0x8000_0000 <= imm < 0x8000_0000
    ensures match AluiCode(cmd, dst, src, imm)
      case None => true
      case Some(code) =>
        forall i :: 0 <= i < |code| ==>
          var a := code[i].assembler;
          a.outputs == [] ||
          (|code| == 1 && -0x8_0000 <= a.outputs[0] < 0x8_0000) ||
          (a.cmd.ADDI? && 0 <= a.outputs[0] < 0x1000) || (a.cmd.ADDIU? && 0 <= a.outputs[0] < 0x10_0000)
  {
    SplitSum(0, imm);
    DirectRange(imm);
    hide Low, Upper, FitsDirectly;
  }

  /** What the builders emit: one instruction when the immediate fits, two for an addition, three for
      and, or and xnor, none of them exempt from optimisation; an error otherwise. */
  lemma AluiShape(cmd: Command, dst: Register, src: Register, imm: int)
    ensures AluiCode(cmd, dst, src, imm) == None <==>
      dst == Unset || src == Unset || (!FitsDirectly(imm) && cmd !in {ADDI, ANDI, ORI, XNORI})
    ensures match AluiCode(cmd, dst, src, imm)
      case None => true
      case Some(code) =>
        |code| == (if FitsDirectly(imm) then 1 else if cmd.ADDI? then 2 else 3) && forall e :: e in code ==> !e.noOpt
  {
    WideIsLarge(imm);
    hide FitsDirectly, Wrap;
  }

  lemma WideIsLarge(imm: int)
    ensures !FitsDirectly(imm) ==> Wrap(imm) >= 0x1000
  {
  }

  /** The fixed form is always two instructions, both exempt. */
  lemma Addi32Shape(dst: Register, src: Register, imm: int)
    ensures Addi32Code(dst, src, imm) == None <==> dst == Unset || src == Unset
    ensures match Addi32Code(dst, src, imm)
      case None => true
      case Some(code) => |code| == 2 && code[0].noOpt && code[1].noOpt && code[0].assembler.cmd.ADDI? && code[1].assembler.cmd.ADDIU?
  {
  }
}
