/** The instruction record shared by the list passes, the register allocator and
    the lowering: opcodes, register slots, labels and the opcode tables. */
module Instructions {

  /** Opcodes. INVALID marks a dead entry; LABEL and COMMENT_NOP are pseudo-ops. */
  datatype Command =
    | END | NOP | LABEL | MESSAGE | COMMENT_NOP | ERROR_MSG
    | PRF | WVF | WVFI | WVFS_H
    | ADDI | ADDIU
    | ADDR | SUBR | ANDR | ORR | XNORR | SSL | SSR | XORR
    | ANDI | ANDIU | ORI | ORIU | XNORI | XNORIU
    | LD | WTRIG | WPRF | WWVF | CWVF
    | BRZ | BRNZ | BRGZ
    | ST | TRAP | IRPT | CWVFR | WVFE | WVFEI | WVFET | WTRIGI | JMP | FB
    | INVALID

  /** A register slot. All unset slots compare equal, so one constructor stands for them. */
  datatype Register = Unset | R(number: nat)

  /** Label text: a base name followed by a running number, or the empty text. */
  datatype Label = NoLabel | Label(base: string, number: nat)

  datatype Assembler = Assembler(
    cmd: Command,
    immediates: seq<int>,
    regSrc: Register,
    regDst: Register,
    regAux: Register,
    outputs: seq<int>,
    lbl: Label)

  /** One list entry: the instruction and its exemption from optimisation. */
  datatype Asm = Asm(assembler: Assembler, noOpt: bool)

  /** How an opcode uses its slots: bit 0 reads regSrc, bit 1 writes regDst,
      1 and 7 also read regAux, 7 also writes regAux. */
  function GetCmdType(cmd: Command): (t: int)
    ensures t in {0, 1, 2, 3, 7}
  {
    match cmd
    case PRF | WVF | WVFI | WVFS_H | BRZ | BRNZ | ST | WTRIG | CWVFR | WVFE | WVFEI | WVFET => 1
    case LD => 2
    case ADDI | ADDIU | ANDI | ANDIU | ORI | ORIU | XNORI | XNORIU => 3
    case ADDR | SUBR | ANDR | ORR | XNORR | SSL | SSR | XORR => 7
    case _ => 0
  }

  /** Which slots the textual form fills: 1 regSrc, 2 regDst, 3 regAux then regSrc,
      4 regDst then regSrc. */
  function GetRegisterOrder(cmd: Command): (o: int)
    ensures 0 <= o <= 4
  {
    match cmd
    case ADDR | SUBR | ANDR | ORR | XNORR | SSL | SSR | XORR | PRF | WVF | WVFI | WTRIG => 3
    case WVFS_H | BRZ | BRNZ | BRGZ | ST | CWVFR | WVFE | WVFET => 1
    case LD => 2
    case ADDI | ADDIU | ANDI | ANDIU | ORI | ORIU | XNORI | XNORIU => 4
    case _ => 0
  }

  /** Cycles an instruction takes; pseudo-instructions take none. */
  function GetCycles(cmd: Command): int {
    match cmd
    case BRZ | BRNZ | BRGZ => 3
    case END | LABEL | MESSAGE | COMMENT_NOP | ERROR_MSG | INVALID => 0
    case _ => 1
  }

  predicate ReadsSrc(cmd: Command) { GetCmdType(cmd) % 2 == 1 }
  predicate ReadsAux(cmd: Command) { GetCmdType(cmd) == 1 || GetCmdType(cmd) == 7 }
  predicate WritesDst(cmd: Command) { GetCmdType(cmd) / 2 % 2 == 1 }
  predicate WritesAux(cmd: Command) { GetCmdType(cmd) == 7 }

  predicate IsBranch(cmd: Command) { cmd.BRZ? || cmd.BRNZ? || cmd.BRGZ? || cmd.JMP? }

  predicate IsShift(cmd: Command) { cmd.SSL? || cmd.SSR? }

  /** Dead entries, labels and comments: the entries every scan steps over. */
  predicate IsBarrier(cmd: Command) { cmd.INVALID? || cmd.LABEL? || cmd.COMMENT_NOP? }

  /** The classification the passes use. It does not see the read made by BRGZ. */
  predicate IsRead(a: Assembler, reg: Register) {
    (a.regSrc == reg && ReadsSrc(a.cmd)) || (a.regAux == reg && ReadsAux(a.cmd))
  }

  predicate IsWritten(a: Assembler, reg: Register) {
    (a.regDst == reg && WritesDst(a.cmd)) || (a.regAux == reg && WritesAux(a.cmd))
  }

  /** The register number held by a slot; R0 and unset slots hold no storage. */
  function Storage(reg: Register): set<nat> {
    if reg.R? && reg.number > 0 then {reg.number} else {}
  }

  /** Registers whose value decides what an instruction does. Unlike the passes'
      classification this sees the branch test of BRGZ and the shifted register. */
  function Reads(a: Assembler): set<nat> {
    (if ReadsSrc(a.cmd) || IsBranch(a.cmd) then Storage(a.regSrc) else {}) +
    (if ReadsAux(a.cmd) then Storage(a.regAux) else {}) +
    (if IsShift(a.cmd) then Storage(a.regDst) else {})
  }

  function Writes(a: Assembler): set<nat> {
    (if WritesDst(a.cmd) then Storage(a.regDst) else {}) +
    (if WritesAux(a.cmd) then Storage(a.regAux) else {})
  }

  /** Registers named in any slot, read or not. */
  function Mentions(a: Assembler): set<nat> {
    Storage(a.regSrc) + Storage(a.regDst) + Storage(a.regAux)
  }

  /** The highest register number named in the instruction, or -1. */
  function HighestRegisterNumber(a: Assembler): (n: int)
    ensures forall r :: r in Mentions(a) ==> r <= n
    ensures n == -1 || (n >= 0 && R(n) in {a.regSrc, a.regDst, a.regAux})
  {
    var m0 := if a.regSrc.R? then a.regSrc.number else -1;
    var m1 := if a.regDst.R? && a.regDst.number > m0 then a.regDst.number else m0;
    if a.regAux.R? && a.regAux.number > m1 then a.regAux.number else m1
  }

  function WithCmd(e: Asm, cmd: Command): Asm {
    e.(assembler := e.assembler.(cmd := cmd))
  }

  /** A dead entry keeps its other fields. */
  function Killed(e: Asm): Asm { WithCmd(e, INVALID) }
}
