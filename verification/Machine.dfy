/** The sequencer the passes must respect: registers, a program counter, labels
    and a stream of observable commands. */
module Machine {
  import opened Instructions

  type Word = w: int | 0 <= w < 0x1_0000_0000

  function Wrap(x: int): Word { x % 0x1_0000_0000 }

  datatype Bitwise = And | Or | Xor

  predicate Combined(op: Bitwise, a: bool, b: bool) {
    match op
    case And => a && b
    case Or => a || b
    case Xor => a != b
  }

  function Power(n: nat): nat { if n == 0 then 1 else 2 * Power(n - 1) }

  lemma WordSize()
    ensures Power(32) == 0x1_0000_0000
  {
    assert Power(8) == 0x100;
    assert Power(16) == 0x1_0000;
    assert Power(24) == 0x100_0000;
  }

  /** The lowest n bits of x and y, combined bit by bit. */
  function Bits(op: Bitwise, x: nat, y: nat, n: nat): (r: nat)
    ensures r < Power(n)
  {
    if n == 0 then 0
    else 2 * Bits(op, x / 2, y / 2, n - 1) + if Combined(op, x % 2 == 1, y % 2 == 1) then 1 else 0
  }

  function Words(op: Bitwise, x: Word, y: Word): Word {
    WordSize();
    Bits(op, x, y, 32)
  }

  function BitAnd(x: Word, y: Word): Word { Words(And, x, y) }
  function BitOr(x: Word, y: Word): Word { Words(Or, x, y) }
  function BitXor(x: Word, y: Word): Word { Words(Xor, x, y) }
  function BitNot(x: Word): Word { 0xFFFF_FFFF - x }

  type Registers = map<nat, Word>

  /** Register 0 and registers never written read as 0. */
  function Get(regs: Registers, r: nat): Word {
    if r != 0 && r in regs then regs[r] else 0
  }

  function Value(regs: Registers, reg: Register): Word {
    if reg.R? then Get(regs, reg.number) else 0
  }

  function Set(regs: Registers, reg: Register, v: Word): Registers {
    if reg.R? && reg.number > 0 then regs[reg.number := v] else regs
  }

  /** A store, wait, waveform or other command leaving the sequencer, with the
      register values it carries. */
  datatype Event = Event(cmd: Command, immediates: seq<int>, outputs: seq<int>, src: Word, aux: Word)

  datatype State = State(pc: nat, regs: Registers, trace: seq<Event>)

  /** What LD finds: a function of its address operands and of everything sent so far. */
  type Input = (seq<int>, seq<Event>) -> Word

  predicate IsIo(cmd: Command) {
    cmd.PRF? || cmd.WVF? || cmd.WVFI? || cmd.WVFS_H? || cmd.WTRIG? || cmd.WPRF? || cmd.WWVF? ||
    cmd.CWVF? || cmd.ST? || cmd.TRAP? || cmd.IRPT? || cmd.CWVFR? || cmd.WVFE? || cmd.WVFEI? ||
    cmd.WVFET? || cmd.WTRIGI? || cmd.FB?
  }

  /** The commands that carry the value of a register out, and those that carry two. */
  predicate SendsSrc(cmd: Command) {
    SendsBoth(cmd) || cmd.WVFS_H? || cmd.ST? || cmd.CWVFR? || cmd.WVFE? || cmd.WVFET?
  }

  predicate SendsBoth(cmd: Command) { cmd.PRF? || cmd.WVF? || cmd.WVFI? || cmd.WTRIG? }

  function Emitted(a: Assembler, regs: Registers): seq<Event> {
    if IsIo(a.cmd) then
      [Event(a.cmd, a.immediates, a.outputs,
             if SendsSrc(a.cmd) then Value(regs, a.regSrc) else 0,
             if SendsBoth(a.cmd) then Value(regs, a.regAux) else 0)]
    else []
  }

  function Immediate(a: Assembler): int {
    if a.outputs == [] then 0 else a.outputs[0]
  }

  /** The value an instruction computes from its operand values. */
  function Alu(cmd: Command, imm: int, src: Word, aux: Word, dst: Word, loaded: Word): Word {
    match cmd
    case ADDI => Wrap(src + imm)
    case ADDIU => Wrap(src + imm * 0x1000)
    case ANDI => BitAnd(src, Wrap(imm))
    case ANDIU => BitAnd(src, Wrap(imm * 0x1000))
    case ORI => BitOr(src, Wrap(imm))
    case ORIU => BitOr(src, Wrap(imm * 0x1000))
    case XNORI => BitNot(BitXor(src, Wrap(imm)))
    case XNORIU => BitNot(BitXor(src, Wrap(imm * 0x1000)))
    case ADDR => Wrap(aux + src)
    case SUBR => Wrap(aux - src)
    case ANDR => BitAnd(aux, src)
    case ORR => BitOr(aux, src)
    case XNORR => BitNot(BitXor(aux, src))
    case XORR => BitXor(aux, src)
    case SSL => Wrap(2 * dst)
    case SSR => dst / 2
    case LD => loaded
    case _ => 0
  }

  function Result(a: Assembler, s: State, input: Input): Word {
    Alu(a.cmd, Immediate(a), Value(s.regs, a.regSrc), Value(s.regs, a.regAux),
        if IsShift(a.cmd) then Value(s.regs, a.regDst) else 0, input(a.outputs, s.trace))
  }

  /** The commands that leave a result in their first slot. */
  predicate LeavesResult(cmd: Command) {
    CombinesRegisters(cmd) || cmd.LD? || cmd.ADDI? || cmd.ADDIU? || cmd.ANDI? || cmd.ANDIU? || cmd.ORI? || cmd.ORIU? ||
    cmd.XNORI? || cmd.XNORIU?
  }

  /** Those that leave it in the slot of their second operand as well. */
  predicate CombinesRegisters(cmd: Command) {
    cmd.ADDR? || cmd.SUBR? || cmd.ANDR? || cmd.ORR? || cmd.XNORR? || cmd.XORR? || cmd.SSL? || cmd.SSR?
  }

  function WriteBack(regs: Registers, a: Assembler, v: Word): Registers {
    var dst := if LeavesResult(a.cmd) then Set(regs, a.regDst, v) else regs;
    if CombinesRegisters(a.cmd) then Set(dst, a.regAux, v) else dst
  }

  /** The entry defining a label, or the end of the list when nothing does. */
  function Target(prog: seq<Asm>, l: Label): (t: nat)
    ensures t <= |prog|
    ensures t < |prog| ==> Defines(prog, t, l)
    ensures forall i :: 0 <= i < t ==> !Defines(prog, i, l)
  {
    TargetFrom(prog, l, 0)
  }

  predicate Defines(prog: seq<Asm>, i: nat, l: Label)
    requires i < |prog|
  {
    prog[i].assembler.cmd.LABEL? && prog[i].assembler.lbl == l
  }

  function TargetFrom(prog: seq<Asm>, l: Label, i: nat): (t: nat)
    requires i <= |prog|
    ensures i <= t <= |prog|
    ensures t < |prog| ==> Defines(prog, t, l)
    ensures forall k :: i <= k < t ==> !Defines(prog, k, l)
    decreases |prog| - i
  {
    if i == |prog| || Defines(prog, i, l) then i else TargetFrom(prog, l, i + 1)
  }

  lemma SameTargets(p: seq<Asm>, q: seq<Asm>, l: Label)
    requires |p| == |q|
    requires forall i :: 0 <= i < |p| ==> Defines(p, i, l) == Defines(q, i, l)
    ensures Target(p, l) == Target(q, l)
  {
    var t, u := Target(p, l), Target(q, l);
    if t < |p| { assert Defines(q, t, l); }
    if u < |q| { assert Defines(p, u, l); }
  }

  lemma GetAfterWriteBack(regs: Registers, a: Assembler, v: Word, r: nat)
    ensures Get(WriteBack(regs, a, v), r) == if r in Writes(a) then v else Get(regs, r)
  {
  }

  predicate Taken(a: Assembler, regs: Registers) {
    match a.cmd
    case JMP => true
    case BRZ => Value(regs, a.regSrc) == 0
    case BRNZ => Value(regs, a.regSrc) != 0
    case BRGZ => 0 < Value(regs, a.regSrc) < 0x8000_0000
    case _ => false
  }

  function NextPc(prog: seq<Asm>, s: State): nat
    requires s.pc < |prog|
  {
    var a := prog[s.pc].assembler;
    if a.cmd.END? then |prog|
    else if Taken(a, s.regs) then Target(prog, a.lbl)
    else s.pc + 1
  }

  function Step(prog: seq<Asm>, input: Input, s: State): State {
    if s.pc >= |prog| then s
    else
      var a := prog[s.pc].assembler;
      State(NextPc(prog, s),
            WriteBack(s.regs, a, Result(a, s, input)),
            s.trace + Emitted(a, s.regs))
  }

  function Run(prog: seq<Asm>, input: Input, s: State, n: nat): State
    decreases n
  {
    if n == 0 then s else Run(prog, input, Step(prog, input, s), n - 1)
  }

  function Entry(regs: Registers): State { State(0, regs, []) }

  predicate Halted(prog: seq<Asm>, s: State) { s.pc >= |prog| }

  lemma {:induction false} RunAdd(prog: seq<Asm>, input: Input, s: State, m: nat, n: nat)
    ensures Run(prog, input, s, m + n) == Run(prog, input, Run(prog, input, s, m), n)
    decreases m
  {
    hide Step;
    if m > 0 {
      RunAdd(prog, input, Step(prog, input, s), m - 1, n);
    }
  }

  lemma {:induction false} RunHalted(prog: seq<Asm>, input: Input, s: State, n: nat)
    requires Halted(prog, s)
    ensures Run(prog, input, s, n) == s
    decreases n
  {
    if n > 0 { RunHalted(prog, input, s, n - 1); }
  }

  /** Two moments of two runs that an observer cannot tell apart. */
  predicate SameView(p: seq<Asm>, s: State, q: seq<Asm>, t: State) {
    s.trace == t.trace && (Halted(p, s) <==> Halted(q, t))
  }

  /** Some later-or-equal moment of q's run looks like p's moment n. */
  ghost predicate Follows(p: seq<Asm>, q: seq<Asm>, input: Input, regs: Registers, n: nat) {
    exists m: nat :: n <= m &&
      SameView(p, Run(p, input, Entry(regs), n), q, Run(q, input, Entry(regs), m))
  }

  /** q does what p does: whatever the input and the initial registers, every moment of
      p's run is matched by an at least as late moment of q's run. As both are
      deterministic and q's matching moments are unbounded, q shows nothing else. */
  ghost predicate Preserves(p: seq<Asm>, q: seq<Asm>) {
    forall input: Input, regs: Registers, n: nat :: Follows(p, q, input, regs, n)
  }

  lemma PreservesReflexive(p: seq<Asm>)
    ensures Preserves(p, p)
  {
    forall input: Input, regs: Registers, n: nat ensures Follows(p, p, input, regs, n) {
      assert SameView(p, Run(p, input, Entry(regs), n), p, Run(p, input, Entry(regs), n));
    }
  }

  lemma PreservesTransitive(p: seq<Asm>, q: seq<Asm>, r: seq<Asm>)
    requires Preserves(p, q) && Preserves(q, r)
    ensures Preserves(p, r)
  {
    forall input: Input, regs: Registers, n: nat ensures Follows(p, r, input, regs, n) {
      assert Follows(p, q, input, regs, n);
      var m: nat :| n <= m &&
        SameView(p, Run(p, input, Entry(regs), n), q, Run(q, input, Entry(regs), m));
      assert Follows(q, r, input, regs, m);
      var l: nat :| m <= l &&
        SameView(q, Run(q, input, Entry(regs), m), r, Run(r, input, Entry(regs), l));
      assert SameView(p, Run(p, input, Entry(regs), n), r, Run(r, input, Entry(regs), l));
    }
  }

  lemma {:induction false} TraceGrows(p: seq<Asm>, input: Input, s: State, n: nat)
    ensures s.trace <= Run(p, input, s, n).trace
    decreases n
  {
    if n > 0 { TraceGrows(p, input, Step(p, input, s), n - 1); }
  }

  /** The other direction: nothing q ever shows is foreign to p. */
  lemma PreservesBackward(p: seq<Asm>, q: seq<Asm>, input: Input, regs: Registers, n: nat)
    requires Preserves(p, q)
    ensures exists m: nat :: Run(q, input, Entry(regs), n).trace <= Run(p, input, Entry(regs), m).trace
    ensures Halted(q, Run(q, input, Entry(regs), n)) ==>
      exists m: nat :: SameView(p, Run(p, input, Entry(regs), m), q, Run(q, input, Entry(regs), n))
  {
    hide Step;
    assert Follows(p, q, input, regs, n);
    var m: nat :| n <= m &&
      SameView(p, Run(p, input, Entry(regs), n), q, Run(q, input, Entry(regs), m));
    var t := Run(q, input, Entry(regs), n);
    RunAdd(q, input, Entry(regs), n, m - n);
    TraceGrows(q, input, t, m - n);
    assert t.trace <= Run(p, input, Entry(regs), n).trace;
    if Halted(q, t) {
      RunHalted(q, input, t, m - n);
    }
  }

  /** Whatever p shows q comes to show, and q ends where p ends. */
  ghost predicate ShownBy(p: seq<Asm>, q: seq<Asm>, input: Input, regs: Registers, n: nat) {
    exists m: nat ::
      var s, t := Run(p, input, Entry(regs), n), Run(q, input, Entry(regs), m);
      s.trace <= t.trace && (Halted(p, s) ==> SameView(p, s, q, t))
  }

  ghost predicate Exhibits(p: seq<Asm>, q: seq<Asm>) {
    forall input: Input, regs: Registers, n: nat :: ShownBy(p, q, input, regs, n)
  }

  /** Two lists an observer cannot tell apart, whichever of them is faster. */
  ghost predicate Equivalent(p: seq<Asm>, q: seq<Asm>) { Exhibits(p, q) && Exhibits(q, p) }

  lemma PreservesEquivalent(p: seq<Asm>, q: seq<Asm>)
    requires Preserves(p, q)
    ensures Equivalent(p, q)
  {
    hide Step, Run;
    forall input: Input, regs: Registers, n: nat ensures ShownBy(p, q, input, regs, n) && ShownBy(q, p, input, regs, n) {
      assert Follows(p, q, input, regs, n);
      PreservesBackward(p, q, input, regs, n);
    }
  }

  lemma ExhibitsTransitive(p: seq<Asm>, q: seq<Asm>, r: seq<Asm>)
    requires Exhibits(p, q) && Exhibits(q, r)
    ensures Exhibits(p, r)
  {
    hide Step, Run;
    forall input: Input, regs: Registers, n: nat ensures ShownBy(p, r, input, regs, n) {
      assert ShownBy(p, q, input, regs, n);
      var m: nat :| var s, t := Run(p, input, Entry(regs), n), Run(q, input, Entry(regs), m);
        s.trace <= t.trace && (Halted(p, s) ==> SameView(p, s, q, t));
      assert ShownBy(q, r, input, regs, m);
    }
  }

  lemma EquivalentTransitive(p: seq<Asm>, q: seq<Asm>, r: seq<Asm>)
    requires Equivalent(p, q) && Equivalent(q, r)
    ensures Equivalent(p, r)
  {
    hide Exhibits;
    ExhibitsTransitive(p, q, r);
    ExhibitsTransitive(r, q, p);
  }
}
