/** Runs that stay inside a stretch of a list, and how to put them together. */
module Execution {
  import opened Instructions
  import opened Machine
  import opened LiveRanges
  import opened JumpsAndLabels
  import opened AsmCommands

  /** A list, the device it runs on and a stretch of its entries. */
  datatype Region = Region(prog: seq<Asm>, input: Input, lo: nat, hi: nat)

  /** The first n moments of the run are at entries of the region. */
  ghost predicate Inside(g: Region, s: State, n: nat) {
    forall i: nat :: i < n ==> g.lo <= Run(g.prog, g.input, s, i).pc < g.hi
  }

  /** n steps inside the region lead from s to t. */
  ghost predicate Path(g: Region, s: State, n: nat, t: State) {
    Run(g.prog, g.input, s, n) == t && Inside(g, s, n)
  }

  /** The code lies at pc, inside the region, in a list whose labels are all distinct. */
  ghost predicate Placed(g: Region, pc: nat, code: seq<Asm>) {
    DistinctLabels(g.prog) && Contains(g.prog, pc, code) && g.lo <= pc && pc + |code| <= g.hi
  }

  lemma PlacedParts(g: Region, pc: nat, a: seq<Asm>, b: seq<Asm>)
    requires Placed(g, pc, a + b)
    ensures Placed(g, pc, a) && Placed(g, pc + |a|, b)
  {
    hide DistinctLabels;
    ContainsParts(g.prog, pc, a, b);
  }

  lemma PlacedParts3(g: Region, pc: nat, a: seq<Asm>, b: seq<Asm>, c: seq<Asm>)
    requires Placed(g, pc, a + b + c)
    ensures Placed(g, pc, a) && Placed(g, pc + |a|, b) && Placed(g, pc + |a| + |b|, c)
  {
    hide Placed;
    PlacedParts(g, pc, a + b, c);
    PlacedParts(g, pc, a, b);
  }

  lemma PlacedParts4(g: Region, pc: nat, a: seq<Asm>, b: seq<Asm>, c: seq<Asm>, d: seq<Asm>)
    requires Placed(g, pc, a + b + c + d)
    ensures Placed(g, pc, a) && Placed(g, pc + |a|, b) && Placed(g, pc + |a| + |b|, c)
    ensures Placed(g, pc + |a| + |b| + |c|, d)
  {
    hide Placed;
    PlacedParts(g, pc, a + b + c, d);
    PlacedParts3(g, pc, a, b, c);
  }

  /** Two entries side by side. */
  lemma PlacedPair(g: Region, pc: nat, a: Asm, b: Asm)
    requires Placed(g, pc, [a, b])
    ensures Placed(g, pc, [a]) && Placed(g, pc + 1, [b])
  {
    hide Placed;
    assert [a, b] == [a] + [b];
    PlacedParts(g, pc, [a], [b]);
  }

  /** Three entries in a row. */
  lemma PlacedTriple(g: Region, pc: nat, a: Asm, b: Asm, c: Asm)
    requires Placed(g, pc, [a, b, c])
    ensures Placed(g, pc, [a]) && Placed(g, pc + 1, [b]) && Placed(g, pc + 2, [c])
  {
    hide Placed;
    assert [a, b, c] == [a] + [b] + [c];
    PlacedParts3(g, pc, [a], [b], [c]);
  }

  lemma PathNone(g: Region, s: State)
    ensures Path(g, s, 0, s)
  {
  }

  lemma InsideThen(g: Region, s: State, n: nat, t: State, m: nat)
    requires Path(g, s, n, t) && Inside(g, t, m)
    ensures Inside(g, s, n + m)
  {
    hide Step, Run;
    forall i: nat | i < n + m ensures g.lo <= Run(g.prog, g.input, s, i).pc < g.hi {
      if i >= n { RunAdd(g.prog, g.input, s, n, i - n); }
    }
  }

  lemma PathThen(g: Region, s: State, n: nat, t: State, m: nat, u: State)
    requires Path(g, s, n, t) && Path(g, t, m, u)
    ensures Path(g, s, n + m, u)
  {
    hide Step, Run;
    InsideThen(g, s, n, t, m);
    RunAdd(g.prog, g.input, s, n, m);
  }

  lemma PathStep(g: Region, s: State)
    requires g.lo <= s.pc < g.hi
    ensures Path(g, s, 1, Step(g.prog, g.input, s))
  {
    hide Step;
    RunOne(g.prog, g.input, s);
    assert forall i: nat :: i < 1 ==> Run(g.prog, g.input, s, i) == s;
  }

  // ----- Single entries -----

  lemma OneEntry(g: Region, pc: nat, e: Asm)
    requires Placed(g, pc, [e])
    ensures g.lo <= pc < g.hi && pc < |g.prog| && g.prog[pc] == e
  {
    hide DistinctLabels;
    CodeAt(g.prog, pc, [e]);
  }

  lemma SilentPath(g: Region, s: State, e: Asm)
    requires Placed(g, s.pc, [e]) && IsSilent(e.assembler.cmd)
    ensures Path(g, s, 1, s.(pc := s.pc + 1))
  {
    hide Step, Run, Inside, Placed;
    OneEntry(g, s.pc, e);
    SilentStep(g.prog, g.input, s);
    PathStep(g, s);
  }

  lemma LabelPath(g: Region, s: State, l: Label)
    requires Placed(g, s.pc, [AsmLabel(l)])
    ensures Path(g, s, 1, s.(pc := s.pc + 1)) && Target(g.prog, l) == s.pc
  {
    hide Path, Placed, Target;
    SilentPath(g, s, AsmLabel(l));
    LabelPlace(g, s.pc, l);
  }

  lemma NodePath(g: Region, s: State)
    requires Placed(g, s.pc, [NodeEntry()])
    ensures Path(g, s, 1, s.(pc := s.pc + 1))
  {
    hide Path, Placed;
    SilentPath(g, s, NodeEntry());
  }

  /** The place a label of an all-distinct list stands for. */
  lemma LabelPlace(g: Region, pc: nat, l: Label)
    requires Placed(g, pc, [AsmLabel(l)])
    ensures Target(g.prog, l) == pc
  {
    OneEntry(g, pc, AsmLabel(l));
    TargetIs(g.prog, pc, l);
  }

  lemma JumpPath(g: Region, s: State, l: Label, noOpt: bool, hirzel: bool)
    requires Placed(g, s.pc, [Br(l, noOpt, hirzel)])
    ensures Path(g, s, 1, s.(pc := Target(g.prog, l)))
  {
    hide Run, Inside, Placed;
    OneEntry(g, s.pc, Br(l, noOpt, hirzel));
    BranchStep(g.prog, g.input, s);
    PathStep(g, s);
  }

  lemma BrzPath(g: Region, s: State, r: nat, l: Label, noOpt: bool, hirzel: bool)
    requires Placed(g, s.pc, [Brz(R(r), l, noOpt, hirzel)])
    ensures Path(g, s, 1, s.(pc := if Get(s.regs, r) == 0 then Target(g.prog, l) else s.pc + 1))
  {
    hide Run, Inside, Placed;
    OneEntry(g, s.pc, Brz(R(r), l, noOpt, hirzel));
    BranchStep(g.prog, g.input, s);
    PathStep(g, s);
  }

  predicate BranchTaken(cmd: Command, v: Word) {
    if cmd.BRNZ? then v != 0 else 0 < v < 0x8000_0000
  }

  lemma BranchPath(g: Region, s: State, cmd: Command, r: nat, l: Label)
    requires Placed(g, s.pc, [Branch(cmd, R(r), l, false)]) && cmd in {BRNZ, BRGZ}
    ensures Path(g, s, 1, s.(pc := if BranchTaken(cmd, Get(s.regs, r)) then Target(g.prog, l) else s.pc + 1))
  {
    hide Run, Inside, Placed;
    OneEntry(g, s.pc, Branch(cmd, R(r), l, false));
    BranchStep(g.prog, g.input, s);
    PathStep(g, s);
  }

  /** A command that writes no register. */
  lemma CommandPath(g: Region, s: State, e: Asm)
    requires Placed(g, s.pc, [e]) && IsIo(e.assembler.cmd)
    ensures Path(g, s, 1, State(s.pc + 1, s.regs, s.trace + Emitted(e.assembler, s.regs)))
  {
    hide Run, Inside, Emitted, Alu, Placed;
    OneEntry(g, s.pc, e);
    PathStep(g, s);
  }

  lemma RegisterPath(g: Region, s: State, cmd: Command, dst: nat, src: nat) returns (t: State)
    requires GetCmdType(cmd) == 7 && !IsShift(cmd) && Placed(g, s.pc, [AluRegister(cmd, R(dst), R(src))])
    ensures Path(g, s, 1, t)
    ensures OnlySets(s, t, s.pc + 1, dst, Alu(cmd, 0, Get(s.regs, src), Get(s.regs, dst), 0, 0))
  {
    hide Step, Run, Inside, Alu, OnlySets, Placed;
    OneEntry(g, s.pc, AluRegister(cmd, R(dst), R(src)));
    t := Step(g.prog, g.input, s);
    RegisterStep(g.prog, g.input, s, cmd, dst, src);
    PathStep(g, s);
  }

  lemma SetToPath(g: Region, s: State, dst: nat, imm: int) returns (t: State)
    requires Placed(g, s.pc, [AluImmediate(ADDI, R(dst), R(0), imm)])
    ensures Path(g, s, 1, t) && OnlySets(s, t, s.pc + 1, dst, Wrap(imm))
  {
    hide Step, Run, Inside, OnlySets, Placed;
    OneEntry(g, s.pc, AluImmediate(ADDI, R(dst), R(0), imm));
    t := Step(g.prog, g.input, s);
    ImmediateStep(g.prog, g.input, s, ADDI, dst, 0, imm);
    PathStep(g, s);
  }

  /** Adding an immediate, in one instruction or two. */
  lemma AddPath(g: Region, s: State, dst: nat, src: nat, imm: int) returns (n: nat, t: State)
    requires dst > 0 && Placed(g, s.pc, AluiCode(ADDI, R(dst), R(src), imm).value)
    ensures n == |AluiCode(ADDI, R(dst), R(src), imm).value| > 0 && Path(g, s, n, t)
    ensures OnlySets(s, t, s.pc + n, dst, Wrap(Get(s.regs, src) + imm))
  {
    hide Step, Run, Wrap, Low, Upper, FitsDirectly, DistinctLabels;
    var code := AluiCode(ADDI, R(dst), R(src), imm).value;
    n := |code|;
    t := Run(g.prog, g.input, s, n);
    AluiCorrect(g.prog, g.input, s, ADDI, dst, src, imm);
    AddOperation(Get(s.regs, src), imm);
    CodeAt(g.prog, s.pc, code);
    PathStep(g, s);
    if n == 1 {
      RunOne(g.prog, g.input, s);
    } else {
      ImmediateStep(g.prog, g.input, s, ADDI, dst, src, Low(imm));
      var s1 := Step(g.prog, g.input, s);
      PathStep(g, s1);
      PathThen(g, s, 1, s1, 1, Step(g.prog, g.input, s1));
    }
  }
}
