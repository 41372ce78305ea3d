/** Printing an instruction as tokens and reading it back by operand category. */
module AsmText {
  import opened Instructions
  import opened AsmCommands

  datatype Token = Number(value: int) | Reg(number: nat) | Name(lbl: Label)

  datatype Line = LabelLine(lbl: Label) | Instr(cmd: Command, tokens: seq<Token>)

  // ----- Printing -----

  function Numbers(s: seq<int>): (t: seq<Token>)
    ensures |t| == |s| && forall i :: 0 <= i < |s| ==> t[i] == Number(s[i])
  {
    seq(|s|, i requires 0 <= i < |s| => Number(s[i]))
  }

  function RegisterTokens(r: Register): seq<Token> { if r.R? then [Reg(r.number)] else [] }

  /** regDst, regAux and regSrc, those that are set. */
  function Slots(a: Assembler): seq<Token> {
    RegisterTokens(a.regDst) + RegisterTokens(a.regAux) + RegisterTokens(a.regSrc)
  }

  function NameTokens(l: Label): seq<Token> { if l == NoLabel then [] else [Name(l)] }

  function Print(a: Assembler): Line {
    if a.cmd.LABEL? then LabelLine(a.lbl)
    else Instr(a.cmd, Numbers(a.immediates) + Slots(a) + Numbers(a.outputs) + NameTokens(a.lbl))
  }

  // ----- Reading -----

  predicate IsKind(t: Token, registers: bool) { if registers then t.Reg? else t.Number? }

  /** How many tokens from i on are of one kind. */
  function Span(tokens: seq<Token>, i: nat, registers: bool): (n: nat)
    requires i <= |tokens|
    ensures i + n <= |tokens| && forall k :: i <= k < i + n ==> IsKind(tokens[k], registers)
    ensures i + n < |tokens| ==> !IsKind(tokens[i + n], registers)
    decreases |tokens| - i
  {
    if i < |tokens| && IsKind(tokens[i], registers) then 1 + Span(tokens, i + 1, registers) else 0
  }

  predicate AllNumbers(s: seq<Token>) { forall i :: 0 <= i < |s| ==> s[i].Number? }
  predicate AllRegisters(s: seq<Token>) { forall i :: 0 <= i < |s| ==> s[i].Reg? }

  function Values(tokens: seq<Token>): (s: seq<int>)
    requires AllNumbers(tokens)
    ensures |s| == |tokens| && forall i :: 0 <= i < |s| ==> s[i] == tokens[i].value
  {
    seq(|tokens|, i requires 0 <= i < |tokens| => tokens[i].value)
  }

  /** The registers an opcode takes in its text. */
  function RegisterCount(cmd: Command): nat {
    match GetRegisterOrder(cmd)
    case 0 => 0
    case 1 => 1
    case 2 => 1
    case _ => 2
  }

  /** Registers go to the slots the opcode's order names; None when there are too few. */
  function FillSlots(a: Assembler, regs: seq<Token>): Option<Assembler>
    requires AllRegisters(regs)
  {
    if |regs| < RegisterCount(a.cmd) then None
    else
      match GetRegisterOrder(a.cmd)
      case 0 => Some(a)
      case 1 => Some(a.(regSrc := R(regs[0].number)))
      case 2 => Some(a.(regDst := R(regs[0].number)))
      case 3 => Some(a.(regAux := R(regs[0].number), regSrc := R(regs[1].number)))
      case _ => Some(a.(regDst := R(regs[0].number), regSrc := R(regs[1].number)))
  }

  function Blank(cmd: Command): Assembler { Assembler(cmd, [], Unset, Unset, Unset, [], NoLabel) }

  function LabelAt(t: seq<Token>, k: nat): Label { if k < |t| && t[k].Name? then t[k].lbl else NoLabel }

  /** Leading numbers, then registers, then numbers, then a label. */
  function Read(l: Line): Option<Assembler> {
    match l
    case LabelLine(lbl) => Some(Blank(LABEL).(lbl := lbl))
    case Instr(cmd, tokens) =>
      var i := Span(tokens, 0, false);
      var j := i + Span(tokens, i, true);
      var k := j + Span(tokens, j, false);
      var lbl := LabelAt(tokens, k);
      FillSlots(Blank(cmd).(immediates := Values(tokens[..i]), outputs := Values(tokens[j..k]), lbl := lbl), tokens[i..j])
  }

  /** One pass over the operands: those of one kind from pos on. */
  method Take(tokens: seq<Token>, pos: nat, registers: bool) returns (taken: seq<Token>, end: nat)
    requires pos <= |tokens|
    ensures end == pos + Span(tokens, pos, registers) && taken == tokens[pos..end]
  {
    taken, end := [], pos;
    while end < |tokens| && IsKind(tokens[end], registers)
      invariant pos <= end <= |tokens| && Span(tokens, pos, registers) == end - pos + Span(tokens, end, registers)
      invariant taken == tokens[pos..end]
    {
      taken := taken + [tokens[end]];
      end := end + 1;
    }
  }

  /** Reading, in three passes over the operands. */
  method ReadLine(cmd: Command, tokens: seq<Token>) returns (r: Option<Assembler>)
    ensures r == Read(Instr(cmd, tokens))
  {
    hide Span, FillSlots, Values, Blank, Read;
    var inputs, i := Take(tokens, 0, false);
    var regs, j := Take(tokens, i, true);
    var outputs, k := Take(tokens, j, false);
    assert tokens[0..i] == tokens[..i];
    NumbersThere(tokens, 0, i);
    RegistersThere(tokens, i, j);
    NumbersThere(tokens, j, k);
    var lbl := LabelAt(tokens, k);
    ReadUnfolds(cmd, tokens, i, j, k);
    r := FillSlots(Blank(cmd).(immediates := Values(inputs), outputs := Values(outputs), lbl := lbl), regs);
  }

  // ----- Both ways -----

  /** Exactly the slots of the opcode's order are set. */
  predicate SlotsMatch(a: Assembler) {
    var o := GetRegisterOrder(a.cmd);
    (a.regSrc.R? <==> o in {1, 3, 4}) && (a.regDst.R? <==> o in {2, 4}) && (a.regAux.R? <==> o == 3)
  }

  /** What the text can hold apart: without registers nothing separates the two number lists. */
  predicate Printable(a: Assembler) {
    if a.cmd.LABEL? then a == Blank(LABEL).(lbl := a.lbl)
    else SlotsMatch(a) && (GetRegisterOrder(a.cmd) == 0 ==> a.outputs == [])
  }

  lemma {:induction false} SpanIs(tokens: seq<Token>, i: nat, registers: bool, n: nat)
    requires i + n <= |tokens| && forall k :: i <= k < i + n ==> IsKind(tokens[k], registers)
    requires i + n < |tokens| ==> !IsKind(tokens[i + n], registers)
    ensures Span(tokens, i, registers) == n
    decreases n
  {
    if n > 0 { SpanIs(tokens, i + 1, registers, n - 1); }
  }

  predicate AllKind(s: seq<Token>, registers: bool) { forall i :: 0 <= i < |s| ==> IsKind(s[i], registers) }

  lemma SpanOf(front: seq<Token>, s: seq<Token>, back: seq<Token>, registers: bool)
    requires AllKind(s, registers) && (back != [] ==> !IsKind(back[0], registers))
    ensures Span(front + s + back, |front|, registers) == |s|
  {
    hide Span, IsKind;
    var t := front + s + back;
    forall k | |front| <= k < |front| + |s| ensures IsKind(t[k], registers) { assert t[k] == s[k - |front|]; }
    SpanIs(t, |front|, registers, |s|);
  }

  /** The categories of a line with registers in the middle. */
  lemma PartsOfLine(a: seq<Token>, b: seq<Token>, c: seq<Token>, d: seq<Token>)
    requires AllKind(a, false) && AllKind(b, true) && AllKind(c, false) && b != [] && (d != [] ==> d[0].Name?)
    ensures var t := a + b + c + d; var i, j, k := |a|, |a| + |b|, |a| + |b| + |c|;
      Span(t, 0, false) == i && Span(t, i, true) == j - i && Span(t, j, false) == k - j &&
      t[..i] == a && t[i..j] == b && t[j..k] == c && t[k..] == d
  {
    hide Span, AllKind;
    Sides(a, b, c, d);
    SpanOf([], a, b + c + d, false);
    SpanOf(a, b, c + d, true);
    SpanOf(a + b, c, d, false);
  }

  lemma Sides(a: seq<Token>, b: seq<Token>, c: seq<Token>, d: seq<Token>)
    requires b != [] && AllKind(b, true) && AllKind(c, false) && (d != [] ==> d[0].Name?)
    ensures [] + a + (b + c + d) == a + b + c + d && a + b + (c + d) == a + b + c + d
    ensures b + c + d != [] && (b + c + d)[0].Reg? && (c + d != [] ==> !(c + d)[0].Reg?)
    ensures var t := a + b + c + d; var i, j, k := |a|, |a| + |b|, |a| + |b| + |c|;
      t[..i] == a && t[i..j] == b && t[j..k] == c && t[k..] == d
  {
    assert (b + c + d)[0] == b[0] && (c + d != [] ==> (c + d)[0] == if c != [] then c[0] else d[0]);
  }

  lemma SlotsAreRegisters(a: Assembler)
    ensures AllKind(Slots(a), true)
  {
  }

  /** The categories of a line: i and j are where the registers begin and end, k the second numbers. */
  ghost predicate Parted(t: seq<Token>, i: nat, j: nat, k: nat, inputs: seq<int>, regs: seq<Token>, outputs: seq<int>, lbl: Label) {
    i <= j <= k <= |t| && Span(t, 0, false) == i && Span(t, i, true) == j - i && Span(t, j, false) == k - j &&
    t[..i] == Numbers(inputs) && t[i..j] == regs && t[j..k] == Numbers(outputs) && LabelAt(t, k) == lbl
  }

  /** A printed line, when some register is printed. */
  lemma PrintedParts(a: Assembler)
    requires !a.cmd.LABEL? && Slots(a) != []
    ensures var i := |a.immediates|; var j := i + |Slots(a)|;
      Parted(Print(a).tokens, i, j, j + |a.outputs|, a.immediates, Slots(a), a.outputs, a.lbl)
  {
    hide Span, Slots;
    SlotsAreRegisters(a);
    PartsOfLine(Numbers(a.immediates), Slots(a), Numbers(a.outputs), NameTokens(a.lbl));
    var t, k := Print(a).tokens, |a.immediates| + |Slots(a)| + |a.outputs|;
    assert k < |t| ==> t[k] == t[k..][0];
  }

  /** Without registers all numbers are read as immediates. */
  lemma PrintedNumbers(a: Assembler)
    requires !a.cmd.LABEL? && Slots(a) == []
    ensures var i := |a.immediates| + |a.outputs|; Parted(Print(a).tokens, i, i, i, a.immediates + a.outputs, [], [], a.lbl)
  {
    var t, i := Print(a).tokens, |a.immediates| + |a.outputs|;
    assert t == Numbers(a.immediates + a.outputs) + NameTokens(a.lbl);
    assert i < |t| ==> t[i] == NameTokens(a.lbl)[0];
    SpanIs(t, 0, false, i);
    SpanIs(t, i, true, 0);
    SpanIs(t, i, false, 0);
  }

  lemma ValuesOfNumbers(s: seq<int>)
    ensures AllKind(Numbers(s), false) && Values(Numbers(s)) == s
  {
  }

  lemma NumbersThere(t: seq<Token>, i: nat, j: nat)
    requires i <= j <= |t| && Span(t, i, false) == j - i
    ensures AllNumbers(t[i..j])
  {
    hide Span;
    forall x | 0 <= x < |t[i..j]| ensures t[i..j][x].Number? { assert IsKind(t[i + x], false); }
  }

  lemma RegistersThere(t: seq<Token>, i: nat, j: nat)
    requires i <= j <= |t| && Span(t, i, true) == j - i
    ensures AllRegisters(t[i..j])
  {
    hide Span;
    forall x | 0 <= x < |t[i..j]| ensures t[i..j][x].Reg? { assert IsKind(t[i + x], true); }
  }

  lemma ReadUnfolds(cmd: Command, t: seq<Token>, i: nat, j: nat, k: nat)
    requires i <= j <= k <= |t| && Span(t, 0, false) == i && Span(t, i, true) == j - i && Span(t, j, false) == k - j
    requires AllNumbers(t[..i]) && AllRegisters(t[i..j]) && AllNumbers(t[j..k])
    ensures Read(Instr(cmd, t)) ==
      FillSlots(Blank(cmd).(immediates := Values(t[..i]), outputs := Values(t[j..k]), lbl := LabelAt(t, k)), t[i..j])
  {
    hide Span, FillSlots, Values, Blank;
  }

  lemma ReadIs(cmd: Command, t: seq<Token>, i: nat, j: nat, k: nat, inputs: seq<int>, regs: seq<Token>, outputs: seq<int>, lbl: Label)
    requires Parted(t, i, j, k, inputs, regs, outputs, lbl)
    ensures AllRegisters(regs)
    ensures Read(Instr(cmd, t)) == FillSlots(Blank(cmd).(immediates := inputs, outputs := outputs, lbl := lbl), regs)
  {
    ValuesOfNumbers(inputs);
    ValuesOfNumbers(outputs);
    assert t[0..i] == t[..i];
    NumbersThere(t, 0, i);
    NumbersThere(t, j, k);
    RegistersThere(t, i, j);
    ReadUnfolds(cmd, t, i, j, k);
    hide Read, Span, Values, Numbers, Blank, LabelAt, FillSlots;
  }

  lemma ReadWithRegisters(a: Assembler)
    requires !a.cmd.LABEL? && Slots(a) != []
    ensures Read(Print(a)) == FillSlots(Blank(a.cmd).(immediates := a.immediates, outputs := a.outputs, lbl := a.lbl), SlotTokensOf(a))
  {
    PrintIs(a);
    PrintedParts(a);
    hide *;
    var i := |a.immediates|;
    var j := i + |Slots(a)|;
    ReadIs(a.cmd, Print(a).tokens, i, j, j + |a.outputs|, a.immediates, Slots(a), a.outputs, a.lbl);
  }

  lemma ReadWithoutRegisters(a: Assembler)
    requires !a.cmd.LABEL? && Slots(a) == []
    ensures Read(Print(a)) == FillSlots(Blank(a.cmd).(immediates := a.immediates + a.outputs, lbl := a.lbl), [])
  {
    PrintIs(a);
    PrintedNumbers(a);
    BlankOutputs(a.cmd);
    hide *;
    var i := |a.immediates| + |a.outputs|;
    ReadIs(a.cmd, Print(a).tokens, i, i, i, a.immediates + a.outputs, [], [], a.lbl);
  }

  lemma BlankOutputs(cmd: Command)
    ensures Blank(cmd).outputs == []
  {
  }

  /** What reading a printed line gives. */
  lemma ReadPrinted(a: Assembler)
    requires !a.cmd.LABEL?
    ensures Read(Print(a)) ==
      if Slots(a) != [] then FillSlots(Blank(a.cmd).(immediates := a.immediates, outputs := a.outputs, lbl := a.lbl), SlotTokensOf(a))
      else FillSlots(Blank(a.cmd).(immediates := a.immediates + a.outputs, lbl := a.lbl), [])
  {
    hide *;
    if Slots(a) != [] { ReadWithRegisters(a); } else { ReadWithoutRegisters(a); }
  }

  lemma PrintIs(a: Assembler)
    requires !a.cmd.LABEL?
    ensures Print(a) == Instr(a.cmd, Print(a).tokens)
    ensures |Print(a).tokens| >= |a.immediates| + |Slots(a)| + |a.outputs| && SlotTokensOf(a) == Slots(a)
  {
    hide Slots;
  }

  lemma NumbersSum(a: seq<int>, b: seq<int>)
    ensures Numbers(a + b) == Numbers(a) + Numbers(b)
  {
  }

  lemma NoNumbers()
    ensures Numbers([]) == []
  {
  }

  function SlotTokensOf(a: Assembler): (t: seq<Token>)
    ensures t == Slots(a) && AllRegisters(t)
  {
    SlotTokens(a);
    Slots(a)
  }

  /** Print, then read: the same instruction, exactly when its slots are those of its order and
      the numbers can be told apart. */
  lemma PrintRead(a: Assembler)
    ensures Read(Print(a)) == Some(a) <==> Printable(a)
  {
    if !a.cmd.LABEL? {
      ReadPrinted(a);
      SlotTokens(a);
      var full := Blank(a.cmd).(immediates := a.immediates, outputs := a.outputs, lbl := a.lbl);
      var plain := Blank(a.cmd).(immediates := a.immediates + a.outputs, lbl := a.lbl);
      SameSlots(a, full);
      FillKeeps(plain, []);
      PlainOrder(a);
      hide Print, Read, Slots, FillSlots, SlotsMatch;
      if Slots(a) == [] { assert a.immediates + a.outputs == a.immediates <==> a.outputs == []; }
    }
  }

  /** Filling a blank instruction from the printed registers restores the slots exactly when they
      are those of the order. */
  lemma SameSlots(a: Assembler, b: Assembler)
    requires b == a.(regSrc := Unset, regDst := Unset, regAux := Unset)
    ensures FillSlots(b, SlotTokensOf(a)) == Some(a) <==> SlotsMatch(a)
  {
    SlotTokens(a);
  }

  lemma FillKeeps(b: Assembler, regs: seq<Token>)
    requires AllRegisters(regs)
    ensures var c := FillSlots(b, regs);
      c.Some? ==> c.value.immediates == b.immediates && c.value.outputs == b.outputs && c.value.lbl == b.lbl
  {
  }

  lemma PlainOrder(a: Assembler)
    ensures SlotTokensOf(a) == [] && SlotsMatch(a) ==> GetRegisterOrder(a.cmd) == 0
    ensures SlotsMatch(a) && GetRegisterOrder(a.cmd) == 0 ==> SlotTokensOf(a) == []
  {
    SlotTokens(a);
  }

  /** The printed registers, slot by slot. */
  lemma SlotTokens(a: Assembler)
    ensures |Slots(a)| == (if a.regDst.R? then 1 else 0) + (if a.regAux.R? then 1 else 0) + (if a.regSrc.R? then 1 else 0)
    ensures AllRegisters(Slots(a))
    ensures SlotsMatch(a) ==> |Slots(a)| == RegisterCount(a.cmd)
    ensures SlotsMatch(a) && a.regSrc.R? ==> Slots(a)[|Slots(a)| - 1] == Reg(a.regSrc.number)
    ensures SlotsMatch(a) && a.regDst.R? ==> Slots(a)[0] == Reg(a.regDst.number)
    ensures SlotsMatch(a) && a.regAux.R? ==> Slots(a)[0] == Reg(a.regAux.number)
  {
  }

  /** Print, read, print: the same line for every instruction with as many registers as its
      order takes, whichever slots they stand in. */
  lemma PrintReadPrint(a: Assembler)
    requires |Slots(a)| == RegisterCount(a.cmd) || a.cmd.LABEL?
    ensures Read(Print(a)).Some? && Print(Read(Print(a)).value) == Print(a)
  {
    hide Span;
    if !a.cmd.LABEL? {
      ReadPrinted(a);
      var b := Read(Print(a)).value;
      SameTokens(a, b);
    }
  }

  lemma SlotsReadBack(a: Assembler, b: Assembler)
    requires !a.cmd.LABEL? && |Slots(a)| == RegisterCount(a.cmd)
    requires Some(b) ==
      if Slots(a) != [] then FillSlots(Blank(a.cmd).(immediates := a.immediates, outputs := a.outputs, lbl := a.lbl), Slots(a))
      else FillSlots(Blank(a.cmd).(immediates := a.immediates + a.outputs, lbl := a.lbl), [])
    ensures Slots(b) == Slots(a) && b.cmd == a.cmd && b.lbl == a.lbl
    ensures if Slots(a) != [] then b.immediates == a.immediates && b.outputs == a.outputs
            else b.immediates == a.immediates + a.outputs && b.outputs == []
  {
  }

  lemma SameTokens(a: Assembler, b: Assembler)
    requires !a.cmd.LABEL? && |Slots(a)| == RegisterCount(a.cmd)
    requires Some(b) ==
      if Slots(a) != [] then FillSlots(Blank(a.cmd).(immediates := a.immediates, outputs := a.outputs, lbl := a.lbl), Slots(a))
      else FillSlots(Blank(a.cmd).(immediates := a.immediates + a.outputs, lbl := a.lbl), [])
    ensures Print(b) == Print(a)
  {
    SlotsReadBack(a, b);
    hide FillSlots, Slots, Numbers, Blank;
    if Slots(a) == [] {
      NumbersSum(a.immediates, a.outputs);
      NoNumbers();
      assert Numbers(b.immediates) + Slots(b) + Numbers(b.outputs) == Numbers(a.immediates) + Slots(a) + Numbers(a.outputs);
    }
  }

  /** Where everything stands in the text: the immediates, the registers in the order of the opcode,
      the outputs, and the label at the end. */
  lemma TextShape(a: Assembler)
    requires !a.cmd.LABEL? && SlotsMatch(a)
    ensures var t, i := Print(a).tokens, |a.immediates|;
      var regs := OrderedRegisters(a);
      var j := i + |regs|;
      |t| == j + |a.outputs| + (if a.lbl == NoLabel then 0 else 1) &&
      t[..i] == Numbers(a.immediates) && t[i..j] == regs && t[j..j + |a.outputs|] == Numbers(a.outputs) &&
      (a.lbl != NoLabel ==> t[j + |a.outputs|] == Name(a.lbl))
  {
    PrintedTokens(a);
    SlotsInOrder(a);
    hide *;
    FourParts(Numbers(a.immediates), Slots(a), Numbers(a.outputs), NameTokens(a.lbl));
  }

  function OrderedRegisters(a: Assembler): seq<Token>
    requires SlotsMatch(a)
  {
    match GetRegisterOrder(a.cmd)
    case 0 => []
    case 1 => [Reg(a.regSrc.number)]
    case 2 => [Reg(a.regDst.number)]
    case 3 => [Reg(a.regAux.number), Reg(a.regSrc.number)]
    case _ => [Reg(a.regDst.number), Reg(a.regSrc.number)]
  }

  lemma SlotsInOrder(a: Assembler)
    requires SlotsMatch(a)
    ensures Slots(a) == OrderedRegisters(a)
  {
    hide GetRegisterOrder;
    CountOfOrder(a);
  }

  lemma PrintedTokens(a: Assembler)
    requires !a.cmd.LABEL?
    ensures Print(a).Instr? && Print(a).tokens == Numbers(a.immediates) + Slots(a) + Numbers(a.outputs) + NameTokens(a.lbl)
    ensures NameTokens(a.lbl) == if a.lbl == NoLabel then [] else [Name(a.lbl)]
    ensures |Numbers(a.immediates)| == |a.immediates| && |Numbers(a.outputs)| == |a.outputs|
  {
    hide Slots;
  }

  lemma CountOfOrder(a: Assembler)
    requires SlotsMatch(a)
    ensures 0 <= GetRegisterOrder(a.cmd) <= 4
    ensures RegisterCount(a.cmd) == if GetRegisterOrder(a.cmd) == 0 then 0 else if GetRegisterOrder(a.cmd) in {1, 2} then 1 else 2
    ensures a.regSrc.R? <==> GetRegisterOrder(a.cmd) in {1, 3, 4}
    ensures a.regDst.R? <==> GetRegisterOrder(a.cmd) in {2, 4}
    ensures a.regAux.R? <==> GetRegisterOrder(a.cmd) == 3
  {
    hide GetRegisterOrder;
  }

  lemma FourParts<T>(a: seq<T>, b: seq<T>, c: seq<T>, d: seq<T>)
    ensures var t := a + b + c + d;
      |t| == |a| + |b| + |c| + |d| && t[..|a|] == a && t[|a|..|a| + |b|] == b && t[|a| + |b|..|a| + |b| + |c|] == c &&
      (d != [] ==> t[|a| + |b| + |c|] == d[0])
  {
  }
}
