/** Removing writes that are never read, and folding a copy into the writer before it. */
module UnusedRegisters {
  import opened Instructions
  import opened Machine
  import opened Liveness
  import opened LiveRanges
  import opened Allocation
  import opened JumpsAndLabels

  // ----- The pass, one entry at a time -----

  /** What the forward scan learns about a register. */
  datatype Usage = GiveUp | Flags(read: bool, written: bool)

  function UsageFrom(prog: seq<Asm>, i: nat, reg: Register, read: bool, written: bool): Usage
    decreases |prog| - i
  {
    if i >= |prog| then Flags(read, written)
    else
      var a := prog[i].assembler;
      if a.cmd.INVALID? then UsageFrom(prog, i + 1, reg, read, written)
      else if a.regSrc == reg && IsBranch(a.cmd) then GiveUp
      else
        var read', written' := read || a.regSrc == reg, written || a.regDst == reg;
        if a.regAux == reg || (read' && written') then GiveUp
        else UsageFrom(prog, i + 1, reg, read', written')
  }

  predicate DestinationIsDst(a: Assembler) { a.regDst.R? && a.regDst != R(0) }

  function Destination(a: Assembler): Register {
    if DestinationIsDst(a) then a.regDst else a.regAux
  }

  function KillWrite(e: Asm): Asm {
    if DestinationIsDst(e.assembler)
    then e.(assembler := e.assembler.(cmd := INVALID, regDst := Unset))
    else e.(assembler := e.assembler.(cmd := INVALID, regAux := Unset))
  }

  /** A plain register copy: `ADDI x,d,0`. */
  predicate IsCopy(a: Assembler) {
    a.cmd.ADDI? && a.outputs != [] && a.outputs[0] == 0
  }

  /** Does entry i or a later one hold reg in regSrc or regAux? */
  predicate NamedFrom(prog: seq<Asm>, i: nat, reg: Register) {
    exists k :: i <= k < |prog| && (prog[k].assembler.regSrc == reg || prog[k].assembler.regAux == reg)
  }

  predicate CanFold(prog: seq<Asm>, it: nat)
    requires it < |prog|
  {
    it + 1 < |prog| && IsCopy(prog[it + 1].assembler) &&
    prog[it + 1].assembler.regSrc == prog[it].assembler.regDst &&
    !NamedFrom(prog, it + 2, prog[it].assembler.regDst)
  }

  function Fold(prog: seq<Asm>, it: nat): seq<Asm>
    requires it < |prog|
  {
    if CanFold(prog, it) then
      prog[it := prog[it].(assembler := prog[it].assembler.(regDst := prog[it + 1].assembler.regDst))]
          [it + 1 := Killed(prog[it + 1])]
    else prog
  }

  /** One turn of the pass: only the first write met of each register is examined. */
  function Visit(prog: seq<Asm>, it: nat, tracked: seq<Register>): (r: (seq<Asm>, seq<Register>))
    requires it < |prog|
    ensures |r.0| == |prog|
  {
    var a := prog[it].assembler;
    if !WritesDst(a.cmd) || Destination(a) in tracked then (prog, tracked)
    else
      var usage := UsageFrom(prog, it + 1, Destination(a), false, false);
      (if usage.GiveUp? then prog
       else if !usage.read then prog[it := KillWrite(prog[it])]
       else if !usage.written then Fold(prog, it)
       else prog,
       tracked + [Destination(a)])
  }

  function Counted(maxReg: nat, a: Assembler): nat {
    if IsBarrier(a.cmd) || HighestRegisterNumber(a) <= maxReg then maxReg else HighestRegisterNumber(a)
  }

  /** The list and the highest register number counted, from entry it on. */
  function RemoveFrom(prog: seq<Asm>, it: nat, tracked: seq<Register>, maxReg: nat, optimise: bool): (r: (seq<Asm>, nat))
    requires it <= |prog|
    ensures |r.0| == |prog|
    decreases |prog| - it
  {
    if it == |prog| then (prog, maxReg)
    else
      var counted := Counted(maxReg, prog[it].assembler);
      if optimise then
        var v := Visit(prog, it, tracked);
        RemoveFrom(v.0, it + 1, v.1, counted, optimise)
      else RemoveFrom(prog, it + 1, tracked, counted, optimise)
  }

  // ----- The same, read off the list the pass is given -----

  /** What becomes of an entry's write: not examined, kept, deleted, or joined with the copy behind it. */
  datatype Turn = Passed | Kept | Deleted | Joined

  function TurnAt(p: seq<Asm>, k: nat): (turn: Turn)
    requires k < |p|
    ensures turn.Joined? ==> CanFold(p, k)
    decreases k, 1
  {
    var a := p[k].assembler;
    if FoldedAway(p, k) || !WritesDst(a.cmd) || Destination(a) in ExaminedBefore(p, k) then Passed
    else
      var usage := UsageFrom(p, k + 1, Destination(a), false, false);
      if usage.GiveUp? then Kept
      else if !usage.read then Deleted
      else if !usage.written && CanFold(p, k) then Joined
      else Kept
  }

  /** The copy joined with the entry before it. */
  predicate FoldedAway(p: seq<Asm>, k: nat)
    requires k < |p|
    decreases k, 0
  {
    k > 0 && TurnAt(p, k - 1).Joined?
  }

  function ExaminedBefore(p: seq<Asm>, k: nat): seq<Register>
    requires k <= |p|
    decreases k, 0
  {
    if k == 0 then []
    else ExaminedBefore(p, k - 1) + (if TurnAt(p, k - 1).Passed? then [] else [Destination(p[k - 1].assembler)])
  }

  function RemovedEntry(p: seq<Asm>, k: nat): Asm
    requires k < |p|
  {
    if FoldedAway(p, k) then Killed(p[k])
    else match TurnAt(p, k)
      case Deleted => KillWrite(p[k])
      case Joined => p[k].(assembler := p[k].assembler.(regDst := p[k + 1].assembler.regDst))
      case _ => p[k]
  }

  function Removed(p: seq<Asm>): (q: seq<Asm>)
    ensures |q| == |p|
  {
    seq(|p|, k requires 0 <= k < |p| => RemovedEntry(p, k))
  }

  /** The list when the entries before it have had their turn. */
  function HalfRemoved(p: seq<Asm>, it: nat): (q: seq<Asm>)
    ensures |q| == |p|
  {
    seq(|p|, k requires 0 <= k < |p| =>
      if k < it then RemovedEntry(p, k) else if k == it && FoldedAway(p, k) then Killed(p[k]) else p[k])
  }

  lemma {:induction false} SameUsage(p: seq<Asm>, q: seq<Asm>, i: nat, reg: Register, read: bool, written: bool)
    requires |p| == |q| && forall k :: i <= k < |p| ==> p[k] == q[k]
    ensures UsageFrom(p, i, reg, read, written) == UsageFrom(q, i, reg, read, written)
    decreases |p| - i
  {
    if i < |p| {
      var a := p[i].assembler;
      SameUsage(p, q, i + 1, reg, read, written);
      SameUsage(p, q, i + 1, reg, read || a.regSrc == reg, written || a.regDst == reg);
    }
  }

  lemma SameFold(p: seq<Asm>, q: seq<Asm>, it: nat)
    requires it < |p| == |q| && forall k :: it <= k < |p| ==> p[k] == q[k]
    ensures CanFold(p, it) == CanFold(q, it)
  {
  }

  lemma HalfNext(p: seq<Asm>, it: nat)
    requires it < |p|
    ensures var cur := HalfRemoved(p, it);
      var one := cur[it := RemovedEntry(p, it)];
      HalfRemoved(p, it + 1) == if TurnAt(p, it).Joined? then one[it + 1 := Killed(p[it + 1])] else one
    ensures HalfRemoved(p, it)[it] == if FoldedAway(p, it) then Killed(p[it]) else p[it]
    ensures FoldedAway(p, it) ==> TurnAt(p, it).Passed?
  {
    hide CanFold, Killed, RemovedEntry;
    if it + 1 < |p| { assert FoldedAway(p, it + 1) == TurnAt(p, it).Joined?; }
  }

  /** One turn of the pass does what was read off. */
  lemma VisitIsTurn(p: seq<Asm>, it: nat)
    requires it < |p|
    ensures Visit(HalfRemoved(p, it), it, ExaminedBefore(p, it)) == (HalfRemoved(p, it + 1), ExaminedBefore(p, it + 1))
  {
    hide UsageFrom, NamedFrom, Destination, IsCopy, KillWrite, HalfRemoved;
    var cur := HalfRemoved(p, it);
    HalfNext(p, it);
    assert ExaminedBefore(p, it) + [] == ExaminedBefore(p, it);
    if !FoldedAway(p, it) {
      assert forall k :: it <= k < |p| ==> cur[k] == p[k] by { HalfAhead(p, it); }
      SameUsage(p, cur, it + 1, Destination(p[it].assembler), false, false);
      SameFold(p, cur, it);
      assert cur[it := p[it]] == cur;
      if TurnAt(p, it).Joined? { assert Fold(cur, it) == HalfRemoved(p, it + 1); }
    } else {
      assert cur[it := Killed(p[it])] == cur;
    }
  }

  lemma HalfAhead(p: seq<Asm>, it: nat)
    requires it < |p| && !FoldedAway(p, it)
    ensures forall k :: it <= k < |p| ==> HalfRemoved(p, it)[k] == p[k]
  {
  }

  lemma {:induction false} RemovedSoFar(p: seq<Asm>, it: nat, maxReg: nat)
    requires it <= |p|
    ensures RemoveFrom(HalfRemoved(p, it), it, ExaminedBefore(p, it), maxReg, true).0 == Removed(p)
    decreases |p| - it
  {
    hide Visit, ExaminedBefore, RemovedEntry, FoldedAway;
    if it < |p| {
      VisitIsTurn(p, it);
      RemovedSoFar(p, it + 1, Counted(maxReg, HalfRemoved(p, it)[it].assembler));
    }
  }

  lemma NothingRemovedYet(p: seq<Asm>)
    ensures HalfRemoved(p, 0) == p && ExaminedBefore(p, 0) == []
  {
  }

  /** The pass leaves exactly the list read off. */
  lemma RemovedIs(p: seq<Asm>)
    ensures RemoveFrom(p, 0, [], 0, true).0 == Removed(p)
  {
    NothingRemovedYet(p);
    RemovedSoFar(p, 0, 0);
  }

  // ----- The register count -----

  /** The count covers every register of the instructions it met, and no more than those. */
  lemma {:induction false} CountCovers(p: seq<Asm>, it: nat, maxReg: nat, k: nat)
    requires it <= |p|
    ensures var c := RemoveFrom(HalfRemoved(p, it), it, ExaminedBefore(p, it), maxReg, true).1;
      maxReg <= c &&
      (it <= k < |p| && !FoldedAway(p, k) && !IsBarrier(p[k].assembler.cmd) ==> HighestRegisterNumber(p[k].assembler) <= c)
    decreases |p| - it
  {
    hide Visit, ExaminedBefore, RemovedEntry, FoldedAway, IsBarrier, HighestRegisterNumber;
    if it < |p| {
      VisitIsTurn(p, it);
      HalfNext(p, it);
      CountCovers(p, it + 1, Counted(maxReg, HalfRemoved(p, it)[it].assembler), k);
    }
  }

  lemma {:induction false} CountCoversAll(p: seq<Asm>, it: nat, maxReg: nat, k: nat)
    requires it <= |p|
    ensures var c := RemoveFrom(p, it, [], maxReg, false).1;
      maxReg <= c && (it <= k < |p| && !IsBarrier(p[k].assembler.cmd) ==> HighestRegisterNumber(p[k].assembler) <= c)
    decreases |p| - it
  {
    hide IsBarrier, HighestRegisterNumber;
    if it < |p| { CountCoversAll(p, it + 1, Counted(maxReg, p[it].assembler), k); }
  }

  /** Every register a performed fold moves up is at most the count. */
  ghost predicate FoldsCounted(p: seq<Asm>, count: nat) {
    forall k: nat, r: nat :: MovedUp(p, k, r) ==> r <= count
  }

  /** What such a fold moves up past the count lies below a limit. */
  ghost predicate MissedFoldsBelow(p: seq<Asm>, count: nat, limit: nat) {
    forall k: nat, r: nat :: MovedUp(p, k, r) && r > count ==> r < limit
  }

  /** The copy behind entry k is folded into it, and r is the register the copy sets. */
  predicate MovedUp(p: seq<Asm>, k: nat, r: nat) {
    k < |p| && TurnAt(p, k).Joined? && p[k + 1].assembler.regDst == R(r)
  }

  lemma RemovedMentions(p: seq<Asm>, k: nat, r: nat)
    requires k < |p|
    ensures MentionedAt(Removed(p), r, k) ==>
      MovedUp(p, k, r) || (r in Mentions(p[k].assembler) && !FoldedAway(p, k) && !IsBarrier(p[k].assembler.cmd))
    ensures MovedUp(p, k, r) && r > 0 ==> MentionedAt(Removed(p), r, k)
  {
    hide CanFold, UsageFrom, Destination;
    assert Removed(p)[k] == RemovedEntry(p, k);
  }

  /** The returned count bounds the returned list, or what it misses lies below a limit, exactly
      when that holds of the registers moved up. */
  lemma CountBoundsIff(p: seq<Asm>, limit: nat)
    ensures var r := RemoveFrom(p, 0, [], 0, true);
      (BoundsRegisters(r.0, r.1) <==> FoldsCounted(p, r.1)) && (MissedBelow(r.0, r.1, limit) <==> MissedFoldsBelow(p, r.1, limit))
    ensures var r := RemoveFrom(p, 0, [], 0, false); BoundsRegisters(r.0, r.1)
  {
    hide RemoveFrom, Removed, FoldedAway, TurnAt, HighestRegisterNumber;
    RemovedIs(p);
    NothingRemovedYet(p);
    var q, c := Removed(p), RemoveFrom(p, 0, [], 0, true).1;
    forall k: nat, r: nat | k < |p|
      ensures MentionedAt(q, r, k) ==> MovedUp(p, k, r) || r <= c
      ensures MovedUp(p, k, r) && r > 0 ==> MentionedAt(q, r, k)
    {
      RemovedMentions(p, k, r);
      CountCovers(p, 0, 0, k);
    }
    if BoundsRegisters(q, c) { forall k: nat, r: nat | MovedUp(p, k, r) && r > 0 ensures r <= c { assert MentionedAt(q, r, k); } }
    if MissedBelow(q, c, limit) { forall k: nat, r: nat | MovedUp(p, k, r) && r > c ensures r < limit { assert MentionedAt(q, r, k); } }
    NothingRemoved(p, 0, [], 0);
    forall k: nat, r: nat | k < |p| && MentionedAt(p, r, k) ensures r <= RemoveFrom(p, 0, [], 0, false).1 {
      CountCoversAll(p, 0, 0, k);
    }
  }

  lemma {:induction false} NothingRemoved(prog: seq<Asm>, it: nat, tracked: seq<Register>, maxReg: nat)
    requires it <= |prog|
    ensures RemoveFrom(prog, it, tracked, maxReg, false).0 == prog
    decreases |prog| - it
  {
    if it < |prog| { NothingRemoved(prog, it + 1, tracked, Counted(maxReg, prog[it].assembler)); }
  }

  // ----- What the lists must look like -----

  /** Slots as the instruction builders fill them. */
  predicate WellFormedEntry(a: Assembler) {
    var t := GetCmdType(a.cmd);
    !IsShift(a.cmd) &&
    (t == 2 || t == 3 ==> a.regDst.R? && a.regAux == Unset) &&
    (t == 3 || t == 7 ==> a.regSrc.R?) &&
    (t == 7 ==> a.regDst == Unset && a.regAux.R?)
  }

  ghost predicate WellFormed(prog: seq<Asm>) {
    forall i :: 0 <= i < |prog| ==> WellFormedEntry(prog[i].assembler)
  }

  predicate WritesAt(prog: seq<Asm>, r: nat, i: nat) {
    i < |prog| && r in Writes(prog[i].assembler)
  }

  predicate ReadsAt(prog: seq<Asm>, r: nat, i: nat) {
    i < |prog| && r in Reads(prog[i].assembler)
  }

  /** The pass takes away entry k's write of r. */
  predicate Removes(p: seq<Asm>, k: nat, r: nat) {
    WritesAt(p, r, k) && (TurnAt(p, k).Deleted? || TurnAt(p, k).Joined?)
  }

  /** The first entry behind the write, and behind the copy joined with it. */
  function Behind(p: seq<Asm>, k: nat): nat
    requires k < |p|
  {
    if TurnAt(p, k).Joined? then k + 2 else k + 1
  }

  /** No path from a write taken away leads to a read of its register before another write:
      the registers are never subsequently read. */
  ghost predicate OnlyUnneeded(p: seq<Asm>) {
    forall k: nat, r: nat :: Removes(p, k, r) && Reachable(p, k) ==> !Needed(p, r, Behind(p, k))
  }

  // ----- What the forward scan tells -----

  lemma {:induction false} ScanFacts(prog: seq<Asm>, i: nat, reg: Register, read: bool, written: bool)
    requires UsageFrom(prog, i, reg, read, written).Flags?
    ensures var u := UsageFrom(prog, i, reg, read, written);
      (read ==> u.read) && (written ==> u.written) &&
      forall k :: i <= k < |prog| && !prog[k].assembler.cmd.INVALID? ==> UsedAsFlagged(prog[k].assembler, reg, u)
    decreases |prog| - i
  {
    if i < |prog| {
      var a := prog[i].assembler;
      if a.cmd.INVALID? {
        ScanFacts(prog, i + 1, reg, read, written);
      } else {
        ScanFacts(prog, i + 1, reg, read || a.regSrc == reg, written || a.regDst == reg);
      }
    }
  }

  predicate UsedAsFlagged(a: Assembler, reg: Register, u: Usage)
    requires u.Flags?
  {
    a.regAux != reg && (IsBranch(a.cmd) ==> a.regSrc != reg) &&
    (!u.read ==> a.regSrc != reg) && (!u.written ==> a.regDst != reg)
  }

  lemma WritesOnlyDestination(a: Assembler)
    requires WellFormedEntry(a)
    ensures WritesDst(a.cmd) ==> Writes(a) == Storage(Destination(a))
    ensures !WritesDst(a.cmd) ==> Writes(a) == {}
  {
  }

  lemma NotNamedNotRead(a: Assembler, d: nat)
    requires !IsShift(a.cmd)
    requires d == 0 || a.cmd.INVALID? || (a.regSrc != R(d) && a.regAux != R(d))
    ensures d !in Reads(a)
  {
  }

  /** Behind a deleted write its register is not read. */
  lemma UnreadBehindDeleted(p: seq<Asm>, k: nat, r: nat, j: nat)
    requires WellFormed(p) && Removes(p, k, r) && TurnAt(p, k).Deleted? && k < j < |p|
    ensures !ReadsAt(p, r, j)
  {
    hide UsageFrom, CanFold, UsedAsFlagged, Reads;
    var a, b := p[k].assembler, p[j].assembler;
    WritesOnlyDestination(a);
    assert Destination(a) == R(r) && r > 0;
    ScanFacts(p, k + 1, R(r), false, false);
    assert b.cmd.INVALID? || UsedAsFlagged(b, R(r), UsageFrom(p, k + 1, R(r), false, false));
    assert b.cmd.INVALID? || (b.regSrc != R(r) && b.regAux != R(r)) by { hide *; FlaggedUnread(b, R(r), UsageFrom(p, k + 1, R(r), false, false)); }
    assert WellFormedEntry(b);
    NotNamedNotRead(b, r);
  }

  lemma FlaggedUnread(a: Assembler, reg: Register, u: Usage)
    ensures u.Flags? && !u.read && UsedAsFlagged(a, reg, u) ==> a.regSrc != reg && a.regAux != reg
  {
  }

  /** What a performed fold looks like: entry k sets a register, the next one copies it. */
  ghost predicate Foldable(p: seq<Asm>, k: nat, d: nat) {
    k + 1 < |p| && d > 0 && p[k].assembler.regDst == R(d) && Writes(p[k].assembler) == {d} &&
    GetCmdType(p[k].assembler.cmd) in {2, 3} &&
    IsCopy(p[k + 1].assembler) && p[k + 1].assembler.regSrc == R(d) &&
    p[k + 1].assembler.regDst.R? && p[k + 1].assembler.regDst != R(d) &&
    forall j: nat :: j >= k + 2 ==> !ReadsAt(p, d, j)
  }

  lemma JoinedIsFoldable(p: seq<Asm>, k: nat) returns (d: nat)
    requires WellFormed(p) && k < |p| && TurnAt(p, k).Joined?
    ensures Foldable(p, k, d)
  {
    hide UsageFrom;
    var a, next := p[k].assembler, p[k + 1].assembler;
    ScanFacts(p, k + 1, Destination(a), false, false);
    assert UsedAsFlagged(next, Destination(a), Flags(true, false));
    assert WellFormedEntry(a) && WellFormedEntry(next);
    assert DestinationIsDst(a);
    d := a.regDst.number;
    WritesOnlyDestination(a);
    forall j: nat | k + 2 <= j < |p| ensures !ReadsAt(p, d, j) {
      NotNamedNotRead(p[j].assembler, d);
    }
  }

  // ----- Both lists in lockstep -----

  predicate AtFoldedCopy(p: seq<Asm>, i: nat) { i < |p| && FoldedAway(p, i) }

  /** Same place, same commands, and every register still needed the same; at a copy folded away
      the copy's register already holds what its source holds in the original. */
  ghost predicate RemovalAlike(p: seq<Asm>, s: State, t: State) {
    s.pc == t.pc && s.trace == t.trace && Reachable(p, s.pc) &&
    (forall r: nat :: Needed(p, r, s.pc) && !(AtFoldedCopy(p, s.pc) && p[s.pc].assembler.regSrc == R(r)) ==>
       Get(s.regs, r) == Get(t.regs, r)) &&
    (AtFoldedCopy(p, s.pc) ==> forall x: nat :: x > 0 && p[s.pc].assembler.regDst == R(x) ==>
       Get(t.regs, x) == Value(s.regs, p[s.pc].assembler.regSrc))
  }

  lemma AlikeOperands(a: Assembler, s: State, t: State)
    requires forall r :: r in Reads(a) ==> Get(s.regs, r) == Get(t.regs, r)
    ensures SameOperands(a, s.regs, a, t.regs)
  {
    assert forall reg: Register :: Storage(reg) <= Reads(a) ==> Value(s.regs, reg) == Value(t.regs, reg) by {
      forall reg: Register | Storage(reg) <= Reads(a) ensures Value(s.regs, reg) == Value(t.regs, reg) {
        if reg.R? && reg.number > 0 { assert reg.number in Storage(reg); }
      }
    }
  }

  lemma RemovedTargets(p: seq<Asm>, l: Label)
    ensures Target(p, l) == Target(Removed(p), l)
  {
    hide UsageFrom, CanFold, ExaminedBefore, FoldedAway;
    forall i | 0 <= i < |p| ensures Defines(p, i, l) == Defines(Removed(p), i, l) {
      assert Removed(p)[i] == RemovedEntry(p, i);
      if FoldedAway(p, i) { FoldedIsCopy(p, i); }
    }
    SameTargets(p, Removed(p), l);
  }

  lemma FoldedIsCopy(p: seq<Asm>, i: nat)
    requires i < |p| && FoldedAway(p, i)
    ensures IsCopy(p[i].assembler) && !p[i].assembler.cmd.LABEL? && TurnAt(p, i).Passed?
  {
    hide UsageFrom;
  }

  /** A copy folded away is reached from the entry before it only. */
  lemma CopyEnteredFromAbove(p: seq<Asm>, s: State)
    requires s.pc < |p| && AtFoldedCopy(p, NextPc(p, s))
    ensures NextPc(p, s) == s.pc + 1 && TurnAt(p, s.pc).Joined?
  {
    hide TurnAt, UsageFrom;
    FoldedIsCopy(p, NextPc(p, s));
  }

  /** The operands of an entry that is no folded copy are the same in both lists. */
  lemma KeptOperands(p: seq<Asm>, s: State, t: State)
    requires s.pc < |p| && RemovalAlike(p, s, t) && !AtFoldedCopy(p, s.pc)
    ensures SameOperands(p[s.pc].assembler, s.regs, p[s.pc].assembler, t.regs)
  {
    hide Value, Reads, SameOperands;
    var a := p[s.pc].assembler;
    forall r | r in Reads(a) ensures Get(s.regs, r) == Get(t.regs, r) {
      NeededWhereRead(p, r, s.pc);
    }
    AlikeOperands(a, s, t);
  }

  /** An entry that stays. */
  lemma KeptStep(p: seq<Asm>, input: Input, s: State, t: State)
    requires s.pc < |p| && RemovalAlike(p, s, t) && !AtFoldedCopy(p, s.pc) && Removed(p)[s.pc] == p[s.pc]
    requires !TurnAt(p, s.pc).Joined?
    ensures RemovalAlike(p, Step(p, input, s), Step(Removed(p), input, t))
  {
    hide Alu, Reads, Writes, Value, TurnAt, AtFoldedCopy, Removed, Needed, Reachable;
    var a := p[s.pc].assembler;
    KeptOperands(p, s, t);
    SameOperandsSameResult(a, s, a, t, input);
    RemovedTargets(p, a.lbl);
    assert Taken(a, s.regs) == Taken(a, t.regs) && Emitted(a, s.regs) == Emitted(a, t.regs);
    var v, w := Result(a, s, input), Result(a, t, input);
    hide Taken, Emitted, Result;
    NextPcIsSuccessor(p, s);
    ReachableNext(p, s.pc, NextPc(p, s));
    if AtFoldedCopy(p, NextPc(p, s)) { CopyEnteredFromAbove(p, s); }
    forall r: nat | Needed(p, r, NextPc(p, s))
      ensures Get(WriteBack(s.regs, a, v), r) == Get(WriteBack(t.regs, a, w), r)
    {
      GetAfterWriteBack(s.regs, a, v, r);
      GetAfterWriteBack(t.regs, a, w, r);
      if r !in Writes(a) { NeededBefore(p, r, s.pc, NextPc(p, s)); }
    }
  }

  /** An instruction that only sets registers goes on and sends nothing. */
  lemma WriterStep(p: seq<Asm>, input: Input, s: State)
    requires s.pc < |p| && WritesDst(p[s.pc].assembler.cmd)
    ensures Step(p, input, s) == State(s.pc + 1, WriteBack(s.regs, p[s.pc].assembler, Result(p[s.pc].assembler, s, input)), s.trace)
    ensures Successors(p, s.pc) == {s.pc + 1}
  {
    hide Result, WriteBack;
  }

  lemma TurnWrites(p: seq<Asm>, k: nat)
    requires k < |p|
    ensures !TurnAt(p, k).Passed? ==> WritesDst(p[k].assembler.cmd) && !FoldedAway(p, k)
    ensures TurnAt(p, k).Deleted? ==> Removed(p)[k] == KillWrite(p[k])
    ensures TurnAt(p, k).Joined? ==> AtFoldedCopy(p, k + 1) && Removed(p)[k] == p[k].(assembler := p[k].assembler.(regDst := p[k + 1].assembler.regDst))
    ensures !TurnAt(p, k).Joined? ==> !AtFoldedCopy(p, k + 1)
    ensures AtFoldedCopy(p, k) ==> Removed(p)[k] == Killed(p[k])
    ensures !AtFoldedCopy(p, k) && (TurnAt(p, k).Passed? || TurnAt(p, k).Kept?) ==> Removed(p)[k] == p[k]
  {
    hide UsageFrom, KillWrite, ExaminedBefore;
    assert Removed(p)[k] == RemovedEntry(p, k);
  }

  /** A write that is deleted. */
  lemma DeletedStep(p: seq<Asm>, input: Input, s: State, t: State)
    requires OnlyUnneeded(p) && s.pc < |p| && RemovalAlike(p, s, t) && TurnAt(p, s.pc).Deleted?
    ensures RemovalAlike(p, Step(p, input, s), Step(Removed(p), input, t))
  {
    hide Result, Value, TurnAt, AtFoldedCopy, Removed, Needed, Reachable, WriteBack, Writes;
    var a := p[s.pc].assembler;
    TurnWrites(p, s.pc);
    WriterStep(p, input, s);
    SilentStep(Removed(p), input, t);
    ReachableNext(p, s.pc, s.pc + 1);
    hide Step, Successors, KillWrite;
    assert !AtFoldedCopy(p, s.pc) by { hide *; NotAtCopy(p, s.pc); }
    forall r: nat | Needed(p, r, s.pc + 1)
      ensures Get(Step(p, input, s).regs, r) == Get(t.regs, r)
    {
      GetAfterWriteBack(s.regs, a, Result(a, s, input), r);
      assert !Removes(p, s.pc, r);
      NeededBefore(p, r, s.pc, s.pc + 1);
    }
  }

  lemma NotAtCopy(p: seq<Asm>, k: nat)
    requires k < |p| && !TurnAt(p, k).Passed?
    ensures !AtFoldedCopy(p, k)
  {
    hide UsageFrom;
  }

  lemma OverwrittenNotNeeded(p: seq<Asm>, r: nat, i: nat)
    requires i < |p| && r in Writes(p[i].assembler) && r !in Reads(p[i].assembler)
    ensures !Needed(p, r, i)
  {
  }

  /** The same instruction into another register. */
  lemma JoinedResult(a: Assembler, b: Assembler, s: State, t: State, input: Input, d: nat, x: nat)
    requires SameOperands(a, s.regs, a, t.regs) && s.trace == t.trace
    requires GetCmdType(a.cmd) in {2, 3} && a.regDst == R(d) && Writes(a) == {d} && b == a.(regDst := R(x))
    ensures var v := Result(a, s, input);
      Result(b, t, input) == v &&
      forall r: nat :: Get(WriteBack(s.regs, a, v), r) == (if r == d then v else Get(s.regs, r)) &&
                       Get(WriteBack(t.regs, b, v), r) == (if r == x && x > 0 then v else Get(t.regs, r))
  {
    hide Alu, Value;
    SameOperandsSameResult(a, s, b, t, input);
    var v := Result(a, s, input);
    assert Writes(b) == Storage(R(x));
    forall r: nat
      ensures Get(WriteBack(s.regs, a, v), r) == (if r == d then v else Get(s.regs, r))
      ensures Get(WriteBack(t.regs, b, v), r) == (if r == x && x > 0 then v else Get(t.regs, r))
    {
      GetAfterWriteBack(s.regs, a, v, r);
      GetAfterWriteBack(t.regs, b, v, r);
    }
  }

  lemma CopyFacts(a: Assembler, d: nat)
    requires IsCopy(a) && a.regSrc == R(d) && a.regDst.R?
    ensures WritesDst(a.cmd) && Reads(a) == Storage(R(d))
    ensures Writes(a) == Storage(a.regDst) && (forall s: State, input: Input :: Result(a, s, input) == Value(s.regs, R(d)))
  {
    hide Value;
  }

  /** The entry a copy is joined with. */
  lemma JoinedStep(p: seq<Asm>, input: Input, s: State, t: State)
    requires WellFormed(p) && s.pc < |p| && RemovalAlike(p, s, t) && TurnAt(p, s.pc).Joined?
    ensures RemovalAlike(p, Step(p, input, s), Step(Removed(p), input, t))
  {
    hide Result, TurnAt, AtFoldedCopy, Removed, Needed, Reachable, WriteBack, Writes, Reads, WellFormed, SameOperands, Successors;
    var a, b := p[s.pc].assembler, Removed(p)[s.pc].assembler;
    var d := JoinedIsFoldable(p, s.pc);
    var next := p[s.pc + 1].assembler;
    var x := next.regDst.number;
    TurnWrites(p, s.pc);
    NotAtCopy(p, s.pc);
    KeptOperands(p, s, t);
    WriterStep(p, input, s);
    WriterStep(Removed(p), input, t);
    ReachableNext(p, s.pc, s.pc + 1);
    JoinedResult(a, b, s, t, input, d, x);
    CopyFacts(next, d);
    hide Step, IsCopy;
    forall r: nat | Needed(p, r, s.pc + 1) && r != d ensures Get(Step(p, input, s).regs, r) == Get(Step(Removed(p), input, t).regs, r) {
      if r == x && x > 0 {
        OverwrittenNotNeeded(p, r, s.pc + 1);
      } else {
        NeededBefore(p, r, s.pc, s.pc + 1);
      }
    }
  }

  lemma CopyReachedFromAbove(p: seq<Asm>, k: nat)
    requires AtFoldedCopy(p, k) && Reachable(p, k)
    ensures k > 0 && Reachable(p, k - 1)
  {
    hide TurnAt;
    FoldedIsCopy(p, k);
    var n: nat :| ReachableIn(p, k, n);
    var j :| 0 <= j < |p| && ReachableIn(p, j, n - 1) && k in Successors(p, j);
    assert j == k - 1;
  }

  /** The copy folded away. */
  lemma CopyStep(p: seq<Asm>, input: Input, s: State, t: State)
    requires WellFormed(p) && OnlyUnneeded(p) && RemovalAlike(p, s, t) && AtFoldedCopy(p, s.pc)
    ensures RemovalAlike(p, Step(p, input, s), Step(Removed(p), input, t))
  {
    hide Result, Removed, Needed, Reachable, WriteBack, Writes, Reads, WellFormed, CanFold, UsageFrom, Value, ReachableIn;
    var k, a := s.pc - 1, p[s.pc].assembler;
    FoldedIsCopy(p, s.pc);
    TurnWrites(p, s.pc);
    assert TurnAt(p, k).Joined?;
    var d := JoinedIsFoldable(p, k);
    CopyFacts(a, d);
    CopyReachedFromAbove(p, s.pc);
    assert Removes(p, k, d) && Behind(p, k) == s.pc + 1;
    hide TurnAt, AtFoldedCopy, FoldedAway, IsCopy;
    WriterStep(p, input, s);
    SilentStep(Removed(p), input, t);
    ReachableNext(p, s.pc, s.pc + 1);
    hide Step, Successors;
    forall r: nat | Needed(p, r, s.pc + 1) ensures Get(Step(p, input, s).regs, r) == Get(t.regs, r) {
      GetAfterWriteBack(s.regs, a, Result(a, s, input), r);
      if a.regDst != R(r) || r == 0 { CopyPassedBy(p, s.pc, r); }
    }
  }

  lemma CopyPassedBy(p: seq<Asm>, k: nat, r: nat)
    requires k < |p| && Successors(p, k) == {k + 1} && Needed(p, r, k + 1) && r !in Writes(p[k].assembler)
    ensures Needed(p, r, k)
  {
    NeededBefore(p, r, k, k + 1);
  }

  /** One step of both lists. */
  lemma RemovalStep(p: seq<Asm>, input: Input, s: State, t: State)
    requires WellFormed(p) && OnlyUnneeded(p) && RemovalAlike(p, s, t)
    ensures RemovalAlike(p, Step(p, input, s), Step(Removed(p), input, t))
  {
    hide OnlyUnneeded, WellFormed, RemovalAlike, TurnAt, AtFoldedCopy, RemovedEntry;
    assert s.pc == t.pc by { SamePlace(p, s, t); }
    if s.pc >= |p| {
      assert Step(p, input, s) == s && Step(Removed(p), input, t) == t;
    } else {
      hide Step, Removed;
      TurnWrites(p, s.pc);
      if AtFoldedCopy(p, s.pc) {
        CopyStep(p, input, s, t);
      } else {
        match TurnAt(p, s.pc)
        case Deleted => DeletedStep(p, input, s, t);
        case Joined => JoinedStep(p, input, s, t);
        case _ => KeptStep(p, input, s, t);
      }
    }
  }

  lemma SamePlace(p: seq<Asm>, s: State, t: State)
    requires RemovalAlike(p, s, t)
    ensures s.pc == t.pc && s.trace == t.trace
  {
  }

  lemma {:induction false} RemovalRun(p: seq<Asm>, input: Input, s: State, t: State, n: nat)
    requires WellFormed(p) && OnlyUnneeded(p) && RemovalAlike(p, s, t)
    ensures RemovalAlike(p, Run(p, input, s, n), Run(Removed(p), input, t, n))
    decreases n
  {
    hide WellFormed, OnlyUnneeded, RemovalAlike, Step, Removed;
    if n > 0 {
      RemovalStep(p, input, s, t);
      RemovalRun(p, input, Step(p, input, s), Step(Removed(p), input, t), n - 1);
    }
  }

  /** Main result: when no register is read behind a write of it that the pass takes away, on any
      path, before it is written again, every step of every run is at the same entry with the same
      commands sent, and every register still needed has the same value. */
  lemma RemoveUnusedPreserves(p: seq<Asm>)
    requires WellFormed(p) && OnlyUnneeded(p)
    ensures Preserves(p, RemoveFrom(p, 0, [], 0, true).0)
    ensures forall input: Input, regs: Registers, n: nat ::
      RemovalAlike(p, Run(p, input, Entry(regs), n), Run(RemoveFrom(p, 0, [], 0, true).0, input, Entry(regs), n))
  {
    hide RemoveFrom, WellFormed, OnlyUnneeded, Run, Needed, Removed, RemovalAlike;
    RemovedIs(p);
    var q := Removed(p);
    assert |q| == |p|;
    forall input: Input, regs: Registers, n: nat
      ensures RemovalAlike(p, Run(p, input, Entry(regs), n), Run(q, input, Entry(regs), n)) && Follows(p, q, input, regs, n)
    {
      EntryAlike(p, regs);
      RemovalRun(p, input, Entry(regs), Entry(regs), n);
      SamePlace(p, Run(p, input, Entry(regs), n), Run(q, input, Entry(regs), n));
      assert SameView(p, Run(p, input, Entry(regs), n), q, Run(q, input, Entry(regs), n));
    }
  }

  lemma EntryAlike(p: seq<Asm>, regs: Registers)
    ensures RemovalAlike(p, Entry(regs), Entry(regs))
  {
    EntryReachable(p);
    assert !AtFoldedCopy(p, 0);
  }

  // ----- When nothing needed is taken away -----

  /** A path of at most n entries from i to j on which r is not written. */
  ghost predicate CarriesIn(p: seq<Asm>, r: nat, i: nat, j: nat, n: nat)
    decreases n
  {
    i == j || (n > 0 && i < |p| && r !in Writes(p[i].assembler) &&
               exists k :: k in Successors(p, i) && CarriesIn(p, r, k, j, n - 1))
  }

  ghost predicate Carries(p: seq<Asm>, r: nat, i: nat, j: nat) { exists n: nat :: CarriesIn(p, r, i, j, n) }

  lemma {:induction false} CarriesOn(p: seq<Asm>, r: nat, i: nat, j: nat, k: nat, n: nat)
    requires CarriesIn(p, r, i, j, n) && j < |p| && r !in Writes(p[j].assembler) && k in Successors(p, j)
    ensures CarriesIn(p, r, i, k, n + 1)
    decreases n
  {
    hide Writes, Successors;
    if i == j {
      assert CarriesIn(p, r, k, k, n);
    } else {
      var l :| l in Successors(p, i) && CarriesIn(p, r, l, j, n - 1);
      CarriesOn(p, r, l, j, k, n - 1);
    }
  }

  lemma {:induction false} NeededAlong(p: seq<Asm>, r: nat, i: nat, j: nat, n: nat)
    requires CarriesIn(p, r, i, j, n) && Needed(p, r, j)
    ensures Needed(p, r, i)
    decreases n
  {
    hide Writes, Successors, Needed;
    if i != j {
      var l :| l in Successors(p, i) && CarriesIn(p, r, l, j, n - 1);
      NeededAlong(p, r, l, j, n - 1);
      NeededBefore(p, r, i, l);
    }
  }

  /** The write of r at entry k is taken away, its value can get to the backward jump at s, and
      the jump leads to entry t, above where the write stood. */
  ghost predicate JumpsBackFrom(p: seq<Asm>, k: nat, r: nat, s: nat, t: nat) {
    Removes(p, k, r) && Reachable(p, k) && t < Behind(p, k) <= s && BackEdge(p, s, t) && Carries(p, r, Behind(p, k), s)
  }

  lemma UnreadBehind(p: seq<Asm>, k: nat, r: nat, j: nat)
    requires WellFormed(p) && Removes(p, k, r) && j >= Behind(p, k)
    ensures !ReadsAt(p, r, j)
  {
    hide UsageFrom, CanFold, ReadsAt;
    if TurnAt(p, k).Joined? {
      var d := JoinedIsFoldable(p, k);
    } else if j < |p| {
      UnreadBehindDeleted(p, k, r, j);
    } else {
      assert !ReadsAt(p, r, j) by { NoEntry(p, r, j); }
    }
  }

  lemma NoEntry(p: seq<Asm>, r: nat, j: nat)
    requires j >= |p|
    ensures !ReadsAt(p, r, j)
  {
  }

  /** From behind a write taken away only a backward jump leads to a read of its register. */
  lemma {:induction false} NeededThroughJump(p: seq<Asm>, k: nat, r: nat, i: nat, m: nat, n: nat) returns (s: nat, t: nat)
    requires WellFormed(p) && Removes(p, k, r) && Reachable(p, k) && i >= Behind(p, k)
    requires CarriesIn(p, r, Behind(p, k), i, m) && NeededIn(p, r, i, n)
    ensures JumpsBackFrom(p, k, r, s, t) && Needed(p, r, t)
    decreases n
  {
    hide TurnAt, Writes, Successors, Reachable, WellFormed;
    UnreadBehind(p, k, r, i);
    assert r !in Reads(p[i].assembler);
    var j :| j in Successors(p, i) && NeededIn(p, r, j, n - 1);
    if j >= Behind(p, k) {
      CarriesOn(p, r, Behind(p, k), i, j, m);
      s, t := NeededThroughJump(p, k, r, j, m + 1, n - 1);
    } else {
      s, t := i, j;
    }
  }

  /** Exactly when: no backward jump carries a value taken away to where its register is needed. */
  lemma OnlyUnneededIff(p: seq<Asm>)
    requires WellFormed(p)
    ensures OnlyUnneeded(p) <==>
      forall k: nat, r: nat, s: nat, t: nat :: JumpsBackFrom(p, k, r, s, t) ==> !Needed(p, r, t)
  {
    hide WellFormed, TurnAt, Writes, Reachable;
    forall k: nat, r: nat, s: nat, t: nat | JumpsBackFrom(p, k, r, s, t) && Needed(p, r, t)
      ensures !OnlyUnneeded(p)
    {
      NeededAtJump(p, r, s, t);
      var n: nat :| CarriesIn(p, r, Behind(p, k), s, n);
      NeededAlong(p, r, Behind(p, k), s, n);
    }
    forall k: nat, r: nat | Removes(p, k, r) && Reachable(p, k) && Needed(p, r, Behind(p, k))
      ensures exists s: nat, t: nat :: JumpsBackFrom(p, k, r, s, t) && Needed(p, r, t)
    {
      var n: nat :| NeededIn(p, r, Behind(p, k), n);
      var s, t := NeededThroughJump(p, k, r, Behind(p, k), 0, n);
    }
  }

  lemma NeededAtJump(p: seq<Asm>, r: nat, s: nat, t: nat)
    requires BackEdge(p, s, t) && Needed(p, r, t)
    ensures Needed(p, r, s)
  {
    ReadsAreMentions(p[s].assembler);
    NeededBefore(p, r, s, t);
  }

  lemma ForwardIsUnneeded(p: seq<Asm>)
    requires WellFormed(p) && ForwardOnly(p)
    ensures OnlyUnneeded(p)
  {
    hide WellFormed;
    OnlyUnneededIff(p);
  }

  // ----- Lists whose registers are written first -----

  /** The first occurrence of every register is a pure write. */
  ghost predicate WrittenFirst(prog: seq<Asm>) {
    forall r: nat, k: nat :: ReadsAt(prog, r, k) ==> exists w :: 0 <= w < k && WritesAt(prog, r, w)
  }

  /** A fold performed above entry k put r into the entry before its copy. */
  ghost predicate FoldedInto(p: seq<Asm>, k: nat, r: nat) {
    exists j: nat :: j + 1 < k && MovedUp(p, j, r)
  }

  lemma {:induction false} ExaminedStays(p: seq<Asm>, i: nat, k: nat, reg: Register)
    requires i <= k <= |p| && reg in ExaminedBefore(p, i)
    ensures reg in ExaminedBefore(p, k)
    decreases k - i
  {
    hide TurnAt;
    if i < k { ExaminedStays(p, i, k - 1, reg); }
  }

  /** Above a write taken away its register is written by copies folded away only. */
  lemma WrittenAboveByCopies(p: seq<Asm>, k: nat, r: nat, w: nat)
    requires WellFormed(p) && Removes(p, k, r) && w < k && WritesAt(p, r, w)
    ensures FoldedInto(p, k, r)
  {
    hide UsageFrom, Writes;
    WritesOnlyDestination(p[k].assembler);
    WritesOnlyDestination(p[w].assembler);
    assert Destination(p[k].assembler) == R(r) == Destination(p[w].assembler);
    TurnWrites(p, k);
    if FoldedAway(p, w) {
      FoldedIsCopy(p, w);
      assert MovedUp(p, w - 1, r);
    } else {
      assert R(r) in ExaminedBefore(p, w + 1);
      ExaminedStays(p, w + 1, k, R(r));
      assert false;
    }
  }

  /** A register nothing reads but a copy folded away is needed there and at its writer only. */
  lemma {:induction false} NotNeededElsewhere(p: seq<Asm>, k: nat, r: nat, i: nat, n: nat)
    requires k < |p| && WritesAt(p, r, k) && forall j: nat :: ReadsAt(p, r, j) ==> j == k + 1 && AtFoldedCopy(p, j)
    requires !(i == k + 1 && AtFoldedCopy(p, i))
    ensures !NeededIn(p, r, i, n)
    decreases n
  {
    hide Writes, Reads, TurnAt;
    if n > 0 && i < |p| && NeededIn(p, r, i, n) {
      assert !ReadsAt(p, r, i);
      var j :| j in Successors(p, i) && NeededIn(p, r, j, n - 1);
      if j == k + 1 && AtFoldedCopy(p, j) {
        FoldedIsCopy(p, j);
      } else {
        NotNeededElsewhere(p, k, r, j, n - 1);
      }
    }
  }

  lemma FirstWriteUnneeded(p: seq<Asm>, k: nat, r: nat)
    requires WellFormed(p) && WrittenFirst(p) && Removes(p, k, r) && !FoldedInto(p, k, r)
    ensures !Needed(p, r, Behind(p, k))
  {
    hide FoldedInto, WellFormed, UsageFrom;
    forall j: nat | ReadsAt(p, r, j) ensures j == k + 1 && AtFoldedCopy(p, j) {
      if j <= k {
        var w :| 0 <= w < j && WritesAt(p, r, w);
        WrittenAboveByCopies(p, k, r, w);
        assert false;
      } else {
        UnreadBehindOrCopy(p, k, r, j);
      }
    }
    TurnWrites(p, k);
    forall n: nat ensures !NeededIn(p, r, Behind(p, k), n) { NotNeededElsewhere(p, k, r, Behind(p, k), n); }
  }

  lemma UnreadBehindOrCopy(p: seq<Asm>, k: nat, r: nat, j: nat)
    requires WellFormed(p) && Removes(p, k, r) && j > k && ReadsAt(p, r, j)
    ensures j == k + 1 && AtFoldedCopy(p, j)
  {
    hide WellFormed, UsageFrom, ReadsAt;
    if j >= Behind(p, k) { UnreadBehind(p, k, r, j); }
  }

  /** On lists written first, exactly when: no backward jump carries a value taken away to where
      its register is needed, among the registers an earlier fold has set. */
  lemma WrittenFirstIff(p: seq<Asm>)
    requires WellFormed(p) && WrittenFirst(p)
    ensures OnlyUnneeded(p) <==>
      forall k: nat, r: nat, s: nat, t: nat :: JumpsBackFrom(p, k, r, s, t) && FoldedInto(p, k, r) ==> !Needed(p, r, t)
  {
    hide WellFormed, WrittenFirst, TurnAt, Writes, Reachable, FoldedInto, Needed;
    OnlyUnneededIff(p);
    forall k: nat, r: nat, s: nat, t: nat | JumpsBackFrom(p, k, r, s, t) && !FoldedInto(p, k, r)
      ensures !Needed(p, r, t)
    {
      FirstWriteUnneeded(p, k, r);
      if Needed(p, r, t) {
        NeededAtJump(p, r, s, t);
        var n: nat :| CarriesIn(p, r, Behind(p, k), s, n);
        NeededAlong(p, r, Behind(p, k), s, n);
      }
    }
  }

  /** The guard of the failing case: a register that a fold has set loses no later write. */
  ghost predicate CopiesSettled(p: seq<Asm>) {
    forall k: nat, r: nat :: Removes(p, k, r) ==> !FoldedInto(p, k, r)
  }

  lemma SettledIsUnneeded(p: seq<Asm>)
    requires WellFormed(p) && WrittenFirst(p) && CopiesSettled(p)
    ensures OnlyUnneeded(p)
  {
    hide WellFormed, WrittenFirst, TurnAt, Writes, Reachable, FoldedInto, Needed;
    WrittenFirstIff(p);
  }

  /** Where the fold's own guard never holds nothing is folded; `ADDI x,R0,0` behind anything but
      a write of R0 is such an entry. */
  lemma UnfoldableSettled(p: seq<Asm>)
    requires forall k :: 0 <= k < |p| ==> !CanFold(p, k)
    ensures CopiesSettled(p)
  {
    hide CanFold, UsageFrom, ExaminedBefore;
  }

  // ----- The pass, with its flag -----

  ghost predicate RemovalSafe(prog: seq<Asm>) { WellFormed(prog) && OnlyUnneeded(prog) }

  lemma RemovalPreserves(prog: seq<Asm>, optimise: bool)
    ensures RemovalSafe(prog) || !optimise ==> Preserves(prog, RemoveFrom(prog, 0, [], 0, optimise).0)
  {
    hide Preserves, RemoveFrom;
    if !optimise {
      NothingRemoved(prog, 0, [], 0);
      PreservesReflexive(prog);
    } else if RemovalSafe(prog) {
      RemoveUnusedPreserves(prog);
    }
  }

  lemma BarrierVisited(prog: seq<Asm>, it: nat, tracked: seq<Register>)
    requires it < |prog|
    ensures IsBarrier(prog[it].assembler.cmd) ==> Visit(prog, it, tracked) == (prog, tracked)
  {
    hide UsageFrom, Fold;
  }

  // ----- The pass seen from outside -----

  ghost predicate ReadFrom(p: seq<Asm>, i: nat, reg: Register) {
    exists k :: i <= k < |p| && !p[k].assembler.cmd.INVALID? && p[k].assembler.regSrc == reg
  }

  /** Something else than a plain read from entry i on: a write, a branch on the register, or a use
      as address or output register. */
  ghost predicate OtherwiseUsedFrom(p: seq<Asm>, i: nat, reg: Register) {
    exists k :: i <= k < |p| && OtherwiseUses(p[k].assembler, reg)
  }

  predicate OtherwiseUses(a: Assembler, reg: Register) {
    !a.cmd.INVALID? && (a.regAux == reg || a.regDst == reg || (a.regSrc == reg && IsBranch(a.cmd)))
  }

  ghost predicate UsedFrom(p: seq<Asm>, i: nat, reg: Register) {
    exists k :: i <= k < |p| && !p[k].assembler.cmd.INVALID? && reg in {p[k].assembler.regSrc, p[k].assembler.regAux}
  }

  lemma UsedNext(p: seq<Asm>, i: nat, reg: Register)
    requires i < |p|
    ensures var a := p[i].assembler;
      (ReadFrom(p, i, reg) <==> (!a.cmd.INVALID? && a.regSrc == reg) || ReadFrom(p, i + 1, reg)) &&
      (OtherwiseUsedFrom(p, i, reg) <==> OtherwiseUses(a, reg) || OtherwiseUsedFrom(p, i + 1, reg)) &&
      (UsedFrom(p, i, reg) <==> (!a.cmd.INVALID? && reg in {a.regSrc, a.regAux}) || UsedFrom(p, i + 1, reg))
  {
    hide OtherwiseUses;
  }

  /** The scan finds no read exactly when no later entry names the register as operand, and nothing
      but reads exactly when some later entry reads it and none uses it in another way. */
  lemma {:induction false} UsageMeans(p: seq<Asm>, i: nat, reg: Register, read: bool, written: bool)
    requires i <= |p| && !(read && written)
    ensures var u := UsageFrom(p, i, reg, read, written);
      (u.Flags? && !u.read <==> !read && !UsedFrom(p, i, reg)) &&
      (u == Flags(true, false) <==> !written && (read || ReadFrom(p, i, reg)) && !OtherwiseUsedFrom(p, i, reg))
    decreases |p| - i
  {
    hide UsedFrom, ReadFrom, OtherwiseUsedFrom, IsBranch;
    if i < |p| {
      var a := p[i].assembler;
      UsedNext(p, i, reg);
      var read', written' := read || a.regSrc == reg, written || a.regDst == reg;
      if a.cmd.INVALID? {
        UsageMeans(p, i + 1, reg, read, written);
      } else if !(read' && written') {
        UsageMeans(p, i + 1, reg, read', written');
      }
    } else {
      NothingBehind(p, i, reg);
    }
  }

  lemma NothingBehind(p: seq<Asm>, i: nat, reg: Register)
    requires i >= |p|
    ensures !UsedFrom(p, i, reg) && !ReadFrom(p, i, reg) && !OtherwiseUsedFrom(p, i, reg)
  {
  }

  /** Entry j is a write that is still there when the pass comes to it. */
  predicate StandingWrite(p: seq<Asm>, j: nat) {
    j < |p| && !FoldedAway(p, j) && WritesDst(p[j].assembler.cmd)
  }

  /** Entry k is the first write of its register that the pass meets. */
  ghost predicate FirstWriteMet(p: seq<Asm>, k: nat) {
    StandingWrite(p, k) &&
    forall j: nat :: j < k && StandingWrite(p, j) ==> Destination(p[j].assembler) != Destination(p[k].assembler)
  }

  lemma {:induction false} ExaminedIff(p: seq<Asm>, k: nat, reg: Register)
    requires k <= |p|
    ensures reg in ExaminedBefore(p, k) <==> exists j: nat :: j < k && StandingWrite(p, j) && Destination(p[j].assembler) == reg
  {
    hide Destination, CanFold, UsageFrom, FoldedAway;
    if k > 0 {
      ExaminedIff(p, k - 1, reg);
      ExaminedIff(p, k - 1, Destination(p[k - 1].assembler));
      assert StandingWrite(p, k - 1) <==> !FoldedAway(p, k - 1) && WritesDst(p[k - 1].assembler.cmd);
    }
  }

  /** The writes deleted are the first ones met of registers no later entry names as operand. */
  lemma DeletedIff(p: seq<Asm>, k: nat)
    requires k < |p|
    ensures TurnAt(p, k).Deleted? <==> FirstWriteMet(p, k) && !UsedFrom(p, k + 1, Destination(p[k].assembler))
  {
    hide Destination, CanFold, UsageFrom, FoldedAway, UsedFrom, ReadFrom, OtherwiseUsedFrom;
    ExaminedIff(p, k, Destination(p[k].assembler));
    UsageMeans(p, k + 1, Destination(p[k].assembler), false, false);
  }

  /** The writes joined with the copy behind them are the first ones met of registers that are only
      read later, by that copy and by nothing behind it. */
  lemma JoinedIff(p: seq<Asm>, k: nat)
    requires k < |p|
    ensures var a := p[k].assembler;
      TurnAt(p, k).Joined? <==>
        FirstWriteMet(p, k) && ReadFrom(p, k + 1, Destination(a)) && !OtherwiseUsedFrom(p, k + 1, Destination(a)) &&
        k + 1 < |p| && p[k + 1].assembler.cmd.ADDI? && p[k + 1].assembler.outputs != [] && p[k + 1].assembler.outputs[0] == 0 &&
        p[k + 1].assembler.regSrc == a.regDst &&
        forall j :: k + 2 <= j < |p| ==> a.regDst !in {p[j].assembler.regSrc, p[j].assembler.regAux}
  {
    hide Destination, UsageFrom, FoldedAway, UsedFrom, ReadFrom, OtherwiseUsedFrom;
    ExaminedIff(p, k, Destination(p[k].assembler));
    UsageMeans(p, k + 1, Destination(p[k].assembler), false, false);
  }

  /** What becomes of every entry. */
  lemma RemovedShape(p: seq<Asm>, k: nat)
    requires k < |p|
    ensures var a, r := p[k].assembler, Removed(p)[k];
      r.noOpt == p[k].noOpt &&
      (k > 0 && TurnAt(p, k - 1).Joined? ==> r.assembler == a.(cmd := INVALID)) &&
      (k == 0 || !TurnAt(p, k - 1).Joined? ==>
        r.assembler == match TurnAt(p, k)
          case Deleted => if a.regDst.R? && a.regDst.number > 0 then a.(cmd := INVALID, regDst := Unset) else a.(cmd := INVALID, regAux := Unset)
          case Joined => a.(regDst := p[k + 1].assembler.regDst)
          case _ => a)
  {
    hide TurnAt;
  }

  /** The count is named by an instruction met, unless there is none. */
  lemma {:induction false} CountAttained(p: seq<Asm>, it: nat, maxReg: nat)
    requires it <= |p|
    ensures var c := RemoveFrom(HalfRemoved(p, it), it, ExaminedBefore(p, it), maxReg, true).1;
      c == maxReg || exists k :: it <= k < |p| && !FoldedAway(p, k) && !IsBarrier(p[k].assembler.cmd) && HighestRegisterNumber(p[k].assembler) == c
    decreases |p| - it
  {
    hide Visit, ExaminedBefore, RemovedEntry, FoldedAway, HighestRegisterNumber;
    if it < |p| {
      VisitIsTurn(p, it);
      HalfNext(p, it);
      CountAttained(p, it + 1, Counted(maxReg, HalfRemoved(p, it)[it].assembler));
    }
  }
}
