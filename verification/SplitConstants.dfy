/** Splitting every constant register: room is made before each instruction, each constant is
    split in turn, and the room left over is taken away again. */
module SplitConstants {
  import opened Instructions
  import opened Machine
  import opened Liveness
  import opened LiveRanges
  import opened Allocation
  import opened SplitRegisters

  // ----- Making room and taking it away -----

  /** A register number no program uses marks the room. */
  const MAGIC_SKIP_REGISTER := R(0x7FFF_FFFF)

  function Room(e: Asm): Asm {
    Asm(e.assembler.(cmd := INVALID, regSrc := MAGIC_SKIP_REGISTER), false)
  }

  function Unflagged(e: Asm): Asm {
    if IsBarrier(e.assembler.cmd) then e else e.(noOpt := KeepsNoOpt(e.assembler.cmd))
  }

  function WithRoom(e: Asm): seq<Asm> {
    if IsBarrier(e.assembler.cmd) then [e] else [Room(e), Room(e), Unflagged(e)]
  }

  function Interleaved(p: seq<Asm>): seq<Asm> {
    if p == [] then [] else Interleaved(p[..|p| - 1]) + WithRoom(p[|p| - 1])
  }

  predicate IsRoom(e: Asm) {
    (e.assembler.cmd.INVALID? || e.assembler.cmd.COMMENT_NOP?) && e.assembler.regSrc == MAGIC_SKIP_REGISTER
  }

  function Stripped(t: seq<Asm>): seq<Asm> {
    if t == [] then [] else Stripped(t[..|t| - 1]) + (if IsRoom(t[|t| - 1]) then [] else [t[|t| - 1]])
  }

  function UnflaggedAll(p: seq<Asm>): (q: seq<Asm>)
    ensures |q| == |p|
  {
    seq(|p|, i requires 0 <= i < |p| => Unflagged(p[i]))
  }

  lemma {:induction false} StrippedSum(a: seq<Asm>, b: seq<Asm>)
    ensures Stripped(a + b) == Stripped(a) + Stripped(b)
    decreases b
  {
    if b == [] {
      assert a + b == a;
    } else {
      StrippedSum(a, b[..|b| - 1]);
      assert (a + b)[..|a + b| - 1] == a + b[..|b| - 1];
    }
  }

  lemma StrippedRoom(e: Asm)
    requires !IsRoom(e)
    ensures Stripped(WithRoom(e)) == [Unflagged(e)]
  {
    var u := Unflagged(e);
    assert Stripped([]) == [];
    if IsBarrier(e.assembler.cmd) {
      assert [u][..0] == [];
    } else {
      var r := Room(e);
      assert [r][..0] == [] && [r, r][..1] == [r] && [r, r, u][..2] == [r, r];
      assert Stripped([r]) == [] && Stripped([r, r]) == [];
    }
  }

  /** Room made and taken away leaves the list, up to the flags no later pass looks at. */
  lemma {:induction false} StrippedInterleaved(p: seq<Asm>)
    requires forall i :: 0 <= i < |p| ==> !IsRoom(p[i])
    ensures Stripped(Interleaved(p)) == UnflaggedAll(p)
    decreases p
  {
    hide Stripped, WithRoom, Unflagged, IsRoom;
    if p == [] {
      StrippedNothing();
    } else {
      var front, e := p[..|p| - 1], p[|p| - 1];
      StrippedInterleaved(front);
      StrippedRoom(e);
      StrippedSum(Interleaved(front), WithRoom(e));
      assert UnflaggedAll(p) == UnflaggedAll(front) + [Unflagged(e)];
    }
  }

  // ----- Room changes no run -----

  /** Where entry i goes. */
  function Place(t: seq<Asm>, i: nat): nat
    requires i <= |t|
  {
    |Stripped(t[..i])|
  }

  lemma PlaceNext(t: seq<Asm>, i: nat)
    requires i < |t|
    ensures Place(t, i + 1) == Place(t, i) + (if IsRoom(t[i]) then 0 else 1)
    ensures !IsRoom(t[i]) ==> Stripped(t[..i + 1]) == Stripped(t[..i]) + [t[i]]
  {
    assert t[..i + 1][..i] == t[..i];
  }

  lemma {:induction false} PlaceGrows(t: seq<Asm>, i: nat, j: nat)
    requires i <= j <= |t|
    ensures Place(t, i) <= Place(t, j) && Stripped(t[..i]) <= Stripped(t[..j])
    decreases j - i
  {
    if i < j {
      PlaceGrows(t, i, j - 1);
      PlaceNext(t, j - 1);
      assert t[..j][..j - 1] == t[..j - 1];
    }
  }

  /** An entry that stays is found at its place. */
  lemma StaysAt(t: seq<Asm>, i: nat)
    requires i < |t| && !IsRoom(t[i])
    ensures Place(t, i) < |Stripped(t)| && Stripped(t)[Place(t, i)] == t[i]
  {
    PlaceNext(t, i);
    PlaceGrows(t, i + 1, |t|);
    assert t[..|t|] == t;
  }

  /** Every entry of the stripped list comes from somewhere. */
  lemma {:induction false} ComesFrom(t: seq<Asm>, k: nat, n: nat) returns (i: nat)
    requires n <= |t| && k < Place(t, n)
    ensures i < n && !IsRoom(t[i]) && Place(t, i) == k
    decreases n
  {
    PlaceNext(t, n - 1);
    if k == Place(t, n - 1) { i := n - 1; } else { i := ComesFrom(t, k, n - 1); }
  }

  lemma PlaceTarget(t: seq<Asm>, l: Label)
    ensures Target(Stripped(t), l) == Place(t, Target(t, l))
  {
    var q := Stripped(t);
    var i, j := Target(t, l), Target(q, l);
    assert t[..|t|] == t;
    if i < |t| { StaysAt(t, i); assert Defines(q, Place(t, i), l); } 
    PlaceGrows(t, i, |t|);
    if j < |q| {
      var k := ComesFrom(t, j, |t|);
      StaysAt(t, k);
      assert Defines(t, k, l);
      assert i <= k;
      PlaceGrows(t, i, k);
    }
  }

  /** The stripped list is where the full one is, at the next entry that stays. */
  ghost predicate Tracks(t: seq<Asm>, s: State, full: State) {
    full.pc <= |t| && s.pc == Place(t, full.pc) && s.regs == full.regs && s.trace == full.trace
  }

  /** Over the room to the next entry that stays, or the end. */
  lemma {:induction false} OverRoom(t: seq<Asm>, input: Input, full: State) returns (m: nat, full': State)
    requires full.pc <= |t|
    ensures Run(t, input, full, m) == full' == full.(pc := full'.pc) && full.pc <= full'.pc <= |t|
    ensures Place(t, full.pc) == Place(t, full'.pc) && (full'.pc < |t| ==> !IsRoom(t[full'.pc]))
    decreases |t| - full.pc
  {
    hide Step;
    if full.pc < |t| && IsRoom(t[full.pc]) {
      NothingStep(t, input, full);
      PlaceNext(t, full.pc);
      var n;
      n, full' := OverRoom(t, input, full.(pc := full.pc + 1));
      m := n + 1;
    } else {
      m, full' := 0, full;
    }
  }

  lemma StayingStep(t: seq<Asm>, input: Input, s: State, full: State)
    requires Tracks(t, s, full) && full.pc < |t| && !IsRoom(t[full.pc])
    ensures Tracks(t, Step(Stripped(t), input, s), Step(t, input, full))
  {
    hide Alu, Emitted, WriteBack, Place, Stripped, Value;
    StaysAt(t, full.pc);
    PlaceNext(t, full.pc);
    PlaceTarget(t, t[full.pc].assembler.lbl);
    WholePlace(t);
  }

  lemma WholePlace(t: seq<Asm>)
    ensures Place(t, |t|) == |Stripped(t)|
  {
    assert t[..|t|] == t;
  }

  lemma {:induction false} StrippedRun(t: seq<Asm>, input: Input, s: State, full: State, n: nat) returns (m: nat)
    requires Tracks(t, s, full)
    ensures n <= m && Tracks(t, Run(Stripped(t), input, s, n), Run(t, input, full, m))
    decreases n
  {
    hide Step, Place, Stripped;
    if n == 0 {
      m := 0;
    } else {
      var k, at := OverRoom(t, input, full);
      var m';
      if at.pc < |t| {
        StayingStep(t, input, s, at);
        m' := StrippedRun(t, input, Step(Stripped(t), input, s), Step(t, input, at), n - 1);
      } else {
        WholePlace(t);
        HaltedStep(Stripped(t), input, s);
        HaltedStep(t, input, at);
        m' := StrippedRun(t, input, s, at, n - 1);
      }
      RunAdd(t, input, full, k, 1 + m');
      m := k + 1 + m';
    }
  }

  lemma HaltedStep(prog: seq<Asm>, input: Input, s: State)
    requires Halted(prog, s)
    ensures Step(prog, input, s) == s
  {
  }

  /** Taking room away changes nothing an observer sees. */
  lemma StrippedPreserves(t: seq<Asm>)
    ensures Preserves(Stripped(t), t)
  {
    hide Step, Stripped, Run;
    var q := Stripped(t);
    forall input: Input, regs: Registers, n: nat ensures Follows(q, t, input, regs, n) {
      assert Place(t, 0) == 0 by { assert t[..0] == []; StrippedNothing(); }
      var m := StrippedRun(t, input, Entry(regs), Entry(regs), n);
      var s, full := Run(q, input, Entry(regs), n), Run(t, input, Entry(regs), m);
      WholePlace(t);
      PlaceGrows(t, full.pc, |t|);
      var k, at := OverRoom(t, input, full);
      RunAdd(t, input, Entry(regs), m, k);
      if at.pc < |t| { StaysAt(t, at.pc); }
      assert SameView(q, s, t, Run(t, input, Entry(regs), m + k));
    }
  }

  lemma StrippedNothing()
    ensures Stripped([]) == []
  {
  }

  /** The flags of entries decide nothing at run time. */
  lemma {:induction false} UnflaggedRun(p: seq<Asm>, input: Input, s: State, n: nat)
    ensures Run(UnflaggedAll(p), input, s, n) == Run(p, input, s, n)
    decreases n
  {
    hide Alu, Emitted, WriteBack, Value;
    if n > 0 {
      if s.pc < |p| {
        forall i | 0 <= i < |p| ensures Defines(p, i, p[s.pc].assembler.lbl) == Defines(UnflaggedAll(p), i, p[s.pc].assembler.lbl) {}
        SameTargets(p, UnflaggedAll(p), p[s.pc].assembler.lbl);
      }
      assert Step(UnflaggedAll(p), input, s) == Step(p, input, s);
      UnflaggedRun(p, input, Step(p, input, s), n - 1);
    }
  }

  lemma UnflaggedPreserves(p: seq<Asm>)
    ensures Preserves(p, UnflaggedAll(p))
  {
    hide Step, Run;
    forall input: Input, regs: Registers, n: nat ensures Follows(p, UnflaggedAll(p), input, regs, n) {
      UnflaggedRun(p, input, Entry(regs), n);
      assert SameView(p, Run(p, input, Entry(regs), n), UnflaggedAll(p), Run(UnflaggedAll(p), input, Entry(regs), n));
    }
  }

  /** Making room changes nothing an observer sees. */
  lemma InterleavedPreserves(p: seq<Asm>)
    requires forall i :: 0 <= i < |p| ==> !IsRoom(p[i])
    ensures Preserves(p, Interleaved(p))
  {
    hide Preserves;
    UnflaggedPreserves(p);
    StrippedInterleaved(p);
    StrippedPreserves(Interleaved(p));
    PreservesTransitive(p, UnflaggedAll(p), Interleaved(p));
  }

  // ----- Which registers are split -----

  /** The upper half of the load that starts at entry i, looked for from entry k on; |list| when
      there is none. */
  function LoadEnd(list: seq<Asm>, i: nat, k: nat): (end: nat)
    requires i < k <= |list|
    ensures k <= end <= |list|
    decreases |list| - k
  {
    if k == |list| then k
    else
      var a := list[k].assembler;
      if a.cmd.COMMENT_NOP? || a.cmd.INVALID? then LoadEnd(list, i, k + 1)
      else if a.cmd.ADDIU? && a.regDst == list[i].assembler.regDst &&
              a.regSrc == (if list[i].assembler.cmd.ADDI? then a.regDst else R(0)) then k
      else |list|
  }

  predicate OverwrittenAfter(list: seq<Asm>, i: nat, end: nat, reg: Register) {
    exists k :: i < k < |list| && k != end && IsWritten(list[k].assembler, reg)
  }

  function SplitAtEntry(list: seq<Asm>, i: nat, first: nat): Split
    requires i < |list|
  {
    Split(list[i].assembler.regDst, i, LoadEnd(list, i, i + 1), first)
  }

  predicate Splittable(list: seq<Asm>, i: nat)
    requires i < |list|
  {
    var a, end := list[i].assembler, LoadEnd(list, i, i + 1);
    (a.cmd.ADDI? || ((a.cmd.INVALID? || a.cmd.COMMENT_NOP?) && end < |list|)) && a.regSrc == R(0) &&
    !OverwrittenAfter(list, i, end, a.regDst)
  }

  ghost function SplitOnce(list: seq<Asm>, sp: Split): (q: seq<Asm>)
    requires sp.start < |list|
    ensures SplitInto(list, sp, q)
  {
    seq(|list|, i requires 0 <= i < |list| => SplitEntry(list, sp, i))
  }

  datatype SplitResult = SplitResult(list: seq<Asm>, first: nat, count: nat)

  /** All splits from entry i on, each on the list the earlier ones left. */
  ghost function SplitAll(list: seq<Asm>, i: nat, first: nat, count: nat): SplitResult
    requires i <= |list|
    decreases |list| - i
  {
    if i == |list| then SplitResult(list, first, count)
    else if Splittable(list, i) then
      var sp := SplitAtEntry(list, i, first);
      SplitAll(SplitOnce(list, sp), i + 1, first + FarUses(list, sp, |list|), count + 1)
    else SplitAll(list, i + 1, first, count)
  }

  ghost predicate NoFarUse(list: seq<Asm>, sp: Split) { forall i: nat :: !FarUse(list, sp, i) }

  /** Every split met on the way is safe or has nothing to do. */
  ghost predicate AllSafe(list: seq<Asm>, i: nat, first: nat)
    requires i <= |list|
    decreases |list| - i
  {
    i < |list| ==>
      if Splittable(list, i) then
        var sp := SplitAtEntry(list, i, first);
        (SafeSplit(list, sp) || NoFarUse(list, sp)) && AllSafe(SplitOnce(list, sp), i + 1, first + FarUses(list, sp, |list|))
      else AllSafe(list, i + 1, first)
  }

  lemma {:induction false} SplitAllPreserves(list: seq<Asm>, i: nat, first: nat, count: nat)
    requires i <= |list| && AllSafe(list, i, first)
    ensures Preserves(list, SplitAll(list, i, first, count).list)
    decreases |list| - i
  {
    hide Preserves, Splittable, SafeSplit, FarUses, SplitInto;
    if i == |list| {
      PreservesReflexive(list);
    } else if Splittable(list, i) {
      var sp := SplitAtEntry(list, i, first);
      var q := SplitOnce(list, sp);
      if NoFarUse(list, sp) { NothingSplit(list, sp); PreservesReflexive(list); } else { SplitPreserves(list, sp, q); }
      SameLength(list, sp, q);
      SplitAllPreserves(q, i + 1, first + FarUses(list, sp, |list|), count + 1);
      PreservesTransitive(list, q, SplitAll(list, i, first, count).list);
    } else {
      SplitAllPreserves(list, i + 1, first, count);
    }
  }

  lemma NothingSplit(list: seq<Asm>, sp: Split)
    requires sp.start < |list| && NoFarUse(list, sp)
    ensures SplitOnce(list, sp) == list
  {
    hide FarUse, LoadLow, LoadHigh, Retargeted;
    assert !LoadGoes(list, sp);
  }

  lemma SameLength(list: seq<Asm>, sp: Split, q: seq<Asm>)
    requires SplitInto(list, sp, q)
    ensures |q| == |list|
  {
  }

  /** What splitting the constants of p leaves. */
  ghost function SplitConstantsOf(p: seq<Asm>, first: nat): SplitResult {
    var r := SplitAll(Interleaved(p), 0, first, 0);
    r.(list := Stripped(r.list))
  }

  /** Splitting all constants changes nothing an observer sees, if each split is safe. */
  lemma SplitConstantsEquivalent(p: seq<Asm>, first: nat)
    requires forall i :: 0 <= i < |p| ==> !IsRoom(p[i])
    requires AllSafe(Interleaved(p), 0, first)
    ensures Equivalent(p, SplitConstantsOf(p, first).list)
  {
    hide Preserves, Equivalent, SplitAll, AllSafe, Stripped, Interleaved;
    var t := SplitAll(Interleaved(p), 0, first, 0).list;
    InterleavedPreserves(p);
    SplitAllPreserves(Interleaved(p), 0, first, 0);
    PreservesTransitive(p, Interleaved(p), t);
    PreservesEquivalent(p, t);
    StrippedPreserves(t);
    PreservesEquivalent(Stripped(t), t);
    EquivalentSymmetric(Stripped(t), t);
    EquivalentTransitive(p, t, Stripped(t));
  }

  lemma EquivalentSymmetric(p: seq<Asm>, q: seq<Asm>)
    requires Equivalent(p, q)
    ensures Equivalent(q, p)
  {
  }

  /** What the search finds is a constant load, once its register is a real one. */
  lemma SplittableLoads(list: seq<Asm>, i: nat, first: nat)
    requires i < |list| && Splittable(list, i) && list[i].assembler.regDst.R? && list[i].assembler.regDst.number > 0
    ensures ConstantLoad(list, SplitAtEntry(list, i, first))
  {
    LoadEndFinds(list, i, i + 1);
  }

  lemma {:induction false} LoadEndFinds(list: seq<Asm>, i: nat, k: nat)
    requires i < k <= |list|
    ensures var end := LoadEnd(list, i, k);
      end < |list| ==>
        list[end].assembler.cmd.ADDIU? && list[end].assembler.regDst == list[i].assembler.regDst &&
        list[end].assembler.regSrc == (if list[i].assembler.cmd.ADDI? then list[i].assembler.regDst else R(0)) &&
        forall j: nat :: k <= j < end ==> PassedOver(list, j)
    decreases |list| - k
  {
    if k < |list| && PassedOver(list, k) { LoadEndFinds(list, i, k + 1); }
  }

  predicate IsFree(e: Asm) { e.assembler.cmd.INVALID? && e.assembler.regSrc == MAGIC_SKIP_REGISTER }

  /** Fresh lists have room before every instruction. */
  lemma {:induction false} RoomBefore(p: seq<Asm>, i: nat)
    requires i < |Interleaved(p)| && !IsBarrier(Interleaved(p)[i].assembler.cmd)
    ensures i >= 2 && IsFree(Interleaved(p)[i - 1]) && IsFree(Interleaved(p)[i - 2])
    decreases p
  {
    var front, group := Interleaved(p[..|p| - 1]), WithRoom(p[|p| - 1]);
    assert Interleaved(p) == front + group;
    if i < |front| { RoomBefore(p[..|p| - 1], i); }
  }

  lemma InterleavedSlotsFree(p: seq<Asm>, sp: Split)
    ensures SlotsFree(Interleaved(p), sp)
  {
    hide Interleaved, CountInstructions, IsRead, IsWritten;
    forall i: nat | FarUse(Interleaved(p), sp, i)
      ensures i >= 2 && Interleaved(p)[i - 1].assembler.cmd.INVALID? && Interleaved(p)[i - 2].assembler.cmd.INVALID?
    {
      RoomBefore(p, i);
    }
  }

  // ----- The register count handed on -----

  ghost predicate Named(list: seq<Asm>, r: nat) { exists k: nat :: k < |list| && MentionedAt(list, r, k) }

  lemma {:induction false} FarUsesGrow(list: seq<Asm>, sp: Split, i: nat, j: nat)
    requires i <= j
    ensures FarUses(list, sp, i) <= FarUses(list, sp, j)
    ensures i < j && FarUse(list, sp, i) ==> FarUses(list, sp, i) < FarUses(list, sp, j)
    decreases j - i
  {
    hide FarUse;
    if i < j { FarUsesGrow(list, sp, i, j - 1); }
  }

  lemma FreshInRange(list: seq<Asm>, sp: Split, u: nat)
    requires FarUse(list, sp, u)
    ensures u < |list| && sp.first <= FreshFor(list, sp, u).number < sp.first + FarUses(list, sp, |list|)
  {
    hide CountInstructions, IsRead, IsWritten;
    FarUsesGrow(list, sp, u, |list|);
  }

  /** What an entry of the split list names: a fresh register, or one its source named. */
  lemma SplitEntryNames(list: seq<Asm>, sp: Split, k: nat, r: nat)
    requires sp.start < |list| && k < |list| && MentionedAt(SplitOnce(list, sp), r, k)
    ensures Named(list, r) || sp.first <= r < sp.first + FarUses(list, sp, |list|)
  {
    hide FarUse, FarUses, LoadGoes;
    var e := SplitEntry(list, sp, k);
    assert SplitOnce(list, sp)[k] == e;
    forall u: nat | FarUse(list, sp, u) ensures u < |list| && sp.first <= FreshFor(list, sp, u).number < sp.first + FarUses(list, sp, |list|) {
      FreshInRange(list, sp, u);
    }
    assert r > 0;
    if MentionedAt(list, r, k) || MentionedAt(list, r, sp.start) || (sp.end < |list| && MentionedAt(list, r, sp.end)) {
      assert Named(list, r);
    }
  }

  lemma {:induction false} SplitAllNames(list: seq<Asm>, i: nat, first: nat, count: nat, r: nat)
    requires i <= |list|
    ensures var s := SplitAll(list, i, first, count);
      first <= s.first && (Named(s.list, r) ==> Named(list, r) || first <= r < s.first)
    decreases |list| - i
  {
    hide Splittable, FarUses, SplitInto, MentionedAt, SplitAtEntry;
    if i < |list| {
      if Splittable(list, i) {
        var sp := SplitAtEntry(list, i, first);
        assert sp.start == i && sp.first == first by { AtEntry(list, i, first); }
        var q := SplitOnce(list, sp);
        SameLength(list, sp, q);
        SplitAllNames(q, i + 1, first + FarUses(list, sp, |list|), count + 1, r);
        if Named(q, r) {
          var k: nat :| k < |q| && MentionedAt(q, r, k);
          SplitEntryNames(list, sp, k, r);
        }
      } else {
        SplitAllNames(list, i + 1, first, count, r);
      }
    }
  }

  lemma AtEntry(list: seq<Asm>, i: nat, first: nat)
    requires i < |list|
    ensures var sp := SplitAtEntry(list, i, first); sp.start == i && sp.first == first && i < sp.end <= |list|
  {
  }

  lemma {:induction false} InterleavedNames(p: seq<Asm>, r: nat)
    ensures Named(Interleaved(p), r) ==> Named(p, r)
    decreases p
  {
    if p != [] && Named(Interleaved(p), r) {
      var front, e := p[..|p| - 1], p[|p| - 1];
      InterleavedNames(front, r);
      var k: nat :| k < |Interleaved(p)| && MentionedAt(Interleaved(p), r, k);
      if k < |Interleaved(front)| {
        assert MentionedAt(Interleaved(front), r, k);
        var j: nat :| j < |front| && MentionedAt(front, r, j);
        assert MentionedAt(p, r, j);
      } else {
        assert MentionedAt(p, r, |p| - 1);
      }
    }
  }

  lemma StrippedNames(t: seq<Asm>, r: nat)
    ensures Named(Stripped(t), r) <==> Named(t, r)
  {
    hide Stripped;
    var q := Stripped(t);
    WholePlace(t);
    if Named(q, r) {
      var k: nat :| k < |q| && MentionedAt(q, r, k);
      var i := ComesFrom(t, k, |t|);
      StaysAt(t, i);
      assert MentionedAt(t, r, i);
    }
    if Named(t, r) {
      var i: nat :| i < |t| && MentionedAt(t, r, i);
      StaysAt(t, i);
      assert MentionedAt(q, r, Place(t, i));
    }
  }

  /** Only the fresh numbers still named can lie above the new count; so it bounds the new list,
      or what it misses lies below a limit, exactly when that holds of them. */
  lemma SplitCountIff(p: seq<Asm>, first: nat, count: nat, limit: nat)
    requires BoundsRegisters(p, count)
    ensures var s := SplitConstantsOf(p, first);
      BoundsRegisters(s.list, count + s.count) <==>
        forall r: nat :: first <= r < s.first && Named(s.list, r) ==> r <= count + s.count
    ensures var s := SplitConstantsOf(p, first);
      MissedBelow(s.list, count + s.count, limit) <==>
        forall r: nat :: first <= r < s.first && Named(s.list, r) && r > count + s.count ==> r < limit
  {
    hide SplitAll, Stripped, Interleaved, MentionedAt;
    var t := SplitAll(Interleaved(p), 0, first, 0);
    var s := SplitConstantsOf(p, first);
    forall r: nat | Named(s.list, r) ensures r <= count || first <= r < s.first {
      StrippedNames(t.list, r);
      SplitAllNames(Interleaved(p), 0, first, 0, r);
      InterleavedNames(p, r);
    }
    assert forall i: nat, r: nat :: i < |s.list| && MentionedAt(s.list, r, i) ==> Named(s.list, r);
  }

  // ----- The pass, step by step -----

  ghost predicate SplitsSafe(p: seq<Asm>, first: nat) {
    (forall i :: 0 <= i < |p| ==> !IsRoom(p[i])) && AllSafe(Interleaved(p), 0, first)
  }

  lemma SplitConstantsKeep(p: seq<Asm>, first: nat)
    ensures SplitsSafe(p, first) ==> Equivalent(p, SplitConstantsOf(p, first).list)
  {
    hide Equivalent, SplitConstantsOf, AllSafe;
    if SplitsSafe(p, first) { SplitConstantsEquivalent(p, first); }
  }

  lemma SplitIsUnique(list: seq<Asm>, sp: Split, q: seq<Asm>)
    requires SplitInto(list, sp, q)
    ensures q == SplitOnce(list, sp)
  {
    hide SplitEntry;
  }

  /** Entry k when the uses before entry iter have been split. */
  function SplitUpTo(list: seq<Asm>, sp: Split, iter: nat, k: nat): Asm
    requires k < |list| && sp.start < |list|
  {
    if k + 2 < iter && FarUse(list, sp, k + 2) then LoadLow(list, sp, k + 2)
    else if k + 1 < iter && FarUse(list, sp, k + 1) && sp.end < |list| then LoadHigh(list, sp, k + 1)
    else if k < iter && FarUse(list, sp, k) then Retargeted(list[k], sp.reg, FreshFor(list, sp, k))
    else list[k]
  }

  lemma {:induction false} CountAtMost(list: seq<Asm>, i: nat, j: nat)
    requires i <= j <= |list|
    ensures CountInstructions(list, i, j) <= j - i
    decreases j
  {
    if i < j { CountAtMost(list, i, j - 1); }
  }

  lemma {:induction false} NoUsesYet(list: seq<Asm>, sp: Split)
    requires sp.start < |list|
    ensures forall i: nat :: i <= sp.start ==> !FarUse(list, sp, i) && !NearUse(list, sp, i)
    ensures FarUses(list, sp, sp.start + 1) == 0 && CountInstructions(list, sp.start + 1, sp.start + 1) == 0
  {
    hide CountInstructions;
    NoneCounted(list, sp, sp.start + 1);
    assert CountInstructions(list, sp.start + 1, sp.start + 1) == 0 by { CountAtMost(list, sp.start + 1, sp.start + 1); }
  }

  lemma {:induction false} NoneCounted(list: seq<Asm>, sp: Split, i: nat)
    requires i <= sp.start + 1
    ensures FarUses(list, sp, i) == 0
    decreases i
  {
    hide CountInstructions;
    if i > 0 { NoneCounted(list, sp, i - 1); }
  }

  lemma NoUsesBeyond(list: seq<Asm>, sp: Split)
    ensures forall i: nat :: i >= |list| ==> !FarUse(list, sp, i) && !NearUse(list, sp, i)
  {
    hide CountInstructions;
  }

  lemma {:induction false} NoneToEnd(list: seq<Asm>, i: nat, k: nat)
    requires i < k <= |list| && k <= LoadEnd(list, i, i + 1) < |list|
    ensures CountInstructions(list, i + 1, k) == 0
    decreases k
  {
    LoadEndFinds(list, i, i + 1);
    if k > i + 1 {
      assert PassedOver(list, k - 1);
      NoneToEnd(list, i, k - 1);
    }
  }

  lemma FewNearLoads(list: seq<Asm>, sp: Split, u: nat)
    requires sp.start < u <= |list| && sp.end == LoadEnd(list, sp.start, sp.start + 1) && sp.end < |list| && u <= sp.end + 2
    ensures CountInstructions(list, sp.start + 1, u) <= 2
  {
    if u <= sp.end {
      NoneToEnd(list, sp.start, u);
    } else {
      NoneToEnd(list, sp.start, sp.end);
      assert CountInstructions(list, sp.start + 1, sp.end + 1) <= 1;
    }
  }

  /** Far uses lie well behind both load entries. */
  lemma FarBehindLoads(list: seq<Asm>, sp: Split, u: nat)
    requires sp.start < |list| && sp.end == LoadEnd(list, sp.start, sp.start + 1) && FarUse(list, sp, u)
    ensures u > sp.start + 2 && (sp.end < |list| ==> u > sp.end + 2)
  {
    hide IsRead, IsWritten, CountInstructions, LoadEnd;
    CountAtMost(list, sp.start + 1, u);
    if sp.end < |list| && u <= sp.end + 2 { FewNearLoads(list, sp, u); }
  }

  lemma LoadsUntouched(list: seq<Asm>, sp: Split, iter: nat)
    requires sp.start < |list| && sp.end == LoadEnd(list, sp.start, sp.start + 1)
    ensures SplitUpTo(list, sp, iter, sp.start) == list[sp.start]
    ensures sp.end < |list| ==> SplitUpTo(list, sp, iter, sp.end) == list[sp.end]
  {
    hide FarUse, FarUses;
    forall u: nat | FarUse(list, sp, u) ensures u > sp.start + 2 && (sp.end < |list| ==> u > sp.end + 2) {
      FarBehindLoads(list, sp, u);
    }
  }

  /** What one more entry adds. */
  lemma SplitOneMore(list: seq<Asm>, sp: Split, iter: nat)
    requires sp.start < iter < |list| && sp.end == LoadEnd(list, sp.start, sp.start + 1)
    ensures SplitUpTo(list, sp, iter, iter) == list[iter]
    ensures CountInstructions(list, sp.start + 1, iter + 1) ==
      CountInstructions(list, sp.start + 1, iter) + (if IsBarrier(list[iter].assembler.cmd) then 0 else 1)
    ensures FarUses(list, sp, iter + 1) == FarUses(list, sp, iter) + (if FarUse(list, sp, iter) then 1 else 0)
    ensures FarUse(list, sp, iter) <==>
      !IsBarrier(list[iter].assembler.cmd) && IsRead(list[iter].assembler, sp.reg) && !IsWritten(list[iter].assembler, sp.reg) &&
      CountInstructions(list, sp.start + 1, iter) >= SPLIT_DISTANCE
    ensures NearUse(list, sp, iter) <==>
      !IsBarrier(list[iter].assembler.cmd) && IsRead(list[iter].assembler, sp.reg) && !IsWritten(list[iter].assembler, sp.reg) &&
      CountInstructions(list, sp.start + 1, iter) < SPLIT_DISTANCE
    ensures FarUse(list, sp, iter) ==> iter > sp.start + 2 && (sp.end < |list| ==> iter > sp.end + 2)
  {
    hide IsRead, IsWritten, IsBarrier;
    if FarUse(list, sp, iter) { FarBehindLoads(list, sp, iter); }
  }

  /** The list so far with the use at entry iter split. */
  function WithUseSplit(list: seq<Asm>, sp: Split, iter: nat, cur: seq<Asm>): seq<Asm>
    requires sp.start < |list| && 2 <= iter < |list| == |cur|
  {
    var low := cur[iter - 2 := LoadLow(list, sp, iter)];
    var high := if sp.end < |list| then low[iter - 1 := LoadHigh(list, sp, iter)] else low;
    high[iter := Retargeted(cur[iter], sp.reg, FreshFor(list, sp, iter))]
  }

  lemma SplitApplied(list: seq<Asm>, sp: Split, iter: nat, cur: seq<Asm>)
    requires sp.start < iter < |list| && sp.end == LoadEnd(list, sp.start, sp.start + 1)
    requires |cur| == |list| && forall k: nat :: k < |list| ==> cur[k] == SplitUpTo(list, sp, iter, k)
    ensures !FarUse(list, sp, iter) ==> forall k: nat :: k < |list| ==> cur[k] == SplitUpTo(list, sp, iter + 1, k)
    ensures FarUse(list, sp, iter) ==> iter >= 2
    ensures FarUse(list, sp, iter) ==>
      forall k: nat :: k < |list| ==> WithUseSplit(list, sp, iter, cur)[k] == SplitUpTo(list, sp, iter + 1, k)
  {
    hide FarUse, FarUses, LoadEnd, Retargeted, LoadLow, LoadHigh, FreshFor;
    SplitOneMore(list, sp, iter);
  }

  lemma NoneApplied(list: seq<Asm>, sp: Split, k: nat)
    requires k < |list| && sp.start < |list|
    ensures SplitUpTo(list, sp, sp.start + 1, k) == list[k]
  {
    hide FarUses, CountInstructions;
  }

  lemma SplitFinished(list: seq<Asm>, sp: Split, cur: seq<Asm>, q: seq<Asm>)
    requires sp.start < |list| == |cur| == |q| && forall k: nat :: k < |list| ==> cur[k] == SplitUpTo(list, sp, |list|, k)
    requires forall k: nat :: k < |list| ==>
      q[k] == if LoadGoes(list, sp) && k in {sp.start, sp.end} then Killed(cur[k]) else cur[k]
    ensures SplitInto(list, sp, q)
  {
    hide LoadGoes, FarUse, LoadLow, LoadHigh, Retargeted, FreshFor;
    NoUsesBeyond(list, sp);
  }

  // ----- The search seen from outside -----

  /** Entry e completes the load at entry i: it adds the upper half, with nothing but dead entries
      and comments between. */
  ghost predicate Completes(list: seq<Asm>, i: nat, e: nat) {
    i < e < |list| && list[e].assembler.cmd.ADDIU? && list[e].assembler.regDst == list[i].assembler.regDst &&
    list[e].assembler.regSrc == (if list[i].assembler.cmd.ADDI? then list[i].assembler.regDst else R(0)) &&
    forall j: nat :: i < j < e ==> PassedOver(list, j)
  }

  lemma {:induction false} LoadEndIff(list: seq<Asm>, i: nat, k: nat, e: nat)
    requires i < k <= |list| && forall j: nat :: i < j < k ==> PassedOver(list, j)
    ensures e < |list| ==> (LoadEnd(list, i, k) == e <==> k <= e && Completes(list, i, e))
    ensures Completes(list, i, e) ==> i < e < |list|
    decreases |list| - k
  {
    if k < |list| && PassedOver(list, k) { LoadEndIff(list, i, k + 1, e); }
  }

  /** What splitting is tried on: an entry that takes R0 and either is an ADDI or a dead start that
      some entry completes, with no later write of its register but that one. */
  lemma SplittableIff(list: seq<Asm>, i: nat)
    requires i < |list|
    ensures var a := list[i].assembler;
      Splittable(list, i) <==>
        a.regSrc == R(0) &&
        (a.cmd.ADDI? || ((a.cmd.INVALID? || a.cmd.COMMENT_NOP?) && exists e: nat :: Completes(list, i, e))) &&
        forall k: nat :: i < k < |list| && IsWritten(list[k].assembler, a.regDst) ==> Completes(list, i, k)
  {
    hide IsWritten, LoadEnd, Completes;
    var end, reg := LoadEnd(list, i, i + 1), list[i].assembler.regDst;
    forall e: nat ensures e < |list| ==> (end == e <==> Completes(list, i, e)) ensures Completes(list, i, e) ==> e < |list| {
      LoadEndIff(list, i, i + 1, e);
    }
    assert end < |list| <==> exists e: nat :: Completes(list, i, e) by {
      if end < |list| { assert Completes(list, i, end); }
    }
    assert OverwrittenAfter(list, i, end, reg) <==>
      exists k: nat :: i < k < |list| && IsWritten(list[k].assembler, reg) && !Completes(list, i, k);
  }

  /** Room is made before instructions only, and only messages stay exempt from optimisation. */
  lemma RoomShape(e: Asm)
    ensures |WithRoom(e)| == (if IsBarrier(e.assembler.cmd) then 1 else 3) && forall x :: x in WithRoom(e)[..|WithRoom(e)| - 1] ==> IsFree(x) && !x.noOpt
    ensures WithRoom(e)[|WithRoom(e)| - 1] ==
      if IsBarrier(e.assembler.cmd) then e else e.(noOpt := e.assembler.cmd in {MESSAGE, ERROR_MSG})
  {
  }
}
