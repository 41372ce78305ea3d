/** Lists on which splitting changes a program, or leaves registers above the count. */
module SplitCounterexamples {
  import opened Instructions
  import opened Machine
  import opened Liveness
  import opened LiveRanges
  import opened Allocation
  import opened JumpsAndLabels
  import opened UnusedRegisters
  import opened SplitRegisters
  import opened SplitConstants
  import opened SplitPlans
  import opened Counterexamples

  function Idle(): Asm { Asm(Assembler(NOP, [], Unset, Unset, Unset, [], NoLabel), false) }

  /** A load, ten instructions, a use. */
  function OneFarUse(): seq<Asm> {
    [Load(1, 0, 5), Idle(), Idle(), Idle(), Idle(), Idle(), Idle(), Idle(), Idle(), Idle(), Idle(), Send(1)]
  }

  function WaitFor(r1: nat, r2: nat): Asm { Asm(Assembler(WTRIG, [], R(r2), Unset, R(r1), [], NoLabel), false) }

  /** Two loads, ten instructions, and one use of both. */
  function SharedFarUse(): seq<Asm> {
    [Load(1, 0, 5), Load(2, 0, 7), Idle(), Idle(), Idle(), Idle(), Idle(), Idle(), Idle(), Idle(), Idle(), Idle(), WaitFor(1, 2)]
  }

  /** Without barriers entry k of the list with room comes from entry k / 3. */
  lemma {:induction false} InterleavedAt(p: seq<Asm>, k: nat)
    requires forall i :: 0 <= i < |p| ==> !IsBarrier(p[i].assembler.cmd)
    ensures |Interleaved(p)| == 3 * |p|
    ensures k < 3 * |p| ==> Interleaved(p)[k] == if k % 3 == 2 then Unflagged(p[k / 3]) else Room(p[k / 3])
    decreases p
  {
    hide IsBarrier;
    if p != [] {
      var front, e := p[..|p| - 1], p[|p| - 1];
      InterleavedAt(front, k);
      assert Interleaved(p) == Interleaved(front) + [Room(e), Room(e), Unflagged(e)];
    }
  }

  // ----- A register above the count -----

  /** Entry k of the first list with room. */
  function FarEntry(k: nat): Asm
    requires k < 36
  {
    if k % 3 == 2 then Unflagged(OneFarUse()[k / 3]) else Room(OneFarUse()[k / 3])
  }

  lemma FarKinds(i: nat)
    requires i < 12
    ensures |OneFarUse()| == 12
    ensures OneFarUse()[i] == if i == 0 then Load(1, 0, 5) else if i == 11 then Send(1) else Idle()
  {
  }

  lemma FarList(k: nat)
    requires k < 36
    ensures |Interleaved(OneFarUse())| == 36 && Interleaved(OneFarUse())[k] == FarEntry(k)
  {
    hide OneFarUse, Interleaved;
    forall i | 0 <= i < 12 ensures |OneFarUse()| == 12 && !IsBarrier(OneFarUse()[i].assembler.cmd) { FarKinds(i); }
    assert |OneFarUse()| == 12 by { FarKinds(0); }
    InterleavedAt(OneFarUse(), k);
  }

  /** What the entries do with registers. */
  lemma FarFacts(k: nat)
    requires k < 36
    ensures var a := FarEntry(k).assembler;
      (IsBarrier(a.cmd) <==> k % 3 != 2) && (a.cmd.INVALID? <==> k % 3 != 2) && !a.cmd.ADDIU? && !a.cmd.COMMENT_NOP? &&
      (a.regSrc == R(0) <==> k == 2) && (a.cmd.ADDI? <==> k == 2) && !IsBranch(a.cmd) && !a.cmd.END? &&
      (IsRead(a, R(1)) <==> k == 35) && (IsWritten(a, R(1)) <==> k == 2) &&
      Reads(a) == (if k == 35 then {1} else {}) && Writes(a) == (if k == 2 then {1} else {}) &&
      (k % 3 == 2 ==> Mentions(a) <= {1}) && (forall r: nat :: a.regDst == R(r) ==> r == 1) && (k == 2 ==> a.regDst == R(1))
  {
    hide OneFarUse;
    FarKinds(k / 3);
  }

  lemma FarLoadAt(k: nat)
    requires 3 <= k <= 36
    ensures |Interleaved(OneFarUse())| == 36 && LoadEnd(Interleaved(OneFarUse()), 2, k) == 36
    decreases 36 - k
  {
    hide OneFarUse, Interleaved, FarEntry;
    FarList(2);
    if k < 36 {
      FarList(k);
      FarFacts(k);
      FarLoadAt(k + 1);
    }
  }

  /** The only load found. */
  lemma FarCandidate(i: nat)
    ensures Candidate(Interleaved(OneFarUse()), i) <==> i == 2
  {
    hide OneFarUse, Interleaved, FarEntry, LoadEnd, IsWritten;
    var t := Interleaved(OneFarUse());
    FarList(0);
    if i < 36 {
      FarList(i);
      FarFacts(i);
      if i == 2 {
        FarLoadAt(3);
        forall k | 2 < k < 36 ensures !IsWritten(t[k].assembler, R(1)) { FarList(k); FarFacts(k); }
      }
    }
  }

  lemma FarUseOnly(u: nat)
    ensures Uses(Interleaved(OneFarUse()), R(1), u) <==> u == 35
  {
    hide OneFarUse, Interleaved, FarEntry, IsRead, IsWritten, IsBarrier;
    FarList(0);
    if u < 36 {
      FarList(u);
      FarFacts(u);
    }
  }

  lemma {:induction false} FarCount(k: nat)
    requires 3 <= k <= 35
    ensures |Interleaved(OneFarUse())| == 36 && CountInstructions(Interleaved(OneFarUse()), 3, k) == k / 3 - 1
    decreases k
  {
    hide OneFarUse, Interleaved, FarEntry, IsBarrier;
    FarList(k);
    if k > 3 {
      FarList(k - 1);
      FarFacts(k - 1);
      FarCount(k - 1);
    }
  }

  lemma {:induction false} FarUnneeded(k: nat, n: nat)
    requires k <= 2
    ensures !NeededIn(Interleaved(OneFarUse()), 1, k, n)
    decreases 2 - k
  {
    hide OneFarUse, Interleaved, FarEntry, Reads, Writes;
    var t := Interleaved(OneFarUse());
    FarList(k);
    FarFacts(k);
    if n > 0 && k < 2 {
      assert Successors(t, k) == {k + 1};
      FarUnneeded(k + 1, n - 1);
    }
  }

  lemma FarLone()
    ensures |Interleaved(OneFarUse())| == 36 && LoneLoad(Interleaved(OneFarUse()), 2)
  {
    hide OneFarUse, Interleaved, FarEntry, Reads, Writes, IsRead, LoadEnd, NeededIn;
    var t := Interleaved(OneFarUse());
    FarList(2);
    FarFacts(2);
    FarLoadAt(3);
    forall n: nat ensures !NeededIn(t, 1, 0, n) { FarUnneeded(0, n); }
    forall k: nat | k < 36
      ensures (1 in Writes(t[k].assembler) ==> k == 2) && (1 in Reads(t[k].assembler) ==> k > 2 && IsRead(t[k].assembler, R(1)))
    {
      FarList(k);
      FarFacts(k);
    }
  }

  /** Its loads stand apart whenever the register counter is past R1. */
  lemma FarApart(first: nat)
    requires first >= 2
    ensures SplitsApart(OneFarUse(), first)
  {
    hide OneFarUse, Interleaved, FarEntry, Uses, LoneLoad, Candidate, IsBarrier, Mentions;
    var t := Interleaved(OneFarUse());
    FarList(0);
    forall k: nat | k < 36
      ensures (!IsBarrier(t[k].assembler.cmd) ==> Mentions(t[k].assembler) <= {1}) && (forall r: nat :: t[k].assembler.regDst == R(r) ==> r == 1)
      ensures k == 2 ==> t[k].assembler.regDst == R(1)
    {
      FarList(k);
      FarFacts(k);
    }
    forall i: nat ensures Candidate(t, i) <==> i == 2 { FarCandidate(i); }
    FarLone();
    forall i | 0 <= i < |OneFarUse()| ensures !IsRoom(OneFarUse()[i]) { FarKinds(0); FarKinds(i); }
  }

  lemma {:induction false} FarCandidates(n: nat)
    ensures Candidates(Interleaved(OneFarUse()), n) == if n > 2 then 1 else 0
    decreases n
  {
    hide OneFarUse, Interleaved, Candidate;
    if n > 0 {
      FarCandidate(n - 1);
      FarCandidates(n - 1);
    }
  }

  /** Entries that are no loads are passed over. */
  lemma {:induction false} SkipTo(list: seq<Asm>, i: nat, j: nat, first: nat, count: nat)
    requires i <= j <= |list| && forall k: nat :: i <= k < j ==> !Candidate(list, k)
    ensures SplitAll(list, i, first, count) == SplitAll(list, j, first, count)
    decreases j - i
  {
    hide Splittable;
    if i < j {
      CandidateMeans(list, i);
      SkipTo(list, i + 1, j, first, count);
    }
  }

  lemma FarIsFar(first: nat)
    ensures |Interleaved(OneFarUse())| == 36 && FarUse(Interleaved(OneFarUse()), SplitAtEntry(Interleaved(OneFarUse()), 2, first), 35)
  {
    hide OneFarUse, Interleaved, FarEntry, Uses, LoadEnd, CountInstructions;
    FarList(2);
    FarFacts(2);
    FarUseOnly(35);
    FarCount(35);
  }

  lemma FarTakesOne(first: nat)
    ensures SplitConstantsOf(OneFarUse(), first).first > first
  {
    hide OneFarUse, Interleaved, FarUse, FarUses, Candidate, Splittable, SplitAll, SplitInto, SplitAtEntry;
    var t := Interleaved(OneFarUse());
    FarList(0);
    forall i: nat ensures Candidate(t, i) <==> i == 2 { FarCandidate(i); }
    SkipTo(t, 0, 2, first, 0);
    CandidateMeans(t, 2);
    FarIsFar(first);
    var sp := SplitAtEntry(t, 2, first);
    AtEntry(t, 2, first);
    FarUsesGrow(t, sp, 35, 36);
    SameLength(t, sp, SplitOnce(t, sp));
    SplitSteps(t, 2, first, 0);
    SplitAllNames(SplitOnce(t, sp), 3, first + FarUses(t, sp, 36), 1, 0);
  }

  lemma SplitSteps(list: seq<Asm>, i: nat, first: nat, count: nat)
    requires i < |list| && Splittable(list, i)
    ensures var sp := SplitAtEntry(list, i, first);
      |SplitOnce(list, sp)| == |list| && sp.start == i &&
      SplitAll(list, i, first, count) == SplitAll(SplitOnce(list, sp), i + 1, first + FarUses(list, sp, |list|), count + 1)
  {
    hide FarUses, Splittable, LoadEnd;
  }

  lemma FarUntouched()
    ensures RemoveFrom(OneFarUse(), 0, [], 0, true).0 == OneFarUse()
    ensures FoldsCounted(OneFarUse(), RemoveFrom(OneFarUse(), 0, [], 0, true).1)
  {
    hide RemoveFrom, OneFarUse, UsageFrom, Destination, WritesDst;
    var p := OneFarUse();
    RemovedIs(p);
    FarKinds(0);
    forall k | 0 <= k < 12 ensures TurnAt(p, k) in {Passed, Kept} { FarTurn(k); }
    NothingTouched(p, RemoveFrom(p, 0, [], 0, true).1);
  }

  lemma NothingTouched(p: seq<Asm>, count: nat)
    requires forall k :: 0 <= k < |p| ==> TurnAt(p, k) in {Passed, Kept}
    ensures Removed(p) == p && FoldsCounted(p, count)
  {
    hide TurnAt, KillWrite;
    forall k | 0 <= k < |p| ensures RemovedEntry(p, k) == p[k] {
      assert k > 0 ==> TurnAt(p, k - 1) in {Passed, Kept};
      assert !FoldedAway(p, k);
    }
    assert Removed(p) == p;
  }

  lemma FarTurn(k: nat)
    requires k < 12
    ensures |OneFarUse()| == 12 && TurnAt(OneFarUse(), k) in {Passed, Kept}
  {
    hide OneFarUse, UsageFrom, ExaminedBefore, FoldedAway;
    var p := OneFarUse();
    FarKinds(k);
    if k == 0 {
      forall i | 1 <= i < 12 ensures p[i] == if i == 11 then Send(1) else Idle() { FarKinds(i); }
      ReadLater(p, 1, 11);
      NoCopyNext(p);
      LoadFields(1, 0, 5);
    } else {
      NoWriter(p, k);
    }
  }

  lemma NoCopyNext(p: seq<Asm>)
    requires |p| > 1 && p[1] == Idle()
    ensures !CanFold(p, 0)
  {
  }

  lemma LoadFields(dst: nat, src: nat, imm: int)
    requires dst > 0
    ensures Destination(Load(dst, src, imm).assembler) == R(dst)
  {
  }

  lemma NoWriter(p: seq<Asm>, k: nat)
    requires k < |p| && p[k] in {Idle(), Send(1)}
    ensures TurnAt(p, k).Passed?
  {
    hide UsageFrom, ExaminedBefore, FoldedAway;
  }

  /** A register read further down is not found unread. */
  lemma {:induction false} ReadLater(p: seq<Asm>, i: nat, k: nat)
    requires i <= k < |p| && p[k] == Send(1) && forall j :: i <= j < k ==> p[j] == Idle()
    ensures var u := UsageFrom(p, i, R(1), false, false); u.GiveUp? || u.read
    decreases k - i
  {
    if i < k {
      ReadLater(p, i + 1, k);
    } else if UsageFrom(p, i, R(1), false, false).Flags? {
      UnusedRegisters.ScanFacts(p, i, R(1), false, false);
      assert UsedAsFlagged(p[k].assembler, R(1), UsageFrom(p, i, R(1), false, false));
    }
  }

  /** The register counter handed out numbers to code that is no longer there, so it is two past
      the count's next; the count handed on then misses the fresh register. */
  lemma SplitCountFallsShort()
    ensures var p := OneFarUse();
      var r := RemoveFrom(p, 0, [], 0, true);
      var s := SplitConstantsOf(p, r.1 + 3);
      r.0 == p && BoundsRegisters(p, r.1) && SplitsApart(p, r.1 + 3) && !BoundsRegisters(s.list, r.1 + s.count)
  {
    hide RemoveFrom, OneFarUse, FoldsCounted, BoundsRegisters, SplitConstantsOf, SplitsApart, Interleaved, Candidate;
    var p := OneFarUse();
    var c := RemoveFrom(p, 0, [], 0, true).1;
    FarUntouched();
    CountBoundsIff(p, 0);
    FarApart(c + 3);
    FarTakesOne(c + 3);
    FarList(0);
    FarCandidates(36);
    SplitsApartResult(p, c + 3, c, 0);
  }

  // ----- Two splits that want the same entries -----

  lemma SharedKinds(i: nat)
    requires i < 13
    ensures |SharedFarUse()| == 13
    ensures SharedFarUse()[i] ==
      if i == 0 then Load(1, 0, 5) else if i == 1 then Load(2, 0, 7) else if i == 12 then WaitFor(1, 2) else Idle()
  {
  }

  /** The list with room, after the first split, and after both. */
  function SharedEntry(k: nat, splits: nat): Asm
    requires k < 39
  {
    if splits >= 1 && k == 2 then Killed(Load(1, 0, 5))
    else if splits >= 2 && k == 5 then Killed(Load(2, 0, 7))
    else if splits == 1 && k == 36 then Load(3, 0, 5)
    else if splits >= 2 && k == 36 then Load(4, 0, 7)
    else if splits == 1 && k == 38 then WaitFor(3, 2)
    else if splits >= 2 && k == 38 then WaitFor(3, 4)
    else if k % 3 == 2 then Unflagged(SharedFarUse()[k / 3])
    else Room(SharedFarUse()[k / 3])
  }

  function SharedList(splits: nat): (t: seq<Asm>)
    ensures |t| == 39
  {
    seq(39, k requires 0 <= k < 39 => SharedEntry(k, splits))
  }

  lemma SharedInterleaved()
    ensures Interleaved(SharedFarUse()) == SharedList(0)
  {
    hide SharedFarUse, Interleaved;
    assert |SharedFarUse()| == 13 by { SharedKinds(0); }
    forall i | 0 <= i < 13 ensures !IsBarrier(SharedFarUse()[i].assembler.cmd) { SharedKinds(i); }
    InterleavedAt(SharedFarUse(), 0);
    forall k | 0 <= k < 39 ensures Interleaved(SharedFarUse())[k] == SharedList(0)[k] { InterleavedAt(SharedFarUse(), k); }
  }

  /** What the entries are, between the loads and the use. */
  lemma SharedFacts(k: nat, splits: nat)
    requires k < 39 && splits <= 2
    ensures var a := SharedEntry(k, splits).assembler;
      (IsBarrier(a.cmd) <==> (k % 3 != 2 && !(k == 36 && splits > 0)) || (k == 2 && splits > 0) || (k == 5 && splits > 1)) &&
      (IsBarrier(a.cmd) <==> a.cmd.INVALID?) && !a.cmd.ADDIU? && !a.cmd.COMMENT_NOP? &&
      (a.regSrc == R(0) <==> k in {2, 5} || (k == 36 && splits > 0)) &&
      (IsRead(a, R(1)) <==> k == 38 && splits == 0) && (IsRead(a, R(2)) <==> k == 38 && splits < 2) &&
      (IsWritten(a, R(1)) ==> k == 2) && (IsWritten(a, R(2)) ==> k == 5) &&
      (k != 38 && k % 3 == 2 && k > 5 ==> a.cmd.NOP?)
  {
    hide SharedFarUse;
    SharedKinds(k / 3);
  }

  lemma {:induction false} SharedEnd(k: nat, i: nat, splits: nat)
    requires splits <= 1 && i == 2 + 3 * splits && i < k <= 39
    ensures LoadEnd(SharedList(splits), i, k) == 39
    decreases 39 - k
  {
    hide SharedEntry;
    if k < 39 {
      SharedFacts(k, splits);
      SharedEnd(k + 1, i, splits);
    }
  }

  lemma Thirds(i: nat, k: nat)
    requires i % 3 == 2 && k > i + 1
    ensures (k - i - 1) / 3 == (k - 1 - i - 1) / 3 + (if (k - 1) % 3 == 2 then 1 else 0)
  {
  }

  lemma CountOneMore(list: seq<Asm>, i: nat, k: nat)
    requires i < k <= |list|
    ensures CountInstructions(list, i, k) == CountInstructions(list, i, k - 1) + (if IsBarrier(list[k - 1].assembler.cmd) then 0 else 1)
  {
    hide IsBarrier;
  }

  lemma SharedBarriers(k: nat, splits: nat)
    requires splits <= 1 && 2 + 3 * splits < k < 39
    ensures IsBarrier(SharedList(splits)[k].assembler.cmd) <==> k % 3 != 2 && !(k == 36 && splits == 1)
  {
    hide SharedEntry, IsBarrier;
    SharedFacts(k, splits);
  }

  /** Instructions behind the load, the reload of the first split included. */
  lemma {:induction false} SharedCount(k: nat, i: nat, splits: nat)
    requires splits <= 1 && i == 2 + 3 * splits && i < k <= 38
    ensures CountInstructions(SharedList(splits), i + 1, k) == (k - i - 1) / 3 + (if k > 36 && splits == 1 then 1 else 0)
    decreases k
  {
    hide SharedEntry, IsBarrier, SharedList, CountInstructions;
    var t := SharedList(splits);
    if k == i + 1 {
      CountAtMost(t, i + 1, k);
    } else {
      Thirds(i, k);
      CountOneMore(t, i + 1, k);
      assert IsBarrier(t[k - 1].assembler.cmd) <==> (k - 1) % 3 != 2 && !(k == 37 && splits == 1) by { SharedBarriers(k - 1, splits); }
      SharedCount(k - 1, i, splits);
    }
  }

  lemma SharedSplittable(splits: nat)
    requires splits <= 1
    ensures Splittable(SharedList(splits), 2 + 3 * splits)
    ensures SplitAtEntry(SharedList(splits), 2 + 3 * splits, 3 + splits) == Split(R(1 + splits), 2 + 3 * splits, 39, 3 + splits)
  {
    hide SharedEntry, IsWritten;
    var i := 2 + 3 * splits;
    SharedEnd(i + 1, i, splits);
    SharedLoad(splits);
    forall k | i < k < 39 ensures !IsWritten(SharedList(splits)[k].assembler, R(1 + splits)) { SharedFacts(k, splits); }
  }

  lemma SharedLoad(splits: nat)
    requires splits <= 1
    ensures SharedEntry(2 + 3 * splits, splits) == if splits == 0 then Load(1, 0, 5) else Load(2, 0, 7)
    ensures SharedEntry(38, splits) == if splits == 0 then WaitFor(1, 2) else WaitFor(3, 2)
  {
    SharedKinds(0);
    SharedKinds(1);
    SharedKinds(12);
  }

  function SharedSplit(splits: nat): Split { Split(R(1 + splits), 2 + 3 * splits, 39, 3 + splits) }

  lemma SharedFar(u: nat, splits: nat)
    requires splits <= 1
    ensures FarUse(SharedList(splits), SharedSplit(splits), u) <==> u == 38
    ensures !NearUse(SharedList(splits), SharedSplit(splits), u)
  {
    hide SharedEntry, IsRead, IsWritten, CountInstructions, IsBarrier;
    if u < 39 {
      SharedFacts(u, splits);
      if u == 38 { SharedCount(38, 2 + 3 * splits, splits); }
    }
  }

  lemma {:induction false} SharedTaken(n: nat, splits: nat)
    requires splits <= 1
    ensures FarUses(SharedList(splits), SharedSplit(splits), n) == if n > 38 then 1 else 0
    decreases n
  {
    hide SharedList, FarUse;
    if n > 0 {
      SharedFar(n - 1, splits);
      SharedTaken(n - 1, splits);
    }
  }

  /** What the split of each register leaves. */
  lemma SharedAfter(splits: nat)
    requires splits <= 1
    ensures SplitOnce(SharedList(splits), SharedSplit(splits)) == SharedList(splits + 1)
  {
    hide FarUse, NearUse, FarUses, SharedList;
    var t, sp := SharedList(splits), SharedSplit(splits);
    forall u: nat ensures (FarUse(t, sp, u) <==> u == 38) && !NearUse(t, sp, u) { SharedFar(u, splits); }
    assert FarUse(t, sp, 38) && LoadGoes(t, sp);
    forall k: nat | k < 39 ensures SplitEntry(t, sp, k) == SharedList(splits + 1)[k] { SharedEntryAfter(k, splits); }
    assert |SplitOnce(t, sp)| == |t|;
  }

  lemma SharedEntryAfter(k: nat, splits: nat)
    requires splits <= 1 && k < 39
    requires var t, sp := SharedList(splits), SharedSplit(splits); LoadGoes(t, sp) && forall u: nat :: FarUse(t, sp, u) <==> u == 38
    ensures SplitEntry(SharedList(splits), SharedSplit(splits), k) == SharedList(splits + 1)[k]
  {
    hide FarUse, NearUse, FarUses, LoadGoes;
    SharedTaken(38, splits);
    SharedLoad(splits);
    SharedKinds(k / 3);
  }

  lemma SharedNotFound(k: nat)
    requires k < 36
    ensures !Splittable(SharedList(0), k) || k in {2, 5}
    ensures k > 2 ==> !Splittable(SharedList(1), k) || k == 5
    ensures k > 5 ==> !Splittable(SharedList(2), k)
  {
    hide SharedEntry, OverwrittenAfter, LoadEnd;
    SharedFacts(k, 0);
    SharedFacts(k, 1);
    SharedFacts(k, 2);
  }

  /** With no far uses left the list stays as it is. */
  lemma {:induction false} NothingLeft(list: seq<Asm>, i: nat, first: nat, count: nat)
    requires i <= |list| && forall k: nat, f: nat :: i <= k < |list| && Splittable(list, k) ==> NoFarUse(list, SplitAtEntry(list, k, f))
    ensures SplitAll(list, i, first, count).list == list
    decreases |list| - i
  {
    hide Splittable, NoFarUse, FarUses, SplitAtEntry, SplitInto;
    if i < |list| {
      if Splittable(list, i) {
        var sp := SplitAtEntry(list, i, first);
        AtEntry(list, i, first);
        NothingSplit(list, sp);
        NothingLeft(list, i + 1, first + FarUses(list, sp, |list|), count + 1);
      } else {
        NothingLeft(list, i + 1, first, count);
      }
    }
  }

  lemma TooLate(list: seq<Asm>, k: nat, f: nat)
    requires k < |list| <= k + 11
    ensures NoFarUse(list, SplitAtEntry(list, k, f))
  {
    hide CountInstructions, IsRead, IsWritten, LoadEnd;
    var sp := SplitAtEntry(list, k, f);
    forall u: nat ensures !FarUse(list, sp, u) {
      if FarUse(list, sp, u) { CountAtMost(list, k + 1, u); }
    }
  }

  /** Both splits one after the other: the reload of R3 is overwritten by that of R4. */
  lemma SharedSplitAll()
    ensures SplitAll(SharedList(0), 0, 3, 0).list == SharedList(2)
  {
    hide SharedList, Splittable, FarUses, SplitAtEntry, SplitInto, NoFarUse;
    var t0, t1, t2 := SharedList(0), SharedList(1), SharedList(2);
    forall k: nat | k < 36
      ensures (!Splittable(t0, k) || k in {2, 5}) && (k > 2 ==> !Splittable(t1, k) || k == 5) && (k > 5 ==> !Splittable(t2, k))
    {
      SharedNotFound(k);
    }
    SkipTo(t0, 0, 2, 3, 0);
    SharedSplittable(0);
    SharedTaken(39, 0);
    SharedAfter(0);
    SplitSteps(t0, 2, 3, 0);
    SkipTo(t1, 3, 5, 4, 1);
    SharedSplittable(1);
    SharedTaken(39, 1);
    SharedAfter(1);
    SplitSteps(t1, 5, 4, 1);
    forall k: nat, f: nat | 6 <= k < 39 && Splittable(t2, k) ensures NoFarUse(t2, SplitAtEntry(t2, k, f)) { TooLate(t2, k, f); }
    NothingLeft(t2, 6, 5, 2);
  }

  // Both lists are run.

  function Waited(v1: Word, v2: Word): Event { Event(WTRIG, [], [], v2, v1) }

  lemma WaitStep(p: seq<Asm>, input: Input, s: State, r1: nat, r2: nat)
    requires s.pc < |p| && p[s.pc] == WaitFor(r1, r2)
    ensures Step(p, input, s) == State(s.pc + 1, s.regs, s.trace + [Waited(Get(s.regs, r1), Get(s.regs, r2))])
  {
    hide Get, Alu;
  }

  /** Over entries that do nothing. */
  lemma {:induction false} IdleRun(p: seq<Asm>, input: Input, s: State, t: State, n: nat, m: nat)
    requires Run(p, input, s, n) == t && t.pc + m <= |p|
    requires forall k: nat :: t.pc <= k < t.pc + m ==> IsSilent(p[k].assembler.cmd)
    ensures Run(p, input, s, n + m) == t.(pc := t.pc + m)
    decreases m
  {
    hide Run, Step;
    if m > 0 {
      IdleRun(p, input, s, t, n, m - 1);
      SilentStep(p, input, t.(pc := t.pc + m - 1));
      RunNext(p, input, s, n + m - 1, t.(pc := t.pc + m - 1), t.(pc := t.pc + m));
    }
  }

  lemma SmallLoads(regs: Registers)
    ensures Get(regs, 0) == 0 && Wrap(0 + 5) == 5 && Wrap(0 + 7) == 7
  {
  }

  lemma WaitedBefore(input: Input)
    ensures Run(SharedFarUse(), input, Entry(map[]), 13).trace == [Waited(5, 7)]
  {
    hide Run, Step, Get, Wrap;
    var p := SharedFarUse();
    var r0: Registers, r1: Registers, r2: Registers := map[], map[1 := 5], map[1 := 5, 2 := 7];
    SmallLoads(r0);
    SmallLoads(r1);
    NoSteps(p, input, Entry(r0));
    LoadStep(p, input, Entry(r0), 1, 0, 5);
    RunNext(p, input, Entry(r0), 0, Entry(r0), State(1, r1, []));
    LoadStep(p, input, State(1, r1, []), 2, 0, 7);
    RunNext(p, input, Entry(r0), 1, State(1, r1, []), State(2, r2, []));
    IdleRun(p, input, Entry(r0), State(2, r2, []), 2, 10);
    WaitStep(p, input, State(12, r2, []), 1, 2);
    RunNext(p, input, Entry(r0), 12, State(12, r2, []), State(13, r2, [Waited(Get(r2, 1), Get(r2, 2))]));
    HeldValues(r2);
  }

  lemma HeldValues(regs: Registers)
    ensures 1 in regs ==> Get(regs, 1) == regs[1]
    ensures 2 in regs ==> Get(regs, 2) == regs[2]
    ensures 4 in regs ==> Get(regs, 4) == regs[4]
    ensures 3 !in regs ==> Get(regs, 3) == 0
  {
  }

  lemma SharedIdle(k: nat)
    requires k < 36 || k == 37
    ensures IsSilent(SharedList(2)[k].assembler.cmd)
  {
    hide SharedFarUse;
    SharedKinds(k / 3);
  }

  lemma SharedLast()
    ensures SharedList(2)[36] == Load(4, 0, 7) && SharedList(2)[38] == WaitFor(3, 4)
  {
  }

  lemma WaitedAfter(input: Input)
    ensures Run(SharedList(2), input, Entry(map[]), 39).trace == [Waited(0, 7)]
  {
    hide Run, Step, Get, Wrap, SharedList;
    var p := SharedList(2);
    var r0: Registers, r1: Registers := map[], map[4 := 7];
    SmallLoads(r0);
    SharedLast();
    forall k: nat | k < 36 || k == 37 ensures IsSilent(p[k].assembler.cmd) { SharedIdle(k); }
    NoSteps(p, input, Entry(r0));
    IdleRun(p, input, Entry(r0), Entry(r0), 0, 36);
    LoadStep(p, input, State(36, r0, []), 4, 0, 7);
    RunNext(p, input, Entry(r0), 36, State(36, r0, []), State(37, r1, []));
    IdleRun(p, input, Entry(r0), State(37, r1, []), 37, 1);
    WaitStep(p, input, State(38, r1, []), 3, 4);
    RunNext(p, input, Entry(r0), 38, State(38, r1, []), State(39, r1, [Waited(Get(r1, 3), Get(r1, 4))]));
    HeldValues(r1);
  }

  /** Two runs that have shown different things at the same place. */
  lemma NotEquivalent(p: seq<Asm>, q: seq<Asm>, input: Input, regs: Registers, n: nat, m: nat, k: nat)
    requires k < |Run(p, input, Entry(regs), n).trace| && k < |Run(q, input, Entry(regs), m).trace|
    requires Run(p, input, Entry(regs), n).trace[k] != Run(q, input, Entry(regs), m).trace[k]
    ensures !Equivalent(p, q)
  {
    hide Step, Run;
    if Equivalent(p, q) {
      assert ShownBy(p, q, input, regs, n);
      var l: nat :| var s, t := Run(p, input, Entry(regs), n), Run(q, input, Entry(regs), l);
        s.trace <= t.trace && (Halted(p, s) ==> SameView(p, s, q, t));
      if l <= m {
        RunAdd(q, input, Entry(regs), l, m - l);
        TraceGrows(q, input, Run(q, input, Entry(regs), l), m - l);
      } else {
        RunAdd(q, input, Entry(regs), m, l - m);
        TraceGrows(q, input, Run(q, input, Entry(regs), m), l - m);
      }
    }
  }

  /** Two splits whose uses share an instruction: one reload overwrites the other, and the
      program waits for something else. The condition on the list handed in rules this out. */
  lemma SharedSlotsBreak()
    ensures !Equivalent(SharedFarUse(), SplitConstantsOf(SharedFarUse(), 3).list)
    ensures !SplitsApart(SharedFarUse(), 3)
  {
    hide SharedFarUse, SharedList, Run, Equivalent, SplitAll, Stripped, Interleaved, SplitsApart;
    var p, t := SharedFarUse(), SharedList(2);
    var input: Input := (_, _) => 0;
    SharedInterleaved();
    SharedSplitAll();
    WaitedBefore(input);
    WaitedAfter(input);
    NotEquivalent(p, t, input, map[], 13, 39, 0);
    StrippedPreserves(t);
    PreservesEquivalent(Stripped(t), t);
    if Equivalent(p, Stripped(t)) { EquivalentTransitive(p, Stripped(t), t); }
    if SplitsApart(p, 3) { SplitsApartResult(p, 3, 0, 0); }
  }

  // ----- A register loaded twice -----

  /** R1 holds v before the loop and w behind the first command in it; the load of w is split. */
  function LoadedTwice(v: int, w: int): seq<Asm> {
    [Load(1, 0, v), LabelHere(0), Send(1), Load(1, 0, w),
     Idle(), Idle(), Idle(), Idle(), Idle(), Idle(), Idle(), Idle(), Idle(), Idle(), Send(1), JumpTo(0)]
  }

  /** The list with room, and after the split. */
  function TwiceEntry(v: int, w: int, split: bool, k: nat): Asm
    requires k < 46
  {
    if split && k == 9 then Killed(Load(1, 0, w))
    else if split && k == 40 then Load(2, 0, w)
    else if split && k == 42 then Send(2)
    else if k == 2 then Load(1, 0, v)
    else if k == 3 then LabelHere(0)
    else if k == 9 then Load(1, 0, w)
    else if k == 6 || k == 42 then Send(1)
    else if k == 45 then JumpTo(0)
    else if k < 3 then Room(Load(1, 0, v))
    else if k % 3 == 0 then Idle()
    else Room(if k < 6 then Send(1) else if k < 9 then Load(1, 0, w) else if k < 40 then Idle() else if k < 42 then Send(1) else JumpTo(0))
  }

  function TwiceList(v: int, w: int, split: bool): (t: seq<Asm>)
    ensures |t| == 46
  {
    seq(46, k requires 0 <= k < 46 => TwiceEntry(v, w, split, k))
  }

  /** One more entry with its room. */
  lemma RoomAdded(p: seq<Asm>, e: Asm)
    ensures Interleaved(p + [e]) == Interleaved(p) + WithRoom(e)
  {
    assert (p + [e])[..|p|] == p;
  }

  lemma TwiceKinds(v: int, w: int)
    ensures forall e :: e in {Load(1, 0, v), Load(1, 0, w), Send(1), Idle(), JumpTo(0)} ==> WithRoom(e) == [Room(e), Room(e), e]
    ensures WithRoom(LabelHere(0)) == [LabelHere(0)]
  {
  }

  /** How many entries the first n of the list become. */
  function TwicePlace(n: nat): nat { if n < 2 then 3 * n else 3 * n - 2 }

  lemma TwicePart(v: int, w: int, n: nat)
    requires n < 16
    ensures |LoadedTwice(v, w)| == 16
    ensures TwiceList(v, w, false)[..TwicePlace(n + 1)] == TwiceList(v, w, false)[..TwicePlace(n)] + WithRoom(LoadedTwice(v, w)[n])
  {
    hide TwiceEntry, WithRoom, LoadedTwice;
    var t := TwiceList(v, w, false);
    TwiceKinds(v, w);
    TwiceGroup(v, w, n);
    var i := TwicePlace(n);
    if n == 1 {
      assert t[..4] == t[..3] + [t[3]];
    } else {
      assert t[..i + 3] == t[..i] + [t[i], t[i + 1], t[i + 2]];
    }
  }

  lemma {:induction false} TwiceParts(v: int, w: int, n: nat)
    requires n <= 16
    ensures |LoadedTwice(v, w)| == 16
    ensures Interleaved(LoadedTwice(v, w)[..n]) == TwiceList(v, w, false)[..TwicePlace(n)]
    decreases n
  {
    hide TwiceList, WithRoom, Interleaved;
    var p := LoadedTwice(v, w);
    hide LoadedTwice;
    if n == 0 {
      TwicePart(v, w, 0);
      assert p[..0] == [] && TwiceList(v, w, false)[..0] == [];
      NothingInterleaved();
    } else {
      TwiceParts(v, w, n - 1);
      TwicePart(v, w, n - 1);
      assert p[..n] == p[..n - 1] + [p[n - 1]];
      RoomAdded(p[..n - 1], p[n - 1]);
    }
  }

  lemma NothingInterleaved()
    ensures Interleaved([]) == []
  {
  }

  /** The entries that come from entry m. */
  lemma TwiceGroup(v: int, w: int, m: nat)
    requires m < 16
    ensures |LoadedTwice(v, w)| == 16
    ensures var e := LoadedTwice(v, w)[m]; var i := TwicePlace(m);
      if m == 1 then e == LabelHere(0) && TwiceEntry(v, w, false, 3) == e
      else e in {Load(1, 0, v), Load(1, 0, w), Send(1), Idle(), JumpTo(0)} &&
           TwiceEntry(v, w, false, i) == Room(e) && TwiceEntry(v, w, false, i + 1) == Room(e) && TwiceEntry(v, w, false, i + 2) == e
  {
    hide Load, Send, Idle, JumpTo, LabelHere, Room;
  }

  lemma TwiceInterleaved(v: int, w: int)
    ensures Interleaved(LoadedTwice(v, w)) == TwiceList(v, w, false)
  {
    hide Interleaved, TwiceEntry, TwiceList;
    TwiceParts(v, w, 16);
    assert LoadedTwice(v, w)[..16] == LoadedTwice(v, w);
    assert TwiceList(v, w, false)[..46] == TwiceList(v, w, false);
  }

  lemma TwiceFacts(v: int, w: int, split: bool, k: nat)
    requires k < 46
    ensures var a := TwiceEntry(v, w, split, k).assembler;
      (IsBarrier(a.cmd) <==> k == 3 || (k % 3 != 0 && k != 2 && !(split && k == 40)) || k == 0 || (split && k == 9)) &&
      !a.cmd.ADDIU? && !a.cmd.COMMENT_NOP? && (a.cmd.INVALID? ==> a.regSrc != R(0) || k == 9) &&
      (a.regSrc == R(0) && (a.cmd.ADDI? || a.cmd.INVALID?) <==> k in {2, 9} || (split && k == 40)) &&
      (IsRead(a, R(1)) <==> k == 6 || (k == 42 && !split)) &&
      (IsWritten(a, R(1)) <==> k == 2 || (k == 9 && !split)) &&
      (k > 9 && k < 42 && k % 3 == 0 ==> a.cmd.NOP?)
  {
  }

  lemma {:induction false} TwiceEnd(v: int, w: int, k: nat)
    requires 10 <= k <= 46
    ensures LoadEnd(TwiceList(v, w, false), 9, k) == 46
    decreases 46 - k
  {
    hide TwiceEntry;
    if k < 46 {
      TwiceFacts(v, w, false, k);
      TwiceEnd(v, w, k + 1);
    }
  }

  lemma TwiceBarriers(v: int, w: int, k: nat)
    requires 10 <= k < 46
    ensures IsBarrier(TwiceList(v, w, false)[k].assembler.cmd) <==> k % 3 != 0
  {
    hide TwiceEntry, IsBarrier;
    TwiceFacts(v, w, false, k);
  }

  lemma TwiceThirds(k: nat)
    requires k > 10
    ensures (k - 10) / 3 == (k - 1 - 10) / 3 + (if (k - 1) % 3 == 0 then 1 else 0)
  {
  }

  lemma {:induction false} TwiceCount(v: int, w: int, k: nat)
    requires 10 <= k <= 42
    ensures CountInstructions(TwiceList(v, w, false), 10, k) == (k - 10) / 3
    decreases k
  {
    hide TwiceList, CountInstructions, IsBarrier;
    var t := TwiceList(v, w, false);
    if k == 10 {
      CountAtMost(t, 10, k);
    } else {
      TwiceThirds(k);
      CountOneMore(t, 10, k);
      TwiceBarriers(v, w, k - 1);
      TwiceCount(v, w, k - 1);
    }
  }

  const TWICE_SPLIT := Split(R(1), 9, 46, 2)

  lemma TwiceSplittable(v: int, w: int)
    ensures Splittable(TwiceList(v, w, false), 9) && SplitAtEntry(TwiceList(v, w, false), 9, 2) == TWICE_SPLIT
  {
    hide TwiceEntry, IsWritten;
    TwiceEnd(v, w, 10);
    TwiceFacts(v, w, false, 9);
    assert TwiceEntry(v, w, false, 9) == Load(1, 0, w) by { TwiceLoads(v, w); }
    forall k | 9 < k < 46 ensures !IsWritten(TwiceList(v, w, false)[k].assembler, R(1)) { TwiceFacts(v, w, false, k); }
  }

  lemma TwiceLoads(v: int, w: int)
    ensures TwiceEntry(v, w, false, 9) == Load(1, 0, w) && TwiceEntry(v, w, false, 2) == Load(1, 0, v)
  {
  }

  lemma TwiceFar(v: int, w: int, u: nat)
    ensures FarUse(TwiceList(v, w, false), TWICE_SPLIT, u) <==> u == 42
    ensures !NearUse(TwiceList(v, w, false), TWICE_SPLIT, u)
  {
    hide TwiceEntry, IsRead, IsWritten, CountInstructions, IsBarrier;
    if u < 46 {
      TwiceFacts(v, w, false, u);
      if u == 42 { TwiceCount(v, w, 42); }
    }
  }

  lemma {:induction false} TwiceTaken(v: int, w: int, n: nat)
    ensures FarUses(TwiceList(v, w, false), TWICE_SPLIT, n) == if n > 42 then 1 else 0
    decreases n
  {
    hide TwiceList, FarUse;
    if n > 0 {
      TwiceFar(v, w, n - 1);
      TwiceTaken(v, w, n - 1);
    }
  }

  lemma TwiceEntryAfter(v: int, w: int, k: nat)
    requires k < 46
    requires var t := TwiceList(v, w, false); LoadGoes(t, TWICE_SPLIT) && forall u: nat :: FarUse(t, TWICE_SPLIT, u) <==> u == 42
    ensures SplitEntry(TwiceList(v, w, false), TWICE_SPLIT, k) == TwiceList(v, w, true)[k]
  {
    hide FarUse, NearUse, FarUses, LoadGoes;
    TwiceTaken(v, w, 42);
  }

  lemma TwiceAfter(v: int, w: int)
    ensures SplitOnce(TwiceList(v, w, false), TWICE_SPLIT) == TwiceList(v, w, true)
  {
    hide FarUse, NearUse, FarUses, TwiceList;
    var t := TwiceList(v, w, false);
    forall u: nat ensures (FarUse(t, TWICE_SPLIT, u) <==> u == 42) && !NearUse(t, TWICE_SPLIT, u) { TwiceFar(v, w, u); }
    assert FarUse(t, TWICE_SPLIT, 42) && LoadGoes(t, TWICE_SPLIT);
    forall k: nat | k < 46 ensures SplitEntry(t, TWICE_SPLIT, k) == TwiceList(v, w, true)[k] { TwiceEntryAfter(v, w, k); }
    assert |SplitOnce(t, TWICE_SPLIT)| == |t|;
  }

  /** The load of v is overwritten, that of w is split, and nothing else is. */
  lemma TwiceNotFound(v: int, w: int, k: nat)
    requires k < 40
    ensures k < 9 ==> !Candidate(TwiceList(v, w, false), k)
    ensures k > 9 ==> !Splittable(TwiceList(v, w, true), k)
  {
    hide TwiceEntry, LoadEnd, IsWritten;
    TwiceFacts(v, w, false, k);
    TwiceFacts(v, w, true, k);
    TwiceFacts(v, w, false, 9);
    if k == 2 { TwiceOverwritten(v, w); }
  }

  lemma TwiceOverwritten(v: int, w: int)
    ensures !Candidate(TwiceList(v, w, false), 2)
  {
    hide TwiceEntry, IsWritten;
    var t := TwiceList(v, w, false);
    TwiceLoads(v, w);
    TwiceFacts(v, w, false, 3);
    TwiceFacts(v, w, false, 9);
    assert t[3] == LabelHere(0) by { TwiceLabel(v, w); }
    assert LoadEnd(t, 2, 3) == 46;
    assert IsWritten(t[9].assembler, R(1));
  }

  lemma TwiceLabel(v: int, w: int)
    ensures TwiceEntry(v, w, false, 3) == LabelHere(0)
  {
  }

  lemma TwiceSplitAll(v: int, w: int)
    ensures SplitAll(TwiceList(v, w, false), 0, 2, 0).list == TwiceList(v, w, true)
  {
    hide TwiceList, Splittable, FarUses, SplitAtEntry, SplitInto, NoFarUse, Candidate;
    var t, q := TwiceList(v, w, false), TwiceList(v, w, true);
    forall k: nat | k < 40 ensures (k < 9 ==> !Candidate(t, k)) && (k > 9 ==> !Splittable(q, k)) { TwiceNotFound(v, w, k); }
    SkipTo(t, 0, 9, 2, 0);
    TwiceSplittable(v, w);
    TwiceTaken(v, w, 46);
    TwiceAfter(v, w);
    SplitSteps(t, 9, 2, 0);
    forall k: nat, f: nat | 10 <= k < 46 && Splittable(q, k) ensures NoFarUse(q, SplitAtEntry(q, k, f)) { TooLate(q, k, f); }
    NothingLeft(q, 10, 3, 1);
  }

  lemma {:induction false} SafeSkip(list: seq<Asm>, i: nat, j: nat, first: nat)
    requires i <= j <= |list| && AllSafe(list, i, first) && forall k: nat :: i <= k < j ==> !Candidate(list, k)
    ensures AllSafe(list, j, first)
    decreases j - i
  {
    hide Splittable, SafeSplit, NoFarUse, SplitInto;
    if i < j {
      CandidateMeans(list, i);
      SafeSkip(list, i + 1, j, first);
    }
  }

  lemma TwiceWritten(v: int, w: int)
    ensures 1 in Writes(TwiceList(v, w, false)[2].assembler)
  {
  }

  lemma TwiceNotSafe(v: int, w: int)
    ensures !AllSafe(TwiceList(v, w, false), 0, 2)
  {
    hide TwiceList, Splittable, FarUse, SplitAtEntry, SplitInto, Candidate, ReadsSeen, SlotsFree, FreshAbove, ConstantLoad, Needed, Writes;
    var t := TwiceList(v, w, false);
    forall k: nat | k < 9 ensures !Candidate(t, k) { TwiceNotFound(v, w, k); }
    TwiceSplittable(v, w);
    TwiceFar(v, w, 42);
    TwiceWritten(v, w);
    assert !LoadedOnce(t, TWICE_SPLIT);
    if AllSafe(t, 0, 2) {
      SafeSkip(t, 0, 9, 2);
      assert false;
    }
  }

  lemma TwiceTarget(v: int, w: int, split: bool)
    ensures Target(TwiceList(v, w, split), Label("l", 0)) == 3
  {
    assert Defines(TwiceList(v, w, split), 3, Label("l", 0));
    forall i | 0 <= i < 3 ensures !Defines(TwiceList(v, w, split), i, Label("l", 0)) {}
  }

  // Both lists are run: over the load of v to the first command, and round.

  lemma TwiceSilent(v: int, w: int, split: bool, k: nat)
    requires k < 46 && k !in {2, 6, 45} && (split || k !in {9, 42}) && (!split || k !in {40, 42})
    ensures IsSilent(TwiceList(v, w, split)[k].assembler.cmd)
  {
  }

  lemma TwiceActive(v: int, w: int, split: bool)
    ensures var t := TwiceList(v, w, split);
      t[2] == Load(1, 0, v) && t[6] == Send(1) && t[45] == JumpTo(0) &&
      (if split then t[40] == Load(2, 0, w) && t[42] == Send(2) else t[9] == Load(1, 0, w) && t[42] == Send(1))
  {
  }

  lemma TwoHeld(regs: Registers, a: Word)
    ensures Get(regs, 0) == 0 && Wrap(0 + 0) == 0
    ensures forall v: int :: Wrap(0 + v) == Wrap(v)
    ensures 1 in regs ==> Get(regs, 1) == regs[1]
    ensures 2 in regs ==> Get(regs, 2) == regs[2]
  {
  }

  /** The first three commands: v, w, and then what R1 holds. */
  lemma TwiceSent(v: int, w: int, split: bool, input: Input)
    ensures Run(TwiceList(v, w, split), input, Entry(map[]), 50).trace == [Sent(Wrap(v)), Sent(Wrap(w)), Sent(Wrap(if split then v else w))]
  {
    hide Run, Step, Get, Wrap, TwiceList, Target;
    var p, s := TwiceList(v, w, split), Entry(map[]);
    var r0: Registers, r1: Registers := map[], map[1 := Wrap(v)];
    var r2: Registers := if split then r1[2 := Wrap(w)] else r1[1 := Wrap(w)];
    TwiceActive(v, w, split);
    TwiceTarget(v, w, split);
    TwoHeld(r0, 0);
    TwoHeld(r1, 0);
    TwoHeld(r2, 0);
    forall k: nat | k < 46 && k !in {2, 6, 45} && (split || k !in {9, 42}) && (!split || k !in {40, 42}) ensures IsSilent(p[k].assembler.cmd) {
      TwiceSilent(v, w, split, k);
    }
    NoSteps(p, input, s);
    IdleRun(p, input, s, s, 0, 2);
    LoadStep(p, input, State(2, r0, []), 1, 0, v);
    RunNext(p, input, s, 2, State(2, r0, []), State(3, r1, []));
    IdleRun(p, input, s, State(3, r1, []), 3, 3);
    var t1 := [Sent(Wrap(v))];
    SendStep(p, input, State(6, r1, []), 1);
    RunNext(p, input, s, 6, State(6, r1, []), State(7, r1, t1));
    TwiceToSecond(p, v, w, split, input, r1, r2, t1);
    TwiceRound(p, v, w, split, input, r2, t1);
    assert t1 + [Sent(Wrap(w))] + [Sent(Get(r2, 1))] == [Sent(Wrap(v)), Sent(Wrap(w)), Sent(Wrap(if split then v else w))];
  }

  /** The second command, and round to the first. */
  lemma TwiceRound(p: seq<Asm>, v: int, w: int, split: bool, input: Input, regs: Registers, sent: seq<Event>)
    requires p == TwiceList(v, w, split) && Get(regs, if split then 2 else 1) == Wrap(w)
    requires Run(p, input, Entry(map[]), 42) == State(42, regs, sent)
    ensures Run(p, input, Entry(map[]), 50).trace == sent + [Sent(Wrap(w))] + [Sent(Get(regs, 1))]
  {
    hide Run, Step, Get, Wrap, TwiceList, Target;
    var s, all := Entry(map[]), sent + [Sent(Wrap(w))];
    TwiceActive(v, w, split);
    TwiceTarget(v, w, split);
    forall k: nat | k in {3, 4, 5, 43, 44} ensures IsSilent(p[k].assembler.cmd) { TwiceSilent(v, w, split, k); }
    SendStep(p, input, State(42, regs, sent), if split then 2 else 1);
    RunNext(p, input, s, 42, State(42, regs, sent), State(43, regs, all));
    IdleRun(p, input, s, State(43, regs, all), 43, 2);
    JumpStep(p, input, State(45, regs, all), 0);
    RunNext(p, input, s, 45, State(45, regs, all), State(3, regs, all));
    IdleRun(p, input, s, State(3, regs, all), 46, 3);
    SendStep(p, input, State(6, regs, all), 1);
    RunNext(p, input, s, 49, State(6, regs, all), State(7, regs, all + [Sent(Get(regs, 1))]));
  }

  /** From the first command to the second. */
  lemma TwiceToSecond(p: seq<Asm>, v: int, w: int, split: bool, input: Input, r1: Registers, r2: Registers, sent: seq<Event>)
    requires p == TwiceList(v, w, split) && r2 == if split then r1[2 := Wrap(w)] else r1[1 := Wrap(w)]
    requires Run(p, input, Entry(map[]), 7) == State(7, r1, sent)
    ensures Run(p, input, Entry(map[]), 42) == State(42, r2, sent)
  {
    hide Run, Step, Get, Wrap, TwiceList, Target;
    var s, k := Entry(map[]), if split then 40 else 9;
    TwiceActive(v, w, split);
    TwoHeld(r1, 0);
    forall k: nat | k < 46 && k !in {2, 6, 45} && (split || k !in {9, 42}) && (!split || k !in {40, 42}) ensures IsSilent(p[k].assembler.cmd) {
      TwiceSilent(v, w, split, k);
    }
    IdleRun(p, input, s, State(7, r1, sent), 7, k - 7);
    LoadStep(p, input, State(k, r1, sent), if split then 2 else 1, 0, w);
    RunNext(p, input, s, k, State(k, r1, sent), State(k + 1, r2, sent));
    IdleRun(p, input, s, State(k + 1, r2, sent), k + 1, 41 - k);
  }

  /** What holds on the way when both loads load the same. */
  ghost predicate SameLoads(v: int, s: State, t: State) {
    s.pc == t.pc <= 45 && s.trace == t.trace &&
    (s.pc >= 3 ==> Get(s.regs, 1) == Wrap(v) && Get(t.regs, 1) == Wrap(v)) && (41 <= s.pc <= 42 ==> Get(t.regs, 2) == Wrap(v))
  }

  lemma SameLoadsStep(v: int, w: int, input: Input, s: State, t: State)
    requires Wrap(v) == Wrap(w) && SameLoads(v, s, t)
    ensures SameLoads(v, Step(TwiceList(v, w, false), input, s), Step(TwiceList(v, w, true), input, t))
  {
    hide Step, TwiceList, Target, Wrap;
    var p, q := TwiceList(v, w, false), TwiceList(v, w, true);
    TwiceActive(v, w, false);
    TwiceActive(v, w, true);
    TwiceTarget(v, w, false);
    TwiceTarget(v, w, true);
    TwoHeld(s.regs, 0);
    if s.pc == 2 {
      LoadStep(p, input, s, 1, 0, v);
      LoadStep(q, input, t, 1, 0, v);
    } else if s.pc == 9 {
      LoadStep(p, input, s, 1, 0, w);
      TwiceSilent(v, w, true, 9);
      SilentStep(q, input, t);
    } else if s.pc == 40 {
      TwiceSilent(v, w, false, 40);
      SilentStep(p, input, s);
      LoadStep(q, input, t, 2, 0, w);
    } else if s.pc == 6 || s.pc == 42 {
      SendStep(p, input, s, 1);
      SendStep(q, input, t, if s.pc == 6 then 1 else 2);
    } else if s.pc == 45 {
      JumpStep(p, input, s, 0);
      JumpStep(q, input, t, 0);
    } else {
      TwiceSilent(v, w, false, s.pc);
      TwiceSilent(v, w, true, s.pc);
      SilentStep(p, input, s);
      SilentStep(q, input, t);
    }
  }

  lemma {:induction false} SameLoadsRun(v: int, w: int, input: Input, s: State, t: State, n: nat)
    requires Wrap(v) == Wrap(w) && SameLoads(v, s, t)
    ensures SameLoads(v, Run(TwiceList(v, w, false), input, s, n), Run(TwiceList(v, w, true), input, t, n))
    decreases n
  {
    hide Step, Wrap, SameLoads, TwiceList;
    if n > 0 {
      SameLoadsStep(v, w, input, s, t);
      SameLoadsRun(v, w, input, Step(TwiceList(v, w, false), input, s), Step(TwiceList(v, w, true), input, t), n - 1);
    }
  }

  lemma SameLoadsPreserved(v: int, w: int)
    requires Wrap(v) == Wrap(w)
    ensures Preserves(TwiceList(v, w, false), TwiceList(v, w, true))
  {
    hide Step, Wrap, Run;
    var p, q := TwiceList(v, w, false), TwiceList(v, w, true);
    forall input: Input, regs: Registers, n: nat ensures Follows(p, q, input, regs, n) {
      SameLoadsRun(v, w, input, Entry(regs), Entry(regs), n);
      assert SameView(p, Run(p, input, Entry(regs), n), q, Run(q, input, Entry(regs), n));
    }
  }

  lemma TwiceEquivalentIff(v: int, w: int)
    ensures Equivalent(TwiceList(v, w, false), TwiceList(v, w, true)) <==> Wrap(v) == Wrap(w)
  {
    hide Run, Wrap, Equivalent, TwiceList, Preserves;
    var p, q := TwiceList(v, w, false), TwiceList(v, w, true);
    if Wrap(v) == Wrap(w) {
      SameLoadsPreserved(v, w);
      PreservesEquivalent(p, q);
    } else {
      var input: Input := (_, _) => 0;
      TwiceSent(v, w, false, input);
      TwiceSent(v, w, true, input);
      NotEquivalent(p, q, input, map[], 50, 50, 2);
    }
  }

  /** Splitting treats all these lists alike, and the split it makes is never safe; whether an
      observer sees it depends on the two values and on nothing else. */
  lemma LoadedTwiceIff(v: int, w: int)
    ensures !SplitsSafe(LoadedTwice(v, w), 2)
    ensures Equivalent(LoadedTwice(v, w), SplitConstantsOf(LoadedTwice(v, w), 2).list) <==> Wrap(v) == Wrap(w)
  {
    hide LoadedTwice, TwiceList, Run, Equivalent, Preserves, SplitAll, Stripped, Interleaved, AllSafe, Wrap, IsRoom;
    var p, t, q := LoadedTwice(v, w), TwiceList(v, w, false), TwiceList(v, w, true);
    TwiceInterleaved(v, w);
    TwiceNotSafe(v, w);
    TwiceSplitAll(v, w);
    TwiceEquivalentIff(v, w);
    assert forall i :: 0 <= i < |p| ==> !IsRoom(p[i]) by { TwiceNoRoom(v, w); }
    InterleavedPreserves(p);
    PreservesEquivalent(p, t);
    EquivalentSymmetric(p, t);
    StrippedPreserves(q);
    PreservesEquivalent(Stripped(q), q);
    EquivalentSymmetric(Stripped(q), q);
    if Equivalent(t, q) { EquivalentTransitive(p, t, q); EquivalentTransitive(p, q, Stripped(q)); }
    if Equivalent(p, Stripped(q)) { EquivalentTransitive(t, p, Stripped(q)); EquivalentTransitive(t, Stripped(q), q); }
  }

  lemma TwiceNoRoom(v: int, w: int)
    ensures forall i :: 0 <= i < |LoadedTwice(v, w)| ==> !IsRoom(LoadedTwice(v, w)[i])
  {
  }
}
