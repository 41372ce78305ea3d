/** When splitting every constant register is right, judged on the list before it, and what it
    does to the register count. */
module SplitPlans {
  import opened Instructions
  import opened Machine
  import opened Liveness
  import opened LiveRanges
  import opened Allocation
  import opened SplitRegisters
  import opened SplitConstants

  // ----- The condition -----

  /** Entry u uses the register loaded at entry i and may end up far enough behind to be split. */
  predicate MayBeFar(t: seq<Asm>, i: nat, u: nat)
    requires i < |t|
  {
    Uses(t, t[i].assembler.regDst, u) && u > i + SPLIT_DISTANCE
  }

  /** The load at entry i is the only write of its register, above all its reads, and not
      interleaved with another dead start. */
  ghost predicate LoneLoad(t: seq<Asm>, i: nat)
    requires i < |t|
  {
    var sp := SplitAtEntry(t, i, 0);
    sp.reg.R? && LoadedOnce(t, sp) && ReadsSeen(t, sp) && !Needed(t, sp.reg.number, 0) &&
    forall k: nat :: i < k < sp.end < |t| ==> t[k].assembler.regSrc != R(0)
  }

  ghost predicate Candidate(t: seq<Asm>, i: nat) { i < |t| && Splittable(t, i) }

  /** Entry i is a load that splitting may rewrite a use of. */
  ghost predicate Splits(t: seq<Asm>, i: nat, u: nat) { Candidate(t, i) && MayBeFar(t, i, u) }

  /** Loads that may be split stand alone, and no entry may be a far use of two of them. */
  ghost predicate LoadsApart(t: seq<Asm>, first: nat) {
    (forall k: nat, r: nat :: k < |t| && MentionedAt(t, r, k) ==> r < first) &&
    (forall k: nat, r: nat :: k < |t| && t[k].assembler.regDst == R(r) ==> r < first) &&
    (forall i: nat :: Candidate(t, i) ==> t[i].assembler.regDst.R? && 0 < t[i].assembler.regDst.number < first) &&
    (forall i: nat, u: nat :: Splits(t, i, u) ==> LoneLoad(t, i)) &&
    forall i: nat, j: nat, u: nat :: Splits(t, i, u) && Splits(t, j, u) ==> i == j
  }

  /** Room stands before every instruction. */
  ghost predicate HasRoom(t: seq<Asm>) {
    forall u: nat :: u < |t| && !IsBarrier(t[u].assembler.cmd) ==> u >= 2 && IsFree(t[u - 1]) && IsFree(t[u - 2])
  }

  /** The condition on the list handed to the pass. */
  ghost predicate SplitsApart(p: seq<Asm>, first: nat) {
    (forall i :: 0 <= i < |p| ==> !IsRoom(p[i])) && 0 < first && LoadsApart(Interleaved(p), first)
  }

  // ----- What the list looks like between two splits -----

  function EndOf(t: seq<Asm>, i: nat): nat
    requires i < |t|
  {
    LoadEnd(t, i, i + 1)
  }

  /** One of the loads before entry i whose use u may have been split. */
  ghost predicate Done(t0: seq<Asm>, i: nat, j: nat, u: nat) { j < i && Splits(t0, j, u) }

  /** Entry k of the load j that is gone. */
  ghost predicate Dropped(t0: seq<Asm>, t: seq<Asm>, i: nat, k: nat, j: nat, u: nat)
    requires k < |t0| == |t|
  {
    Done(t0, i, j, u) && (k == j || k == EndOf(t0, j)) && t[k] == Killed(t0[k])
  }

  /** The use u of load j reads the fresh register f, reloaded in the two entries before it. */
  ghost predicate Reloaded(t0: seq<Asm>, t: seq<Asm>, i: nat, u: nat, j: nat, f: nat)
    requires |t0| == |t|
  {
    2 <= u < |t| && Done(t0, i, j, u) &&
    t[u - 2] == Reload(t0[j], R(f), R(0)) &&
    t[u - 1] == (if EndOf(t0, j) < |t0| then Reload(t0[EndOf(t0, j)], R(f), if t0[j].assembler.cmd.ADDI? then R(f) else R(0))
                 else t0[u - 1]) &&
    t[u] == Retargeted(t0[u], t0[j].assembler.regDst, R(f))
  }

  ghost predicate EntryPlanned(t0: seq<Asm>, t: seq<Asm>, i: nat, first: nat, cur: nat, k: nat)
    requires k < |t0| == |t|
  {
    t[k] == t0[k] ||
    (exists j: nat, u: nat :: Dropped(t0, t, i, k, j, u)) ||
    (exists u: nat, j: nat, f: nat :: k <= u <= k + 2 && first <= f < cur && Reloaded(t0, t, i, u, j, f))
  }

  /** A fresh register is named within three entries only. */
  ghost predicate Near(t: seq<Asm>, first: nat) {
    forall f: nat, k: nat, l: nat :: f >= first && k < |t| && l < |t| && MentionedAt(t, f, k) && MentionedAt(t, f, l) ==> l <= k + 2
  }

  ghost predicate Taken(t0: seq<Asm>, t: seq<Asm>, i: nat, f: nat)
    requires |t| == |t0|
  {
    exists u: nat, j: nat :: Reloaded(t0, t, i, u, j, f)
  }

  /** Every fresh register taken is the one of some use. */
  ghost predicate AllTaken(t0: seq<Asm>, t: seq<Asm>, i: nat, first: nat, cur: nat)
    requires |t| == |t0|
  {
    forall f: nat :: first <= f < cur ==> Taken(t0, t, i, f)
  }

  ghost predicate Planned(t0: seq<Asm>, t: seq<Asm>, i: nat, first: nat, cur: nat) {
    |t| == |t0| && i <= |t| && 0 < first <= cur && LoadsApart(t0, first) && HasRoom(t0) &&
    (forall k: nat :: k < |t| ==> EntryPlanned(t0, t, i, first, cur, k)) &&
    Near(t, first) && AllTaken(t0, t, i, first, cur)
  }

  // ----- What every entry keeps -----

  /** The rewritten entry goes the same way, and reads, writes and uses no other register of the
      original list. */
  ghost predicate Tame(e0: Asm, e: Asm, first: nat) {
    var a, b := e0.assembler, e.assembler;
    (IsBranch(b.cmd) <==> IsBranch(a.cmd)) && (b.cmd.LABEL? <==> a.cmd.LABEL?) && (b.cmd.END? <==> a.cmd.END?) &&
    (IsBranch(a.cmd) || a.cmd.LABEL? ==> b.cmd == a.cmd && b.lbl == a.lbl && (b.regSrc == R(0) <==> a.regSrc == R(0))) &&
    (forall r: nat :: r < first && r in Reads(b) ==> r in Reads(a) && (IsRead(a, R(r)) ==> IsRead(b, R(r)))) &&
    (forall r: nat :: r < first && IsWritten(b, R(r)) ==> IsWritten(a, R(r))) &&
    (forall r: nat :: r < first && r in Writes(b) ==> r in Writes(a)) &&
    (forall r: nat :: 0 < r < first && !IsBarrier(b.cmd) && IsRead(b, R(r)) && !IsWritten(b, R(r)) ==>
       !IsBarrier(a.cmd) && IsRead(a, R(r)) && !IsWritten(a, R(r)))
  }

  lemma TameItself(e: Asm, first: nat)
    ensures Tame(e, e, first)
  {
  }

  lemma TameKilled(e: Asm, first: nat)
    requires e.assembler.cmd in {ADDI, ADDIU, INVALID, COMMENT_NOP}
    ensures Tame(e, Killed(e), first)
  {
  }

  lemma TameReload(e0: Asm, load: Asm, first: nat, f: nat, src: Register)
    requires e0.assembler.cmd.INVALID? && load.assembler.cmd in {ADDI, ADDIU, INVALID, COMMENT_NOP}
    requires first > 0 && f >= first && src in {R(0), R(f)}
    ensures Tame(e0, Reload(load, R(f), src), first)
  {
  }

  lemma TameRetargeted(e: Asm, n: nat, f: nat, first: nat)
    requires 0 < n < first <= f && !IsBarrier(e.assembler.cmd) && IsRead(e.assembler, R(n)) && !IsWritten(e.assembler, R(n))
    ensures Tame(e, Retargeted(e, R(n), R(f)), first)
  {
    var a, b := e.assembler, Retargeted(e, R(n), R(f)).assembler;
    assert IsBranch(a.cmd) ==> (b.regSrc == R(0) <==> a.regSrc == R(0));
    assert WritesAux(a.cmd) ==> b.regAux == a.regAux;
  }

  /** The entries of a load. */
  lemma LoadEntries(t: seq<Asm>, j: nat)
    requires Candidate(t, j)
    ensures t[j].assembler.cmd in {ADDI, INVALID, COMMENT_NOP} && t[j].assembler.regSrc == R(0) && j < EndOf(t, j)
    ensures EndOf(t, j) < |t| ==>
      var b := t[EndOf(t, j)].assembler;
      b.cmd.ADDIU? && b.regDst == t[j].assembler.regDst && b.regSrc == (if t[j].assembler.cmd.ADDI? then t[j].assembler.regDst else R(0)) &&
      forall k: nat :: j < k < EndOf(t, j) ==> PassedOver(t, k)
    ensures EndOf(t, j) == |t| ==> t[j].assembler.cmd.ADDI?
  {
    hide OverwrittenAfter;
    LoadEndFinds(t, j, j + 1);
  }

  lemma UseFacts(t0: seq<Asm>, first: nat, j: nat, u: nat)
    requires LoadsApart(t0, first) && HasRoom(t0) && Splits(t0, j, u)
    ensures 2 <= u < |t0| && j < u && IsFree(t0[u - 1]) && IsFree(t0[u - 2]) && !IsBarrier(t0[u].assembler.cmd)
    ensures exists n: nat :: 0 < n < first && t0[j].assembler.regDst == R(n) && IsRead(t0[u].assembler, R(n)) && !IsWritten(t0[u].assembler, R(n))
    ensures LoneLoad(t0, j)
  {
    hide IsRead, IsWritten, Splittable, LoneLoad, IsFree;
    assert Candidate(t0, j);
  }

  lemma EntryTame(t0: seq<Asm>, t: seq<Asm>, i: nat, first: nat, cur: nat, k: nat)
    requires Planned(t0, t, i, first, cur) && k < |t|
    ensures Tame(t0[k], t[k], first)
  {
    hide Tame, LoadsApart, HasRoom, Near, AllTaken, Retargeted, Reload, IsRead, IsWritten, Splittable, MayBeFar, LoneLoad;
    assert EntryPlanned(t0, t, i, first, cur, k);
    if t[k] == t0[k] {
      TameItself(t0[k], first);
    } else if exists j: nat, u: nat :: Dropped(t0, t, i, k, j, u) {
      var j: nat, u: nat :| Dropped(t0, t, i, k, j, u);
      LoadEntries(t0, j);
      TameKilled(t0[k], first);
    } else {
      var u: nat, j: nat, f: nat :| k <= u <= k + 2 && first <= f < cur && Reloaded(t0, t, i, u, j, f);
      UseFacts(t0, first, j, u);
      LoadEntries(t0, j);
      if k == u {
        var n: nat :| 0 < n < first && t0[j].assembler.regDst == R(n) && IsRead(t0[u].assembler, R(n)) && !IsWritten(t0[u].assembler, R(n));
        TameRetargeted(t0[u], n, f, first);
      } else {
        TameReload(t0[k], if k + 2 == u then t0[j] else t0[EndOf(t0, j)], first, f,
                   if k + 1 == u && t0[j].assembler.cmd.ADDI? then R(f) else R(0));
      }
    }
  }

  // ----- Which entries are split next -----

  /** Uses end the search for the second entry of a load. */
  lemma UseEndsSearch(e: Asm, load: Asm, n: nat)
    requires n > 0 && !IsBarrier(e.assembler.cmd) && IsRead(e.assembler, R(n)) && !IsWritten(e.assembler, R(n))
    ensures !e.assembler.cmd.COMMENT_NOP? && !e.assembler.cmd.INVALID?
    ensures !(e.assembler.cmd.ADDIU? && e.assembler.regDst == load.assembler.regDst &&
              e.assembler.regSrc == (if load.assembler.cmd.ADDI? then e.assembler.regDst else R(0)))
  {
  }

  /** The same for the use with its register exchanged. */
  lemma SwappedEndsSearch(e: Asm, load: Asm, n: nat, f: nat)
    requires n > 0 && f > 0 && !IsBarrier(e.assembler.cmd) && IsRead(e.assembler, R(n)) && !IsWritten(e.assembler, R(n))
    requires load.assembler.regDst != R(f)
    ensures var b := Retargeted(e, R(n), R(f)).assembler;
      !b.cmd.COMMENT_NOP? && !b.cmd.INVALID? &&
      !(b.cmd.ADDIU? && b.regDst == load.assembler.regDst && b.regSrc == (if load.assembler.cmd.ADDI? then b.regDst else R(0)))
  {
  }

  ghost predicate NothingInside(t0: seq<Asm>, i: nat) {
    forall j: nat, u: nat :: Done(t0, i, j, u) ==> !(i < EndOf(t0, j) < |t0|)
  }

  /** A candidate stands inside no load already split. */
  lemma CandidateNotInside(t0: seq<Asm>, first: nat, i: nat)
    requires LoadsApart(t0, first) && HasRoom(t0) && i < |t0| && t0[i].assembler.regSrc == R(0)
    ensures NothingInside(t0, i)
  {
    hide IsRead, IsWritten, Splittable, MayBeFar, LoadEnd;
    forall j: nat, u: nat | Done(t0, i, j, u) ensures !(i < EndOf(t0, j) < |t0|) {
      UseFacts(t0, first, j, u);
    }
  }

  /** The search for the second entry of a load ends alike in both lists. */
  lemma {:induction false} SameEnd(t0: seq<Asm>, t: seq<Asm>, i: nat, first: nat, cur: nat, m: nat)
    requires Planned(t0, t, i, first, cur) && i < m <= |t| && t[i] == t0[i] && NothingInside(t0, i)
    requires forall f: nat :: f >= first ==> t0[i].assembler.regDst != R(f)
    ensures LoadEnd(t, i, m) == LoadEnd(t0, i, m)
    decreases |t| - m
  {
    hide LoadsApart, HasRoom, Near, AllTaken, Retargeted, IsRead, IsWritten, Splittable, MayBeFar, LoneLoad, NothingInside;
    if m < |t| {
      SameEnd(t0, t, i, first, cur, m + 1);
      assert EntryPlanned(t0, t, i, first, cur, m);
      if t[m] == t0[m] {
      } else if exists j: nat, u: nat :: Dropped(t0, t, i, m, j, u) {
        var j: nat, u: nat :| Dropped(t0, t, i, m, j, u);
        assert false by { InsideIsNot(t0, i, j, u); }
      } else {
        var u: nat, j: nat, f: nat :| m <= u <= m + 2 && first <= f < cur && Reloaded(t0, t, i, u, j, f);
        UseFacts(t0, first, j, u);
        var n: nat :| 0 < n < first && t0[j].assembler.regDst == R(n) && IsRead(t0[u].assembler, R(n)) && !IsWritten(t0[u].assembler, R(n));
        UseEndsSearch(t0[u], t0[i], n);
        SwappedEndsSearch(t0[u], t0[i], n, f);
        if m == u {
        } else {
          if m + 1 < u { assert LoadEnd(t0, i, m + 1) == LoadEnd(t0, i, m + 2); }
          assert LoadEnd(t0, i, u) == |t0|;
          LoadEntries(t0, j);
        }
      }
    }
  }

  lemma InsideIsNot(t0: seq<Asm>, i: nat, j: nat, u: nat)
    requires NothingInside(t0, i) && Done(t0, i, j, u)
    ensures !(i < EndOf(t0, j) < |t0|) && j < i
  {
  }

  /** Writes of a register behind entry i are those of the original list. */
  lemma SameOverwrites(t0: seq<Asm>, t: seq<Asm>, i: nat, first: nat, cur: nat, reg: Register, end: nat)
    requires Planned(t0, t, i, first, cur) && NothingInside(t0, i)
    requires forall f: nat :: f >= first ==> reg != R(f)
    ensures OverwrittenAfter(t, i, end, reg) <==> OverwrittenAfter(t0, i, end, reg)
  {
    hide LoadsApart, HasRoom, Near, AllTaken, Retargeted, IsWritten, Splittable, MayBeFar, LoneLoad, NothingInside;
    forall k: nat | i < k < |t| ensures IsWritten(t[k].assembler, reg) <==> IsWritten(t0[k].assembler, reg) {
      WritesKept(t0, t, i, first, cur, reg, k);
    }
  }

  lemma WritesKept(t0: seq<Asm>, t: seq<Asm>, i: nat, first: nat, cur: nat, reg: Register, k: nat)
    requires Planned(t0, t, i, first, cur) && NothingInside(t0, i) && i < k < |t|
    requires forall f: nat :: f >= first ==> reg != R(f)
    ensures IsWritten(t[k].assembler, reg) <==> IsWritten(t0[k].assembler, reg)
  {
    hide LoadsApart, HasRoom, Near, AllTaken, Retargeted, IsRead, IsWritten, Splittable, MayBeFar, LoneLoad, NothingInside, Reload;
    assert EntryPlanned(t0, t, i, first, cur, k);
    if t[k] == t0[k] {
    } else if exists j: nat, u: nat :: Dropped(t0, t, i, k, j, u) {
      var j: nat, u: nat :| Dropped(t0, t, i, k, j, u);
      InsideIsNot(t0, i, j, u);
      assert false;
    } else {
      var u: nat, j: nat, f: nat :| k <= u <= k + 2 && first <= f < cur && Reloaded(t0, t, i, u, j, f);
      UseFacts(t0, first, j, u);
      LoadEntries(t0, j);
      if k == u {
        var n: nat :| 0 < n < first && t0[j].assembler.regDst == R(n) && IsRead(t0[u].assembler, R(n)) && !IsWritten(t0[u].assembler, R(n));
        RetargetedWrites(t0[u], n, f, reg);
      } else {
        ReloadWrites(t0[k], if k + 2 == u then t0[j] else t0[EndOf(t0, j)], f, if k + 1 == u && t0[j].assembler.cmd.ADDI? then R(f) else R(0), reg);
      }
    }
  }

  lemma RetargetedWrites(e: Asm, n: nat, f: nat, reg: Register)
    requires !IsWritten(e.assembler, R(n)) && reg != R(f)
    ensures IsWritten(Retargeted(e, R(n), R(f)).assembler, reg) <==> IsWritten(e.assembler, reg)
  {
  }

  lemma ReloadWrites(e: Asm, load: Asm, f: nat, src: Register, reg: Register)
    requires e.assembler.cmd.INVALID? && load.assembler.cmd in {ADDI, ADDIU, INVALID, COMMENT_NOP} && reg != R(f)
    ensures !IsWritten(Reload(load, R(f), src).assembler, reg) && !IsWritten(e.assembler, reg)
  {
  }

  /** An entry that is still the original's is split next exactly when the original would be. */
  lemma SameCandidate(t0: seq<Asm>, t: seq<Asm>, i: nat, first: nat, cur: nat)
    requires Planned(t0, t, i, first, cur) && i < |t| && t[i] == t0[i] && t0[i].assembler.regSrc == R(0)
    ensures Candidate(t, i) <==> Candidate(t0, i)
    ensures EndOf(t, i) == EndOf(t0, i)
  {
    hide OverwrittenAfter, LoadEnd, EntryPlanned, Near, AllTaken, NothingInside;
    CandidateNotInside(t0, first, i);
    SameEnd(t0, t, i, first, cur, i + 1);
    SameOverwrites(t0, t, i, first, cur, t0[i].assembler.regDst, EndOf(t0, i));
  }

  /** The loads of the original list are still there when their turn comes. */
  lemma OriginalCandidate(t0: seq<Asm>, t: seq<Asm>, i: nat, first: nat, cur: nat)
    requires Planned(t0, t, i, first, cur) && Candidate(t0, i)
    ensures t[i] == t0[i] && Candidate(t, i)
  {
    hide LoadsApart, HasRoom, Near, AllTaken, Splittable, MayBeFar, LoneLoad, LoadEnd, Reload, Retargeted;
    LoadEntries(t0, i);
    assert EntryPlanned(t0, t, i, first, cur, i);
    if exists j: nat, u: nat :: Dropped(t0, t, i, i, j, u) {
      var j: nat, u: nat :| Dropped(t0, t, i, i, j, u);
      LoadEntries(t0, j);
    } else if exists u: nat, j: nat, f: nat :: i <= u <= i + 2 && first <= f < cur && Reloaded(t0, t, i, u, j, f) {
      var u: nat, j: nat, f: nat :| i <= u <= i + 2 && first <= f < cur && Reloaded(t0, t, i, u, j, f);
      UseFacts(t0, first, j, u);
      if i == u { LoadUsesNothing(t0[i].assembler); }
      assert false;
    }
    SameCandidate(t0, t, i, first, cur);
  }

  lemma LoadUsesNothing(a: Assembler)
    requires a.cmd in {ADDI, INVALID, COMMENT_NOP} && a.regSrc == R(0)
    ensures forall n: nat :: n > 0 ==> !IsRead(a, R(n))
  {
  }

  /** The low half of a reload. */
  ghost predicate ReloadStart(t0: seq<Asm>, t: seq<Asm>, i: nat, first: nat, cur: nat, k: nat)
    requires |t0| == |t|
  {
    exists u: nat, j: nat, f: nat :: u == k + 2 && first <= f < cur && Reloaded(t0, t, i, u, j, f)
  }

  lemma OnlyLoadWrites(t0: seq<Asm>, j: nat, n: nat, k: nat)
    requires j < |t0| && LoneLoad(t0, j) && t0[j].assembler.regDst == R(n) && k < |t0| && n in Writes(t0[k].assembler)
    ensures k == j || k == EndOf(t0, j)
  {
    hide ReadsSeen, LoadEnd, Writes;
  }

  lemma UpperWrites(a: Assembler, n: nat)
    requires a.cmd.ADDIU? && a.regDst == R(n) && n > 0
    ensures n in Writes(a)
  {
  }

  lemma TameWrites(e0: Asm, e: Asm, first: nat, n: nat)
    requires Tame(e0, e, first) && n < first && n in Writes(e.assembler)
    ensures n in Writes(e0.assembler)
  {
  }

  lemma DroppedNotCandidate(t0: seq<Asm>, t: seq<Asm>, i: nat, first: nat, cur: nat, j: nat, u: nat)
    requires Planned(t0, t, i, first, cur) && i < |t| && Dropped(t0, t, i, i, j, u)
    ensures !Candidate(t, i)
  {
    hide LoadsApart, HasRoom, Near, AllTaken, Splits, LoneLoad, Splittable, LoadEnd, IsRead, IsWritten, Writes, Tame, EntryPlanned;
    UseFacts(t0, first, j, u);
    assert Candidate(t0, j) by { SplitsCandidate(t0, j, u); }
    LoadEntries(t0, j);
    if Candidate(t, i) {
      LoadEntries(t, i);
      var e := EndOf(t, i);
      var n: nat :| 0 < n < first && t0[j].assembler.regDst == R(n) && IsRead(t0[u].assembler, R(n)) && !IsWritten(t0[u].assembler, R(n));
      EntryTame(t0, t, i, first, cur, e);
      UpperWrites(t[e].assembler, n);
      TameWrites(t0[e], t[e], first, n);
      OnlyLoadWrites(t0, j, n, e);
      assert false;
    }
  }

  lemma SplitsCandidate(t: seq<Asm>, i: nat, u: nat)
    requires Splits(t, i, u)
    ensures Candidate(t, i) && MayBeFar(t, i, u)
  {
  }

  /** What is split next: a load of the original list, or the low half of a reload. */
  lemma CandidateKinds(t0: seq<Asm>, t: seq<Asm>, i: nat, first: nat, cur: nat)
    requires Planned(t0, t, i, first, cur) && Candidate(t, i)
    ensures ReloadStart(t0, t, i, first, cur, i) || (Candidate(t0, i) && t[i] == t0[i] && EndOf(t, i) == EndOf(t0, i))
  {
    hide LoadsApart, HasRoom, Near, AllTaken, Splittable, MayBeFar, LoneLoad, LoadEnd, IsRead, IsWritten;
    LoadEntries(t, i);
    assert EntryPlanned(t0, t, i, first, cur, i);
    if t[i] == t0[i] {
      SameCandidate(t0, t, i, first, cur);
    } else if exists j: nat, u: nat :: Dropped(t0, t, i, i, j, u) {
      var j: nat, u: nat :| Dropped(t0, t, i, i, j, u);
      DroppedNotCandidate(t0, t, i, first, cur, j, u);
      assert false;
    } else {
      var u: nat, j: nat, f: nat :| i <= u <= i + 2 && first <= f < cur && Reloaded(t0, t, i, u, j, f);
      UseFacts(t0, first, j, u);
      LoadEntries(t0, j);
      if i == u {
        var n: nat :| 0 < n < first && t0[j].assembler.regDst == R(n) && IsRead(t0[u].assembler, R(n)) && !IsWritten(t0[u].assembler, R(n));
        SwappedNoLoad(t0[u], n, f);
        assert false;
      }
      assert i + 2 == u;
    }
  }

  lemma SwappedNoLoad(e: Asm, n: nat, f: nat)
    requires n > 0 && f > 0 && !IsBarrier(e.assembler.cmd) && IsRead(e.assembler, R(n)) && !IsWritten(e.assembler, R(n))
    ensures var b := Retargeted(e, R(n), R(f)).assembler; !(b.cmd in {ADDI, INVALID, COMMENT_NOP} && b.regSrc == R(0))
  {
  }

  // ----- The next split is safe -----

  /** Entry i is a load of the original list whose turn has come. */
  ghost predicate NextLoad(t0: seq<Asm>, t: seq<Asm>, i: nat) {
    i < |t| == |t0| && Candidate(t0, i) && Candidate(t, i) && t[i] == t0[i] && EndOf(t, i) == EndOf(t0, i)
  }

  lemma FarIsSplit(t0: seq<Asm>, t: seq<Asm>, i: nat, first: nat, cur: nat, u: nat)
    requires Planned(t0, t, i, first, cur) && NextLoad(t0, t, i) && FarUse(t, SplitAtEntry(t, i, cur), u)
    ensures Splits(t0, i, u) && u < |t|
  {
    hide LoadsApart, HasRoom, Near, AllTaken, EntryPlanned, IsRead, IsWritten, Tame, Splittable;
    CountAtMost(t, i + 1, u);
    RealLoad(t0, first, i);
    EntryTame(t0, t, i, first, cur, u);
    assert Uses(t0, t0[i].assembler.regDst, u) by { TameUses(t0, t, first, t[i].assembler.regDst.number, u); }
  }

  lemma RealLoad(t0: seq<Asm>, first: nat, i: nat)
    requires LoadsApart(t0, first) && Candidate(t0, i)
    ensures t0[i].assembler.regDst.R? && 0 < t0[i].assembler.regDst.number < first
  {
  }

  lemma TameUses(t0: seq<Asm>, t: seq<Asm>, first: nat, n: nat, u: nat)
    requires |t0| == |t| && u < |t| && Tame(t0[u], t[u], first) && 0 < n < first && Uses(t, R(n), u)
    ensures Uses(t0, R(n), u)
  {
  }

  /** The entries a split touches are still the original's. */
  lemma TouchedAreOriginal(t0: seq<Asm>, t: seq<Asm>, i: nat, first: nat, cur: nat, u: nat)
    requires Planned(t0, t, i, first, cur) && Splits(t0, i, u)
    requires u < |t| && !IsBarrier(t[u].assembler.cmd)
    ensures 2 <= u && IsFree(t0[u - 1]) && IsFree(t0[u - 2]) && !IsBarrier(t0[u].assembler.cmd)
    ensures t[u] == t0[u] && t[u - 1] == t0[u - 1] && t[u - 2] == t0[u - 2]
  {
    hide LoadsApart, Near, AllTaken, Splittable, MayBeFar, LoneLoad, LoadEnd, IsRead, IsWritten;
    UseFacts(t0, first, i, u);
    forall k: nat | u - 2 <= k <= u ensures t[k] == t0[k] { OriginalAround(t0, t, i, first, cur, u, k); }
  }

  lemma OnlyOneSplits(t0: seq<Asm>, first: nat, i: nat, j: nat, u: nat)
    requires LoadsApart(t0, first) && Splits(t0, i, u) && Splits(t0, j, u)
    ensures i == j
  {
  }

  lemma OriginalAround(t0: seq<Asm>, t: seq<Asm>, i: nat, first: nat, cur: nat, u: nat, k: nat)
    requires Planned(t0, t, i, first, cur) && Splits(t0, i, u) && u - 2 <= k <= u < |t| && !IsBarrier(t[u].assembler.cmd)
    ensures t[k] == t0[k]
  {
    hide LoadsApart, HasRoom, Near, AllTaken, Splits, LoneLoad, LoadEnd, IsRead, IsWritten;
    UseFacts(t0, first, i, u);
    assert EntryPlanned(t0, t, i, first, cur, k);
    if exists j: nat, v: nat :: Dropped(t0, t, i, k, j, v) {
      var j: nat, v: nat :| Dropped(t0, t, i, k, j, v);
      SplitsCandidate(t0, j, v);
      LoadEntries(t0, j);
      assert false;
    } else if exists v: nat, j: nat, f: nat :: k <= v <= k + 2 && first <= f < cur && Reloaded(t0, t, i, v, j, f) {
      var v: nat, j: nat, f: nat :| k <= v <= k + 2 && first <= f < cur && Reloaded(t0, t, i, v, j, f);
      UseFacts(t0, first, j, v);
      if u == v { OnlyOneSplits(t0, first, i, j, u); }
      assert false;
    }
  }

  /** Both entries of the load are still there. */
  lemma EndIsOriginal(t0: seq<Asm>, t: seq<Asm>, i: nat, first: nat, cur: nat)
    requires Planned(t0, t, i, first, cur) && NextLoad(t0, t, i) && EndOf(t0, i) < |t|
    ensures t[EndOf(t0, i)] == t0[EndOf(t0, i)]
  {
    hide LoadsApart, HasRoom, Near, AllTaken, Splits, LoneLoad, LoadEnd, IsRead, IsWritten, Splittable;
    var e := EndOf(t0, i);
    LoadEntries(t0, i);
    LoadEntries(t, i);
    RealLoad(t0, first, i);
    assert EntryPlanned(t0, t, i, first, cur, e);
    if exists v: nat, j: nat, f: nat :: e <= v <= e + 2 && first <= f < cur && Reloaded(t0, t, i, v, j, f) {
      var v: nat, j: nat, f: nat :| e <= v <= e + 2 && first <= f < cur && Reloaded(t0, t, i, v, j, f);
      UseFacts(t0, first, j, v);
      if e == v {
        var n: nat :| 0 < n < first && t0[j].assembler.regDst == R(n) && IsRead(t0[v].assembler, R(n)) && !IsWritten(t0[v].assembler, R(n));
        UseEndsSearch(t0[v], t0[i], n);
      }
      assert false;
    }
  }

  /** The path behaviour of the list is the original's. */
  lemma SamePaths(t0: seq<Asm>, t: seq<Asm>, first: nat, k: nat)
    requires |t| == |t0| && k < |t| && 0 < first && forall l: nat :: l < |t| ==> Tame(t0[l], t[l], first)
    ensures Successors(t, k) == Successors(t0, k)
  {
    hide Reads, Writes, IsRead, IsWritten;
    var l := t0[k].assembler.lbl;
    forall m | 0 <= m < |t| ensures Defines(t, m, l) == Defines(t0, m, l) { assert Tame(t0[m], t[m], first); }
    SameTargets(t, t0, l);
    assert Tame(t0[k], t[k], first);
  }

  /** A register whose writes are all still there is needed only where it was. */
  lemma {:induction false} NeededAsBefore(t0: seq<Asm>, t: seq<Asm>, first: nat, r: nat, k: nat, n: nat)
    requires |t| == |t0| && r < first && forall l: nat :: l < |t| ==> Tame(t0[l], t[l], first)
    requires forall l: nat :: l < |t| && r in Writes(t0[l].assembler) ==> t[l] == t0[l]
    requires NeededIn(t, r, k, n)
    ensures NeededIn(t0, r, k, n)
    decreases n
  {
    hide Reads, Writes, IsRead, IsWritten, Successors;
    assert Tame(t0[k], t[k], first);
    if r !in Reads(t[k].assembler) {
      var j :| j in Successors(t, k) && NeededIn(t, r, j, n - 1);
      SamePaths(t0, t, first, k);
      NeededAsBefore(t0, t, first, r, j, n - 1);
    }
  }

  lemma AllTame(t0: seq<Asm>, t: seq<Asm>, i: nat, first: nat, cur: nat)
    requires Planned(t0, t, i, first, cur)
    ensures forall k: nat :: k < |t| ==> Tame(t0[k], t[k], first)
  {
    hide Tame, Planned;
    assert |t| == |t0| by { PlannedLength(t0, t, i, first, cur); }
    forall k: nat | k < |t| ensures Tame(t0[k], t[k], first) { EntryTame(t0, t, i, first, cur, k); }
  }

  lemma PlannedLength(t0: seq<Asm>, t: seq<Asm>, i: nat, first: nat, cur: nat)
    requires Planned(t0, t, i, first, cur)
    ensures |t| == |t0| && i <= |t| && 0 < first <= cur && LoadsApart(t0, first) && HasRoom(t0)
  {
  }

  /** Writes, reads and need of the register about to be split. */
  lemma LoadStaysLone(t0: seq<Asm>, t: seq<Asm>, i: nat, first: nat, cur: nat)
    requires Planned(t0, t, i, first, cur) && NextLoad(t0, t, i) && LoneLoad(t0, i)
    ensures var sp := SplitAtEntry(t, i, cur); LoadedOnce(t, sp) && ReadsSeen(t, sp) && !Needed(t, sp.reg.number, 0)
  {
    hide Planned, Tame, Candidate, Reads, Writes, IsRead, IsWritten, LoadEnd, NeededIn;
    PlannedLength(t0, t, i, first, cur);
    RealLoad(t0, first, i);
    AllTame(t0, t, i, first, cur);
    var r := t0[i].assembler.regDst.number;
    forall k: nat | k < |t| && r in Writes(t[k].assembler) ensures k == i || k == EndOf(t, i) {
      TameWrites(t0[k], t[k], first, r);
      OnlyLoadWrites(t0, i, r, k);
    }
    forall k: nat | k < |t| && r in Reads(t[k].assembler) ensures k > i && IsRead(t[k].assembler, R(r)) {
      TameReads(t0[k], t[k], first, r);
    }
    forall k: nat | k < |t| && r in Writes(t0[k].assembler) ensures t[k] == t0[k] {
      OnlyLoadWrites(t0, i, r, k);
      if k != i { EndIsOriginal(t0, t, i, first, cur); }
    }
    forall n: nat ensures !NeededIn(t, r, 0, n) {
      if NeededIn(t, r, 0, n) { NeededAsBefore(t0, t, first, r, 0, n); }
    }
  }

  lemma TameReads(e0: Asm, e: Asm, first: nat, r: nat)
    requires Tame(e0, e, first) && r < first && r in Reads(e.assembler)
    ensures r in Reads(e0.assembler) && (IsRead(e0.assembler, R(r)) ==> IsRead(e.assembler, R(r)))
  {
  }

  lemma RetargetedMentions(e: Asm, reg: Register, f: nat, r: nat)
    ensures var b := Retargeted(e, reg, R(f));
      IsBarrier(b.assembler.cmd) == IsBarrier(e.assembler.cmd) && (r in Mentions(b.assembler) ==> r == f || r in Mentions(e.assembler))
  {
  }

  lemma ReloadMentions(load: Asm, src: Register, f: nat, r: nat)
    requires src in {R(0), R(f)}
    ensures var b := Reload(load, R(f), src);
      IsBarrier(b.assembler.cmd) == IsBarrier(load.assembler.cmd) && (r in Mentions(b.assembler) ==> r == f || r in Mentions(load.assembler))
  {
  }

  /** An entry around a use names its fresh register and otherwise what the original list names. */
  lemma ReloadedMentions(t0: seq<Asm>, t: seq<Asm>, i: nat, u: nat, j: nat, f: nat, k: nat, r: nat)
    requires |t| == |t0| && Reloaded(t0, t, i, u, j, f) && u - 2 <= k <= u && MentionedAt(t, r, k)
    ensures r == f || Named(t0, r)
  {
    hide Mentions, Retargeted, Reload, IsBarrier, LoadEnd, MayBeFar;
    var e := EndOf(t0, j);
    if k == u {
      RetargetedMentions(t0[u], t0[j].assembler.regDst, f, r);
      assert r == f || MentionedAt(t0, r, u);
    } else if k + 2 == u {
      ReloadMentions(t0[j], R(0), f, r);
      assert r == f || MentionedAt(t0, r, j);
    } else if e < |t0| {
      ReloadMentions(t0[e], if t0[j].assembler.cmd.ADDI? then R(f) else R(0), f, r);
      assert r == f || MentionedAt(t0, r, e);
    } else {
      assert MentionedAt(t0, r, k);
    }
  }

  lemma MentionsBelow(t0: seq<Asm>, t: seq<Asm>, i: nat, first: nat, cur: nat, k: nat, r: nat)
    requires Planned(t0, t, i, first, cur) && k < |t| && MentionedAt(t, r, k)
    ensures r < cur
  {
    hide HasRoom, Near, AllTaken, Splits, Candidate, LoneLoad, LoadEnd, Mentions, Reloaded;
    assert EntryPlanned(t0, t, i, first, cur, k);
    if t[k] == t0[k] {
      assert MentionedAt(t0, r, k);
    } else if exists u: nat, j: nat, f: nat :: k <= u <= k + 2 && first <= f < cur && Reloaded(t0, t, i, u, j, f) {
      var u: nat, j: nat, f: nat :| k <= u <= k + 2 && first <= f < cur && Reloaded(t0, t, i, u, j, f);
      ReloadedMentions(t0, t, i, u, j, f, k, r);
    }
  }

  /** A load of the original list is split safely. */
  lemma NextSplitSafe(t0: seq<Asm>, t: seq<Asm>, i: nat, first: nat, cur: nat)
    requires Planned(t0, t, i, first, cur) && NextLoad(t0, t, i)
    ensures var sp := SplitAtEntry(t, i, cur); SafeSplit(t, sp) || NoFarUse(t, sp)
  {
    hide Planned, Candidate, LoadsApart, LoneLoad, FarUse, LoadedOnce, ReadsSeen, ConstantLoad, LoadEnd, MentionedAt, Splits, Needed, Splittable;
    var sp := SplitAtEntry(t, i, cur);
    PlannedLength(t0, t, i, first, cur);
    if !NoFarUse(t, sp) {
      var u: nat :| FarUse(t, sp, u);
      FarIsSplit(t0, t, i, first, cur, u);
      UseFacts(t0, first, i, u);
      RealLoad(t0, first, i);
      assert ConstantLoad(t, sp) by { SplittableIs(t, i); SplittableLoads(t, i, cur); }
      LoadStaysLone(t0, t, i, first, cur);
      forall v: nat | FarUse(t, sp, v) ensures 2 <= v < |t| && t[v - 1].assembler.cmd.INVALID? && t[v - 2].assembler.cmd.INVALID? {
        FarIsSplit(t0, t, i, first, cur, v);
        UseIsPlainInstruction(t, sp, v);
        TouchedAreOriginal(t0, t, i, first, cur, v);
      }
      forall k: nat, r: nat | k < |t| && !IsBarrier(t[k].assembler.cmd) && r in Mentions(t[k].assembler) ensures r < cur {
        assert MentionedAt(t, r, k) by { MentionIs(t, r, k); }
        MentionsBelow(t0, t, i, first, cur, k, r);
      }
    }
  }

  lemma SplittableIs(t: seq<Asm>, i: nat)
    ensures Candidate(t, i) ==> i < |t| && Splittable(t, i)
  {
  }

  lemma MentionIs(t: seq<Asm>, r: nat, k: nat)
    requires k < |t|
    ensures MentionedAt(t, r, k) <==> !IsBarrier(t[k].assembler.cmd) && r in Mentions(t[k].assembler)
  {
  }

  lemma UseIsPlainInstruction(t: seq<Asm>, sp: Split, u: nat)
    requires FarUse(t, sp, u)
    ensures u < |t| && !IsBarrier(t[u].assembler.cmd)
  {
    hide CountInstructions, IsRead, IsWritten;
  }

  /** The low half of a reload has its use right behind it. */
  lemma ReloadNotSplit(t0: seq<Asm>, t: seq<Asm>, i: nat, first: nat, cur: nat)
    requires Planned(t0, t, i, first, cur) && i < |t| && ReloadStart(t0, t, i, first, cur, i)
    ensures NoFarUse(t, SplitAtEntry(t, i, cur))
  {
    hide LoadsApart, HasRoom, AllTaken, EntryPlanned, Splits, LoneLoad, LoadEnd, CountInstructions, IsRead, IsWritten, MentionedAt, Near;
    var u: nat, j: nat, f: nat :| u == i + 2 && first <= f < cur && Reloaded(t0, t, i, u, j, f);
    UseFacts(t0, first, j, u);
    SwappedMentions(t0, t, i, first, u, j, f);
    var sp := SplitAtEntry(t, i, cur);
    forall v: nat ensures !FarUse(t, sp, v) {
      if FarUse(t, sp, v) {
        CountAtMost(t, i + 1, v);
        ReadMentions(t, f, v);
        NearMeans(t, first, f, u, v);
        assert false;
      }
    }
  }

  lemma NearMeans(t: seq<Asm>, first: nat, f: nat, k: nat, l: nat)
    requires Near(t, first) && f >= first && k < |t| && l < |t| && MentionedAt(t, f, k) && MentionedAt(t, f, l)
    ensures l <= k + 2
  {
  }

  lemma SwappedMentions(t0: seq<Asm>, t: seq<Asm>, i: nat, first: nat, u: nat, j: nat, f: nat)
    requires |t| == |t0| && Reloaded(t0, t, i, u, j, f) && LoadsApart(t0, first) && HasRoom(t0) && f >= first > 0
    ensures MentionedAt(t, f, u) && !IsBarrier(t0[u].assembler.cmd)
  {
    hide LoadsApart, HasRoom, Splits, LoneLoad, LoadEnd;
    UseFacts(t0, first, j, u);
  }

  lemma ReadMentions(t: seq<Asm>, f: nat, v: nat)
    requires f > 0 && Uses(t, R(f), v)
    ensures v < |t| && MentionedAt(t, f, v)
  {
  }

  // ----- What a split leaves -----

  /** A split that has something to do, on a planned list. */
  ghost predicate Splitting(t0: seq<Asm>, t: seq<Asm>, i: nat, first: nat, cur: nat, q: seq<Asm>) {
    Planned(t0, t, i, first, cur) && NextLoad(t0, t, i) &&
    SafeSplit(t, SplitAtEntry(t, i, cur)) && SplitInto(t, SplitAtEntry(t, i, cur), q)
  }

  lemma SplittingFacts(t0: seq<Asm>, t: seq<Asm>, i: nat, first: nat, cur: nat, q: seq<Asm>, k: nat)
    requires Splitting(t0, t, i, first, cur, q) && k < |t|
    ensures |q| == |t| == |t0| && i < |t|
    ensures var sp := SplitAtEntry(t, i, cur);
      (FarUse(t, sp, k + 2) ==> q[k] == LoadLow(t, sp, k + 2)) &&
      (FarUse(t, sp, k + 1) ==> q[k] == if sp.end < |t| then LoadHigh(t, sp, k + 1) else t[k]) &&
      (FarUse(t, sp, k) ==> q[k] == Retargeted(t[k], sp.reg, FreshFor(t, sp, k))) &&
      (!FarUse(t, sp, k + 2) && !FarUse(t, sp, k + 1) && !FarUse(t, sp, k) ==>
         q[k] == if LoadGoes(t, sp) && k in {sp.start, sp.end} then Killed(t[k]) else t[k])
  {
    hide FarUse, LoadGoes, LoadLow, LoadHigh, Retargeted, ConstantLoad, SlotsFree, LoadedOnce, ReadsSeen, FreshAbove, Needed, Candidate, LoadEnd;
    PlannedLength(t0, t, i, first, cur);
    SplitAt(t, SplitAtEntry(t, i, cur), q, k);
  }

  lemma FarAround(t0: seq<Asm>, t: seq<Asm>, i: nat, first: nat, cur: nat, u: nat)
    requires Planned(t0, t, i, first, cur) && NextLoad(t0, t, i) && FarUse(t, SplitAtEntry(t, i, cur), u)
    ensures 2 <= u < |t| && Splits(t0, i, u) && IsFree(t0[u - 1]) && IsFree(t0[u - 2]) && !IsBarrier(t0[u].assembler.cmd)
    ensures t[u] == t0[u] && t[u - 1] == t0[u - 1] && t[u - 2] == t0[u - 2]
  {
    hide Planned, NextLoad, FarUse, Splits;
    FarIsSplit(t0, t, i, first, cur, u);
    UseIsPlainInstruction(t, SplitAtEntry(t, i, cur), u);
    TouchedAreOriginal(t0, t, i, first, cur, u);
  }

  lemma NewReloaded(t0: seq<Asm>, t: seq<Asm>, i: nat, first: nat, cur: nat, q: seq<Asm>, u: nat)
    requires Splitting(t0, t, i, first, cur, q) && FarUse(t, SplitAtEntry(t, i, cur), u)
    ensures |q| == |t0| && Reloaded(t0, q, i + 1, u, i, cur + FarUses(t, SplitAtEntry(t, i, cur), u))
  {
    hide Planned, FarUse, FarUses, SafeSplit, SplitInto, LoadEnd, LoadGoes, Retargeted, Candidate;
    var sp := SplitAtEntry(t, i, cur);
    FarAround(t0, t, i, first, cur, u);
    LoadEntries(t, i);
    SplittingFacts(t0, t, i, first, cur, q, u);
    SplittingFacts(t0, t, i, first, cur, q, u - 1);
    SplittingFacts(t0, t, i, first, cur, q, u - 2);
    if EndOf(t0, i) < |t| { EndIsOriginal(t0, t, i, first, cur); }
  }

  lemma SwapChanges(t0: seq<Asm>, t: seq<Asm>, i: nat, first: nat, v: nat, j: nat, f: nat)
    requires |t| == |t0| && Reloaded(t0, t, i, v, j, f) && LoadsApart(t0, first) && HasRoom(t0) && f >= first > 0
    ensures t[v] != t0[v]
  {
    hide HasRoom, Splits, LoneLoad, LoadEnd, MentionedAt, Candidate;
    SwappedMentions(t0, t, i, first, v, j, f);
    if t[v] == t0[v] { assert MentionedAt(t0, f, v) by { MentionIs(t, f, v); MentionIs(t0, f, v); } }
  }

  lemma OldKept(t0: seq<Asm>, t: seq<Asm>, i: nat, first: nat, cur: nat, q: seq<Asm>, v: nat, j: nat, f: nat, k: nat)
    requires Splitting(t0, t, i, first, cur, q) && first <= f && |t| == |t0| && Reloaded(t0, t, i, v, j, f) && v - 2 <= k <= v
    ensures k < |q| && q[k] == t[k]
  {
    hide Planned, FarUse, FarUses, SafeSplit, SplitInto, LoadEnd, LoadGoes, Retargeted, Candidate, Splits, Reloaded, LoneLoad, LoadsApart;
    var sp := SplitAtEntry(t, i, cur);
    PlannedLength(t0, t, i, first, cur);
    assert 2 <= v < |t| && Splits(t0, j, v) by { ReloadedUse(t0, t, i, v, j, f); }
    UseFacts(t0, first, j, v);
    SwapChanges(t0, t, i, first, v, j, f);
    SplittingFacts(t0, t, i, first, cur, q, k);
    forall w: nat | k <= w <= k + 2 ensures !FarUse(t, sp, w) {
      if FarUse(t, sp, w) { FarAround(t0, t, i, first, cur, w); }
    }
    LoadEntries(t, i);
    if EndOf(t0, i) < |t| { EndIsOriginal(t0, t, i, first, cur); }
  }

  lemma ReloadedUse(t0: seq<Asm>, t: seq<Asm>, i: nat, v: nat, j: nat, f: nat)
    requires |t| == |t0| && Reloaded(t0, t, i, v, j, f)
    ensures 2 <= v < |t| && j < i && Splits(t0, j, v)
  {
  }

  /** Earlier reloads are left alone. */
  lemma OldReloaded(t0: seq<Asm>, t: seq<Asm>, i: nat, first: nat, cur: nat, q: seq<Asm>, v: nat, j: nat, f: nat)
    requires Splitting(t0, t, i, first, cur, q) && first <= f && |t| == |t0| && Reloaded(t0, t, i, v, j, f)
    ensures |q| == |t0| && Reloaded(t0, q, i + 1, v, j, f)
  {
    hide Planned, NextLoad, SafeSplit, LoadEnd, Retargeted, Reload, Splits;
    SameLength(t, SplitAtEntry(t, i, cur), q);
    OldKept(t0, t, i, first, cur, q, v, j, f, v);
    OldKept(t0, t, i, first, cur, q, v, j, f, v - 1);
    OldKept(t0, t, i, first, cur, q, v, j, f, v - 2);
  }

  lemma {:induction false} FreshTaken(list: seq<Asm>, sp: Split, n: nat, m: nat) returns (u: nat)
    requires m < FarUses(list, sp, n)
    ensures u < n && FarUse(list, sp, u) && FarUses(list, sp, u) == m
    decreases n
  {
    hide FarUse;
    if m < FarUses(list, sp, n - 1) { u := FreshTaken(list, sp, n - 1, m); } else { u := n - 1; }
  }

  lemma FreshBelow(list: seq<Asm>, sp: Split, u: nat)
    requires FarUse(list, sp, u)
    ensures FarUses(list, sp, u) < FarUses(list, sp, |list|)
  {
    hide FarUses, CountInstructions, IsRead, IsWritten;
    FarUsesGrow(list, sp, u, |list|);
  }

  /** Every entry of the split list is as planned. */
  lemma EntryStaysPlanned(t0: seq<Asm>, t: seq<Asm>, i: nat, first: nat, cur: nat, q: seq<Asm>, k: nat)
    requires Splitting(t0, t, i, first, cur, q) && k < |t|
    ensures |q| == |t0| && EntryPlanned(t0, q, i + 1, first, cur + FarUses(t, SplitAtEntry(t, i, cur), |t|), k)
  {
    hide FarUse, FarUses, SafeSplit, SplitInto, LoadEnd, Candidate, Splits, Reloaded, LoneLoad, LoadsApart, HasRoom, Near, AllTaken;
    var sp := SplitAtEntry(t, i, cur);
    SplittingFacts(t0, t, i, first, cur, q, k);
    if exists u: nat :: k <= u <= k + 2 && FarUse(t, sp, u) {
      var u: nat :| k <= u <= k + 2 && FarUse(t, sp, u);
      NewReloaded(t0, t, i, first, cur, q, u);
      FreshBelow(t, sp, u);
    } else if LoadGoes(t, sp) && k in {sp.start, sp.end} {
      var u: nat :| FarUse(t, sp, u);
      FarIsSplit(t0, t, i, first, cur, u);
      if k == sp.end { EndIsOriginal(t0, t, i, first, cur); }
      assert Dropped(t0, q, i + 1, k, i, u);
    } else {
      assert q[k] == t[k] && EntryPlanned(t0, t, i, first, cur, k);
      if t[k] != t0[k] {
        if exists j: nat, u: nat :: Dropped(t0, t, i, k, j, u) {
          var j: nat, u: nat :| Dropped(t0, t, i, k, j, u);
          assert Dropped(t0, q, i + 1, k, j, u);
        } else {
          var u: nat, j: nat, f: nat :| k <= u <= k + 2 && first <= f < cur && Reloaded(t0, t, i, u, j, f);
          OldReloaded(t0, t, i, first, cur, q, u, j, f);
        }
      }
    }
  }

  lemma NamedBelow(t0: seq<Asm>, first: nat, r: nat)
    requires LoadsApart(t0, first) && Named(t0, r)
    ensures r < first
  {
  }

  /** Where a fresh register of the split list comes from. */
  lemma MentionSource(t0: seq<Asm>, t: seq<Asm>, i: nat, first: nat, cur: nat, q: seq<Asm>, f: nat, k: nat)
    requires Splitting(t0, t, i, first, cur, q) && f >= first && |q| == |t| && k < |q| && MentionedAt(q, f, k)
    ensures f < cur ==> MentionedAt(t, f, k)
    ensures f >= cur ==> exists u: nat :: k <= u <= k + 2 && FarUse(t, SplitAtEntry(t, i, cur), u) && f == cur + FarUses(t, SplitAtEntry(t, i, cur), u)
  {
    hide Planned, FarUse, FarUses, SafeSplit, SplitInto, LoadEnd, Candidate, Splits, Reloaded, Mentions, LoadGoes;
    var sp := SplitAtEntry(t, i, cur);
    PlannedLength(t0, t, i, first, cur);
    SplittingFacts(t0, t, i, first, cur, q, k);
    if exists u: nat :: k <= u <= k + 2 && FarUse(t, sp, u) {
      var u: nat :| k <= u <= k + 2 && FarUse(t, sp, u);
      NewReloaded(t0, t, i, first, cur, q, u);
      ReloadedMentions(t0, q, i + 1, u, i, cur + FarUses(t, sp, u), k, f);
      if Named(t0, f) { NamedBelow(t0, first, f); }
    } else {
      assert q[k] == t[k];
      MentionsBelow(t0, t, i, first, cur, k, f);
    }
  }

  lemma StaysNear(t0: seq<Asm>, t: seq<Asm>, i: nat, first: nat, cur: nat, q: seq<Asm>, f: nat, k: nat, l: nat)
    requires Splitting(t0, t, i, first, cur, q) && f >= first && |q| == |t|
    requires k < |q| && l < |q| && MentionedAt(q, f, k) && MentionedAt(q, f, l)
    ensures l <= k + 2
  {
    hide Splitting, MentionedAt, FarUse, FarUses, SplitAtEntry;
    SplittingLength(t0, t, i, first, cur, q);
    var sp := SplitAtEntry(t, i, cur);
    MentionSource(t0, t, i, first, cur, q, f, k);
    MentionSource(t0, t, i, first, cur, q, f, l);
    if f < cur {
      assert Near(t, first) by { SplittingNear(t0, t, i, first, cur, q); }
      NearMeans(t, first, f, k, l);
    } else {
      var u: nat :| k <= u <= k + 2 && FarUse(t, sp, u) && f == cur + FarUses(t, sp, u);
      var v: nat :| l <= v <= l + 2 && FarUse(t, sp, v) && f == cur + FarUses(t, sp, v);
      if u < v { FarUsesGrow(t, sp, u, v); } else { FarUsesGrow(t, sp, v, u); }
    }
  }

  lemma SplittingNear(t0: seq<Asm>, t: seq<Asm>, i: nat, first: nat, cur: nat, q: seq<Asm>)
    requires Splitting(t0, t, i, first, cur, q)
    ensures Planned(t0, t, i, first, cur) && Near(t, first) && AllTaken(t0, t, i, first, cur)
  {
  }

  /** A split keeps the plan. */
  lemma SplitKeepsPlan(t0: seq<Asm>, t: seq<Asm>, i: nat, first: nat, cur: nat, q: seq<Asm>)
    requires Splitting(t0, t, i, first, cur, q)
    ensures Planned(t0, q, i + 1, first, cur + FarUses(t, SplitAtEntry(t, i, cur), |t|))
  {
    hide Splitting, EntryPlanned, MentionedAt, FarUse, FarUses, SplitAtEntry, Reloaded, LoadsApart, HasRoom;
    SplittingLength(t0, t, i, first, cur, q);
    var sp, next := SplitAtEntry(t, i, cur), i + 1;
    var cur' := cur + FarUses(t, sp, |t|);
    SplittingNear(t0, t, i, first, cur, q);
    forall k: nat | k < |q| ensures EntryPlanned(t0, q, next, first, cur', k) { EntryStaysPlanned(t0, t, i, first, cur, q, k); }
    forall f: nat, k: nat, l: nat | f >= first && k < |q| && l < |q| && MentionedAt(q, f, k) && MentionedAt(q, f, l) ensures l <= k + 2 {
      StaysNear(t0, t, i, first, cur, q, f, k, l);
    }
    forall f: nat | first <= f < cur' ensures Taken(t0, q, next, f) {
      if f < cur {
        assert Taken(t0, t, i, f);
        var u: nat, j: nat :| Reloaded(t0, t, i, u, j, f);
        OldReloaded(t0, t, i, first, cur, q, u, j, f);
      } else {
        var u := FreshTaken(t, sp, |t|, f - cur);
        NewReloaded(t0, t, i, first, cur, q, u);
      }
    }
  }

  lemma SplittingLength(t0: seq<Asm>, t: seq<Asm>, i: nat, first: nat, cur: nat, q: seq<Asm>)
    requires Splitting(t0, t, i, first, cur, q)
    ensures |q| == |t| && i < |t|
  {
  }

  /** So does going on to the next entry. */
  lemma PlanNext(t0: seq<Asm>, t: seq<Asm>, i: nat, first: nat, cur: nat)
    requires Planned(t0, t, i, first, cur) && i < |t|
    ensures Planned(t0, t, i + 1, first, cur)
  {
    hide MentionedAt, LoadsApart, HasRoom, Splits, LoadEnd, Near;
    var next := i + 1;
    forall u: nat, j: nat, f: nat | Reloaded(t0, t, i, u, j, f) ensures Reloaded(t0, t, next, u, j, f) {}
    forall k: nat | k < |t| ensures EntryPlanned(t0, t, next, first, cur, k) {
      assert EntryPlanned(t0, t, i, first, cur, k);
      if exists j: nat, u: nat :: Dropped(t0, t, i, k, j, u) {
        var j: nat, u: nat :| Dropped(t0, t, i, k, j, u);
        assert Dropped(t0, t, next, k, j, u);
      }
    }
    forall f: nat | first <= f < cur ensures Taken(t0, t, next, f) {
      assert Taken(t0, t, i, f);
      var u: nat, j: nat :| Reloaded(t0, t, i, u, j, f);
      assert Reloaded(t0, t, next, u, j, f);
    }
  }

  lemma NothingPlanned(t0: seq<Asm>, first: nat)
    requires LoadsApart(t0, first) && HasRoom(t0) && 0 < first
    ensures Planned(t0, t0, 0, first, first)
  {
    hide HasRoom, Candidate, Splits, LoneLoad;
    assert Near(t0, first);
  }

  // ----- How many splits are counted -----

  /** Room that holds the low half of a reload. */
  predicate LowHalf(t0: seq<Asm>, t: seq<Asm>, k: nat) {
    k < |t0| == |t| && IsFree(t0[k]) && t[k].assembler.regSrc == R(0) && !t[k].assembler.cmd.ADDIU?
  }

  function LowHalves(t0: seq<Asm>, t: seq<Asm>, n: nat): nat {
    if n == 0 then 0 else LowHalves(t0, t, n - 1) + (if LowHalf(t0, t, n - 1) then 1 else 0)
  }

  /** The constant loads among the first n entries. */
  ghost function Candidates(t: seq<Asm>, n: nat): nat {
    if n == 0 then 0 else Candidates(t, n - 1) + (if Candidate(t, n - 1) then 1 else 0)
  }

  lemma LowHalfIs(t0: seq<Asm>, t: seq<Asm>, i: nat, first: nat, cur: nat, k: nat)
    requires Planned(t0, t, i, first, cur) && k < |t|
    ensures LowHalf(t0, t, k) <==> ReloadStart(t0, t, i, first, cur, k)
  {
    hide LoadsApart, HasRoom, Near, AllTaken, Splits, LoneLoad, LoadEnd, IsRead, IsWritten, Splittable, MayBeFar, Retargeted;
    assert EntryPlanned(t0, t, i, first, cur, k);
    if exists j: nat, v: nat :: Dropped(t0, t, i, k, j, v) {
      var j: nat, v: nat :| Dropped(t0, t, i, k, j, v);
      SplitsCandidate(t0, j, v);
      LoadEntries(t0, j);
    } else if exists v: nat, j: nat, f: nat :: k <= v <= k + 2 && first <= f < cur && Reloaded(t0, t, i, v, j, f) {
      var v: nat, j: nat, f: nat :| k <= v <= k + 2 && first <= f < cur && Reloaded(t0, t, i, v, j, f);
      UseFacts(t0, first, j, v);
      SplitsCandidate(t0, j, v);
      LoadEntries(t0, j);
    }
    if ReloadStart(t0, t, i, first, cur, k) {
      var v: nat, j: nat, f: nat :| v == k + 2 && first <= f < cur && Reloaded(t0, t, i, v, j, f);
      UseFacts(t0, first, j, v);
      SplitsCandidate(t0, j, v);
      LoadEntries(t0, j);
    }
  }

  lemma SwappedDoesNotWrite(e: Asm, n: nat, f: nat, g: nat, first: nat)
    requires 0 < n < first <= f && first <= g && !IsWritten(e.assembler, R(n)) && !IsBarrier(e.assembler.cmd)
    requires forall r: nat :: r in Mentions(e.assembler) ==> r < first
    ensures !IsWritten(Retargeted(e, R(n), R(f)).assembler, R(g))
  {
    var a := e.assembler;
    assert a.regDst == R(g) ==> g in Mentions(a);
    assert a.regAux == R(g) ==> g in Mentions(a);
  }

  lemma WrittenIsMentioned(t: seq<Asm>, g: nat, k: nat)
    requires k < |t| && g > 0 && IsWritten(t[k].assembler, R(g))
    ensures MentionedAt(t, g, k)
  {
  }

  /** Uses with the same fresh register are the same. */
  lemma OneUseEach(t0: seq<Asm>, t: seq<Asm>, i: nat, first: nat, cur: nat, u: nat, j: nat, v: nat, l: nat, f: nat)
    requires Planned(t0, t, i, first, cur) && first <= f && Reloaded(t0, t, i, u, j, f) && Reloaded(t0, t, i, v, l, f)
    ensures u == v
  {
    hide LoadsApart, HasRoom, EntryPlanned, AllTaken, MentionedAt, Reloaded, Splits, LoneLoad;
    ReloadedUse(t0, t, i, u, j, f);
    ReloadedUse(t0, t, i, v, l, f);
    SwappedMentions(t0, t, i, first, u, j, f);
    SwappedMentions(t0, t, i, first, v, l, f);
    UseFacts(t0, first, j, u);
    UseFacts(t0, first, l, v);
    NearMeans(t, first, f, u, v);
    NearMeans(t, first, f, v, u);
  }

  lemma FreshNotOriginal(t0: seq<Asm>, t: seq<Asm>, first: nat, g: nat, k: nat)
    requires LoadsApart(t0, first) && k < |t| == |t0| && MentionedAt(t, g, k) && g >= first
    ensures t[k] != t0[k]
  {
    hide MentionedAt, Candidate, Splits;
    MentionIs(t, g, k);
    MentionIs(t0, g, k);
  }

  /** A fresh register is written by its reload only. */
  lemma FreshWrites(t0: seq<Asm>, t: seq<Asm>, i: nat, first: nat, cur: nat, u: nat, j: nat, g: nat, k: nat)
    requires Planned(t0, t, i, first, cur) && first <= g && Reloaded(t0, t, i, u, j, g) && k < |t| && IsWritten(t[k].assembler, R(g))
    ensures k + 2 == u || (k + 1 == u && EndOf(t0, j) < |t0|)
  {
    hide HasRoom, Near, AllTaken, Splits, Candidate, LoneLoad, LoadEnd, IsRead, IsWritten, Mentions, Retargeted, Reload;
    WrittenIsMentioned(t, g, k);
    assert EntryPlanned(t0, t, i, first, cur, k);
    FreshNotOriginal(t0, t, first, g, k);
    if exists l: nat, v: nat :: Dropped(t0, t, i, k, l, v) {
      assert false;
    } else if t[k] != t0[k] {
      var v: nat, l: nat, f: nat :| k <= v <= k + 2 && first <= f < cur && Reloaded(t0, t, i, v, l, f);
      ReloadedMentions(t0, t, i, v, l, f, k, g);
      if Named(t0, g) { NamedBelow(t0, first, g); assert false; }
      OneUseEach(t0, t, i, first, cur, u, j, v, l, g);
      OnlyOneSplits(t0, first, j, l, u);
      if k == v {
        UseFacts(t0, first, l, v);
        var n: nat :| 0 < n < first && t0[l].assembler.regDst == R(n) && IsRead(t0[v].assembler, R(n)) && !IsWritten(t0[v].assembler, R(n));
        forall r: nat | r in Mentions(t0[v].assembler) ensures r < first { assert MentionedAt(t0, r, v) by { MentionIs(t0, r, v); } }
        SwappedDoesNotWrite(t0[v], n, f, g, first);
        assert false;
      }
    }
  }

  /** The search from the low half of a reload finds the high half. */
  lemma StartEnds(t0: seq<Asm>, t: seq<Asm>, i: nat, j: nat, f: nat)
    requires |t| == |t0| && i + 2 < |t| && Candidate(t0, j) && Reloaded(t0, t, |t0|, i + 2, j, f)
    ensures t[i].assembler.cmd == t0[j].assembler.cmd && t[i].assembler.regSrc == R(0) && t[i].assembler.regDst == R(f)
    ensures EndOf(t0, j) < |t0| ==> LoadEnd(t, i, i + 1) == i + 1
    ensures EndOf(t0, j) == |t0| ==> t[i].assembler.cmd.ADDI?
  {
    hide Candidate, Retargeted, Done, EndOf;
    LoadEntries(t0, j);
  }

  lemma DoneLater(t0: seq<Asm>, t: seq<Asm>, i: nat, u: nat, j: nat, f: nat)
    requires |t| == |t0| && i <= |t| && Reloaded(t0, t, i, u, j, f)
    ensures Reloaded(t0, t, |t0|, u, j, f)
  {
    hide Splits, Reload, Retargeted, EndOf;
  }

  /** The low half of a reload counts as a load when its turn comes. */
  lemma StartIsCandidate(t0: seq<Asm>, t: seq<Asm>, i: nat, first: nat, cur: nat)
    requires Planned(t0, t, i, first, cur) && i < |t| && ReloadStart(t0, t, i, first, cur, i)
    ensures Candidate(t, i)
  {
    hide Planned, IsWritten, Splits, Retargeted, Reloaded, LoadsApart, HasRoom, Candidate, LoneLoad, LoadEnd, Done;
    PlannedLength(t0, t, i, first, cur);
    var u: nat, j: nat, f: nat :| u == i + 2 && first <= f < cur && Reloaded(t0, t, i, u, j, f);
    ReloadedUse(t0, t, i, u, j, f);
    SplitsCandidate(t0, j, u);
    LoadEntries(t0, j);
    DoneLater(t0, t, i, u, j, f);
    StartEnds(t0, t, i, j, f);
    forall k | i < k < |t| && k != LoadEnd(t, i, i + 1) ensures !IsWritten(t[k].assembler, R(f)) {
      if IsWritten(t[k].assembler, R(f)) { FreshWrites(t0, t, i, first, cur, u, j, f, k); }
    }
    CandidateMeans(t, i);
  }

  lemma CandidateMeans(t: seq<Asm>, i: nat)
    requires i < |t|
    ensures Candidate(t, i) <==> Splittable(t, i)
  {
  }

  /** What the next turn counts. */
  lemma CandidateIff(t0: seq<Asm>, t: seq<Asm>, i: nat, first: nat, cur: nat)
    requires Planned(t0, t, i, first, cur) && i < |t|
    ensures Candidate(t, i) <==> Candidate(t0, i) || LowHalf(t0, t, i)
    ensures !(Candidate(t0, i) && LowHalf(t0, t, i))
  {
    hide Planned, Candidate, ReloadStart, EndOf;
    PlannedLength(t0, t, i, first, cur);
    LowHalfIs(t0, t, i, first, cur, i);
    if Candidate(t, i) { CandidateKinds(t0, t, i, first, cur); }
    if Candidate(t0, i) { OriginalCandidate(t0, t, i, first, cur); LoadEntries(t0, i); }
    if ReloadStart(t0, t, i, first, cur, i) { StartIsCandidate(t0, t, i, first, cur); }
  }

  lemma LowHalfAfter(t0: seq<Asm>, t: seq<Asm>, i: nat, first: nat, cur: nat, q: seq<Asm>, k: nat)
    requires Splitting(t0, t, i, first, cur, q)
    ensures LowHalf(t0, q, k) <==> LowHalf(t0, t, k) || FarUse(t, SplitAtEntry(t, i, cur), k + 2)
    ensures !(LowHalf(t0, t, k) && FarUse(t, SplitAtEntry(t, i, cur), k + 2))
  {
    hide Planned, FarUse, FarUses, SafeSplit, SplitInto, LoadEnd, LoadGoes, Retargeted, Candidate, Splits;
    var sp := SplitAtEntry(t, i, cur);
    SplittingLength(t0, t, i, first, cur, q);
    LoadEntries(t, i);
    LoadEntries(t0, i);
    forall u: nat | FarUse(t, sp, u) ensures 2 <= u < |t| { FarAround(t0, t, i, first, cur, u); }
    if k < |t| {
      SplittingFacts(t0, t, i, first, cur, q, k);
      if FarUse(t, sp, k + 2) { FarAround(t0, t, i, first, cur, k + 2); }
      if FarUse(t, sp, k + 1) { FarAround(t0, t, i, first, cur, k + 1); }
      if FarUse(t, sp, k) { FarAround(t0, t, i, first, cur, k); }
    }
  }

  lemma {:induction false} LowHalvesAfter(t0: seq<Asm>, t: seq<Asm>, i: nat, first: nat, cur: nat, q: seq<Asm>, n: nat)
    requires Splitting(t0, t, i, first, cur, q)
    ensures LowHalves(t0, q, n) == LowHalves(t0, t, n) + FarUses(t, SplitAtEntry(t, i, cur), n + 2)
    decreases n
  {
    hide Splitting, FarUse, LowHalf, SplitAtEntry;
    SplittingLength(t0, t, i, first, cur, q);
    var sp := SplitAtEntry(t, i, cur);
    if n == 0 {
      NoneAtStart(t, i, cur);
    } else {
      LowHalvesAfter(t0, t, i, first, cur, q, n - 1);
      LowHalfAfter(t0, t, i, first, cur, q, n - 1);
      assert FarUses(t, sp, n + 2) == FarUses(t, sp, n + 1) + (if FarUse(t, sp, n + 1) then 1 else 0);
    }
  }

  lemma {:induction false} NoneUpTo(t: seq<Asm>, i: nat, cur: nat, n: nat)
    requires i < |t| && n <= i + 3
    ensures FarUses(t, SplitAtEntry(t, i, cur), n) == 0
    decreases n
  {
    hide CountInstructions, IsRead, IsWritten;
    var sp := SplitAtEntry(t, i, cur);
    if n > 0 {
      NoneUpTo(t, i, cur, n - 1);
      if FarUse(t, sp, n - 1) { CountAtMost(t, i + 1, n - 1); }
    }
  }

  lemma NoneAtStart(t: seq<Asm>, i: nat, cur: nat)
    requires i < |t|
    ensures FarUses(t, SplitAtEntry(t, i, cur), 2) == 0
  {
    NoneUpTo(t, i, cur, 2);
  }

  lemma NoneBeyond(t: seq<Asm>, sp: Split)
    ensures FarUses(t, sp, |t| + 2) == FarUses(t, sp, |t|)
  {
    hide CountInstructions, IsRead, IsWritten;
    assert FarUses(t, sp, |t| + 1) == FarUses(t, sp, |t|);
  }

  lemma {:induction false} NoneAtAll(t: seq<Asm>, sp: Split, n: nat)
    requires NoFarUse(t, sp)
    ensures FarUses(t, sp, n) == 0
    decreases n
  {
    hide FarUse;
    if n > 0 { NoneAtAll(t, sp, n - 1); }
  }

  // ----- All splits -----

  /** What the split of entry i does to the plan and to the number of reloads. */
  ghost predicate Continues(t0: seq<Asm>, t: seq<Asm>, i: nat, first: nat, cur: nat, q: seq<Asm>, cur': nat) {
    Planned(t0, q, i + 1, first, cur') && cur <= cur' &&
    LowHalves(t0, q, |t|) == LowHalves(t0, t, |t|) + cur' - cur && LowHalves(t0, q, i + 1) == LowHalves(t0, t, i + 1)
  }

  lemma RealSplit(t0: seq<Asm>, t: seq<Asm>, i: nat, first: nat, cur: nat, q: seq<Asm>)
    requires Splitting(t0, t, i, first, cur, q)
    ensures Continues(t0, t, i, first, cur, q, cur + FarUses(t, SplitAtEntry(t, i, cur), |t|))
  {
    hide Splitting, Planned, FarUses, SplitAtEntry, LowHalves;
    SplittingLength(t0, t, i, first, cur, q);
    SplitKeepsPlan(t0, t, i, first, cur, q);
    LowHalvesAfter(t0, t, i, first, cur, q, |t|);
    LowHalvesAfter(t0, t, i, first, cur, q, i + 1);
    NoneBeyond(t, SplitAtEntry(t, i, cur));
    NoneUpTo(t, i, cur, i + 3);
  }

  lemma NoSplit(t0: seq<Asm>, t: seq<Asm>, i: nat, first: nat, cur: nat)
    requires Planned(t0, t, i, first, cur) && i < |t| && NoFarUse(t, SplitAtEntry(t, i, cur))
    ensures SplitOnce(t, SplitAtEntry(t, i, cur)) == t
    ensures Continues(t0, t, i, first, cur, t, cur + FarUses(t, SplitAtEntry(t, i, cur), |t|))
  {
    hide Planned, NoFarUse, FarUses, LowHalves, SplitInto, SplitOnce, SplitAtEntry;
    var sp := SplitAtEntry(t, i, cur);
    AtEntry(t, i, cur);
    NothingSplit(t, sp);
    NoneAtAll(t, sp, |t|);
    PlanNext(t0, t, i, first, cur);
  }

  /** The split met at entry i is safe or has nothing to do; it leaves a planned list, and counts
      what it adds. */
  lemma OneSplit(t0: seq<Asm>, t: seq<Asm>, i: nat, first: nat, cur: nat)
    requires Planned(t0, t, i, first, cur) && i < |t| && Splittable(t, i)
    ensures var sp := SplitAtEntry(t, i, cur);
      (SafeSplit(t, sp) || NoFarUse(t, sp)) && Continues(t0, t, i, first, cur, SplitOnce(t, sp), cur + FarUses(t, sp, |t|))
  {
    hide Planned, SafeSplit, NoFarUse, Splittable, ReloadStart, FarUses, SplitInto, Continues, Candidate, SplitAtEntry, EndOf;
    PlannedLength(t0, t, i, first, cur);
    AtEntry(t, i, cur);
    var sp := SplitAtEntry(t, i, cur);
    CandidateMeans(t, i);
    CandidateKinds(t0, t, i, first, cur);
    if NoFarUse(t, sp) {
      NoSplit(t0, t, i, first, cur);
    } else {
      if ReloadStart(t0, t, i, first, cur, i) { ReloadNotSplit(t0, t, i, first, cur); }
      NextSplitSafe(t0, t, i, first, cur);
      RealSplit(t0, t, i, first, cur, SplitOnce(t, sp));
    }
  }

  /** Every split met is safe, the last list is as planned, and every load of the list before and
      every reload are counted once. */
  lemma {:induction false} AllPlanned(t0: seq<Asm>, t: seq<Asm>, i: nat, first: nat, cur: nat, count: nat)
    requires Planned(t0, t, i, first, cur)
    ensures AllSafe(t, i, cur)
    ensures var s := SplitAll(t, i, cur, count);
      cur <= s.first && Planned(t0, s.list, |t0|, first, s.first) &&
      s.count + Candidates(t0, i) + LowHalves(t0, t, i) == count + Candidates(t0, |t0|) + LowHalves(t0, t, |t0|) + s.first - cur
    decreases |t| - i
  {
    hide Planned, SafeSplit, NoFarUse, Splittable, FarUses, LoadEnd, SplitInto, SplitAtEntry, Candidate, LowHalf;
    PlannedLength(t0, t, i, first, cur);
    if i < |t| {
      CandidateMeans(t, i);
      CandidateIff(t0, t, i, first, cur);
      if Splittable(t, i) {
        var sp := SplitAtEntry(t, i, cur);
        assert sp.start == i by { AtEntry(t, i, cur); }
        OneSplit(t0, t, i, first, cur);
        var q := SplitOnce(t, sp);
        SameLength(t, sp, q);
        AllPlanned(t0, q, i + 1, first, cur + FarUses(t, sp, |t|), count + 1);
      } else {
        PlanNext(t0, t, i, first, cur);
        AllPlanned(t0, t, i + 1, first, cur, count);
      }
    }
  }

  lemma InterleavedHasRoom(p: seq<Asm>)
    ensures HasRoom(Interleaved(p))
  {
    hide Interleaved;
    forall u: nat | u < |Interleaved(p)| && !IsBarrier(Interleaved(p)[u].assembler.cmd)
      ensures u >= 2 && IsFree(Interleaved(p)[u - 1]) && IsFree(Interleaved(p)[u - 2])
    {
      RoomBefore(p, u);
    }
  }

  lemma {:induction false} NoLowHalvesYet(t: seq<Asm>, n: nat)
    ensures LowHalves(t, t, n) == 0
    decreases n
  {
    if n > 0 { NoLowHalvesYet(t, n - 1); }
  }

  /** How many constant loads splitting finds in the list it is given. */
  ghost function SplittableLoadsIn(p: seq<Asm>): nat { Candidates(Interleaved(p), |Interleaved(p)|) }

  lemma SplitsPlanned(p: seq<Asm>, first: nat)
    requires SplitsApart(p, first)
    ensures SplitsSafe(p, first)
    ensures var s := SplitAll(Interleaved(p), 0, first, 0);
      first <= s.first && Planned(Interleaved(p), s.list, |Interleaved(p)|, first, s.first) &&
      s.count == SplittableLoadsIn(p) + (s.first - first)
  {
    hide Interleaved, SplitAll, AllSafe, LoadsApart, HasRoom, IsRoom, LowHalves, Planned;
    var t0 := Interleaved(p);
    InterleavedHasRoom(p);
    NothingPlanned(t0, first);
    NoLowHalvesYet(t0, 0);
    NoLowHalvesYet(t0, |t0|);
    AllPlanned(t0, t0, 0, first, first, 0);
  }

  lemma FreshStaysNamed(t0: seq<Asm>, t: seq<Asm>, i: nat, first: nat, cur: nat, f: nat)
    requires Planned(t0, t, i, first, cur) && first <= f < cur
    ensures Named(t, f)
  {
    hide LoadsApart, HasRoom, Reloaded, EntryPlanned, Near, MentionedAt;
    assert Taken(t0, t, i, f);
    var u: nat, j: nat :| Reloaded(t0, t, i, u, j, f);
    ReloadedUse(t0, t, i, u, j, f);
    SwappedMentions(t0, t, i, first, u, j, f);
  }

  /** Main result on splitting as a whole: when the loads stand apart in the list handed in,
      splitting leaves an indistinguishable list. Each load found counts one, each far use one
      more, so the new count bounds the new list exactly when no use was split or the register
      counter was not too far ahead; and what it misses lies below a limit exactly when, besides,
      the counter has not passed the limit. */
  lemma SplitsApartResult(p: seq<Asm>, first: nat, count: nat, limit: nat)
    requires SplitsApart(p, first)
    ensures var s := SplitConstantsOf(p, first);
      Equivalent(p, s.list) && s.count == SplittableLoadsIn(p) + (s.first - first)
    ensures var s := SplitConstantsOf(p, first);
      BoundsRegisters(p, count) ==>
        (BoundsRegisters(s.list, count + s.count) <==> s.first == first || first <= count + SplittableLoadsIn(p) + 1) &&
        (MissedBelow(s.list, count + s.count, limit) <==>
           s.first == first || first <= count + SplittableLoadsIn(p) + 1 || s.first <= limit)
  {
    hide SplitAll, Stripped, Interleaved, Planned, SplitsSafe, SplitsApart, BoundsRegisters, MissedBelow, Equivalent, Named, SplittableLoadsIn;
    SplitsPlanned(p, first);
    SplitConstantsKeep(p, first);
    var t := SplitAll(Interleaved(p), 0, first, 0);
    var s := SplitConstantsOf(p, first);
    if BoundsRegisters(p, count) {
      SplitCountIff(p, first, count, limit);
      forall r: nat | first <= r < s.first ensures Named(s.list, r) {
        FreshStaysNamed(Interleaved(p), t.list, |Interleaved(p)|, first, s.first, r);
        StrippedNames(t.list, r);
      }
      if s.first > first { assert Named(s.list, s.first - 1); }
    }
  }
}
