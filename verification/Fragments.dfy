/** Stretches of code whose labels are their own: what concatenating them keeps. */
module Fragments {
  import opened Instructions
  import opened Machine
  import opened Liveness
  import opened LiveRanges
  import opened JumpsAndLabels
  import opened DeadCode

  predicate LabelEntry(code: seq<Asm>, i: nat) { i < |code| && code[i].assembler.cmd.LABEL? }
  predicate BranchEntry(code: seq<Asm>, i: nat) { i < |code| && IsBranch(code[i].assembler.cmd) }
  function LabelAt(code: seq<Asm>, i: nat): Label
    requires i < |code|
  { code[i].assembler.lbl }

  ghost predicate Defined(code: seq<Asm>, l: Label) {
    exists i: nat :: LabelEntry(code, i) && LabelAt(code, i) == l
  }

  /** The branch at s leads back to the label at t. */
  predicate LoopsBack(code: seq<Asm>, s: nat, t: nat) {
    t <= s && BranchEntry(code, s) && LabelEntry(code, t) && LabelAt(code, s) == LabelAt(code, t)
  }

  /** Labels from t to s are named by branches from t to s only. */
  ghost predicate NamedWithin(code: seq<Asm>, t: nat, s: nat) {
    forall i: nat, j: nat :: LabelEntry(code, i) && t <= i <= s && BranchEntry(code, j) && LabelAt(code, i) == LabelAt(code, j)
      ==> t <= j <= s
  }

  /** Loops are entered at their head only. */
  ghost predicate LoopsClosed(code: seq<Asm>) {
    forall s: nat, t: nat :: LoopsBack(code, s, t) ==> NamedWithin(code, t, s)
  }

  ghost predicate LabelsOwned(code: seq<Asm>, owned: set<nat>) {
    forall i: nat :: LabelEntry(code, i) ==> LabelAt(code, i).Label? && LabelAt(code, i).number in owned
  }

  ghost predicate BranchesLand(code: seq<Asm>, open: set<Label>) {
    forall j: nat :: BranchEntry(code, j) ==> Defined(code, LabelAt(code, j)) || LabelAt(code, j) in open
  }

  /** Distinct labels with owned numbers; branches to own labels or to the open ones; loops
      entered at their head only. */
  ghost predicate Fragment(code: seq<Asm>, owned: set<nat>, open: set<Label>) {
    DistinctLabels(code) && LabelsOwned(code, owned) && BranchesLand(code, open) && LoopsClosed(code)
  }

  ghost predicate NoLoops(code: seq<Asm>) {
    forall s: nat, t: nat :: !LoopsBack(code, s, t)
  }

  /** No label of the set has an owned number. */
  predicate Foreign(open: set<Label>, owned: set<nat>) {
    forall l :: l in open ==> l.Label? && l.number !in owned
  }

  // ----- Concatenation -----

  lemma EntriesOfSum(a: seq<Asm>, b: seq<Asm>, i: nat)
    ensures LabelEntry(a + b, i) <==> LabelEntry(a, i) || (i >= |a| && LabelEntry(b, i - |a|))
    ensures BranchEntry(a + b, i) <==> BranchEntry(a, i) || (i >= |a| && BranchEntry(b, i - |a|))
    ensures i < |a + b| ==> LabelAt(a + b, i) == if i < |a| then LabelAt(a, i) else LabelAt(b, i - |a|)
  {
  }

  lemma DistinctSum(a: seq<Asm>, b: seq<Asm>, A: set<nat>, B: set<nat>)
    requires DistinctLabels(a) && DistinctLabels(b) && LabelsOwned(a, A) && LabelsOwned(b, B) && A !! B
    ensures DistinctLabels(a + b) && LabelsOwned(a + b, A + B)
  {
    var s := a + b;
    forall i: nat | LabelEntry(s, i) ensures LabelAt(s, i).Label? && LabelAt(s, i).number in A + B {
      EntriesOfSum(a, b, i);
    }
    forall i: nat, j: nat | i < j < |s| && s[i].assembler.cmd.LABEL? && s[j].assembler.cmd.LABEL?
      ensures s[i].assembler.lbl != s[j].assembler.lbl
    {
      if i < |a| <= j {
        assert LabelEntry(a, i) && LabelEntry(b, j - |a|);
        assert LabelAt(a, i).number in A && LabelAt(b, j - |a|).number in B;
      }
    }
  }

  lemma DefinedSum(a: seq<Asm>, b: seq<Asm>, l: Label)
    ensures Defined(a + b, l) <==> Defined(a, l) || Defined(b, l)
  {
    if Defined(a, l) {
      var i: nat :| LabelEntry(a, i) && LabelAt(a, i) == l;
      EntriesOfSum(a, b, i);
    }
    if Defined(b, l) {
      var i: nat :| LabelEntry(b, i) && LabelAt(b, i) == l;
      EntriesOfSum(a, b, |a| + i);
    }
    if Defined(a + b, l) {
      var i: nat :| LabelEntry(a + b, i) && LabelAt(a + b, i) == l;
      EntriesOfSum(a, b, i);
    }
  }

  lemma LandSum(a: seq<Asm>, b: seq<Asm>, x: set<Label>, y: set<Label>)
    requires BranchesLand(a, x) && BranchesLand(b, y)
    ensures BranchesLand(a + b, x + y)
  {
    hide Defined;
    forall j: nat | BranchEntry(a + b, j) ensures Defined(a + b, LabelAt(a + b, j)) || LabelAt(a + b, j) in x + y {
      EntriesOfSum(a, b, j);
      DefinedSum(a, b, LabelAt(a + b, j));
    }
  }

  lemma DefinedOwned(code: seq<Asm>, l: Label, owned: set<nat>)
    requires LabelsOwned(code, owned) && Defined(code, l)
    ensures l.Label? && l.number in owned
  {
  }

  /** A branch never names a label owned by a fragment it is foreign to. */
  lemma NotNamed(a: seq<Asm>, x: set<Label>, A: set<nat>, b: seq<Asm>, B: set<nat>, j: nat, i: nat)
    requires BranchesLand(a, x) && LabelsOwned(a, A) && LabelsOwned(b, B) && A !! B && Foreign(x, B)
    requires BranchEntry(a, j) && LabelEntry(b, i)
    ensures LabelAt(a, j) != LabelAt(b, i)
  {
    hide Defined;
    if Defined(a, LabelAt(a, j)) { DefinedOwned(a, LabelAt(a, j), A); }
  }

  lemma LoopsSum(a: seq<Asm>, b: seq<Asm>, A: set<nat>, B: set<nat>, x: set<Label>, y: set<Label>)
    requires Fragment(a, A, x) && Fragment(b, B, y) && A !! B && Foreign(y, A) && (Foreign(x, B) || NoLoops(b))
    ensures LoopsClosed(a + b)
  {
    hide Defined, BranchesLand, LabelsOwned, DistinctLabels;
    var c := a + b;
    forall s: nat, t: nat | LoopsBack(c, s, t) ensures NamedWithin(c, t, s) {
      EntriesOfSum(a, b, s);
      EntriesOfSum(a, b, t);
      if t < |a| <= s { NotNamed(b, y, B, a, A, s - |a|, t); }
      forall i: nat, j: nat | LabelEntry(c, i) && t <= i <= s && BranchEntry(c, j) && LabelAt(c, i) == LabelAt(c, j)
        ensures t <= j <= s
      {
        EntriesOfSum(a, b, i);
        EntriesOfSum(a, b, j);
        if s < |a| {
          assert LoopsBack(a, s, t) && NamedWithin(a, t, s);
          if j >= |a| { NotNamed(b, y, B, a, A, j - |a|, i); }
        } else {
          assert LoopsBack(b, s - |a|, t - |a|) && NamedWithin(b, t - |a|, s - |a|);
          if j < |a| { NotNamed(a, x, A, b, B, j, i - |a|); }
        }
      }
    }
  }

  /** Two fragments in a row, the second naming no label of the first, and the first naming
      labels of the second only if that has no loops. */
  lemma Joined(a: seq<Asm>, A: set<nat>, x: set<Label>, b: seq<Asm>, B: set<nat>, y: set<Label>)
    requires Fragment(a, A, x) && Fragment(b, B, y) && A !! B && Foreign(y, A) && (Foreign(x, B) || NoLoops(b))
    ensures Fragment(a + b, A + B, x + y)
  {
    hide DistinctLabels, LabelsOwned, BranchesLand, LoopsClosed, NoLoops, Foreign;
    DistinctSum(a, b, A, B);
    LandSum(a, b, x, y);
    LoopsSum(a, b, A, B, x, y);
  }

  /** A wider claim, with labels the code defines no longer open. */
  lemma Widened(code: seq<Asm>, A: set<nat>, x: set<Label>, B: set<nat>, y: set<Label>)
    requires Fragment(code, A, x) && A <= B && forall l :: l in x && l !in y ==> Defined(code, l)
    ensures Fragment(code, B, y)
  {
  }

  /** Closing a loop: a branch behind the code, back to its first label. */
  lemma LoopClosed(a: seq<Asm>, A: set<nat>, x: set<Label>, e: Asm, l: Label)
    requires Fragment(a, A, x) && LabelEntry(a, 0) && LabelAt(a, 0) == l && l !in x
    requires forall j: nat :: BranchEntry(a, j) ==> LabelAt(a, j) != l
    requires IsBranch(e.assembler.cmd) && e.assembler.lbl == l
    ensures Fragment(a + [e], A, x)
  {
    var c := a + [e];
    DistinctSum(a, [e], A, {});
    assert A + {} == A;
    assert BranchesLand([e], {l});
    LandSum(a, [e], x, {l});
    EntriesOfSum(a, [e], 0);
    assert Defined(c, l);
    assert BranchesLand(c, x);
    forall s: nat, t: nat | LoopsBack(c, s, t) ensures NamedWithin(c, t, s) {
      EntriesOfSum(a, [e], s);
      EntriesOfSum(a, [e], t);
      if s < |a| {
        assert LoopsBack(a, s, t) && NamedWithin(a, t, s);
        assert LabelAt(a, t) != l;
        forall i: nat, j: nat | LabelEntry(c, i) && t <= i <= s && BranchEntry(c, j) && LabelAt(c, i) == LabelAt(c, j)
          ensures t <= j <= s
        {
          EntriesOfSum(a, [e], i);
          EntriesOfSum(a, [e], j);
          assert t > 0;
          assert LabelAt(a, i) != l;
        }
      } else {
        assert t == 0;
      }
    }
  }

  /** No branch of a fragment names a label it neither owns nor leaves open. */
  lemma NeverNames(code: seq<Asm>, A: set<nat>, x: set<Label>, l: Label)
    requires Fragment(code, A, x) && l !in x && (l.Label? ==> l.number !in A)
    ensures forall j: nat :: BranchEntry(code, j) ==> LabelAt(code, j) != l
  {
  }

  // ----- Atoms -----

  /** Neither labels nor branches. */
  predicate Plain(code: seq<Asm>) {
    forall i :: 0 <= i < |code| ==> !code[i].assembler.cmd.LABEL? && !IsBranch(code[i].assembler.cmd)
  }

  lemma PlainFragment(code: seq<Asm>)
    requires Plain(code)
    ensures Fragment(code, {}, {}) && NoLoops(code)
  {
  }

  lemma LabelFragment(e: Asm, l: Label)
    requires e.assembler.cmd.LABEL? && e.assembler.lbl == l && l.Label?
    ensures Fragment([e], {l.number}, {}) && NoLoops([e]) && Defined([e], l)
  {
    assert LabelEntry([e], 0);
  }

  lemma BranchFragment(e: Asm, l: Label)
    requires IsBranch(e.assembler.cmd) && e.assembler.lbl == l
    ensures Fragment([e], {}, {l}) && NoLoops([e])
  {
  }

  // ----- What fragments are good for -----

  /** Once in a dead stretch, a part named only from within stays in it. */
  lemma {:induction false} DeadThroughout(prog: seq<Asm>, t: nat, i: nat, s: nat)
    requires t <= i <= s < |prog| && AfterBranch(prog, t) && NamedWithin(prog, t, s)
    ensures AfterBranch(prog, i) && InDeadStretch(prog, i)
    decreases i
  {
    if i > t { DeadThroughout(prog, t, i - 1, s); }
    assert AfterBranch(prog, i);
    if prog[i].assembler.cmd.LABEL? {
      forall j | 0 <= j < i && IsBranch(prog[j].assembler.cmd) && prog[j].assembler.lbl == prog[i].assembler.lbl
        ensures KilledAt(prog, j)
      {
        assert LabelEntry(prog, i) && BranchEntry(prog, j);
        DeadThroughout(prog, t, j, s);
      }
      assert !CalledBefore(prog, i);
    }
  }

  /** Dead code elimination is safe on lists whose loops are entered at their head only. */
  lemma ClosedLoopsNotDead(prog: seq<Asm>)
    requires LoopsClosed(prog) && BranchesLand(prog, {}) && DistinctLabels(prog)
    ensures NoJumpBackIntoDead(prog)
  {
    hide KilledAt, CalledBefore, AfterBranch, LoopsClosed, NamedWithin;
    forall s: nat, t: nat | Reachable(prog, s) && SurvivingJumpBack(prog, s, t) ensures !InDeadStretch(prog, t) {
      assert BranchEntry(prog, s);
      assert LoopsBack(prog, s, t);
      NotDeadAtHead(prog, s, t);
    }
  }

  lemma NotDeadAtHead(prog: seq<Asm>, s: nat, t: nat)
    requires LoopsClosed(prog) && LoopsBack(prog, s, t) && !InDeadStretch(prog, s)
    ensures !InDeadStretch(prog, t)
  {
    hide CalledBefore, AfterBranch, NamedWithin;
    if AfterBranch(prog, t) { DeadThroughout(prog, t, s, s); }
  }

  lemma LandsSomewhere(prog: seq<Asm>)
    requires BranchesLand(prog, {})
    ensures BranchesDefined(prog)
  {
    forall j: nat | j < |prog| && IsBranch(prog[j].assembler.cmd) ensures Target(prog, prog[j].assembler.lbl) < |prog| {
      assert BranchEntry(prog, j);
      var i: nat :| LabelEntry(prog, i) && LabelAt(prog, i) == LabelAt(prog, j);
      assert Defines(prog, i, prog[j].assembler.lbl);
    }
  }
}
