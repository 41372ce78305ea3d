/** Which entries a run can reach, and which registers it still needs there. */
module Liveness {
  import opened Instructions
  import opened Machine

  /** Branches that leave no way through to the next entry. */
  predicate AlwaysTaken(a: Assembler) {
    a.cmd.JMP? || (a.cmd.BRZ? && a.regSrc == R(0))
  }

  function Successors(prog: seq<Asm>, i: nat): set<nat>
    requires i < |prog|
  {
    var a := prog[i].assembler;
    if a.cmd.END? then {|prog|}
    else if AlwaysTaken(a) then {Target(prog, a.lbl)}
    else if IsBranch(a.cmd) then {i + 1, Target(prog, a.lbl)}
    else {i + 1}
  }

  ghost predicate ReachableIn(prog: seq<Asm>, i: nat, k: nat)
    decreases k
  {
    if k == 0 then i == 0
    else exists j :: 0 <= j < |prog| && ReachableIn(prog, j, k - 1) && i in Successors(prog, j)
  }

  ghost predicate Reachable(prog: seq<Asm>, i: nat) {
    exists k: nat :: ReachableIn(prog, i, k)
  }

  /** Some path of at most k entries from i reads r before writing it. */
  ghost predicate NeededIn(prog: seq<Asm>, r: nat, i: nat, k: nat)
    decreases k
  {
    k > 0 && i < |prog| &&
    (r in Reads(prog[i].assembler) ||
     (r !in Writes(prog[i].assembler) &&
      exists j :: j in Successors(prog, i) && NeededIn(prog, r, j, k - 1)))
  }

  ghost predicate Needed(prog: seq<Asm>, r: nat, i: nat) {
    exists k: nat :: NeededIn(prog, r, i, k)
  }

  /** No register's initial value matters. */
  ghost predicate NothingNeededAtEntry(prog: seq<Asm>) {
    forall r: nat :: !Needed(prog, r, 0)
  }

  lemma NeededWhereRead(prog: seq<Asm>, r: nat, i: nat)
    requires i < |prog| && r in Reads(prog[i].assembler)
    ensures Needed(prog, r, i)
  {
    assert NeededIn(prog, r, i, 1);
  }

  lemma NeededBefore(prog: seq<Asm>, r: nat, i: nat, j: nat)
    requires i < |prog| && j in Successors(prog, i)
    requires Needed(prog, r, j)
    requires r !in Writes(prog[i].assembler)
    ensures Needed(prog, r, i)
  {
    var k: nat :| NeededIn(prog, r, j, k);
    assert NeededIn(prog, r, i, k + 1);
  }

  lemma NextPcIsSuccessor(prog: seq<Asm>, s: State)
    requires s.pc < |prog|
    ensures NextPc(prog, s) in Successors(prog, s.pc)
  {
  }

  lemma ReachableNext(prog: seq<Asm>, i: nat, j: nat)
    requires i < |prog| && Reachable(prog, i) && j in Successors(prog, i)
    ensures Reachable(prog, j)
  {
    var k: nat :| ReachableIn(prog, i, k);
    assert ReachableIn(prog, j, k + 1);
  }

  /** Only reachable entries are executed. */
  lemma {:induction false} RunStaysReachable(prog: seq<Asm>, input: Input, s: State, n: nat)
    requires Reachable(prog, s.pc)
    ensures Reachable(prog, Run(prog, input, s, n).pc)
    decreases n
  {
    if n > 0 {
      if s.pc < |prog| {
        NextPcIsSuccessor(prog, s);
        ReachableNext(prog, s.pc, NextPc(prog, s));
      }
      RunStaysReachable(prog, input, Step(prog, input, s), n - 1);
    }
  }

  lemma EntryReachable(prog: seq<Asm>)
    ensures Reachable(prog, 0)
  {
    assert ReachableIn(prog, 0, 0);
  }

  // ----- Paths -----

  /** A way through the list from its first entry. */
  ghost predicate IsPath(prog: seq<Asm>, path: seq<nat>) {
    path != [] && path[0] == 0 &&
    forall k :: 0 <= k < |path| - 1 ==> path[k] < |prog| && path[k + 1] in Successors(prog, path[k])
  }

  lemma {:induction false} PathTo(prog: seq<Asm>, i: nat, k: nat) returns (path: seq<nat>)
    requires ReachableIn(prog, i, k)
    ensures IsPath(prog, path) && |path| == k + 1 && path[k] == i
    decreases k
  {
    hide Successors;
    if k == 0 {
      path := [0];
    } else {
      var j: nat :| j < |prog| && ReachableIn(prog, j, k - 1) && i in Successors(prog, j);
      var front := PathTo(prog, j, k - 1);
      path := front + [i];
    }
  }

  lemma {:induction false} PathReachable(prog: seq<Asm>, path: seq<nat>, k: nat)
    requires IsPath(prog, path) && k < |path|
    ensures Reachable(prog, path[k])
    decreases k
  {
    hide Successors, Reachable;
    if k == 0 {
      EntryReachable(prog);
    } else {
      PathReachable(prog, path, k - 1);
      ReachableNext(prog, path[k - 1], path[k]);
    }
  }

  /** A register needed at the end of a path, but not at the entry, is written on that path; behind
      the last such write it is needed all along. */
  lemma {:induction false} WrittenOnTheWay(prog: seq<Asm>, r: nat, path: seq<nat>) returns (w: nat)
    requires IsPath(prog, path) && Needed(prog, r, path[|path| - 1]) && !Needed(prog, r, 0)
    ensures w < |path| - 1 && r in Writes(prog[path[w]].assembler)
    ensures forall k :: w < k < |path| - 1 ==> r !in Writes(prog[path[k]].assembler)
    ensures forall k :: w < k < |path| ==> Needed(prog, r, path[k])
    decreases |path|
  {
    hide Needed, Reads, Writes, Successors;
    var n := |path| - 1;
    if r in Writes(prog[path[n - 1]].assembler) {
      w := n - 1;
    } else {
      NeededBefore(prog, r, path[n - 1], path[n]);
      w := WrittenOnTheWay(prog, r, path[..n]);
    }
  }

  // ----- Which branches leave no way through -----

  /** A branch with its register set is always taken exactly when the table says so. */
  lemma AlwaysTakenIff(a: Assembler)
    requires a.regSrc.R? || a.cmd.JMP?
    ensures AlwaysTaken(a) <==> IsBranch(a.cmd) && forall regs: Registers :: Taken(a, regs)
  {
    if IsBranch(a.cmd) && !a.cmd.JMP? {
      var zero: Registers, one: Registers := map[], map[a.regSrc.number := 1];
      assert !AlwaysTaken(a) ==> !Taken(a, if a.cmd.BRZ? then one else zero);
    }
  }
}
