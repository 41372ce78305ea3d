/** The links of the play tree: next, branches, loop and parent, and the surgery on them. */
module NodeLinks {

  /** Node types the surgery looks at: 4, 8, and the rest. */
  datatype Kind = Branch | Loop | Other

  /** The links of one node. */
  datatype Links = Links(kind: Kind, asmId: int, next: Node?, branches: seq<Node>, loop: Node?, parent: Node?)

  /** The links of all nodes at one moment. */
  type Graph = map<Node, Links>

  // ----- The surgery on values -----

  /** Puts b where the first a stands, or takes it out when b is null. */
  function ReplaceFirst(s: seq<Node>, a: Node?, b: Node?): (r: seq<Node>) {
    if s == [] then []
    else if s[0] == a then (if b == null then s[1..] else [b as Node] + s[1..])
    else [s[0]] + ReplaceFirst(s[1..], a, b)
  }

  function NewEntry(b: Node?): seq<Node> { if b == null then [] else [b as Node] }

  lemma ReplaceStep(s: seq<Node>, i: nat, a: Node?, b: Node?)
    requires i < |s|
    ensures s[i] == a ==> s[..i] + ReplaceFirst(s[i..], a, b) == s[..i] + NewEntry(b) + s[i + 1..]
    ensures s[i] != a ==> s[..i] + ReplaceFirst(s[i..], a, b) == s[..i + 1] + ReplaceFirst(s[i + 1..], a, b)
  {
    assert s[i..][1..] == s[i + 1..] && s[..i + 1] == s[..i] + [s[i]];
  }

  lemma NothingReplaced(s: seq<Node>, a: Node?, b: Node?)
    ensures s[..|s|] + ReplaceFirst(s[|s|..], a, b) == s
  {
    assert s[|s|..] == [];
  }

  /** The slot that holds oldChild holds newChild: next first, then branches of a branch, then loop. */
  function ReplaceChild(l: Links, oldChild: Node?, newChild: Node?): Links {
    if l.next == oldChild then l.(next := newChild)
    else if l.kind.Branch? then l.(branches := ReplaceFirst(l.branches, oldChild, newChild))
    else if l.loop == oldChild then l.(loop := newChild)
    else l
  }

  function UpdatedParent(g: Graph, parent: Node?, oldChild: Node?, newChild: Node?): (h: Graph)
    requires parent != null ==> parent in g
    requires newChild != null ==> newChild in g
    ensures h.Keys == g.Keys
  {
    if parent == null then g
    else
      var g1 := g[parent := ReplaceChild(g[parent], oldChild, newChild)];
      if newChild == null then g1 else g1[newChild := g1[newChild].(parent := parent)]
  }

  // ----- The invariant -----

  predicate Child(l: Links, c: Node?) {
    c != null && (l.next == c || c in l.branches || l.loop == c)
  }

  predicate Closed(g: Graph) {
    forall n :: n in g ==>
      (g[n].next != null ==> g[n].next in g) && (g[n].loop != null ==> g[n].loop in g) &&
      (g[n].parent != null ==> g[n].parent in g) && forall c :: c in g[n].branches ==> c in g
  }

  /** Only branches have branches, and they have no loop. */
  predicate Kinds(l: Links) {
    (l.kind.Branch? ==> l.loop == null) && (!l.kind.Branch? ==> l.branches == [])
  }

  predicate Distinct(s: seq<Node>) { forall i, j :: 0 <= i < j < |s| ==> s[i] != s[j] }

  /** No child stands in two slots. */
  predicate HeldOnce(l: Links) {
    Distinct(l.branches) && (l.next != null ==> l.next !in l.branches && l.next != l.loop)
  }

  /** A node's parent is the node that holds it, and every holder is the parent. */
  predicate ParentsMatch(g: Graph) {
    forall p, c :: p in g && c in g ==> (Child(g[p], c) <==> g[c].parent == p)
  }

  predicate Linked(g: Graph) {
    Closed(g) && ParentsMatch(g) && forall n :: n in g ==> Kinds(g[n]) && HeldOnce(g[n])
  }

  /** No cycles: ranks grow from parent to child. */
  predicate Ranked(g: Graph, rank: map<Node, nat>) {
    forall n :: n in g ==> n in rank && (g[n].parent != null ==> g[n].parent in rank && rank[g[n].parent] < rank[n])
  }

  /** Sound links without cycles. */
  predicate Tree(g: Graph, rank: map<Node, nat>) { Linked(g) && Ranked(g, rank) }

  /** The holder k levels up, or null above the root. */
  function Up(g: Graph, n: Node?, k: nat): Node? {
    if k == 0 || n == null || n !in g then n else Up(g, g[n].parent, k - 1)
  }

  ghost predicate Acyclic(g: Graph) { forall n: Node, k: nat :: n in g && k > 0 ==> Up(g, n, k) != n }

  /** Sound links without cycles, whatever the ranks. */
  ghost predicate IsTree(g: Graph) { Linked(g) && Acyclic(g) }

  lemma {:induction false} UpIsLower(g: Graph, rank: map<Node, nat>, n: Node, k: nat)
    requires Closed(g) && Ranked(g, rank) && n in g
    ensures var u := Up(g, n, k); u == null || (u in g && rank[u] + k <= rank[n])
    decreases k
  {
    hide Closed;
    if k > 0 && g[n].parent != null {
      ParentInside(g, n);
      UpIsLower(g, rank, g[n].parent, k - 1);
    }
  }

  lemma RankedIsTree(g: Graph, rank: map<Node, nat>)
    requires Tree(g, rank)
    ensures IsTree(g)
  {
    hide Ranked, ParentsMatch, Kinds, HeldOnce, Up;
    forall n: Node, k: nat | n in g && k > 0 ensures Up(g, n, k) != n { UpIsLower(g, rank, n, k); }
  }

  // ----- Replacing one child -----

  lemma {:induction false} ReplaceFirstHolds(s: seq<Node>, a: Node, b: Node?)
    requires Distinct(s) && (b != null ==> b !in s)
    ensures var r := ReplaceFirst(s, a, b);
      Distinct(r) && (forall c: Node :: c in r <==> (c in s && c != a) || (a in s && c == b)) && (a !in s ==> r == s)
    decreases s
  {
    if s != [] {
      var rest, r := s[1..], ReplaceFirst(s, a, b);
      assert s == [s[0]] + rest && forall i :: 0 <= i < |rest| ==> rest[i] == s[i + 1];
      assert s[0] !in rest;
      if s[0] != a {
        ReplaceFirstHolds(rest, a, b);
        var r' := ReplaceFirst(rest, a, b);
        assert r == [s[0]] + r' && s[0] !in r';
      } else if b != null {
        assert r == [b as Node] + rest && b !in rest;
      }
    }
  }

  /** Replacing a child changes that child and nothing else. */
  lemma ReplaceChildHolds(l: Links, a: Node, b: Node?)
    requires Kinds(l) && HeldOnce(l) && Child(l, a) && !Child(l, b)
    ensures var r := ReplaceChild(l, a, b);
      Kinds(r) && HeldOnce(r) && r.kind == l.kind && r.parent == l.parent && r.asmId == l.asmId &&
      forall c: Node :: Child(r, c) <==> (Child(l, c) && c != a) || c == b
  {
    ReplaceFirstHolds(l.branches, a, b);
  }

  // ----- Inserting -----

  /** newNode between this and its holder. */
  function Inserted(g: Graph, at: Node, newNode: Node): (h: Graph)
    requires at in g && newNode in g && Closed(g)
    ensures h.Keys == g.Keys
  {
    var par := g[at].parent;
    var g1 := g[newNode := g[newNode].(next := at, parent := par)];
    var g2 := UpdatedParent(g1, par, at, newNode);
    g2[at := g2[at].(parent := newNode)]
  }

  /** m is n or stands above it. */
  predicate AtOrAbove(g: Graph, rank: map<Node, nat>, m: Node, n: Node)
    requires Closed(g) && Ranked(g, rank) && n in g
    decreases rank[n]
  {
    m == n || (g[n].parent != null && AtOrAbove(g, rank, m, g[n].parent))
  }

  /** m can be put before n: nobody holds it, it has no next, and n is not below it. */
  predicate Placeable(g: Graph, rank: map<Node, nat>, n: Node, m: Node)
    requires Closed(g) && Ranked(g, rank) && n in g && m in g
  {
    g[m].parent == null && g[m].next == null && !AtOrAbove(g, rank, m, n)
  }

  lemma InsertedLinks(g: Graph, n: Node, m: Node)
    requires Linked(g) && n in g && m in g && m != n && g[n].parent != n && g[n].parent != m
    ensures var h := Inserted(g, n, m); var p := g[n].parent;
      h[n] == g[n].(parent := m) && h[m] == g[m].(next := n, parent := p) &&
      (p != null ==> h[p] == ReplaceChild(g[p], n, m)) &&
      forall x :: x in g && x != n && x != m && x != p ==> h[x] == g[x]
  {
    hide ReplaceChild, HeldOnce, Kinds, ParentsMatch;
  }

  /** m's subtree moves below n's old rank, n's subtree below m. */
  function InsertedRank(g: Graph, rank: map<Node, nat>, n: Node, m: Node): map<Node, nat>
    requires Closed(g) && Ranked(g, rank) && n in g && m in g
  {
    map x | x in g :: rank[x] + (if AtOrAbove(g, rank, m, x) then rank[n] else 0) +
                      (if AtOrAbove(g, rank, n, x) then rank[m] + 1 else 0)
  }

  /** A graph whose children stay inside it is closed. */
  lemma ClosedByChildren(g: Graph)
    requires forall n, c: Node :: n in g && Child(g[n], c) ==> c in g
    requires forall n :: n in g && g[n].parent != null ==> g[n].parent in g
    ensures Closed(g)
  {
    forall n | n in g
      ensures (g[n].next != null ==> g[n].next in g) && (g[n].loop != null ==> g[n].loop in g) &&
        (g[n].parent != null ==> g[n].parent in g) && forall c :: c in g[n].branches ==> c in g
    {
      assert g[n].next != null ==> Child(g[n], g[n].next);
      assert g[n].loop != null ==> Child(g[n], g[n].loop);
      assert forall c :: c in g[n].branches ==> Child(g[n], c);
    }
  }

  lemma ChildrenInside(g: Graph, n: Node, c: Node)
    requires Closed(g) && n in g && Child(g[n], c)
    ensures c in g
  {
  }

  /** Soundness, child by child. */
  lemma TreeByParents(g: Graph, rank: map<Node, nat>)
    requires forall n, c: Node :: n in g ==> (Child(g[n], c) <==> c in g && g[c].parent == n)
    requires forall n :: n in g && g[n].parent != null ==> g[n].parent in g
    requires forall n :: n in g ==> Kinds(g[n]) && HeldOnce(g[n])
    requires Ranked(g, rank)
    ensures Tree(g, rank)
  {
    hide Child, Kinds, HeldOnce, Ranked;
    ClosedByChildren(g);
  }

  /** Inserting, child by child. */
  lemma InsertedChild(g: Graph, rank: map<Node, nat>, n: Node, m: Node, x: Node, c: Node)
    requires Tree(g, rank) && n in g && m in g && Placeable(g, rank, n, m) && x in g
    ensures var h := Inserted(g, n, m); Child(h[x], c) <==> c in h && h[c].parent == x
    ensures var h := Inserted(g, n, m); Kinds(h[x]) && HeldOnce(h[x]) && (h[x].parent != null ==> h[x].parent in h)
  {
    hide Inserted, ReplaceChild, Closed, Kinds, HeldOnce, Ranked;
    var p := g[n].parent;
    ParentInside(g, n);
    ParentInside(g, x);
    NotAboveParent(g, rank, n, m);
    InsertedLinks(g, n, m);
    if p != null { ReplaceChildHolds(g[p], n, m); }
    NextAdded(g[m], n, p);
    var h := Inserted(g, n, m);
    SameChildren(g[x], h[x], c);
    SameShape(g[x], h[x]);
    if Child(g[x], c) { ChildrenInside(g, x, c); }
  }

  lemma NotAboveParent(g: Graph, rank: map<Node, nat>, n: Node, m: Node)
    requires Closed(g) && Ranked(g, rank) && n in g && !AtOrAbove(g, rank, m, n)
    ensures n != m && g[n].parent != m && g[n].parent != n
  {
  }

  /** Nothing above a node has a rank as high. */
  lemma {:induction false} AboveIsLower(g: Graph, rank: map<Node, nat>, m: Node, x: Node)
    requires Closed(g) && Ranked(g, rank) && x in g && AtOrAbove(g, rank, m, x)
    ensures m in g && rank[m] <= rank[x] && (m != x ==> rank[m] < rank[x])
    decreases rank[x]
  {
    if m != x { AboveIsLower(g, rank, m, g[x].parent); }
  }

  /** A node and its holder are moved together, but for the roots of what is moved. */
  lemma MovedTogether(g: Graph, rank: map<Node, nat>, m: Node, x: Node)
    requires Closed(g) && Ranked(g, rank) && x in g && g[x].parent != null
    ensures g[x].parent in g && rank[g[x].parent] < rank[x]
    ensures x != m ==> (AtOrAbove(g, rank, m, x) <==> AtOrAbove(g, rank, m, g[x].parent))
  {
  }

  lemma InsertedRanked(g: Graph, rank: map<Node, nat>, n: Node, m: Node)
    requires Tree(g, rank) && n in g && m in g && Placeable(g, rank, n, m)
    ensures Ranked(Inserted(g, n, m), InsertedRank(g, rank, n, m))
  {
    hide Inserted, Kinds, HeldOnce, Child, ParentsMatch;
    NotAboveParent(g, rank, n, m);
    InsertedLinks(g, n, m);
    var h, p := Inserted(g, n, m), g[n].parent;
    if p != null {
      ReplacedParent(g[p], n, m);
      if AtOrAbove(g, rank, n, p) { AboveIsLower(g, rank, n, p); }
    }
    hide ReplaceChild, Closed;
    var moved := InsertedRank(g, rank, n, m);
    forall x | x in h ensures x in moved && (h[x].parent != null ==> h[x].parent in moved && moved[h[x].parent] < moved[x]) {
      if x != n && x != m && g[x].parent != null {
        MovedTogether(g, rank, m, x);
        MovedTogether(g, rank, n, x);
      }
    }
  }

  /** Inserting keeps the links sound and the tree a tree. */
  lemma InsertedIsTree(g: Graph, rank: map<Node, nat>, n: Node, m: Node)
    requires Tree(g, rank) && n in g && m in g && Placeable(g, rank, n, m)
    ensures Tree(Inserted(g, n, m), InsertedRank(g, rank, n, m))
  {
    hide Inserted, Child, Kinds, HeldOnce, Placeable, InsertedRank;
    var h := Inserted(g, n, m);
    forall x, c: Node | x in h ensures Child(h[x], c) <==> c in h && h[c].parent == x { InsertedChild(g, rank, n, m, x, c); }
    forall x | x in h ensures Kinds(h[x]) && HeldOnce(h[x]) && (h[x].parent != null ==> h[x].parent in h) {
      InsertedChild(g, rank, n, m, x, x);
    }
    InsertedRanked(g, rank, n, m);
    TreeByParents(h, InsertedRank(g, rank, n, m));
  }

  /** Inserting keeps the links sound and the tree a tree exactly when the new node is held by
      nobody, has no next, and does not stand above. */
  lemma InsertedKeepsTree(g: Graph, rank: map<Node, nat>, n: Node, m: Node)
    requires Tree(g, rank) && n in g && m in g
    ensures IsTree(Inserted(g, n, m)) <==> Placeable(g, rank, n, m)
    ensures Placeable(g, rank, n, m) ==> Tree(Inserted(g, n, m), InsertedRank(g, rank, n, m))
  {
    hide Inserted, Placeable, InsertedRank, Child, Kinds, HeldOnce, ParentsMatch;
    if Placeable(g, rank, n, m) {
      InsertedIsTree(g, rank, n, m);
      RankedIsTree(Inserted(g, n, m), InsertedRank(g, rank, n, m));
    } else {
      MisplacedBreaks(g, rank, n, m);
    }
  }

  /** Any other new node leaves a cycle, a parent that does not hold its child, or a child held twice. */
  lemma MisplacedBreaks(g: Graph, rank: map<Node, nat>, n: Node, m: Node)
    requires Tree(g, rank) && n in g && m in g && !Placeable(g, rank, n, m)
    ensures !IsTree(Inserted(g, n, m))
  {
    hide Inserted, Acyclic, Child, Kinds, HeldOnce, ParentsMatch;
    if AtOrAbove(g, rank, m, n) {
      AboveMakesCycle(g, rank, n, m);
    } else if g[m].next != null {
      NextIsLost(g, rank, n, m);
    } else {
      HeldTwice(g, rank, n, m);
    }
  }

  /** Up to m, the holders are still the same. */
  lemma {:induction false} StillBelow(g: Graph, rank: map<Node, nat>, n: Node, m: Node, x: Node) returns (k: nat)
    requires Tree(g, rank) && n in g && m in g && x in g && m != n && g[n].parent != m && rank[x] < rank[n]
    requires AtOrAbove(g, rank, m, x)
    ensures Up(Inserted(g, n, m), x, k) == m
    decreases rank[x]
  {
    hide Inserted, ReplaceChild, Kinds, HeldOnce, ParentsMatch, Child;
    InsertedLinks(g, n, m);
    if m == x {
      k := 0;
    } else {
      if g[n].parent == x { ReplacedParent(g[x], n, m); }
      k := StillBelow(g, rank, n, m, g[x].parent);
      k := k + 1;
    }
  }

  lemma AboveMakesCycle(g: Graph, rank: map<Node, nat>, n: Node, m: Node)
    requires Tree(g, rank) && n in g && m in g && AtOrAbove(g, rank, m, n)
    ensures !Acyclic(Inserted(g, n, m))
  {
    hide ReplaceChild, Kinds, HeldOnce, ParentsMatch, Child;
    var h, p := Inserted(g, n, m), g[n].parent;
    if m == n {
      assert Up(h, n, 1) == n;
    } else if p == m {
      assert Up(h, m, 1) == m by { ReplacedParent(g[m].(next := n, parent := m), n, m); }
    } else {
      InsertedLinks(g, n, m);
      var k := StillBelow(g, rank, n, m, p);
      assert Up(h, m, k + 1) == Up(h, p, k);
    }
  }

  lemma NextIsLost(g: Graph, rank: map<Node, nat>, n: Node, m: Node)
    requires Tree(g, rank) && n in g && m in g && !AtOrAbove(g, rank, m, n) && g[m].next != null
    ensures !ParentsMatch(Inserted(g, n, m))
  {
    hide Inserted, ReplaceChild, Kinds;
    NotAboveParent(g, rank, n, m);
    InsertedLinks(g, n, m);
    var h, c := Inserted(g, n, m), g[m].next;
    assert Child(g[m], c);
    assert g[c].parent == m;
    if g[n].parent == c { ReplacedParent(g[c], n, m); }
    assert c in h && h[c].parent == m && !Child(h[m], c);
  }

  lemma HeldTwice(g: Graph, rank: map<Node, nat>, n: Node, m: Node)
    requires Tree(g, rank) && n in g && m in g && !AtOrAbove(g, rank, m, n) && g[m].parent != null
    ensures !Linked(Inserted(g, n, m))
  {
    hide Inserted, ReplaceChild, Kinds, HeldOnce;
    NotAboveParent(g, rank, n, m);
    InsertedLinks(g, n, m);
    var h, q := Inserted(g, n, m), g[m].parent;
    assert q in g && Child(g[q], m);
    if q == g[n].parent {
      assert Child(g[q], n);
      TwoSlots(g[q], n, m);
    } else {
      assert Child(h[q], m) && h[m].parent != q;
    }
  }

  /** Handing the place of one child to another leaves the other in two slots. */
  lemma TwoSlots(l: Links, n: Node, m: Node)
    requires Kinds(l) && HeldOnce(l) && Child(l, n) && Child(l, m) && m != n
    ensures !HeldOnce(ReplaceChild(l, n, m))
  {
    if l.next != n && l.kind.Branch? {
      var i: nat :| i < |l.branches| && l.branches[i] == n;
      ReplaceFirstAt(l.branches, n, m, i);
      var s := ReplaceFirst(l.branches, n, m);
      assert s[i] == m;
      if l.next != m {
        var j: nat :| j < |l.branches| && l.branches[j] == m;
        assert s[j] == m;
      }
    }
  }

  lemma ParentInside(g: Graph, n: Node)
    requires Closed(g) && n in g
    ensures g[n].parent != null ==> g[n].parent in g
  {
  }

  /** A node without a next gets one. */
  lemma NextAdded(l: Links, n: Node, p: Node?)
    requires Kinds(l) && HeldOnce(l) && l.next == null && !Child(l, n)
    ensures var r := l.(next := n, parent := p); Kinds(r) && HeldOnce(r) && forall c: Node :: Child(r, c) <==> Child(l, c) || c == n
  {
  }

  /** A node whose parent alone changed. */
  lemma SameChildren(l: Links, r: Links, c: Node)
    ensures r == l.(parent := r.parent) ==> (Child(r, c) <==> Child(l, c))
  {
  }

  lemma SameShape(l: Links, r: Links)
    ensures r == l.(parent := r.parent) && Kinds(l) && HeldOnce(l) ==> Kinds(r) && HeldOnce(r)
  {
  }

  // ----- Swapping -----

  predicate LoopOrBranch(l: Links) { l.kind.Loop? || l.kind.Branch? }

  /** The k-th node above n is the first, from n on, that is neither a loop nor a branch. */
  ghost predicate FirstPlain(g: Graph, n: Node, k: nat) {
    Up(g, n, k) in g && !LoopOrBranch(g[Up(g, n, k)]) && forall i: nat :: i < k ==> PassedOver(g, n, i)
  }

  ghost predicate PassedOver(g: Graph, n: Node, i: nat) { Up(g, n, i) in g && LoopOrBranch(g[Up(g, n, i)]) }

  lemma {:induction false} UpNext(g: Graph, n: Node?, k: nat)
    requires Up(g, n, k) in g
    ensures Up(g, n, k + 1) == g[Up(g, n, k)].parent
    decreases k
  {
    if k > 0 && n != null && n in g { UpNext(g, g[n].parent, k - 1); }
  }

  lemma {:induction false} NothingAboveNull(g: Graph, n: Node?, k: nat, m: nat)
    requires Up(g, n, k) == null && k <= m
    ensures Up(g, n, m) == null
    decreases k
  {
    if k > 0 && n != null && n in g { NothingAboveNull(g, g[n].parent, k - 1, m - 1); }
  }

  /** a and its child b change places; b takes over the entry number of the anchor, if it has one. */
  function Swapped(g: Graph, a: Node, b: Node, asmId: int): (h: Graph)
    requires Closed(g) && a in g && b in g
    ensures h.Keys == g.Keys
  {
    var p, rest := g[a].parent, g[b].next;
    var g0 := if asmId > 0 then g[b := g[b].(asmId := asmId)] else g;
    UpdatedParent(UpdatedParent(UpdatedParent(g0, p, a, b), b, rest, a), a, b, rest)
  }

  function SwappedRank(rank: map<Node, nat>, a: Node, b: Node): map<Node, nat>
    requires a in rank
  {
    map x | x in rank :: if x == b then 2 * rank[a] else 2 * rank[x] + 1
  }

  /** The nodes swapping touches are different ones. */
  lemma SwapApart(g: Graph, rank: map<Node, nat>, a: Node, b: Node)
    requires Tree(g, rank) && a in g && b in g && g[b].parent == a
    ensures var p, rest := g[a].parent, g[b].next;
      a != b && Child(g[a], b) && (p != null ==> p in g && p != a && p != b && p != rest && Child(g[p], a)) &&
      (rest != null ==> rest in g && rest != a && rest != b && g[rest].parent == b && Child(g[b], rest))
  {
    hide Kinds, HeldOnce;
    var p, rest := g[a].parent, g[b].next;
    if rest != null {
      ChildrenInside(g, b, rest);
      assert Child(g[b], rest);
    }
  }

  /** What swapping does to each node, when a has a holder. */
  lemma SwappedLinks(g: Graph, rank: map<Node, nat>, a: Node, b: Node, asmId: int)
    requires Tree(g, rank) && a in g && b in g && g[b].parent == a && g[a].parent != null
    ensures var h, p, rest := Swapped(g, a, b, asmId), g[a].parent, g[b].next;
      p != a && p != b && a != b && rest != p && rest != a && rest != b &&
      h[p] == ReplaceChild(g[p], a, b) &&
      h[b] == g[b].(asmId := if asmId > 0 then asmId else g[b].asmId, next := a, parent := p) &&
      h[a] == ReplaceChild(g[a], b, rest).(parent := b) &&
      (rest != null ==> h[rest] == g[rest].(parent := a)) &&
      forall x :: x in g && x != a && x != b && x != p && x != rest ==> h[x] == g[x]
  {
    SwapApart(g, rank, a, b);
    hide Linked, Ranked, ReplaceChild, Child;
    NextReplaced(g[b], g[b].next, a);
    ParentKept(g[a], b, g[b].next);
  }

  lemma NextReplaced(l: Links, rest: Node?, a: Node)
    requires l.next == rest
    ensures forall p: Node?, i: int :: ReplaceChild(l.(parent := p, asmId := i), rest, a) == l.(parent := p, asmId := i, next := a)
    ensures forall p: Node? :: ReplaceChild(l.(parent := p), rest, a) == l.(parent := p, next := a)
  {
  }

  lemma ParentKept(l: Links, b: Node, rest: Node?)
    ensures forall p: Node? :: ReplaceChild(l.(parent := p), b, rest) == ReplaceChild(l, b, rest).(parent := p)
  {
  }

  /** b's other children, and a in place of its rest. */
  lemma NextHolds(l: Links, a: Node)
    requires Kinds(l) && HeldOnce(l) && !Child(l, a)
    ensures forall p: Node?, i: int ::
      var r := l.(asmId := i, next := a, parent := p);
      Kinds(r) && HeldOnce(r) && forall c: Node :: Child(r, c) <==> (Child(l, c) && c != l.next) || c == a
  {
  }

  /** Swapping, child by child. */
  lemma SwappedChild(g: Graph, rank: map<Node, nat>, a: Node, b: Node, asmId: int, x: Node, c: Node)
    requires Tree(g, rank) && a in g && b in g && g[b].parent == a && g[a].parent != null && x in g
    ensures var h := Swapped(g, a, b, asmId); Child(h[x], c) <==> c in h && h[c].parent == x
    ensures var h := Swapped(g, a, b, asmId); Kinds(h[x]) && HeldOnce(h[x]) && (h[x].parent != null ==> h[x].parent in h)
  {
    hide Swapped, ReplaceChild, Closed, Kinds, HeldOnce, Ranked;
    var h, p, rest := Swapped(g, a, b, asmId), g[a].parent, g[b].next;
    SwappedLinks(g, rank, a, b, asmId);
    ParentInside(g, a);
    ParentInside(g, x);
    assert Child(g[p], a) && Child(g[a], b) && (rest != null ==> Child(g[b], rest));
    assert !Child(g[p], b) && !Child(g[b], a) && (rest != null ==> rest in g && !Child(g[a], rest)) by {
      if rest != null { ChildrenInside(g, b, rest); }
    }
    ReplaceChildHolds(g[p], a, b);
    ReplaceChildHolds(g[a], b, rest);
    NextHolds(g[b], a);
    if Child(g[x], c) { ChildrenInside(g, x, c); }
    SameChildren(g[x], h[x], c);
    SameShape(g[x], h[x]);
    SameChildren(ReplaceChild(g[a], b, rest), h[a], c);
    SameShape(ReplaceChild(g[a], b, rest), h[a]);
  }

  lemma SwappedRanked(g: Graph, rank: map<Node, nat>, a: Node, b: Node, asmId: int)
    requires Tree(g, rank) && a in g && b in g && g[b].parent == a && g[a].parent != null
    ensures Ranked(Swapped(g, a, b, asmId), SwappedRank(rank, a, b))
  {
    hide Swapped, ReplaceChild, Kinds, HeldOnce, Child, Closed;
    SwapApart(g, rank, a, b);
    SwappedLinks(g, rank, a, b, asmId);
    ReplacedParent(g[g[a].parent], a, b);
    ReplacedParent(g[a], b, g[b].next);
  }

  lemma ReplacedParent(l: Links, a: Node?, b: Node?)
    ensures ReplaceChild(l, a, b).parent == l.parent
  {
  }

  /** Swapping keeps the links sound and the tree a tree exactly when a has a holder. */
  lemma SwappedKeepsTree(g: Graph, rank: map<Node, nat>, a: Node, b: Node, asmId: int)
    requires Tree(g, rank) && a in g && b in g && g[b].parent == a
    ensures g[a].parent != null ==> Tree(Swapped(g, a, b, asmId), SwappedRank(rank, a, b))
    ensures IsTree(Swapped(g, a, b, asmId)) <==> g[a].parent != null
    ensures g[a].parent == null ==> !ParentsMatch(Swapped(g, a, b, asmId))
  {
    hide Swapped, Child, Kinds, HeldOnce;
    var h := Swapped(g, a, b, asmId);
    if g[a].parent != null {
      forall x, c: Node | x in h ensures Child(h[x], c) <==> c in h && h[c].parent == x { SwappedChild(g, rank, a, b, asmId, x, c); }
      forall x | x in h ensures Kinds(h[x]) && HeldOnce(h[x]) && (h[x].parent != null ==> h[x].parent in h) {
        SwappedChild(g, rank, a, b, asmId, x, x);
      }
      SwappedRanked(g, rank, a, b, asmId);
      TreeByParents(h, SwappedRank(rank, a, b));
      RankedIsTree(h, SwappedRank(rank, a, b));
    } else {
      SwappedRoot(g, rank, a, b, asmId);
    }
  }

  /** Without a holder, b still calls a its parent but a no longer holds it. */
  lemma SwappedRoot(g: Graph, rank: map<Node, nat>, a: Node, b: Node, asmId: int)
    requires Tree(g, rank) && a in g && b in g && g[b].parent == a && g[a].parent == null
    ensures var h := Swapped(g, a, b, asmId); h[b].parent == a && !Child(h[a], b)
  {
    SwapApart(g, rank, a, b);
    var rest := g[b].next;
    assert rest != null ==> !Child(g[a], rest);
    ReplaceChildHolds(g[a], b, rest);
    hide Linked, Ranked, ReplaceChild, Child;
    NextReplaced(g[b], rest, a);
    ParentKept(g[a], b, rest);
    SameChildren(ReplaceChild(g[a], b, rest), Swapped(g, a, b, asmId)[a], b);
  }

  lemma {:induction false} ReplaceFirstAt(s: seq<Node>, a: Node, b: Node?, i: nat)
    requires Distinct(s) && i < |s| && s[i] == a
    ensures ReplaceFirst(s, a, b) == if b == null then s[..i] + s[i + 1..] else s[i := b as Node]
    decreases s
  {
    if i > 0 {
      assert Distinct(s[1..]);
      ReplaceFirstAt(s[1..], a, b, i - 1);
    }
  }

  /** `a then b then rest` becomes `b then a then rest`, whichever link b hung from. */
  lemma SwappedOrder(g: Graph, rank: map<Node, nat>, a: Node, b: Node, asmId: int)
    requires Tree(g, rank) && a in g && b in g && g[b].parent == a && g[a].parent != null
    ensures var h, p, rest := Swapped(g, a, b, asmId), g[a].parent, g[b].next;
      Child(h[p], b) && !Child(h[p], a) && h[b].next == a &&
      (g[a].next == b ==> h[a].next == rest && h[a].branches == g[a].branches && h[a].loop == g[a].loop) &&
      (g[a].loop == b ==> h[a].loop == rest && h[a].branches == g[a].branches && h[a].next == g[a].next) &&
      forall i :: 0 <= i < |g[a].branches| && g[a].branches[i] == b ==>
        h[a].next == g[a].next && h[a].loop == g[a].loop &&
        h[a].branches == if rest == null then g[a].branches[..i] + g[a].branches[i + 1..] else g[a].branches[i := rest as Node]
  {
    SwapApart(g, rank, a, b);
    SwappedLinks(g, rank, a, b, asmId);
    assert !Child(g[g[a].parent], b);
    ReplaceChildHolds(g[g[a].parent], a, b);
    forall i | 0 <= i < |g[a].branches| && g[a].branches[i] == b
      ensures ReplaceFirst(g[a].branches, b, g[b].next) ==
        if g[b].next == null then g[a].branches[..i] + g[a].branches[i + 1..] else g[a].branches[i := g[b].next as Node]
    {
      ReplaceFirstAt(g[a].branches, b, g[b].next, i);
    }
    hide Ranked, ParentsMatch, Swapped, Closed, Distinct;
  }

  // ----- The nodes -----

  class Node {
    const kind: Kind
    var asmId: int
    var next: Node?
    var branches: seq<Node>
    var loop: Node?
    var parent: Node?

    constructor (kind: Kind, asmId: int)
      ensures LinksOf() == Links(kind, asmId, null, [], null, null)
    {
      this.kind, this.asmId, next, branches, loop, parent := kind, asmId, null, [], null, null;
    }

    function LinksOf(): Links
      reads this
    {
      Links(kind, asmId, next, branches, loop, parent)
    }

    method SetNext(ghost nodes: set<Node>, x: Node?)
      requires this in nodes
      modifies this`next
      ensures GraphOf(nodes) == old(GraphOf(nodes))[this := old(LinksOf()).(next := x)]
    {
      next := x;
    }

    method SetBranches(ghost nodes: set<Node>, x: seq<Node>)
      requires this in nodes
      modifies this`branches
      ensures GraphOf(nodes) == old(GraphOf(nodes))[this := old(LinksOf()).(branches := x)]
    {
      branches := x;
    }

    method SetLoop(ghost nodes: set<Node>, x: Node?)
      requires this in nodes
      modifies this`loop
      ensures GraphOf(nodes) == old(GraphOf(nodes))[this := old(LinksOf()).(loop := x)]
    {
      loop := x;
    }

    method SetParent(ghost nodes: set<Node>, x: Node?)
      requires this in nodes
      modifies this`parent
      ensures GraphOf(nodes) == old(GraphOf(nodes))[this := old(LinksOf()).(parent := x)]
    {
      parent := x;
    }

    method SetAsmId(ghost nodes: set<Node>, x: int)
      requires this in nodes
      modifies this`asmId
      ensures GraphOf(nodes) == old(GraphOf(nodes))[this := old(LinksOf()).(asmId := x)]
    {
      asmId := x;
    }

    /** The first oldChild replaced by newChild, or taken out. */
    static method ReplaceIn(s: seq<Node>, oldChild: Node?, newChild: Node?) returns (r: seq<Node>)
      ensures r == ReplaceFirst(s, oldChild, newChild)
    {
      hide ReplaceFirst;
      assert s[..0] + s[0..] == s && s[0..] == s;
      for i := 0 to |s|
        invariant ReplaceFirst(s, oldChild, newChild) == s[..i] + ReplaceFirst(s[i..], oldChild, newChild)
      {
        ReplaceStep(s, i, oldChild, newChild);
        if s[i] == oldChild {
          return s[..i] + NewEntry(newChild) + s[i + 1..];
        }
      }
      NothingReplaced(s, oldChild, newChild);
      return s;
    }

    /** Hands the place of oldChild to newChild. */
    method ReplaceLink(ghost nodes: set<Node>, oldChild: Node?, newChild: Node?)
      requires this in nodes
      modifies this
      ensures GraphOf(nodes) == old(GraphOf(nodes))[this := ReplaceChild(old(LinksOf()), oldChild, newChild)]
    {
      hide ReplaceFirst;
      if next == oldChild {
        SetNext(nodes, newChild);
      } else if kind.Branch? {
        var replaced := ReplaceIn(branches, oldChild, newChild);
        SetBranches(nodes, replaced);
      } else if loop == oldChild {
        SetLoop(nodes, newChild);
      }
    }

    /** Hands the place of oldChild under parent to newChild. */
    static method UpdateParent(ghost nodes: set<Node>, parent: Node?, oldChild: Node?, newChild: Node?)
      requires parent != null ==> parent in nodes
      requires newChild != null ==> newChild in nodes
      modifies nodes
      ensures GraphOf(nodes) == UpdatedParent(old(GraphOf(nodes)), parent, oldChild, newChild)
    {
      hide ReplaceChild;
      if parent == null {
        return;
      }
      assert GraphOf(nodes)[parent] == parent.LinksOf();
      parent.ReplaceLink(nodes, oldChild, newChild);
      if newChild != null {
        assert GraphOf(nodes)[newChild] == newChild.LinksOf();
        newChild.SetParent(nodes, parent);
      }
    }

    /** Puts newNode between this node and its holder. */
    method InsertBefore(ghost nodes: set<Node>, newNode: Node, ghost rank: map<Node, nat>)
      requires this in nodes && newNode in nodes && Tree(GraphOf(nodes), rank)
      modifies nodes
      ensures GraphOf(nodes) == Inserted(old(GraphOf(nodes)), this, newNode)
      ensures IsTree(GraphOf(nodes)) <==> Placeable(old(GraphOf(nodes)), rank, this, newNode)
      ensures Placeable(old(GraphOf(nodes)), rank, this, newNode) ==>
        Tree(GraphOf(nodes), InsertedRank(old(GraphOf(nodes)), rank, this, newNode))
    {
      hide Inserted, Placeable, InsertedRank, Child, Kinds, HeldOnce, ParentsMatch, IsTree;
      InsertedKeepsTree(GraphOf(nodes), rank, this, newNode);
      InsertLinks(nodes, newNode);
    }

    /** The link updates of an insertion. */
    method InsertLinks(ghost nodes: set<Node>, newNode: Node)
      requires this in nodes && newNode in nodes && Closed(GraphOf(nodes))
      modifies nodes
      ensures GraphOf(nodes) == Inserted(old(GraphOf(nodes)), this, newNode)
    {
      hide UpdatedParent, Closed;
      ghost var g := GraphOf(nodes);
      assert g[this] == LinksOf() && g[newNode] == newNode.LinksOf();
      ParentInside(g, this);
      newNode.SetNext(nodes, this);
      var par := parent;
      newNode.SetParent(nodes, par);
      ghost var g1 := GraphOf(nodes);
      assert g1 == g[newNode := g[newNode].(next := this, parent := par)];
      UpdateParent(nodes, par, this, newNode);
      assert GraphOf(nodes)[this] == LinksOf();
      SetParent(nodes, newNode);
    }

    /** The three link updates of a swap. */
    static method SwapLinks(ghost nodes: set<Node>, a: Node, b: Node, asmId: int)
      requires a in nodes && b in nodes && Closed(GraphOf(nodes)) && a != b
      modifies nodes
      ensures GraphOf(nodes) == Swapped(old(GraphOf(nodes)), a, b, asmId)
    {
      hide UpdatedParent, Closed;
      ghost var g := GraphOf(nodes);
      assert g[b] == b.LinksOf() && g[a] == a.LinksOf();
      ParentInside(g, a);
      var parentOfA, bNext := a.parent, b.next;
      assert bNext != null ==> bNext in nodes by { NextInside(g, b); }
      if asmId > 0 {
        b.SetAsmId(nodes, asmId);
      }
      UpdateParent(nodes, parentOfA, a, b);
      UpdateParent(nodes, b, bNext, a);
      UpdateParent(nodes, a, b, bNext);
    }

    /** Exchanges a node with its holder; refused when a does not hold b. b takes over the entry
        number of the first node from a upwards that is neither a loop nor a branch, if it has one. */
    static method Swap(ghost nodes: set<Node>, a: Node, b: Node, ghost rank: map<Node, nat>) returns (ok: bool, ghost k: nat)
      requires a in nodes && b in nodes && Tree(GraphOf(nodes), rank)
      requires exists i: nat :: FirstPlain(GraphOf(nodes), a, i)
      modifies nodes
      ensures ok == (old(b.parent) == a)
      ensures !ok ==> GraphOf(nodes) == old(GraphOf(nodes))
      ensures ok ==> Up(old(GraphOf(nodes)), a, k) in old(GraphOf(nodes))
      ensures ok ==> var top := old(GraphOf(nodes))[Up(old(GraphOf(nodes)), a, k)]; !top.kind.Loop? && !top.kind.Branch?
      ensures ok ==> forall i: nat :: i < k ==>
        var g, over := old(GraphOf(nodes)), Up(old(GraphOf(nodes)), a, i); over in g && (g[over].kind.Loop? || g[over].kind.Branch?)
      ensures ok ==> var number := old(GraphOf(nodes))[Up(old(GraphOf(nodes)), a, k)].asmId;
        GraphOf(nodes) == Swapped(old(GraphOf(nodes)), a, b, number) &&
        b.asmId == if number > 0 then number else old(b.asmId)
      ensures ok ==> (old(a.parent) != null ==> Tree(GraphOf(nodes), SwappedRank(rank, a, b)))
      ensures ok ==> (IsTree(GraphOf(nodes)) <==> old(a.parent) != null)
    {
      ghost var g := GraphOf(nodes);
      assert g[b] == b.LinksOf() && g[a] == a.LinksOf();
      TreeClosed(g, rank, a);
      hide Swapped, Tree, Linked, Ranked, Closed, Child, ParentsMatch, FirstPlain, SwappedRank, IsTree, Up;
      k := 0;
      if b.parent != a {
        return false, 0;
      }
      var asmId;
      asmId, k := AnchorId(nodes, a, rank);
      SwappedKeepsTree(g, rank, a, b, asmId);
      SwappedNumber(g, rank, a, b, asmId);
      SwapApart(g, rank, a, b);
      SwapLinks(nodes, a, b, asmId);
      assert GraphOf(nodes)[b] == b.LinksOf();
      return true, k;
    }

    /** The entry number of the first node from a upwards that is neither a loop nor a branch. */
    static method AnchorId(ghost nodes: set<Node>, a: Node, ghost rank: map<Node, nat>) returns (asmId: int, ghost k: nat)
      requires a in nodes && Tree(GraphOf(nodes), rank) && exists i: nat :: FirstPlain(GraphOf(nodes), a, i)
      ensures FirstPlain(GraphOf(nodes), a, k) && asmId == GraphOf(nodes)[Up(GraphOf(nodes), a, k)].asmId
      ensures var g := GraphOf(nodes); !g[Up(g, a, k)].kind.Loop? && !g[Up(g, a, k)].kind.Branch?
      ensures var g := GraphOf(nodes);
        forall i: nat :: i < k ==> Up(g, a, i) in g && (g[Up(g, a, i)].kind.Loop? || g[Up(g, a, i)].kind.Branch?)
    {
      hide ParentsMatch, Kinds, HeldOnce, Up;
      ghost var g := GraphOf(nodes);
      ghost var plain: nat :| FirstPlain(g, a, plain);
      var current := a;
      k := 0;
      UpNowhere(g, a);
      while current.kind.Loop? || current.kind.Branch?
        invariant current in nodes && Up(g, a, k) == current && forall i: nat :: i < k ==> PassedOver(g, a, i)
        decreases rank[current]
      {
        assert g[current] == current.LinksOf();
        assert PassedOver(g, a, k);
        assert !PassedOver(g, a, plain);
        assert k < plain;
        UpNext(g, a, k);
        if current.parent == null { NothingAboveNull(g, a, k + 1, plain); }
        current := current.parent;
        k := k + 1;
      }
      assert g[current] == current.LinksOf();
      forall i: nat | i < k ensures Up(g, a, i) in g && LoopOrBranch(g[Up(g, a, i)]) { assert PassedOver(g, a, i); }
      return current.asmId, k;
    }
  }

  lemma UpNowhere(g: Graph, n: Node)
    ensures Up(g, n, 0) == n
  {
  }

  lemma SwappedNumber(g: Graph, rank: map<Node, nat>, a: Node, b: Node, asmId: int)
    requires Tree(g, rank) && a in g && b in g && g[b].parent == a
    ensures Swapped(g, a, b, asmId)[b].asmId == if asmId > 0 then asmId else g[b].asmId
  {
    hide Linked, Ranked, ParentsMatch, Kinds, HeldOnce, Child;
  }

  lemma NextInside(g: Graph, n: Node)
    requires Closed(g) && n in g
    ensures g[n].next != null ==> g[n].next in g
  {
  }

  lemma TreeClosed(g: Graph, rank: map<Node, nat>, n: Node)
    requires Tree(g, rank) && n in g
    ensures Closed(g) && n in rank && (g[n].parent != null ==> g[n].parent in g)
  {
  }

  /** The links of all the nodes now. */
  function GraphOf(nodes: set<Node>): Graph
    reads nodes
  {
    map n | n in nodes :: n.LinksOf()
  }
}
