/**
 * The node flags of the `sph` directory browser (cmds/sph/ui.go) and the widget logic built on
 * them: which nodes are hidden under a collapsed ancestor, the selected row kept inside the view,
 * and the first visible node below the selection.
 *
 * The widget's directory tree is seen through the arena of module `Tree`: a node is an index into
 * the arena, and the `UserData` slot of each node is the entry of the map `userData` (no entry
 * stands for nil user data).
 */
module Ui {
  import opened Wrappers
  import opened Tree
  import opened TreeNext

  /** `TreeNodeFlags` (cmds/sph/ui.go:88): a `uint8` bit set. */
  type Flags = bv8

  /** The three flags, bits 0, 1 and 2 in `iota` order (cmds/sph/ui.go:90-95). */
  const Expanded: Flags := 1
  const Hidden: Flags := 2
  const FilesShown: Flags := 4

  /** The value with only bit `i` set. */
  function Mask(i: nat): Flags
    requires i < 8
  {
    if i == 0 then 1 else if i == 1 then 2 else if i == 2 then 4 else if i == 3 then 8
    else if i == 4 then 16 else if i == 5 then 32 else if i == 6 then 64 else 128
  }

  /** Bit `i` of `x`. */
  predicate Bit(x: Flags, i: nat)
    requires i < 8
  {
    x & Mask(i) != 0
  }

  /** The three flags are single, distinct bits: 0 for expanded, 1 for hidden, 2 for files shown. */
  lemma FlagBits()
    ensures forall i | 0 <= i < 8 :: Bit(Expanded, i) <==> i == 0
    ensures forall i | 0 <= i < 8 :: Bit(Hidden, i) <==> i == 1
    ensures forall i | 0 <= i < 8 :: Bit(FilesShown, i) <==> i == 2
  {
    forall i | 0 <= i < 8
      ensures (Bit(Expanded, i) <==> i == 0) && (Bit(Hidden, i) <==> i == 1) && (Bit(FilesShown, i) <==> i == 2)
    {
      if i == 0 {} else if i == 1 {} else if i == 2 {} else if i == 3 {}
      else if i == 4 {} else if i == 5 {} else if i == 6 {} else {}
    }
  }

  /** `TreeNodeFlags.IsSet` (cmds/sph/ui.go:120-122): `t` and `f` have a set bit in common. */
  function IsSet(t: Flags, f: Flags): (r: bool)
    ensures r <==> exists i | 0 <= i < 8 :: Bit(t, i) && Bit(f, i)
  {
    SharedBit(t, f);
    t & f > 0
  }

  lemma SharedBit(t: Flags, f: Flags)
    ensures t & f > 0 <==> exists i | 0 <= i < 8 :: Bit(t, i) && Bit(f, i)
  {
    var x := t & f;
    BitsOfAnd(t, f);
    if forall i | 0 <= i < 8 :: !Bit(x, i) {
      SameBits(x, 0);
    }
  }

  lemma BitsOfAnd(t: Flags, f: Flags)
    ensures forall i | 0 <= i < 8 :: Bit(t & f, i) <==> Bit(t, i) && Bit(f, i)
  {
    forall i | 0 <= i < 8 ensures Bit(t & f, i) <==> Bit(t, i) && Bit(f, i) {
      if i == 0 {} else if i == 1 {} else if i == 2 {} else if i == 3 {}
      else if i == 4 {} else if i == 5 {} else if i == 6 {} else {}
    }
  }

  /** The value `Set` leaves behind: every bit of `t` and every bit of `f`. */
  function With(t: Flags, f: Flags): (r: Flags)
    ensures forall i | 0 <= i < 8 :: Bit(r, i) <==> Bit(t, i) || Bit(f, i)
  {
    BitsOfOr(t, f);
    t | f
  }

  /** The value `Unset` leaves behind: the bits of `t` that `f` does not have. */
  function Without(t: Flags, f: Flags): (r: Flags)
    ensures forall i | 0 <= i < 8 :: Bit(r, i) <==> Bit(t, i) && !Bit(f, i)
  {
    BitsOfAndNot(t, f);
    t & !f
  }

  lemma BitsOfOr(t: Flags, f: Flags)
    ensures forall i | 0 <= i < 8 :: Bit(t | f, i) <==> Bit(t, i) || Bit(f, i)
  {
    forall i | 0 <= i < 8 ensures Bit(t | f, i) <==> Bit(t, i) || Bit(f, i) {
      if i == 0 {} else if i == 1 {} else if i == 2 {} else if i == 3 {}
      else if i == 4 {} else if i == 5 {} else if i == 6 {} else {}
    }
  }

  lemma BitsOfAndNot(t: Flags, f: Flags)
    ensures forall i | 0 <= i < 8 :: Bit(t & !f, i) <==> Bit(t, i) && !Bit(f, i)
  {
    forall i | 0 <= i < 8 ensures Bit(t & !f, i) <==> Bit(t, i) && !Bit(f, i) {
      if i == 0 {} else if i == 1 {} else if i == 2 {} else if i == 3 {}
      else if i == 4 {} else if i == 5 {} else if i == 6 {} else {}
    }
  }

  /** Two flag values with the same bits are the same value. */
  lemma SameBits(a: Flags, b: Flags)
    requires forall i | 0 <= i < 8 :: Bit(a, i) == Bit(b, i)
    ensures a == b
  {
    assert Bit(a, 0) == Bit(b, 0) && Bit(a, 1) == Bit(b, 1) && Bit(a, 2) == Bit(b, 2) && Bit(a, 3) == Bit(b, 3);
    assert Bit(a, 4) == Bit(b, 4) && Bit(a, 5) == Bit(b, 5) && Bit(a, 6) == Bit(b, 6) && Bit(a, 7) == Bit(b, 7);
  }

  /** Setting a non-empty flag makes it set, unsetting any flag makes it clear. */
  lemma SetUnsetFlag(t: Flags, f: Flags)
    ensures f != 0 ==> IsSet(With(t, f), f)
    ensures !IsSet(Without(t, f), f)
  {
    if f != 0 {
      NonZeroBit(f);
    }
  }

  /** Setting or unsetting the same flag twice is the same as once. */
  lemma SetUnsetIdempotent(t: Flags, f: Flags)
    ensures With(With(t, f), f) == With(t, f) && Without(Without(t, f), f) == Without(t, f)
  {
    SameBits(With(With(t, f), f), With(t, f));
    SameBits(Without(Without(t, f), f), Without(t, f));
  }

  /** A flag `g` with no bit in common with `f` reads the same after `f` is set or unset. */
  lemma SetUnsetOthers(t: Flags, f: Flags, g: Flags)
    requires !IsSet(f, g)
    ensures IsSet(With(t, f), g) == IsSet(t, g) && IsSet(Without(t, f), g) == IsSet(t, g)
  {
  }

  lemma NonZeroBit(f: Flags)
    requires f != 0
    ensures exists i | 0 <= i < 8 :: Bit(f, i)
  {
    SharedBit(f, f);
  }

  /**
   * `TreeNodeFlags` behind its pointer: `Set` and `Unset` (cmds/sph/ui.go:110-118) update the
   * value in place and return it.
   */
  class FlagCell {
    var bits: Flags

    constructor(bits: Flags)
      ensures this.bits == bits
    {
      this.bits := bits;
    }

    method Set(f: Flags) returns (r: Flags)
      modifies this
      ensures bits == With(old(bits), f) && r == bits
    {
      bits := bits | f;
      r := bits;
    }

    method Unset(f: Flags) returns (r: Flags)
      modifies this
      ensures bits == Without(old(bits), f) && r == bits
    {
      bits := bits & !f;
      r := bits;
    }
  }

  /** `treeNodeFlags` (cmds/sph/ui.go:99-104): a node's flags; a node without user data has none set. */
  function NodeFlags(u: map<nat, Flags>, n: nat): (r: Flags)
    ensures n !in u ==> forall i | 0 <= i < 8 :: !Bit(r, i)
    ensures n in u ==> r == u[n]
  {
    if n in u then u[n] else 0
  }

  // ---------------------------------------------------------------------------
  // Hidden nodes (cmds/sph/ui.go:134-165).
  // ---------------------------------------------------------------------------

  /** Some node on the parent chain that starts at `m`, `m` included, is not expanded. */
  predicate CollapsedFrom(t: Arena, u: map<nat, Flags>, m: Option<nat>)
    requires Valid(t) && (m.Some? ==> m.value < |t|)
    decreases if m.Some? then t[m.value].depth + 1 else 0
  {
    match m
    case None => false
    case Some(a) =>
      assert ValidNode(t, a);
      !IsSet(NodeFlags(u, a), Expanded) || CollapsedFrom(t, u, t[a].parent)
  }

  /** The flags `updateHiddenFlag` leaves on `n`: hidden set when an ancestor is collapsed, cleared otherwise. */
  function Rehidden(t: Arena, u: map<nat, Flags>, n: nat): Flags
    requires Valid(t) && n < |t|
  {
    assert ValidNode(t, n);
    if CollapsedFrom(t, u, t[n].parent) then With(NodeFlags(u, n), Hidden) else Without(NodeFlags(u, n), Hidden)
  }

  /** The chain from `a` upwards holds a collapsed node exactly when `a` or one of its ancestors is collapsed. */
  lemma {:induction false} ChainCollapsed(t: Arena, u: map<nat, Flags>, a: nat)
    requires Valid(t) && a < |t|
    ensures CollapsedFrom(t, u, Some(a))
            <==> exists b: nat | b < |t| && InSubtree(t, a, b) :: !IsSet(NodeFlags(u, b), Expanded)
    decreases t[a].depth
  {
    assert ValidNode(t, a);
    assert InSubtree(t, a, a);
    match t[a].parent
    case None =>
      forall b: nat | b < |t| && InSubtree(t, a, b) ensures b == a {
      }
    case Some(p) =>
      ChainCollapsed(t, u, p);
      forall b: nat | b < |t| && InSubtree(t, p, b) ensures InSubtree(t, a, b) {
      }
      forall b: nat | b < |t| && InSubtree(t, a, b) && b != a ensures InSubtree(t, p, b) {
      }
  }

  /** The proper ancestors of `n` are its parent and the parent's ancestors. */
  lemma ProperAncestors(t: Arena, n: nat, p: nat)
    requires Valid(t) && n < |t| && t[n].parent == Some(p)
    ensures p < |t|
    ensures forall b: nat | b < |t| :: (b != n && InSubtree(t, n, b)) <==> InSubtree(t, p, b)
  {
    ParentOf(t, n, p);
    forall b: nat | b < |t| && InSubtree(t, p, b) ensures b != n {
      InSubtreeDepth(t, p, b);
    }
  }

  /**
   * `updateHiddenFlag` (cmds/sph/ui.go:134-152): the node ends up hidden exactly when one of its
   * proper ancestors is not expanded, so a node without a parent is never hidden, and every other
   * bit keeps its value.
   */
  lemma HiddenIffCollapsedAncestor(t: Arena, u: map<nat, Flags>, n: nat)
    requires Valid(t) && n < |t|
    ensures IsSet(Rehidden(t, u, n), Hidden)
            <==> exists a: nat | a < |t| && a != n && InSubtree(t, n, a) :: !IsSet(NodeFlags(u, a), Expanded)
    ensures t[n].parent.None? ==> !IsSet(Rehidden(t, u, n), Hidden)
    ensures forall i | 0 <= i < 8 && i != 1 :: Bit(Rehidden(t, u, n), i) == Bit(NodeFlags(u, n), i)
  {
    FlagBits();
    SetUnsetFlag(NodeFlags(u, n), Hidden);
    match t[n].parent
    case None =>
      forall a: nat | a < |t| && InSubtree(t, n, a) ensures a == n {
        assert ValidNode(t, n);
      }
    case Some(p) =>
      ProperAncestors(t, n, p);
      ChainCollapsed(t, u, p);
  }

  /** Flag maps that agree on which nodes are expanded agree on which chains are collapsed. */
  lemma {:induction false} SameExpansion(t: Arena, u: map<nat, Flags>, u': map<nat, Flags>, m: Option<nat>)
    requires Valid(t) && (m.Some? ==> m.value < |t|)
    requires forall x: nat | x < |t| :: IsSet(NodeFlags(u, x), Expanded) == IsSet(NodeFlags(u', x), Expanded)
    ensures CollapsedFrom(t, u, m) == CollapsedFrom(t, u', m)
    decreases if m.Some? then t[m.value].depth + 1 else 0
  {
    if m.Some? {
      assert ValidNode(t, m.value);
      SameExpansion(t, u, u', t[m.value].parent);
    }
  }

  /**
   * Recomputing the hidden flag of a node whose flags are either untouched or already recomputed,
   * under the same expanded nodes, gives the same flags: updates in any order and any number agree.
   */
  lemma RehiddenStable(t: Arena, u: map<nat, Flags>, u0: map<nat, Flags>, y: nat)
    requires Valid(t) && y < |t|
    requires forall x: nat | x < |t| :: IsSet(NodeFlags(u, x), Expanded) == IsSet(NodeFlags(u0, x), Expanded)
    requires NodeFlags(u, y) == NodeFlags(u0, y) || NodeFlags(u, y) == Rehidden(t, u0, y)
    ensures Rehidden(t, u, y) == Rehidden(t, u0, y)
  {
    assert ValidNode(t, y);
    SameExpansion(t, u, u0, t[y].parent);
    SetUnsetIdempotent(NodeFlags(u0, y), Hidden);
    if NodeFlags(u, y) != NodeFlags(u0, y) {
      assert NodeFlags(u, y) == Rehidden(t, u0, y);
    }
  }

  /** Recomputing the hidden flag leaves the expanded flag alone. */
  lemma RehiddenKeepsExpanded(t: Arena, u: map<nat, Flags>, y: nat)
    requires Valid(t) && y < |t|
    ensures IsSet(Rehidden(t, u, y), Expanded) == IsSet(NodeFlags(u, y), Expanded)
  {
    FlagBits();
    SetUnsetOthers(NodeFlags(u, y), Hidden, Expanded);
  }

  /** The nodes a forward pre-order walk started at `n` visits, in order: `n`, its subtree, then every later node. */
  function Reached(t: Arena, n: nat): seq<nat>
    requires Valid(t) && n < |t|
  {
    Nodes(Trace(t, n, Forward, PreOrder, t[n].depth, false))
  }

  lemma NodesAppend(a: seq<Visit>, b: seq<Visit>)
    ensures Nodes(a + b) == Nodes(a) + Nodes(b)
  {
  }

  /**
   * The walk `updateHiddenFlagOnDescendants` starts reaches the subtree of `n` (exactly `n` and its
   * descendants) and then the nodes after that subtree, none of them below `n`: more than the
   * descendants its name promises.
   */
  lemma ReachedNodes(t: Arena, n: nat)
    requires Valid(t) && n < |t|
    ensures var sub := Nodes(Subtree(t, n, Forward, PreOrder, t[n].depth));
            var later := Nodes(Continuation(t, n, Forward, PreOrder, t[n].depth));
            && Reached(t, n) == sub + later
            && (forall x: nat | x < |t| :: x in sub <==> InSubtree(t, x, n))
            && (forall x | x in later :: x < |t| && !InSubtree(t, x, n))
            && (forall x | x in Reached(t, n) :: x < |t|)
  {
    var d := t[n].depth;
    SkipOmitsExactlySubtree(t, n, Forward, PreOrder, d);
    var cont := Continuation(t, n, Forward, PreOrder, d);
    assert Trace(t, n, Forward, PreOrder, d, true) == cont by {
      assert [] + cont == cont;
    }
    NodesAppend(Subtree(t, n, Forward, PreOrder, d), cont);
    SubtreeOnlyDescendants(t, n, Forward, PreOrder, d);
    forall x | x in Nodes(cont) ensures x < |t| && !InSubtree(t, x, n) {
      var i :| 0 <= i < |Nodes(cont)| && Nodes(cont)[i] == x;
      assert cont[i] in cont;
    }
    forall x | x in Nodes(Subtree(t, n, Forward, PreOrder, d)) ensures x < |t| {
      SubtreeNodeIsDescendant(t, n, x, Forward, PreOrder, d);
    }
  }

  lemma ReachedInArena(t: Arena, n: nat)
    requires Valid(t) && n < |t|
    ensures forall x | x in Reached(t, n) :: x < |t|
  {
    ReachedNodes(t, n);
  }

  /** The visitor of `updateHiddenFlagOnDescendants`: it never stops the walk. */
  function Continue(seen: seq<Visit>, x: Visit): bool
  {
    true
  }

  /** The walk calls that visitor on every node `Reached` lists, in that order, and ends normally. */
  lemma WalkReaches(t: Arena, n: nat)
    requires Valid(t) && n < |t|
    ensures Nodes(Walk(t, n, Continue, Forward, PreOrder, t[n].depth, false).log) == Reached(t, n)
    ensures !Walk(t, n, Continue, Forward, PreOrder, t[n].depth, false).stopped
  {
    WalkWithoutRefusal(t, n, Continue, Forward, PreOrder, t[n].depth, false);
  }

  // ---------------------------------------------------------------------------
  // The next visible node and the selected row (cmds/sph/ui.go:208-216, 345-355).
  // ---------------------------------------------------------------------------

  /** The position in `xs` of the first node that is not hidden, or `|xs|` when all of them are. */
  function ShownIndex(u: map<nat, Flags>, xs: seq<nat>): (k: nat)
    ensures k <= |xs|
    ensures forall j | 0 <= j < k :: IsSet(NodeFlags(u, xs[j]), Hidden)
    ensures k < |xs| ==> !IsSet(NodeFlags(u, xs[k]), Hidden)
    decreases |xs|
  {
    if xs == [] || !IsSet(NodeFlags(u, xs[0]), Hidden) then 0
    else
      var k := ShownIndex(u, xs[1..]);
      assert forall j | 1 <= j < k + 1 :: xs[j] == xs[1..][j - 1];
      k + 1
  }

  /** The nodes after `n` in the forward pre-order walk of its whole tree. */
  function Below(t: Arena, n: nat): seq<nat>
    requires Valid(t) && n < |t|
  {
    Nodes(VisitsFrom(t, n, Forward, PreOrder))[1..]
  }

  /** `xs` is the list of nodes that repeated `Next` yields from `m` on, up to the nil that ends it. */
  ghost predicate Follows(t: Arena, m: Option<nat>, xs: seq<nat>)
    requires Valid(t)
    decreases |xs|
  {
    if xs == [] then m.None?
    else m == Some(xs[0]) && xs[0] < |t| && Follows(t, Successor(t, xs[0], Forward, PreOrder), xs[1..])
  }

  /** The nodes after `m` in the walk are exactly what `Next` yields, one call at a time, from `m`. */
  lemma {:induction false} FollowsBelow(t: Arena, m: nat)
    requires Valid(t) && m < |t|
    ensures Follows(t, Successor(t, m, Forward, PreOrder), Below(t, m))
    decreases |VisitsFrom(t, m, Forward, PreOrder)|
  {
    var vs := VisitsFrom(t, m, Forward, PreOrder);
    SuccessorIsNextVisit(t, m, Forward, PreOrder);
    assert vs[1..] == RestAfter(t, m, Forward, PreOrder);
    assert Below(t, m) == Nodes(vs[1..]);
    match Successor(t, m, Forward, PreOrder)
    case None =>
    case Some(m') =>
      var ws := VisitsFrom(t, m', Forward, PreOrder);
      assert Nodes(ws) == [m'] + Below(t, m');
      FollowsBelow(t, m');
  }

  /** The first shown node is at `k` when all before `k` are hidden and the one at `k`, if any, is not. */
  lemma {:induction false} ShownIndexAt(u: map<nat, Flags>, xs: seq<nat>, k: nat)
    requires k <= |xs| && forall j | 0 <= j < k :: IsSet(NodeFlags(u, xs[j]), Hidden)
    requires k < |xs| ==> !IsSet(NodeFlags(u, xs[k]), Hidden)
    ensures ShownIndex(u, xs) == k
    decreases k
  {
    if k > 0 {
      assert IsSet(NodeFlags(u, xs[0]), Hidden);
      ShownIndexAt(u, xs[1..], k - 1);
    }
  }

  /**
   * `u` is `u0` with the hidden flag of the nodes `done` recomputed, and no other change: in
   * particular the same nodes are expanded.
   */
  ghost predicate Recomputed(t: Arena, u: map<nat, Flags>, u0: map<nat, Flags>, done: set<nat>)
    requires Valid(t)
  {
    && (forall x | x in done :: x < |t|)
    && (forall x: nat :: x in u <==> x in u0 || x in done)
    && (forall x | x in u :: u[x] == if x in done then Rehidden(t, u0, x) else u0[x])
    && (forall x: nat | x < |t| :: IsSet(NodeFlags(u, x), Expanded) == IsSet(NodeFlags(u0, x), Expanded))
  }

  /** Recomputing one more node's hidden flag keeps `Recomputed`, whatever was done before. */
  lemma RecomputedStep(t: Arena, u: map<nat, Flags>, u0: map<nat, Flags>, done: set<nat>, y: nat)
    requires Valid(t) && y < |t| && Recomputed(t, u, u0, done)
    ensures Recomputed(t, u[y := Rehidden(t, u, y)], u0, done + {y})
  {
    if y in done {
      assert y in u;
    }
    RehiddenStable(t, u, u0, y);
    RehiddenKeepsExpanded(t, u0, y);
  }

  /** Once `done` is the set of refreshed nodes, `Recomputed` is what `updateHiddenFlagOnDescendants` promises. */
  lemma RecomputedAll(t: Arena, n: nat, u: map<nat, Flags>, u0: map<nat, Flags>, done: set<nat>)
    requires Valid(t) && n < |t| && Recomputed(t, u, u0, done)
    requires forall x: nat :: x in done <==> x in Reached(t, n) && x != n
    ensures forall x: nat :: x in u <==> x in u0 || Refreshed(t, n, x)
    ensures forall x | x in u :: u[x] == if Refreshed(t, n, x) then Rehidden(t, u0, x) else u0[x]
  {
  }

  /** Node `x` is one whose hidden flag the walk from `n` recomputes: reached, and not `n` itself. */
  predicate Refreshed(t: Arena, n: nat, x: nat)
    requires Valid(t) && n < |t|
  {
    x < |t| && x in Reached(t, n) && x != n
  }

  /** `DirtreeWidget` (cmds/sph/ui.go:167-184), reduced to the state the modelled methods use. */
  class Widget {
    const tree: Arena
    var userData: map<nat, Flags>
    var selectedNode: Option<nat>
    var selectedRow: int

    /** A fresh widget on `tree`, nothing selected and no flags set. */
    constructor(tree: Arena)
      requires Valid(tree)
      ensures this.tree == tree && userData == map[] && selectedNode == None && selectedRow == 0
      ensures Sound()
    {
      this.tree := tree;
      userData := map[];
      selectedNode := None;
      selectedRow := 0;
    }

    /** The tree is a valid forest and the selection, if any, is one of its nodes. */
    ghost predicate Sound()
      reads this
    {
      Valid(tree) && (selectedNode.Some? ==> selectedNode.value < |tree|)
    }

    /** `SetTreeNodeFlag` (cmds/sph/ui.go:124-127): `f` added to the node's flags. */
    method SetFlag(n: nat, f: Flags)
      modifies this
      ensures userData == old(userData)[n := With(NodeFlags(old(userData), n), f)]
      ensures selectedNode == old(selectedNode) && selectedRow == old(selectedRow)
    {
      var cell := new FlagCell(NodeFlags(userData, n));
      var g := cell.Set(f);
      userData := userData[n := g];
    }

    /** `UnsetTreeNodeFlag` (cmds/sph/ui.go:129-132): `f` removed from the node's flags. */
    method UnsetFlag(n: nat, f: Flags)
      modifies this
      ensures userData == old(userData)[n := Without(NodeFlags(old(userData), n), f)]
      ensures selectedNode == old(selectedNode) && selectedRow == old(selectedRow)
    {
      var cell := new FlagCell(NodeFlags(userData, n));
      var g := cell.Unset(f);
      userData := userData[n := g];
    }

    /** `updateHiddenFlag` (cmds/sph/ui.go:134-152): climb the parents until one is not expanded. */
    method UpdateHiddenFlag(n: nat)
      requires Sound() && n < |tree|
      modifies this
      ensures userData == old(userData)[n := Rehidden(tree, old(userData), n)]
      ensures selectedNode == old(selectedNode) && selectedRow == old(selectedRow)
    {
      var hidden := false;
      assert ValidNode(tree, n);
      if tree[n].parent.Some? {
        var m: Option<nat> := tree[n].parent;
        while m.Some?
          invariant m.Some? ==> m.value < |tree|
          invariant CollapsedFrom(tree, userData, m) == CollapsedFrom(tree, userData, tree[n].parent)
          invariant !hidden
          decreases if m.Some? then tree[m.value].depth + 1 else 0
        {
          assert ValidNode(tree, m.value);
          if !IsSet(NodeFlags(userData, m.value), Expanded) {
            hidden := true;
            break;
          }
          m := tree[m.value].parent;
        }
      }
      assert hidden == CollapsedFrom(tree, userData, tree[n].parent);
      var cell := new FlagCell(NodeFlags(userData, n));
      var g;
      if hidden {
        g := cell.Set(Hidden);
      } else {
        g := cell.Unset(Hidden);
      }
      userData := userData[n := g];
    }

    /**
     * `updateHiddenFlagOnDescendants` (cmds/sph/ui.go:154-165): the walk from `n` recomputes the
     * hidden flag of every node it reaches except `n`; every other node keeps its user data.
     */
    method UpdateHiddenOnDescendants(n: nat)
      requires Sound() && n < |tree|
      modifies this
      ensures forall x: nat :: x in userData <==> x in old(userData) || Refreshed(tree, n, x)
      ensures forall x | x in userData ::
                userData[x] == if Refreshed(tree, n, x) then Rehidden(tree, old(userData), x) else old(userData)[x]
      ensures selectedNode == old(selectedNode) && selectedRow == old(selectedRow)
    {
      var run := Walk(tree, n, Continue, Forward, PreOrder, tree[n].depth, false);
      WalkReaches(tree, n);
      ReachedInArena(tree, n);
      ghost var u0 := userData;
      ghost var done := RefreshAll(n, Nodes(run.log));
      RecomputedAll(tree, n, userData, u0, done);
    }

    /** The visitor's effect over the visited nodes `xs`: the hidden flag of each one but `n` recomputed. */
    method RefreshAll(n: nat, xs: seq<nat>) returns (ghost done: set<nat>)
      requires Sound() && forall x | x in xs :: x < |tree|
      modifies this
      ensures Sound() && Recomputed(tree, userData, old(userData), done)
      ensures forall x: nat :: x in done <==> x in xs && x != n
      ensures selectedNode == old(selectedNode) && selectedRow == old(selectedRow)
    {
      done := {};
      var i := 0;
      while i < |xs|
        invariant 0 <= i <= |xs| && Sound()
        invariant selectedNode == old(selectedNode) && selectedRow == old(selectedRow)
        invariant forall x: nat :: x in done <==> x in xs[..i] && x != n
        invariant Recomputed(tree, userData, old(userData), done)
      {
        var y := xs[i];
        assert y in xs;
        if y != n {
          RecomputedStep(tree, userData, old(userData), done, y);
          UpdateHiddenFlag(y);
          done := done + {y};
        }
        assert xs[..i + 1] == xs[..i] + [y];
        i := i + 1;
      }
      assert xs[..i] == xs;
    }

    /** `clampSelectedRow` (cmds/sph/ui.go:208-216), the view's height `maxY` passed in. */
    method ClampSelectedRow(maxY: int)
      modifies this
      ensures selectedRow == Clamp(old(selectedRow), maxY)
      ensures userData == old(userData) && selectedNode == old(selectedNode)
    {
      if selectedRow < 0 {
        selectedRow := 0;
      }
      if selectedRow >= maxY {
        selectedRow := maxY - 1;
      }
    }

    /**
     * `nodeBelow` (cmds/sph/ui.go:345-355): step with `Next` past hidden nodes. A nil selection
     * would reach `NumChildren` on a nil node and panic, so a selection is required; the one
     * caller, `selectNext`, checks for it first.
     */
    method NodeBelow() returns (r: Option<nat>)
      requires Sound() && selectedNode.Some?
      ensures var xs := Below(tree, selectedNode.value);
              var k := ShownIndex(userData, xs);
              r == if k < |xs| then Some(xs[k]) else None
    {
      var nxt: Option<nat> := Next(tree, selectedNode, Forward, PreOrder);
      ghost var xs: seq<nat> := Below(tree, selectedNode.value);
      FollowsBelow(tree, selectedNode.value);
      ghost var k: nat := 0;
      while nxt.Some? && IsSet(NodeFlags(userData, nxt.value), Hidden)
        invariant k <= |xs| && Follows(tree, nxt, xs[k..])
        invariant forall j | 0 <= j < k :: IsSet(NodeFlags(userData, xs[j]), Hidden)
        decreases |xs| - k
      {
        assert xs[k..][1..] == xs[k + 1..];
        nxt := Next(tree, nxt, Forward, PreOrder);
        k := k + 1;
      }
      r := nxt;
      ShownIndexAt(userData, xs, k);
    }
  }

  /**
   * The row `clampSelectedRow` leaves: a negative row becomes 0 and a row at or past the view's
   * height `maxY` becomes its last row; inside a view of at least one row the result lies in it.
   */
  function Clamp(row: int, maxY: int): (r: int)
    ensures maxY >= 1 ==> 0 <= r < maxY
    ensures 0 <= row < maxY ==> r == row
    ensures row < 0 && maxY >= 1 ==> r == 0
    ensures row >= maxY || maxY <= 0 ==> r == maxY - 1
  {
    var r0 := if row < 0 then 0 else row;
    if r0 >= maxY then maxY - 1 else r0
  }
}
