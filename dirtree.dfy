/**
 * The directory tree of dirtree/dirtree.go: nodes linked by a `Parent` pointer and a slice of
 * `Children`, each carrying a directory record whose `Size` is the size of the directory's own
 * files plus the sizes of all its descendant directories.
 *
 * `Add`, `Del` and `UpdateSize` keep that aggregate right by pushing a size delta up the chain
 * of parents (`addSize`). In Go that recursion simply follows `Parent` until nil; here each
 * of these methods receives, as a ghost argument, the chain of nodes it will climb (`IsChain`),
 * which is what makes the recursion terminate. Their effect on sizes is stated for the nodes of
 * the chain and follows from the frames for all others. Properties of whole trees are stated
 * over a ghost set `U` of nodes that is closed under `Children` (`Wf`).
 */
module Dirtree {

  /** The directory record of a node: its path, last path element and size in bytes. */
  datatype Directory = Directory(Path: string, Basename: string, Size: int)

  predicate Distinct<T(==)>(s: seq<T>)
  {
    forall i, j | 0 <= i < j < |s| :: s[i] != s[j]
  }

  class Node {
    var Parent: Node?
    var Dir: Directory
    var Children: seq<Node>

    /** A detached node with no children, as built by `&Node{Dir: dir}`. */
    constructor (dir: Directory)
      ensures Parent == null && Dir == dir && Children == []
    {
      Parent := null;
      Dir := dir;
      Children := [];
    }

    /** `Size` (dirtree/dirtree.go:78-80), the TreeSizer view of the directory size. */
    function Size(): real
      reads this`Dir
    {
      Dir.Size as real
    }

    /** `NumChildren` (dirtree/dirtree.go:83-85). */
    function NumChildren(): nat
      reads this`Children
    {
      |Children|
    }

    /** `Child` (dirtree/dirtree.go:88-90). */
    function Child(i: nat): Node
      requires i < |Children|
      reads this`Children
    {
      Children[i]
    }

    /**
     * `addSize` (dirtree/dirtree.go:63-68): add `size` to this node and every ancestor. Inside a
     * well-formed node set `U` this moves the own bytes of this node only.
     */
    method AddSize(size: int, ghost chain: seq<Node>, ghost U: set<Node>)
      requires IsChain(chain) && chain[0] == this
      modifies (set x | x in chain)`Dir
      ensures forall x | x in chain :: x.Dir == old(x.Dir).(Size := old(x.Dir.Size) + size)
      ensures old(Attached(U, chain)) ==>
                && Attached(U, chain)
                && Own(this) == old(Own(this)) + size
                && (forall x | x in U && x != this :: Own(x) == old(Own(x)))
    {
      Propagate(size, chain);
      if old(Attached(U, chain)) {
        ShiftKeepsOwn(Shift(U, chain, size));
      }
    }

    /** The recursion of `addSize`: follow `Parent` until nil, adding `size` on the way. */
    method Propagate(size: int, ghost chain: seq<Node>)
      requires IsChain(chain) && chain[0] == this
      modifies (set x | x in chain)`Dir
      decreases |chain|
      ensures forall x | x in chain :: x.Dir == old(x.Dir).(Size := old(x.Dir.Size) + size)
    {
      assert |chain| > 1 ==> chain[0].Parent == chain[1];
      Dir := Dir.(Size := Dir.Size + size);
      if Parent != null {
        ChainTail(chain);
        Parent.Propagate(size, chain[1..]);
        assert forall x | x in chain :: x == this || x in chain[1..];
      } else {
        assert |chain| == 1;
      }
    }

    /** `Add`/`add` (dirtree/dirtree.go:15-26): append `child`, make this its parent, grow the ancestors. */
    method Add(child: Node, ghost chain: seq<Node>, ghost U: set<Node>)
      requires IsChain(chain) && chain[0] == this && child !in chain
      modifies this`Children, child`Parent, (set x | x in chain)`Dir
      ensures Children == old(Children) + [child]
      ensures NumChildren() == old(NumChildren()) + 1 && Child(NumChildren() - 1) == child
      ensures child.Parent == this
      ensures Dir.Size == old(Dir.Size) + old(child.Dir.Size)
      ensures forall x | x in chain :: x.Dir == old(x.Dir).(Size := old(x.Dir.Size) + old(child.Dir.Size))
      ensures old(Attached(U, chain) && Detached(U, child)) ==>
                Attached(U, chain) && forall x | x in U :: Own(x) == old(Own(x))
    {
      var s := child.Dir.Size;
      Children := Children + [child];
      child.Parent := this;
      if old(Attached(U, chain) && Detached(U, child)) {
        LinkKeepsShape(Splice(U, chain, |Children| - 1));
      }
      AddSize(s, chain, U);
    }

    /**
     * `Del`/`del` (dirtree/dirtree.go:29-54): remove the first occurrence of `child` by moving the
     * last child into its slot, and shrink the ancestors; nothing happens when `child` is absent.
     * The removed node keeps its `Parent` pointer.
     */
    method Del(child: Node, ghost chain: seq<Node>, ghost U: set<Node>)
      requires IsChain(chain) && chain[0] == this
      modifies this`Children, (set x | x in chain)`Dir
      ensures child.Parent == old(child.Parent)
      ensures child !in old(Children) ==>
                Children == old(Children) && forall x | x in chain :: x.Dir == old(x.Dir)
      ensures child in old(Children) ==>
                && Children == SwapRemove(old(Children), IndexOf(old(Children), child))
                && Dir.Size == old(Dir.Size) - old(child.Dir.Size)
                && forall x | x in chain :: x.Dir == old(x.Dir).(Size := old(x.Dir.Size) - old(child.Dir.Size))
      ensures old(Attached(U, chain)) ==> Wf(U) && forall x | x in U :: Own(x) == old(Own(x))
    {
      var i := Find(child);
      if i < |Children| {
        RemoveAt(i, chain, U);
      }
    }

    /** The search of `del` (dirtree/dirtree.go:35-38, 53): the index of the first `child` in `Children`, or `|Children|`. */
    method Find(child: Node) returns (i: nat)
      ensures i <= |Children|
      ensures i < |Children| ==> Children[i] == child && i == IndexOf(Children, child)
      ensures i == |Children| <==> child !in Children
    {
      i := 0;
      while i < |Children|
        invariant 0 <= i <= |Children|
        invariant forall k | 0 <= k < i :: Children[k] != child
      {
        if Children[i] == child {
          IndexOfFirst(Children, i);
          return;
        }
        i := i + 1;
      }
    }

    /** The removal step of `del` (dirtree/dirtree.go:39-50): child `i` leaves, the last child takes its slot. */
    method RemoveAt(i: nat, ghost chain: seq<Node>, ghost U: set<Node>)
      requires IsChain(chain) && chain[0] == this && i < |Children|
      modifies this`Children, (set x | x in chain)`Dir
      ensures Children == SwapRemove(old(Children), i)
      ensures forall x | x in chain :: x.Dir == old(x.Dir).(Size := old(x.Dir.Size) - old(Children[i].Dir.Size))
      ensures old(Attached(U, chain)) ==> Wf(U) && forall x | x in U :: Own(x) == old(Own(x))
    {
      var s := Children[i].Dir.Size;
      SwapOut(i);
      if old(Attached(U, chain)) {
        UnlinkKeepsShape(Splice(U, chain, i));
      }
      assert forall x | x in chain :: x.Dir == old(x.Dir);
      AddSize(-s, chain, U);
    }

    /** The slice surgery of `del` (dirtree/dirtree.go:39-49): the last child overwrites slot `i`, the slice drops its last element. */
    method SwapOut(i: nat)
      requires i < |Children|
      modifies this`Children
      ensures Children == SwapRemove(old(Children), i)
    {
      var last := |Children| - 1;
      if i != last {
        Children := Children[i := Children[last]];
      }
      Children := Children[..last];
    }

    /** `UpdateSize` (dirtree/dirtree.go:57-60): set this size to `size` and shift the ancestors by the difference. */
    method UpdateSize(size: int, ghost chain: seq<Node>, ghost U: set<Node>)
      requires IsChain(chain) && chain[0] == this
      modifies (set x | x in chain)`Dir
      ensures Dir == old(Dir).(Size := size)
      ensures forall x | x in chain :: x.Dir == old(x.Dir).(Size := old(x.Dir.Size) + (size - old(Dir.Size)))
      ensures old(Attached(U, chain)) ==>
                && Attached(U, chain)
                && Own(this) == old(Own(this)) + (size - old(Dir.Size))
                && (forall x | x in U && x != this :: Own(x) == old(Own(x)))
    {
      var delta := size - Dir.Size;
      AddSize(delta, chain, U);
    }

    /**
     * `Walk` (dirtree/dirtree.go:70-75): the nodes handed to the visitor, in order: this node,
     * then the walk of each child in `Children` order (`WalkOf`). `h` ranks nodes so that
     * children rank lower. The visits are closed under `Children` and each one after the first
     * is a child of an earlier one; in a well-formed tree no node is visited twice (`WalkDistinct`).
     */
    method Walk(ghost U: set<Node>, ghost h: map<Node, nat>) returns (visits: seq<Node>)
      requires Ranked(U, h) && this in U
      decreases h[this], 1
      ensures visits == WalkOf(U, h, this)
      ensures forall y | y in visits :: y in U
      ensures ClosedFrom(visits, 0) && Descends(visits)
    {
      visits := [this];
      var i := 0;
      while i < |Children|
        invariant 0 <= i <= |Children|
        invariant visits == [this] + WalkList(U, h, Children[..i], h[this])
        invariant forall y | y in visits :: y in U
        invariant forall d | d in Children[..i] :: d in visits
        invariant ClosedFrom(visits, 1) && Descends(visits)
      {
        visits := WalkChild(U, h, i, visits);
        i := i + 1;
      }
      assert Children[..i] == Children;
      CloseRoot(visits);
    }

    /** One turn of `Walk`'s loop: the walk of child `i` is appended to the visits so far. */
    method WalkChild(ghost U: set<Node>, ghost h: map<Node, nat>, i: nat, prev: seq<Node>) returns (visits: seq<Node>)
      requires Ranked(U, h) && this in U && i < |Children|
      requires prev == [this] + WalkList(U, h, Children[..i], h[this])
      requires forall y | y in prev :: y in U
      requires forall d | d in Children[..i] :: d in prev
      requires ClosedFrom(prev, 1) && Descends(prev)
      decreases h[this], 0
      ensures visits == [this] + WalkList(U, h, Children[..i + 1], h[this])
      ensures forall y | y in visits :: y in U
      ensures forall d | d in Children[..i + 1] :: d in visits
      ensures ClosedFrom(visits, 1) && Descends(visits)
    {
      var c := Children[i];
      var sub := c.Walk(U, h);
      visits := prev + sub;
      WalkAppend(prev, sub, this, c);
      WalkStep(U, h, this, i);
      assert Children[..i + 1] == Children[..i] + [c];
    }
  }

  /** `Dirtree` with `New` (dirtree/dirtree.go:94-101): an empty tree has no root. */
  class Dirtree {
    var Root: Node?

    constructor ()
      ensures Root == null
    {
      Root := null;
    }
  }

  // ---------------------------------------------------------------------------
  // Shapes of node graphs.
  // ---------------------------------------------------------------------------

  /** `chain` is `chain[0]` followed by its ancestors, following `Parent` up to a root. */
  ghost predicate IsChain(chain: seq<Node>)
    reads (set x | x in chain)`Parent
  {
    && |chain| > 0
    && (forall i | 0 <= i < |chain| - 1 :: chain[i].Parent == chain[i + 1])
    && chain[|chain| - 1].Parent == null
    && Distinct(chain)
  }

  /** Each link of the chain is also a child link: `chain[i]` is among the children of `chain[i + 1]`. */
  ghost predicate Linked(chain: seq<Node>)
    reads (set x | x in chain)`Children
  {
    forall i | 0 <= i < |chain| - 1 :: chain[i] in chain[i + 1].Children
  }

  /** `U` is closed under `Children`, every child points back to its parent, and no child is listed twice. */
  ghost predicate Wf(U: set<Node>)
    reads U`Children, U`Parent
  {
    forall x | x in U :: Distinct(x.Children) && forall c | c in x.Children :: c in U && c.Parent == x
  }

  /** The chain runs inside a well-formed `U` along real child links. */
  ghost predicate Attached(U: set<Node>, chain: seq<Node>)
    reads U`Children, U`Parent, (set x | x in chain)`Parent, (set x | x in chain)`Children
  {
    Wf(U) && IsChain(chain) && (forall x | x in chain :: x in U) && Linked(chain)
  }

  /** `child` is a node of `U` that no node of `U` lists as a child. */
  ghost predicate Detached(U: set<Node>, child: Node)
    reads U`Children
  {
    child in U && forall x | x in U :: child !in x.Children
  }

  /** Children rank strictly lower than their parent: the children relation has no cycles. */
  ghost predicate Ranked(U: set<Node>, h: map<Node, nat>)
    reads U`Children
  {
    forall x | x in U :: x in h && forall c | c in x.Children :: c in U && c in h && h[c] < h[x]
  }

  /** Sum of the sizes of `cs`. */
  function SumSizes(cs: seq<Node>): int
    reads (set c | c in cs)`Dir
  {
    if cs == [] then 0 else cs[0].Dir.Size + SumSizes(cs[1..])
  }

  /** A node's own bytes: its size minus the sizes of its children. */
  function Own(x: Node): int
    reads x`Dir, x`Children, (set c | c in x.Children)`Dir
  {
    x.Dir.Size - SumSizes(x.Children)
  }

  function IndexOf(s: seq<Node>, x: Node): (i: nat)
    requires x in s
    ensures i < |s| && s[i] == x && forall k | 0 <= k < i :: s[k] != x
  {
    if s[0] == x then 0 else 1 + IndexOf(s[1..], x)
  }

  /** Remove index `i` by moving the last element into its slot. */
  function SwapRemove(s: seq<Node>, i: nat): (r: seq<Node>)
    requires i < |s|
    ensures |r| == |s| - 1
  {
    if i == |s| - 1 then s[..i] else s[..i] + [s[|s| - 1]] + s[i + 1..|s| - 1]
  }

  // ---------------------------------------------------------------------------
  // Lemmas.
  // ---------------------------------------------------------------------------

  lemma ChainTail(chain: seq<Node>)
    requires IsChain(chain) && |chain| > 1
    ensures IsChain(chain[1..]) && chain[0] !in chain[1..]
  {
    forall k | 1 <= k < |chain| ensures chain[k] != chain[0] {
    }
  }

  lemma SwapRemoveMultiset(s: seq<Node>, i: nat)
    requires i < |s|
    ensures multiset(SwapRemove(s, i)) == multiset(s) - multiset{s[i]}
    ensures Distinct(s) ==> Distinct(SwapRemove(s, i))
    ensures forall c | c in SwapRemove(s, i) :: c in s
  {
    var r := SwapRemove(s, i);
    SwapRemoveBag(s, i);
    SwapRemoveAt(s, i);
    forall c | c in r ensures c in s {
      var k :| 0 <= k < |r| && r[k] == c;
      assert c == if k == i then s[|s| - 1] else s[k];
    }
    if Distinct(s) {
      forall j, k | 0 <= j < k < |r| ensures r[j] != r[k] {
        assert r[k] == if k == i then s[|s| - 1] else s[k];
        assert r[j] == if j == i then s[|s| - 1] else s[j];
      }
    }
  }

  lemma SwapRemoveBag(s: seq<Node>, i: nat)
    requires i < |s|
    ensures multiset(SwapRemove(s, i)) == multiset(s) - multiset{s[i]}
  {
    var last := |s| - 1;
    if i == last {
      assert s == s[..last] + [s[last]];
    } else {
      Split(s, i);
      Bag(s[..i], s[i], s[i + 1..last], s[last]);
    }
  }

  lemma Bag(a: seq<Node>, x: Node, b: seq<Node>, y: Node)
    ensures multiset(a + [y] + b) == multiset(a + [x] + b + [y]) - multiset{x}
  {
  }

  lemma Split(s: seq<Node>, i: nat)
    requires i < |s| - 1
    ensures s == s[..i] + [s[i]] + s[i + 1..|s| - 1] + [s[|s| - 1]]
  {
    var last := |s| - 1;
    assert s == s[..last] + [s[last]];
    assert s[..last] == s[..i] + [s[i]] + s[i + 1..last];
  }

  lemma SwapRemoveAt(s: seq<Node>, i: nat)
    requires i < |s|
    ensures forall k | 0 <= k < |s| - 1 :: SwapRemove(s, i)[k] == if k == i then s[|s| - 1] else s[k]
  {
  }

  lemma SumAppend(a: seq<Node>, b: seq<Node>)
    ensures SumSizes(a + b) == SumSizes(a) + SumSizes(b)
  {
    if a == [] {
      assert a + b == b;
    } else {
      assert (a + b)[1..] == a[1..] + b;
      SumAppend(a[1..], b);
    }
  }

  lemma SumSwapRemove(s: seq<Node>, i: nat)
    requires i < |s|
    ensures SumSizes(SwapRemove(s, i)) == SumSizes(s) - s[i].Dir.Size
  {
    if i == |s| - 1 {
      SumLast(s);
    } else {
      SumSplit(s, i);
      SumSwap(s[..i], s[i], s[i + 1..|s| - 1], s[|s| - 1]);
    }
  }

  lemma SumLast(s: seq<Node>)
    requires |s| > 0
    ensures SumSizes(s) == SumSizes(s[..|s| - 1]) + s[|s| - 1].Dir.Size
  {
    var last := |s| - 1;
    assert s == s[..last] + [s[last]];
    SumAppend(s[..last], [s[last]]);
    SumOne(s[last]);
  }

  lemma SumSplit(s: seq<Node>, i: nat)
    requires i < |s| - 1
    ensures SumSizes(s) == SumSizes(s[..i] + [s[i]] + s[i + 1..|s| - 1] + [s[|s| - 1]])
  {
    Split(s, i);
  }

  /** Moving the last node `y` into the slot of `x` drops the total by the size of `x`. */
  lemma SumSwap(a: seq<Node>, x: Node, b: seq<Node>, y: Node)
    ensures SumSizes(a + [y] + b) == SumSizes(a + [x] + b + [y]) - x.Dir.Size
  {
    SumAppend(a + [x] + b, [y]);
    SumOne(y);
    SumMiddle(a, x, b);
    SumMiddle(a, y, b);
  }

  lemma SumOne(x: Node)
    ensures SumSizes([x]) == x.Dir.Size
  {
    assert [x][1..] == [];
  }

  lemma SumMiddle(a: seq<Node>, x: Node, b: seq<Node>)
    ensures SumSizes(a + [x] + b) == SumSizes(a) + x.Dir.Size + SumSizes(b)
  {
    SumAppend(a + [x], b);
    SumAppend(a, [x]);
    SumOne(x);
  }

  twostate lemma SumSame(cs: seq<Node>)
    requires forall c | c in cs :: c.Dir.Size == old(c.Dir.Size)
    ensures SumSizes(cs) == old(SumSizes(cs))
  {
    if cs != [] {
      SumSame(cs[1..]);
    }
  }

  /** Node `cs[k]` of a list of distinct nodes whose size moved by `delta`. */
  datatype Slot = Slot(cs: seq<Node>, k: nat, delta: int)

  twostate lemma SumShiftOne(sl: Slot)
    requires Distinct(sl.cs) && sl.k < |sl.cs|
    requires forall c | c in sl.cs :: c.Dir.Size == old(c.Dir.Size) + (if c == sl.cs[sl.k] then sl.delta else 0)
    ensures SumSizes(sl.cs) == old(SumSizes(sl.cs)) + sl.delta
    decreases |sl.cs|
  {
    var cs := sl.cs;
    if sl.k == 0 {
      assert cs[0] !in cs[1..] by {
        forall j | 1 <= j < |cs| ensures cs[j] != cs[0] {
        }
      }
      SumSame(cs[1..]);
    } else {
      SumShiftOne(Slot(cs[1..], sl.k - 1, sl.delta));
    }
  }

  /** Every node of `chain` had its size moved by `delta`, inside the node set `U`. */
  datatype Shift = Shift(U: set<Node>, chain: seq<Node>, delta: int)

  /** Shifting the sizes of a linked chain by the same amount changes the own bytes of its first node only. */
  twostate lemma ShiftKeepsOwn(sh: Shift)
    requires old(Attached(sh.U, sh.chain))
    requires forall x | x in sh.U :: x.Children == old(x.Children) && x.Parent == old(x.Parent)
    requires forall x | x in sh.chain :: x.Parent == old(x.Parent) && x.Children == old(x.Children)
    requires forall x | x in sh.U ::
               x.Dir.Size == old(x.Dir.Size) + (if x in sh.chain then sh.delta else 0)
    ensures Wf(sh.U)
    ensures Own(sh.chain[0]) == old(Own(sh.chain[0])) + sh.delta
    ensures forall x | x in sh.U && x != sh.chain[0] :: Own(x) == old(Own(x))
  {
    var U, chain, s := sh.U, sh.chain, sh.delta;
    assert Attached(U, chain);
    forall x | x in U
      ensures Own(x) == old(Own(x)) + (if x == chain[0] then s else 0)
    {
      var cs := x.Children;
      if i :| 1 <= i < |chain| && x == chain[i] {
        forall c | c in cs
          ensures c.Dir.Size == old(c.Dir.Size) + (if c == chain[i - 1] then s else 0)
        {
          if c in chain {
            ChainChildren(U, chain, x, c);
          }
        }
        SumShiftOne(Slot(cs, IndexOf(cs, chain[i - 1]), s));
      } else {
        forall c | c in cs ensures c.Dir.Size == old(c.Dir.Size) {
          if c in chain {
            ChainChildren(U, chain, x, c);
          }
        }
        SumSame(cs);
      }
    }
  }

  /** No node outside the chain has a child on the chain, and inside it only the link below. */
  lemma ChainChildren(U: set<Node>, chain: seq<Node>, x: Node, c: Node)
    requires Attached(U, chain) && x in U && c in x.Children && c in chain
    ensures x in chain && x != chain[0]
    ensures forall i | 1 <= i < |chain| && x == chain[i] :: c == chain[i - 1]
  {
    var k :| 0 <= k < |chain| && chain[k] == c;
    assert c.Parent == x;
    assert k < |chain| - 1;
    assert chain[k + 1] == x;
    forall i | 1 <= i < |chain| && x == chain[i] ensures c == chain[i - 1] {
      assert i == k + 1;
    }
  }

  /** Every child of `v[k]`, for `k` from `lo` on, is itself in `v`. */
  ghost predicate ClosedFrom(v: seq<Node>, lo: nat)
    reads (set x | x in v)`Children
  {
    forall k, d | lo <= k < |v| && d in v[k].Children :: d in v
  }

  /** Every node of `v` after the first is a child of a node listed before it. */
  ghost predicate Descends(v: seq<Node>)
    reads (set x | x in v)`Children
  {
    forall k | 0 < k < |v| :: exists j | 0 <= j < k :: v[k] in v[j].Children
  }

  /** Appending the walk of child `c` of `p` to a walk from `p` keeps it closed under children and rooted. */
  lemma WalkAppend(prev: seq<Node>, sub: seq<Node>, p: Node, c: Node)
    requires |prev| >= 1 && prev[0] == p && c in p.Children
    requires ClosedFrom(prev, 1) && Descends(prev)
    requires |sub| >= 1 && sub[0] == c
    requires ClosedFrom(sub, 0) && Descends(sub)
    ensures ClosedFrom(prev + sub, 1) && Descends(prev + sub)
  {
    var v := prev + sub;
    forall k, d | 1 <= k < |v| && d in v[k].Children ensures d in v {
      if k < |prev| {
        assert v[k] == prev[k];
      } else {
        assert v[k] == sub[k - |prev|];
      }
    }
    forall k | 0 < k < |v| ensures exists j | 0 <= j < k :: v[k] in v[j].Children {
      if k < |prev| {
        var j :| 0 <= j < k && prev[k] in prev[j].Children;
        assert v[j] == prev[j];
      } else if k == |prev| {
        assert v[0] == p;
      } else {
        var j :| 0 <= j < k - |prev| && sub[k - |prev|] in sub[j].Children;
        assert v[|prev| + j] == sub[j];
      }
    }
  }

  /** Once every child of the first node is listed, the whole of `v` is closed. */
  lemma CloseRoot(v: seq<Node>)
    requires |v| >= 1 && ClosedFrom(v, 1) && forall d | d in v[0].Children :: d in v
    ensures ClosedFrom(v, 0)
  {
  }

  /** The nodes `Walk` hands to its visitor from `x`: `x`, then the walk of each child in `Children` order. */
  ghost function WalkOf(U: set<Node>, h: map<Node, nat>, x: Node): seq<Node>
    requires Ranked(U, h) && x in U
    reads U`Children
    decreases h[x], 1, 0
  {
    [x] + WalkList(U, h, x.Children, h[x])
  }

  /** The walks of the nodes `cs`, one after the other; every node of `cs` ranks below `r`. */
  ghost function WalkList(U: set<Node>, h: map<Node, nat>, cs: seq<Node>, r: nat): seq<Node>
    requires Ranked(U, h) && forall c | c in cs :: c in U && c in h && h[c] < r
    reads U`Children
    decreases r, 0, |cs|
  {
    if cs == [] then [] else WalkList(U, h, cs[..|cs| - 1], r) + WalkOf(U, h, cs[|cs| - 1])
  }

  /** One more turn of `Walk`'s loop appends the walk of child `i`. */
  lemma WalkStep(U: set<Node>, h: map<Node, nat>, x: Node, i: nat)
    requires Ranked(U, h) && x in U && i < |x.Children|
    ensures [x] + WalkList(U, h, x.Children[..i + 1], h[x])
         == ([x] + WalkList(U, h, x.Children[..i], h[x])) + WalkOf(U, h, x.Children[i])
  {
    var cs := x.Children[..i + 1];
    assert cs[..|cs| - 1] == x.Children[..i] && cs[|cs| - 1] == x.Children[i];
  }

  /**
   * In a well-formed tree, every node of the walk from `x` ranks no higher than `x`, and every
   * node but `x` is a child of its `Parent`, which the walk also visits.
   */
  lemma {:induction false} WalkShape(U: set<Node>, h: map<Node, nat>, x: Node)
    requires Wf(U) && Ranked(U, h) && x in U
    ensures forall y | y in WalkOf(U, h, x) ::
              y in U && y in h && h[y] <= h[x]
              && (y != x ==> y.Parent in WalkOf(U, h, x) && y in y.Parent.Children)
    decreases h[x], 1, 0
  {
    WalkListShape(U, h, x.Children, h[x], x);
  }

  /** Every node in the walks of children `cs` of `p` is one of `cs` or a child of a node those walks visit. */
  lemma {:induction false} WalkListShape(U: set<Node>, h: map<Node, nat>, cs: seq<Node>, r: nat, p: Node)
    requires Wf(U) && Ranked(U, h)
    requires forall c | c in cs :: c in U && c in h && h[c] < r && c.Parent == p && c in p.Children
    ensures forall y | y in WalkList(U, h, cs, r) ::
              y in U && y in h && h[y] < r
              && (y in cs || (y.Parent in WalkList(U, h, cs, r) && y in y.Parent.Children))
    decreases r, 0, |cs|
  {
    if cs != [] {
      var pre, c := cs[..|cs| - 1], cs[|cs| - 1];
      assert forall d | d in pre :: d in cs;
      WalkListShape(U, h, pre, r, p);
      WalkShape(U, h, c);
    }
  }

  /** A node in the walks of `cs` lies in the walk of one of them. */
  lemma {:induction false} WalkListMember(U: set<Node>, h: map<Node, nat>, cs: seq<Node>, r: nat, y: Node)
    returns (c: Node)
    requires Ranked(U, h) && forall c | c in cs :: c in U && c in h && h[c] < r
    requires y in WalkList(U, h, cs, r)
    ensures c in cs && c in U && y in WalkOf(U, h, c)
    decreases |cs|
  {
    var pre, last := cs[..|cs| - 1], cs[|cs| - 1];
    if y in WalkOf(U, h, last) {
      c := last;
    } else {
      assert forall d | d in pre :: d in cs;
      c := WalkListMember(U, h, pre, r, y);
    }
  }

  /** The walks of two different children of one node share no node. */
  lemma {:induction false} SiblingWalksDisjoint(U: set<Node>, h: map<Node, nat>, p: Node, c1: Node, c2: Node, y: Node)
    requires Wf(U) && Ranked(U, h) && p in U && c1 in p.Children && c2 in p.Children && c1 != c2
    requires y in WalkOf(U, h, c1)
    ensures y !in WalkOf(U, h, c2)
    decreases if y in h && h[y] <= h[c1] then h[c1] - h[y] else 0
  {
    WalkShape(U, h, c1);
    WalkShape(U, h, c2);
    if y != c1 {
      SiblingWalksDisjoint(U, h, p, c1, c2, y.Parent);
    }
  }

  /** In a well-formed tree `Walk` visits every node at most once. */
  lemma {:induction false} WalkDistinct(U: set<Node>, h: map<Node, nat>, x: Node)
    requires Wf(U) && Ranked(U, h) && x in U
    ensures Distinct(WalkOf(U, h, x))
    decreases h[x], 1, 0
  {
    WalkListDistinct(U, h, x.Children, x);
    WalkListShape(U, h, x.Children, h[x], x);
    DistinctAppend([x], WalkList(U, h, x.Children, h[x]));
  }

  /** The walks of distinct children of `p`, one after the other, repeat no node. */
  lemma {:induction false} WalkListDistinct(U: set<Node>, h: map<Node, nat>, cs: seq<Node>, p: Node)
    requires Wf(U) && Ranked(U, h) && p in U && Distinct(cs) && forall c | c in cs :: c in p.Children
    ensures Distinct(WalkList(U, h, cs, h[p]))
    decreases h[p], 0, |cs|
  {
    if cs != [] {
      var pre, c := cs[..|cs| - 1], cs[|cs| - 1];
      assert forall d | d in pre :: d in cs;
      WalkListDistinct(U, h, pre, p);
      WalkDistinct(U, h, c);
      forall y | y in WalkList(U, h, pre, h[p]) ensures y !in WalkOf(U, h, c) {
        var d := WalkListMember(U, h, pre, h[p], y);
        assert d != c by {
          var k :| 0 <= k < |pre| && pre[k] == d;
          assert cs[k] == d;
        }
        SiblingWalksDisjoint(U, h, p, d, c, y);
      }
      DistinctAppend(WalkList(U, h, pre, h[p]), WalkOf(U, h, c));
    }
  }

  lemma DistinctAppend<T>(a: seq<T>, b: seq<T>)
    requires Distinct(a) && Distinct(b) && forall y | y in a :: y !in b
    ensures Distinct(a + b)
  {
    forall i, j | 0 <= i < j < |a + b| ensures (a + b)[i] != (a + b)[j] {
      if i < |a| && j >= |a| {
        assert (a + b)[i] in a && (a + b)[j] == b[j - |a|];
      }
    }
  }

  lemma IndexOfFirst(s: seq<Node>, i: nat)
    requires i < |s| && forall k | 0 <= k < i :: s[k] != s[i]
    ensures IndexOf(s, s[i]) == i
  {
    var j := IndexOf(s, s[i]);
    assert !(j < i);
  }

  /** Child `index` of `chain[0]` that was just linked or unlinked, inside the node set `U`. */
  datatype Splice = Splice(U: set<Node>, chain: seq<Node>, index: nat)

  /** Appending a detached child to `chain[0]` and pointing it back keeps the shape; the own bytes of `chain[0]` drop by the child size. */
  twostate lemma LinkKeepsShape(sp: Splice)
    requires old(Attached(sp.U, sp.chain)) && sp.index < |sp.chain[0].Children|
    requires var c := sp.chain[0].Children[sp.index];
      && c in sp.U && (forall x | x in sp.U :: c !in old(x.Children))
      && c !in sp.chain && c.Parent == sp.chain[0]
      && sp.chain[0].Children == old(sp.chain[0].Children) + [c]
      && (forall x | x in sp.U && x != sp.chain[0] :: x.Children == old(x.Children))
      && (forall x | x in sp.U && x != c :: x.Parent == old(x.Parent))
      && (forall x | x in sp.U :: x.Dir == old(x.Dir))
    ensures Attached(sp.U, sp.chain)
    ensures Own(sp.chain[0]) == old(Own(sp.chain[0])) - sp.chain[0].Children[sp.index].Dir.Size
    ensures forall x | x in sp.U && x != sp.chain[0] :: Own(x) == old(Own(x))
  {
    var U, chain, p := sp.U, sp.chain, sp.chain[0];
    var child := p.Children[sp.index];
    assert Wf(U) by {
      forall x | x in U
        ensures Distinct(x.Children) && forall c | c in x.Children :: c in U && c.Parent == x
      {
        if x == p {
          assert child !in old(p.Children);
        } else {
          assert child !in x.Children;
        }
      }
    }
    assert Linked(chain) by {
      forall i | 0 <= i < |chain| - 1 ensures chain[i] in chain[i + 1].Children {
        assert chain[i] in old(chain[i + 1].Children);
      }
    }
    SumSame(old(p.Children));
    SumAppend(old(p.Children), [child]);
    forall x | x in U && x != p ensures Own(x) == old(Own(x)) {
      SumSame(x.Children);
    }
  }

  /** Swap-removing child `index` of `chain[0]` keeps the shape; the own bytes of `chain[0]` rise by that child size. */
  twostate lemma UnlinkKeepsShape(sp: Splice)
    requires old(Attached(sp.U, sp.chain)) && sp.index < |old(sp.chain[0].Children)|
    requires sp.chain[0].Children == SwapRemove(old(sp.chain[0].Children), sp.index)
    requires forall x | x in sp.U && x != sp.chain[0] :: x.Children == old(x.Children)
    requires forall x | x in sp.U :: x.Parent == old(x.Parent) && x.Dir == old(x.Dir)
    ensures Attached(sp.U, sp.chain)
    ensures Own(sp.chain[0]) == old(Own(sp.chain[0])) + old(sp.chain[0].Children[sp.index].Dir.Size)
    ensures forall x | x in sp.U && x != sp.chain[0] :: Own(x) == old(Own(x))
  {
    var U, chain, p, i := sp.U, sp.chain, sp.chain[0], sp.index;
    var cs := old(p.Children);
    SwapRemoveMultiset(cs, i);
    assert Wf(U) by {
      forall x | x in U
        ensures Distinct(x.Children) && forall c | c in x.Children :: c in U && c.Parent == x
      {
      }
    }
    assert Linked(chain) by {
      forall k | 0 <= k < |chain| - 1 ensures chain[k] in chain[k + 1].Children {
        assert chain[k + 1] != p;
      }
    }
    SumSame(cs);
    SumSame(SwapRemove(cs, i));
    SumSwapRemove(cs, i);
    forall x | x in U && x != p ensures Own(x) == old(Own(x)) {
      SumSame(x.Children);
    }
  }
}
