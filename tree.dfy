/**
 * The generic tree walker of tree/tree.go.
 *
 * A tree is an arena of nodes addressed by index: each node has an optional
 * parent, an ordered list of children and its depth (distance from its root).
 * `Walk`, `walk` and `walkSiblings` only call the visitor, so they are pure
 * functions here that thread a `Run`: the visits made so far and whether the
 * visitor has asked to stop. Go stops by panicking with a sentinel and
 * recovering in `Walk`; here every visit after a refusal is a no-op, which
 * unwinds the same recursive calls without any further visitor call.
 *
 * The visitor is a function of the visits already made and of the current
 * visit. That covers every deterministic Go closure, stateful or not.
 */
module Tree {
  import opened Wrappers

  /** Order in which the children of a node are processed. */
  datatype WalkDirection = Forward | Reverse

  /** Whether a node is visited before (PreOrder) or after (PostOrder) its children. */
  datatype WalkOrder = PreOrder | PostOrder

  /** One node of the arena. */
  datatype Node = Node(parent: Option<nat>, children: seq<nat>, depth: nat)

  type Arena = seq<Node>

  predicate NoDup(s: seq<nat>)
  {
    forall i, j | 0 <= i < j < |s| :: s[i] != s[j]
  }

  /** Node `i` is linked consistently with its parent and its children. */
  predicate ValidNode(t: Arena, i: nat)
    requires i < |t|
  {
    && t[i].depth < |t|
    && (match t[i].parent
        case None => t[i].depth == 0
        case Some(p) => p < |t| && t[p].depth + 1 == t[i].depth && i in t[p].children)
    && (forall c | c in t[i].children :: c < |t| && t[c].parent == Some(i) && t[c].depth == t[i].depth + 1)
    && NoDup(t[i].children)
  }

  /** A forest: every node is valid. Depths below |t| make every parent chain finite. */
  predicate Valid(t: Arena)
  {
    forall i | 0 <= i < |t| :: ValidNode(t, i)
  }

  /** A visitor call: the node and the depth passed to the visitor. */
  datatype Visit = Visit(node: nat, depth: int)

  /** The visitor sees the visits made before this one and the current visit; false stops the walk. */
  type Visitor = (seq<Visit>, Visit) -> bool

  /** State of a walk in progress: the visitor calls made so far and whether the walk was stopped. */
  datatype Run = Run(log: seq<Visit>, stopped: bool)

  function Reversed(s: seq<nat>): (r: seq<nat>)
    ensures |r| == |s|
    ensures forall i | 0 <= i < |s| :: r[i] == s[|s| - 1 - i]
  {
    if s == [] then [] else Reversed(s[1..]) + [s[0]]
  }

  /** The children in the order the walk takes them: first to last (Forward) or last to first (Reverse). */
  function Ordered(ks: seq<nat>, dir: WalkDirection): (r: seq<nat>)
    ensures |r| == |ks|
    ensures NoDup(ks) ==> NoDup(r)
    ensures ks != [] ==> r[0] == if dir == Forward then ks[0] else ks[|ks| - 1]
  {
    if dir == Forward then ks else Reversed(ks)
  }

  /** Reordering keeps the same children. */
  lemma OrderedMembers(ks: seq<nat>, dir: WalkDirection)
    ensures forall x | x in Ordered(ks, dir) :: x in ks
    ensures forall x | x in ks :: x in Ordered(ks, dir)
  {
    var r := Ordered(ks, dir);
    forall x | x in r ensures x in ks {
      var i :| 0 <= i < |r| && r[i] == x;
      assert dir == Reverse ==> ks[|ks| - 1 - i] == x;
    }
    forall x | x in ks ensures x in r {
      var i :| 0 <= i < |ks| && ks[i] == x;
      assert dir == Reverse ==> r[|ks| - 1 - i] == x;
    }
  }

  /** The elements after the first occurrence of `x` in `ks`; empty when `x` does not occur. */
  function After(ks: seq<nat>, x: nat): (r: seq<nat>)
    ensures forall y | y in r :: y in ks
    ensures x !in ks ==> r == []
    ensures |r| < |ks| || ks == []
  {
    if ks == [] then []
    else if ks[0] == x then ks[1..]
    else After(ks[1..], x)
  }

  /** `visit` (tree/tree.go:53-57): one visitor call, unless the walk has already been stopped. */
  function CallVisitor(v: Visitor, r: Run, x: Visit): (r': Run)
    ensures r.stopped ==> r' == r
    ensures !r.stopped ==> r'.log == r.log + [x] && r'.stopped == !v(r.log, x)
  {
    if r.stopped then r else Run(r.log + [x], !v(r.log, x))
  }

  /** `walk` (tree/tree.go:68-99): the subtree of `n`, unless `skip`. */
  function WalkNode(t: Arena, n: nat, v: Visitor, dir: WalkDirection, order: WalkOrder,
                    depth: int, skip: bool, r: Run): Run
    requires Valid(t) && n < |t|
    decreases |t| - t[n].depth, 1, 0
  {
    if skip then r
    else
      assert ValidNode(t, n);
      OrderedMembers(t[n].children, dir);
      var r1 := if order == PreOrder then CallVisitor(v, r, Visit(n, depth)) else r;
      var r2 := WalkChildren(t, n, Ordered(t[n].children, dir), v, dir, order, depth + 1, r1);
      if order == PostOrder then CallVisitor(v, r2, Visit(n, depth)) else r2
  }

  /** The loop of `walk` over the children `ks` of `p` (already in walk direction). */
  function WalkChildren(t: Arena, p: nat, ks: seq<nat>, v: Visitor, dir: WalkDirection,
                        order: WalkOrder, depth: int, r: Run): Run
    requires Valid(t) && p < |t|
    requires forall c | c in ks :: c in t[p].children
    decreases |t| - t[p].depth, 0, |ks|
  {
    if ks == [] then r
    else
      assert ValidNode(t, p) && ks[0] in ks;
      WalkChildren(t, p, ks[1..], v, dir, order, depth,
                   WalkNode(t, ks[0], v, dir, order, depth, false, r))
  }

  /** The loop of `walkSiblings` (tree/tree.go:117-130): skip up to and including `n`, walk the rest. */
  function SiblingLoop(t: Arena, p: nat, n: nat, ks: seq<nat>, ignore: bool, v: Visitor,
                       dir: WalkDirection, order: WalkOrder, depth: int, r: Run): Run
    requires Valid(t) && p < |t|
    requires forall c | c in ks :: c in t[p].children
    decreases |ks|
  {
    if ks == [] then r
    else if ignore then SiblingLoop(t, p, n, ks[1..], ks[0] != n, v, dir, order, depth, r)
    else
      assert ValidNode(t, p) && ks[0] in ks;
      SiblingLoop(t, p, n, ks[1..], false, v, dir, order, depth,
                  WalkNode(t, ks[0], v, dir, order, depth, false, r))
  }

  /** `walkSiblings` (tree/tree.go:102-136): later siblings, then (PostOrder) the parent, then upwards. */
  function WalkSiblings(t: Arena, n: nat, v: Visitor, dir: WalkDirection, order: WalkOrder,
                        depth: int, r: Run): Run
    requires Valid(t) && n < |t|
    decreases t[n].depth
  {
    assert ValidNode(t, n);
    match t[n].parent
    case None => r
    case Some(p) =>
      OrderedMembers(t[p].children, dir);
      var r1 := SiblingLoop(t, p, n, Ordered(t[p].children, dir), true, v, dir, order, depth, r);
      var r2 := if order == PostOrder then CallVisitor(v, r1, Visit(p, depth - 1)) else r1;
      WalkSiblings(t, p, v, dir, order, depth - 1, r2)
  }

  /** `Walk` (tree/tree.go:42-49): the walk of the whole tree resumed at `n`. */
  function Walk(t: Arena, n: nat, v: Visitor, dir: WalkDirection, order: WalkOrder,
                depth: int, skip: bool): Run
    requires Valid(t) && n < |t|
  {
    var r1 := WalkNode(t, n, v, dir, order, depth, skip, Run([], false));
    WalkSiblings(t, n, v, dir, order, depth, r1)
  }

  // ---------------------------------------------------------------------------
  // Reference traversal: the visits a walk makes when the visitor never refuses.
  // ---------------------------------------------------------------------------

  /** Classic pre- or post-order of the subtree of `n`, with the depth passed to each visit. */
  function Subtree(t: Arena, n: nat, dir: WalkDirection, order: WalkOrder, depth: int): seq<Visit>
    requires Valid(t) && n < |t|
    decreases |t| - t[n].depth, 1
  {
    assert ValidNode(t, n);
    OrderedMembers(t[n].children, dir);
    var kids := SubtreeList(t, n, Ordered(t[n].children, dir), dir, order, depth + 1);
    if order == PreOrder then [Visit(n, depth)] + kids else kids + [Visit(n, depth)]
  }

  function SubtreeList(t: Arena, p: nat, ks: seq<nat>, dir: WalkDirection, order: WalkOrder,
                       depth: int): seq<Visit>
    requires Valid(t) && p < |t|
    requires forall c | c in ks :: c in t[p].children
    decreases |t| - t[p].depth, 0, |ks|
  {
    if ks == [] then []
    else
      assert ValidNode(t, p) && ks[0] in ks;
      Subtree(t, ks[0], dir, order, depth) + SubtreeList(t, p, ks[1..], dir, order, depth)
  }

  /** What a walk visits after the subtree of `n`: later siblings' subtrees, the parent (PostOrder), and so on up. */
  function Continuation(t: Arena, n: nat, dir: WalkDirection, order: WalkOrder, depth: int): seq<Visit>
    requires Valid(t) && n < |t|
    decreases t[n].depth
  {
    assert ValidNode(t, n);
    match t[n].parent
    case None => []
    case Some(p) =>
      OrderedMembers(t[p].children, dir);
      SubtreeList(t, p, After(Ordered(t[p].children, dir), n), dir, order, depth)
      + (if order == PostOrder then [Visit(p, depth - 1)] else [])
      + Continuation(t, p, dir, order, depth - 1)
  }

  /** The visits of a walk started at `n` whose visitor never refuses. */
  function Trace(t: Arena, n: nat, dir: WalkDirection, order: WalkOrder, depth: int, skip: bool): seq<Visit>
    requires Valid(t) && n < |t|
  {
    (if skip then [] else Subtree(t, n, dir, order, depth)) + Continuation(t, n, dir, order, depth)
  }

  /** Feeding a sequence of visits to the visitor one by one. */
  function Feed(v: Visitor, r: Run, s: seq<Visit>): Run
    decreases |s|
  {
    if s == [] then r else Feed(v, CallVisitor(v, r, s[0]), s[1..])
  }

  function Nodes(s: seq<Visit>): (r: seq<nat>)
    ensures |r| == |s| && forall i | 0 <= i < |s| :: r[i] == s[i].node
  {
    seq(|s|, i requires 0 <= i < |s| => s[i].node)
  }

  /** The root of the tree containing `n`. */
  function RootOf(t: Arena, n: nat): (r: nat)
    requires Valid(t) && n < |t|
    ensures r < |t| && t[r].parent.None?
    decreases t[n].depth
  {
    assert ValidNode(t, n);
    match t[n].parent
    case None => n
    case Some(p) => RootOf(t, p)
  }

  /** `x` is `n` or lies below `n`. */
  predicate InSubtree(t: Arena, x: nat, n: nat)
    requires Valid(t) && x < |t|
    decreases t[x].depth
  {
    assert ValidNode(t, x);
    x == n || (t[x].parent.Some? && InSubtree(t, t[x].parent.value, n))
  }

  predicate IsSuffix(a: seq<Visit>, b: seq<Visit>)
  {
    |a| <= |b| && b[|b| - |a|..] == a
  }

  // ---------------------------------------------------------------------------
  // Sequence facts used below.
  // ---------------------------------------------------------------------------

  lemma {:induction false} AfterSplit(ks: seq<nat>, x: nat) returns (pre: seq<nat>)
    requires x in ks
    ensures ks == pre + [x] + After(ks, x)
    ensures forall y | y in pre :: y in ks
  {
    if ks[0] == x {
      pre := [];
    } else {
      var pre' := AfterSplit(ks[1..], x);
      pre := [ks[0]] + pre';
      assert ks == [ks[0]] + ks[1..];
    }
  }

  lemma {:induction false} AfterExcludes(ks: seq<nat>, x: nat)
    requires NoDup(ks)
    ensures x !in After(ks, x)
  {
    if ks != [] && ks[0] != x {
      assert NoDup(ks[1..]) by {
        forall i, j | 0 <= i < j < |ks[1..]| ensures ks[1..][i] != ks[1..][j] {
          assert ks[1..][i] == ks[i + 1] && ks[1..][j] == ks[j + 1];
        }
      }
      AfterExcludes(ks[1..], x);
    } else if ks != [] {
      forall y | y in ks[1..] ensures y != x {
        var j :| 0 <= j < |ks[1..]| && ks[1..][j] == y;
        assert ks[j + 1] == y;
      }
    }
  }

  lemma SuffixOfAppend(x: seq<Visit>, a: seq<Visit>)
    ensures IsSuffix(a, x + a)
  {
    assert (x + a)[|x|..] == a;
  }

  lemma SuffixTrans(a: seq<Visit>, b: seq<Visit>, c: seq<Visit>)
    requires IsSuffix(a, b) && IsSuffix(b, c)
    ensures IsSuffix(a, c)
  {
    assert c[|c| - |a|..] == c[|c| - |b|..][|b| - |a|..];
  }

  // ---------------------------------------------------------------------------
  // The walk feeds exactly the reference traversal to the visitor.
  // ---------------------------------------------------------------------------

  lemma {:induction false} FeedAppend(v: Visitor, r: Run, a: seq<Visit>, b: seq<Visit>)
    ensures Feed(v, r, a + b) == Feed(v, Feed(v, r, a), b)
    decreases |a|
  {
    if a == [] {
      assert a + b == b;
    } else {
      assert (a + b)[1..] == a[1..] + b;
      FeedAppend(v, CallVisitor(v, r, a[0]), a[1..], b);
    }
  }

  lemma {:induction false} FeedStopped(v: Visitor, r: Run, s: seq<Visit>)
    requires r.stopped
    ensures Feed(v, r, s) == r
    decreases |s|
  {
    if s != [] {
      FeedStopped(v, r, s[1..]);
    }
  }

  lemma {:induction false} WalkNodeIsFeed(t: Arena, n: nat, v: Visitor, dir: WalkDirection, order: WalkOrder,
                                           depth: int, skip: bool, r: Run)
    requires Valid(t) && n < |t|
    ensures WalkNode(t, n, v, dir, order, depth, skip, r)
         == Feed(v, r, if skip then [] else Subtree(t, n, dir, order, depth))
    decreases |t| - t[n].depth, 1, 0
  {
    if !skip {
      assert ValidNode(t, n);
      var ks := Ordered(t[n].children, dir);
      var kids := SubtreeList(t, n, ks, dir, order, depth + 1);
      var r1 := if order == PreOrder then CallVisitor(v, r, Visit(n, depth)) else r;
      WalkChildrenIsFeed(t, n, ks, v, dir, order, depth + 1, r1);
      if order == PreOrder {
        FeedAppend(v, r, [Visit(n, depth)], kids);
      } else {
        FeedAppend(v, r, kids, [Visit(n, depth)]);
      }
    }
  }

  lemma {:induction false} WalkChildrenIsFeed(t: Arena, p: nat, ks: seq<nat>, v: Visitor, dir: WalkDirection,
                                               order: WalkOrder, depth: int, r: Run)
    requires Valid(t) && p < |t|
    requires forall c | c in ks :: c in t[p].children
    ensures WalkChildren(t, p, ks, v, dir, order, depth, r) == Feed(v, r, SubtreeList(t, p, ks, dir, order, depth))
    decreases |t| - t[p].depth, 0, |ks|
  {
    if ks != [] {
      assert ValidNode(t, p);
      WalkNodeIsFeed(t, ks[0], v, dir, order, depth, false, r);
      WalkChildrenIsFeed(t, p, ks[1..], v, dir, order, depth, WalkNode(t, ks[0], v, dir, order, depth, false, r));
      FeedAppend(v, r, Subtree(t, ks[0], dir, order, depth), SubtreeList(t, p, ks[1..], dir, order, depth));
    }
  }

  lemma {:induction false} SiblingLoopIsFeed(t: Arena, p: nat, n: nat, ks: seq<nat>, ignore: bool, v: Visitor,
                                              dir: WalkDirection, order: WalkOrder, depth: int, r: Run)
    requires Valid(t) && p < |t|
    requires forall c | c in ks :: c in t[p].children
    ensures SiblingLoop(t, p, n, ks, ignore, v, dir, order, depth, r)
         == Feed(v, r, SubtreeList(t, p, if ignore then After(ks, n) else ks, dir, order, depth))
    decreases |ks|
  {
    if ks == [] {
    } else if ignore {
      SiblingLoopIsFeed(t, p, n, ks[1..], ks[0] != n, v, dir, order, depth, r);
    } else {
      assert ValidNode(t, p) && ks[0] in ks;
      var r1 := WalkNode(t, ks[0], v, dir, order, depth, false, r);
      WalkNodeIsFeed(t, ks[0], v, dir, order, depth, false, r);
      SiblingLoopIsFeed(t, p, n, ks[1..], false, v, dir, order, depth, r1);
      FeedAppend(v, r, Subtree(t, ks[0], dir, order, depth), SubtreeList(t, p, ks[1..], dir, order, depth));
    }
  }

  lemma {:induction false} WalkSiblingsIsFeed(t: Arena, n: nat, v: Visitor, dir: WalkDirection, order: WalkOrder,
                                               depth: int, r: Run)
    requires Valid(t) && n < |t|
    ensures WalkSiblings(t, n, v, dir, order, depth, r) == Feed(v, r, Continuation(t, n, dir, order, depth))
    decreases t[n].depth
  {
    assert ValidNode(t, n);
    match t[n].parent
    case None =>
    case Some(p) =>
      var ks := Ordered(t[p].children, dir);
      OrderedMembers(t[p].children, dir);
      var sibs := SubtreeList(t, p, After(ks, n), dir, order, depth);
      var up := if order == PostOrder then [Visit(p, depth - 1)] else [];
      var r1 := SiblingLoop(t, p, n, ks, true, v, dir, order, depth, r);
      var r2 := if order == PostOrder then CallVisitor(v, r1, Visit(p, depth - 1)) else r1;
      var cont := Continuation(t, p, dir, order, depth - 1);
      SiblingLoopIsFeed(t, p, n, ks, true, v, dir, order, depth, r);
      assert Feed(v, r1, up) == r2 by {
        assert order == PostOrder ==> up[1..] == [];
      }
      WalkSiblingsIsFeed(t, p, v, dir, order, depth - 1, r2);
      ContinuationStep(t, n, p, dir, order, depth, depth - 1);
      FeedThree(v, r, sibs, up, cont, r1, r2);
      assert WalkSiblings(t, n, v, dir, order, depth, r) == WalkSiblings(t, p, v, dir, order, depth - 1, r2);
  }

  lemma FeedThree(v: Visitor, r: Run, a: seq<Visit>, b: seq<Visit>, c: seq<Visit>, r1: Run, r2: Run)
    requires Feed(v, r, a) == r1 && Feed(v, r1, b) == r2
    ensures Feed(v, r, a + b + c) == Feed(v, r2, c)
  {
    FeedAppend(v, r, a, b);
    FeedAppend(v, r, a + b, c);
  }

  /** `Walk` calls the visitor on the reference traversal, one visit at a time, until it refuses. */
  lemma WalkIsFeed(t: Arena, n: nat, v: Visitor, dir: WalkDirection, order: WalkOrder, depth: int, skip: bool)
    requires Valid(t) && n < |t|
    ensures Walk(t, n, v, dir, order, depth, skip) == Feed(v, Run([], false), Trace(t, n, dir, order, depth, skip))
  {
    var r0 := Run([], false);
    WalkNodeIsFeed(t, n, v, dir, order, depth, skip, r0);
    WalkSiblingsIsFeed(t, n, v, dir, order, depth, WalkNode(t, n, v, dir, order, depth, skip, r0));
    FeedAppend(v, r0, if skip then [] else Subtree(t, n, dir, order, depth), Continuation(t, n, dir, order, depth));
  }

  lemma {:induction false} FeedAllAccepted(v: Visitor, acc: seq<Visit>, s: seq<Visit>)
    requires forall i | 0 <= i < |s| :: v(acc + s[..i], s[i])
    ensures Feed(v, Run(acc, false), s) == Run(acc + s, false)
    decreases |s|
  {
    if s == [] {
      assert acc + s == acc;
    } else {
      assert s[..0] == [] && acc + s[..0] == acc;
      assert v(acc + s[..0], s[0]);
      var acc' := acc + [s[0]];
      forall i | 0 <= i < |s[1..]| ensures v(acc' + s[1..][..i], s[1..][i]) {
        assert acc' + s[1..][..i] == acc + s[..i + 1];
        assert s[1..][i] == s[i + 1];
        assert v(acc + s[..i + 1], s[i + 1]);
      }
      FeedAllAccepted(v, acc', s[1..]);
      assert acc' + s[1..] == acc + s;
    }
  }

  lemma FeedStopsAtRefusal(v: Visitor, acc: seq<Visit>, s: seq<Visit>, k: nat)
    requires k < |s|
    requires forall i | 0 <= i < k :: v(acc + s[..i], s[i])
    requires !v(acc + s[..k], s[k])
    ensures Feed(v, Run(acc, false), s) == Run(acc + s[..k + 1], true)
  {
    SplitAt(s, k);
    FeedAppend(v, Run(acc, false), s[..k], s[k..]);
    FeedPrefixAccepted(v, acc, s, k);
    FeedRefusedFirst(v, acc + s[..k], s[k..]);
    SnocSlice(acc, s, k);
  }

  lemma SplitAt(s: seq<Visit>, k: nat)
    requires k < |s|
    ensures s == s[..k] + s[k..] && s[k..][0] == s[k]
  {
  }

  lemma SnocSlice(acc: seq<Visit>, s: seq<Visit>, k: nat)
    requires k < |s|
    ensures acc + s[..k] + [s[k..][0]] == acc + s[..k + 1]
  {
    assert s[..k + 1] == s[..k] + [s[k]];
  }

  /** The visits before the first refusal are all accepted. */
  lemma FeedPrefixAccepted(v: Visitor, acc: seq<Visit>, s: seq<Visit>, k: nat)
    requires k <= |s|
    requires forall i | 0 <= i < k :: v(acc + s[..i], s[i])
    ensures Feed(v, Run(acc, false), s[..k]) == Run(acc + s[..k], false)
  {
    var pre := s[..k];
    forall i | 0 <= i < |pre| ensures v(acc + pre[..i], pre[i]) {
      assert pre[..i] == s[..i] && pre[i] == s[i];
    }
    FeedAllAccepted(v, acc, pre);
  }

  /** A refused first visit is recorded, and nothing after it is. */
  lemma FeedRefusedFirst(v: Visitor, acc: seq<Visit>, s: seq<Visit>)
    requires s != [] && !v(acc, s[0])
    ensures Feed(v, Run(acc, false), s) == Run(acc + [s[0]], true)
  {
    FeedStopped(v, Run(acc + [s[0]], true), s[1..]);
  }

  /**
   * A visitor that accepts every call sees the whole reference traversal, in order, and the walk ends normally.
   */
  lemma WalkWithoutRefusal(t: Arena, n: nat, v: Visitor, dir: WalkDirection, order: WalkOrder, depth: int, skip: bool)
    requires Valid(t) && n < |t|
    requires var tr := Trace(t, n, dir, order, depth, skip);
             forall i | 0 <= i < |tr| :: v(tr[..i], tr[i])
    ensures Walk(t, n, v, dir, order, depth, skip) == Run(Trace(t, n, dir, order, depth, skip), false)
  {
    var tr := Trace(t, n, dir, order, depth, skip);
    WalkIsFeed(t, n, v, dir, order, depth, skip);
    forall i | 0 <= i < |tr| ensures v([] + tr[..i], tr[i]) {
      assert [] + tr[..i] == tr[..i];
    }
    FeedAllAccepted(v, [], tr);
    assert [] + tr == tr;
  }

  /**
   * If the visitor first refuses on call number k + 1, the walk makes exactly k + 1 calls, on the first
   * k + 1 visits of the reference traversal, and then stops.
   */
  lemma WalkStopsAtRefusal(t: Arena, n: nat, v: Visitor, dir: WalkDirection, order: WalkOrder, depth: int,
                           skip: bool, k: nat)
    requires Valid(t) && n < |t|
    requires var tr := Trace(t, n, dir, order, depth, skip);
             && k < |tr|
             && (forall i | 0 <= i < k :: v(tr[..i], tr[i]))
             && !v(tr[..k], tr[k])
    ensures Walk(t, n, v, dir, order, depth, skip) == Run(Trace(t, n, dir, order, depth, skip)[..k + 1], true)
  {
    var tr := Trace(t, n, dir, order, depth, skip);
    WalkIsFeed(t, n, v, dir, order, depth, skip);
    forall i | 0 <= i <= k ensures [] + tr[..i] == tr[..i] {
    }
    FeedStopsAtRefusal(v, [], tr, k);
    assert [] + tr[..k + 1] == tr[..k + 1];
  }

  // ---------------------------------------------------------------------------
  // Shape of the reference traversal.
  // ---------------------------------------------------------------------------

  lemma {:induction false} SubtreeListAppend(t: Arena, p: nat, a: seq<nat>, b: seq<nat>, dir: WalkDirection,
                                              order: WalkOrder, depth: int)
    requires Valid(t) && p < |t|
    requires forall c | c in a :: c in t[p].children
    requires forall c | c in b :: c in t[p].children
    ensures forall c | c in a + b :: c in t[p].children
    ensures SubtreeList(t, p, a + b, dir, order, depth)
         == SubtreeList(t, p, a, dir, order, depth) + SubtreeList(t, p, b, dir, order, depth)
    decreases |a|
  {
    if a == [] {
      assert a + b == b;
    } else {
      assert ValidNode(t, p) && a[0] in a;
      var ab := a + b;
      assert ab[0] == a[0] && ab[1..] == a[1..] + b;
      assert forall c | c in a[1..] :: c in a;
      SubtreeListAppend(t, p, a[1..], b, dir, order, depth);
      Assoc(Subtree(t, a[0], dir, order, depth), SubtreeList(t, p, a[1..], dir, order, depth),
             SubtreeList(t, p, b, dir, order, depth));
    }
  }

  lemma SubtreeListAround(t: Arena, p: nat, n: nat, dir: WalkDirection, order: WalkOrder, depth: int)
    returns (pre: seq<nat>)
    requires Valid(t) && p < |t| && n in t[p].children
    ensures n < |t|
    ensures forall c | c in pre :: c in t[p].children
    ensures SubtreeList(t, p, Ordered(t[p].children, dir), dir, order, depth)
         == SubtreeList(t, p, pre, dir, order, depth) + Subtree(t, n, dir, order, depth)
            + SubtreeList(t, p, After(Ordered(t[p].children, dir), n), dir, order, depth)
  {
    assert ValidNode(t, p);
    var ks := Ordered(t[p].children, dir);
    OrderedMembers(t[p].children, dir);
    pre := AfterSplit(ks, n);
    var rest := After(ks, n);
    SubtreeListOne(t, p, n, dir, order, depth);
    SubtreeListAppend(t, p, pre, [n], dir, order, depth);
    SubtreeListAppend(t, p, pre + [n], rest, dir, order, depth);
  }

  lemma SubtreeListOne(t: Arena, p: nat, n: nat, dir: WalkDirection, order: WalkOrder, depth: int)
    requires Valid(t) && p < |t| && n in t[p].children
    ensures n < |t| && forall c | c in [n] :: c in t[p].children
    ensures SubtreeList(t, p, [n], dir, order, depth) == Subtree(t, n, dir, order, depth)
  {
    assert ValidNode(t, p);
    assert [n][1..] == [];
  }

  /** What follows `n` (at depth `depth`) unfolded once; its parent `p` is at depth `pd`, one less. */
  lemma ContinuationStep(t: Arena, n: nat, p: nat, dir: WalkDirection, order: WalkOrder, depth: int, pd: int)
    requires Valid(t) && n < |t| && t[n].parent == Some(p) && depth == pd + 1
    ensures p < |t| && n in t[p].children
    ensures Continuation(t, n, dir, order, depth)
         == SubtreeList(t, p, After(Ordered(t[p].children, dir), n), dir, order, depth)
            + (if order == PostOrder then [Visit(p, pd)] else [])
            + Continuation(t, p, dir, order, pd)
  {
    assert ValidNode(t, n);
  }

  /** The subtree of `p` at depth `pd` unfolded once; its children are at depth `cd`, one deeper. */
  lemma SubtreeStep(t: Arena, p: nat, dir: WalkDirection, order: WalkOrder, pd: int, cd: int)
    requires Valid(t) && p < |t| && cd == pd + 1
    ensures forall c | c in Ordered(t[p].children, dir) :: c in t[p].children
    ensures Subtree(t, p, dir, order, pd)
         == (if order == PreOrder then [Visit(p, pd)] else [])
            + SubtreeList(t, p, Ordered(t[p].children, dir), dir, order, cd)
            + (if order == PostOrder then [Visit(p, pd)] else [])
  {
    assert ValidNode(t, p);
    OrderedMembers(t[p].children, dir);
  }

  /** One step up: the walk resumed at `n` is a suffix of the walk resumed at its parent. */
  lemma ResumeStep(t: Arena, n: nat, p: nat, dir: WalkDirection, order: WalkOrder, depth: int)
    requires Valid(t) && n < |t| && t[n].parent == Some(p)
    ensures p < |t|
    ensures IsSuffix(Trace(t, n, dir, order, depth, false), Trace(t, p, dir, order, depth - 1, false))
  {
    ContinuationStep(t, n, p, dir, order, depth, depth - 1);
    SubtreeStep(t, p, dir, order, depth - 1, depth);
    var pre := SubtreeListAround(t, p, n, dir, order, depth);
    var sub := Subtree(t, n, dir, order, depth);
    var sibs := SubtreeList(t, p, After(Ordered(t[p].children, dir), n), dir, order, depth);
    var down: seq<Visit> := if order == PreOrder then [Visit(p, depth - 1)] else [];
    var up: seq<Visit> := if order == PostOrder then [Visit(p, depth - 1)] else [];
    var cont := Continuation(t, p, dir, order, depth - 1);
    var head := down + SubtreeList(t, p, pre, dir, order, depth);
    assert Trace(t, n, dir, order, depth, false) == sub + (sibs + up + cont);
    assert Trace(t, p, dir, order, depth - 1, false)
        == down + (SubtreeList(t, p, pre, dir, order, depth) + sub + sibs) + up + cont;
    Regroup(down, SubtreeList(t, p, pre, dir, order, depth), sub, sibs, up, cont);
    SuffixOfAppend(head, sub + (sibs + up + cont));
  }

  lemma Regroup(a: seq<Visit>, b: seq<Visit>, c: seq<Visit>, d: seq<Visit>, e: seq<Visit>, f: seq<Visit>)
    ensures a + (b + c + d) + e + f == (a + b) + (c + (d + e + f))
  {
  }

  /**
   * Walk resumed at `n` (with its true depth) is the classic traversal of the whole tree from the
   * point where it reaches `n`: its visits are a suffix of the traversal from the root.
   */
  lemma {:induction false} TraceResumesRootTraversal(t: Arena, n: nat, dir: WalkDirection, order: WalkOrder)
    requires Valid(t) && n < |t|
    ensures IsSuffix(Trace(t, n, dir, order, t[n].depth, false), Subtree(t, RootOf(t, n), dir, order, 0))
    decreases t[n].depth
  {
    assert ValidNode(t, n);
    match t[n].parent
    case None =>
      WalkFromRoot(t, n, dir, order);
      SuffixOfAppend([], Subtree(t, n, dir, order, 0));
    case Some(p) =>
      TraceResumesRootTraversal(t, p, dir, order);
      ResumeUp(t, n, p, dir, order);
  }

  /** The suffix property of `TraceResumesRootTraversal` carries over from a parent to its child. */
  lemma ResumeUp(t: Arena, n: nat, p: nat, dir: WalkDirection, order: WalkOrder)
    requires Valid(t) && n < |t| && t[n].parent == Some(p) && p < |t|
    requires IsSuffix(Trace(t, p, dir, order, t[p].depth, false), Subtree(t, RootOf(t, p), dir, order, 0))
    ensures IsSuffix(Trace(t, n, dir, order, t[n].depth, false), Subtree(t, RootOf(t, n), dir, order, 0))
  {
    assert ValidNode(t, n);
    var d := t[n].depth;
    assert t[p].depth == d - 1;
    ResumeStep(t, n, p, dir, order, d);
    var above := Trace(t, p, dir, order, d - 1, false);
    assert above == Trace(t, p, dir, order, t[p].depth, false);
    assert RootOf(t, n) == RootOf(t, p);
    SuffixTrans(Trace(t, n, dir, order, d, false), above, Subtree(t, RootOf(t, p), dir, order, 0));
  }

  /** Started at a root, the walk is exactly the classic traversal of that tree. */
  lemma WalkFromRoot(t: Arena, n: nat, dir: WalkDirection, order: WalkOrder)
    requires Valid(t) && n < |t| && t[n].parent.None?
    ensures Trace(t, n, dir, order, 0, false) == Subtree(t, n, dir, order, 0)
  {
    assert Continuation(t, n, dir, order, 0) == [];
  }

  lemma {:induction false} SubtreeDepths(t: Arena, n: nat, dir: WalkDirection, order: WalkOrder, depth: int)
    requires Valid(t) && n < |t|
    ensures forall w | w in Subtree(t, n, dir, order, depth) ::
              w.node < |t| && w.depth - t[w.node].depth == depth - t[n].depth
    decreases |t| - t[n].depth, 1
  {
    assert ValidNode(t, n);
    SubtreeListDepths(t, n, Ordered(t[n].children, dir), dir, order, depth + 1);
  }

  lemma {:induction false} SubtreeListDepths(t: Arena, p: nat, ks: seq<nat>, dir: WalkDirection, order: WalkOrder,
                                              depth: int)
    requires Valid(t) && p < |t|
    requires forall c | c in ks :: c in t[p].children
    ensures forall w | w in SubtreeList(t, p, ks, dir, order, depth) ::
              w.node < |t| && w.depth - t[w.node].depth == depth - t[p].depth - 1
    decreases |t| - t[p].depth, 0, |ks|
  {
    if ks != [] {
      assert ValidNode(t, p);
      SubtreeDepths(t, ks[0], dir, order, depth);
      SubtreeListDepths(t, p, ks[1..], dir, order, depth);
    }
  }

  lemma {:induction false} ContinuationDepths(t: Arena, n: nat, dir: WalkDirection, order: WalkOrder, depth: int)
    requires Valid(t) && n < |t|
    ensures forall w | w in Continuation(t, n, dir, order, depth) ::
              w.node < |t| && w.depth - t[w.node].depth == depth - t[n].depth
    decreases t[n].depth
  {
    assert ValidNode(t, n);
    match t[n].parent
    case None =>
    case Some(p) =>
      SubtreeListDepths(t, p, After(Ordered(t[p].children, dir), n), dir, order, depth);
      ContinuationDepths(t, p, dir, order, depth - 1);
  }

  /**
   * Children are visited at depth + 1, siblings at the same depth and parents at depth - 1, so every
   * visit reports the node's true depth shifted by the same offset as the start node's.
   */
  lemma TraceDepths(t: Arena, n: nat, dir: WalkDirection, order: WalkOrder, depth: int, skip: bool)
    requires Valid(t) && n < |t|
    ensures forall w | w in Trace(t, n, dir, order, depth, skip) ::
              w.node < |t| && w.depth - t[w.node].depth == depth - t[n].depth
  {
    SubtreeDepths(t, n, dir, order, depth);
    ContinuationDepths(t, n, dir, order, depth);
  }

  // ---------------------------------------------------------------------------
  // Skipping omits exactly the subtree of the start node.
  // ---------------------------------------------------------------------------

  lemma {:induction false} InSubtreeDepth(t: Arena, x: nat, n: nat)
    requires Valid(t) && x < |t| && InSubtree(t, x, n)
    ensures n < |t| && t[n].depth <= t[x].depth
    ensures t[n].depth == t[x].depth ==> x == n
    decreases t[x].depth
  {
    assert ValidNode(t, x);
    if x != n {
      InSubtreeDepth(t, t[x].parent.value, n);
    }
  }

  lemma {:induction false} InSubtreeStep(t: Arena, x: nat, c: nat, p: nat)
    requires Valid(t) && x < |t| && c < |t| && t[c].parent == Some(p) && InSubtree(t, x, c)
    ensures InSubtree(t, x, p)
    decreases t[x].depth
  {
    assert ValidNode(t, x);
    if x != c {
      InSubtreeStep(t, t[x].parent.value, c, p);
    } else {
      assert ValidNode(t, p);
    }
  }

  /** Two nodes at the same depth above `x` are the same node. */
  lemma {:induction false} AncestorAtDepthUnique(t: Arena, x: nat, a: nat, b: nat)
    requires Valid(t) && x < |t| && InSubtree(t, x, a) && InSubtree(t, x, b)
    requires a < |t| && b < |t| && t[a].depth == t[b].depth
    ensures a == b
    decreases t[x].depth
  {
    assert ValidNode(t, x);
    if x == a {
      InSubtreeDepth(t, x, b);
    } else if x == b {
      InSubtreeDepth(t, x, a);
    } else {
      AncestorAtDepthUnique(t, t[x].parent.value, a, b);
    }
  }

  lemma {:induction false} SubtreeOnlyDescendants(t: Arena, n: nat, dir: WalkDirection, order: WalkOrder, depth: int)
    requires Valid(t) && n < |t|
    ensures forall w | w in Subtree(t, n, dir, order, depth) :: w.node < |t| && InSubtree(t, w.node, n)
    decreases |t| - t[n].depth, 1
  {
    assert ValidNode(t, n);
    SubtreeListOnlyDescendants(t, n, Ordered(t[n].children, dir), dir, order, depth + 1);
  }

  lemma {:induction false} SubtreeListOnlyDescendants(t: Arena, p: nat, ks: seq<nat>, dir: WalkDirection,
                                                       order: WalkOrder, depth: int)
    requires Valid(t) && p < |t|
    requires forall c | c in ks :: c in t[p].children
    ensures forall w | w in SubtreeList(t, p, ks, dir, order, depth) ::
              w.node < |t| && w.node != p && InSubtree(t, w.node, p)
    decreases |t| - t[p].depth, 0, |ks|
  {
    if ks != [] {
      assert ValidNode(t, p);
      var c := ks[0];
      SubtreeOnlyDescendants(t, c, dir, order, depth);
      forall w | w in Subtree(t, c, dir, order, depth) ensures w.node != p && InSubtree(t, w.node, p) {
        InSubtreeStep(t, w.node, c, p);
        InSubtreeDepth(t, w.node, c);
      }
      SubtreeListOnlyDescendants(t, p, ks[1..], dir, order, depth);
    }
  }

  lemma {:induction false} SubtreeListContains(t: Arena, p: nat, ks: seq<nat>, c: nat, dir: WalkDirection,
                                                order: WalkOrder, depth: int)
    requires Valid(t) && p < |t|
    requires forall k | k in ks :: k in t[p].children
    requires c in ks
    ensures c < |t|
    ensures forall w | w in Subtree(t, c, dir, order, depth) :: w in SubtreeList(t, p, ks, dir, order, depth)
    decreases |ks|
  {
    assert ValidNode(t, p);
    if ks[0] != c {
      SubtreeListContains(t, p, ks[1..], c, dir, order, depth);
    }
  }

  lemma {:induction false} SubtreeNested(t: Arena, n: nat, x: nat, dir: WalkDirection, order: WalkOrder, depth: int)
    requires Valid(t) && n < |t| && x < |t| && InSubtree(t, x, n)
    ensures forall w | w in Subtree(t, x, dir, order, depth + t[x].depth - t[n].depth) ::
              w in Subtree(t, n, dir, order, depth)
    decreases t[x].depth
  {
    assert ValidNode(t, x);
    if x != n {
      var q := t[x].parent.value;
      var dq := depth + t[q].depth - t[n].depth;
      var dx := depth + t[x].depth - t[n].depth;
      SubtreeNested(t, n, q, dir, order, depth);
      NestedStep(t, n, q, x, dir, order, depth, dq, dx);
    }
  }

  /** One step of `SubtreeNested`: what lies in the subtree of `q` lies in that of `n`, so does what lies below its child `x`. */
  lemma NestedStep(t: Arena, n: nat, q: nat, x: nat, dir: WalkDirection, order: WalkOrder, depth: int, dq: int, dx: int)
    requires Valid(t) && n < |t| && q < |t| && x < |t| && t[x].parent == Some(q) && dx == dq + 1
    requires forall w | w in Subtree(t, q, dir, order, dq) :: w in Subtree(t, n, dir, order, depth)
    ensures forall w | w in Subtree(t, x, dir, order, dx) :: w in Subtree(t, n, dir, order, depth)
  {
    assert ValidNode(t, x);
    SubtreeStep(t, q, dir, order, dq, dx);
    var kids := SubtreeList(t, q, Ordered(t[q].children, dir), dir, order, dx);
    OrderedMembers(t[q].children, dir);
    SubtreeListContains(t, q, Ordered(t[q].children, dir), x, dir, order, dx);
    forall w | w in Subtree(t, x, dir, order, dx) ensures w in Subtree(t, n, dir, order, depth) {
      assert w in kids;
      assert w in Subtree(t, q, dir, order, dq);
    }
  }

  lemma VisitInOwnSubtree(t: Arena, x: nat, dir: WalkDirection, order: WalkOrder, depth: int) returns (w: Visit)
    requires Valid(t) && x < |t|
    ensures w in Subtree(t, x, dir, order, depth) && w.node == x
  {
    w := Visit(x, depth);
  }

  lemma NodeOfMember(s: seq<Visit>, w: Visit)
    requires w in s
    ensures w.node in Nodes(s)
  {
    var i :| 0 <= i < |s| && s[i] == w;
    assert Nodes(s)[i] == w.node;
  }

  lemma SubtreeNodeIsDescendant(t: Arena, n: nat, x: nat, dir: WalkDirection, order: WalkOrder, depth: int)
    requires Valid(t) && n < |t|
    requires x in Nodes(Subtree(t, n, dir, order, depth))
    ensures x < |t| && InSubtree(t, x, n)
  {
    var s := Subtree(t, n, dir, order, depth);
    SubtreeOnlyDescendants(t, n, dir, order, depth);
    var i :| 0 <= i < |s| && Nodes(s)[i] == x;
    assert s[i] in s;
  }

  lemma DescendantIsSubtreeNode(t: Arena, n: nat, x: nat, dir: WalkDirection, order: WalkOrder, depth: int)
    requires Valid(t) && n < |t| && x < |t| && InSubtree(t, x, n)
    ensures x in Nodes(Subtree(t, n, dir, order, depth))
  {
    var dx := depth + t[x].depth - t[n].depth;
    SubtreeNested(t, n, x, dir, order, depth);
    var w := VisitInOwnSubtree(t, x, dir, order, dx);
    assert w in Subtree(t, n, dir, order, depth);
    NodeOfMember(Subtree(t, n, dir, order, depth), w);
  }

  /** The traversal of `n`'s subtree visits exactly `n` and its descendants. */
  lemma SubtreeNodes(t: Arena, n: nat, dir: WalkDirection, order: WalkOrder, depth: int)
    requires Valid(t) && n < |t|
    ensures forall x: nat | x < |t| :: x in Nodes(Subtree(t, n, dir, order, depth)) <==> InSubtree(t, x, n)
  {
    forall x: nat | x < |t| ensures x in Nodes(Subtree(t, n, dir, order, depth)) <==> InSubtree(t, x, n) {
      if x in Nodes(Subtree(t, n, dir, order, depth)) {
        SubtreeNodeIsDescendant(t, n, x, dir, order, depth);
      }
      if InSubtree(t, x, n) {
        DescendantIsSubtreeNode(t, n, x, dir, order, depth);
      }
    }
  }

  /** Nothing the walk visits after `n`'s subtree lies in that subtree. */
  lemma {:induction false} ContinuationAvoidsSubtree(t: Arena, n: nat, dir: WalkDirection, order: WalkOrder, depth: int)
    requires Valid(t) && n < |t|
    ensures forall w | w in Continuation(t, n, dir, order, depth) :: w.node < |t| && !InSubtree(t, w.node, n)
    decreases t[n].depth
  {
    assert ValidNode(t, n);
    match t[n].parent
    case None =>
    case Some(p) =>
      ContinuationStep(t, n, p, dir, order, depth, depth - 1);
      SiblingsAvoidSubtree(t, n, p, dir, order, depth);
      ContinuationAvoidsSubtree(t, p, dir, order, depth - 1);
      AncestorsAvoidSubtree(t, n, p, Continuation(t, p, dir, order, depth - 1));
  }

  /** The later siblings' subtrees hold nothing below `n`. */
  lemma SiblingsAvoidSubtree(t: Arena, n: nat, p: nat, dir: WalkDirection, order: WalkOrder, depth: int)
    requires Valid(t) && n < |t| && t[n].parent == Some(p)
    ensures p < |t|
    ensures forall w | w in SubtreeList(t, p, After(Ordered(t[p].children, dir), n), dir, order, depth) ::
              w.node < |t| && !InSubtree(t, w.node, n)
  {
    assert ValidNode(t, n);
    assert ValidNode(t, p);
    var ks := Ordered(t[p].children, dir);
    var rest := After(ks, n);
    AfterExcludes(ks, n);
    forall w | w in SubtreeList(t, p, rest, dir, order, depth) ensures w.node < |t| && !InSubtree(t, w.node, n) {
      SubtreeListMember(t, p, rest, w, dir, order, depth);
      var c :| c in rest && w in Subtree(t, c, dir, order, depth);
      SubtreeOnlyDescendants(t, c, dir, order, depth);
      if InSubtree(t, w.node, n) {
        AncestorAtDepthUnique(t, w.node, c, n);
        assert false;
      }
    }
  }

  /** What avoids the subtree of the parent `p` avoids that of its child `n`, and `p` itself is not below `n`. */
  lemma AncestorsAvoidSubtree(t: Arena, n: nat, p: nat, s: seq<Visit>)
    requires Valid(t) && n < |t| && t[n].parent == Some(p)
    requires forall w | w in s :: w.node < |t| && !InSubtree(t, w.node, p)
    ensures p < |t| && !InSubtree(t, p, n)
    ensures forall w | w in s :: !InSubtree(t, w.node, n)
  {
    assert ValidNode(t, n);
    if InSubtree(t, p, n) {
      InSubtreeDepth(t, p, n);
      assert false;
    }
    forall w | w in s ensures !InSubtree(t, w.node, n) {
      if InSubtree(t, w.node, n) {
        InSubtreeStep(t, w.node, n, p);
        assert false;
      }
    }
  }

  lemma {:induction false} SubtreeListMember(t: Arena, p: nat, ks: seq<nat>, w: Visit, dir: WalkDirection,
                                              order: WalkOrder, depth: int)
    requires Valid(t) && p < |t|
    requires forall c | c in ks :: c in t[p].children
    requires w in SubtreeList(t, p, ks, dir, order, depth)
    ensures exists c | c in ks :: c < |t| && w in Subtree(t, c, dir, order, depth)
    decreases |ks|
  {
    assert ValidNode(t, p);
    if w !in Subtree(t, ks[0], dir, order, depth) {
      SubtreeListMember(t, p, ks[1..], w, dir, order, depth);
    }
  }

  /**
   * With `skip`, the walk omits exactly `n` and its descendants: the skipped trace is the full trace
   * minus the subtree traversal, which holds every descendant, and no descendant is visited later.
   */
  lemma SkipOmitsExactlySubtree(t: Arena, n: nat, dir: WalkDirection, order: WalkOrder, depth: int)
    requires Valid(t) && n < |t|
    ensures Trace(t, n, dir, order, depth, false) == Subtree(t, n, dir, order, depth) + Trace(t, n, dir, order, depth, true)
    ensures forall x: nat | x < |t| :: x in Nodes(Subtree(t, n, dir, order, depth)) <==> InSubtree(t, x, n)
    ensures forall w | w in Trace(t, n, dir, order, depth, true) :: w.node < |t| && !InSubtree(t, w.node, n)
  {
    var cont := Continuation(t, n, dir, order, depth);
    assert Trace(t, n, dir, order, depth, true) == cont by {
      assert [] + cont == cont;
    }
    SubtreeNodes(t, n, dir, order, depth);
    ContinuationAvoidsSubtree(t, n, dir, order, depth);
  }
}
