/**
 * `Next` of tree/tree.go:138-256: the stateless single step of the walk.
 *
 * The Go function defines `isLeaf`, `childAfter`, `leafUnder`, `nextPreOrder` and
 * `nextPostOrder` as closures; here they are methods over the arena of module `Tree`,
 * each proved against a specification function. The specification functions are then
 * tied to the reference traversal of `Tree`: stepping with `Next` from the first node of
 * a walk visits exactly the nodes the walk visits, in the same order, and then yields nil.
 */
module TreeNext {
  import opened Wrappers
  import opened Tree

  predicate IsLeaf(t: Arena, n: nat)
    requires n < |t|
  {
    |t[n].children| == 0
  }

  // Facts about one link of a valid arena, so that proofs need not unfold `ValidNode`.

  lemma ChildOf(t: Arena, n: nat, c: nat)
    requires Valid(t) && n < |t| && c in t[n].children
    ensures c < |t| && t[c].parent == Some(n) && t[c].depth == t[n].depth + 1 && t[c].depth < |t|
  {
    assert ValidNode(t, n);
    assert ValidNode(t, c);
  }

  lemma ParentOf(t: Arena, n: nat, p: nat)
    requires Valid(t) && n < |t| && t[n].parent == Some(p)
    ensures p < |t| && t[p].depth + 1 == t[n].depth && n in t[p].children && NoDup(t[p].children)
  {
    assert ValidNode(t, n);
    assert ValidNode(t, p);
  }

  /** The first child in walk direction: the first child (Forward) or the last one (Reverse). */
  function FirstChild(t: Arena, n: nat, dir: WalkDirection): (c: nat)
    requires Valid(t) && n < |t| && !IsLeaf(t, n)
    ensures c < |t|
  {
    var c := Ordered(t[n].children, dir)[0];
    ChildOf(t, n, c);
    c
  }

  lemma FirstChildOf(t: Arena, n: nat, dir: WalkDirection)
    requires Valid(t) && n < |t| && !IsLeaf(t, n)
    ensures var c := FirstChild(t, n, dir);
            && c == Ordered(t[n].children, dir)[0]
            && c == (if dir == Forward then t[n].children[0] else t[n].children[|t[n].children| - 1])
            && c in t[n].children && t[c].parent == Some(n) && t[c].depth == t[n].depth + 1 && t[c].depth < |t|
  {
    var c := FirstChild(t, n, dir);
    assert c in Ordered(t[n].children, dir);
    ChildOf(t, n, c);
  }

  /** The child of `p` that follows `ch` in walk direction, if any. */
  function NextSibling(t: Arena, p: nat, ch: nat, dir: WalkDirection): (r: Option<nat>)
    requires Valid(t) && p < |t|
    ensures r.Some? ==> r.value < |t|
  {
    var rest := After(Ordered(t[p].children, dir), ch);
    if rest == [] then None
    else
      assert rest[0] in rest;
      ChildOf(t, p, rest[0]);
      Some(rest[0])
  }

  lemma NextSiblingOf(t: Arena, p: nat, ch: nat, dir: WalkDirection)
    requires Valid(t) && p < |t| && NextSibling(t, p, ch, dir).Some?
    ensures var c := NextSibling(t, p, ch, dir).value;
            && c == After(Ordered(t[p].children, dir), ch)[0]
            && c in t[p].children && t[c].parent == Some(p) && t[c].depth == t[p].depth + 1
  {
    var rest := After(Ordered(t[p].children, dir), ch);
    assert rest[0] in rest;
    ChildOf(t, p, rest[0]);
  }

  /** The leaf reached from `n` by following first children in walk direction. */
  function FirstLeaf(t: Arena, n: nat, dir: WalkDirection): (l: nat)
    requires Valid(t) && n < |t|
    ensures l < |t| && IsLeaf(t, l)
    decreases |t| - t[n].depth
  {
    if IsLeaf(t, n) then n
    else
      FirstChildOf(t, n, dir);
      FirstLeaf(t, FirstChild(t, n, dir), dir)
  }

  /** The next sibling of the nearest ancestor-or-self of `n` that has one. */
  function Climb(t: Arena, n: nat, dir: WalkDirection): (r: Option<nat>)
    requires Valid(t) && n < |t|
    ensures r.Some? ==> r.value < |t|
    decreases t[n].depth
  {
    match t[n].parent
    case None => None
    case Some(p) =>
      ParentOf(t, n, p);
      match NextSibling(t, p, n, dir)
      case Some(c) => Some(c)
      case None => Climb(t, p, dir)
  }

  /** The node a walk visits right after `n`, as the overview comment of `Next` describes it. */
  function Successor(t: Arena, n: nat, dir: WalkDirection, order: WalkOrder): (r: Option<nat>)
    requires Valid(t) && n < |t|
    ensures r.Some? ==> r.value < |t|
  {
    if order == PreOrder then
      if !IsLeaf(t, n) then Some(FirstChild(t, n, dir)) else Climb(t, n, dir)
    else
      match t[n].parent
      case None => None
      case Some(p) =>
        ParentOf(t, n, p);
        match NextSibling(t, p, n, dir)
        case None => Some(p)
        case Some(c) => Some(FirstLeaf(t, c, dir))
  }

  // ---------------------------------------------------------------------------
  // The code.
  // ---------------------------------------------------------------------------

  lemma OrderedAt(ks: seq<nat>, dir: WalkDirection, j: nat)
    requires j < |ks|
    ensures Ordered(ks, dir)[j] == if dir == Forward then ks[j] else ks[|ks| - 1 - j]
  {
  }

  lemma AfterCons(ks: seq<nat>, x: nat)
    requires ks != []
    ensures After(ks, x) == if ks[0] == x then ks[1..] else After(ks[1..], x)
  {
  }

  /** Past the first occurrence `k` of `x` in `ks` come exactly the elements after position `k`. */
  lemma {:induction false} AfterFirst(ks: seq<nat>, k: nat, x: nat)
    requires k < |ks| && ks[k] == x
    requires forall i | 0 <= i < k :: ks[i] != x
    ensures After(ks, x) == ks[k + 1..]
    decreases k
  {
    if k > 0 {
      forall i | 0 <= i < k - 1 ensures ks[1..][i] != x {
        assert ks[1..][i] == ks[i + 1];
      }
      AfterFirst(ks[1..], k - 1, x);
      assert ks[1..][k..] == ks[k + 1..];
    }
  }

  /** `childAfter` (tree/tree.go:168-193): index scan with an `ignore` flag. */
  method ChildAfter(t: Arena, p: nat, ch: nat, dir: WalkDirection) returns (r: Option<nat>)
    requires Valid(t) && p < |t|
    ensures r == NextSibling(t, p, ch, dir)
  {
    var kids := t[p].children;
    ghost var order := Ordered(kids, dir);
    var i: int := 0;
    var inc: int := 1;
    var end: int := |kids|;
    if dir == Reverse {
      i := end - 1;
      inc := -1;
      end := -1;
    }
    var ignore := true;
    ghost var j := 0;
    while i != end
      invariant 0 <= j <= |kids|
      invariant dir == Forward ==> i == j && inc == 1 && end == |kids|
      invariant dir == Reverse ==> i == |kids| - 1 - j && inc == -1 && end == -1
      invariant ignore ==> forall k | 0 <= k < j :: order[k] != ch
      invariant !ignore ==> 0 < j && order[j - 1] == ch && forall k | 0 <= k < j - 1 :: order[k] != ch
      decreases |kids| - j
    {
      var c := kids[i];
      OrderedAt(kids, dir, j);
      if ignore {
        if c == ch {
          ignore := false;
        }
        i := i + inc;
        j := j + 1;
        continue;
      }
      AfterFirst(order, j - 1, ch);
      return Some(c);
    }
    if !ignore {
      AfterFirst(order, j - 1, ch);
    }
    return None;
  }

  /**
   * `leafUnder` (tree/tree.go:195-208). It is only called from the post-order step; with
   * PreOrder it returns after one step down.
   */
  method LeafUnder(t: Arena, n: nat, dir: WalkDirection, order: WalkOrder) returns (r: nat)
    requires Valid(t) && n < |t|
    ensures order == PostOrder ==> r == FirstLeaf(t, n, dir)
    ensures order == PreOrder ==> r == if IsLeaf(t, n) then n else FirstChild(t, n, dir)
  {
    var m: nat := n;
    while !IsLeaf(t, m)
      invariant m < |t| && FirstLeaf(t, m, dir) == FirstLeaf(t, n, dir)
      invariant order == PreOrder ==> m == n
      decreases |t| - t[m].depth
    {
      FirstChildOf(t, m, dir);
      if dir == Forward {
        m := t[m].children[0];
      } else {
        m := t[m].children[|t[m].children| - 1];
      }
      if order == PreOrder {
        return m;
      }
    }
    return m;
  }

  /** `nextPreOrder` (tree/tree.go:211-233). */
  method NextPreOrder(t: Arena, n: nat, dir: WalkDirection) returns (r: Option<nat>)
    requires Valid(t) && n < |t|
    ensures r == Successor(t, n, dir, PreOrder)
  {
    if !IsLeaf(t, n) {
      FirstChildOf(t, n, dir);
      if dir == Forward {
        return Some(t[n].children[0]);
      } else {
        return Some(t[n].children[|t[n].children| - 1]);
      }
    }
    var m: nat := n;
    while true
      invariant m < |t| && Climb(t, m, dir) == Climb(t, n, dir)
      decreases t[m].depth
    {
      var parent := t[m].parent;
      if parent.None? {
        return None;
      }
      ParentOf(t, m, parent.value);
      var nxt := ChildAfter(t, parent.value, m, dir);
      if nxt.Some? {
        return nxt;
      }
      m := parent.value;
    }
  }

  /** `nextPostOrder` (tree/tree.go:235-248). */
  method NextPostOrder(t: Arena, n: nat, dir: WalkDirection) returns (r: Option<nat>)
    requires Valid(t) && n < |t|
    ensures r == Successor(t, n, dir, PostOrder)
  {
    var parent := t[n].parent;
    if parent.None? {
      return None;
    }
    ParentOf(t, n, parent.value);
    var nxt := ChildAfter(t, parent.value, n, dir);
    if nxt.None? {
      return parent;
    }
    var leaf := LeafUnder(t, nxt.value, dir, PostOrder);
    return Some(leaf);
  }

  /** `Next` (tree/tree.go:139-256); `None` stands for a nil tree. */
  method Next(t: Arena, n: Option<nat>, dir: WalkDirection, order: WalkOrder) returns (r: Option<nat>)
    requires Valid(t) && (n.Some? ==> n.value < |t|)
    ensures n.None? ==> r.None?
    ensures n.Some? ==> r == Successor(t, n.value, dir, order)
  {
    if n.None? {
      return None;
    }
    if order == PreOrder {
      r := NextPreOrder(t, n.value, dir);
    } else {
      r := NextPostOrder(t, n.value, dir);
    }
  }

  // ---------------------------------------------------------------------------
  // Next agrees with Walk.
  // ---------------------------------------------------------------------------

  /** What a walk resumed at `n` (at its true depth) visits after its visit of `n`. */
  function RestAfter(t: Arena, n: nat, dir: WalkDirection, order: WalkOrder): seq<Visit>
    requires Valid(t) && n < |t|
  {
    var d := t[n].depth;
    if order == PreOrder then
      SubtreeList(t, n, Ordered(t[n].children, dir), dir, order, d + 1) + Continuation(t, n, dir, order, d)
    else
      Continuation(t, n, dir, order, d)
  }

  /** The walk from the moment it visits `n`. */
  function VisitsFrom(t: Arena, n: nat, dir: WalkDirection, order: WalkOrder): seq<Visit>
    requires Valid(t) && n < |t|
  {
    [Visit(n, t[n].depth)] + RestAfter(t, n, dir, order)
  }

  lemma {:induction false} AfterSkip(pre: seq<nat>, rest: seq<nat>, c: nat)
    requires c !in pre
    ensures After(pre + rest, c) == After(rest, c)
    decreases |pre|
  {
    if pre != [] {
      assert (pre + rest)[1..] == pre[1..] + rest;
      AfterSkip(pre[1..], rest, c);
    } else {
      assert pre + rest == rest;
    }
  }

  /** In a list without duplicates, what follows the successor of `x` is the rest after `x`. */
  lemma AfterAfter(ks: seq<nat>, x: nat)
    requires NoDup(ks) && After(ks, x) != []
    ensures After(ks, After(ks, x)[0]) == After(ks, x)[1..]
  {
    var a := After(ks, x);
    var pre := AfterSplit(ks, x);
    var c := a[0];
    assert ks[|pre| + 1] == c;
    forall k | 0 <= k < |pre| + 1 ensures ks[k] != c {
    }
    assert c !in pre + [x] by {
      forall y | y in pre + [x] ensures y != c {
        var k :| 0 <= k < |pre + [x]| && (pre + [x])[k] == y;
        assert ks[k] == y;
      }
    }
    AfterSkip(pre + [x], a, c);
    assert a == [c] + a[1..];
  }

  lemma SubtreeListCons(t: Arena, p: nat, ks: seq<nat>, dir: WalkDirection, order: WalkOrder, depth: int)
    requires Valid(t) && p < |t| && ks != []
    requires forall c | c in ks :: c in t[p].children
    ensures ks[0] < |t|
    ensures SubtreeList(t, p, ks, dir, order, depth)
         == Subtree(t, ks[0], dir, order, depth) + SubtreeList(t, p, ks[1..], dir, order, depth)
  {
    assert ks[0] in ks;
    ChildOf(t, p, ks[0]);
  }

  /** Pre-order: the subtree of `m` followed by what comes after it is the walk from `m`. */
  lemma PreOrderVisitsFrom(t: Arena, m: nat, dir: WalkDirection)
    requires Valid(t) && m < |t|
    ensures Subtree(t, m, dir, PreOrder, t[m].depth) + Continuation(t, m, dir, PreOrder, t[m].depth)
         == VisitsFrom(t, m, dir, PreOrder)
  {
    var d := t[m].depth;
    SubtreeStep(t, m, dir, PreOrder, d, d + 1);
    var kids := SubtreeList(t, m, Ordered(t[m].children, dir), dir, PreOrder, d + 1);
    var cont := Continuation(t, m, dir, PreOrder, d);
    PrependHead(Subtree(t, m, dir, PreOrder, d), [Visit(m, d)], kids, cont,
                RestAfter(t, m, dir, PreOrder), VisitsFrom(t, m, dir, PreOrder));
  }

  /** The visit of a node, then its children's subtrees, then what follows: regrouped around the rest of the walk. */
  lemma PrependHead(sub: seq<Visit>, head: seq<Visit>, kids: seq<Visit>, cont: seq<Visit>, rest: seq<Visit>, whole: seq<Visit>)
    requires sub == head + kids + [] && rest == kids + cont && whole == head + rest
    ensures sub + cont == whole
  {
  }

  /** After the subtree of the first child come the other children's subtrees, then what follows `n`. */
  lemma FirstChildCont(t: Arena, n: nat, dir: WalkDirection, order: WalkOrder)
    requires Valid(t) && n < |t| && !IsLeaf(t, n)
    ensures forall c | c in Ordered(t[n].children, dir)[1..] :: c in t[n].children
    ensures Continuation(t, FirstChild(t, n, dir), dir, order, t[n].depth + 1)
         == SubtreeList(t, n, Ordered(t[n].children, dir)[1..], dir, order, t[n].depth + 1)
            + (if order == PostOrder then [Visit(n, t[n].depth)] else [])
            + Continuation(t, n, dir, order, t[n].depth)
  {
    var o := Ordered(t[n].children, dir);
    var c := FirstChild(t, n, dir);
    FirstChildOf(t, n, dir);
    ContinuationStep(t, c, n, dir, order, t[n].depth + 1, t[n].depth);
    AfterCons(o, c);
  }

  /** Going down to the first child: the children's subtrees and what follows `n` start with the first child's subtree. */
  lemma FirstChildStep(t: Arena, n: nat, dir: WalkDirection, order: WalkOrder)
    requires Valid(t) && n < |t| && !IsLeaf(t, n)
    ensures t[FirstChild(t, n, dir)].depth == t[n].depth + 1
    ensures SubtreeList(t, n, Ordered(t[n].children, dir), dir, order, t[n].depth + 1)
            + (if order == PostOrder then [Visit(n, t[n].depth)] else [])
            + Continuation(t, n, dir, order, t[n].depth)
         == Subtree(t, FirstChild(t, n, dir), dir, order, t[n].depth + 1)
            + Continuation(t, FirstChild(t, n, dir), dir, order, t[n].depth + 1)
  {
    var d := t[n].depth;
    var o := Ordered(t[n].children, dir);
    var c := FirstChild(t, n, dir);
    FirstChildOf(t, n, dir);
    SubtreeListCons(t, n, o, dir, order, d + 1);
    FirstChildCont(t, n, dir, order);
    var sub, rest := Subtree(t, c, dir, order, d + 1), SubtreeList(t, n, o[1..], dir, order, d + 1);
    var post: seq<Visit> := if order == PostOrder then [Visit(n, d)] else [];
    Assoc(sub, rest, post);
    Assoc(sub, rest + post, Continuation(t, n, dir, order, d));
  }

  /** After the subtree of the next sibling come the later siblings' subtrees, then what follows the parent. */
  lemma SiblingCont(t: Arena, n: nat, p: nat, dir: WalkDirection, order: WalkOrder)
    requires Valid(t) && n < |t| && p < |t| && t[n].parent == Some(p) && NextSibling(t, p, n, dir).Some?
    ensures forall c | c in After(Ordered(t[p].children, dir), n)[1..] :: c in t[p].children
    ensures Continuation(t, NextSibling(t, p, n, dir).value, dir, order, t[n].depth)
         == SubtreeList(t, p, After(Ordered(t[p].children, dir), n)[1..], dir, order, t[n].depth)
            + (if order == PostOrder then [Visit(p, t[p].depth)] else [])
            + Continuation(t, p, dir, order, t[p].depth)
  {
    var c := NextSibling(t, p, n, dir).value;
    var o := Ordered(t[p].children, dir);
    NextSiblingOf(t, p, n, dir);
    ParentOf(t, n, p);
    ContinuationStep(t, c, p, dir, order, t[n].depth, t[p].depth);
    AfterAfter(o, n);
    assert After(o, c) == After(o, n)[1..];
  }

  /** Across to the next sibling: what follows `n` starts with the next sibling's subtree. */
  lemma SiblingStep(t: Arena, n: nat, p: nat, dir: WalkDirection, order: WalkOrder)
    requires Valid(t) && n < |t| && p < |t| && t[n].parent == Some(p) && NextSibling(t, p, n, dir).Some?
    ensures t[NextSibling(t, p, n, dir).value].depth == t[n].depth
    ensures Continuation(t, n, dir, order, t[n].depth)
         == Subtree(t, NextSibling(t, p, n, dir).value, dir, order, t[n].depth)
            + Continuation(t, NextSibling(t, p, n, dir).value, dir, order, t[n].depth)
  {
    ParentOf(t, n, p);
    NextSiblingOf(t, p, n, dir);
    var d, pd := t[n].depth, t[p].depth;
    var a := After(Ordered(t[p].children, dir), n);
    var c := NextSibling(t, p, n, dir).value;
    var up := if order == PostOrder then [Visit(p, pd)] else [];
    ContinuationStep(t, n, p, dir, order, d, pd);
    SubtreeListCons(t, p, a, dir, order, d);
    SiblingCont(t, n, p, dir, order);
    SplitHead(Continuation(t, n, dir, order, d), Subtree(t, c, dir, order, d), SubtreeList(t, p, a[1..], dir, order, d),
            up, Continuation(t, p, dir, order, pd), Continuation(t, c, dir, order, d));
  }

  /** Splitting off the head of a concatenation whose tail is known under another name. */
  lemma SplitHead(whole: seq<Visit>, head: seq<Visit>, mid: seq<Visit>, up: seq<Visit>, above: seq<Visit>, tail: seq<Visit>)
    requires whole == (head + mid) + up + above && tail == mid + up + above
    ensures whole == head + tail
  {
  }

  /** Up to the parent: with no next sibling, what follows `n` is the parent (PostOrder) and what follows it. */
  lemma NoSiblingStep(t: Arena, n: nat, p: nat, dir: WalkDirection, order: WalkOrder)
    requires Valid(t) && n < |t| && p < |t| && t[n].parent == Some(p) && NextSibling(t, p, n, dir).None?
    ensures t[p].depth + 1 == t[n].depth
    ensures Continuation(t, n, dir, order, t[n].depth)
         == (if order == PostOrder then [Visit(p, t[p].depth)] else []) + Continuation(t, p, dir, order, t[p].depth)
  {
    ParentOf(t, n, p);
    var sibs := SubtreeList(t, p, After(Ordered(t[p].children, dir), n), dir, order, t[n].depth);
    assert sibs == [] by {
      assert After(Ordered(t[p].children, dir), n) == [];
    }
    ContinuationStep(t, n, p, dir, order, t[n].depth, t[p].depth);
    EmptyFront(sibs, if order == PostOrder then [Visit(p, t[p].depth)] else [], Continuation(t, p, dir, order, t[p].depth));
  }

  lemma EmptyFront(a: seq<Visit>, b: seq<Visit>, c: seq<Visit>)
    requires a == []
    ensures a + b + c == b + c
  {
  }

  /** Post-order at a leaf: its subtree is the leaf alone. */
  lemma PostOrderLeaf(t: Arena, n: nat, dir: WalkDirection)
    requires Valid(t) && n < |t| && IsLeaf(t, n)
    ensures Subtree(t, n, dir, PostOrder, t[n].depth) + Continuation(t, n, dir, PostOrder, t[n].depth)
         == VisitsFrom(t, n, dir, PostOrder)
  {
    var d := t[n].depth;
    SubtreeStep(t, n, dir, PostOrder, d, d + 1);
    assert Ordered(t[n].children, dir) == [];
    assert Subtree(t, n, dir, PostOrder, d) == [Visit(n, d)];
  }

  /** Post-order above a leaf: the subtree of `n` and what follows it start at the first child's subtree. */
  lemma PostOrderDescend(t: Arena, n: nat, dir: WalkDirection) returns (c: nat)
    requires Valid(t) && n < |t| && !IsLeaf(t, n)
    ensures c < |t| && t[c].depth == t[n].depth + 1 && t[c].depth < |t|
    ensures FirstLeaf(t, n, dir) == FirstLeaf(t, c, dir)
    ensures Subtree(t, n, dir, PostOrder, t[n].depth) + Continuation(t, n, dir, PostOrder, t[n].depth)
         == Subtree(t, c, dir, PostOrder, t[c].depth) + Continuation(t, c, dir, PostOrder, t[c].depth)
  {
    var d := t[n].depth;
    c := FirstChild(t, n, dir);
    FirstChildOf(t, n, dir);
    SubtreeStep(t, n, dir, PostOrder, d, d + 1);
    var kids := SubtreeList(t, n, Ordered(t[n].children, dir), dir, PostOrder, d + 1);
    assert Subtree(t, n, dir, PostOrder, d) == kids + [Visit(n, d)];
    FirstChildStep(t, n, dir, PostOrder);
  }

  /** Post-order: the subtree of `n` and what follows it is the walk from the first leaf under `n`. */
  lemma {:induction false} PostOrderStartsAtFirstLeaf(t: Arena, n: nat, dir: WalkDirection)
    requires Valid(t) && n < |t|
    ensures Subtree(t, n, dir, PostOrder, t[n].depth) + Continuation(t, n, dir, PostOrder, t[n].depth)
         == VisitsFrom(t, FirstLeaf(t, n, dir), dir, PostOrder)
    decreases |t| - t[n].depth
  {
    if IsLeaf(t, n) {
      PostOrderLeaf(t, n, dir);
    } else {
      var c := PostOrderDescend(t, n, dir);
      PostOrderStartsAtFirstLeaf(t, c, dir);
    }
  }

  /** Pre-order: after the subtree of `n`, the walk goes on from `Climb(n)`. */
  lemma {:induction false} PreOrderClimb(t: Arena, n: nat, dir: WalkDirection)
    requires Valid(t) && n < |t|
    ensures Continuation(t, n, dir, PreOrder, t[n].depth)
         == match Climb(t, n, dir)
            case None => []
            case Some(m) => VisitsFrom(t, m, dir, PreOrder)
    decreases t[n].depth
  {
    match t[n].parent
    case None =>
    case Some(p) =>
      ParentOf(t, n, p);
      match NextSibling(t, p, n, dir)
      case None =>
        NoSiblingStep(t, n, p, dir, PreOrder);
        PreOrderClimb(t, p, dir);
      case Some(c) =>
        SiblingStep(t, n, p, dir, PreOrder);
        PreOrderVisitsFrom(t, c, dir);
  }

  /** Post-order: what follows `n` is the walk from its successor. */
  lemma PostOrderRest(t: Arena, n: nat, dir: WalkDirection)
    requires Valid(t) && n < |t|
    ensures Continuation(t, n, dir, PostOrder, t[n].depth)
         == match Successor(t, n, dir, PostOrder)
            case None => []
            case Some(m) => VisitsFrom(t, m, dir, PostOrder)
  {
    match t[n].parent
    case None =>
    case Some(p) =>
      ParentOf(t, n, p);
      match NextSibling(t, p, n, dir)
      case None =>
        NoSiblingStep(t, n, p, dir, PostOrder);
      case Some(c) =>
        SiblingStep(t, n, p, dir, PostOrder);
        PostOrderStartsAtFirstLeaf(t, c, dir);
  }

  /**
   * The successor is exactly the next visit of the walk: when `Successor(n)` is nil nothing
   * follows `n`, otherwise the rest of the walk after `n` is the walk from the successor.
   */
  lemma SuccessorIsNextVisit(t: Arena, n: nat, dir: WalkDirection, order: WalkOrder)
    requires Valid(t) && n < |t|
    ensures RestAfter(t, n, dir, order)
         == match Successor(t, n, dir, order)
            case None => []
            case Some(m) => VisitsFrom(t, m, dir, order)
  {
    if order == PostOrder {
      PostOrderRest(t, n, dir);
    } else if IsLeaf(t, n) {
      PreOrderLeafRest(t, n, dir);
      PreOrderClimb(t, n, dir);
    } else {
      PreOrderDescend(t, n, dir);
      PreOrderVisitsFrom(t, FirstChild(t, n, dir), dir);
    }
  }

  lemma PreOrderLeafRest(t: Arena, n: nat, dir: WalkDirection)
    requires Valid(t) && n < |t| && IsLeaf(t, n)
    ensures RestAfter(t, n, dir, PreOrder) == Continuation(t, n, dir, PreOrder, t[n].depth)
  {
    assert Ordered(t[n].children, dir) == [];
    assert SubtreeList(t, n, [], dir, PreOrder, t[n].depth + 1) == [];
  }

  lemma PreOrderDescend(t: Arena, n: nat, dir: WalkDirection)
    requires Valid(t) && n < |t| && !IsLeaf(t, n)
    ensures t[FirstChild(t, n, dir)].depth == t[n].depth + 1
    ensures RestAfter(t, n, dir, PreOrder)
         == Subtree(t, FirstChild(t, n, dir), dir, PreOrder, t[n].depth + 1)
            + Continuation(t, FirstChild(t, n, dir), dir, PreOrder, t[n].depth + 1)
  {
    var kids := SubtreeList(t, n, Ordered(t[n].children, dir), dir, PreOrder, t[n].depth + 1);
    assert kids + [] == kids;
    FirstChildStep(t, n, dir, PreOrder);
  }

  /** `k` applications of `Next` from `x`; nil stays nil. */
  function Steps(t: Arena, x: nat, dir: WalkDirection, order: WalkOrder, k: nat): Option<nat>
    requires Valid(t) && x < |t|
    decreases k
  {
    if k == 0 then Some(x)
    else match Successor(t, x, dir, order)
      case None => None
      case Some(y) => Steps(t, y, dir, order, k - 1)
  }

  lemma {:induction false} StepsFollowVisits(t: Arena, x: nat, dir: WalkDirection, order: WalkOrder)
    requires Valid(t) && x < |t|
    ensures var vs := VisitsFrom(t, x, dir, order);
            && (forall i | 0 <= i < |vs| :: Steps(t, x, dir, order, i) == Some(vs[i].node))
            && Steps(t, x, dir, order, |vs|) == None
    decreases |VisitsFrom(t, x, dir, order)|
  {
    var vs := VisitsFrom(t, x, dir, order);
    SuccessorIsNextVisit(t, x, dir, order);
    match Successor(t, x, dir, order)
    case None =>
      assert vs == [Visit(x, t[x].depth)];
    case Some(m) =>
      var ws := VisitsFrom(t, m, dir, order);
      assert vs == [Visit(x, t[x].depth)] + ws;
      StepsFollowVisits(t, m, dir, order);
      StepsCons(t, x, m, dir, order, vs, ws);
  }

  /** One step of `StepsFollowVisits`: the visits from `x` are `x` followed by the visits from its successor `m`. */
  lemma StepsCons(t: Arena, x: nat, m: nat, dir: WalkDirection, order: WalkOrder, vs: seq<Visit>, ws: seq<Visit>)
    requires Valid(t) && x < |t| && Successor(t, x, dir, order) == Some(m)
    requires vs == [Visit(x, t[x].depth)] + ws
    requires forall i | 0 <= i < |ws| :: Steps(t, m, dir, order, i) == Some(ws[i].node)
    requires Steps(t, m, dir, order, |ws|) == None
    ensures forall i | 0 <= i < |vs| :: Steps(t, x, dir, order, i) == Some(vs[i].node)
    ensures Steps(t, x, dir, order, |vs|) == None
  {
    forall i | 0 <= i < |vs| ensures Steps(t, x, dir, order, i) == Some(vs[i].node) {
      if i > 0 {
        assert vs[i] == ws[i - 1];
      }
    }
  }

  /** Where a walk of the subtree of `n` starts: `n` itself (PreOrder) or its first leaf (PostOrder). */
  function First(t: Arena, n: nat, dir: WalkDirection, order: WalkOrder): (f: nat)
    requires Valid(t) && n < |t|
    ensures f < |t|
  {
    if order == PreOrder then n else FirstLeaf(t, n, dir)
  }

  /**
   * Applying `Next` repeatedly, from the first node a walk from `n` visits, yields exactly the
   * nodes of that walk in order, and nil right after the last one.
   */
  lemma NextReproducesWalk(t: Arena, n: nat, dir: WalkDirection, order: WalkOrder)
    requires Valid(t) && n < |t|
    ensures var tr := Trace(t, n, dir, order, t[n].depth, false);
            var f := First(t, n, dir, order);
            && (forall i | 0 <= i < |tr| :: Steps(t, f, dir, order, i) == Some(tr[i].node))
            && Steps(t, f, dir, order, |tr|) == None
  {
    var f := First(t, n, dir, order);
    if order == PreOrder {
      PreOrderVisitsFrom(t, n, dir);
    } else {
      PostOrderStartsAtFirstLeaf(t, n, dir);
      assert Trace(t, n, dir, order, t[n].depth, false) == VisitsFrom(t, f, dir, order);
    }
    StepsFollowVisits(t, f, dir, order);
  }
}
