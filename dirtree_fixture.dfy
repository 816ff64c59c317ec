/**
 * The scenarios of dirtree/dirtree_test.go replayed against the node model: every check those
 * tests make becomes an assertion or a postcondition here.
 */
module DirtreeFixture {
  import opened Dirtree

  /** `TestNodeAdd` (dirtree/dirtree_test.go:55-97): adding children of size 0 and 10 under a node of size 20. */
  method AddScenario() returns (p: Node, n1: Node, n2: Node)
    ensures p.Children == [n1, n2] && n1 != n2
    ensures n1.Parent == p && n2.Parent == p
    ensures p.Dir.Size == 30
  {
    p := new Node(Directory("", "", 20));
    n1 := new Node(Directory("", "", 0));
    p.Add(n1, [p], {});
    assert p.NumChildren() == 1 && p.Child(0) == n1 && n1.Parent == p;
    assert p.Dir.Size == 20;
    n2 := new Node(Directory("", "", 10));
    p.Add(n2, [p], {});
  }

  /** `TestNodeDel` (dirtree/dirtree_test.go:99-181): deletions from an empty, one-, two- and three-child parent. */
  method DelScenario() returns (p: Node, n1: Node, n2: Node, n3: Node)
    ensures p.Children == [n1, n3]
    ensures p.Dir.Size == 40
  {
    p := new Node(Directory("", "", 0));
    n1 := new Node(Directory("", "", 10));
    n2 := new Node(Directory("", "", 20));
    n3 := new Node(Directory("", "", 30));
    DelFromOne(p, n1, n2, n3);
    DelFirstOfTwo(p, n1, n2, n3);
    DelSecondOfTwo(p, n1, n2, n3);
    DelFromThree(p, n1, n2, n3);
  }

  /** The node sizes and the empty, detached parent `TestNodeDel` starts from and returns to. */
  predicate Start(p: Node, n1: Node, n2: Node, n3: Node)
    reads p, n1, n2, n3
  {
    && p.Parent == null && p.Children == [] && p.Dir.Size == 0
    && n1.Dir.Size == 10 && n2.Dir.Size == 20 && n3.Dir.Size == 30
    && p != n1 && p != n2 && p != n3 && n1 != n2 && n1 != n3 && n2 != n3
  }

  /** dirtree/dirtree_test.go:106-120: deleting from an empty parent, then the only child. */
  method DelFromOne(p: Node, n1: Node, n2: Node, n3: Node)
    requires Start(p, n1, n2, n3)
    modifies p, n1, n2, n3
    ensures Start(p, n1, n2, n3)
  {
    p.Del(n1, [p], {});
    assert p.Children == [] && p.Dir.Size == 0;
    p.Add(n1, [p], {});
    p.Del(n1, [p], {});
  }

  /** The starting point of the two-child cases: `n1` then `n2` added to the empty parent. */
  method AddPair(p: Node, n1: Node, n2: Node, n3: Node)
    requires Start(p, n1, n2, n3)
    modifies p, n1, n2, n3
    ensures Pair(p, n1, n2, n3)
  {
    p.Add(n1, [p], {});
    p.Add(n2, [p], {});
  }

  /** Both `n1` and `n2` are children of the detached parent, whose size is theirs together. */
  predicate Pair(p: Node, n1: Node, n2: Node, n3: Node)
    reads p, n1, n2, n3
  {
    && p.Parent == null && p.Children == [n1, n2] && p.Dir.Size == 30
    && n1.Dir.Size == 10 && n2.Dir.Size == 20 && n3.Dir.Size == 30
    && p != n1 && p != n2 && p != n3 && n1 != n2 && n1 != n3 && n2 != n3
  }

  /** dirtree/dirtree_test.go:122-140: deleting the first of two children, then the remaining one. */
  method DelFirstOfTwo(p: Node, n1: Node, n2: Node, n3: Node)
    requires Start(p, n1, n2, n3)
    modifies p, n1, n2, n3
    ensures Start(p, n1, n2, n3)
  {
    AddPair(p, n1, n2, n3);
    p.Del(n1, [p], {});
    assert p.Children == [n2] && p.Dir.Size == 20;
    p.Del(n2, [p], {});
  }

  /** dirtree/dirtree_test.go:142-154: deleting the second of two children, then the remaining one. */
  method DelSecondOfTwo(p: Node, n1: Node, n2: Node, n3: Node)
    requires Start(p, n1, n2, n3)
    modifies p, n1, n2, n3
    ensures Start(p, n1, n2, n3)
  {
    AddPair(p, n1, n2, n3);
    p.Del(n2, [p], {});
    assert p.Children == [n1] && p.Dir.Size == 10;
    p.Del(n1, [p], {});
  }

  /** dirtree/dirtree_test.go:156-181: deleting the middle one of three children. */
  method DelFromThree(p: Node, n1: Node, n2: Node, n3: Node)
    requires Start(p, n1, n2, n3)
    modifies p, n1, n2, n3
    ensures p.Children == [n1, n3] && p.Dir.Size == 40
  {
    p.Add(n1, [p], {});
    p.Add(n2, [p], {});
    p.Add(n3, [p], {});
    p.Del(n2, [p], {});
  }
}
