/**
 * The fixture of tree/walk_test.go:32-89 and the expected visit orders of its table
 * (tree/walk_test.go:142-219). Nodes are numbered a=0, b=1, c=2, d=3, e=4, f=5, m=6, g=7, h=8,
 * i=9, j=10, k=11, l=12, n=13, o=14. The test visitor accepts every call, so by
 * `Tree.WalkWithoutRefusal` the walk makes exactly the visits of `Tree.Trace`: each lemma
 * below states that sequence of visits, node and depth, as the test's visitor checks both.
 */
module TreeFixture {
  import opened Wrappers
  import opened Tree

  function Fixture(): (t: Arena)
    ensures |t| == 15 && forall i | 0 <= i < 15 :: t[i] == FixtureNode(i)
  {
    seq(15, i requires 0 <= i < 15 => FixtureNode(i))
  }

  function FixtureNode(i: nat): Node
  {
    match i
    case 0 => Node(None, [1, 2], 0)           // a
    case 1 => Node(Some(0), [3, 4], 1)        // b
    case 2 => Node(Some(0), [7, 8], 1)        // c
    case 3 => Node(Some(1), [], 2)            // d
    case 4 => Node(Some(1), [5], 2)           // e
    case 5 => Node(Some(4), [6], 3)           // f
    case 6 => Node(Some(5), [], 4)            // m
    case 7 => Node(Some(2), [9, 10], 2)       // g
    case 8 => Node(Some(2), [11, 12], 2)      // h
    case 9 => Node(Some(7), [], 3)            // i
    case 10 => Node(Some(7), [], 3)           // j
    case 11 => Node(Some(8), [13], 3)         // k
    case 12 => Node(Some(8), [14], 3)         // l
    case 13 => Node(Some(11), [], 4)          // n
    case _ => Node(Some(12), [], 4)           // o
  }

  lemma FixtureValid()
    ensures Valid(Fixture())
  {
    FixtureValid0();
    FixtureValid1();
    FixtureValid2();
    FixtureValid3();
    FixtureValid4();
  }

  lemma FixtureValid0()
    ensures forall i | 0 <= i < 3 :: ValidNode(Fixture(), i)
  {
    var t := Fixture();
    assert t[0] == Node(None, [1, 2], 0);
    assert t[1] == Node(Some(0), [3, 4], 1);
    assert t[2] == Node(Some(0), [7, 8], 1);
    assert t[3] == Node(Some(1), [], 2);
    assert t[4] == Node(Some(1), [5], 2);
    assert t[7] == Node(Some(2), [9, 10], 2);
    assert t[8] == Node(Some(2), [11, 12], 2);
    assert ValidNode(t, 0) && ValidNode(t, 1) && ValidNode(t, 2);
  }

  lemma FixtureValid1()
    ensures forall i | 3 <= i < 6 :: ValidNode(Fixture(), i)
  {
    var t := Fixture();
    assert t[1] == Node(Some(0), [3, 4], 1);
    assert t[3] == Node(Some(1), [], 2);
    assert t[4] == Node(Some(1), [5], 2);
    assert t[5] == Node(Some(4), [6], 3);
    assert t[6] == Node(Some(5), [], 4);
    assert ValidNode(t, 3) && ValidNode(t, 4) && ValidNode(t, 5);
  }

  lemma FixtureValid2()
    ensures forall i | 6 <= i < 9 :: ValidNode(Fixture(), i)
  {
    var t := Fixture();
    assert t[2] == Node(Some(0), [7, 8], 1);
    assert t[5] == Node(Some(4), [6], 3);
    assert t[6] == Node(Some(5), [], 4);
    assert t[7] == Node(Some(2), [9, 10], 2);
    assert t[8] == Node(Some(2), [11, 12], 2);
    assert t[9] == Node(Some(7), [], 3);
    assert t[10] == Node(Some(7), [], 3);
    assert t[11] == Node(Some(8), [13], 3);
    assert t[12] == Node(Some(8), [14], 3);
    assert ValidNode(t, 6) && ValidNode(t, 7) && ValidNode(t, 8);
  }

  lemma FixtureValid3()
    ensures forall i | 9 <= i < 12 :: ValidNode(Fixture(), i)
  {
    var t := Fixture();
    assert t[7] == Node(Some(2), [9, 10], 2);
    assert t[8] == Node(Some(2), [11, 12], 2);
    assert t[9] == Node(Some(7), [], 3);
    assert t[10] == Node(Some(7), [], 3);
    assert t[11] == Node(Some(8), [13], 3);
    assert t[13] == Node(Some(11), [], 4);
    assert ValidNode(t, 9) && ValidNode(t, 10) && ValidNode(t, 11);
  }

  lemma FixtureValid4()
    ensures forall i | 12 <= i < 15 :: ValidNode(Fixture(), i)
  {
    var t := Fixture();
    assert t[8] == Node(Some(2), [11, 12], 2);
    assert t[11] == Node(Some(8), [13], 3);
    assert t[12] == Node(Some(8), [14], 3);
    assert t[13] == Node(Some(11), [], 4);
    assert t[14] == Node(Some(12), [], 4);
    assert ValidNode(t, 12) && ValidNode(t, 13) && ValidNode(t, 14);
  }

  /** The facts about the fixture that its traversals depend on. */
  predicate Shaped(t: Arena)
  {
    Valid(t) && |t| == 15 &&
      t[0].parent == None && t[0].children == [1, 2] &&
      t[1].parent == Some(0) && t[1].children == [3, 4] &&
      t[2].parent == Some(0) && t[2].children == [7, 8] &&
      t[3].parent == Some(1) && t[3].children == [] &&
      t[4].parent == Some(1) && t[4].children == [5] &&
      t[5].parent == Some(4) && t[5].children == [6] &&
      t[6].parent == Some(5) && t[6].children == [] &&
      t[7].parent == Some(2) && t[7].children == [9, 10] &&
      t[8].parent == Some(2) && t[8].children == [11, 12] &&
      t[9].parent == Some(7) && t[9].children == [] &&
      t[10].parent == Some(7) && t[10].children == [] &&
      t[11].parent == Some(8) && t[11].children == [13] &&
      t[12].parent == Some(8) && t[12].children == [14] &&
      t[13].parent == Some(11) && t[13].children == [] &&
      t[14].parent == Some(12) && t[14].children == []
  }

  lemma FixtureShaped()
    ensures Shaped(Fixture())
  {
    FixtureValid();
  }

  /** tree/walk_test.go:142-147, `PreOrderForwardWalkFromRoot`. */
  lemma PreOrderForwardFromRoot(t: Arena)
    requires Shaped(t)
    ensures Trace(t, 0, Forward, PreOrder, 0, false) == [Visit(0, 0), Visit(1, 1), Visit(3, 2), Visit(4, 2), Visit(5, 3), Visit(6, 4), Visit(2, 1), Visit(7, 2), Visit(9, 3), Visit(10, 3), Visit(8, 2), Visit(11, 3), Visit(13, 4), Visit(12, 3), Visit(14, 4)]
  {
    PreForwardSubtreeA(t);
    assert Continuation(t, 0, Forward, PreOrder, 0) == [];
  }

  /** tree/walk_test.go:148-153, `PostOrderForwardWalkFromRoot`. */
  lemma PostOrderForwardFromRoot(t: Arena)
    requires Shaped(t)
    ensures Trace(t, 0, Forward, PostOrder, 0, false) == [Visit(3, 2), Visit(6, 4), Visit(5, 3), Visit(4, 2), Visit(1, 1), Visit(9, 3), Visit(10, 3), Visit(7, 2), Visit(13, 4), Visit(11, 3), Visit(14, 4), Visit(12, 3), Visit(8, 2), Visit(2, 1), Visit(0, 0)]
  {
    PostForwardSubtreeA(t);
    assert Continuation(t, 0, Forward, PostOrder, 0) == [];
  }

  /** tree/walk_test.go:154-159, `PreOrderReverseWalkFromRoot`. */
  lemma PreOrderReverseFromRoot(t: Arena)
    requires Shaped(t)
    ensures Trace(t, 0, Reverse, PreOrder, 0, false) == [Visit(0, 0), Visit(2, 1), Visit(8, 2), Visit(12, 3), Visit(14, 4), Visit(11, 3), Visit(13, 4), Visit(7, 2), Visit(10, 3), Visit(9, 3), Visit(1, 1), Visit(4, 2), Visit(5, 3), Visit(6, 4), Visit(3, 2)]
  {
    PreReverseSubtreeA(t);
    assert Continuation(t, 0, Reverse, PreOrder, 0) == [];
  }

  /** tree/walk_test.go:160-165, `PostOrderReverseWalkFromRoot`. */
  lemma PostOrderReverseFromRoot(t: Arena)
    requires Shaped(t)
    ensures Trace(t, 0, Reverse, PostOrder, 0, false) == [Visit(14, 4), Visit(12, 3), Visit(13, 4), Visit(11, 3), Visit(8, 2), Visit(10, 3), Visit(9, 3), Visit(7, 2), Visit(2, 1), Visit(6, 4), Visit(5, 3), Visit(4, 2), Visit(3, 2), Visit(1, 1), Visit(0, 0)]
  {
    PostReverseSubtreeA(t);
    assert Continuation(t, 0, Reverse, PostOrder, 0) == [];
  }

  /** tree/walk_test.go:166-171, `PreOrderForwardWalkFromDepth1Node`. */
  lemma PreOrderForwardFromDepth1Node(t: Arena)
    requires Shaped(t)
    ensures Trace(t, 1, Forward, PreOrder, 1, false) == [Visit(1, 1), Visit(3, 2), Visit(4, 2), Visit(5, 3), Visit(6, 4), Visit(2, 1), Visit(7, 2), Visit(9, 3), Visit(10, 3), Visit(8, 2), Visit(11, 3), Visit(13, 4), Visit(12, 3), Visit(14, 4)]
  {
    PreForwardSubtreeB(t);
    PreForwardSubtreeC(t);
    ContinuationStep(t, 1, 0, Forward, PreOrder, 1, 0);
    assert After(Ordered(t[0].children, Forward), 1) == [2];
    assert SubtreeList(t, 0, [2], Forward, PreOrder, 1) == Subtree(t, 2, Forward, PreOrder, 1);
    assert Continuation(t, 0, Forward, PreOrder, 0) == [];
  }

  /** tree/walk_test.go:172-177, `PreOrderForwardWalkFromLeafNode`. */
  lemma PreOrderForwardFromLeafNode(t: Arena)
    requires Shaped(t)
    ensures Trace(t, 6, Forward, PreOrder, 4, false) == [Visit(6, 4), Visit(2, 1), Visit(7, 2), Visit(9, 3), Visit(10, 3), Visit(8, 2), Visit(11, 3), Visit(13, 4), Visit(12, 3), Visit(14, 4)]
  {
    PreForwardSubtreeM(t);
    PreForwardSubtreeC(t);
    ContinuationStep(t, 6, 5, Forward, PreOrder, 4, 3);
    assert After(Ordered(t[5].children, Forward), 6) == [];
    ContinuationStep(t, 5, 4, Forward, PreOrder, 3, 2);
    assert After(Ordered(t[4].children, Forward), 5) == [];
    ContinuationStep(t, 4, 1, Forward, PreOrder, 2, 1);
    assert After(Ordered(t[1].children, Forward), 4) == [];
    ContinuationStep(t, 1, 0, Forward, PreOrder, 1, 0);
    assert After(Ordered(t[0].children, Forward), 1) == [2];
    assert SubtreeList(t, 0, [2], Forward, PreOrder, 1) == Subtree(t, 2, Forward, PreOrder, 1);
    assert Continuation(t, 0, Forward, PreOrder, 0) == [];
  }

  /** tree/walk_test.go:178-183, `PreOrderForwardWalkFromDepth1NodeSkip`. */
  lemma PreOrderForwardFromDepth1NodeSkip(t: Arena)
    requires Shaped(t)
    ensures Trace(t, 1, Forward, PreOrder, 1, true) == [Visit(2, 1), Visit(7, 2), Visit(9, 3), Visit(10, 3), Visit(8, 2), Visit(11, 3), Visit(13, 4), Visit(12, 3), Visit(14, 4)]
  {
    PreForwardSubtreeC(t);
    ContinuationStep(t, 1, 0, Forward, PreOrder, 1, 0);
    assert After(Ordered(t[0].children, Forward), 1) == [2];
    assert SubtreeList(t, 0, [2], Forward, PreOrder, 1) == Subtree(t, 2, Forward, PreOrder, 1);
    assert Continuation(t, 0, Forward, PreOrder, 0) == [];
  }

  /** tree/walk_test.go:184-189, `PostOrderForwardWalkFromDepth1Node`. */
  lemma PostOrderForwardFromDepth1Node(t: Arena)
    requires Shaped(t)
    ensures Trace(t, 1, Forward, PostOrder, 1, false) == [Visit(3, 2), Visit(6, 4), Visit(5, 3), Visit(4, 2), Visit(1, 1), Visit(9, 3), Visit(10, 3), Visit(7, 2), Visit(13, 4), Visit(11, 3), Visit(14, 4), Visit(12, 3), Visit(8, 2), Visit(2, 1), Visit(0, 0)]
  {
    PostForwardSubtreeB(t);
    PostForwardSubtreeC(t);
    ContinuationStep(t, 1, 0, Forward, PostOrder, 1, 0);
    assert After(Ordered(t[0].children, Forward), 1) == [2];
    assert SubtreeList(t, 0, [2], Forward, PostOrder, 1) == Subtree(t, 2, Forward, PostOrder, 1);
    assert Continuation(t, 0, Forward, PostOrder, 0) == [];
  }

  /** tree/walk_test.go:190-195, `PreOrderReverseWalkFromDepth1Node`. */
  lemma PreOrderReverseFromDepth1Node(t: Arena)
    requires Shaped(t)
    ensures Trace(t, 1, Reverse, PreOrder, 1, false) == [Visit(1, 1), Visit(4, 2), Visit(5, 3), Visit(6, 4), Visit(3, 2)]
  {
    PreReverseSubtreeB(t);
    ContinuationStep(t, 1, 0, Reverse, PreOrder, 1, 0);
    assert After(Ordered(t[0].children, Reverse), 1) == [];
    assert Continuation(t, 0, Reverse, PreOrder, 0) == [];
  }

  /** tree/walk_test.go:196-201, `PreOrderReverseWalkFromLeafNode`. */
  lemma PreOrderReverseFromLeafNode(t: Arena)
    requires Shaped(t)
    ensures Trace(t, 6, Reverse, PreOrder, 4, false) == [Visit(6, 4), Visit(3, 2)]
  {
    PreReverseSubtreeM(t);
    PreReverseSubtreeD(t);
    ContinuationStep(t, 6, 5, Reverse, PreOrder, 4, 3);
    assert After(Ordered(t[5].children, Reverse), 6) == [];
    ContinuationStep(t, 5, 4, Reverse, PreOrder, 3, 2);
    assert After(Ordered(t[4].children, Reverse), 5) == [];
    ContinuationStep(t, 4, 1, Reverse, PreOrder, 2, 1);
    assert After(Ordered(t[1].children, Reverse), 4) == [3];
    assert SubtreeList(t, 1, [3], Reverse, PreOrder, 2) == Subtree(t, 3, Reverse, PreOrder, 2);
    ContinuationStep(t, 1, 0, Reverse, PreOrder, 1, 0);
    assert After(Ordered(t[0].children, Reverse), 1) == [];
    assert Continuation(t, 0, Reverse, PreOrder, 0) == [];
  }

  /** tree/walk_test.go:202-207, `PostOrderReverseWalkFromDepth1Node`. */
  lemma PostOrderReverseFromDepth1Node(t: Arena)
    requires Shaped(t)
    ensures Trace(t, 1, Reverse, PostOrder, 1, false) == [Visit(6, 4), Visit(5, 3), Visit(4, 2), Visit(3, 2), Visit(1, 1), Visit(0, 0)]
  {
    PostReverseSubtreeB(t);
    ContinuationStep(t, 1, 0, Reverse, PostOrder, 1, 0);
    assert After(Ordered(t[0].children, Reverse), 1) == [];
    assert Continuation(t, 0, Reverse, PostOrder, 0) == [];
  }

  /** tree/walk_test.go:208-213, `PostOrderReverseWalkFromDepth1NodeSkip`. */
  lemma PostOrderReverseFromDepth1NodeSkip(t: Arena)
    requires Shaped(t)
    ensures Trace(t, 2, Reverse, PostOrder, 1, true) == [Visit(6, 4), Visit(5, 3), Visit(4, 2), Visit(3, 2), Visit(1, 1), Visit(0, 0)]
  {
    PostReverseSubtreeB(t);
    ContinuationStep(t, 2, 0, Reverse, PostOrder, 1, 0);
    assert After(Ordered(t[0].children, Reverse), 2) == [1];
    assert SubtreeList(t, 0, [1], Reverse, PostOrder, 1) == Subtree(t, 1, Reverse, PostOrder, 1);
    assert Continuation(t, 0, Reverse, PostOrder, 0) == [];
  }

  /** tree/walk_test.go:214-219, `PostOrderReverseWalkFromDepth2NodeSkip`. */
  lemma PostOrderReverseFromDepth2NodeSkip(t: Arena)
    requires Shaped(t)
    ensures Trace(t, 7, Reverse, PostOrder, 2, true) == [Visit(2, 1), Visit(6, 4), Visit(5, 3), Visit(4, 2), Visit(3, 2), Visit(1, 1), Visit(0, 0)]
  {
    PostReverseSubtreeB(t);
    ContinuationStep(t, 7, 2, Reverse, PostOrder, 2, 1);
    assert After(Ordered(t[2].children, Reverse), 7) == [];
    ContinuationStep(t, 2, 0, Reverse, PostOrder, 1, 0);
    assert After(Ordered(t[0].children, Reverse), 2) == [1];
    assert SubtreeList(t, 0, [1], Reverse, PostOrder, 1) == Subtree(t, 1, Reverse, PostOrder, 1);
    assert Continuation(t, 0, Reverse, PostOrder, 0) == [];
  }

  // Subtree traversals of the fixture, bottom-up.

  lemma PreForwardSubtreeD(t: Arena)
    requires Shaped(t)
    ensures Subtree(t, 3, Forward, PreOrder, 2) == [Visit(3, 2)]
  {
    assert Ordered(t[3].children, Forward) == [];
    assert SubtreeList(t, 3, [], Forward, PreOrder, 3) == [];
  }

  lemma PreForwardSubtreeM(t: Arena)
    requires Shaped(t)
    ensures Subtree(t, 6, Forward, PreOrder, 4) == [Visit(6, 4)]
  {
    assert Ordered(t[6].children, Forward) == [];
    assert SubtreeList(t, 6, [], Forward, PreOrder, 5) == [];
  }

  lemma PreForwardSubtreeF(t: Arena)
    requires Shaped(t)
    ensures Subtree(t, 5, Forward, PreOrder, 3) == [Visit(5, 3), Visit(6, 4)]
  {
    PreForwardSubtreeM(t);
    assert Ordered(t[5].children, Forward) == [6];
    assert SubtreeList(t, 5, [6], Forward, PreOrder, 4) == Subtree(t, 6, Forward, PreOrder, 4);
  }

  lemma PreForwardSubtreeE(t: Arena)
    requires Shaped(t)
    ensures Subtree(t, 4, Forward, PreOrder, 2) == [Visit(4, 2), Visit(5, 3), Visit(6, 4)]
  {
    PreForwardSubtreeF(t);
    assert Ordered(t[4].children, Forward) == [5];
    assert SubtreeList(t, 4, [5], Forward, PreOrder, 3) == Subtree(t, 5, Forward, PreOrder, 3);
  }

  lemma PreForwardSubtreeB(t: Arena)
    requires Shaped(t)
    ensures Subtree(t, 1, Forward, PreOrder, 1) == [Visit(1, 1), Visit(3, 2), Visit(4, 2), Visit(5, 3), Visit(6, 4)]
  {
    PreForwardSubtreeD(t);
    PreForwardSubtreeE(t);
    assert Ordered(t[1].children, Forward) == [3, 4];
    assert SubtreeList(t, 1, [4], Forward, PreOrder, 2) == Subtree(t, 4, Forward, PreOrder, 2);
    assert SubtreeList(t, 1, [3, 4], Forward, PreOrder, 2) == Subtree(t, 3, Forward, PreOrder, 2) + Subtree(t, 4, Forward, PreOrder, 2);
  }

  lemma PreForwardSubtreeI(t: Arena)
    requires Shaped(t)
    ensures Subtree(t, 9, Forward, PreOrder, 3) == [Visit(9, 3)]
  {
    assert Ordered(t[9].children, Forward) == [];
    assert SubtreeList(t, 9, [], Forward, PreOrder, 4) == [];
  }

  lemma PreForwardSubtreeJ(t: Arena)
    requires Shaped(t)
    ensures Subtree(t, 10, Forward, PreOrder, 3) == [Visit(10, 3)]
  {
    assert Ordered(t[10].children, Forward) == [];
    assert SubtreeList(t, 10, [], Forward, PreOrder, 4) == [];
  }

  lemma PreForwardSubtreeG(t: Arena)
    requires Shaped(t)
    ensures Subtree(t, 7, Forward, PreOrder, 2) == [Visit(7, 2), Visit(9, 3), Visit(10, 3)]
  {
    PreForwardSubtreeI(t);
    PreForwardSubtreeJ(t);
    assert Ordered(t[7].children, Forward) == [9, 10];
    assert SubtreeList(t, 7, [10], Forward, PreOrder, 3) == Subtree(t, 10, Forward, PreOrder, 3);
    assert SubtreeList(t, 7, [9, 10], Forward, PreOrder, 3) == Subtree(t, 9, Forward, PreOrder, 3) + Subtree(t, 10, Forward, PreOrder, 3);
  }

  lemma PreForwardSubtreeN(t: Arena)
    requires Shaped(t)
    ensures Subtree(t, 13, Forward, PreOrder, 4) == [Visit(13, 4)]
  {
    assert Ordered(t[13].children, Forward) == [];
    assert SubtreeList(t, 13, [], Forward, PreOrder, 5) == [];
  }

  lemma PreForwardSubtreeK(t: Arena)
    requires Shaped(t)
    ensures Subtree(t, 11, Forward, PreOrder, 3) == [Visit(11, 3), Visit(13, 4)]
  {
    PreForwardSubtreeN(t);
    assert Ordered(t[11].children, Forward) == [13];
    assert SubtreeList(t, 11, [13], Forward, PreOrder, 4) == Subtree(t, 13, Forward, PreOrder, 4);
  }

  lemma PreForwardSubtreeO(t: Arena)
    requires Shaped(t)
    ensures Subtree(t, 14, Forward, PreOrder, 4) == [Visit(14, 4)]
  {
    assert Ordered(t[14].children, Forward) == [];
    assert SubtreeList(t, 14, [], Forward, PreOrder, 5) == [];
  }

  lemma PreForwardSubtreeL(t: Arena)
    requires Shaped(t)
    ensures Subtree(t, 12, Forward, PreOrder, 3) == [Visit(12, 3), Visit(14, 4)]
  {
    PreForwardSubtreeO(t);
    assert Ordered(t[12].children, Forward) == [14];
    assert SubtreeList(t, 12, [14], Forward, PreOrder, 4) == Subtree(t, 14, Forward, PreOrder, 4);
  }

  lemma PreForwardSubtreeH(t: Arena)
    requires Shaped(t)
    ensures Subtree(t, 8, Forward, PreOrder, 2) == [Visit(8, 2), Visit(11, 3), Visit(13, 4), Visit(12, 3), Visit(14, 4)]
  {
    PreForwardSubtreeK(t);
    PreForwardSubtreeL(t);
    assert Ordered(t[8].children, Forward) == [11, 12];
    assert SubtreeList(t, 8, [12], Forward, PreOrder, 3) == Subtree(t, 12, Forward, PreOrder, 3);
    assert SubtreeList(t, 8, [11, 12], Forward, PreOrder, 3) == Subtree(t, 11, Forward, PreOrder, 3) + Subtree(t, 12, Forward, PreOrder, 3);
  }

  lemma PreForwardSubtreeC(t: Arena)
    requires Shaped(t)
    ensures Subtree(t, 2, Forward, PreOrder, 1) == [Visit(2, 1), Visit(7, 2), Visit(9, 3), Visit(10, 3), Visit(8, 2), Visit(11, 3), Visit(13, 4), Visit(12, 3), Visit(14, 4)]
  {
    PreForwardSubtreeG(t);
    PreForwardSubtreeH(t);
    assert Ordered(t[2].children, Forward) == [7, 8];
    assert SubtreeList(t, 2, [8], Forward, PreOrder, 2) == Subtree(t, 8, Forward, PreOrder, 2);
    assert SubtreeList(t, 2, [7, 8], Forward, PreOrder, 2) == Subtree(t, 7, Forward, PreOrder, 2) + Subtree(t, 8, Forward, PreOrder, 2);
  }

  lemma PreForwardSubtreeA(t: Arena)
    requires Shaped(t)
    ensures Subtree(t, 0, Forward, PreOrder, 0) == [Visit(0, 0), Visit(1, 1), Visit(3, 2), Visit(4, 2), Visit(5, 3), Visit(6, 4), Visit(2, 1), Visit(7, 2), Visit(9, 3), Visit(10, 3), Visit(8, 2), Visit(11, 3), Visit(13, 4), Visit(12, 3), Visit(14, 4)]
  {
    PreForwardSubtreeB(t);
    PreForwardSubtreeC(t);
    assert Ordered(t[0].children, Forward) == [1, 2];
    assert SubtreeList(t, 0, [2], Forward, PreOrder, 1) == Subtree(t, 2, Forward, PreOrder, 1);
    assert SubtreeList(t, 0, [1, 2], Forward, PreOrder, 1) == Subtree(t, 1, Forward, PreOrder, 1) + Subtree(t, 2, Forward, PreOrder, 1);
  }

  lemma PostForwardSubtreeD(t: Arena)
    requires Shaped(t)
    ensures Subtree(t, 3, Forward, PostOrder, 2) == [Visit(3, 2)]
  {
    assert Ordered(t[3].children, Forward) == [];
    assert SubtreeList(t, 3, [], Forward, PostOrder, 3) == [];
  }

  lemma PostForwardSubtreeM(t: Arena)
    requires Shaped(t)
    ensures Subtree(t, 6, Forward, PostOrder, 4) == [Visit(6, 4)]
  {
    assert Ordered(t[6].children, Forward) == [];
    assert SubtreeList(t, 6, [], Forward, PostOrder, 5) == [];
  }

  lemma PostForwardSubtreeF(t: Arena)
    requires Shaped(t)
    ensures Subtree(t, 5, Forward, PostOrder, 3) == [Visit(6, 4), Visit(5, 3)]
  {
    PostForwardSubtreeM(t);
    assert Ordered(t[5].children, Forward) == [6];
    assert SubtreeList(t, 5, [6], Forward, PostOrder, 4) == Subtree(t, 6, Forward, PostOrder, 4);
  }

  lemma PostForwardSubtreeE(t: Arena)
    requires Shaped(t)
    ensures Subtree(t, 4, Forward, PostOrder, 2) == [Visit(6, 4), Visit(5, 3), Visit(4, 2)]
  {
    PostForwardSubtreeF(t);
    assert Ordered(t[4].children, Forward) == [5];
    assert SubtreeList(t, 4, [5], Forward, PostOrder, 3) == Subtree(t, 5, Forward, PostOrder, 3);
  }

  lemma PostForwardSubtreeB(t: Arena)
    requires Shaped(t)
    ensures Subtree(t, 1, Forward, PostOrder, 1) == [Visit(3, 2), Visit(6, 4), Visit(5, 3), Visit(4, 2), Visit(1, 1)]
  {
    PostForwardSubtreeD(t);
    PostForwardSubtreeE(t);
    assert Ordered(t[1].children, Forward) == [3, 4];
    assert SubtreeList(t, 1, [4], Forward, PostOrder, 2) == Subtree(t, 4, Forward, PostOrder, 2);
    assert SubtreeList(t, 1, [3, 4], Forward, PostOrder, 2) == Subtree(t, 3, Forward, PostOrder, 2) + Subtree(t, 4, Forward, PostOrder, 2);
  }

  lemma PostForwardSubtreeI(t: Arena)
    requires Shaped(t)
    ensures Subtree(t, 9, Forward, PostOrder, 3) == [Visit(9, 3)]
  {
    assert Ordered(t[9].children, Forward) == [];
    assert SubtreeList(t, 9, [], Forward, PostOrder, 4) == [];
  }

  lemma PostForwardSubtreeJ(t: Arena)
    requires Shaped(t)
    ensures Subtree(t, 10, Forward, PostOrder, 3) == [Visit(10, 3)]
  {
    assert Ordered(t[10].children, Forward) == [];
    assert SubtreeList(t, 10, [], Forward, PostOrder, 4) == [];
  }

  lemma PostForwardSubtreeG(t: Arena)
    requires Shaped(t)
    ensures Subtree(t, 7, Forward, PostOrder, 2) == [Visit(9, 3), Visit(10, 3), Visit(7, 2)]
  {
    PostForwardSubtreeI(t);
    PostForwardSubtreeJ(t);
    assert Ordered(t[7].children, Forward) == [9, 10];
    assert SubtreeList(t, 7, [10], Forward, PostOrder, 3) == Subtree(t, 10, Forward, PostOrder, 3);
    assert SubtreeList(t, 7, [9, 10], Forward, PostOrder, 3) == Subtree(t, 9, Forward, PostOrder, 3) + Subtree(t, 10, Forward, PostOrder, 3);
  }

  lemma PostForwardSubtreeN(t: Arena)
    requires Shaped(t)
    ensures Subtree(t, 13, Forward, PostOrder, 4) == [Visit(13, 4)]
  {
    assert Ordered(t[13].children, Forward) == [];
    assert SubtreeList(t, 13, [], Forward, PostOrder, 5) == [];
  }

  lemma PostForwardSubtreeK(t: Arena)
    requires Shaped(t)
    ensures Subtree(t, 11, Forward, PostOrder, 3) == [Visit(13, 4), Visit(11, 3)]
  {
    PostForwardSubtreeN(t);
    assert Ordered(t[11].children, Forward) == [13];
    assert SubtreeList(t, 11, [13], Forward, PostOrder, 4) == Subtree(t, 13, Forward, PostOrder, 4);
  }

  lemma PostForwardSubtreeO(t: Arena)
    requires Shaped(t)
    ensures Subtree(t, 14, Forward, PostOrder, 4) == [Visit(14, 4)]
  {
    assert Ordered(t[14].children, Forward) == [];
    assert SubtreeList(t, 14, [], Forward, PostOrder, 5) == [];
  }

  lemma PostForwardSubtreeL(t: Arena)
    requires Shaped(t)
    ensures Subtree(t, 12, Forward, PostOrder, 3) == [Visit(14, 4), Visit(12, 3)]
  {
    PostForwardSubtreeO(t);
    assert Ordered(t[12].children, Forward) == [14];
    assert SubtreeList(t, 12, [14], Forward, PostOrder, 4) == Subtree(t, 14, Forward, PostOrder, 4);
  }

  lemma PostForwardSubtreeH(t: Arena)
    requires Shaped(t)
    ensures Subtree(t, 8, Forward, PostOrder, 2) == [Visit(13, 4), Visit(11, 3), Visit(14, 4), Visit(12, 3), Visit(8, 2)]
  {
    PostForwardSubtreeK(t);
    PostForwardSubtreeL(t);
    assert Ordered(t[8].children, Forward) == [11, 12];
    assert SubtreeList(t, 8, [12], Forward, PostOrder, 3) == Subtree(t, 12, Forward, PostOrder, 3);
    assert SubtreeList(t, 8, [11, 12], Forward, PostOrder, 3) == Subtree(t, 11, Forward, PostOrder, 3) + Subtree(t, 12, Forward, PostOrder, 3);
  }

  lemma PostForwardSubtreeC(t: Arena)
    requires Shaped(t)
    ensures Subtree(t, 2, Forward, PostOrder, 1) == [Visit(9, 3), Visit(10, 3), Visit(7, 2), Visit(13, 4), Visit(11, 3), Visit(14, 4), Visit(12, 3), Visit(8, 2), Visit(2, 1)]
  {
    PostForwardSubtreeG(t);
    PostForwardSubtreeH(t);
    assert Ordered(t[2].children, Forward) == [7, 8];
    assert SubtreeList(t, 2, [8], Forward, PostOrder, 2) == Subtree(t, 8, Forward, PostOrder, 2);
    assert SubtreeList(t, 2, [7, 8], Forward, PostOrder, 2) == Subtree(t, 7, Forward, PostOrder, 2) + Subtree(t, 8, Forward, PostOrder, 2);
  }

  lemma PostForwardSubtreeA(t: Arena)
    requires Shaped(t)
    ensures Subtree(t, 0, Forward, PostOrder, 0) == [Visit(3, 2), Visit(6, 4), Visit(5, 3), Visit(4, 2), Visit(1, 1), Visit(9, 3), Visit(10, 3), Visit(7, 2), Visit(13, 4), Visit(11, 3), Visit(14, 4), Visit(12, 3), Visit(8, 2), Visit(2, 1), Visit(0, 0)]
  {
    PostForwardSubtreeB(t);
    PostForwardSubtreeC(t);
    assert Ordered(t[0].children, Forward) == [1, 2];
    assert SubtreeList(t, 0, [2], Forward, PostOrder, 1) == Subtree(t, 2, Forward, PostOrder, 1);
    assert SubtreeList(t, 0, [1, 2], Forward, PostOrder, 1) == Subtree(t, 1, Forward, PostOrder, 1) + Subtree(t, 2, Forward, PostOrder, 1);
  }

  lemma PreReverseSubtreeD(t: Arena)
    requires Shaped(t)
    ensures Subtree(t, 3, Reverse, PreOrder, 2) == [Visit(3, 2)]
  {
    assert Ordered(t[3].children, Reverse) == [];
    assert SubtreeList(t, 3, [], Reverse, PreOrder, 3) == [];
  }

  lemma PreReverseSubtreeM(t: Arena)
    requires Shaped(t)
    ensures Subtree(t, 6, Reverse, PreOrder, 4) == [Visit(6, 4)]
  {
    assert Ordered(t[6].children, Reverse) == [];
    assert SubtreeList(t, 6, [], Reverse, PreOrder, 5) == [];
  }

  lemma PreReverseSubtreeF(t: Arena)
    requires Shaped(t)
    ensures Subtree(t, 5, Reverse, PreOrder, 3) == [Visit(5, 3), Visit(6, 4)]
  {
    PreReverseSubtreeM(t);
    assert Ordered(t[5].children, Reverse) == [6];
    assert SubtreeList(t, 5, [6], Reverse, PreOrder, 4) == Subtree(t, 6, Reverse, PreOrder, 4);
  }

  lemma PreReverseSubtreeE(t: Arena)
    requires Shaped(t)
    ensures Subtree(t, 4, Reverse, PreOrder, 2) == [Visit(4, 2), Visit(5, 3), Visit(6, 4)]
  {
    PreReverseSubtreeF(t);
    assert Ordered(t[4].children, Reverse) == [5];
    assert SubtreeList(t, 4, [5], Reverse, PreOrder, 3) == Subtree(t, 5, Reverse, PreOrder, 3);
  }

  lemma PreReverseSubtreeB(t: Arena)
    requires Shaped(t)
    ensures Subtree(t, 1, Reverse, PreOrder, 1) == [Visit(1, 1), Visit(4, 2), Visit(5, 3), Visit(6, 4), Visit(3, 2)]
  {
    PreReverseSubtreeD(t);
    PreReverseSubtreeE(t);
    assert Ordered(t[1].children, Reverse) == [4, 3];
    assert SubtreeList(t, 1, [3], Reverse, PreOrder, 2) == Subtree(t, 3, Reverse, PreOrder, 2);
    assert SubtreeList(t, 1, [4, 3], Reverse, PreOrder, 2) == Subtree(t, 4, Reverse, PreOrder, 2) + Subtree(t, 3, Reverse, PreOrder, 2);
  }

  lemma PreReverseSubtreeI(t: Arena)
    requires Shaped(t)
    ensures Subtree(t, 9, Reverse, PreOrder, 3) == [Visit(9, 3)]
  {
    assert Ordered(t[9].children, Reverse) == [];
    assert SubtreeList(t, 9, [], Reverse, PreOrder, 4) == [];
  }

  lemma PreReverseSubtreeJ(t: Arena)
    requires Shaped(t)
    ensures Subtree(t, 10, Reverse, PreOrder, 3) == [Visit(10, 3)]
  {
    assert Ordered(t[10].children, Reverse) == [];
    assert SubtreeList(t, 10, [], Reverse, PreOrder, 4) == [];
  }

  lemma PreReverseSubtreeG(t: Arena)
    requires Shaped(t)
    ensures Subtree(t, 7, Reverse, PreOrder, 2) == [Visit(7, 2), Visit(10, 3), Visit(9, 3)]
  {
    PreReverseSubtreeI(t);
    PreReverseSubtreeJ(t);
    assert Ordered(t[7].children, Reverse) == [10, 9];
    assert SubtreeList(t, 7, [9], Reverse, PreOrder, 3) == Subtree(t, 9, Reverse, PreOrder, 3);
    assert SubtreeList(t, 7, [10, 9], Reverse, PreOrder, 3) == Subtree(t, 10, Reverse, PreOrder, 3) + Subtree(t, 9, Reverse, PreOrder, 3);
  }

  lemma PreReverseSubtreeN(t: Arena)
    requires Shaped(t)
    ensures Subtree(t, 13, Reverse, PreOrder, 4) == [Visit(13, 4)]
  {
    assert Ordered(t[13].children, Reverse) == [];
    assert SubtreeList(t, 13, [], Reverse, PreOrder, 5) == [];
  }

  lemma PreReverseSubtreeK(t: Arena)
    requires Shaped(t)
    ensures Subtree(t, 11, Reverse, PreOrder, 3) == [Visit(11, 3), Visit(13, 4)]
  {
    PreReverseSubtreeN(t);
    assert Ordered(t[11].children, Reverse) == [13];
    assert SubtreeList(t, 11, [13], Reverse, PreOrder, 4) == Subtree(t, 13, Reverse, PreOrder, 4);
  }

  lemma PreReverseSubtreeO(t: Arena)
    requires Shaped(t)
    ensures Subtree(t, 14, Reverse, PreOrder, 4) == [Visit(14, 4)]
  {
    assert Ordered(t[14].children, Reverse) == [];
    assert SubtreeList(t, 14, [], Reverse, PreOrder, 5) == [];
  }

  lemma PreReverseSubtreeL(t: Arena)
    requires Shaped(t)
    ensures Subtree(t, 12, Reverse, PreOrder, 3) == [Visit(12, 3), Visit(14, 4)]
  {
    PreReverseSubtreeO(t);
    assert Ordered(t[12].children, Reverse) == [14];
    assert SubtreeList(t, 12, [14], Reverse, PreOrder, 4) == Subtree(t, 14, Reverse, PreOrder, 4);
  }

  lemma PreReverseSubtreeH(t: Arena)
    requires Shaped(t)
    ensures Subtree(t, 8, Reverse, PreOrder, 2) == [Visit(8, 2), Visit(12, 3), Visit(14, 4), Visit(11, 3), Visit(13, 4)]
  {
    PreReverseSubtreeK(t);
    PreReverseSubtreeL(t);
    assert Ordered(t[8].children, Reverse) == [12, 11];
    assert SubtreeList(t, 8, [11], Reverse, PreOrder, 3) == Subtree(t, 11, Reverse, PreOrder, 3);
    assert SubtreeList(t, 8, [12, 11], Reverse, PreOrder, 3) == Subtree(t, 12, Reverse, PreOrder, 3) + Subtree(t, 11, Reverse, PreOrder, 3);
  }

  lemma PreReverseSubtreeC(t: Arena)
    requires Shaped(t)
    ensures Subtree(t, 2, Reverse, PreOrder, 1) == [Visit(2, 1), Visit(8, 2), Visit(12, 3), Visit(14, 4), Visit(11, 3), Visit(13, 4), Visit(7, 2), Visit(10, 3), Visit(9, 3)]
  {
    PreReverseSubtreeG(t);
    PreReverseSubtreeH(t);
    assert Ordered(t[2].children, Reverse) == [8, 7];
    assert SubtreeList(t, 2, [7], Reverse, PreOrder, 2) == Subtree(t, 7, Reverse, PreOrder, 2);
    assert SubtreeList(t, 2, [8, 7], Reverse, PreOrder, 2) == Subtree(t, 8, Reverse, PreOrder, 2) + Subtree(t, 7, Reverse, PreOrder, 2);
  }

  lemma PreReverseSubtreeA(t: Arena)
    requires Shaped(t)
    ensures Subtree(t, 0, Reverse, PreOrder, 0) == [Visit(0, 0), Visit(2, 1), Visit(8, 2), Visit(12, 3), Visit(14, 4), Visit(11, 3), Visit(13, 4), Visit(7, 2), Visit(10, 3), Visit(9, 3), Visit(1, 1), Visit(4, 2), Visit(5, 3), Visit(6, 4), Visit(3, 2)]
  {
    PreReverseSubtreeB(t);
    PreReverseSubtreeC(t);
    assert Ordered(t[0].children, Reverse) == [2, 1];
    assert SubtreeList(t, 0, [1], Reverse, PreOrder, 1) == Subtree(t, 1, Reverse, PreOrder, 1);
    assert SubtreeList(t, 0, [2, 1], Reverse, PreOrder, 1) == Subtree(t, 2, Reverse, PreOrder, 1) + Subtree(t, 1, Reverse, PreOrder, 1);
  }

  lemma PostReverseSubtreeD(t: Arena)
    requires Shaped(t)
    ensures Subtree(t, 3, Reverse, PostOrder, 2) == [Visit(3, 2)]
  {
    assert Ordered(t[3].children, Reverse) == [];
    assert SubtreeList(t, 3, [], Reverse, PostOrder, 3) == [];
  }

  lemma PostReverseSubtreeM(t: Arena)
    requires Shaped(t)
    ensures Subtree(t, 6, Reverse, PostOrder, 4) == [Visit(6, 4)]
  {
    assert Ordered(t[6].children, Reverse) == [];
    assert SubtreeList(t, 6, [], Reverse, PostOrder, 5) == [];
  }

  lemma PostReverseSubtreeF(t: Arena)
    requires Shaped(t)
    ensures Subtree(t, 5, Reverse, PostOrder, 3) == [Visit(6, 4), Visit(5, 3)]
  {
    PostReverseSubtreeM(t);
    assert Ordered(t[5].children, Reverse) == [6];
    assert SubtreeList(t, 5, [6], Reverse, PostOrder, 4) == Subtree(t, 6, Reverse, PostOrder, 4);
  }

  lemma PostReverseSubtreeE(t: Arena)
    requires Shaped(t)
    ensures Subtree(t, 4, Reverse, PostOrder, 2) == [Visit(6, 4), Visit(5, 3), Visit(4, 2)]
  {
    PostReverseSubtreeF(t);
    assert Ordered(t[4].children, Reverse) == [5];
    assert SubtreeList(t, 4, [5], Reverse, PostOrder, 3) == Subtree(t, 5, Reverse, PostOrder, 3);
  }

  lemma PostReverseSubtreeB(t: Arena)
    requires Shaped(t)
    ensures Subtree(t, 1, Reverse, PostOrder, 1) == [Visit(6, 4), Visit(5, 3), Visit(4, 2), Visit(3, 2), Visit(1, 1)]
  {
    PostReverseSubtreeD(t);
    PostReverseSubtreeE(t);
    assert Ordered(t[1].children, Reverse) == [4, 3];
    assert SubtreeList(t, 1, [3], Reverse, PostOrder, 2) == Subtree(t, 3, Reverse, PostOrder, 2);
    assert SubtreeList(t, 1, [4, 3], Reverse, PostOrder, 2) == Subtree(t, 4, Reverse, PostOrder, 2) + Subtree(t, 3, Reverse, PostOrder, 2);
  }

  lemma PostReverseSubtreeI(t: Arena)
    requires Shaped(t)
    ensures Subtree(t, 9, Reverse, PostOrder, 3) == [Visit(9, 3)]
  {
    assert Ordered(t[9].children, Reverse) == [];
    assert SubtreeList(t, 9, [], Reverse, PostOrder, 4) == [];
  }

  lemma PostReverseSubtreeJ(t: Arena)
    requires Shaped(t)
    ensures Subtree(t, 10, Reverse, PostOrder, 3) == [Visit(10, 3)]
  {
    assert Ordered(t[10].children, Reverse) == [];
    assert SubtreeList(t, 10, [], Reverse, PostOrder, 4) == [];
  }

  lemma PostReverseSubtreeG(t: Arena)
    requires Shaped(t)
    ensures Subtree(t, 7, Reverse, PostOrder, 2) == [Visit(10, 3), Visit(9, 3), Visit(7, 2)]
  {
    PostReverseSubtreeI(t);
    PostReverseSubtreeJ(t);
    assert Ordered(t[7].children, Reverse) == [10, 9];
    assert SubtreeList(t, 7, [9], Reverse, PostOrder, 3) == Subtree(t, 9, Reverse, PostOrder, 3);
    assert SubtreeList(t, 7, [10, 9], Reverse, PostOrder, 3) == Subtree(t, 10, Reverse, PostOrder, 3) + Subtree(t, 9, Reverse, PostOrder, 3);
  }

  lemma PostReverseSubtreeN(t: Arena)
    requires Shaped(t)
    ensures Subtree(t, 13, Reverse, PostOrder, 4) == [Visit(13, 4)]
  {
    assert Ordered(t[13].children, Reverse) == [];
    assert SubtreeList(t, 13, [], Reverse, PostOrder, 5) == [];
  }

  lemma PostReverseSubtreeK(t: Arena)
    requires Shaped(t)
    ensures Subtree(t, 11, Reverse, PostOrder, 3) == [Visit(13, 4), Visit(11, 3)]
  {
    PostReverseSubtreeN(t);
    assert Ordered(t[11].children, Reverse) == [13];
    assert SubtreeList(t, 11, [13], Reverse, PostOrder, 4) == Subtree(t, 13, Reverse, PostOrder, 4);
  }

  lemma PostReverseSubtreeO(t: Arena)
    requires Shaped(t)
    ensures Subtree(t, 14, Reverse, PostOrder, 4) == [Visit(14, 4)]
  {
    assert Ordered(t[14].children, Reverse) == [];
    assert SubtreeList(t, 14, [], Reverse, PostOrder, 5) == [];
  }

  lemma PostReverseSubtreeL(t: Arena)
    requires Shaped(t)
    ensures Subtree(t, 12, Reverse, PostOrder, 3) == [Visit(14, 4), Visit(12, 3)]
  {
    PostReverseSubtreeO(t);
    assert Ordered(t[12].children, Reverse) == [14];
    assert SubtreeList(t, 12, [14], Reverse, PostOrder, 4) == Subtree(t, 14, Reverse, PostOrder, 4);
  }

  lemma PostReverseSubtreeH(t: Arena)
    requires Shaped(t)
    ensures Subtree(t, 8, Reverse, PostOrder, 2) == [Visit(14, 4), Visit(12, 3), Visit(13, 4), Visit(11, 3), Visit(8, 2)]
  {
    PostReverseSubtreeK(t);
    PostReverseSubtreeL(t);
    assert Ordered(t[8].children, Reverse) == [12, 11];
    assert SubtreeList(t, 8, [11], Reverse, PostOrder, 3) == Subtree(t, 11, Reverse, PostOrder, 3);
    assert SubtreeList(t, 8, [12, 11], Reverse, PostOrder, 3) == Subtree(t, 12, Reverse, PostOrder, 3) + Subtree(t, 11, Reverse, PostOrder, 3);
  }

  lemma PostReverseSubtreeC(t: Arena)
    requires Shaped(t)
    ensures Subtree(t, 2, Reverse, PostOrder, 1) == [Visit(14, 4), Visit(12, 3), Visit(13, 4), Visit(11, 3), Visit(8, 2), Visit(10, 3), Visit(9, 3), Visit(7, 2), Visit(2, 1)]
  {
    PostReverseSubtreeG(t);
    PostReverseSubtreeH(t);
    assert Ordered(t[2].children, Reverse) == [8, 7];
    assert SubtreeList(t, 2, [7], Reverse, PostOrder, 2) == Subtree(t, 7, Reverse, PostOrder, 2);
    assert SubtreeList(t, 2, [8, 7], Reverse, PostOrder, 2) == Subtree(t, 8, Reverse, PostOrder, 2) + Subtree(t, 7, Reverse, PostOrder, 2);
  }

  lemma PostReverseSubtreeA(t: Arena)
    requires Shaped(t)
    ensures Subtree(t, 0, Reverse, PostOrder, 0) == [Visit(14, 4), Visit(12, 3), Visit(13, 4), Visit(11, 3), Visit(8, 2), Visit(10, 3), Visit(9, 3), Visit(7, 2), Visit(2, 1), Visit(6, 4), Visit(5, 3), Visit(4, 2), Visit(3, 2), Visit(1, 1), Visit(0, 0)]
  {
    PostReverseSubtreeB(t);
    PostReverseSubtreeC(t);
    assert Ordered(t[0].children, Reverse) == [2, 1];
    assert SubtreeList(t, 0, [1], Reverse, PostOrder, 1) == Subtree(t, 1, Reverse, PostOrder, 1);
    assert SubtreeList(t, 0, [2, 1], Reverse, PostOrder, 1) == Subtree(t, 2, Reverse, PostOrder, 1) + Subtree(t, 1, Reverse, PostOrder, 1);
  }
}
