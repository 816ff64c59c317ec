# spacehoarder, modelled in Dafny

spacehoarder (`sph`) measures how much disk space each directory takes. It crawls a directory tree into
an in-memory tree of sizes, shows that tree in a terminal widget, and draws it as a squarified
treemap. This project models the sequential core of the program and proves properties of that model:

- **Tree walks** (`tree.dfy`, `tree_next.dfy`, `tree_fixture.dfy`). The generic depth-first `Walk`
  covers pre-order and post-order, forward and reverse, resumed at any node, and can skip that node's
  subtree. It is modelled on an arena of nodes with parent and child links. A visitor may refuse a
  visit; the walk then ends with an explicit stop flag, which is how the model renders the source's
  panic and recover. `Next` is the stateless single-step successor. Its helpers (`childAfter`,
  `leafUnder`, `nextPreOrder`, `nextPostOrder`) are methods with loops, each proved equal to a
  specification function. Repeatedly applying `Next` is proved to reproduce the walk.
- **Directory tree** (`dirtree.dfy`, `dirtree_fixture.dfy`). `Node` is a class with `Parent`, `Dir`
  and `Children`. `Add`, `Del` (swap-remove), `UpdateSize` and `addSize` update sizes along the
  parent chain in place. For every node, its size minus the sum of its children's sizes (its own
  bytes) is proved to be preserved.
- **Crawler** (`build.dfy`, `build_fixture.dfy`). `buildFs` walks a filesystem given as a map from
  path to listing, using a LIFO work stack, and emits the `Root`/`Add`/`Update` op log. On completion
  every node's size is proved to be the total bytes below its path, the listing order to be the
  stack's depth-first order, and the op log to be the one each listing implies. The test fixture's
  sizes follow: 65, 30, 35 and 30.
- **Squarified treemap** (`squarify.dfy`, `squarify_fixture.dfy`). The model covers the row with its
  cached minimum, maximum and sum, `worst`, `makeBlocks`, `areas` with its placeholder and sort, and
  the greedy `squarify` recursion. `float64` is modelled as `real`, so area conservation holds
  exactly.
- **Terminal widget state** (`ui.dfy`). This covers the node-flag bit set, the hidden-flag rule and
  its propagation over a walk, clamping of the selected row, and the next visible node.
- **Status line** (`status.dfy`). A line of parts whose texts are joined by single spaces and
  pushed to the line's text setter whenever a part changes.

`wrappers.dfy` holds the `Option` type.

## Model

| member | source | states |
|---|---|---|
| Tree.Reversed | tree/tree.go:77-81 | the reverse iteration order: element `i` is the input's element `|s|-1-i` |
| Tree.Ordered | tree/tree.go:73-81 | children in walk order: same length, no duplicates introduced, first element is the first child (Forward) or the last child (Reverse) |
| Tree.OrderedMembers | tree/tree.go:73-81 | walk order visits exactly the node's children, in both directions of membership |
| Tree.After | tree/tree.go:117-127 | the `ignore` scan: only elements of the list follow `x`, nothing follows an absent `x`, and the rest is strictly shorter |
| Tree.AfterSplit | tree/tree.go:117-127 | a list containing `x` is its prefix, `x`, then exactly `After(ks, x)` |
| Tree.AfterExcludes | tree/tree.go:117-127 | with distinct children, the node itself is never among the siblings walked after it |
| Tree.CallVisitor | tree/tree.go:53-57 | a stopped walk calls nothing more; otherwise the visit is logged and the walk stops exactly when the visitor returns false |
| Tree.Nodes | tree/walk_test.go:94-110 | the visited nodes, position by position |
| Tree.RootOf | tree/tree.go:102-105 | climbing parents ends at a node of the arena that has no parent |
| Tree.FeedAppend | tree/tree.go:43-57 | feeding two visit sequences one after the other is feeding their concatenation |
| Tree.FeedStopped | tree/tree.go:59-66 | once stopped, further visits change nothing |
| Tree.WalkNodeIsFeed | tree/tree.go:68-99 | `walk` is the visitor fed the node's subtree sequence, or nothing when `skip` |
| Tree.WalkChildrenIsFeed | tree/tree.go:89-92 | the child loop of `walk` feeds the children's subtrees in order |
| Tree.SiblingLoopIsFeed | tree/tree.go:117-130 | the sibling loop feeds the subtrees of the siblings after the node, in walk order |
| Tree.WalkSiblingsIsFeed | tree/tree.go:102-136 | `walkSiblings` feeds the continuation: later siblings, the parent in post-order, then upwards |
| Tree.WalkIsFeed | tree/tree.go:42-49 | `Walk` is the visitor fed the whole trace (subtree unless skipped, then the continuation) |
| Tree.FeedAllAccepted | tree/tree.go:53-57 | a visitor that accepts every visit sees the whole sequence and the walk is not stopped |
| Tree.FeedStopsAtRefusal | tree/tree.go:53-66 | a visitor refusing the k-th visit sees exactly k+1 visits and the walk is stopped |
| Tree.FeedPrefixAccepted | tree/tree.go:53-57 | the visits before the first refusal are all logged |
| Tree.FeedRefusedFirst | tree/tree.go:53-66 | a refusal of the first visit stops the walk after that one call |
| Tree.WalkWithoutRefusal | tree/tree.go:42-66 | a walk whose visitor always returns true logs the full trace and is not stopped |
| Tree.WalkStopsAtRefusal | tree/tree.go:42-66 | a walk whose visitor first returns false on call k logs exactly the first k+1 visits of the trace and stops |
| Tree.SubtreeListAppend | tree/tree.go:89-92 | walking the children `a + b` is walking `a` then walking `b` |
| Tree.SubtreeListAround | tree/tree.go:89-92 | the parent's children in walk order are those before `n`, `n`'s subtree, then those after `n` |
| Tree.SubtreeListOne | tree/tree.go:89-92 | walking a single child is walking its subtree |
| Tree.ContinuationStep | tree/tree.go:117-135 | the continuation from `n` is the later siblings, the parent in post-order at depth-1, then the parent's continuation |
| Tree.SubtreeStep | tree/tree.go:84-97 | a subtree is the node (pre-order), its children's subtrees at depth+1, the node (post-order) |
| Tree.ResumeStep | tree/tree.go:42-135 | the trace resumed at a child is a suffix of the trace resumed at its parent |
| Tree.TraceResumesRootTraversal | tree/tree.go:34-49 | a walk resumed at any node with its true depth is a suffix of the full traversal from the root |
| Tree.ResumeUp | tree/tree.go:34-49 | the suffix property passes from a parent to its child |
| Tree.WalkFromRoot | tree/tree.go:42-105 | from a parentless node the walk is exactly that node's subtree |
| Tree.SubtreeDepths | tree/tree.go:86-95 | every visit in a subtree reports the node's depth shifted by the same offset as the start node |
| Tree.SubtreeListDepths | tree/tree.go:91 | children are reported one deeper than their parent, with the same offset |
| Tree.ContinuationDepths | tree/tree.go:129-135 | siblings at the same depth, parents at depth-1: the offset stays that of the start node |
| Tree.TraceDepths | tree/tree.go:91-133 | every reported depth equals the true depth when the walk starts with the true depth |
| Tree.InSubtreeDepth | tree/tree.go:4 | an ancestor is no deeper than its descendant, and equally deep only if it is the same node |
| Tree.InSubtreeStep | tree/tree.go:4 | a descendant of a child is a descendant of the parent |
| Tree.AncestorAtDepthUnique | tree/tree.go:4 | a node has at most one ancestor at each depth |
| Tree.SubtreeOnlyDescendants | tree/tree.go:68-99 | a subtree walk visits only descendants of its node |
| Tree.SubtreeListOnlyDescendants | tree/tree.go:89-92 | the child loop visits only proper descendants of the parent |
| Tree.SubtreeListContains | tree/tree.go:89-92 | every listed child's whole subtree is walked |
| Tree.SubtreeNested | tree/tree.go:68-99 | a descendant's subtree lies inside the ancestor's subtree |
| Tree.NestedStep | tree/tree.go:89-92 | the nesting passes from a parent to its child |
| Tree.VisitInOwnSubtree | tree/tree.go:84-97 | every subtree walk visits its own node |
| Tree.NodeOfMember | tree/walk_test.go:94-110 | a visit's node is among the visited nodes |
| Tree.SubtreeNodeIsDescendant | tree/tree.go:68-99 | a node visited in the subtree is a descendant |
| Tree.DescendantIsSubtreeNode | tree/tree.go:68-99 | every descendant is visited in the subtree |
| Tree.SubtreeNodes | tree/tree.go:68-99 | a subtree walk visits exactly the node and its descendants |
| Tree.ContinuationAvoidsSubtree | tree/tree.go:102-136 | after the subtree the walk never enters it again |
| Tree.SiblingsAvoidSubtree | tree/tree.go:117-130 | the later siblings' subtrees hold no descendant of the node |
| Tree.AncestorsAvoidSubtree | tree/tree.go:132-135 | the parent and what lies outside its subtree are outside the child's subtree |
| Tree.SubtreeListMember | tree/tree.go:89-92 | every visit of the child loop belongs to one child's subtree |
| Tree.SkipOmitsExactlySubtree | tree/tree.go:84-97 | with `skip`, the walk omits exactly the node and its descendants and the continuation is unchanged |
| TreeNext.ChildOf | tree/tree.go:5 | a child links back to its parent and is one level deeper |
| TreeNext.ParentOf | tree/tree.go:4 | a parent lists its child, is one level shallower, and has no duplicate children |
| TreeNext.FirstChild | tree/tree.go:212-217 | the child a non-leaf steps to is a node of the arena |
| TreeNext.FirstChildOf | tree/tree.go:212-217 | that child is the first (Forward) or last (Reverse) child, one level deeper |
| TreeNext.NextSibling | tree/tree.go:168-193 | the sibling found, if any, is a node of the arena |
| TreeNext.NextSiblingOf | tree/tree.go:168-193 | that sibling is the first child after `ch` in walk order and a child of the same parent |
| TreeNext.FirstLeaf | tree/tree.go:195-208 | descending by first (or last) children ends at a leaf |
| TreeNext.Climb | tree/tree.go:218-231 | the next sibling of the nearest ancestor-or-self that has one, if any, is in the arena |
| TreeNext.Successor | tree/tree.go:139-256 | the single step, if any, is a node of the arena |
| TreeNext.AfterFirst | tree/tree.go:179-190 | after the first occurrence of `x` come exactly the later elements |
| TreeNext.ChildAfter | tree/tree.go:168-193 | the index scan with its `ignore` flag returns exactly the next sibling in walk order, or none |
| TreeNext.LeafUnder | tree/tree.go:195-208 | post-order: the first leaf under the node; pre-order: the node itself if a leaf, else its first child |
| TreeNext.NextPreOrder | tree/tree.go:211-233 | the pre-order step: first child of a non-leaf, else the next sibling of the nearest ancestor-or-self that has one, else none |
| TreeNext.NextPostOrder | tree/tree.go:235-248 | the post-order step: none at the root, the parent when no later sibling, else the first leaf under that sibling |
| TreeNext.Next | tree/tree.go:139-255 | no node gives none; otherwise the pre-order or post-order step |
| TreeNext.AfterSkip | tree/tree.go:179-190 | elements before the first occurrence of `c` do not affect what follows it |
| TreeNext.AfterAfter | tree/tree.go:179-190 | the sibling after the next sibling is the second one after the node |
| TreeNext.PreOrderVisitsFrom | tree/tree.go:42-49 | a pre-order walk resumed at a node visits the node's subtree then its continuation |
| TreeNext.SiblingStep | tree/tree.go:117-130 | the continuation of a node with a next sibling starts with that sibling's subtree |
| TreeNext.NoSiblingStep | tree/tree.go:132-135 | the continuation of a last sibling is the parent (post-order) then the parent's continuation |
| TreeNext.PostOrderLeaf | tree/tree.go:94-96 | a post-order walk resumed at a leaf starts with that leaf |
| TreeNext.PostOrderDescend | tree/tree.go:89-96 | a post-order walk resumed at a non-leaf starts in its first child, with the same first leaf |
| TreeNext.PostOrderStartsAtFirstLeaf | tree/tree.go:195-208 | a post-order walk resumed at a node first visits the leaf `leafUnder` finds |
| TreeNext.PreOrderClimb | tree/tree.go:218-231 | the pre-order continuation of a node starts at the node the climb finds, or is empty |
| TreeNext.PostOrderRest | tree/tree.go:235-248 | the post-order continuation starts at the post-order successor, or is empty |
| TreeNext.SuccessorIsNextVisit | tree/tree.go:138-157 | the visits after a node are exactly the walk resumed at its successor; no successor means nothing follows |
| TreeNext.PreOrderLeafRest | tree/tree.go:218-231 | after a leaf, pre-order visits its continuation |
| TreeNext.PreOrderDescend | tree/tree.go:212-217 | after a non-leaf, pre-order visits its first child's subtree and continuation |
| TreeNext.StepsFollowVisits | tree/tree.go:138-157 | repeated steps from a node give the nodes of the walk resumed there, then none |
| TreeNext.First | tree/tree.go:138-157 | the first node of a traversal is a node of the arena |
| TreeNext.NextReproducesWalk | tree/tree.go:138-157 | starting at the first node of the walk from `n`, repeated `Next` yields exactly the walk's nodes, then nil |
| TreeFixture.Fixture | tree/walk_test.go:32-92 | the fifteen-node test tree, node by node |
| TreeFixture.FixtureValid | tree/walk_test.go:58-92 | the test tree is a well-formed arena |
| TreeFixture.FixtureShaped | tree/walk_test.go:73-89 | the test tree has the listed parents, children and depths |
| TreeFixture.PreOrderForwardFromRoot | tree/walk_test.go:142-147 | a,b,d,e,f,m,c,g,i,j,h,k,n,l,o with their depths |
| TreeFixture.PostOrderForwardFromRoot | tree/walk_test.go:148-153 | d,m,f,e,b,i,j,g,n,k,o,l,h,c,a |
| TreeFixture.PreOrderReverseFromRoot | tree/walk_test.go:154-159 | a,c,h,l,o,k,n,g,j,i,b,e,f,m,d |
| TreeFixture.PostOrderReverseFromRoot | tree/walk_test.go:160-165 | o,l,n,k,h,j,i,g,c,m,f,e,d,b,a |
| TreeFixture.PreOrderForwardFromDepth1Node | tree/walk_test.go:166-171 | from b: b,d,e,f,m,c,g,i,j,h,k,n,l,o |
| TreeFixture.PreOrderForwardFromLeafNode | tree/walk_test.go:172-177 | from m: m,c,g,i,j,h,k,n,l,o |
| TreeFixture.PreOrderForwardFromDepth1NodeSkip | tree/walk_test.go:178-183 | from b, skipped: c,g,i,j,h,k,n,l,o |
| TreeFixture.PostOrderForwardFromDepth1Node | tree/walk_test.go:184-189 | from b: d,m,f,e,b,i,j,g,n,k,o,l,h,c,a |
| TreeFixture.PreOrderReverseFromDepth1Node | tree/walk_test.go:190-195 | from b: b,e,f,m,d |
| TreeFixture.PreOrderReverseFromLeafNode | tree/walk_test.go:196-201 | from m: m,d |
| TreeFixture.PostOrderReverseFromDepth1Node | tree/walk_test.go:202-207 | from b: m,f,e,d,b,a |
| TreeFixture.PostOrderReverseFromDepth1NodeSkip | tree/walk_test.go:208-213 | from c, skipped: m,f,e,d,b,a |
| TreeFixture.PostOrderReverseFromDepth2NodeSkip | tree/walk_test.go:214-219 | from g, skipped: c,m,f,e,d,b,a |
| TreeFixture.PreForwardSubtreeA | tree/walk_test.go:142-147 | the forward pre-order subtree of the root |
| TreeFixture.PostForwardSubtreeA | tree/walk_test.go:148-153 | the forward post-order subtree of the root |
| TreeFixture.PreReverseSubtreeA | tree/walk_test.go:154-159 | the reverse pre-order subtree of the root |
| TreeFixture.PostReverseSubtreeA | tree/walk_test.go:160-165 | the reverse post-order subtree of the root |
| Dirtree.Node.constructor | dirtree/dirtree.go:8-12 | a new node has no parent, no children and the given directory |
| Dirtree.Node.AddSize | dirtree/dirtree.go:63-68 | the node and every ancestor grow by `size`, nothing else changes size; the node's own bytes grow by `size`, every other node's own bytes are unchanged |
| Dirtree.Node.Propagate | dirtree/dirtree.go:63-68 | the recursion up the parent chain adds `size` to each node on it |
| Dirtree.Node.Add | dirtree/dirtree.go:15-26 | the child is appended, its parent is this node, this node and every ancestor grow by the child's size, and every node's own bytes are unchanged |
| Dirtree.Node.Del | dirtree/dirtree.go:29-54 | an absent child changes nothing; a present child is swap-removed, this node and every ancestor shrink by its size, own bytes are unchanged, and the removed child's `Parent` is left as it was |
| Dirtree.Node.Find | dirtree/dirtree.go:35-53 | the index of the first occurrence of the child, or the length when it is absent |
| Dirtree.Node.RemoveAt | dirtree/dirtree.go:39-50 | child `i` leaves with the last child moved into its slot, and the chain shrinks by its size |
| Dirtree.Node.SwapOut | dirtree/dirtree.go:39-49 | the slice surgery is exactly the swap-removal |
| Dirtree.Node.UpdateSize | dirtree/dirtree.go:57-60 | the node's size becomes `size`, every ancestor shifts by the difference, own bytes change only at the node |
| Dirtree.Node.Walk | dirtree/dirtree.go:70-75 | the visits are exactly `WalkOf`: the node, then each child's walk in `Children` order; they are closed under children and each later visit is a child of an earlier one |
| Dirtree.Node.WalkChild | dirtree/dirtree.go:72-74 | one turn of the range loop appends the walk of child `i` and keeps the visits closed and descending |
| Dirtree.WalkStep | dirtree/dirtree.go:72-74 | the walks of the first `i + 1` children are those of the first `i` followed by child `i`'s |
| Dirtree.WalkShape | dirtree/dirtree.go:70-75 | in a well-formed tree every visited node ranks no higher than the start, and every one but the start is visited with its parent |
| Dirtree.SiblingWalksDisjoint | dirtree/dirtree.go:70-75 | the walks of two different children of one node share no node |
| Dirtree.WalkListDistinct | dirtree/dirtree.go:72-74 | the walks of distinct children, one after the other, repeat no node |
| Dirtree.WalkDistinct | dirtree/dirtree.go:70-75 | in a well-formed tree the walk visits every node at most once |
| Dirtree.Dirtree.constructor | dirtree/dirtree.go:99-101 | a new tree has no root |
| Dirtree.IndexOf | dirtree/dirtree.go:35-38 | the first index holding the child |
| Dirtree.SwapRemove | dirtree/dirtree.go:39-49 | removal shortens the children by one |
| Dirtree.SwapRemoveMultiset | dirtree/dirtree.go:34-54 | swap-removal removes exactly that child and keeps the others, in some order |
| Dirtree.SwapRemoveAt | dirtree/dirtree.go:39-49 | slot `i` receives the last child; every other slot is unchanged |
| Dirtree.SumSwapRemove | dirtree/dirtree.go:39-50 | the children's total size drops by exactly the removed child's size |
| Dirtree.SumAppend | dirtree/dirtree.go:20-26 | the children's total size is additive |
| Dirtree.ChainChildren | dirtree/dirtree.go:63-68 | a chain node's child on the chain is the previous link of the chain |
| Dirtree.WalkAppend | dirtree/dirtree.go:70-75 | appending a child's walk keeps the visit list closed and descending |
| DirtreeFixture.AddScenario | dirtree/dirtree_test.go:55-97 | two children added under a node of size 20 give size 30 and both parents set |
| DirtreeFixture.DelScenario | dirtree/dirtree_test.go:99-181 | the deletion sequence of the test leaves two children and size 40 |
| DirtreeFixture.DelFromThree | dirtree/dirtree_test.go:156-181 | deleting the middle of three children leaves the first and the last (swapped in) and size 40 |
| Build.ChildPath | dirtree/build.go:128 | a child path is the parent, a separator and the name |
| Build.ChildPaths | dirtree/build.go:128-144 | the child paths of the listed subdirectories, in listing order |
| Build.Adds | dirtree/build.go:142 | one `Add` per subdirectory |
| Build.TrimTrailingSlashes | dirtree/build.go:93-95 | a prefix of the path with no trailing separator |
| Build.AfterLastSlash | dirtree/build.go:93-95 | a suffix of the path holding no separator |
| Build.Base | dirtree/build.go:93-95 | the root node's name: non-empty, and a single component or the root "/" |
| Build.BaseOfChild | dirtree/build.go:128-135 | the base name of a child path is the entry's name |
| Build.StackPush | dirtree/build.go:144-163 | pushing children on the work stack puts their subtrees' listing order ahead of what the stack held (LIFO) |
| Build.OrdersTotals | dirtree/build.go:114-169 | the bytes of all directories listed under the children add up to the children's totals |
| Build.TotalUnfold | dirtree/build.go:114-158 | a directory's total is its own regular-file bytes plus its subdirectories' totals; an unopenable one has none |
| Build.SizeIsTotal | dirtree/build.go:105-157 | once every node is listed, each node's size is the total bytes below its path |
| Build.EntryStep | dirtree/build.go:126-144 | a regular file adds its size, a subdirectory adds its name, anything else adds nothing |
| Build.ListingOpsOpened | dirtree/build.go:128-157 | an opened directory logs its `Add`s in listing order then one `Update` with the new size |
| Build.ListedOps | dirtree/build.go:105-157 | the ops emitted while listing are that directory's `Add`s and its single `Update` |
| Build.AddSubdir | dirtree/build.go:133-143 | a fresh child for the subdirectory, of size 0 and with the joined path, is added under the node |
| Build.ListEntry | dirtree/build.go:126-153 | one pass of the entry loop: regular bytes accumulate, subdirectories get a child and an `Add` op |
| Build.ListEntries | dirtree/build.go:126-153 | the entry loop: size is the starting size plus the regular-file bytes; one child and one `Add` per subdirectory, in order |
| Build.UpdateSizeOp | dirtree/build.go:105-110 | the node's size is set through `UpdateSize` and one `Update` op carries the new size |
| Build.ProcDir | dirtree/build.go:114-158 | a directory that fails to open changes nothing and logs nothing; otherwise its children are added, its size updated, and the ops are its listing's ops |
| Build.StepWf | dirtree/build.go:114-158 | one listing keeps the tree well formed |
| Build.StepOwn | dirtree/build.go:114-158 | one listing sets the listed node's own bytes and no other node's |
| Build.StepOrder | dirtree/build.go:160-169 | the listed paths followed by the stack's order stay the depth-first order of the base path |
| Build.StepOps | dirtree/build.go:91-169 | the op log stays the `Root` op then each listed directory's ops, in listing order |
| Build.CrawlStart | dirtree/build.go:91-103 | the crawl starts with the `Root` op for the base path of size 0 and the root alone on the stack |
| Build.CrawlStep | dirtree/build.go:160-169 | one turn of the loop keeps the crawl invariant: tree shape, node partition, listing order, op log and listed sizes |
| Build.CrawlDone | dirtree/build.go:160-174 | an empty stack means every directory is listed and the root's size is the total of the base path |
| Build.CrawlBound | dirtree/build.go:160-169 | while the stack is non-empty, fewer directories are listed than the base path holds: the crawl terminates |
| Build.CrawlTurn | dirtree/build.go:160-169 | one pop, list and push on the heap keeps the crawl invariant |
| Build.BuildFs | dirtree/build.go:81-174 | the returned tree's root is the parentless node of the base path with the total size, every node listed once, sizes equal to totals, ops in crawl order |
| BuildFixture.FixtureListings | dirtree/build_test.go:80-124 | the test filesystem's own bytes and subdirectories per directory |
| BuildFixture.FixtureTotals | dirtree/build_test.go:133-138 | tmp=65, a=30, b=35, dir=30 |
| BuildFixture.TopOrder | dirtree/build_test.go:126-142 | the listing order of the test crawl |
| BuildFixture.BuildScenario | dirtree/build_test.go:126-164 | crawling `/tmp` gives a root of size 65 named `tmp` and the listed directories with sizes 65, 35, 30, 30 |
| Squarify.FoldStats | squarify/squarify.go:133-155 | the cache folded over positive areas holds their sum, a minimum and a maximum attained by some area, or is unset for no areas |
| Squarify.LengthPos | squarify/squarify.go:196-197 | a positive area in a positive row has positive length and thickness |
| Squarify.LengthLeq | squarify/squarify.go:196-197 | a larger area gets a longer block |
| Squarify.AspectIsElongation | squarify/squarify.go:159-174 | a block's aspect ratio is its elongation whichever way it is turned |
| Squarify.BlockRatios | squarify/squarify.go:159-197 | the two terms of `worst` are the length-over-thickness and thickness-over-length of a block |
| Squarify.WorstBySides | squarify/squarify.go:159-174 | `worst` is the larger of the longest block's stretch and the shortest block's squash |
| Squarify.ElongationBound | squarify/squarify.go:159-174 | every block of the row is no more elongated than `worst` |
| Squarify.ElongationAttained | squarify/squarify.go:159-174 | the longest or the shortest block attains `worst` |
| Squarify.Lay | squarify/squarify.go:182-212 | one block per area, each placed as `Place` says |
| Squarify.HeightIsThickness | squarify/squarify.go:196-197 | each block's other side is the row's thickness `sum/width` |
| Squarify.PlaceCoversArea | squarify/squarify.go:192-207 | a block's width times height is its area, and it carries its item |
| Squarify.PlaceContiguous | squarify/squarify.go:182-212 | consecutive blocks touch: vertical rows advance Y, horizontal rows advance X |
| Squarify.OffsetIsShare | squarify/squarify.go:182-212 | a block starts at the length of the areas before it |
| Squarify.RowSpansWidth | squarify/squarify.go:182-212 | the blocks of a row span exactly its width |
| Squarify.WorstIsWorstAspect | squarify/squarify.go:159-174 | `worst` is the largest aspect ratio among the blocks the row lays out, and some block attains it |
| Squarify.UpdateSane | squarify/squarify.go:147-155 | folding a positive area into a consistent cache keeps it consistent with the areas |
| Squarify.Row.constructor | squarify/squarify.go:85-93 | a new row has no areas, nothing cached, and the given direction, width and corner |
| Squarify.Row.UpdateCached | squarify/squarify.go:147-155 | the cache takes in the area; nothing else changes |
| Squarify.Row.Push | squarify/squarify.go:95-103 | the area is appended and folded into the cache, which stays that of the areas |
| Squarify.Row.Pop | squarify/squarify.go:105-119 | the cache is cleared; the last area, if any, is removed and returned |
| Squarify.Row.CalcCached | squarify/squarify.go:133-140 | the cache becomes the fold of the areas |
| Squarify.Row.Worst | squarify/squarify.go:159-174 | the row's worst aspect ratio, the cache rebuilt first if it was cleared; areas unchanged |
| Squarify.Row.PushTemporarily | squarify/squarify.go:121-131 | during the callback the row holds the extra area; afterwards areas, min, max and sum are exactly as before |
| Squarify.Row.MakeBlocks | squarify/squarify.go:176-213 | no areas give nothing; otherwise the offset is the thickness and the blocks are laid contiguously from the corner |
| Squarify.LayRow | squarify/squarify.go:182-212 | the `makeBlocks` loop produces `Lay` of the row and the thickness |
| Squarify.BeforeIsStrictWeakOrder | squarify/squarify.go:325-333 | `Less` is irreflexive, transitive, and its incomparability is transitive |
| Squarify.SortedShape | squarify/squarify.go:325-333 | in sorted order every real area precedes the placeholder and real areas are non-increasing |
| Squarify.InsertPermutes | squarify/squarify.go:363-365 | insertion keeps the same areas |
| Squarify.InsertSorted | squarify/squarify.go:363-365 | insertion keeps the order sorted |
| Squarify.SortByAreaSorts | squarify/squarify.go:363-365 | the sort yields a sorted permutation of the areas |
| Squarify.ItemsTotal | squarify/squarify.go:345-355 | the total of the children's positive sizes is non-negative |
| Squarify.Areas | squarify/squarify.go:339-368 | the method's loop computes exactly the areas the specification gives |
| Squarify.ChildAreasApportioned | squarify/squarify.go:345-355 | each child area is its size over the root size times the block area |
| Squarify.AreasApportioned | squarify/squarify.go:339-368 | every area, child or placeholder, is its share of the block |
| Squarify.AreasSorted | squarify/squarify.go:363-365 | with sorting on, the areas are a sorted permutation of the unsorted ones |
| Squarify.AreasPositive | squarify/squarify.go:339-361 | in a block of positive area every area is positive, so `push` accepts each one |
| Squarify.SumSort | squarify/squarify.go:363-365 | sorting keeps the total area |
| Squarify.ChildAreasSum | squarify/squarify.go:345-355 | the child areas add up to the children's total share |
| Squarify.UnsortedSum | squarify/squarify.go:339-361 | child areas plus the placeholder add up to the share of the larger of root size and children's total |
| Squarify.AreasFillBlock | squarify/squarify.go:339-361 | when the children's total is at most the root size, the areas sum to the block's area |
| Squarify.Keep | squarify/squarify.go:224-235 | `output` keeps exactly the blocks with an item and beyond the minimum in one dimension, in order |
| Squarify.Flush | squarify/squarify.go:273-284 | closing a row empties it, keeps the free width, and only appends to the output |
| Squarify.Step | squarify/squarify.go:263-294 | one area makes the row non-empty and only appends to the output |
| Squarify.Run | squarify/squarify.go:241-290 | the row always holds positive areas and its width is the block's height or width as its shape says |
| Squarify.LayFills | squarify/squarify.go:182-212 | each laid block covers its area |
| Squarify.KeptDrawn | squarify/squarify.go:224-235 | every kept block is shown and covers one of the areas |
| Squarify.FlushDrawn | squarify/squarify.go:273-284 | a closed row adds only shown blocks covering areas of the level |
| Squarify.RunDrawn | squarify/squarify.go:241-290 | every block one level outputs is shown and covers one of the level's areas |
| Squarify.LevelAreas | squarify/squarify.go:239-290 | every block of a level is shown, belongs to a child of positive size, and its area is that child's share of the block |
| Squarify.Metas | squarify/squarify.go:233 | one metadata entry per block, each at the given depth |
| Squarify.WellShapedAppend | squarify/squarify.go:303-306 | appending a deeper tiling keeps blocks and metadata aligned |
| Squarify.ShapeOfParts | squarify/squarify.go:296-309 | a level followed by its nested tilings is well shaped |
| Squarify.TileShape | squarify/squarify.go:215-310 | blocks and meta have equal length, every block is shown, every depth is between the start depth and MaxDepth |
| Squarify.NestShape | squarify/squarify.go:292-307 | the tilings nested in a level are well shaped one level deeper |
| Squarify.LeafTile | squarify/squarify.go:215-290 | a root without children tiles to nothing |
| Squarify.NestOfLeaves | squarify/squarify.go:292-307 | blocks of childless items nest nothing |
| Squarify.TileOfLeaves | squarify/squarify.go:215-310 | over childless children the tiling is just this level, all at the current depth |
| Squarify.MetasAppend | squarify/squarify.go:233 | metadata runs at one depth concatenate |
| Squarify.Output | squarify/squarify.go:224-235 | `output` appends the kept blocks and one metadata entry at the current depth for each |
| Squarify.MakeRow | squarify/squarify.go:251-258 | a new empty row at the corner, as wide as the free height (vertical) or width |
| Squarify.FlushRow | squarify/squarify.go:273-284 | closing the row outputs its blocks, moves the corner by the thickness and shrinks the free space, as `Flush` says |
| Squarify.Advance | squarify/squarify.go:263-294 | one turn of the loop: the row closes exactly when the next area would raise `worst`, as `Step` says |
| Squarify.RunStep | squarify/squarify.go:263-294 | the run over one more area is one more step |
| Squarify.LastRow | squarify/squarify.go:286-289 | a last non-empty row is output too |
| Squarify.LayLevel | squarify/squarify.go:241-290 | the loop over the areas outputs exactly the level's rows, all at the current depth |
| Squarify.LevelBlocks | squarify/squarify.go:239-290 | the areas then the rows give the level's blocks |
| Squarify.TileUnfold | squarify/squarify.go:215-310 | beyond the guard, a tiling is the level then the tilings nested in its blocks |
| Squarify.NestStep | squarify/squarify.go:292-307 | a placeholder block nests nothing; an item's block nests its tiling in the inset block one level deeper |
| Squarify.SquarifyAt | squarify/squarify.go:215-310 | the recursive method computes exactly the tiling |
| Squarify.NestAt | squarify/squarify.go:292-307 | the loop over the level's blocks computes exactly the nested tilings |
| Squarify.Defaulted | squarify/squarify.go:63-66 | the effective maximum depth is positive |
| Squarify.Squarify | squarify/squarify.go:62-69 | the tiling from depth 0 with MaxDepth ≤ 0 replaced by 20, and it is well shaped |
| SquarifyFixture.RowScenario | squarify/squarify_test.go:8-50 | a row holding 40 sees 40 and 50 during `pushTemporarily`, and afterwards holds 40 with min, max and sum 40 |
| SquarifyFixture.FixtureAreas | squarify/squarify_test.go:77-122 | root 80 with children 10 and 20 in 100×100: areas 1250 and 2500 and a 6250 placeholder, sorted 2500, 1250, placeholder |
| SquarifyFixture.SquarifyAreasScenario | squarify/squarify_test.go:77-122 | the layout gives the blocks of the 20 and the 10, at depth 0, each taking its size's share of the canvas |
| SquarifyFixture.FixtureRun | squarify/squarify.go:263-294 | the two child areas share a row, the placeholder starts a new one |
| Ui.FlagBits | cmds/sph/ui.go:88-95 | Expanded, Hidden and FilesShown are the single bits 0, 1 and 2 |
| Ui.IsSet | cmds/sph/ui.go:120-122 | true exactly when the two flag sets share a set bit |
| Ui.With | cmds/sph/ui.go:110-113 | the bits set are those of either operand |
| Ui.Without | cmds/sph/ui.go:115-118 | the bits set are those of `t` not in `f` |
| Ui.SetUnsetFlag | cmds/sph/ui.go:110-122 | after `Set(f)` a non-zero `f` is set; after `Unset(f)` it is not |
| Ui.SetUnsetIdempotent | cmds/sph/ui.go:110-118 | setting or unsetting twice is setting or unsetting once |
| Ui.SetUnsetOthers | cmds/sph/ui.go:110-122 | a flag disjoint from `f` is unaffected by setting or unsetting `f` |
| Ui.FlagCell.Set | cmds/sph/ui.go:110-113 | the value behind the pointer becomes the union and is returned |
| Ui.FlagCell.Unset | cmds/sph/ui.go:115-118 | the value behind the pointer loses `f`'s bits and is returned |
| Ui.NodeFlags | cmds/sph/ui.go:97-104 | a node without user data has no bit set; otherwise its user data |
| Ui.ChainCollapsed | cmds/sph/ui.go:137-143 | the climb from `a` finds a collapsed node exactly when `a` or one of its ancestors is not expanded |
| Ui.ProperAncestors | cmds/sph/ui.go:137-138 | the parent's ancestors-or-self are exactly the node's proper ancestors |
| Ui.HiddenIffCollapsedAncestor | cmds/sph/ui.go:134-152 | Hidden is set exactly when some proper ancestor lacks Expanded; a parentless node is never hidden; no other bit changes |
| Ui.RehiddenStable | cmds/sph/ui.go:134-152 | recomputing a node's Hidden flag does not depend on Hidden flags written earlier |
| Ui.RehiddenKeepsExpanded | cmds/sph/ui.go:146-151 | recomputing Hidden never changes Expanded |
| Ui.ReachedNodes | cmds/sph/ui.go:164 | the forward pre-order walk from `n` visits exactly `n`'s subtree (all descendants) and then only nodes outside it |
| Ui.WalkReaches | cmds/sph/ui.go:155-164 | the visitor never stops the walk, and the walk visits exactly those nodes |
| Ui.ShownIndex | cmds/sph/ui.go:347-349 | the first position whose node lacks Hidden, every earlier one having it |
| Ui.FollowsBelow | cmds/sph/ui.go:346-348 | repeated forward pre-order `Next` from a node yields the nodes after it in the walk resumed there |
| Ui.ShownIndexAt | cmds/sph/ui.go:347-349 | the loop's exit position is the first non-hidden position |
| Ui.RecomputedStep | cmds/sph/ui.go:154-165 | recomputing one more node keeps every recomputed node equal to the rule applied to the original flags |
| Ui.RecomputedAll | cmds/sph/ui.go:154-165 | after the walk, exactly the reached nodes other than `n` hold the recomputed flags; all other entries are unchanged |
| Ui.Widget.constructor | cmds/sph/ui.go:167-184 | a new widget has no user data, no selection and row 0 |
| Ui.Widget.SetFlag | cmds/sph/ui.go:124-127 | the node's flags gain `f`; nothing else changes |
| Ui.Widget.UnsetFlag | cmds/sph/ui.go:129-132 | the node's flags lose `f`; nothing else changes |
| Ui.Widget.UpdateHiddenFlag | cmds/sph/ui.go:134-152 | the climb writes the node's flags with Hidden recomputed by the rule; nothing else changes |
| Ui.Widget.UpdateHiddenOnDescendants | cmds/sph/ui.go:154-165 | every node the walk reaches, except `n`, gets Hidden recomputed from the flags before the call; all other flags are unchanged |
| Ui.Widget.RefreshAll | cmds/sph/ui.go:155-162 | the visitor applied to each visited node except `n` |
| Ui.Widget.ClampSelectedRow | cmds/sph/ui.go:208-216 | the selected row becomes the clamped row; nothing else changes |
| Ui.Clamp | cmds/sph/ui.go:208-216 | with maxY ≥ 1 the row lands in [0, maxY-1]; a row in range is kept; a negative row becomes 0; a row at or past maxY, or any row when maxY ≤ 0, becomes maxY-1 |
| Ui.Widget.NodeBelow | cmds/sph/ui.go:345-355 | for a selected node (a nil one panics in the source), the first node after the selection in forward pre-order that lacks Hidden, or none |
| Status.Joined | cmds/sph/status.go:17-26 | a single part's text is the whole line |
| Status.JoinedLength | cmds/sph/status.go:17-26 | the line is every text plus one separator between each two neighbours: no leading or trailing space is added |
| Status.JoinedSnoc | cmds/sph/status.go:19-24 | one more part adds a space (unless first) and its text at the end |
| Status.SplitJoined | cmds/sph/status.go:17-26 | splitting the line at spaces gives back the parts' texts, when none holds a space |
| Status.StatusPart.String | cmds/sph/status.go:51-53 | exactly the last text set |
| Status.StatusPart.SetStatus | cmds/sph/status.go:44-49 | the text is replaced; an attached part's line pushes its whole new text to the setter |
| Status.Texts | cmds/sph/status.go:19-23 | the parts' texts, position by position |
| Status.StatusLine.String | cmds/sph/status.go:17-26 | the loop builds the parts' texts joined by single spaces; no parts give "" |
| Status.StatusLine.Add | cmds/sph/status.go:28-31 | the part goes at the end and its parent becomes the line |
| Status.StatusLine.Changed | cmds/sph/status.go:33-37 | a present setter receives the line's text |
| Status.ScreenLine | cmds/sph/ui.go:17-28 | the screen's line holds the build, delete and error parts, in that order, all attached |
| Status.ScreenScenario | cmds/sph/ui.go:17-28 | a build total alone shows as the total and two trailing spaces; a delete prompt then fills the middle, leaving one trailing space |

## Left out

- Goroutines, channels, the mutex, the 300 ms progress ticker, `fmt.Println`, and the public
  `Build`/`BuildFs`/`BuildSync` wrappers are left out. `buildFs` returns its op log as a sequence.
- `Build.BuildFs` creates the root node itself. dirtree/build.go calls `tree.Root()` as a method,
  but dirtree/dirtree.go:94-101 declares `Root` as a field that `New` leaves nil. The model reads
  this as a fresh, detached root stored in `Root`.
- `OsFilesystem` and `os.Open` are left out. The filesystem is a parameter: a map from path to a listing
  and a flag for a `Readdir` error. A path missing from the map is a directory that fails to open. The
  error messages themselves are not modelled.
- `Apply` and the `*Copy` operations it dispatches to are not part of this model, nor is dirtree/net.go.
- `Dirtree.Node.Walk` returns the visited nodes, in the order the visitor would see them, instead of
  calling a visitor function. It needs a ghost ranking of the nodes. A cyclic child graph, on which
  the source recurses forever, is not modelled.
- Sizes are unbounded integers. `int64` overflow is not modelled.
- Directory sizes and squarify geometry use `real`, not `float64`. Nothing is claimed about rounding.
- `Squarify.Squarify` requires `Tileable`, which is stronger than the source's own domain. The
  lemmas on one level need `WellSized`, `Divisible` and non-zero row widths. The excluded inputs are:
  - `MinW` or `MinH` below zero. The source lays these out like zero minima.
  - An item anywhere in the tree with size zero or less over a child of positive size. This holds
    even where the source never reaches that item: at or past `MaxDepth`, or under a block the
    minima filter out.
  - Where the source does reach such an item, a negative size makes `push` panic
    (squarify/squarify.go:96-98). A zero size makes the areas infinite or NaN.
- `sort.Sort` is not stable. `Squarify.AreasOf` uses one particular insertion sort, and the properties
  proved about it are sortedness and permutation, which hold for every sort.
- `Squarify.Row.PushTemporarily` models the callback `squarify` actually passes (reading `worst`), not
  an arbitrary function.
- The terminal UI is left out: tcell drawing, event handling, `os.RemoveAll`, and `refresh`/`toggleFiles`,
  which spawn builds.
- `Ui.Widget` sees the directory tree as a tree arena (the same one the walk uses), and per-node user
  data as a map from node to flags. The view's height is a parameter of `ClampSelectedRow`.
- `Ui.Widget.UpdateHiddenOnDescendants` recomputes Hidden on every node the walk reaches. That is `n`'s
  subtree and then every later node in forward pre-order, as the source does, not only descendants.
  Recomputation from unchanged Expanded flags gives the same value as before, so the extra nodes keep a
  consistent Hidden flag.
- `fmt.Sprintf` is not part of this model. `Status.StatusPart.SetStatus` receives the already formatted text.
- The `TextSetter` interface is modelled by one concrete receiver, `Status.Label`, which keeps the last
  text set.
- `Status.JoinedLength`: "no leading or trailing space" holds for the separators only. Empty parts still
  contribute empty texts, so a line with empty last parts ends in spaces, as `Status.ScreenScenario` shows.
- Non-stop panics re-raised by `endWalk` are not modelled. The only panic the model has is the stop.
- GTK, SVG rendering, the TCP client, `FancySize` and `fs.go` device ids are left out.
