/**
 * The crawler `buildFs` of dirtree/build.go: it builds a directory tree from an abstract
 * filesystem, keeping a LIFO stack of directories still to list, and logs every change it makes
 * to the tree as an op (`Root`, `Add`, `Update`), in order.
 *
 * The filesystem is a map from path to directory listing; opening a path fails exactly when the
 * path is absent. The op channel becomes the returned sequence of ops. The reference definitions
 * below describe the outcome per path: `Order` is the order in which directories are listed,
 * `Block` the ops one listing emits, and `Total` the size a directory ends up with.
 */
module Build {
  import opened Wrappers
  import opened Dirtree

  /** The kinds of operation on a tree (dirtree/build.go:12-23). */
  datatype Op = Root | Add | Del | Update

  /** An operation with the node it concerns and its size argument (dirtree/build.go:26-30). */
  datatype OpData = OpData(Op: Op, Node: Node, Size: int)

  /** What a directory entry is, as far as the crawler cares: a regular file, a directory, or neither. */
  datatype Kind = Regular | Subdir | Other

  /** A directory entry: its name, kind and size in bytes. */
  datatype FileInfo = FileInfo(Name: string, Kind: Kind, Size: int)

  /** The entries `Readdir` returns, and whether it also returned an error. */
  datatype Listing = Listing(Entries: seq<FileInfo>, ReadErr: bool)

  type Filesystem = map<string, Listing>

  const Separator: char := '/'

  function ChildPath(dir: string, name: string): (r: string)
    ensures |r| == |dir| + 1 + |name|
  {
    dir + [Separator] + name
  }

  /** Bytes of the regular files among `fis`. */
  function RegularBytes(fis: seq<FileInfo>): int
  {
    if fis == [] then 0
    else RegularBytes(fis[..|fis| - 1]) + (if fis[|fis| - 1].Kind == Regular then fis[|fis| - 1].Size else 0)
  }

  /** Names of the directories among `fis`, in listing order. */
  function SubdirNames(fis: seq<FileInfo>): seq<string>
  {
    if fis == [] then []
    else SubdirNames(fis[..|fis| - 1]) + (if fis[|fis| - 1].Kind == Subdir then [fis[|fis| - 1].Name] else [])
  }

  /** The bytes a directory holds directly: 0 when it cannot be opened. */
  function OwnBytes(fs: Filesystem, p: string): int
  {
    if p in fs then RegularBytes(fs[p].Entries) else 0
  }

  /** The sub-directory names of a directory: none when it cannot be opened. */
  function Subdirs(fs: Filesystem, p: string): seq<string>
  {
    if p in fs then SubdirNames(fs[p].Entries) else []
  }

  function ChildPaths(p: string, names: seq<string>): (r: seq<string>)
    ensures |r| == |names| && forall i | 0 <= i < |names| :: r[i] == ChildPath(p, names[i])
  {
    seq(|names|, i requires 0 <= i < |names| => ChildPath(p, names[i]))
  }

  /** A bound on the length of every path that can be opened. */
  ghost function MaxLen(keys: set<string>): (m: nat)
    ensures forall k | k in keys :: |k| <= m
  {
    if keys == {} then 0
    else
      var k :| k in keys;
      var m := MaxLen(keys - {k});
      if |k| > m then |k| else m
  }

  /**
   * The order in which the crawler lists the directories under `p`: `p` itself, then the
   * sub-directories found in `p`, the last one found first, each with everything under it.
   */
  ghost function Order(fs: Filesystem, p: string): (r: seq<string>)
    decreases MaxLen(fs.Keys) - |p|, 1
    ensures |r| >= 1 && r[0] == p
  {
    [p] + if p in fs then Orders(fs, p, Subdirs(fs, p)) else []
  }

  /** The orders under the sub-directories `names` of `p`, taken from the last name to the first. */
  ghost function Orders(fs: Filesystem, p: string, names: seq<string>): seq<string>
    requires p in fs
    decreases MaxLen(fs.Keys) - |p|, 0, |names|
  {
    if names == [] then []
    else Order(fs, ChildPath(p, names[|names| - 1])) + Orders(fs, p, names[..|names| - 1])
  }

  /** The listing order of a stack of paths: the top (last) one first. */
  ghost function StackOrder(fs: Filesystem, ps: seq<string>): seq<string>
  {
    if ps == [] then [] else Order(fs, ps[|ps| - 1]) + StackOrder(fs, ps[..|ps| - 1])
  }

  /** An op with the path of its node in place of the node. */
  datatype Logged = Logged(Op: Op, Path: string, Size: int)

  function Adds(p: string, names: seq<string>): (r: seq<Logged>)
    ensures |r| == |names|
  {
    if names == [] then [] else Adds(p, names[..|names| - 1]) + [Logged(Add, ChildPath(p, names[|names| - 1]), 0)]
  }

  /**
   * The ops listing `p` emits when its node starts at size `base`: one `Add` of size 0 per
   * sub-directory, in listing order, then one `Update` carrying the new size, `base` plus the bytes
   * of its regular files. A directory that cannot be opened emits nothing.
   */
  function ListingOps(fs: Filesystem, p: string, base: int): seq<Logged>
  {
    if p in fs then Adds(p, Subdirs(fs, p)) + [Logged(Update, p, base + OwnBytes(fs, p))] else []
  }

  /** The ops listing `p` emits in a crawl, where every node starts at size 0. */
  function Block(fs: Filesystem, p: string): seq<Logged>
  {
    ListingOps(fs, p, 0)
  }

  /** The ops emitted while listing `ps` in turn. */
  function Log(fs: Filesystem, ps: seq<string>): seq<Logged>
  {
    if ps == [] then [] else Log(fs, ps[..|ps| - 1]) + Block(fs, ps[|ps| - 1])
  }

  function SumOwn(fs: Filesystem, ps: seq<string>): int
  {
    if ps == [] then 0 else SumOwn(fs, ps[..|ps| - 1]) + OwnBytes(fs, ps[|ps| - 1])
  }

  /** The size the crawler gives `p`: the bytes held directly by every directory listed under it. */
  ghost function Total(fs: Filesystem, p: string): int
  {
    SumOwn(fs, Order(fs, p))
  }

  /** Sum of `Total` over the sub-directories `names` of `p`. */
  ghost function Totals(fs: Filesystem, p: string, names: seq<string>): int
  {
    if names == [] then 0 else Totals(fs, p, names[..|names| - 1]) + Total(fs, ChildPath(p, names[|names| - 1]))
  }

  // ---------------------------------------------------------------------------
  // `path.Base`, used for the name of the root.
  // ---------------------------------------------------------------------------

  function TrimTrailingSlashes(p: string): (r: string)
    ensures |r| <= |p| && r == p[..|r|]
    ensures r == [] || r[|r| - 1] != '/'
  {
    if p != [] && p[|p| - 1] == '/' then TrimTrailingSlashes(p[..|p| - 1]) else p
  }

  function AfterLastSlash(p: string): (r: string)
    ensures '/' !in r
    ensures |r| <= |p| && r == p[|p| - |r|..]
  {
    if p == [] || p[|p| - 1] == '/' then [] else AfterLastSlash(p[..|p| - 1]) + [p[|p| - 1]]
  }

  /** Go's `path.Base`: the last element of `p` after trailing slashes are dropped; "." for "", "/" for only slashes. */
  function Base(p: string): (r: string)
    ensures r != []
    ensures r == "/" || '/' !in r
  {
    if p == [] then "."
    else
      var t := TrimTrailingSlashes(p);
      if t == [] then "/" else AfterLastSlash(t)
  }

  lemma {:induction false} BaseOfChild(dir: string, name: string)
    requires name != [] && '/' !in name
    ensures Base(ChildPath(dir, name)) == name
  {
    var p := ChildPath(dir, name);
    assert p[|p| - 1] == name[|name| - 1] != '/';
    assert TrimTrailingSlashes(p) == p;
    AfterSlash(dir + "/", name);
  }

  lemma {:induction false} AfterSlash(pre: string, name: string)
    requires pre != [] && pre[|pre| - 1] == '/' && '/' !in name
    ensures AfterLastSlash(pre + name) == name
    decreases |name|
  {
    if name == [] {
      assert pre + name == pre;
    } else {
      var init, last := name[..|name| - 1], name[|name| - 1];
      var p := pre + name;
      assert last in name;
      assert p[|p| - 1] == last != '/';
      assert p[..|p| - 1] == pre + init;
      assert AfterLastSlash(p) == AfterLastSlash(pre + init) + [last];
      AfterSlash(pre, init);
      assert name == init + [last];
    }
  }

  // ---------------------------------------------------------------------------
  // Properties of the reference definitions.
  // ---------------------------------------------------------------------------

  /**
   * Pushing the sub-directories of `p` onto a stack puts everything under them, last one first,
   * ahead of what the stack held: the LIFO discipline of dirtree/build.go:144, 160-163.
   */
  lemma {:induction false} StackPush(fs: Filesystem, rest: seq<string>, p: string, names: seq<string>)
    requires p in fs
    ensures StackOrder(fs, rest + ChildPaths(p, names)) == Orders(fs, p, names) + StackOrder(fs, rest)
    decreases |names|
  {
    var s := rest + ChildPaths(p, names);
    if names == [] {
      assert s == rest;
    } else {
      var n := |names|;
      assert ChildPaths(p, names) == ChildPaths(p, names[..n - 1]) + [ChildPath(p, names[n - 1])];
      Assoc(rest, ChildPaths(p, names[..n - 1]), [ChildPath(p, names[n - 1])]);
      StackTop(fs, rest + ChildPaths(p, names[..n - 1]), ChildPath(p, names[n - 1]));
      StackPush(fs, rest, p, names[..n - 1]);
      Assoc(Order(fs, ChildPath(p, names[n - 1])), Orders(fs, p, names[..n - 1]), StackOrder(fs, rest));
    }
  }

  /** Listing one more directory appends exactly its block of ops. */
  lemma LogAppend(fs: Filesystem, ps: seq<string>, q: string)
    ensures Log(fs, ps + [q]) == Log(fs, ps) + Block(fs, q)
  {
    assert (ps + [q])[..|ps|] == ps;
  }

  lemma {:induction false} SumOwnAppend(fs: Filesystem, a: seq<string>, b: seq<string>)
    ensures SumOwn(fs, a + b) == SumOwn(fs, a) + SumOwn(fs, b)
    decreases |b|
  {
    if b == [] {
      assert a + b == a;
    } else {
      assert (a + b)[..|a + b| - 1] == a + b[..|b| - 1];
      SumOwnAppend(fs, a, b[..|b| - 1]);
    }
  }

  lemma {:induction false} OrdersTotals(fs: Filesystem, p: string, names: seq<string>)
    requires p in fs
    ensures SumOwn(fs, Orders(fs, p, names)) == Totals(fs, p, names)
    decreases |names|
  {
    if names != [] {
      var n := |names|;
      SumOwnAppend(fs, Order(fs, ChildPath(p, names[n - 1])), Orders(fs, p, names[..n - 1]));
      OrdersTotals(fs, p, names[..n - 1]);
    }
  }

  /**
   * A directory's total is its own regular-file bytes plus its sub-directories' totals; a
   * directory that cannot be opened totals 0.
   */
  lemma TotalUnfold(fs: Filesystem, p: string)
    ensures p in fs ==> Total(fs, p) == OwnBytes(fs, p) + Totals(fs, p, Subdirs(fs, p))
    ensures p !in fs ==> Total(fs, p) == 0
  {
    var o := Order(fs, p);
    if p in fs {
      SumOwnAppend(fs, [p], Orders(fs, p, Subdirs(fs, p)));
      OrdersTotals(fs, p, Subdirs(fs, p));
      assert SumOwn(fs, [p]) == OwnBytes(fs, p) by {
        assert [p][..0] == [];
      }
    } else {
      assert o == [p] + [];
      assert [p][..0] == [];
      assert SumOwn(fs, [p]) == SumOwn(fs, []) + OwnBytes(fs, p);
    }
  }

  // ---------------------------------------------------------------------------
  // The crawler's nodes as a value.
  // ---------------------------------------------------------------------------

  /** The fields of one node: its directory record, its children and its parent. */
  datatype Rec = Rec(Dir: Directory, Children: seq<Node>, Parent: Node?)

  /** The fields of each node the crawler has made, by node. */
  type Image = map<Node, Rec>

  /** Every node of `m` holds what `m` records for it. */
  ghost predicate Mirrors(m: Image)
    reads *
  {
    forall x | x in m :: x.Dir == m[x].Dir && x.Children == m[x].Children && x.Parent == m[x].Parent
  }

  /** `chain` climbs from `chain[0]` along the `Parent` links of `m` to a node without a parent. */
  ghost predicate ChainIn(m: Image, chain: seq<Node>)
  {
    && |chain| > 0
    && (forall x | x in chain :: x in m)
    && (forall i | 0 <= i < |chain| - 1 :: m[chain[i]].Parent == chain[i + 1])
    && m[chain[|chain| - 1]].Parent == null
    && Distinct(chain)
  }

  /**
   * `m` is a forest: children are nodes of `m` that point back to their parent and are listed
   * once, and a node with a parent is among that parent's children.
   */
  ghost predicate WfIn(m: Image)
  {
    forall x | x in m ::
      && Distinct(m[x].Children)
      && (forall c | c in m[x].Children :: c in m && m[c].Parent == x)
      && (m[x].Parent == null || (m[x].Parent in m && x in m[m[x].Parent].Children))
  }

  /** Sum of the sizes `m` records for `cs`. */
  function SumIn(m: Image, cs: seq<Node>): int
  {
    if cs == [] then 0
    else SumIn(m, cs[..|cs| - 1]) + if cs[|cs| - 1] in m then m[cs[|cs| - 1]].Dir.Size else 0
  }

  /** The bytes `m` credits to `x` itself: its size less the sizes of its children. */
  function OwnIn(m: Image, x: Node): int
    requires x in m
  {
    m[x].Dir.Size - SumIn(m, m[x].Children)
  }

  /**
   * `x` has been listed: it holds its own regular-file bytes, and its children are its
   * sub-directories, in listing order, by path and by name.
   */
  ghost predicate ListedIn(fs: Filesystem, m: Image, x: Node)
    requires x in m
  {
    var p := m[x].Dir.Path;
    var names := Subdirs(fs, p);
    var cs := m[x].Children;
    && OwnIn(m, x) == OwnBytes(fs, p)
    && |cs| == |names|
    && forall k | 0 <= k < |cs| ::
         cs[k] in m && m[cs[k]].Dir.Path == ChildPath(p, names[k]) && m[cs[k]].Dir.Basename == names[k]
  }

  lemma {:induction false} SumMatchesTotals(fs: Filesystem, m: Image, p: string, names: seq<string>, cs: seq<Node>)
    requires |cs| == |names|
    requires forall k | 0 <= k < |cs| :: cs[k] in m && m[cs[k]].Dir.Size == Total(fs, ChildPath(p, names[k]))
    ensures SumIn(m, cs) == Totals(fs, p, names)
    decreases |cs|
  {
    if cs != [] {
      var n := |cs|;
      SumMatchesTotals(fs, m, p, names[..n - 1], cs[..n - 1]);
    }
  }

  /**
   * Once every node has been listed, every node's size is the total of its directory: its own
   * regular-file bytes plus its sub-directories' sizes, all the way down.
   */
  lemma {:induction false} SizeIsTotal(fs: Filesystem, m: Image, x: Node)
    requires x in m
    requires forall y | y in m :: ListedIn(fs, m, y)
    ensures m[x].Dir.Size == Total(fs, m[x].Dir.Path)
    decreases MaxLen(fs.Keys) - |m[x].Dir.Path|
  {
    var p := m[x].Dir.Path;
    var cs := m[x].Children;
    var names := Subdirs(fs, p);
    assert ListedIn(fs, m, x);
    TotalUnfold(fs, p);
    if p in fs {
      forall k | 0 <= k < |cs| ensures cs[k] in m && m[cs[k]].Dir.Size == Total(fs, ChildPath(p, names[k])) {
        SizeIsTotal(fs, m, cs[k]);
      }
      SumMatchesTotals(fs, m, p, names, cs);
    }
  }

  /** The ops match the logged ops one for one, each node standing for the path `m` gives it. */
  ghost predicate MatchesIn(m: Image, ops: seq<OpData>, log: seq<Logged>)
  {
    && |ops| == |log|
    && forall k | 0 <= k < |ops| ::
         && ops[k].Node in m && ops[k].Op == log[k].Op && ops[k].Size == log[k].Size
         && m[ops[k].Node].Dir.Path == log[k].Path
  }

  lemma MatchesAppend(m: Image, ops: seq<OpData>, log: seq<Logged>, ops': seq<OpData>, log': seq<Logged>)
    requires MatchesIn(m, ops, log) && MatchesIn(m, ops', log')
    ensures MatchesIn(m, ops + ops', log + log')
  {
    forall k | 0 <= k < |ops| + |ops'|
      ensures (ops + ops')[k].Node in m && (ops + ops')[k].Op == (log + log')[k].Op
      ensures (ops + ops')[k].Size == (log + log')[k].Size && m[(ops + ops')[k].Node].Dir.Path == (log + log')[k].Path
    {
      if k >= |ops| {
        assert (ops + ops')[k] == ops'[k - |ops|];
      }
    }
  }

  /** One `Add` op of size 0 per node of `kids`, in order. */
  function AddOps(kids: seq<Node>): (r: seq<OpData>)
    ensures |r| == |kids| && forall k | 0 <= k < |kids| :: r[k] == OpData(Add, kids[k], 0)
  {
    if kids == [] then [] else AddOps(kids[..|kids| - 1]) + [OpData(Add, kids[|kids| - 1], 0)]
  }

  lemma {:induction false} AddOpsMatch(m: Image, dir: string, names: seq<string>, kids: seq<Node>)
    requires |kids| == |names|
    requires forall k | 0 <= k < |kids| :: kids[k] in m && m[kids[k]].Dir.Path == ChildPath(dir, names[k])
    ensures MatchesIn(m, AddOps(kids), Adds(dir, names))
    decreases |kids|
  {
    if kids != [] {
      var n := |kids|;
      AddOpsMatch(m, dir, names[..n - 1], kids[..n - 1]);
      MatchesAppend(m, AddOps(kids[..n - 1]), Adds(dir, names[..n - 1]), [OpData(Add, kids[n - 1], 0)],
                    [Logged(Add, ChildPath(dir, names[n - 1]), 0)]);
    }
  }

  lemma EntryStep(fis: seq<FileInfo>, i: nat)
    requires i < |fis|
    ensures RegularBytes(fis[..i + 1]) == RegularBytes(fis[..i]) + if fis[i].Kind == Regular then fis[i].Size else 0
    ensures fis[i].Kind == Subdir ==> SubdirNames(fis[..i + 1]) == SubdirNames(fis[..i]) + [fis[i].Name]
    ensures fis[i].Kind != Subdir ==> SubdirNames(fis[..i + 1]) == SubdirNames(fis[..i])
  {
    assert fis[..i + 1][..i] == fis[..i];
    assert SubdirNames(fis[..i]) + [] == SubdirNames(fis[..i]);
  }

  // ---------------------------------------------------------------------------
  // How listing one directory changes the image.
  // ---------------------------------------------------------------------------

  /** `m1` is `m` with the fresh, empty children `kids`, made for the sub-directories `names`, appended under `node`. */
  ghost predicate Grown(m: Image, m1: Image, node: Node, kids: seq<Node>, names: seq<string>)
  {
    && node in m && |kids| == |names| && Distinct(kids)
    && (forall k | 0 <= k < |kids| :: kids[k] !in m)
    && m1.Keys == m.Keys + (set k | k in kids)
    && (forall x | x in m && x != node :: m1[x] == m[x])
    && m1[node] == m[node].(Children := m[node].Children + kids)
    && forall k | 0 <= k < |kids| ::
         m1[kids[k]] == Rec(Directory(ChildPath(m[node].Dir.Path, names[k]), names[k], 0), [], node)
  }

  /** `m` with the size of every node of `chain` moved by `d`. */
  function Moved(m: Image, chain: seq<Node>, d: int): (r: Image)
    ensures r.Keys == m.Keys
  {
    map x | x in m :: if x in chain then m[x].(Dir := m[x].Dir.(Size := m[x].Dir.Size + d)) else m[x]
  }

  /**
   * `m1` is `m` after listing `node`, whose ancestor chain is `chain`: the children `kids` made for
   * `names` are appended under `node`, and `node` and its ancestors grow by `d`.
   */
  ghost predicate Step(m: Image, m1: Image, node: Node, chain: seq<Node>, kids: seq<Node>, names: seq<string>, d: int)
  {
    && node in m && |kids| == |names| && Distinct(kids)
    && (forall k | 0 <= k < |kids| :: kids[k] !in m)
    && m1.Keys == m.Keys + (set k | k in kids)
    && (forall x | x in m ::
          m1[x] == Rec(m[x].Dir.(Size := m[x].Dir.Size + if x in chain then d else 0),
                       if x == node then m[x].Children + kids else m[x].Children,
                       m[x].Parent))
    && forall k | 0 <= k < |kids| ::
         m1[kids[k]] == Rec(Directory(ChildPath(m[node].Dir.Path, names[k]), names[k], 0), [], node)
  }

  lemma GrownStep(m: Image, m1: Image, m2: Image, node: Node, kids: seq<Node>, names: seq<string>, ch: Node, name: string)
    requires Grown(m, m1, node, kids, names) && Grown(m1, m2, node, [ch], [name])
    ensures Grown(m, m2, node, kids + [ch], names + [name])
  {
    assert m[node].Children + kids + [ch] == m[node].Children + (kids + [ch]);
    forall k | 0 <= k < |kids| ensures kids[k] in m1 && kids[k] != node {
    }
  }

  lemma GrownChain(m: Image, m1: Image, node: Node, kids: seq<Node>, names: seq<string>, chain: seq<Node>)
    requires Grown(m, m1, node, kids, names) && ChainIn(m, chain)
    ensures ChainIn(m1, chain)
  {
  }

  lemma GrownMoved(m: Image, m1: Image, node: Node, chain: seq<Node>, kids: seq<Node>, names: seq<string>, d: int)
    requires Grown(m, m1, node, kids, names) && ChainIn(m, chain)
    ensures Step(m, Moved(m1, chain, d), node, chain, kids, names, d)
  {
    forall k | 0 <= k < |kids| ensures kids[k] !in chain {
    }
  }

  lemma ImageChain(m: Image, chain: seq<Node>)
    requires Mirrors(m) && ChainIn(m, chain)
    ensures IsChain(chain)
  {
    forall i | 0 <= i < |chain| ensures chain[i].Parent == m[chain[i]].Parent {
    }
  }

  lemma ListingOpsOpened(fs: Filesystem, p: string, base: int, size: int)
    requires p in fs && size == base + RegularBytes(fs[p].Entries)
    ensures ListingOps(fs, p, base) == Adds(p, Subdirs(fs, p)) + [Logged(Update, p, size)]
  {
  }

  /** What `procDir` does to the image, for a directory it can open. */
  lemma ListedStep(fs: Filesystem, m: Image, mid: Image, m': Image, node: Node, chain: seq<Node>, kids: seq<Node>, size: int)
    requires node in m && m[node].Dir.Path in fs
    requires ChainIn(m, chain) && chain[0] == node
    requires Grown(m, mid, node, kids, Subdirs(fs, m[node].Dir.Path))
    requires size == m[node].Dir.Size + RegularBytes(fs[m[node].Dir.Path].Entries)
    requires m' == Moved(mid, chain, size - mid[node].Dir.Size)
    ensures Step(m, m', node, chain, kids, Subdirs(fs, m[node].Dir.Path), OwnBytes(fs, m[node].Dir.Path))
  {
    assert size - mid[node].Dir.Size == OwnBytes(fs, m[node].Dir.Path);
    GrownMoved(m, mid, node, chain, kids, Subdirs(fs, m[node].Dir.Path), OwnBytes(fs, m[node].Dir.Path));
  }

  /** The ops `procDir` emits, for a directory it can open: an `Add` per sub-directory, then the `Update`. */
  lemma ListedOps(fs: Filesystem, m: Image, m': Image, node: Node, chain: seq<Node>, kids: seq<Node>, ops: seq<OpData>, size: int)
    requires node in m && m[node].Dir.Path in fs
    requires Step(m, m', node, chain, kids, Subdirs(fs, m[node].Dir.Path), OwnBytes(fs, m[node].Dir.Path))
    requires ops == AddOps(kids)
    requires size == m[node].Dir.Size + RegularBytes(fs[m[node].Dir.Path].Entries)
    ensures MatchesIn(m', ops + [OpData(Update, node, size)], ListingOps(fs, m[node].Dir.Path, m[node].Dir.Size))
  {
    var p := m[node].Dir.Path;
    ListingOpsOpened(fs, p, m[node].Dir.Size, size);
    AddOpsMatch(m', p, Subdirs(fs, p), kids);
    MatchesAppend(m', ops, Adds(p, Subdirs(fs, p)), [OpData(Update, node, size)], [Logged(Update, p, size)]);
  }

  /** `m` with the new node `ch`, of size 0 and named `name`, appended to `node`'s children. */
  function Adopt(m: Image, node: Node, ch: Node, name: string): Image
    requires node in m
  {
    m[node := m[node].(Children := m[node].Children + [ch])]
     [ch := Rec(Directory(ChildPath(m[node].Dir.Path, name), name, 0), [], node)]
  }

  lemma AdoptGrows(m: Image, node: Node, ch: Node, name: string)
    requires node in m && ch !in m
    ensures Grown(m, Adopt(m, node, ch, name), node, [ch], [name])
  {
  }

  // ---------------------------------------------------------------------------
  // `procDir`.
  // ---------------------------------------------------------------------------

  /**
   * dirtree/build.go:133-143: a child node for the sub-directory `name`, of size 0, added under
   * `node`, whose ancestor chain is `chain`.
   */
  method AddSubdir(node: Node, name: string, ghost m: Image, ghost chain: seq<Node>) returns (ch: Node, ghost m': Image)
    requires Mirrors(m) && ChainIn(m, chain) && chain[0] == node
    modifies node`Children, (set x | x in chain)`Dir
    ensures fresh(ch)
    ensures Mirrors(m') && Grown(m, m', node, [ch], [name])
  {
    ImageChain(m, chain);
    ch := new Node(Directory(ChildPath(node.Dir.Path, name), name, 0));
    node.Add(ch, chain, {});
    m' := Adopt(m, node, ch, name);
    AdoptGrows(m, node, ch, name);
    forall x | x in m' ensures x.Dir == m'[x].Dir && x.Children == m'[x].Children && x.Parent == m'[x].Parent {
      if x != ch && x != node {
        assert x in m && x.Children == old(x.Children) && x.Parent == old(x.Parent);
      }
    }
  }

  /**
   * One pass of the entry loop of `procDir` (dirtree/build.go:126-153): a regular file adds its
   * size to the running total; a sub-directory becomes a child of size 0, with an `Add` op; any
   * other entry is skipped.
   */
  method ListEntry(node: Node, fis: seq<FileInfo>, i: nat, size: int, kids: seq<Node>, ops: seq<OpData>,
                   ghost m: Image, ghost mi: Image, ghost chain: seq<Node>)
    returns (size': int, kids': seq<Node>, ops': seq<OpData>, ghost mi': Image)
    requires i < |fis|
    requires Mirrors(mi) && ChainIn(m, chain) && chain[0] == node
    requires Grown(m, mi, node, kids, SubdirNames(fis[..i])) && ops == AddOps(kids)
    modifies node`Children, (set x | x in chain)`Dir
    ensures size' - RegularBytes(fis[..i + 1]) == size - RegularBytes(fis[..i])
    ensures Mirrors(mi') && Grown(m, mi', node, kids', SubdirNames(fis[..i + 1])) && ops' == AddOps(kids')
    ensures forall x | x in mi' && x !in mi :: fresh(x)
  {
    EntryStep(fis, i);
    var fi := fis[i];
    size', kids', ops', mi' := size, kids, ops, mi;
    if fi.Kind == Regular {
      size' := size + fi.Size;
    } else if fi.Kind == Subdir {
      GrownChain(m, mi, node, kids, SubdirNames(fis[..i]), chain);
      var ch;
      ch, mi' := AddSubdir(node, fi.Name, mi, chain);
      GrownStep(m, mi, mi', node, kids, SubdirNames(fis[..i]), ch, fi.Name);
      assert (kids + [ch])[..|kids|] == kids;
      ops' := ops + [OpData(Add, ch, 0)];
      kids' := kids + [ch];
    }
  }

  /**
   * The entry loop of `procDir` (dirtree/build.go:126-153), over all entries of a listing: the
   * running total starts at the node's size.
   */
  method ListEntries(node: Node, fis: seq<FileInfo>, ghost m: Image, ghost chain: seq<Node>)
    returns (size: int, kids: seq<Node>, ops: seq<OpData>, ghost m': Image)
    requires Mirrors(m) && ChainIn(m, chain) && chain[0] == node
    modifies node`Children, (set x | x in chain)`Dir
    ensures size == m[node].Dir.Size + RegularBytes(fis)
    ensures Mirrors(m') && Grown(m, m', node, kids, SubdirNames(fis)) && ops == AddOps(kids)
    ensures forall x | x in m' && x !in m :: fresh(x)
  {
    size := node.Dir.Size;
    kids, ops, m' := [], [], m;
    assert m[node].Children + [] == m[node].Children;
    var i := 0;
    while i < |fis|
      invariant 0 <= i <= |fis|
      invariant Mirrors(m') && Grown(m, m', node, kids, SubdirNames(fis[..i])) && ops == AddOps(kids)
      invariant size == m[node].Dir.Size + RegularBytes(fis[..i])
      invariant forall x | x in m' && x !in m :: fresh(x)
    {
      size, kids, ops, m' := ListEntry(node, fis, i, size, kids, ops, m, m', chain);
      i := i + 1;
    }
    assert fis[..i] == fis;
  }

  /**
   * The `updateSize` closure of `buildFs` (dirtree/build.go:105-110): set the node's size, which
   * moves every ancestor's size by the same amount, and emit an `Update` op carrying the new size.
   */
  method UpdateSizeOp(node: Node, size: int, ghost m: Image, ghost chain: seq<Node>) returns (op: OpData, ghost m': Image)
    requires Mirrors(m) && ChainIn(m, chain) && chain[0] == node
    modifies (set x | x in chain)`Dir
    ensures op == OpData(Update, node, size)
    ensures Mirrors(m') && m' == Moved(m, chain, size - m[node].Dir.Size)
  {
    ImageChain(m, chain);
    node.UpdateSize(size, chain, {});
    op := OpData(Update, node, size);
    m' := Moved(m, chain, size - m[node].Dir.Size);
  }

  /**
   * `procDir` (dirtree/build.go:114-158): list `node`'s directory, add a child for each
   * sub-directory, then set the node's size to its old size plus the bytes of its regular files and
   * record that with an `Update` op. Entries that come with a listing error are still processed.
   * A directory that cannot be opened is left unchanged and emits nothing.
   */
  method ProcDir(fs: Filesystem, node: Node, ghost m: Image, ghost chain: seq<Node>)
    returns (kids: seq<Node>, ops: seq<OpData>, ghost m': Image)
    requires Mirrors(m) && ChainIn(m, chain) && chain[0] == node
    modifies node`Children, (set x | x in chain)`Dir
    ensures Mirrors(m')
    ensures Step(m, m', node, chain, kids, Subdirs(fs, m[node].Dir.Path), OwnBytes(fs, m[node].Dir.Path))
    ensures MatchesIn(m', ops, ListingOps(fs, m[node].Dir.Path, m[node].Dir.Size))
    ensures forall x | x in m' && x !in m :: fresh(x)
  {
    var dirPath := node.Dir.Path;
    if dirPath !in fs {
      kids, ops := [], [];
      assert m[node].Children + [] == m[node].Children;
      GrownMoved(m, m, node, chain, [], [], 0);
      m' := Moved(m, chain, 0);
      return;
    }
    var size; ghost var mid;
    size, kids, ops, mid := ListEntries(node, fs[dirPath].Entries, m, chain);
    GrownChain(m, mid, node, kids, Subdirs(fs, dirPath), chain);
    var op;
    op, m' := UpdateSizeOp(node, size, mid, chain);
    ListedStep(fs, m, mid, m', node, chain, kids, size);
    ListedOps(fs, m, m', node, chain, kids, ops, size);
    ops := ops + [op];
  }

  // ---------------------------------------------------------------------------
  // The crawl loop of `buildFs`.
  // ---------------------------------------------------------------------------

  /** The paths `m` gives the nodes `xs`. */
  function Paths(m: Image, xs: seq<Node>): (r: seq<string>)
    requires forall x | x in xs :: x in m
    ensures |r| == |xs| && forall i | 0 <= i < |xs| :: r[i] == m[xs[i]].Dir.Path
  {
    seq(|xs|, i requires 0 <= i < |xs| => m[xs[i]].Dir.Path)
  }

  /** `m1` keeps every node of `m`, with its path, name and parent. */
  ghost predicate Extends(m: Image, m1: Image)
  {
    && m.Keys <= m1.Keys
    && forall x | x in m ::
         m1[x].Dir.Path == m[x].Dir.Path && m1[x].Dir.Basename == m[x].Dir.Basename && m1[x].Parent == m[x].Parent
  }

  /** The chains of `chains`, with one for each of `kids`: the kid on top of `node`'s chain. */
  function Extend(chains: map<Node, seq<Node>>, node: Node, kids: seq<Node>): map<Node, seq<Node>>
    requires node in chains
  {
    chains + map k | k in kids :: [k] + chains[node]
  }

  /** `root` is the parentless node of `m` for the crawl's base path, named by `path.Base`. */
  ghost predicate Rooted(base: string, root: Node, m: Image)
  {
    root in m && m[root].Parent == null && m[root].Dir.Path == base && m[root].Dir.Basename == Base(base)
  }

  /** Every node of `m` has its chain of ancestors in `chains`. */
  ghost predicate Chained(m: Image, chains: map<Node, seq<Node>>)
  {
    forall x | x in m :: x in chains && ChainIn(m, chains[x]) && chains[x][0] == x
  }

  /** The listed nodes and the stack hold every node of `m` exactly once. */
  ghost predicate Partitioned(m: Image, done: seq<Node>, work: seq<Node>)
  {
    && Distinct(done + work)
    && (forall x | x in done + work :: x in m)
    && (forall x | x in m :: x in done + work)
  }

  /** The nodes on the stack are still empty and of size 0. */
  ghost predicate Pending(m: Image, work: seq<Node>)
  {
    forall x | x in work :: x in m && m[x].Children == [] && m[x].Dir.Size == 0
  }

  /** Every listed node holds its own bytes and its sub-directories. */
  ghost predicate AllListed(fs: Filesystem, m: Image, done: seq<Node>)
  {
    forall x | x in done :: x in m && ListedIn(fs, m, x)
  }

  /** The listed paths followed by the stack's order are the listing order of the whole crawl. */
  ghost predicate Ordered(fs: Filesystem, base: string, m: Image, done: seq<Node>, work: seq<Node>)
  {
    && (forall x | x in done + work :: x in m)
    && Paths(m, done) + StackOrder(fs, Paths(m, work)) == Order(fs, base)
  }

  /** The ops so far are the `Root` op and the blocks of the listed paths. */
  ghost predicate Logs(fs: Filesystem, base: string, m: Image, done: seq<Node>, ops: seq<OpData>)
  {
    && (forall x | x in done :: x in m)
    && MatchesIn(m, ops, [Logged(Root, base, 0)] + Log(fs, Paths(m, done)))
  }

  /**
   * The state of the crawl between two listings, as the loop of dirtree/build.go:160-169 keeps
   * it: `done` holds the nodes listed so far, in order, and `work` the stack of nodes still to
   * list. Together they are the nodes of a well-formed tree rooted at `root`; the nodes on the
   * stack are empty and of size 0; every listed node holds its own bytes and its sub-directories;
   * the listed paths followed by the stack's order are the listing order of the whole crawl; and
   * `ops` are the ops of the listings so far, after the `Root` op.
   */
  ghost predicate Crawling(fs: Filesystem, base: string, root: Node, m: Image, chains: map<Node, seq<Node>>,
                           done: seq<Node>, work: seq<Node>, ops: seq<OpData>)
  {
    && WfIn(m) && Rooted(base, root, m) && Chained(m, chains)
    && Partitioned(m, done, work) && Pending(m, work) && AllListed(fs, m, done)
    && Ordered(fs, base, m, done, work) && Logs(fs, base, m, done, ops)
  }

  /** `m1` and `nops` are what `procDir` makes of the top of the stack `work` in `m`. */
  ghost predicate Popped(fs: Filesystem, m: Image, m1: Image, chains: map<Node, seq<Node>>, work: seq<Node>,
                          kids: seq<Node>, nops: seq<OpData>)
  {
    && |work| > 0 && work[|work| - 1] in m && work[|work| - 1] in chains
    && var node := work[|work| - 1];
       var p := m[node].Dir.Path;
       && Step(m, m1, node, chains[node], kids, Subdirs(fs, p), OwnBytes(fs, p))
       && MatchesIn(m1, nops, ListingOps(fs, p, m[node].Dir.Size))
  }

  lemma StepExtends(m: Image, m1: Image, node: Node, chain: seq<Node>, kids: seq<Node>, names: seq<string>, d: int)
    requires Step(m, m1, node, chain, kids, names, d)
    ensures Extends(m, m1)
  {
  }

  lemma ExtendsPaths(m: Image, m1: Image, xs: seq<Node>)
    requires Extends(m, m1) && forall x | x in xs :: x in m
    ensures Paths(m1, xs) == Paths(m, xs)
  {
  }

  lemma ExtendsMatches(m: Image, m1: Image, ops: seq<OpData>, log: seq<Logged>)
    requires Extends(m, m1) && MatchesIn(m, ops, log)
    ensures MatchesIn(m1, ops, log)
  {
    forall k | 0 <= k < |ops| ensures ops[k].Node in m1 && m1[ops[k].Node].Dir.Path == log[k].Path {
    }
  }

  /** Only the chain element just below a chain element `chain[i]` is both its child and on the chain. */
  lemma ChainChild(m: Image, chain: seq<Node>, i: nat, c: Node)
    requires WfIn(m) && ChainIn(m, chain) && i < |chain| && c in m[chain[i]].Children && c in chain
    ensures i > 0 && c == chain[i - 1]
  {
    var j :| 0 <= j < |chain| && chain[j] == c;
    assert m[c].Parent == chain[i];
    if j == |chain| - 1 {
      assert false;
    }
    assert chain[j + 1] == chain[i];
  }

  /** A node off the chain has no child on it. */
  lemma OffChain(m: Image, chain: seq<Node>, x: Node, c: Node)
    requires WfIn(m) && ChainIn(m, chain) && x in m && x !in chain && c in m[x].Children
    ensures c !in chain
  {
    assert m[c].Parent == x;
    forall j | 0 <= j < |chain| ensures chain[j] != c {
      if j < |chain| - 1 {
        assert m[chain[j]].Parent == chain[j + 1];
      }
    }
  }

  lemma {:induction false} SumInSame(m: Image, m1: Image, cs: seq<Node>)
    requires forall c | c in cs :: c in m && c in m1 && m1[c].Dir.Size == m[c].Dir.Size
    ensures SumIn(m1, cs) == SumIn(m, cs)
    decreases |cs|
  {
    if cs != [] {
      SumInSame(m, m1, cs[..|cs| - 1]);
    }
  }

  lemma {:induction false} SumInOne(m: Image, m1: Image, cs: seq<Node>, c: Node, d: int)
    requires Distinct(cs) && c in cs
    requires forall y | y in cs :: y in m && y in m1 && m1[y].Dir.Size == m[y].Dir.Size + if y == c then d else 0
    ensures SumIn(m1, cs) == SumIn(m, cs) + d
    decreases |cs|
  {
    var n := |cs|;
    if cs[n - 1] == c {
      var front := cs[..n - 1];
      forall y | y in front ensures y != c {
        var j :| 0 <= j < n - 1 && front[j] == y;
        assert cs[j] == y;
      }
      SumInSame(m, m1, front);
    } else {
      SumInOne(m, m1, cs[..n - 1], c, d);
    }
  }

  lemma {:induction false} SumInZero(m: Image, cs: seq<Node>)
    requires forall c | c in cs :: c in m && m[c].Dir.Size == 0
    ensures SumIn(m, cs) == 0
    decreases |cs|
  {
    if cs != [] {
      SumInZero(m, cs[..|cs| - 1]);
    }
  }

  /** Listing `node` keeps every forest link. */
  lemma StepWf(m: Image, m1: Image, node: Node, chain: seq<Node>, kids: seq<Node>, names: seq<string>, d: int)
    requires WfIn(m) && Step(m, m1, node, chain, kids, names, d)
    ensures WfIn(m1)
  {
    forall x | x in m1
      ensures Distinct(m1[x].Children)
      ensures forall c | c in m1[x].Children :: c in m1 && m1[c].Parent == x
      ensures m1[x].Parent == null || (m1[x].Parent in m1 && x in m1[m1[x].Parent].Children)
    {
      if x in m {
        if x == node {
          var cs := m[x].Children;
          forall i, j | 0 <= i < j < |cs + kids| ensures (cs + kids)[i] != (cs + kids)[j] {
            if j >= |cs| && i < |cs| {
              assert (cs + kids)[i] in m && (cs + kids)[j] == kids[j - |cs|];
            }
          }
        }
        if m[x].Parent != null && m[x].Parent == node {
          assert x in m[node].Children;
        }
      } else {
        var k :| 0 <= k < |kids| && kids[k] == x;
        assert x in m1[node].Children;
      }
    }
  }

  lemma ExtendsChain(m: Image, m1: Image, chain: seq<Node>)
    requires Extends(m, m1) && ChainIn(m, chain)
    ensures ChainIn(m1, chain)
  {
  }

  lemma ChainOnTop(m: Image, k: Node, chain: seq<Node>)
    requires ChainIn(m, chain) && k in m && k !in chain && m[k].Parent == chain[0]
    ensures ChainIn(m, [k] + chain)
  {
    var c := [k] + chain;
    forall i | 0 <= i < |c| - 1 ensures m[c[i]].Parent == c[i + 1] {
      if i > 0 {
        assert c[i] == chain[i - 1] && c[i + 1] == chain[i];
      }
    }
  }

  /** Each node of the listed image climbs to the root along its chain. */
  lemma StepChains(m: Image, m1: Image, chains: map<Node, seq<Node>>, node: Node, kids: seq<Node>, names: seq<string>, d: int)
    requires forall x | x in m :: x in chains && ChainIn(m, chains[x]) && chains[x][0] == x
    requires node in m && Step(m, m1, node, chains[node], kids, names, d)
    ensures forall x | x in m1 :: x in Extend(chains, node, kids) && ChainIn(m1, Extend(chains, node, kids)[x])
                                 && Extend(chains, node, kids)[x][0] == x
  {
    var chains1 := Extend(chains, node, kids);
    StepExtends(m, m1, node, chains[node], kids, names, d);
    ExtendsChain(m, m1, chains[node]);
    forall x | x in m1 ensures x in chains1 && ChainIn(m1, chains1[x]) && chains1[x][0] == x {
      if x in kids {
        assert chains1[x] == [x] + chains[node];
        ChainOnTop(m1, x, chains[node]);
      } else {
        assert x in m && chains1[x] == chains[x];
        ExtendsChain(m, m1, chains[x]);
      }
    }
  }

  /** Listing `node` credits it with `d` own bytes and keeps every other node's own bytes. */
  lemma StepOwn(m: Image, m1: Image, node: Node, chain: seq<Node>, kids: seq<Node>, names: seq<string>, d: int, x: Node)
    requires WfIn(m) && ChainIn(m, chain) && chain[0] == node && m[node].Children == []
    requires Step(m, m1, node, chain, kids, names, d) && x in m
    ensures OwnIn(m1, x) == OwnIn(m, x) + if x == node then d else 0
  {
    var cs := m[x].Children;
    if x == node {
      assert m1[x].Children == [] + kids == kids;
      SumInZero(m1, kids);
    } else if x in chain {
      var i :| 0 <= i < |chain| && chain[i] == x;
      assert i > 0 by {
        if i == 0 {
          assert false;
        }
      }
      var c := chain[i - 1];
      assert m[c].Parent == x;
      forall y | y in cs ensures y in m && y in m1 && m1[y].Dir.Size == m[y].Dir.Size + if y == c then d else 0 {
        if y in chain {
          ChainChild(m, chain, i, y);
        }
      }
      SumInOne(m, m1, cs, c, d);
    } else {
      forall y | y in cs ensures y in m && y in m1 && m1[y].Dir.Size == m[y].Dir.Size {
        OffChain(m, chain, x, y);
      }
      SumInSame(m, m1, cs);
    }
  }

  /** A node listed before `node` is still listed after it. */
  lemma ListedKept(fs: Filesystem, m: Image, m1: Image, node: Node, chain: seq<Node>, kids: seq<Node>, x: Node)
    requires WfIn(m) && ChainIn(m, chain) && chain[0] == node && m[node].Children == []
    requires Step(m, m1, node, chain, kids, Subdirs(fs, m[node].Dir.Path), OwnBytes(fs, m[node].Dir.Path))
    requires x in m && x != node && ListedIn(fs, m, x)
    ensures x in m1 && ListedIn(fs, m1, x)
  {
    var p := m[node].Dir.Path;
    StepOwn(m, m1, node, chain, kids, Subdirs(fs, p), OwnBytes(fs, p), x);
    assert m1[x].Children == m[x].Children && m1[x].Dir.Path == m[x].Dir.Path;
    forall c | c in m[x].Children ensures c in m1 && m1[c].Dir.Path == m[c].Dir.Path && m1[c].Dir.Basename == m[c].Dir.Basename {
      assert c in m;
    }
  }

  /** What listing makes of `node` itself and of its kids. */
  lemma StepNode(fs: Filesystem, m: Image, m1: Image, node: Node, chain: seq<Node>, kids: seq<Node>)
    requires node in m && node in chain && m[node].Children == [] && m[node].Dir.Size == 0
    requires Step(m, m1, node, chain, kids, Subdirs(fs, m[node].Dir.Path), OwnBytes(fs, m[node].Dir.Path))
    ensures node in m1 && m1[node].Dir.Path == m[node].Dir.Path && m1[node].Children == kids
    ensures m1[node].Dir.Size == OwnBytes(fs, m[node].Dir.Path)
    ensures |kids| == |Subdirs(fs, m[node].Dir.Path)|
    ensures forall k | 0 <= k < |kids| :: kids[k] in m1 && m1[kids[k]].Dir.Size == 0
    ensures forall k | 0 <= k < |kids| :: m1[kids[k]].Dir.Path == ChildPath(m[node].Dir.Path, Subdirs(fs, m[node].Dir.Path)[k])
    ensures forall k | 0 <= k < |kids| :: m1[kids[k]].Dir.Basename == Subdirs(fs, m[node].Dir.Path)[k]
  {
    assert m[node].Children + kids == kids;
  }

  /** Once listed, `node` holds its own bytes and its sub-directories. */
  lemma ListedNow(fs: Filesystem, m1: Image, node: Node, kids: seq<Node>)
    requires node in m1 && m1[node].Children == kids && m1[node].Dir.Size == OwnBytes(fs, m1[node].Dir.Path)
    requires |kids| == |Subdirs(fs, m1[node].Dir.Path)|
    requires forall k | 0 <= k < |kids| :: kids[k] in m1 && m1[kids[k]].Dir.Size == 0
    requires forall k | 0 <= k < |kids| :: m1[kids[k]].Dir.Path == ChildPath(m1[node].Dir.Path, Subdirs(fs, m1[node].Dir.Path)[k])
    requires forall k | 0 <= k < |kids| :: m1[kids[k]].Dir.Basename == Subdirs(fs, m1[node].Dir.Path)[k]
    ensures ListedIn(fs, m1, node)
  {
    SumInZero(m1, kids);
  }

  /** After listing `node`, it and every node listed before it are listed in the new image. */
  lemma StepListed(fs: Filesystem, m: Image, m1: Image, node: Node, chain: seq<Node>, kids: seq<Node>, done: seq<Node>)
    requires WfIn(m) && ChainIn(m, chain) && chain[0] == node
    requires m[node].Children == [] && m[node].Dir.Size == 0
    requires Step(m, m1, node, chain, kids, Subdirs(fs, m[node].Dir.Path), OwnBytes(fs, m[node].Dir.Path))
    requires forall x | x in done :: x in m && x != node && ListedIn(fs, m, x)
    ensures forall x | x in done + [node] :: x in m1 && ListedIn(fs, m1, x)
  {
    StepNode(fs, m, m1, node, chain, kids);
    ListedNow(fs, m1, node, kids);
    forall x | x in done ensures x in m1 && ListedIn(fs, m1, x) {
      ListedKept(fs, m, m1, node, chain, kids, x);
    }
  }

  lemma PathsPush(m: Image, m1: Image, xs: seq<Node>, x: Node)
    requires Extends(m, m1) && x in m && forall y | y in xs :: y in m
    ensures forall y | y in xs + [x] :: y in m1
    ensures Paths(m1, xs + [x]) == Paths(m, xs) + [m[x].Dir.Path]
  {
    ExtendsPaths(m, m1, xs + [x]);
  }

  lemma KidPaths(m: Image, m1: Image, node: Node, chain: seq<Node>, kids: seq<Node>, names: seq<string>, d: int)
    requires Step(m, m1, node, chain, kids, names, d)
    ensures forall x | x in kids :: x in m1
    ensures Paths(m1, kids) == ChildPaths(m[node].Dir.Path, names)
  {
  }

  lemma PathsAppend(m: Image, xs: seq<Node>, ys: seq<Node>)
    requires forall y | y in xs + ys :: y in m
    ensures Paths(m, xs + ys) == Paths(m, xs) + Paths(m, ys)
  {
  }

  lemma StackTop(fs: Filesystem, ps: seq<string>, q: string)
    ensures StackOrder(fs, ps + [q]) == Order(fs, q) + StackOrder(fs, ps)
  {
    assert (ps + [q])[..|ps|] == ps;
  }

  /** Listing the top of the stack moves it to the listed nodes and pushes its sub-directories. */
  lemma StepOrder(fs: Filesystem, base: string, m: Image, m1: Image, node: Node, kids: seq<Node>,
                  done: seq<Node>, work: seq<Node>)
    requires |work| > 0 && node == work[|work| - 1]
    requires Extends(m, m1) && forall x | x in done + work :: x in m
    requires forall x | x in kids :: x in m1
    requires Paths(m1, kids) == ChildPaths(m[node].Dir.Path, Subdirs(fs, m[node].Dir.Path))
    requires Paths(m, done) + StackOrder(fs, Paths(m, work)) == Order(fs, base)
    ensures forall x | x in work[..|work| - 1] + kids :: x in m1
    ensures Paths(m1, done + [node]) + StackOrder(fs, Paths(m1, work[..|work| - 1] + kids)) == Order(fs, base)
  {
    var p := m[node].Dir.Path;
    var names := Subdirs(fs, p);
    var rest := work[..|work| - 1];
    assert work == rest + [node];
    PathsPush(m, m1, done, node);
    PathsPush(m, m, rest, node);
    ExtendsPaths(m, m1, rest);
    PathsAppend(m1, rest, kids);
    OrderPush(fs, base, Paths(m, done), Paths(m, rest), p);
  }

  /** The listing order, once the top `p` of a stack `ps` is listed and its sub-directories pushed. */
  lemma OrderPush(fs: Filesystem, base: string, a: seq<string>, ps: seq<string>, p: string)
    requires a + StackOrder(fs, ps + [p]) == Order(fs, base)
    ensures (a + [p]) + StackOrder(fs, ps + ChildPaths(p, Subdirs(fs, p))) == Order(fs, base)
  {
    var below := if p in fs then Orders(fs, p, Subdirs(fs, p)) else [];
    calc {
      (a + [p]) + StackOrder(fs, ps + ChildPaths(p, Subdirs(fs, p)));
      { PushBelow(fs, ps, p); }
      (a + [p]) + (below + StackOrder(fs, ps));
      { Regroup(a, [p], below, StackOrder(fs, ps)); }
      a + (([p] + below) + StackOrder(fs, ps));
      a + (Order(fs, p) + StackOrder(fs, ps));
      { StackTop(fs, ps, p); }
      a + StackOrder(fs, ps + [p]);
      Order(fs, base);
    }
  }

  lemma Regroup<T>(a: seq<T>, b: seq<T>, c: seq<T>, d: seq<T>)
    ensures (a + b) + (c + d) == a + ((b + c) + d)
  {
  }

  lemma PushBelow(fs: Filesystem, ps: seq<string>, p: string)
    ensures StackOrder(fs, ps + ChildPaths(p, Subdirs(fs, p)))
         == (if p in fs then Orders(fs, p, Subdirs(fs, p)) else []) + StackOrder(fs, ps)
  {
    if p in fs {
      StackPush(fs, ps, p, Subdirs(fs, p));
    } else {
      assert ps + ChildPaths(p, Subdirs(fs, p)) == ps;
    }
  }

  /** Listing the top of the stack appends its block to the ops. */
  lemma StepOps(fs: Filesystem, base: string, m: Image, m1: Image, node: Node, done: seq<Node>,
                ops: seq<OpData>, nops: seq<OpData>)
    requires Extends(m, m1) && node in m && forall x | x in done :: x in m
    requires MatchesIn(m, ops, [Logged(Root, base, 0)] + Log(fs, Paths(m, done)))
    requires MatchesIn(m1, nops, Block(fs, m[node].Dir.Path))
    ensures forall x | x in done + [node] :: x in m1
    ensures MatchesIn(m1, ops + nops, [Logged(Root, base, 0)] + Log(fs, Paths(m1, done + [node])))
  {
    var p := m[node].Dir.Path;
    var r := [Logged(Root, base, 0)];
    PathsPush(m, m1, done, node);
    LogAppend(fs, Paths(m, done), p);
    ExtendsMatches(m, m1, ops, r + Log(fs, Paths(m, done)));
    MatchesAppend(m1, ops, r + Log(fs, Paths(m, done)), nops, Block(fs, p));
    Assoc(r, Log(fs, Paths(m, done)), Block(fs, p));
  }

  lemma DistinctConcat<T>(a: seq<T>, b: seq<T>)
    ensures Distinct(a + b) <==> Distinct(a) && Distinct(b) && forall x | x in a :: x !in b
  {
    var c := a + b;
    if Distinct(a) && Distinct(b) && forall x | x in a :: x !in b {
      forall i, j | 0 <= i < j < |c| ensures c[i] != c[j] {
        if i < |a| && j >= |a| {
          assert c[i] in a && c[j] == b[j - |a|];
        } else if i >= |a| {
          assert c[i] == b[i - |a|] && c[j] == b[j - |a|];
        }
      }
    }
    if Distinct(c) {
      forall i, j | 0 <= i < j < |a| ensures a[i] != a[j] {
        assert a[i] == c[i] && a[j] == c[j];
      }
      forall i, j | 0 <= i < j < |b| ensures b[i] != b[j] {
        assert b[i] == c[|a| + i] && b[j] == c[|a| + j];
      }
      forall x | x in a ensures x !in b {
        var i :| 0 <= i < |a| && a[i] == x;
        forall j | 0 <= j < |b| ensures b[j] != x {
          assert c[i] == x && c[|a| + j] == b[j];
        }
      }
    }
  }

  lemma DistinctParts<T>(a: seq<T>, b: seq<T>)
    requires Distinct(a + b)
    ensures Distinct(b) && forall x | x in a :: x !in b
  {
    DistinctConcat(a, b);
  }

  /** Moving the top of the stack to the listed nodes and pushing fresh kids keeps the nodes distinct. */
  lemma DistinctMove<T>(done: seq<T>, rest: seq<T>, x: T, kids: seq<T>)
    requires Distinct(done + (rest + [x])) && Distinct(kids)
    requires forall k | k in kids :: k !in done + (rest + [x])
    ensures Distinct(done + [x] + (rest + kids))
  {
    DistinctConcat(done, rest + [x]);
    DistinctConcat(rest, [x]);
    DistinctConcat(done, [x]);
    DistinctConcat(rest, kids);
    DistinctConcat(done + [x], rest + kids);
  }

  /** Listing the top of the stack keeps the listed nodes and the stack apart. */
  lemma StepDistinct(m: Image, done: seq<Node>, work: seq<Node>, kids: seq<Node>)
    requires |work| > 0 && Distinct(done + work) && (forall x | x in done + work :: x in m)
    requires Distinct(kids) && forall k | k in kids :: k !in m
    ensures Distinct(done + [work[|work| - 1]] + (work[..|work| - 1] + kids))
  {
    assert work == work[..|work| - 1] + [work[|work| - 1]];
    DistinctMove(done, work[..|work| - 1], work[|work| - 1], kids);
  }

  /** The listed nodes and the stack still cover the image exactly once the kids are pushed. */
  lemma StepCover(m: Image, m1: Image, done: seq<Node>, work: seq<Node>, kids: seq<Node>)
    requires |work| > 0 && (forall x | x in done + work :: x in m) && (forall x | x in m :: x in done + work)
    requires m1.Keys == m.Keys + (set k | k in kids)
    ensures forall x | x in done + [work[|work| - 1]] + (work[..|work| - 1] + kids) :: x in m1
    ensures forall x | x in m1 :: x in done + [work[|work| - 1]] + (work[..|work| - 1] + kids)
  {
    assert work == work[..|work| - 1] + [work[|work| - 1]];
  }

  /** The nodes left on the stack are untouched by listing its top, and the pushed kids are empty. */
  lemma StepPending(m: Image, m1: Image, node: Node, chain: seq<Node>, kids: seq<Node>, names: seq<string>, d: int,
                    work: seq<Node>)
    requires WfIn(m) && ChainIn(m, chain) && chain[0] == node
    requires |work| > 0 && node == work[|work| - 1] && Distinct(work)
    requires Step(m, m1, node, chain, kids, names, d)
    requires forall x | x in work :: x in m && m[x].Children == [] && m[x].Dir.Size == 0
    ensures forall x | x in work[..|work| - 1] + kids :: x in m1 && m1[x].Children == [] && m1[x].Dir.Size == 0
  {
    var rest := work[..|work| - 1];
    forall i | 0 < i < |chain| ensures m[chain[i]].Children != [] {
      assert m[chain[i - 1]].Parent == chain[i];
    }
    forall x | x in rest ensures x !in chain && x != node {
      var j :| 0 <= j < |rest| && rest[j] == x;
      assert work[j] == x;
    }
  }

  /** The crawl starts with the root alone on the stack, after the `Root` op (dirtree/build.go:91-103). */
  lemma CrawlStart(fs: Filesystem, base: string, root: Node)
    ensures Crawling(fs, base, root, map[root := Rec(Directory(base, Base(base), 0), [], null)], map[root := [root]],
                     [], [root], [OpData(Root, root, 0)])
  {
    var m := map[root := Rec(Directory(base, Base(base), 0), [], null)];
    assert Paths(m, [root]) == [base];
    assert StackOrder(fs, [base]) == Order(fs, base) + StackOrder(fs, []);
    assert Paths(m, []) == [] && Log(fs, []) == [];
  }

  lemma CrawlTree(fs: Filesystem, base: string, root: Node, m: Image, chains: map<Node, seq<Node>>,
                  work: seq<Node>, m1: Image, kids: seq<Node>, nops: seq<OpData>)
    requires WfIn(m) && Rooted(base, root, m) && Chained(m, chains) && Popped(fs, m, m1, chains, work, kids, nops)
    ensures WfIn(m1) && Rooted(base, root, m1) && Chained(m1, Extend(chains, work[|work| - 1], kids))
  {
    var node := work[|work| - 1];
    var p := m[node].Dir.Path;
    StepExtends(m, m1, node, chains[node], kids, Subdirs(fs, p), OwnBytes(fs, p));
    StepWf(m, m1, node, chains[node], kids, Subdirs(fs, p), OwnBytes(fs, p));
    StepChains(m, m1, chains, node, kids, Subdirs(fs, p), OwnBytes(fs, p));
  }

  lemma CrawlNodes(fs: Filesystem, m: Image, chains: map<Node, seq<Node>>, done: seq<Node>,
                   work: seq<Node>, m1: Image, kids: seq<Node>, nops: seq<OpData>)
    requires Partitioned(m, done, work) && Popped(fs, m, m1, chains, work, kids, nops)
    ensures Partitioned(m1, done + [work[|work| - 1]], work[..|work| - 1] + kids)
  {
    StepDistinct(m, done, work, kids);
    StepCover(m, m1, done, work, kids);
  }

  lemma CrawlPending(fs: Filesystem, m: Image, chains: map<Node, seq<Node>>, done: seq<Node>,
                     work: seq<Node>, m1: Image, kids: seq<Node>, nops: seq<OpData>)
    requires WfIn(m) && Chained(m, chains) && Partitioned(m, done, work) && Pending(m, work)
    requires Popped(fs, m, m1, chains, work, kids, nops)
    ensures Pending(m1, work[..|work| - 1] + kids)
  {
    var node := work[|work| - 1];
    var p := m[node].Dir.Path;
    DistinctParts(done, work);
    StepPending(m, m1, node, chains[node], kids, Subdirs(fs, p), OwnBytes(fs, p), work);
  }

  lemma CrawlListed(fs: Filesystem, m: Image, chains: map<Node, seq<Node>>, done: seq<Node>,
                    work: seq<Node>, m1: Image, kids: seq<Node>, nops: seq<OpData>)
    requires WfIn(m) && Chained(m, chains) && Partitioned(m, done, work) && Pending(m, work) && AllListed(fs, m, done)
    requires Popped(fs, m, m1, chains, work, kids, nops)
    ensures AllListed(fs, m1, done + [work[|work| - 1]])
  {
    DistinctParts(done, work);
    StepListed(fs, m, m1, work[|work| - 1], chains[work[|work| - 1]], kids, done);
  }

  lemma CrawlLog(fs: Filesystem, base: string, m: Image, chains: map<Node, seq<Node>>, done: seq<Node>,
                 work: seq<Node>, ops: seq<OpData>, m1: Image, kids: seq<Node>, nops: seq<OpData>)
    requires Pending(m, work) && Ordered(fs, base, m, done, work) && Logs(fs, base, m, done, ops)
    requires Popped(fs, m, m1, chains, work, kids, nops)
    ensures Ordered(fs, base, m1, done + [work[|work| - 1]], work[..|work| - 1] + kids)
    ensures Logs(fs, base, m1, done + [work[|work| - 1]], ops + nops)
  {
    var node := work[|work| - 1];
    var p := m[node].Dir.Path;
    StepExtends(m, m1, node, chains[node], kids, Subdirs(fs, p), OwnBytes(fs, p));
    KidPaths(m, m1, node, chains[node], kids, Subdirs(fs, p), OwnBytes(fs, p));
    StepOrder(fs, base, m, m1, node, kids, done, work);
    StepOps(fs, base, m, m1, node, done, ops, nops);
  }

  /** One turn of the crawl loop (dirtree/build.go:160-169): pop a node, list it, push its kids. */
  lemma CrawlStep(fs: Filesystem, base: string, root: Node, m: Image, chains: map<Node, seq<Node>>,
                  done: seq<Node>, work: seq<Node>, ops: seq<OpData>, m1: Image, kids: seq<Node>, nops: seq<OpData>)
    requires Crawling(fs, base, root, m, chains, done, work, ops) && Popped(fs, m, m1, chains, work, kids, nops)
    ensures Crawling(fs, base, root, m1, Extend(chains, work[|work| - 1], kids), done + [work[|work| - 1]],
                     work[..|work| - 1] + kids, ops + nops)
  {
    CrawlTree(fs, base, root, m, chains, work, m1, kids, nops);
    CrawlNodes(fs, m, chains, done, work, m1, kids, nops);
    CrawlPending(fs, m, chains, done, work, m1, kids, nops);
    CrawlListed(fs, m, chains, done, work, m1, kids, nops);
    CrawlLog(fs, base, m, chains, done, work, ops, m1, kids, nops);
  }

  /**
   * The outcome of a crawl from `base`: a well-formed tree rooted at `root` whose nodes are listed,
   * each once, in the listing order of the crawl, with each node's size the total of its
   * directory; and `ops` are the `Root` op followed by the block of each listing, in order.
   */
  ghost predicate Built(fs: Filesystem, base: string, root: Node, m: Image, listed: seq<Node>, ops: seq<OpData>)
  {
    && WfIn(m) && Rooted(base, root, m)
    && (forall x | x in m :: ListedIn(fs, m, x) && m[x].Dir.Size == Total(fs, m[x].Dir.Path))
    && Distinct(listed) && (forall x | x in listed :: x in m) && (forall x | x in m :: x in listed)
    && Paths(m, listed) == Order(fs, base)
    && MatchesIn(m, ops, [Logged(Root, base, 0)] + Log(fs, Order(fs, base)))
  }

  /** When the stack is empty, every directory of the crawl has been listed, each once, in order. */
  lemma CrawlDone(fs: Filesystem, base: string, root: Node, m: Image, chains: map<Node, seq<Node>>,
                  done: seq<Node>, ops: seq<OpData>)
    requires Crawling(fs, base, root, m, chains, done, [], ops)
    ensures Built(fs, base, root, m, done, ops)
    ensures m[root].Dir == Directory(base, Base(base), Total(fs, base))
  {
    assert done + [] == done;
    assert Paths(m, []) == [];
    assert Paths(m, done) + StackOrder(fs, []) == Paths(m, done);
    forall x | x in m ensures ListedIn(fs, m, x) && m[x].Dir.Size == Total(fs, m[x].Dir.Path) {
      SizeIsTotal(fs, m, x);
    }
  }

  /** The stack is not empty, so fewer nodes are listed than the crawl lists in all. */
  lemma CrawlBound(fs: Filesystem, base: string, m: Image, done: seq<Node>, work: seq<Node>)
    requires Ordered(fs, base, m, done, work) && work != []
    ensures |done| < |Order(fs, base)|
  {
    var ps := Paths(m, work);
    assert StackOrder(fs, ps) == Order(fs, ps[|ps| - 1]) + StackOrder(fs, ps[..|ps| - 1]);
  }

  /** One turn of the crawl loop of `buildFs` (dirtree/build.go:160-169) on the heap. */
  method CrawlTurn(fs: Filesystem, base: string, root: Node, work: seq<Node>, ops: seq<OpData>,
                   ghost m: Image, ghost chains: map<Node, seq<Node>>, ghost done: seq<Node>)
    returns (work': seq<Node>, ops': seq<OpData>, ghost m': Image, ghost chains': map<Node, seq<Node>>, ghost done': seq<Node>)
    requires Mirrors(m) && Crawling(fs, base, root, m, chains, done, work, ops) && work != []
    modifies set x | x in m
    ensures Mirrors(m') && Crawling(fs, base, root, m', chains', done', work', ops')
    ensures forall x | x in m' && x !in m :: fresh(x)
    ensures |done| < |Order(fs, base)| && |done'| == |done| + 1
  {
    CrawlBound(fs, base, m, done, work);
    var node := work[|work| - 1];
    var kids, nops;
    kids, nops, m' := ProcDir(fs, node, m, chains[node]);
    CrawlStep(fs, base, root, m, chains, done, work, ops, m', kids, nops);
    work' := work[..|work| - 1] + kids;
    ops' := ops + nops;
    chains' := Extend(chains, node, kids);
    done' := done + [node];
  }

  /**
   * `buildFs` (dirtree/build.go:81-174): make the tree, with a root node for `basepath` named by
   * `path.Base`, emit the `Root` op, then list directories from a LIFO stack until it is empty.
   * The tree it returns holds one node per directory in listing order, each with its
   * sub-directories as children in the order they were listed and with its size the total of the
   * regular-file bytes beneath it; the ops are the `Root` op followed by each listing's block.
   * The source calls `tree.Root()` as a method, while dirtree/dirtree.go:94-101 declares `Root`
   * as a field that `New` leaves nil; the model reads it as a root node created here, detached,
   * with no children, and stored in `Root`.
   */
  method BuildFs(fs: Filesystem, basepath: string) returns (tree: Dirtree, ops: seq<OpData>, ghost m: Image, ghost listed: seq<Node>)
    ensures tree.Root != null && Mirrors(m) && Built(fs, basepath, tree.Root, m, listed, ops)
    ensures tree.Root.Parent == null && tree.Root.Dir == Directory(basepath, Base(basepath), Total(fs, basepath))
  {
    tree := new Dirtree();
    var root := new Node(Directory(basepath, Base(basepath), 0));
    tree.Root := root;
    ops := [OpData(Root, root, 0)];
    var work := [root];
    m := map[root := Rec(Directory(basepath, Base(basepath), 0), [], null)];
    ghost var chains := map[root := [root]];
    listed := [];
    CrawlStart(fs, basepath, root);
    while work != []
      invariant Mirrors(m) && Crawling(fs, basepath, root, m, chains, listed, work, ops)
      invariant forall x | x in m :: fresh(x)
      invariant tree.Root == root
      decreases |Order(fs, basepath)| - |listed|
    {
      work, ops, m, chains, listed := CrawlTurn(fs, basepath, root, work, ops, m, chains, listed);
    }
    CrawlDone(fs, basepath, root, m, chains, listed, ops);
  }
}
