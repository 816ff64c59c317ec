/**
 * The filesystem of `TestBuild` (dirtree/build_test.go:80-142) and what crawling it yields:
 * four directories, listed in stack order, with the sizes the test expects of them.
 */
module BuildFixture {
  import opened Dirtree
  import opened Build

  /** `makeTestFs` (dirtree/build_test.go:80-124): every path the test can open, files included. */
  function TestFs(): Filesystem
  {
    map[
      "/tmp" := Listing([FileInfo("a", Subdir, 0), FileInfo("b", Subdir, 0)], false),
      "/tmp/a" := Listing([FileInfo("file1.txt", Regular, 20), FileInfo("file2.txt", Regular, 10)], false),
      "/tmp/a/file1.txt" := Listing([], false),
      "/tmp/a/file2.txt" := Listing([], false),
      "/tmp/b" := Listing([FileInfo("a.txt", Regular, 5), FileInfo("dir", Subdir, 0)], false),
      "/tmp/b/a.txt" := Listing([], false),
      "/tmp/b/dir" := Listing([FileInfo("blort", Regular, 30)], false),
      "/tmp/b/dir/blort" := Listing([], false)
    ]
  }

  /** The directories of the fixture in the order the crawl lists them, and the sizes `TestBuild` expects of them. */
  const Listed: seq<string> := ["/tmp", "/tmp/b", "/tmp/b/dir", "/tmp/a"]
  const Sizes: seq<int> := [65, 35, 30, 30]

  /** The sub-directory paths of the fixture, spelled out. */
  lemma FixturePaths()
    ensures ChildPath("/tmp", "a") == "/tmp/a"
    ensures ChildPath("/tmp", "b") == "/tmp/b"
    ensures ChildPath("/tmp/b", "dir") == "/tmp/b/dir"
  {
  }

  /** What each directory holds directly: its regular-file bytes and its sub-directories. */
  lemma FixtureListings()
    ensures OwnBytes(TestFs(), "/tmp") == 0 && Subdirs(TestFs(), "/tmp") == ["a", "b"]
    ensures OwnBytes(TestFs(), "/tmp/a") == 30 && Subdirs(TestFs(), "/tmp/a") == []
    ensures OwnBytes(TestFs(), "/tmp/b") == 5 && Subdirs(TestFs(), "/tmp/b") == ["dir"]
    ensures OwnBytes(TestFs(), "/tmp/b/dir") == 30 && Subdirs(TestFs(), "/tmp/b/dir") == []
  {
    var fs := TestFs();
    var top := [FileInfo("a", Subdir, 0), FileInfo("b", Subdir, 0)];
    assert fs["/tmp"].Entries == top;
    assert top[..1] == [FileInfo("a", Subdir, 0)];
    assert RegularBytes(top) == 0 && SubdirNames(top) == ["a", "b"];
    assert fs["/tmp/a"].Entries[..1] == [FileInfo("file1.txt", Regular, 20)];
    assert fs["/tmp/b"].Entries[..1] == [FileInfo("a.txt", Regular, 5)];
    assert fs["/tmp/b/dir"].Entries[..0] == [];
  }

  /** The leaf directories: each is listed alone and holds its own bytes. */
  lemma LeafTotals()
    ensures Order(TestFs(), "/tmp/a") == ["/tmp/a"] && Total(TestFs(), "/tmp/a") == 30
    ensures Order(TestFs(), "/tmp/b/dir") == ["/tmp/b/dir"] && Total(TestFs(), "/tmp/b/dir") == 30
  {
    FixtureListings();
  }

  /** `/tmp/b` is listed before `/tmp/b/dir` and holds 5 bytes of its own. */
  lemma MiddleTotal()
    ensures Order(TestFs(), "/tmp/b") == ["/tmp/b", "/tmp/b/dir"] && Total(TestFs(), "/tmp/b") == 35
  {
    var fs := TestFs();
    FixturePaths();
    FixtureListings();
    LeafTotals();
    assert Orders(fs, "/tmp/b", ["dir"]) == Order(fs, "/tmp/b/dir") + Orders(fs, "/tmp/b", []);
    assert SumOwn(fs, ["/tmp/b", "/tmp/b/dir"]) == SumOwn(fs, ["/tmp/b"]) + 30;
  }

  /**
   * The crawl of `/tmp` lists `/tmp`, then `b` (pushed last, so popped first) with `dir` under
   * it, then `a`.
   */
  lemma TopOrder()
    ensures Order(TestFs(), "/tmp") == Listed
  {
    var fs := TestFs();
    FixturePaths();
    FixtureListings();
    LeafTotals();
    MiddleTotal();
    assert ["a", "b"][..1] == ["a"];
    assert Orders(fs, "/tmp", ["a"]) == Order(fs, "/tmp/a") + Orders(fs, "/tmp", []);
    assert Orders(fs, "/tmp", ["a", "b"]) == Order(fs, "/tmp/b") + Orders(fs, "/tmp", ["a"]);
  }

  /** The sizes `TestBuild` expects (dirtree/build_test.go:133-138): the bytes under each directory. */
  lemma FixtureTotals()
    ensures Total(TestFs(), "/tmp") == 65 && Total(TestFs(), "/tmp/b") == 35
    ensures Total(TestFs(), "/tmp/a") == 30 && Total(TestFs(), "/tmp/b/dir") == 30
  {
    var fs := TestFs();
    TopOrder();
    FixtureListings();
    LeafTotals();
    MiddleTotal();
    var o := ["/tmp", "/tmp/b", "/tmp/b/dir", "/tmp/a"];
    var o2, o3 := ["/tmp", "/tmp/b"], ["/tmp", "/tmp/b", "/tmp/b/dir"];
    assert o2[..1] == ["/tmp"] && o3[..2] == o2 && o[..3] == o3;
    assert SumOwn(fs, ["/tmp"]) == 0;
    assert SumOwn(fs, o2) == 5;
    assert SumOwn(fs, o3) == 35;
  }

  /** The expected sizes, listed directory by listed directory. */
  lemma ListedTotals()
    ensures |Sizes| == |Listed| && forall i | 0 <= i < |Listed| :: Total(TestFs(), Listed[i]) == Sizes[i]
  {
    FixtureTotals();
  }

  /** `path.Base("/tmp")` is `tmp`. */
  lemma BaseTmp()
    ensures Base("/tmp") == "tmp"
  {
    assert ChildPath("", "tmp") == "/tmp";
    BaseOfChild("", "tmp");
  }

  /** In a finished crawl, the nodes listed in the order `o` have, one by one, the totals of those paths. */
  lemma ListedSizes(fs: Filesystem, base: string, root: Node, m: Image, listed: seq<Node>, ops: seq<OpData>,
                    o: seq<string>, totals: seq<int>)
    requires Built(fs, base, root, m, listed, ops)
    requires Order(fs, base) == o && |totals| == |o|
    requires forall i | 0 <= i < |o| :: Total(fs, o[i]) == totals[i]
    ensures |listed| == |o| && forall i | 0 <= i < |o| :: listed[i] in m && m[listed[i]].Dir.Size == totals[i]
  {
    forall i | 0 <= i < |o| ensures listed[i] in m && m[listed[i]].Dir.Size == totals[i] {
      assert listed[i] in m;
    }
  }

  /**
   * `TestBuild` (dirtree/build_test.go:126-164): crawling the fixture from `/tmp` gives a root
   * named `tmp` and one node per directory, in listing order, with sizes 65, 35, 30 and 30.
   */
  method BuildScenario() returns (tree: Dirtree, ops: seq<OpData>, ghost m: Image, ghost listed: seq<Node>)
    ensures tree.Root != null && tree.Root.Dir == Directory("/tmp", "tmp", 65)
    ensures forall x | x in listed :: x in m
    ensures Paths(m, listed) == Listed
    ensures |listed| == 4 && forall i | 0 <= i < 4 :: listed[i].Dir.Size == Sizes[i]
  {
    tree, ops, m, listed := BuildFs(TestFs(), "/tmp");
    TopOrder();
    FixtureTotals();
    ListedTotals();
    BaseTmp();
    ListedSizes(TestFs(), "/tmp", tree.Root, m, listed, ops, Listed, Sizes);
    forall i | 0 <= i < 4 ensures listed[i].Dir.Size == Sizes[i] {
      assert listed[i] in m;
    }
  }
}
