/**
 * The scenarios of squarify/squarify_test.go replayed against the model: every check those tests
 * make becomes a postcondition here.
 */
module SquarifyFixture {
  import opened Wrappers
  import opened Squarify

  /**
   * `TestRowPushTemporarily` (squarify/squarify_test.go:8-50): a vertical row holding 40 sees 40
   * and 50 while 50 is pushed temporarily, and holds 40 alone afterwards, with its cache as before.
   */
  method RowScenario() returns (r: Row, during: seq<Area>)
    ensures |during| == 2 && during[0].Area == 40.0 && during[1].Area == 50.0
    ensures |r.areas| == 1 && r.areas[0].Area == 40.0
    ensures r.min == 40.0 && r.max == 40.0 && r.sum == 40.0
  {
    r := new Row(Vertical, 20.0, 30.0, 30.0);
    r.Push(Area(40.0, None));
    assert r.areas == [Area(40.0, None)] && r.Cached() == Cache(40.0, 40.0, 40.0);
    var worst;
    during, worst := r.PushTemporarily(Area(50.0, None));
  }

  /** The tree of `TestSquarifyAreas` (squarify/squarify_test.go:77-122): a root of size 80 over children of size 10 and 20. */
  const B := Item(10.0, [])
  const C := Item(20.0, [])
  const Root := Item(80.0, [B, C])
  const Canvas := Rect(0.0, 0.0, 100.0, 100.0)
  const Opts := Options(20, None, true, 0.0, 0.0)

  /**
   * The areas of the fixture: 1250 for `b` and 2500 for `c` out of the canvas' 10000, and 6250
   * for the 50 units of size no child takes; sorted, the items come first, larger first.
   */
  lemma FixtureAreas()
    ensures Unsorted(Root, Canvas) == [Area(1250.0, Some(B)), Area(2500.0, Some(C)), Area(6250.0, None)]
    ensures AreasOf(Root, Canvas, true) == [Area(2500.0, Some(C)), Area(1250.0, Some(B)), Area(6250.0, None)]
  {
    var kids := Root.Children;
    assert kids[..1] == [B] && kids[..1][..0] == [];
    assert ItemsTotal(kids[..1]) == 10.0;
    assert ItemsTotal(kids) == 30.0;
    assert ChildAreas(kids[..1], 80.0, 10000.0) == [Area(1250.0, Some(B))];
    assert ChildAreas(kids, 80.0, 10000.0) == [Area(1250.0, Some(B)), Area(2500.0, Some(C))];
    var u := Unsorted(Root, Canvas);
    assert u[..1] == [Area(1250.0, Some(B))] && u[..2] == [Area(1250.0, Some(B)), Area(2500.0, Some(C))];
    assert SortByArea(u[..1]) == [Area(1250.0, Some(B))];
    var p, cb := Area(6250.0, None), [Area(2500.0, Some(C)), Area(1250.0, Some(B))];
    assert SortByArea(u[..2]) == cb;
    assert u == u[..2] + [p];
    assert cb[1..] == [Area(1250.0, Some(B))] && cb[1..][1..] == [];
    assert Insert(p, cb[1..][1..]) == [p];
    assert Insert(p, cb[1..]) == [Area(1250.0, Some(B)), p];
    assert Insert(p, cb) == cb + [p];
  }

  /**
   * `TestSquarifyAreas`: `Squarify` returns the blocks of `c` and `b` at depth 0 and nothing
   * nested, each covering the same part of the canvas as its item's size of the root's.
   */
  method SquarifyAreasScenario() returns (blocks: seq<Block>, meta: seq<Meta>)
    ensures blocks == [BlockC, BlockB] && meta == [Meta(0), Meta(0)]
    ensures forall b | b in blocks ::
              (b.Sizer == Some(B) || b.Sizer == Some(C))
              && BlockArea(b.Rect) / BlockArea(Canvas) == b.Sizer.value.Size / Root.Size
  {
    blocks, meta := Squarify.Squarify(Root, Canvas, Opts);
    assert Defaulted(Opts) == Opts;
    FixtureTile();
    FixtureShares();
  }

  /** The sorted areas of the fixture, by name. */
  const AreaC := Area(2500.0, Some(C))
  const AreaB := Area(1250.0, Some(B))
  const Rest := Area(6250.0, None)

  /** The two blocks the fixture's level is laid out in: one row across the top, 37.5 thick, `c` then `b`. */
  const BlockC := Block(Rect(0.0, 0.0, 200.0 / 3.0, 37.5), Some(C))
  const BlockB := Block(Rect(200.0 / 3.0, 0.0, 100.0 / 3.0, 37.5), Some(B))

  /** `c` alone makes a row 25 thick and 100 long (ratio 4); with `b` it is 37.5 thick, its worst block 66.7 long (ratio 1.78): `b` joins. */
  lemma FixtureSecondJoins()
    ensures Fold([AreaC]) == Cache(2500.0, 2500.0, 2500.0) && WorstOf(100.0, Fold([AreaC])) == 4.0
    ensures Fold([AreaC, AreaB]) == Cache(1250.0, 2500.0, 3750.0) && WorstOf(100.0, Fold([AreaC, AreaB])) == 16.0 / 9.0
  {
    assert [AreaC][..0] == [] && [AreaC, AreaB][..1] == [AreaC];
    assert Stretch(100.0, 2500.0, 2500.0) == 4.0;
    assert Squash(100.0, 2500.0, 2500.0) == 0.25;
    assert Stretch(100.0, 2500.0, 3750.0) == 16.0 / 9.0;
    assert Squash(100.0, 1250.0, 3750.0) == 1.125;
  }

  /** `b` joins the row of `c`. */
  lemma FixtureBJoins()
    ensures !Worse(100.0, [AreaC], AreaB)
  {
    FixtureSecondJoins();
    assert [AreaC] + [AreaB] == [AreaC, AreaB];
  }

  /** The rest of the root's size does not join the row of `c` and `b`. */
  lemma FixtureRestWorse()
    ensures Worse(100.0, [AreaC, AreaB], Rest)
  {
    FixtureSecondJoins();
    FixtureRestStartsRow();
    assert [AreaC, AreaB] + [Rest] == [AreaC, AreaB, Rest];
  }

  /** With the rest of the root's size the row's worst ratio would be 8: the row of `c` and `b` is output first. */
  lemma FixtureRestStartsRow()
    ensures Fold([AreaC, AreaB, Rest]) == Cache(1250.0, 6250.0, 10000.0) && WorstOf(100.0, Fold([AreaC, AreaB, Rest])) == 8.0
  {
    FixtureSecondJoins();
    assert [AreaC, AreaB, Rest][..2] == [AreaC, AreaB];
    assert Stretch(100.0, 6250.0, 10000.0) == 0.625;
    assert Squash(100.0, 1250.0, 10000.0) == 8.0;
  }

  /** The row of `c` and `b` laid across the top of the canvas. */
  lemma FixtureRowLaid()
    ensures Lay([AreaC, AreaB], 2, 3750.0, 100.0, 0.0, 0.0, Horizontal) == [BlockC, BlockB]
    ensures Thickness(3750.0, 100.0) == 37.5
  {
    var xs := [AreaC, AreaB];
    assert Offset(xs, 1, 3750.0, 100.0) == 200.0 / 3.0;
    assert Place(xs, 0, 3750.0, 100.0, 0.0, 0.0, Horizontal) == BlockC;
    assert Place(xs, 1, 3750.0, 100.0, 0.0, 0.0, Horizontal) == BlockB;
  }

  /** The loop over the fixture's first two areas: `c` starts the row, `b` joins it. */
  lemma FixtureFirstRow()
    ensures Run(Canvas, Opts, [AreaC, AreaB]) == Layout(0.0, 0.0, 100.0, 100.0, [AreaC, AreaB], [])
  {
    assert [AreaC][..0] == [] && [AreaC, AreaB][..1] == [AreaC] && [] + [AreaC] == [AreaC];
    assert RowDir(Canvas) == Horizontal;
    assert Run(Canvas, Opts, []) == Layout(0.0, 0.0, 100.0, 100.0, [], []);
    assert Run(Canvas, Opts, [AreaC]) == Layout(0.0, 0.0, 100.0, 100.0, [AreaC], []);
    FixtureBJoins();
    assert [AreaC] + [AreaB] == [AreaC, AreaB];
  }

  /** The row of `c` and `b` output: its blocks kept, the next row's corner and the free height 37.5 further down. */
  lemma FixtureFlush()
    ensures Flush(Canvas, Opts, Layout(0.0, 0.0, 100.0, 100.0, [AreaC, AreaB], []))
            == Layout(0.0, 37.5, 100.0, 62.5, [], [BlockC, BlockB])
  {
    var st := Layout(0.0, 0.0, 100.0, 100.0, [AreaC, AreaB], []);
    assert RowDir(Canvas) == Horizontal && RowWidth(Canvas, st) == 100.0;
    FixtureRowLaid();
    FixtureRowSum();
    FixtureKept();
    var out := [] + Keep(Lay(st.row, 2, 3750.0, 100.0, 0.0, 0.0, Horizontal), Opts);
    assert out == [BlockC, BlockB];
    assert Flush(Canvas, Opts, st) == Layout(0.0, 0.0 + 37.5, 100.0, 100.0 - 37.5, [], out);
  }

  /** The row of `c` and `b` covers 3750 of the canvas. */
  lemma FixtureRowSum()
    ensures Sum([AreaC, AreaB]) == 3750.0
  {
    assert [AreaC, AreaB][..1] == [AreaC] && [AreaC][..0] == [];
    assert Sum([AreaC]) == 2500.0;
  }

  /** Both blocks of the row have an item, so both are output. */
  lemma FixtureKept()
    ensures Keep([BlockC, BlockB], Opts) == [BlockC, BlockB]
  {
    assert [BlockC, BlockB][..1] == [BlockC] && [BlockC][..0] == [];
  }

  /** The rest of the root's size makes the row worse: the row of `c` and `b` is output, and the rest starts the next. */
  lemma FixtureRun()
    ensures Run(Canvas, Opts, [AreaC, AreaB, Rest]) == Layout(0.0, 37.5, 100.0, 62.5, [Rest], [BlockC, BlockB])
  {
    var xs := [AreaC, AreaB, Rest];
    assert xs[..2] == [AreaC, AreaB];
    FixtureFirstRow();
    FixtureRestWorse();
    FixtureFlush();
  }

  /** A lone block of no item is not output. */
  lemma KeepPlaceholder(laid: seq<Block>, o: Options)
    requires |laid| == 1 && laid[0].Sizer.None?
    ensures Keep(laid, o) == []
  {
    assert laid[..0] == [];
  }

  /** The rows of the fixture's areas: the blocks of `c` and `b`; the rest of the root's size is laid out below them and not output. */
  lemma FixtureRows()
    ensures Rows(Canvas, Opts, [AreaC, AreaB, Rest]) == [BlockC, BlockB]
  {
    FixtureRun();
    var st := Run(Canvas, Opts, [AreaC, AreaB, Rest]);
    assert Sum([Rest]) == 6250.0 by {
      assert [Rest][..0] == [];
    }
    var laid := Lay([Rest], 1, 6250.0, 100.0, 0.0, 37.5, Horizontal);
    KeepPlaceholder(laid, Opts);
    assert Flush(Canvas, Opts, st).out == [BlockC, BlockB];
  }

  /** The fixture's level, as `TestSquarifyAreas` lays it out: the blocks of `c` and `b`. */
  lemma FixtureLevel()
    ensures Level(Root, Canvas, Opts) == [BlockC, BlockB]
  {
    FixtureAreas();
    FixtureRows();
  }

  /** The whole tiling of the fixture: its level, and nothing nested, since `b` and `c` have no children. */
  lemma FixtureTile()
    ensures Tile(Root, Canvas, Opts, 0) == Tiling([BlockC, BlockB], [Meta(0), Meta(0)])
  {
    TileOfLeaves(Root, Canvas, Opts, 0);
    FixtureLevel();
    assert Metas(2, 0) == [Meta(0), Meta(0)] by {
      assert Metas(0, 0) == [];
    }
  }

  /** The blocks of `c` and `b` cover a quarter and an eighth of the canvas, as 20 and 10 are of 80. */
  lemma FixtureShares()
    ensures BlockArea(BlockC.Rect) / BlockArea(Canvas) == C.Size / Root.Size
    ensures BlockArea(BlockB.Rect) / BlockArea(Canvas) == B.Size / Root.Size
  {
    assert BlockArea(Canvas) == 10000.0;
    assert BlockArea(BlockC.Rect) == 2500.0;
    assert BlockArea(BlockB.Rect) == 1250.0;
    assert 2500.0 / 10000.0 == 0.25 == 20.0 / 80.0;
    assert 1250.0 / 10000.0 == 0.125 == 10.0 / 80.0;
  }
}
