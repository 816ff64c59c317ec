/**
 * The squarified treemap layout of squarify/squarify.go (Bruls, Huizing and van Wijk): the
 * children of an item are given areas proportional to their sizes, the areas are laid out in
 * rows along the shorter side of the free space, a row being closed as soon as one more area
 * would make its worst aspect ratio grow, and every placed child is laid out in turn inside its
 * own block, shrunk by the margins.
 *
 * Go's `float64` becomes `real`, so areas add up exactly; where Go would divide by zero (and get
 * an infinity or NaN) the model asks for a non-zero divisor instead.
 */
module Squarify {
  import opened Wrappers

  // ---------------------------------------------------------------------------
  // Vocabulary (squarify/squarify.go:15-60).
  // ---------------------------------------------------------------------------

  /** A `TreeSizer`: an item with a size and an ordered list of children. */
  datatype Item = Item(Size: real, Children: seq<Item>)

  datatype Rect = Rect(X: real, Y: real, W: real, H: real)

  /** A placed rectangle and the item it stands for; `None` is the placeholder for unused space. */
  datatype Block = Block(Rect: Rect, Sizer: Option<Item>)

  /** An area to place and the item it stands for; `None` is the placeholder. */
  datatype Area = Area(Area: real, Sizer: Option<Item>)

  /** Which way a row runs: a `Vertical` row is a column of blocks stacked downwards. */
  datatype Direction = Vertical | Horizontal

  datatype Margins = Margins(L: real, R: real, T: real, B: real)

  /** The recursion level a block was produced at. */
  datatype Meta = Meta(Depth: int)

  datatype Options = Options(MaxDepth: int, Margins: Option<Margins>, Sort: bool, MinW: real, MinH: real)

  /** Every area of `xs` is positive: `push` accepts no other. */
  predicate Positive(xs: seq<Area>)
  {
    forall i | 0 <= i < |xs| :: xs[i].Area > 0.0
  }

  function Sum(xs: seq<Area>): real
  {
    if xs == [] then 0.0 else Sum(xs[..|xs| - 1]) + xs[|xs| - 1].Area
  }

  // ---------------------------------------------------------------------------
  // The cached minimum, maximum and sum of a row (squarify/squarify.go:133-155).
  // ---------------------------------------------------------------------------

  /** The cache fields of a row; all zero means "not computed". */
  datatype Cache = Cache(min: real, max: real, sum: real)

  const Unset := Cache(0.0, 0.0, 0.0)

  /** `updateCached`: a non-positive `min` or `max` stands for "no area seen yet". */
  function Update(c: Cache, a: real): Cache
  {
    Cache(if c.min <= 0.0 || a < c.min then a else c.min,
          if c.max <= 0.0 || a > c.max then a else c.max,
          c.sum + a)
  }

  /** `calcCached`: the cache rebuilt from nothing by updating with each area in turn. */
  function Fold(xs: seq<Area>): Cache
  {
    if xs == [] then Unset else Update(Fold(xs[..|xs| - 1]), xs[|xs| - 1].Area)
  }

  /**
   * On positive areas the rebuilt cache holds what its fields are named for: the least and the
   * greatest area, each attained, and the total.
   */
  lemma {:induction false} FoldStats(xs: seq<Area>)
    requires Positive(xs)
    ensures Fold(xs).sum == Sum(xs)
    ensures xs == [] ==> Fold(xs) == Unset
    ensures forall i | 0 <= i < |xs| :: Fold(xs).min <= xs[i].Area <= Fold(xs).max
    ensures xs != [] ==> 0.0 < Fold(xs).min && 0.0 < Fold(xs).sum
    ensures xs != [] ==> exists i | 0 <= i < |xs| :: xs[i].Area == Fold(xs).min
    ensures xs != [] ==> exists i | 0 <= i < |xs| :: xs[i].Area == Fold(xs).max
  {
    if xs != [] {
      var init := xs[..|xs| - 1];
      var a := xs[|xs| - 1].Area;
      assert Positive(init) by {
        forall i | 0 <= i < |init| ensures init[i].Area > 0.0 {
          assert init[i] == xs[i];
        }
      }
      FoldStats(init);
      var c := Fold(init);
      forall i | 0 <= i < |xs| ensures Fold(xs).min <= xs[i].Area <= Fold(xs).max {
        if i < |init| {
          assert xs[i] == init[i];
        }
      }
      if init == [] {
        assert Fold(xs).min == a && Fold(xs).max == a;
      } else {
        var j :| 0 <= j < |init| && init[j].Area == c.min;
        var k :| 0 <= k < |init| && init[k].Area == c.max;
        assert xs[j] == init[j] && xs[k] == init[k];
        assert Fold(xs).min == a || Fold(xs).min == xs[j].Area;
        assert Fold(xs).max == a || Fold(xs).max == xs[k].Area;
      }
    }
  }

  // ---------------------------------------------------------------------------
  // Real arithmetic, one step at a time. Products are passed by name so that
  // the solver does not rewrite them away.
  // ---------------------------------------------------------------------------

  lemma ProductPos(a: real, b: real, ab: real)
    requires a > 0.0 && b > 0.0 && ab == a * b
    ensures ab > 0.0
  {
  }

  lemma SquarePos(a: real, a2: real)
    requires a != 0.0 && a2 == a * a
    ensures a2 > 0.0
  {
    if a > 0.0 {
      ProductPos(a, a, a2);
    } else {
      assert a2 == (-a) * (-a);
      ProductPos(-a, -a, a2);
    }
  }

  lemma DivLeq(x: real, y: real, k: real)
    requires x <= y && k > 0.0
    ensures x / k <= y / k
  {
  }

  lemma DivLess(x: real, y: real, k: real)
    requires x < y && k > 0.0
    ensures x / k < y / k
  {
  }

  lemma DivByLarger(x: real, y: real, k: real)
    requires 0.0 < x <= y && k > 0.0
    ensures k / y <= k / x
  {
  }

  /** How long the block of area `a` is along a row of the given total and width. */
  function Length(a: real, sum: real, width: real): real
    requires sum != 0.0
  {
    a / sum * width
  }

  /** How thick a row of the given total and width is. */
  function Thickness(sum: real, width: real): real
    requires width != 0.0
  {
    sum / width
  }

  lemma LengthPos(a: real, s: real, w: real)
    requires a > 0.0 && s > 0.0 && w > 0.0
    ensures Length(a, s, w) > 0.0 && Thickness(s, w) > 0.0
  {
  }

  lemma LengthLeq(a: real, b: real, s: real, w: real)
    requires a <= b && s > 0.0 && w > 0.0
    ensures Length(a, s, w) <= Length(b, s, w)
  {
    DivLeq(a, b, s);
  }

  // ---------------------------------------------------------------------------
  // The worst aspect ratio of a row (squarify/squarify.go:158-174).
  // ---------------------------------------------------------------------------

  /** `worst`'s first ratio, `w²·a/sum²`: how much longer than thick the block of area `a` is. */
  function Stretch(width: real, a: real, sum: real): real
    requires sum != 0.0
  {
    var w2 := width * width;
    var sum2 := sum * sum;
    SquarePos(sum, sum2);
    w2 * a / sum2
  }

  /** `worst`'s second ratio, `sum²/(a·w²)`: how much thicker than long the block of area `a` is. */
  function Squash(width: real, a: real, sum: real): real
    requires width != 0.0 && a > 0.0
  {
    var w2 := width * width;
    var sum2 := sum * sum;
    SquarePos(width, w2);
    ProductPos(a, w2, a * w2);
    sum2 / (a * w2)
  }

  /** `worst`'s formula: the larger of the first ratio for `max` and the second for `min`. */
  function WorstOf(width: real, c: Cache): real
    requires width != 0.0 && c.sum != 0.0 && c.min > 0.0
  {
    var worst1 := Stretch(width, c.max, c.sum);
    var worst2 := Squash(width, c.min, c.sum);
    if worst1 > worst2 then worst1 else worst2
  }

  /** The aspect ratio of a rectangle: its longer side over its shorter side. */
  function Aspect(r: Rect): real
    requires r.W > 0.0 && r.H > 0.0
  {
    if r.W > r.H then r.W / r.H else r.H / r.W
  }

  /** How elongated an `l` by `t` rectangle is: the larger of its two side ratios. */
  function Elongation(l: real, t: real): real
    requires l > 0.0 && t > 0.0
  {
    if l / t > t / l then l / t else t / l
  }

  /** The aspect ratio is the larger side ratio, and does not depend on which side is which. */
  lemma AspectIsElongation(l: real, t: real)
    requires l > 0.0 && t > 0.0
    ensures Aspect(Rect(0.0, 0.0, l, t)) == Elongation(l, t) && Aspect(Rect(0.0, 0.0, t, l)) == Elongation(l, t)
  {
    assert l / l == 1.0 && t / t == 1.0;
    if l > t {
      DivLess(t, l, t);
      DivLess(t, l, l);
    } else {
      DivLeq(l, t, t);
      DivLeq(l, t, l);
    }
  }

  /** The two side ratios of a block of area `a` in a row with total `sum`, as `worst` writes them. */
  lemma BlockRatios(a: real, sum: real, width: real)
    requires a > 0.0 && sum > 0.0 && width > 0.0
    ensures Length(a, sum, width) > 0.0 && Thickness(sum, width) > 0.0
    ensures Length(a, sum, width) / Thickness(sum, width) == Stretch(width, a, sum)
    ensures Thickness(sum, width) / Length(a, sum, width) == Squash(width, a, sum)
  {
    var w2, s2 := width * width, sum * sum;
    SquarePos(width, w2);
    SquarePos(sum, s2);
    ProductPos(a, w2, a * w2);
    var l, t := a / sum * width, sum / width;
    assert l == a * width / sum;
    var r := w2 * a / s2;
    assert r * t == l;
    var q := s2 / (a * w2);
    assert q * l == t;
  }

  /** `worst` in terms of the sides of the longest and of the shortest block of the row. */
  lemma WorstBySides(c: Cache, width: real)
    requires 0.0 < c.min <= c.max && c.sum > 0.0 && width > 0.0
    ensures Length(c.min, c.sum, width) > 0.0 && Thickness(c.sum, width) > 0.0
    ensures var lmax, lmin, t := Length(c.max, c.sum, width), Length(c.min, c.sum, width), Thickness(c.sum, width);
            WorstOf(width, c) == if lmax / t > t / lmin then lmax / t else t / lmin
  {
    BlockRatios(c.min, c.sum, width);
    BlockRatios(c.max, c.sum, width);
  }

  /** A block no longer than the longest and no shorter than the shortest is no more elongated than either. */
  lemma BoundBySides(l: real, lmax: real, lmin: real, t: real, wv: real)
    requires 0.0 < lmin <= l <= lmax && t > 0.0
    requires wv == if lmax / t > t / lmin then lmax / t else t / lmin
    ensures Elongation(l, t) <= wv
  {
    DivLeq(l, lmax, t);
    DivByLarger(lmin, l, t);
  }

  /** Of two blocks of the same thickness, the longer or the shorter is the more elongated one. */
  lemma AttainedBySides(lmax: real, lmin: real, t: real, wv: real)
    requires 0.0 < lmin <= lmax && t > 0.0
    requires wv == if lmax / t > t / lmin then lmax / t else t / lmin
    ensures Elongation(lmax, t) == wv || Elongation(lmin, t) == wv
  {
    DivLeq(lmin, lmax, t);
    DivByLarger(lmin, lmax, t);
  }

  /** A block whose area lies between the row's extremes is no more elongated than `worst` says. */
  lemma ElongationBound(a: real, c: Cache, width: real)
    requires 0.0 < c.min <= a <= c.max && c.sum > 0.0 && width > 0.0
    ensures Length(a, c.sum, width) > 0.0 && Thickness(c.sum, width) > 0.0
    ensures Elongation(Length(a, c.sum, width), Thickness(c.sum, width)) <= WorstOf(width, c)
  {
    LengthPos(c.min, c.sum, width);
    LengthLeq(c.min, a, c.sum, width);
    LengthLeq(a, c.max, c.sum, width);
    WorstBySides(c, width);
    BoundBySides(Length(a, c.sum, width), Length(c.max, c.sum, width), Length(c.min, c.sum, width),
                 Thickness(c.sum, width), WorstOf(width, c));
  }

  /** The block of the largest or that of the smallest area is exactly as elongated as `worst` says. */
  lemma ElongationAttained(c: Cache, width: real)
    requires 0.0 < c.min <= c.max && c.sum > 0.0 && width > 0.0
    ensures Length(c.max, c.sum, width) > 0.0 && Length(c.min, c.sum, width) > 0.0 && Thickness(c.sum, width) > 0.0
    ensures || Elongation(Length(c.max, c.sum, width), Thickness(c.sum, width)) == WorstOf(width, c)
            || Elongation(Length(c.min, c.sum, width), Thickness(c.sum, width)) == WorstOf(width, c)
  {
    LengthPos(c.min, c.sum, width);
    LengthPos(c.max, c.sum, width);
    LengthLeq(c.min, c.max, c.sum, width);
    WorstBySides(c, width);
    AttainedBySides(Length(c.max, c.sum, width), Length(c.min, c.sum, width), Thickness(c.sum, width), WorstOf(width, c));
  }

  // ---------------------------------------------------------------------------
  // Placing a row (squarify/squarify.go:176-213).
  // ---------------------------------------------------------------------------

  /** How far into the row the block of `xs[i]` starts: the lengths of the blocks before it. */
  function Offset(xs: seq<Area>, i: nat, sum: real, width: real): real
    requires i <= |xs| && sum != 0.0
  {
    if i == 0 then 0.0 else Offset(xs, i - 1, sum, width) + Length(xs[i - 1].Area, sum, width)
  }

  /**
   * The block `makeBlocks` gives `xs[i]`: a length along the row in proportion to its area, and
   * the row's common thickness; a vertical row swaps the two.
   */
  function Place(xs: seq<Area>, i: nat, sum: real, width: real, x: real, y: real, dir: Direction): Block
    requires i < |xs| && sum != 0.0 && width != 0.0
  {
    var length := Length(xs[i].Area, sum, width);
    var thickness := Thickness(sum, width);
    var off := Offset(xs, i, sum, width);
    if dir == Vertical then Block(Rect(x, y + off, thickness, length), xs[i].Sizer)
    else Block(Rect(x + off, y, length, thickness), xs[i].Sizer)
  }

  /** The first `n` blocks of a row, each where `Place` puts it. */
  function Lay(xs: seq<Area>, n: nat, sum: real, width: real, x: real, y: real, dir: Direction): (r: seq<Block>)
    requires n <= |xs| && sum != 0.0 && width != 0.0
    ensures |r| == n && forall i | 0 <= i < n :: r[i] == Place(xs, i, sum, width, x, y, dir)
  {
    if n == 0 then [] else Lay(xs, n - 1, sum, width, x, y, dir) + [Place(xs, n - 1, sum, width, x, y, dir)]
  }

  /** The height `makeBlocks` divides out for an area is the row's thickness, whatever the area. */
  lemma HeightIsThickness(a: real, sum: real, width: real)
    requires a > 0.0 && sum > 0.0 && width != 0.0
    ensures Length(a, sum, width) != 0.0 && Thickness(sum, width) != 0.0
    ensures a / Length(a, sum, width) == Thickness(sum, width)
  {
    var l := a / sum * width;
    assert l == a * width / sum;
    assert (sum / width) * l == a;
  }

  /** Every placed block covers exactly its area, whatever the sum used for the proportions. */
  lemma PlaceCoversArea(xs: seq<Area>, i: nat, sum: real, width: real, x: real, y: real, dir: Direction)
    requires i < |xs| && sum != 0.0 && width != 0.0
    ensures Place(xs, i, sum, width, x, y, dir).Rect.W * Place(xs, i, sum, width, x, y, dir).Rect.H == xs[i].Area
    ensures Place(xs, i, sum, width, x, y, dir).Sizer == xs[i].Sizer
  {
    var a := xs[i].Area;
    assert a / sum * width * (sum / width) == a;
  }

  /** Consecutive blocks of a row touch: each starts where the one before it ends. */
  lemma PlaceContiguous(xs: seq<Area>, i: nat, sum: real, width: real, x: real, y: real, dir: Direction)
    requires i + 1 < |xs| && sum != 0.0 && width != 0.0
    ensures var b, c := Place(xs, i, sum, width, x, y, dir).Rect, Place(xs, i + 1, sum, width, x, y, dir).Rect;
            if dir == Vertical then c.X == b.X && c.Y == b.Y + b.H else c.Y == b.Y && c.X == b.X + b.W
  {
  }

  /** The first `n` lengths add up to the first `n` areas in proportion to `sum`. */
  lemma {:induction false} OffsetIsShare(xs: seq<Area>, n: nat, sum: real, width: real)
    requires n <= |xs| && sum != 0.0
    ensures Offset(xs, n, sum, width) == Length(Sum(xs[..n]), sum, width)
  {
    if n > 0 {
      OffsetIsShare(xs, n - 1, sum, width);
      assert xs[..n][..n - 1] == xs[..n - 1];
      var s, a := Sum(xs[..n - 1]), xs[n - 1].Area;
      assert s / sum * width + a / sum * width == (s + a) / sum * width;
    }
  }

  /** With the true sum, a row spans exactly its width. */
  lemma RowSpansWidth(xs: seq<Area>, width: real)
    requires Sum(xs) != 0.0
    ensures Offset(xs, |xs|, Sum(xs), width) == width
  {
    OffsetIsShare(xs, |xs|, Sum(xs), width);
    assert xs[..|xs|] == xs;
  }

  /** A placed block of a positive row is as elongated as its length and thickness say. */
  lemma PlacedAspect(xs: seq<Area>, i: nat, width: real, x: real, y: real, dir: Direction)
    requires i < |xs| && xs[i].Area > 0.0 && Fold(xs).sum > 0.0 && width > 0.0
    ensures var r := Place(xs, i, Fold(xs).sum, width, x, y, dir).Rect;
            && r.W > 0.0 && r.H > 0.0
            && Aspect(r) == Elongation(Length(xs[i].Area, Fold(xs).sum, width), Thickness(Fold(xs).sum, width))
  {
    var s := Fold(xs).sum;
    var l, t := Length(xs[i].Area, s, width), Thickness(s, width);
    LengthPos(xs[i].Area, s, width);
    AspectIsElongation(l, t);
  }

  /**
   * `worst` is the worst aspect ratio of the blocks the row would be laid out as: no placed block
   * of a row of positive areas is more elongated, and one is exactly that elongated.
   */
  lemma WorstIsWorstAspect(xs: seq<Area>, width: real, x: real, y: real, dir: Direction)
    requires Positive(xs) && xs != [] && width > 0.0
    ensures Fold(xs).sum > 0.0 && Fold(xs).min > 0.0
    ensures forall i | 0 <= i < |xs| ::
              var r := Place(xs, i, Fold(xs).sum, width, x, y, dir).Rect;
              r.W > 0.0 && r.H > 0.0 && Aspect(r) <= WorstOf(width, Fold(xs))
    ensures exists i | 0 <= i < |xs| ::
              var r := Place(xs, i, Fold(xs).sum, width, x, y, dir).Rect;
              r.W > 0.0 && r.H > 0.0 && Aspect(r) == WorstOf(width, Fold(xs))
  {
    FoldStats(xs);
    var c := Fold(xs);
    forall i | 0 <= i < |xs|
      ensures var r := Place(xs, i, c.sum, width, x, y, dir).Rect;
              r.W > 0.0 && r.H > 0.0 && Aspect(r) <= WorstOf(width, c)
    {
      PlacedAspect(xs, i, width, x, y, dir);
      ElongationBound(xs[i].Area, c, width);
    }
    var j :| 0 <= j < |xs| && xs[j].Area == c.max;
    var k :| 0 <= k < |xs| && xs[k].Area == c.min;
    PlacedAspect(xs, j, width, x, y, dir);
    PlacedAspect(xs, k, width, x, y, dir);
    ElongationAttained(c, width);
  }

  // ---------------------------------------------------------------------------
  // A row under construction (squarify/squarify.go:76-155).
  // ---------------------------------------------------------------------------

  /** Every area of the row is positive, and a set minimum comes with a positive sum. */
  predicate Sane(xs: seq<Area>, c: Cache)
  {
    Positive(xs) && 0.0 <= c.min && 0.0 <= c.max && 0.0 <= c.sum && (c.min > 0.0 ==> c.sum > 0.0)
  }

  /** The cache `worst` and `makeBlocks` work with: rebuilt when `min` is unset, as stored otherwise. */
  function Effective(xs: seq<Area>, c: Cache): Cache
  {
    if c.min == 0.0 then Fold(xs) else c
  }

  /** A non-empty sane row has a usable cache: positive minimum and sum. */
  lemma EffectiveUsable(xs: seq<Area>, c: Cache)
    requires Sane(xs, c) && xs != []
    ensures Effective(xs, c).min > 0.0 && Effective(xs, c).sum > 0.0
  {
    if c.min == 0.0 {
      FoldStats(xs);
    }
  }

  /** Adding a positive area to a sane cache sets its minimum. */
  lemma UpdateSane(xs: seq<Area>, c: Cache, a: Area)
    requires Sane(xs, c) && a.Area > 0.0
    ensures Sane(xs + [a], Update(c, a.Area)) && Update(c, a.Area).min > 0.0
  {
    var ys := xs + [a];
    forall i | 0 <= i < |ys| ensures ys[i].Area > 0.0 {
      if i < |xs| {
        assert ys[i] == xs[i];
      }
    }
  }

  /** The row `squarify` fills: its areas, its corner, the cached statistics, its width and direction. */
  class Row {
    var areas: seq<Area>
    var X: real
    var Y: real
    var min: real
    var max: real
    var sum: real
    var Width: real
    var Dir: Direction

    function Cached(): Cache
      reads this
    {
      Cache(min, max, sum)
    }

    predicate Valid()
      reads this
    {
      Sane(areas, Cached())
    }

    /** The cache is what rebuilding it would give. */
    predicate Consistent()
      reads this
    {
      Valid() && Cached() == Fold(areas)
    }

    /** `newRow` (squarify/squarify.go:85-93): an empty row with nothing cached. */
    constructor (dir: Direction, width: real, x: real, y: real)
      ensures areas == [] && Cached() == Unset && Consistent()
      ensures Width == width && X == x && Y == y && Dir == dir
    {
      areas := [];
      X, Y := x, y;
      min, max, sum := 0.0, 0.0, 0.0;
      Width := width;
      Dir := dir;
    }

    /** `updateCached` (squarify/squarify.go:147-155). */
    method UpdateCached(a: Area)
      modifies this
      ensures Cached() == Update(old(Cached()), a.Area)
      ensures areas == old(areas) && X == old(X) && Y == old(Y) && Width == old(Width) && Dir == old(Dir)
    {
      if min <= 0.0 || a.Area < min {
        min := a.Area;
      }
      if max <= 0.0 || a.Area > max {
        max := a.Area;
      }
      sum := sum + a.Area;
    }

    /**
     * `push` (squarify/squarify.go:95-103): appends a positive area and folds it into the cache;
     * `push` panics on any other area.
     */
    method Push(a: Area)
      requires Valid() && a.Area > 0.0
      modifies this
      ensures areas == old(areas) + [a] && Cached() == Update(old(Cached()), a.Area)
      ensures X == old(X) && Y == old(Y) && Width == old(Width) && Dir == old(Dir)
      ensures Valid() && min > 0.0
      ensures old(Consistent()) ==> Consistent()
    {
      UpdateSane(areas, Cached(), a);
      areas := areas + [a];
      UpdateCached(a);
      assert areas[..|areas| - 1] == old(areas);
    }

    /** `pop` (squarify/squarify.go:105-119): clears the cache and removes the last area, if any. */
    method Pop() returns (a: Option<Area>)
      modifies this
      ensures Cached() == Unset
      ensures old(areas) == [] ==> a == None && areas == []
      ensures old(areas) != [] ==> a == Some(old(areas)[|old(areas)| - 1]) && areas == old(areas)[..|old(areas)| - 1]
      ensures X == old(X) && Y == old(Y) && Width == old(Width) && Dir == old(Dir)
      ensures old(Valid()) ==> Valid()
    {
      min, max, sum := 0.0, 0.0, 0.0;
      if |areas| > 0 {
        var last := |areas| - 1;
        a := Some(areas[last]);
        areas := areas[..last];
      } else {
        a := None;
      }
    }

    /** `calcCached` (squarify/squarify.go:133-140): rebuilds the cache from the areas. */
    method CalcCached()
      modifies this
      ensures Cached() == Fold(areas)
      ensures areas == old(areas) && X == old(X) && Y == old(Y) && Width == old(Width) && Dir == old(Dir)
      ensures Positive(areas) ==> Consistent()
    {
      min, max, sum := 0.0, 0.0, 0.0;
      for i := 0 to |areas|
        invariant areas == old(areas) && X == old(X) && Y == old(Y) && Width == old(Width) && Dir == old(Dir)
        invariant Cached() == Fold(areas[..i])
      {
        assert areas[..i + 1][..i] == areas[..i];
        UpdateCached(areas[i]);
      }
      assert areas[..|areas|] == areas;
      if Positive(areas) {
        FoldStats(areas);
      }
    }

    /**
     * `worst` (squarify/squarify.go:159-174): the worst aspect ratio of the row, rebuilding the
     * cache first when its minimum is unset.
     */
    method Worst() returns (w: real)
      requires Valid() && areas != [] && Width != 0.0
      modifies this
      ensures Cached() == old(Effective(areas, Cached())) && Valid()
      ensures areas == old(areas) && X == old(X) && Y == old(Y) && Width == old(Width) && Dir == old(Dir)
      ensures Cached().min > 0.0 && Cached().sum > 0.0 && w == WorstOf(Width, Cached())
      ensures old(Consistent()) ==> Consistent()
    {
      EffectiveUsable(areas, Cached());
      if min == 0.0 {
        CalcCached();
      }
      var worst1 := Stretch(Width, max, sum);
      var worst2 := Squash(Width, min, sum);
      if worst1 > worst2 {
        w := worst1;
      } else {
        w := worst2;
      }
    }

    /**
     * `pushTemporarily` (squarify/squarify.go:121-131) with the callback `squarify` passes it:
     * the row with `a` pushed is observed (its areas, and its worst aspect ratio), then `a` is popped
     * and the cache put back as it was.
     */
    method PushTemporarily(a: Area) returns (during: seq<Area>, worstDuring: real)
      requires Valid() && a.Area > 0.0 && Width != 0.0
      modifies this
      ensures areas == old(areas) && Cached() == old(Cached())
      ensures X == old(X) && Y == old(Y) && Width == old(Width) && Dir == old(Dir)
      ensures during == old(areas) + [a]
      ensures Update(old(Cached()), a.Area).min > 0.0 && Update(old(Cached()), a.Area).sum > 0.0
      ensures worstDuring == WorstOf(Width, Update(old(Cached()), a.Area))
    {
      var savedMin, savedMax, savedSum := min, max, sum;
      Push(a);
      during := areas;
      worstDuring := Worst();
      var _ := Pop();
      min, max, sum := savedMin, savedMax, savedSum;
    }

    /**
     * `makeBlocks` (squarify/squarify.go:176-213): lays the row out from its corner, each block as
     * long as its share of the width and as thick as the row, and returns that thickness.
     */
    method MakeBlocks() returns (height: real, blocks: seq<Block>)
      requires Valid() && (areas != [] ==> Width != 0.0)
      modifies this
      ensures Cached() == old(Effective(areas, Cached())) && Valid()
      ensures areas == old(areas) && X == old(X) && Y == old(Y) && Width == old(Width) && Dir == old(Dir)
      ensures areas == [] ==> height == 0.0 && blocks == []
      ensures areas != [] ==> sum > 0.0 && height == Thickness(sum, Width)
                              && blocks == Lay(areas, |areas|, sum, Width, X, Y, Dir)
      ensures old(Consistent()) ==> Consistent()
    {
      if areas != [] {
        EffectiveUsable(areas, Cached());
      }
      if min == 0.0 {
        CalcCached();
      }
      blocks := [];
      height := 0.0;
      if areas == [] {
        return;
      }
      height, blocks := LayRow(areas, sum, Width, X, Y, Dir);
    }
  }

  /**
   * The loop of `makeBlocks` (squarify/squarify.go:182-212): from the row's corner, each area gets a
   * block as long as its share of the width and as high as the area divided by that length, the
   * first such height being kept for all; a vertical row swaps width and height and advances down.
   */
  method LayRow(xs: seq<Area>, sum: real, width: real, x0: real, y0: real, dir: Direction)
    returns (height: real, blocks: seq<Block>)
    requires xs != [] && Positive(xs) && sum > 0.0 && width != 0.0
    ensures height == Thickness(sum, width) && blocks == Lay(xs, |xs|, sum, width, x0, y0, dir)
  {
    blocks := [];
    height := 0.0;
    var x, y := x0, y0;
    for i := 0 to |xs|
      invariant blocks == Lay(xs, i, sum, width, x0, y0, dir)
      invariant x == x0 + (if dir == Horizontal then Offset(xs, i, sum, width) else 0.0)
      invariant y == y0 + (if dir == Vertical then Offset(xs, i, sum, width) else 0.0)
      invariant height == if i == 0 then 0.0 else Thickness(sum, width)
    {
      var a := xs[i];
      HeightIsThickness(a.Area, sum, width);
      var relativeWidth := a.Area / sum;
      var itemWidth := relativeWidth * width;
      assert itemWidth == Length(a.Area, sum, width);
      var itemHeight := a.Area / itemWidth;
      if height == 0.0 {
        height := itemHeight;
      } else if itemHeight != height {
        itemHeight := height;
      }
      if dir == Vertical {
        itemWidth, itemHeight := itemHeight, itemWidth;
      }
      blocks := blocks + [Block(Rect(x, y, itemWidth, itemHeight), a.Sizer)];
      assert blocks[i] == Place(xs, i, sum, width, x0, y0, dir);
      if dir == Vertical {
        y := y + itemHeight;
      } else {
        x := x + itemWidth;
      }
    }
  }

  // ---------------------------------------------------------------------------
  // The areas to lay out (squarify/squarify.go:318-368).
  // ---------------------------------------------------------------------------

  /** `Less` of `byAreaAndPlaceholder`: items before the placeholder, larger areas first among either. */
  predicate Before(a: Area, b: Area)
  {
    if (a.Sizer.Some? && b.Sizer.Some?) || (a.Sizer.None? && b.Sizer.None?) then a.Area > b.Area
    else a.Sizer.Some?
  }

  /** No area is `Before` one that precedes it: what `sort.Sort` leaves behind. */
  predicate Sorted(xs: seq<Area>)
  {
    forall i, j | 0 <= i < j < |xs| :: !Before(xs[j], xs[i])
  }

  /** `Before` is a strict weak order: irreflexive, transitive, and its incomparability is transitive. */
  lemma BeforeIsStrictWeakOrder(a: Area, b: Area, c: Area)
    ensures !Before(a, a)
    ensures Before(a, b) && Before(b, c) ==> Before(a, c)
    ensures !Before(a, b) && !Before(b, c) ==> !Before(a, c)
  {
  }

  /** In a sorted list the items come before the placeholder, each kind by decreasing area. */
  lemma SortedShape(xs: seq<Area>, i: int, j: int)
    requires Sorted(xs) && 0 <= i < j < |xs|
    ensures xs[j].Sizer.Some? ==> xs[i].Sizer.Some?
    ensures xs[i].Sizer.Some? == xs[j].Sizer.Some? ==> xs[i].Area >= xs[j].Area
  {
  }

  /** `a` placed before the first area of `s` that it need not follow. */
  function Insert(a: Area, s: seq<Area>): seq<Area>
  {
    if s == [] then [a]
    else if !Before(s[0], a) then [a] + s
    else [s[0]] + Insert(a, s[1..])
  }

  /** `sort.Sort(byAreaAndPlaceholder(areas))`, as an insertion sort. */
  function SortByArea(xs: seq<Area>): seq<Area>
  {
    if xs == [] then [] else Insert(xs[|xs| - 1], SortByArea(xs[..|xs| - 1]))
  }

  /** Inserting keeps the areas, adding `a`. */
  lemma {:induction false} InsertPermutes(a: Area, s: seq<Area>)
    ensures multiset(Insert(a, s)) == multiset(s) + multiset{a}
  {
    if s != [] && Before(s[0], a) {
      InsertPermutes(a, s[1..]);
      assert s == [s[0]] + s[1..];
    }
  }

  /** Inserting into a sorted list keeps it sorted. */
  lemma {:induction false} InsertSorted(a: Area, s: seq<Area>)
    requires Sorted(s)
    ensures Sorted(Insert(a, s))
  {
    if s == [] {
    } else if !Before(s[0], a) {
      assert forall j | 0 <= j < |s| :: !Before(s[j], s[0]);
    } else {
      var t := Insert(a, s[1..]);
      InsertSorted(a, s[1..]);
      InsertPermutes(a, s[1..]);
      forall k | 0 <= k < |t| ensures !Before(t[k], s[0]) {
        assert t[k] in multiset(t);
        if t[k] != a {
          assert t[k] in multiset(s[1..]);
          var m :| 0 <= m < |s[1..]| && s[1..][m] == t[k];
          assert s[m + 1] == t[k];
        }
      }
    }
  }

  /** The sort returns a sorted permutation of its input. */
  lemma {:induction false} SortByAreaSorts(xs: seq<Area>)
    ensures Sorted(SortByArea(xs)) && multiset(SortByArea(xs)) == multiset(xs)
  {
    if xs != [] {
      var init, last := xs[..|xs| - 1], xs[|xs| - 1];
      SortByAreaSorts(init);
      InsertSorted(last, SortByArea(init));
      InsertPermutes(last, SortByArea(init));
      assert xs == init + [last];
    }
  }

  /** The size of `root` can divide: it is non-zero, or no child has a positive size to be divided. */
  predicate Divisible(rootSize: real, kids: seq<Item>)
  {
    rootSize != 0.0 || forall k | k in kids :: k.Size <= 0.0
  }

  /** The area of a rectangle. */
  function BlockArea(r: Rect): real
  {
    r.W * r.H
  }

  /** The part of a block of area `blockArea` that a size of `size` out of `rootSize` takes. */
  function Share(size: real, rootSize: real, blockArea: real): real
    requires rootSize != 0.0
  {
    size / rootSize * blockArea
  }

  /** The areas of the children with a positive size, in order: each its share of the block's area. */
  function ChildAreas(kids: seq<Item>, rootSize: real, blockArea: real): seq<Area>
    requires Divisible(rootSize, kids)
  {
    if kids == [] then [] else
      var last := kids[|kids| - 1];
      assert Divisible(rootSize, kids[..|kids| - 1]) by {
        forall k | k in kids[..|kids| - 1] ensures k in kids { }
      }
      ChildAreas(kids[..|kids| - 1], rootSize, blockArea)
        + if last.Size <= 0.0 then [] else [Area(Share(last.Size, rootSize, blockArea), Some(last))]
  }

  /** The total size of the children with a positive size. */
  function ItemsTotal(kids: seq<Item>): (r: real)
    ensures r >= 0.0
  {
    if kids == [] then 0.0 else
      var last := kids[|kids| - 1];
      ItemsTotal(kids[..|kids| - 1]) + if last.Size <= 0.0 then 0.0 else last.Size
  }

  /** The children's areas, then the placeholder for the size not taken by children, if any. */
  function Unsorted(root: Item, r: Rect): seq<Area>
    requires Divisible(root.Size, root.Children)
  {
    var blockArea := BlockArea(r);
    var total := ItemsTotal(root.Children);
    ChildAreas(root.Children, root.Size, blockArea)
      + if total < root.Size then [Area(Share(root.Size - total, root.Size, blockArea), None)] else []
  }

  /** What `areas` returns. */
  function AreasOf(root: Item, r: Rect, dosort: bool): seq<Area>
    requires Divisible(root.Size, root.Children)
  {
    if dosort then SortByArea(Unsorted(root, r)) else Unsorted(root, r)
  }

  /**
   * `areas` (squarify/squarify.go:339-368): one area per child of positive size, in proportion to
   * its share of the root's size, a placeholder for the rest of the root's size, and the whole
   * sorted when asked; the sort is the library's, here `SortByArea`.
   */
  method Areas(root: Item, block: Rect, dosort: bool) returns (areas: seq<Area>)
    requires Divisible(root.Size, root.Children)
    ensures areas == AreasOf(root, block, dosort)
  {
    var blockArea := BlockArea(block);
    areas := [];
    var itemsTotalSize := 0.0;
    for i := 0 to |root.Children|
      invariant Divisible(root.Size, root.Children[..i])
      invariant areas == ChildAreas(root.Children[..i], root.Size, blockArea)
      invariant itemsTotalSize == ItemsTotal(root.Children[..i])
    {
      var item := root.Children[i];
      assert root.Children[..i + 1][..i] == root.Children[..i];
      assert Divisible(root.Size, root.Children[..i + 1]) by {
        forall k | k in root.Children[..i + 1] ensures k in root.Children { }
      }
      assert ChildAreas(root.Children[..i + 1], root.Size, blockArea) == ChildAreas(root.Children[..i], root.Size, blockArea)
        + if item.Size <= 0.0 then [] else [Area(Share(item.Size, root.Size, blockArea), Some(item))];
      if item.Size <= 0.0 {
        continue;
      }
      areas := areas + [Area(Share(item.Size, root.Size, blockArea), Some(item))];
      itemsTotalSize := itemsTotalSize + item.Size;
    }
    assert root.Children[..|root.Children|] == root.Children;
    if itemsTotalSize < root.Size {
      var a := Share(root.Size - itemsTotalSize, root.Size, blockArea);
      areas := areas + [Area(a, None)];
    }
    assert areas == Unsorted(root, block);
    if dosort {
      areas := SortByArea(areas);
    }
  }

  /**
   * What an area of `areas` stands for: an item's area is that child's share of the block, the
   * placeholder's is the share of the root's size no child of positive size takes.
   */
  predicate Apportioned(a: Area, root: Item, blockArea: real)
    requires Divisible(root.Size, root.Children)
  {
    match a.Sizer
    case Some(it) => it in root.Children && it.Size > 0.0 && a.Area == Share(it.Size, root.Size, blockArea)
    case None => ItemsTotal(root.Children) < root.Size
                 && a.Area == Share(root.Size - ItemsTotal(root.Children), root.Size, blockArea)
  }

  /** Every child area comes from a child of positive size, with its share. */
  lemma {:induction false} ChildAreasApportioned(root: Item, n: nat, blockArea: real)
    requires n <= |root.Children| && Divisible(root.Size, root.Children)
    ensures Divisible(root.Size, root.Children[..n])
    ensures forall a | a in ChildAreas(root.Children[..n], root.Size, blockArea) :: Apportioned(a, root, blockArea)
  {
    assert Divisible(root.Size, root.Children[..n]) by {
      forall k | k in root.Children[..n] ensures k in root.Children { }
    }
    if n > 0 {
      ChildAreasApportioned(root, n - 1, blockArea);
      assert root.Children[..n][..n - 1] == root.Children[..n - 1];
      assert root.Children[n - 1] in root.Children;
    }
  }

  /** Every area `areas` returns, sorted or not, stands for what `Apportioned` says. */
  lemma AreasApportioned(root: Item, r: Rect, dosort: bool)
    requires Divisible(root.Size, root.Children)
    ensures forall a | a in AreasOf(root, r, dosort) :: Apportioned(a, root, BlockArea(r))
  {
    ChildAreasApportioned(root, |root.Children|, BlockArea(r));
    assert root.Children[..|root.Children|] == root.Children;
    var u := Unsorted(root, r);
    assert forall a | a in u :: Apportioned(a, root, BlockArea(r));
    if dosort {
      SortByAreaSorts(u);
      forall a | a in AreasOf(root, r, dosort) ensures Apportioned(a, root, BlockArea(r)) {
        assert a in multiset(AreasOf(root, r, dosort));
        assert a in multiset(u);
      }
    }
  }

  /** With the sort, the areas are a sorted permutation of the unsorted ones. */
  lemma AreasSorted(root: Item, r: Rect)
    requires Divisible(root.Size, root.Children)
    ensures Sorted(AreasOf(root, r, true)) && multiset(AreasOf(root, r, true)) == multiset(Unsorted(root, r))
  {
    SortByAreaSorts(Unsorted(root, r));
  }

  /** The root and every item under it can be laid out: a size that children share is positive. */
  predicate WellSized(it: Item)
  {
    (it.Size > 0.0 || forall k | k in it.Children :: k.Size <= 0.0)
    && forall k | k in it.Children :: WellSized(k)
  }

  /** In a block of positive area, the areas of a well-sized root are all positive: `push` accepts them. */
  lemma AreasPositive(root: Item, r: Rect, dosort: bool)
    requires WellSized(root) && BlockArea(r) > 0.0
    ensures Positive(AreasOf(root, r, dosort))
  {
    AreasApportioned(root, r, dosort);
    var xs := AreasOf(root, r, dosort);
    forall i | 0 <= i < |xs| ensures xs[i].Area > 0.0 {
      assert xs[i] in xs;
      match xs[i].Sizer
      case Some(it) =>
        assert root.Size > 0.0;
        SharePos(it.Size, root.Size, BlockArea(r));
      case None =>
        SharePos(root.Size - ItemsTotal(root.Children), root.Size, BlockArea(r));
    }
  }

  lemma SharePos(size: real, rootSize: real, blockArea: real)
    requires size > 0.0 && rootSize > 0.0 && blockArea > 0.0
    ensures Share(size, rootSize, blockArea) > 0.0
  {
    ProductPos(size / rootSize, blockArea, size / rootSize * blockArea);
  }

  lemma {:induction false} SumCons(a: Area, s: seq<Area>)
    ensures Sum([a] + s) == a.Area + Sum(s)
  {
    if s != [] {
      SumCons(a, s[..|s| - 1]);
      assert ([a] + s)[..|s|] == [a] + s[..|s| - 1];
    }
  }

  lemma {:induction false} SumAppend(s: seq<Area>, t: seq<Area>)
    ensures Sum(s + t) == Sum(s) + Sum(t)
  {
    if t != [] {
      SumAppend(s, t[..|t| - 1]);
      assert (s + t)[..|s + t| - 1] == s + t[..|t| - 1];
      assert (s + t)[|s + t| - 1] == t[|t| - 1];
      assert Sum(s + t) == Sum(s + t[..|t| - 1]) + t[|t| - 1].Area;
      assert Sum(t) == Sum(t[..|t| - 1]) + t[|t| - 1].Area;
    } else {
      assert s + t == s;
    }
  }

  lemma {:induction false} SumInsert(a: Area, s: seq<Area>)
    ensures Sum(Insert(a, s)) == a.Area + Sum(s)
  {
    if s == [] {
      SumCons(a, s);
    } else if !Before(s[0], a) {
      SumCons(a, s);
    } else {
      SumInsert(a, s[1..]);
      SumCons(s[0], Insert(a, s[1..]));
      SumCons(s[0], s[1..]);
      assert s == [s[0]] + s[1..];
    }
  }

  /** Sorting keeps the total area. */
  lemma {:induction false} SumSort(xs: seq<Area>)
    ensures Sum(SortByArea(xs)) == Sum(xs)
  {
    if xs != [] {
      SumSort(xs[..|xs| - 1]);
      SumInsert(xs[|xs| - 1], SortByArea(xs[..|xs| - 1]));
    }
  }

  /** The child areas add up to the share of the children's total size. */
  lemma {:induction false} ChildAreasSum(kids: seq<Item>, rootSize: real, blockArea: real)
    requires rootSize != 0.0
    ensures Sum(ChildAreas(kids, rootSize, blockArea)) == Share(ItemsTotal(kids), rootSize, blockArea)
  {
    if kids != [] {
      var init, last := kids[..|kids| - 1], kids[|kids| - 1];
      ChildAreasSum(init, rootSize, blockArea);
      var tail := if last.Size <= 0.0 then [] else [Area(Share(last.Size, rootSize, blockArea), Some(last))];
      SumAppend(ChildAreas(init, rootSize, blockArea), tail);
      if last.Size > 0.0 {
        assert Sum(tail) == Sum([]) + tail[0].Area;
        ShareAdd(ItemsTotal(init), last.Size, rootSize, blockArea);
      }
    }
  }

  lemma ShareAdd(x: real, y: real, rootSize: real, blockArea: real)
    requires rootSize != 0.0
    ensures Share(x, rootSize, blockArea) + Share(y, rootSize, blockArea) == Share(x + y, rootSize, blockArea)
  {
    assert x / rootSize + y / rootSize == (x + y) / rootSize;
  }

  /** A share of everything is the whole. */
  lemma ShareAll(rootSize: real, blockArea: real)
    requires rootSize != 0.0
    ensures Share(rootSize, rootSize, blockArea) == blockArea
  {
    assert rootSize / rootSize == 1.0;
  }

  /** The unsorted areas add up to the share of the larger of the root's size and the children's total. */
  lemma {:induction false} UnsortedSum(root: Item, r: Rect)
    requires root.Size > 0.0
    ensures Sum(Unsorted(root, r)) == Share(if ItemsTotal(root.Children) < root.Size then root.Size else ItemsTotal(root.Children), root.Size, BlockArea(r))
  {
    var total := ItemsTotal(root.Children);
    var kids := ChildAreas(root.Children, root.Size, BlockArea(r));
    ChildAreasSum(root.Children, root.Size, BlockArea(r));
    var tail := if total < root.Size then [Area(Share(root.Size - total, root.Size, BlockArea(r)), None)] else [];
    SumAppend(kids, tail);
    if total < root.Size {
      assert Sum(tail) == Sum([]) + tail[0].Area;
      ShareAdd(total, root.Size - total, root.Size, BlockArea(r));
    }
  }

  /**
   * When the children's sizes do not exceed the root's, the areas, placeholder included, fill the
   * block exactly.
   */
  lemma AreasFillBlock(root: Item, r: Rect, dosort: bool)
    requires root.Size > 0.0 && ItemsTotal(root.Children) <= root.Size
    ensures Sum(AreasOf(root, r, dosort)) == BlockArea(r)
  {
    UnsortedSum(root, r);
    ShareAll(root.Size, BlockArea(r));
    if dosort {
      SumSort(Unsorted(root, r));
    }
  }

  // ---------------------------------------------------------------------------
  // The tiling (squarify/squarify.go:62-69, 215-310).
  // ---------------------------------------------------------------------------

  /** A block wider than high gets rows that run down it (`Vertical`), any other rows that run across. */
  function RowDir(block: Rect): Direction
  {
    if block.W > block.H then Vertical else Horizontal
  }

  /**
   * One level of `squarify` between two areas: the corner of the current row, the free width and
   * height left, the areas of the current row, and the blocks output so far.
   */
  datatype Layout = Layout(x: real, y: real, freeW: real, freeH: real, row: seq<Area>, out: seq<Block>)

  /** `makeRow` (squarify/squarify.go:251-258): a vertical row is as wide as the free height, any other as the free width. */
  function RowWidth(block: Rect, st: Layout): real
  {
    if RowDir(block) == Vertical then st.freeH else st.freeW
  }

  /** What `output` keeps (squarify/squarify.go:224-235): a block of an item, beyond the minimum in one dimension at least. */
  predicate Shown(b: Block, o: Options)
  {
    b.Sizer.Some? && (b.Rect.W > o.MinW || b.Rect.H > o.MinH)
  }

  /** The blocks `output` keeps, in their order. */
  function Keep(bs: seq<Block>, o: Options): (r: seq<Block>)
    ensures |r| <= |bs|
    ensures forall b | b in r :: b in bs && Shown(b, o)
    ensures forall b | b in bs && Shown(b, o) :: b in r
  {
    if bs == [] then [] else
      var last := bs[|bs| - 1];
      Keep(bs[..|bs| - 1], o) + if Shown(last, o) then [last] else []
  }

  lemma PositiveAppend(xs: seq<Area>, a: Area)
    requires Positive(xs) && a.Area > 0.0
    ensures Positive(xs + [a])
  {
    var ys := xs + [a];
    forall i | 0 <= i < |ys| ensures ys[i].Area > 0.0 {
      if i < |xs| {
        assert ys[i] == xs[i];
      }
    }
  }

  lemma FoldUsable(xs: seq<Area>)
    requires Positive(xs) && xs != []
    ensures Fold(xs).min > 0.0 && Fold(xs).sum > 0.0
  {
    FoldStats(xs);
  }

  lemma FoldSum(xs: seq<Area>)
    requires Positive(xs)
    ensures Fold(xs).sum == Sum(xs) && (xs != [] ==> Sum(xs) > 0.0)
  {
    FoldStats(xs);
  }

  /** `worstBefore < worstAfter`: with `a` added, the row's worst aspect ratio would be worse. */
  predicate Worse(width: real, row: seq<Area>, a: Area)
    requires Positive(row) && row != [] && a.Area > 0.0 && width != 0.0
  {
    FoldUsable(row);
    PositiveAppend(row, a);
    FoldUsable(row + [a]);
    WorstOf(width, Fold(row)) < WorstOf(width, Fold(row + [a]))
  }

  /**
   * A full row handed to `makeBlocks` and `output` (squarify/squarify.go:273-284): its blocks laid
   * from the row's corner and kept by `output`, the corner moved past the row's thickness, which the
   * free space loses in the other dimension than the row's width.
   */
  function Flush(block: Rect, o: Options, st: Layout): (r: Layout)
    requires Positive(st.row) && st.row != [] && RowWidth(block, st) != 0.0
    ensures r.row == [] && RowWidth(block, r) == RowWidth(block, st)
    ensures |st.out| <= |r.out| && r.out[..|st.out|] == st.out
  {
    FoldSum(st.row);
    var w := RowWidth(block, st);
    var off := Thickness(Sum(st.row), w);
    var out := st.out + Keep(Lay(st.row, |st.row|, Sum(st.row), w, st.x, st.y, RowDir(block)), o);
    if RowDir(block) == Vertical then Layout(st.x + off, st.y, st.freeW - off, st.freeH, [], out)
    else Layout(st.x, st.y + off, st.freeW, st.freeH - off, [], out)
  }

  /**
   * One turn of the loop over the areas (squarify/squarify.go:263-294): a non-empty row that `a`
   * would make worse is output first, then `a` joins the current row.
   */
  function Step(block: Rect, o: Options, st: Layout, a: Area): (r: Layout)
    requires Positive(st.row) && a.Area > 0.0 && RowWidth(block, st) != 0.0
    ensures Positive(r.row) && r.row != [] && RowWidth(block, r) == RowWidth(block, st)
    ensures |st.out| <= |r.out| && r.out[..|st.out|] == st.out
  {
    PositiveAppend(st.row, a);
    PositiveAppend([], a);
    if st.row != [] && Worse(RowWidth(block, st), st.row, a) then Flush(block, o, st).(row := [a])
    else st.(row := st.row + [a])
  }

  /**
   * The loop over the areas from the block's corner with all of it free: the row's width, the
   * free dimension it is taken from, never changes within a level.
   */
  function Run(block: Rect, o: Options, xs: seq<Area>): (st: Layout)
    requires Positive(xs) && block.W > 0.0 && block.H > 0.0
    ensures Positive(st.row) && (xs != [] ==> st.row != [])
    ensures RowWidth(block, st) == if RowDir(block) == Vertical then block.H else block.W
  {
    if xs == [] then Layout(block.X, block.Y, block.W, block.H, [], [])
    else Step(block, o, Run(block, o, xs[..|xs| - 1]), xs[|xs| - 1])
  }

  lemma BlockAreaPos(r: Rect)
    requires r.W > 0.0 && r.H > 0.0
    ensures BlockArea(r) > 0.0
  {
    ProductPos(r.W, r.H, BlockArea(r));
  }

  /** The blocks one level outputs (squarify/squarify.go:241-290): every area run through rows, the last row output too. */
  function Level(root: Item, block: Rect, o: Options): seq<Block>
    requires WellSized(root) && block.W > 0.0 && block.H > 0.0
  {
    BlockAreaPos(block);
    AreasPositive(root, block, o.Sort);
    Rows(block, o, AreasOf(root, block, o.Sort))
  }

  /** The blocks output for the areas `xs`: all of them run through rows, the last row output too. */
  function Rows(block: Rect, o: Options, xs: seq<Area>): seq<Block>
    requires Positive(xs) && block.W > 0.0 && block.H > 0.0
  {
    var st := Run(block, o, xs);
    if st.row == [] then st.out else Flush(block, o, st).out
  }

  /** A block drawn for an area: of the same item, and of that area. */
  predicate Fills(b: Block, a: Area)
  {
    b.Sizer == a.Sizer && BlockArea(b.Rect) == a.Area
  }

  /** Every block of `bs` is shown, and is drawn for one of the areas `xs`. */
  predicate Drawn(bs: seq<Block>, xs: seq<Area>, o: Options)
  {
    forall b | b in bs :: Shown(b, o) && exists a | a in xs :: Fills(b, a)
  }

  lemma DrawnWider(bs: seq<Block>, xs: seq<Area>, ys: seq<Area>, o: Options)
    requires Drawn(bs, xs, o) && forall a | a in xs :: a in ys
    ensures Drawn(bs, ys, o)
  {
    forall b | b in bs ensures exists a | a in ys :: Fills(b, a) {
      var a :| a in xs && Fills(b, a);
      assert a in ys;
    }
  }

  /** Each block laid for a row is drawn for the area at its position. */
  lemma LayFills(xs: seq<Area>, sum: real, width: real, x: real, y: real, dir: Direction)
    requires sum != 0.0 && width != 0.0
    ensures forall i | 0 <= i < |xs| :: Fills(Lay(xs, |xs|, sum, width, x, y, dir)[i], xs[i])
  {
    forall i | 0 <= i < |xs| ensures Fills(Lay(xs, |xs|, sum, width, x, y, dir)[i], xs[i]) {
      PlaceCoversArea(xs, i, sum, width, x, y, dir);
    }
  }

  /** Of blocks each drawn for the area at its position, those kept are drawn for one of the areas. */
  lemma KeptDrawn(laid: seq<Block>, xs: seq<Area>, o: Options)
    requires |laid| == |xs| && forall i | 0 <= i < |xs| :: Fills(laid[i], xs[i])
    ensures Drawn(Keep(laid, o), xs, o)
  {
    forall b | b in Keep(laid, o) ensures Shown(b, o) && exists a | a in xs :: Fills(b, a) {
      var i :| 0 <= i < |laid| && laid[i] == b;
      assert Fills(b, xs[i]);
    }
  }

  lemma DrawnAppend(bs: seq<Block>, cs: seq<Block>, xs: seq<Area>, o: Options)
    requires Drawn(bs, xs, o) && Drawn(cs, xs, o)
    ensures Drawn(bs + cs, xs, o)
  {
    forall b | b in bs + cs ensures Shown(b, o) && exists a | a in xs :: Fills(b, a) {
      if b in bs {
      } else {
        assert b in cs;
      }
    }
  }

  /** Flushing a row of areas drawn from `xs` outputs blocks drawn for them. */
  lemma FlushDrawn(block: Rect, o: Options, st: Layout, xs: seq<Area>)
    requires Positive(st.row) && st.row != [] && RowWidth(block, st) != 0.0
    requires Drawn(st.out, xs, o) && forall a | a in st.row :: a in xs
    ensures Drawn(Flush(block, o, st).out, xs, o)
  {
    FoldSum(st.row);
    var w := RowWidth(block, st);
    var laid := Lay(st.row, |st.row|, Sum(st.row), w, st.x, st.y, RowDir(block));
    LayFills(st.row, Sum(st.row), w, st.x, st.y, RowDir(block));
    KeptDrawn(laid, st.row, o);
    DrawnWider(Keep(laid, o), st.row, xs, o);
    DrawnAppend(st.out, Keep(laid, o), xs, o);
  }

  /** Within a level, the current row holds areas of the input, and every output block is drawn for one. */
  lemma {:induction false} RunDrawn(block: Rect, o: Options, xs: seq<Area>)
    requires Positive(xs) && block.W > 0.0 && block.H > 0.0
    ensures forall a | a in Run(block, o, xs).row :: a in xs
    ensures Drawn(Run(block, o, xs).out, xs, o)
  {
    if xs != [] {
      var init, a := xs[..|xs| - 1], xs[|xs| - 1];
      var prev := Run(block, o, init);
      RunDrawn(block, o, init);
      assert forall c | c in init :: c in xs;
      DrawnWider(prev.out, init, xs, o);
      if prev.row != [] && Worse(RowWidth(block, prev), prev.row, a) {
        FlushDrawn(block, o, prev, xs);
      }
    }
  }

  /**
   * The shape of one level's output, as `TestSquarifyAreas` (squarify/squarify_test.go:77-122)
   * checks it: every block is of a child of the root with positive size, and covers that child's
   * share of the block being tiled; and `output` let it through.
   */
  lemma LevelAreas(root: Item, block: Rect, o: Options)
    requires WellSized(root) && block.W > 0.0 && block.H > 0.0
    ensures forall b | b in Level(root, block, o) ::
              Shown(b, o) && b.Sizer.value in root.Children && b.Sizer.value.Size > 0.0
              && BlockArea(b.Rect) == Share(b.Sizer.value.Size, root.Size, BlockArea(block))
  {
    BlockAreaPos(block);
    AreasPositive(root, block, o.Sort);
    var xs := AreasOf(root, block, o.Sort);
    var st := Run(block, o, xs);
    RunDrawn(block, o, xs);
    if st.row != [] {
      FlushDrawn(block, o, st, xs);
    }
    AreasApportioned(root, block, o.Sort);
    forall b | b in Level(root, block, o)
      ensures Shown(b, o) && b.Sizer.value in root.Children && b.Sizer.value.Size > 0.0
              && BlockArea(b.Rect) == Share(b.Sizer.value.Size, root.Size, BlockArea(block))
    {
      var a :| a in xs && Fills(b, a);
      assert Apportioned(a, root, BlockArea(block));
    }
  }

  /** The block a child is tiled in (squarify/squarify.go:296-301): its own, less the margins if any are set. */
  function Inset(r: Rect, margins: Option<Margins>): Rect
  {
    match margins
    case None => r
    case Some(m) => Rect(r.X + m.L, r.Y + m.T, r.W - (m.L + m.R), r.H - (m.T + m.B))
  }

  /** The metadata `output` records: one entry per block, each of the level's depth. */
  function Metas(n: nat, depth: int): (r: seq<Meta>)
    ensures |r| == n && forall m | m in r :: m.Depth == depth
  {
    if n == 0 then [] else Metas(n - 1, depth) + [Meta(depth)]
  }

  /** What `squarify` returns: the blocks, and the metadata of each. */
  datatype Tiling = Tiling(blocks: seq<Block>, meta: seq<Meta>)

  /** The recursion's bound: the levels left before the maximum depth. */
  function Remaining(o: Options, depth: int): nat
  {
    if depth < o.MaxDepth then o.MaxDepth - depth else 0
  }

  /** The children and the blocks may shrink to nothing, never below: sizes and minima are what `squarify` can divide by. */
  predicate Tileable(root: Item, o: Options)
  {
    WellSized(root) && o.MinW >= 0.0 && o.MinH >= 0.0
  }

  /**
   * `squarify` (squarify/squarify.go:215-310): nothing for a block no larger than the minimum in
   * either dimension or at the maximum depth; otherwise this level's blocks, then the tilings
   * nested in each of them, one level deeper.
   */
  function Tile(root: Item, block: Rect, o: Options, depth: int): Tiling
    requires Tileable(root, o)
    decreases Remaining(o, depth), 1, 0
  {
    if block.W <= o.MinW || block.H <= o.MinH || depth >= o.MaxDepth then Tiling([], [])
    else
      var level := Level(root, block, o);
      LevelAreas(root, block, o);
      var nested := Nest(root, level, o, depth);
      Tiling(level + nested.blocks, Metas(|level|, depth) + nested.meta)
  }

  /** The children of `root` that have a block in `level` are tileable too. */
  predicate Nestable(root: Item, level: seq<Block>)
  {
    forall b | b in level :: b.Sizer.Some? ==> b.Sizer.value in root.Children
  }

  /** The loop over this level's blocks (squarify/squarify.go:292-307): each block's item tiled inside it, in order. */
  function Nest(root: Item, level: seq<Block>, o: Options, depth: int): Tiling
    requires Tileable(root, o) && Nestable(root, level) && depth < o.MaxDepth
    decreases Remaining(o, depth), 0, |level|
  {
    if level == [] then Tiling([], [])
    else
      var prev := Nest(root, level[..|level| - 1], o, depth);
      var b := level[|level| - 1];
      if b.Sizer.None? then prev
      else
        assert b.Sizer.value in root.Children;
        var sub := Tile(b.Sizer.value, Inset(b.Rect, o.Margins), o, depth + 1);
        Tiling(prev.blocks + sub.blocks, prev.meta + sub.meta)
  }

  /** The shape `Squarify`'s callers rely on: one metadata entry per block, shown blocks only, depths within bounds. */
  predicate WellShaped(t: Tiling, o: Options, depth: int)
  {
    |t.blocks| == |t.meta|
    && (forall b | b in t.blocks :: Shown(b, o))
    && (forall m | m in t.meta :: depth <= m.Depth < o.MaxDepth)
  }

  lemma WellShapedAppend(s: Tiling, t: Tiling, o: Options, depth: int, depth': int)
    requires WellShaped(s, o, depth) && WellShaped(t, o, depth') && depth <= depth'
    ensures WellShaped(Tiling(s.blocks + t.blocks, s.meta + t.meta), o, depth)
  {
  }

  /** A level of shown blocks at `depth`, followed by a well-shaped tiling one level deeper, is well shaped. */
  lemma ShapeOfParts(level: seq<Block>, nested: Tiling, o: Options, depth: int)
    requires (forall b | b in level :: Shown(b, o)) && depth < o.MaxDepth
    requires WellShaped(nested, o, depth + 1)
    ensures WellShaped(Tiling(level + nested.blocks, Metas(|level|, depth) + nested.meta), o, depth)
  {
    WellShapedAppend(Tiling(level, Metas(|level|, depth)), nested, o, depth, depth + 1);
  }

  /** Every tiling is well shaped: each block shown, with its own metadata, at a depth from `depth` below the maximum. */
  lemma {:induction false} TileShape(root: Item, block: Rect, o: Options, depth: int)
    requires Tileable(root, o)
    ensures WellShaped(Tile(root, block, o, depth), o, depth)
    decreases Remaining(o, depth), 1, 0
  {
    if !(block.W <= o.MinW || block.H <= o.MinH || depth >= o.MaxDepth) {
      TileUnfold(root, block, o, depth);
      LevelAreas(root, block, o);
      NestShape(root, Level(root, block, o), o, depth);
      ShapeOfParts(Level(root, block, o), Nest(root, Level(root, block, o), o, depth), o, depth);
    }
  }

  /** The tilings nested in a level are well shaped, one level deeper. */
  lemma {:induction false} NestShape(root: Item, level: seq<Block>, o: Options, depth: int)
    requires Tileable(root, o) && Nestable(root, level) && depth < o.MaxDepth
    ensures WellShaped(Nest(root, level, o, depth), o, depth + 1)
    decreases Remaining(o, depth), 0, |level|
  {
    if level != [] {
      var init, b := level[..|level| - 1], level[|level| - 1];
      NestShape(root, init, o, depth);
      if b.Sizer.Some? {
        assert b.Sizer.value in root.Children;
        TileShape(b.Sizer.value, Inset(b.Rect, o.Margins), o, depth + 1);
        WellShapedAppend(Nest(root, init, o, depth), Tile(b.Sizer.value, Inset(b.Rect, o.Margins), o, depth + 1),
                         o, depth + 1, depth + 1);
      }
    }
  }

  /** A root without children gets no blocks: the placeholder that stands for its size is never output. */
  lemma LeafTile(root: Item, block: Rect, o: Options, depth: int)
    requires Tileable(root, o) && root.Children == []
    ensures Tile(root, block, o, depth) == Tiling([], [])
  {
    if !(block.W <= o.MinW || block.H <= o.MinH || depth >= o.MaxDepth) {
      TileUnfold(root, block, o, depth);
      LevelAreas(root, block, o);
      assert Level(root, block, o) == [];
    }
  }

  /** Children without children of their own add nothing below their level. */
  lemma {:induction false} NestOfLeaves(root: Item, level: seq<Block>, o: Options, depth: int)
    requires Tileable(root, o) && Nestable(root, level) && depth < o.MaxDepth
    requires forall k | k in root.Children :: k.Children == []
    ensures Nest(root, level, o, depth) == Tiling([], [])
  {
    if level != [] {
      var init, b := level[..|level| - 1], level[|level| - 1];
      NestOfLeaves(root, init, o, depth);
      if b.Sizer.Some? {
        assert b.Sizer.value in root.Children;
        LeafTile(b.Sizer.value, Inset(b.Rect, o.Margins), o, depth + 1);
      }
    }
  }

  /** A level whose items have no children of their own is all there is: one metadata entry per block, at this depth. */
  lemma TileOfLeaves(root: Item, block: Rect, o: Options, depth: int)
    requires Tileable(root, o) && !(block.W <= o.MinW || block.H <= o.MinH || depth >= o.MaxDepth)
    requires forall k | k in root.Children :: k.Children == []
    ensures Tile(root, block, o, depth) == Tiling(Level(root, block, o), Metas(|Level(root, block, o)|, depth))
  {
    TileUnfold(root, block, o, depth);
    NestOfLeaves(root, Level(root, block, o), o, depth);
  }

  lemma {:induction false} MetasAppend(n: nat, m: nat, depth: int)
    ensures Metas(n, depth) + Metas(m, depth) == Metas(n + m, depth)
  {
    if m > 0 {
      MetasAppend(n, m - 1, depth);
    }
  }

  /**
   * `output` (squarify/squarify.go:224-235), with the blocks and metadata it appends to passed in
   * and returned: the blocks of items beyond the minimum in one dimension, each with the depth.
   */
  method Output(blocks0: seq<Block>, meta0: seq<Meta>, newBlocks: seq<Block>, o: Options, depth: int)
    returns (blocks: seq<Block>, meta: seq<Meta>)
    ensures blocks == blocks0 + Keep(newBlocks, o)
    ensures meta == meta0 + Metas(|Keep(newBlocks, o)|, depth)
  {
    blocks, meta := blocks0, meta0;
    for i := 0 to |newBlocks|
      invariant blocks == blocks0 + Keep(newBlocks[..i], o)
      invariant meta == meta0 + Metas(|Keep(newBlocks[..i], o)|, depth)
    {
      assert newBlocks[..i + 1][..i] == newBlocks[..i];
      if newBlocks[i].Sizer.Some? {
        if newBlocks[i].Rect.W > o.MinW || newBlocks[i].Rect.H > o.MinH {
          blocks := blocks + [newBlocks[i]];
          meta := meta + [Meta(depth)];
        }
      }
    }
    assert newBlocks[..|newBlocks|] == newBlocks;
  }

  /** `makeRow` (squarify/squarify.go:251-258): a new, empty row at the corner, as wide as the free dimension the block's shape picks. */
  method MakeRow(block: Rect, x: real, y: real, freeW: real, freeH: real) returns (row: Row)
    ensures fresh(row) && row.areas == [] && row.Consistent()
    ensures row.X == x && row.Y == y && row.Dir == RowDir(block)
    ensures row.Width == RowWidth(block, Layout(x, y, freeW, freeH, [], []))
  {
    if block.W > block.H {
      row := new Row(Vertical, freeH, x, y);
    } else {
      row := new Row(Horizontal, freeW, x, y);
    }
  }

  /** The row object and the loop's variables hold the level's state `st`. */
  predicate Tracks(row: Row, block: Rect, st: Layout, x: real, y: real, freeW: real, freeH: real, blocks: seq<Block>)
    reads row
  {
    st == Layout(x, y, freeW, freeH, row.areas, blocks)
    && row.Consistent() && row.X == x && row.Y == y && row.Dir == RowDir(block) && row.Width == RowWidth(block, st)
  }

  /**
   * A full row output (squarify/squarify.go:273-284): `makeBlocks`, `output`, the corner moved
   * past the row's thickness, and a new row started there.
   */
  method FlushRow(block: Rect, o: Options, depth: int, row: Row, x: real, y: real, freeW: real, freeH: real,
                  blocks0: seq<Block>, meta0: seq<Meta>, ghost st: Layout)
    returns (row': Row, x': real, y': real, freeW': real, freeH': real, blocks: seq<Block>, meta: seq<Meta>)
    requires Tracks(row, block, st, x, y, freeW, freeH, blocks0) && meta0 == Metas(|blocks0|, depth)
    requires st.row != [] && RowWidth(block, st) != 0.0
    modifies row
    ensures fresh(row') && Tracks(row', block, Flush(block, o, st), x', y', freeW', freeH', blocks)
    ensures meta == Metas(|blocks|, depth)
  {
    var offset, newBlocks := row.MakeBlocks();
    FoldSum(st.row);
    ghost var w := RowWidth(block, st);
    assert offset == Thickness(Sum(st.row), w);
    assert newBlocks == Lay(st.row, |st.row|, Sum(st.row), w, x, y, RowDir(block));
    blocks, meta := Output(blocks0, meta0, newBlocks, o, depth);
    MetasAppend(|blocks0|, |blocks| - |blocks0|, depth);
    x', y', freeW', freeH' := x, y, freeW, freeH;
    if row.Dir == Vertical {
      x' := x + offset;
      freeW' := freeW - offset;
    } else {
      y' := y + offset;
      freeH' := freeH - offset;
    }
    row' := MakeRow(block, x', y', freeW', freeH');
  }

  /**
   * One turn of the loop over the areas (squarify/squarify.go:263-294): the row's worst aspect
   * ratio before and with `a` compared, the row output if `a` would make it worse, and `a` pushed.
   */
  method Advance(block: Rect, o: Options, depth: int, row: Row, x: real, y: real, freeW: real, freeH: real,
                 blocks0: seq<Block>, meta0: seq<Meta>, a: Area, ghost st: Layout)
    returns (row': Row, x': real, y': real, freeW': real, freeH': real, blocks: seq<Block>, meta: seq<Meta>)
    requires Tracks(row, block, st, x, y, freeW, freeH, blocks0) && meta0 == Metas(|blocks0|, depth)
    requires a.Area > 0.0 && RowWidth(block, st) != 0.0
    modifies row
    ensures fresh(row') || row' == row
    ensures Tracks(row', block, Step(block, o, st, a), x', y', freeW', freeH', blocks)
    ensures meta == Metas(|blocks|, depth)
  {
    row', x', y', freeW', freeH', blocks, meta := row, x, y, freeW, freeH, blocks0, meta0;
    ghost var st' := st;
    if |row.areas| > 0 {
      var worstBefore := row.Worst();
      var _, worstAfter := row.PushTemporarily(a);
      assert (st.row + [a])[..|st.row|] == st.row;
      if worstBefore < worstAfter {
        row', x', y', freeW', freeH', blocks, meta := FlushRow(block, o, depth, row, x, y, freeW, freeH, blocks0, meta0, st);
        st' := Flush(block, o, st);
      }
    }
    row'.Push(a);
  }

  /** The loop over the areas advanced by one area is one more `Step`. */
  lemma RunStep(block: Rect, o: Options, xs: seq<Area>, i: nat)
    requires Positive(xs) && block.W > 0.0 && block.H > 0.0 && i < |xs|
    ensures Positive(xs[..i]) && Positive(xs[..i + 1])
    ensures Run(block, o, xs[..i + 1]) == Step(block, o, Run(block, o, xs[..i]), xs[i])
  {
    assert xs[..i + 1][..i] == xs[..i];
  }

  /** The end of the first half of `squarify` (squarify/squarify.go:286-289): a last, non-empty row is output too. */
  method LastRow(block: Rect, o: Options, depth: int, row: Row, x: real, y: real, freeW: real, freeH: real,
                 blocks0: seq<Block>, meta0: seq<Meta>, ghost st: Layout)
    returns (blocks: seq<Block>, meta: seq<Meta>)
    requires Tracks(row, block, st, x, y, freeW, freeH, blocks0) && meta0 == Metas(|blocks0|, depth)
    requires st.row != [] ==> RowWidth(block, st) != 0.0
    modifies row
    ensures blocks == (if st.row == [] then st.out else Flush(block, o, st).out)
    ensures meta == Metas(|blocks|, depth)
  {
    blocks, meta := blocks0, meta0;
    if |row.areas| > 0 {
      var _, newBlocks := row.MakeBlocks();
      FoldSum(st.row);
      blocks, meta := Output(blocks, meta, newBlocks, o, depth);
      MetasAppend(|blocks0|, |blocks| - |blocks0|, depth);
    }
  }

  /**
   * The first half of `squarify` (squarify/squarify.go:241-290): the areas pushed one by one into
   * rows, a row being output and a new one started beside it whenever the next area would make its
   * worst aspect ratio worse, and the last row output at the end.
   */
  method LayLevel(block: Rect, o: Options, depth: int, areas: seq<Area>) returns (blocks: seq<Block>, meta: seq<Meta>)
    requires Positive(areas) && block.W > 0.0 && block.H > 0.0
    ensures blocks == Rows(block, o, areas) && meta == Metas(|blocks|, depth)
  {
    blocks, meta := [], [];
    var rowX, rowY, freeWidth, freeHeight := block.X, block.Y, block.W, block.H;
    var row := MakeRow(block, rowX, rowY, freeWidth, freeHeight);
    for i := 0 to |areas|
      invariant fresh(row)
      invariant Tracks(row, block, Run(block, o, areas[..i]), rowX, rowY, freeWidth, freeHeight, blocks)
      invariant meta == Metas(|blocks|, depth)
    {
      RunStep(block, o, areas, i);
      row, rowX, rowY, freeWidth, freeHeight, blocks, meta :=
        Advance(block, o, depth, row, rowX, rowY, freeWidth, freeHeight, blocks, meta, areas[i], Run(block, o, areas[..i]));
    }
    assert areas[..|areas|] == areas;
    blocks, meta := LastRow(block, o, depth, row, rowX, rowY, freeWidth, freeHeight, blocks, meta, Run(block, o, areas));
  }

  /** The blocks of one level, as `squarify` computes them (squarify/squarify.go:239-290): the areas, then the rows. */
  method LevelBlocks(root: Item, block: Rect, o: Options, depth: int) returns (blocks: seq<Block>, meta: seq<Meta>)
    requires WellSized(root) && block.W > 0.0 && block.H > 0.0
    ensures blocks == Level(root, block, o) && meta == Metas(|blocks|, depth)
  {
    BlockAreaPos(block);
    AreasPositive(root, block, o.Sort);
    var areas := Areas(root, block, o.Sort);
    blocks, meta := LayLevel(block, o, depth, areas);
  }

  /** Past the guard, a tiling is the level's blocks and the tilings nested in them. */
  lemma TileUnfold(root: Item, block: Rect, o: Options, depth: int)
    requires Tileable(root, o) && !(block.W <= o.MinW || block.H <= o.MinH || depth >= o.MaxDepth)
    ensures Nestable(root, Level(root, block, o))
    ensures Tile(root, block, o, depth)
            == Tiling(Level(root, block, o) + Nest(root, Level(root, block, o), o, depth).blocks,
                      Metas(|Level(root, block, o)|, depth) + Nest(root, Level(root, block, o), o, depth).meta)
  {
    LevelAreas(root, block, o);
  }

  /** The nested tilings of one more block of the level: those before, then that block's, if it has an item. */
  lemma NestStep(root: Item, level: seq<Block>, o: Options, depth: int, j: nat)
    requires Tileable(root, o) && Nestable(root, level) && depth < o.MaxDepth && j < |level|
    ensures Nestable(root, level[..j]) && Nestable(root, level[..j + 1])
    ensures level[j].Sizer.Some? ==> level[j].Sizer.value in root.Children
    ensures level[j].Sizer.None? ==> Nest(root, level[..j + 1], o, depth) == Nest(root, level[..j], o, depth)
    ensures level[j].Sizer.Some? ==>
              var sub := Tile(level[j].Sizer.value, Inset(level[j].Rect, o.Margins), o, depth + 1);
              Nest(root, level[..j + 1], o, depth)
              == Tiling(Nest(root, level[..j], o, depth).blocks + sub.blocks, Nest(root, level[..j], o, depth).meta + sub.meta)
  {
    assert level[..j + 1][..j] == level[..j];
    assert level[j] in level;
  }

  /**
   * `squarify` (squarify/squarify.go:215-310): the level laid out, then the tilings nested in its
   * blocks appended.
   */
  method SquarifyAt(root: Item, block: Rect, o: Options, depth: int) returns (blocks: seq<Block>, meta: seq<Meta>)
    requires Tileable(root, o)
    ensures Tiling(blocks, meta) == Tile(root, block, o, depth)
    decreases Remaining(o, depth), 1
  {
    blocks, meta := [], [];
    if block.W <= o.MinW || block.H <= o.MinH || depth >= o.MaxDepth {
      return;
    }
    blocks, meta := LevelBlocks(root, block, o, depth);
    TileUnfold(root, block, o, depth);
    var nested := NestAt(root, blocks, o, depth);
    blocks, meta := blocks + nested.blocks, meta + nested.meta;
  }

  /**
   * The loop over the level's blocks (squarify/squarify.go:292-307): `range` sees this level's
   * blocks only; each block's item is tiled inside it, less the margins, one level deeper.
   */
  method NestAt(root: Item, level: seq<Block>, o: Options, depth: int) returns (nested: Tiling)
    requires Tileable(root, o) && Nestable(root, level) && depth < o.MaxDepth
    ensures nested == Nest(root, level, o, depth)
    decreases Remaining(o, depth), 0
  {
    nested := Tiling([], []);
    for j := 0 to |level|
      invariant Nestable(root, level[..j])
      invariant nested == Nest(root, level[..j], o, depth)
    {
      NestStep(root, level, o, depth, j);
      var b := level[j];
      if b.Sizer.Some? {
        var r := b.Rect;
        if o.Margins.Some? {
          var m := o.Margins.value;
          r := Rect(r.X + m.L, r.Y + m.T, r.W - (m.L + m.R), r.H - (m.T + m.B));
        }
        assert r == Inset(b.Rect, o.Margins);
        var newBlocks, newMeta := SquarifyAt(b.Sizer.value, r, o, depth + 1);
        nested := Tiling(nested.blocks + newBlocks, nested.meta + newMeta);
      }
    }
    assert level[..|level|] == level;
  }

  /** The options `Squarify` passes on: a maximum depth that is not positive stands for 20. */
  function Defaulted(o: Options): (r: Options)
    ensures r.MaxDepth > 0
  {
    if o.MaxDepth <= 0 then o.(MaxDepth := 20) else o
  }

  /**
   * `Squarify` (squarify/squarify.go:62-69): the tiling of the root's children in `rect` from
   * depth 0, one metadata entry per block, every block shown and every depth below the maximum.
   */
  method Squarify(root: Item, rect: Rect, options: Options) returns (blocks: seq<Block>, meta: seq<Meta>)
    requires Tileable(root, options)
    ensures Tiling(blocks, meta) == Tile(root, rect, Defaulted(options), 0)
    ensures WellShaped(Tiling(blocks, meta), Defaulted(options), 0)
  {
    var o := options;
    if o.MaxDepth <= 0 {
      o := o.(MaxDepth := 20);
    }
    blocks, meta := SquarifyAt(root, rect, o, 0);
    TileShape(root, rect, o, 0);
  }
}
