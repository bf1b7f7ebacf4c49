/** What the QVT builder guarantees: the geometry of a split, the split rule over
    the reals, the order and number of regions per generation, the partition of
    the domain that every generation forms, and the fate of frozen regions. */
module QvtProperties {
  import opened Numerics
  import opened Qvt

  predicate WellFormed(b: Box)
  {
    b.xr.lo <= b.xr.hi && b.yr.lo <= b.yr.hi
  }

  /** `inner` lies in the closed rectangle `outer`. */
  predicate Inside(inner: Box, outer: Box)
  {
    outer.xr.lo <= inner.xr.lo && inner.xr.hi <= outer.xr.hi &&
    outer.yr.lo <= inner.yr.lo && inner.yr.hi <= outer.yr.hi
  }

  predicate InClosed(x: real, y: real, b: Box)
  {
    b.xr.lo <= x <= b.xr.hi && b.yr.lo <= y <= b.yr.hi
  }

  // ---------------------------------------------------------------- generation 0

  lemma {:induction false} Columns(grid: seq<Sample>)
    ensures forall i :: 0 <= i < |grid| ==>
      Xs(grid)[i] == grid[i].x && Ys(grid)[i] == grid[i].y && Zs(grid)[i] == grid[i].z
  {
    if grid != [] {
      Columns(grid[1..]);
    }
  }

  /** The root region is the grid's bounding box (both ends attained), with the
      global height range `(min Z, max Z)` and the variance of all heights. */
  lemma RootRegion(grid: seq<Sample>)
    requires |grid| > 0
    ensures var r := Root(grid);
      (exists i :: 0 <= i < |grid| && grid[i].x == r.xr.lo) && (exists i :: 0 <= i < |grid| && grid[i].x == r.xr.hi) &&
      (exists i :: 0 <= i < |grid| && grid[i].y == r.yr.lo) && (exists i :: 0 <= i < |grid| && grid[i].y == r.yr.hi) &&
      (exists i :: 0 <= i < |grid| && grid[i].z == r.zr.lo) && (exists i :: 0 <= i < |grid| && grid[i].z == r.zr.hi) &&
      (forall i :: 0 <= i < |grid| ==>
        r.xr.lo <= grid[i].x <= r.xr.hi && r.yr.lo <= grid[i].y <= r.yr.hi && r.zr.lo <= grid[i].z <= r.zr.hi) &&
      r.zr == GlobalZRange(grid) &&
      Variance(Zs(grid)) == Value(r.variance)
  {
    Columns(grid);
    var r := Root(grid);
    var xs, ys, zs := Xs(grid), Ys(grid), Zs(grid);
    var a :| 0 <= a < |xs| && xs[a] == r.xr.lo;
    var b :| 0 <= b < |xs| && xs[b] == r.xr.hi;
    var c :| 0 <= c < |ys| && ys[c] == r.yr.lo;
    var d :| 0 <= d < |ys| && ys[d] == r.yr.hi;
    var e :| 0 <= e < |zs| && zs[e] == r.zr.lo;
    var f :| 0 <= f < |zs| && zs[f] == r.zr.hi;
  }

  // ---------------------------------------------------------------- geometry

  /** Each quadrant is a well-formed rectangle inside its parent, bounded by the parent's midpoints. */
  lemma QuadrantsInside(b: Box)
    requires WellFormed(b)
    ensures forall k :: 0 <= k < 4 ==> WellFormed(Quadrants(b)[k]) && Inside(Quadrants(b)[k], b)
    ensures forall k :: 0 <= k < 4 ==>
      Quadrants(b)[k].xr == (if k % 2 == 0 then Interval(b.xr.lo, Midpoint(b.xr)) else Interval(Midpoint(b.xr), b.xr.hi)) &&
      Quadrants(b)[k].yr == (if k < 2 then Interval(b.yr.lo, Midpoint(b.yr)) else Interval(Midpoint(b.yr), b.yr.hi))
  {
  }

  /** The quadrant whose mask holds `(x, y)`: 0 lower-left, 1 lower-right, 2 upper-left, 3 upper-right. */
  function QuadrantOf(b: Box, x: real, y: real): (k: nat)
    ensures k < 4
  {
    (if x < Midpoint(b.xr) then 0 else 1) + (if y < Midpoint(b.yr) then 0 else 2)
  }

  /** The four half-open quadrant masks tile the parent's mask exactly: a point is
      in quadrant `k` iff it is in the parent and `k` is its quadrant, so it is in
      exactly one quadrant when it is in the parent and in none otherwise. */
  lemma QuadrantsTile(b: Box, x: real, y: real)
    requires WellFormed(b)
    ensures forall k :: 0 <= k < 4 ==>
      (InMask(x, y, Quadrants(b)[k]) <==> InMask(x, y, b) && k == QuadrantOf(b, x, y))
  {
  }

  /** The closed quadrants cover the closed parent and nothing outside it. */
  lemma QuadrantsCoverClosed(b: Box, x: real, y: real)
    requires WellFormed(b)
    ensures InClosed(x, y, b) <==> exists k :: 0 <= k < 4 && InClosed(x, y, Quadrants(b)[k])
  {
    var q := Quadrants(b);
    if InClosed(x, y, b) {
      var k := (if x <= Midpoint(b.xr) then 0 else 1) + (if y <= Midpoint(b.yr) then 0 else 2);
      assert InClosed(x, y, q[k]);
    }
  }

  // ---------------------------------------------------------------- split rule

  /** A mask's height list is empty exactly when no grid node lies in the mask. */
  lemma {:induction false} MaskedHeightsNonEmpty(grid: seq<Sample>, b: Box)
    ensures |MaskedHeights(grid, b)| > 0 <==> exists i :: 0 <= i < |grid| && InMask(grid[i].x, grid[i].y, b)
  {
    if grid != [] {
      MaskedHeightsNonEmpty(grid[1..], b);
      assert forall i :: 1 <= i < |grid| ==> grid[1..][i - 1] == grid[i];
    }
  }

  /** Over the reals the float test `parent / avg < 1` is `parent < avg`, provided the
      average is a number: a zero average makes the ratio infinite or NaN. */
  lemma RatioTest(parent: real, avg: Measure)
    requires parent >= 0.0
    requires avg.Value? ==> avg.v >= 0.0
    ensures RatioBelowOne(parent, avg) <==> avg.Value? && parent < avg.v
  {
  }

  /** A region splits iff all four quadrant masks hold a grid node (otherwise a
      quadrant variance is NaN and so is their mean) and its own variance is below
      the mean of the four quadrant variances. */
  lemma SplitRule(grid: seq<Sample>, r: Region)
    requires r.variance >= 0.0
    ensures Average(QuadrantVariances(grid, r)).Value? <==>
      forall k :: 0 <= k < 4 ==> |MaskedHeights(grid, Quadrants(BoxOf(r))[k])| > 0
    ensures ShouldSplit(grid, r) <==>
      Average(QuadrantVariances(grid, r)).Value? && r.variance < Average(QuadrantVariances(grid, r)).v
  {
    var vs := QuadrantVariances(grid, r);
    var avg := Average(vs);
    AverageDefined(vs);
    assert forall k :: 0 <= k < 4 ==> vs[k] in vs;
    forall m <- vs ensures m.Value? ==> m.v >= 0.0 {
    }
    if avg.Value? {
      AverageNonNegative(vs);
    }
    RatioTest(r.variance, avg);
  }

  // ---------------------------------------------------------------- order and count

  lemma ConcatSnoc<T>(x: seq<T>, y: seq<T>, z: seq<T>)
    ensures (x + y) + z == x + (y + z)
  {
  }

  /** The next generation of a concatenation is the concatenation of the next
      generations: regions keep their relative order. */
  lemma {:induction false} GenerationAppend(grid: seq<Sample>, a: seq<Region>, b: seq<Region>)
    requires |grid| > 0
    ensures Generation(grid, a + b) == Generation(grid, a) + Generation(grid, b)
    decreases |b|
  {
    if b == [] {
      assert a + b == a;
    } else {
      var b', z := b[..|b| - 1], b[|b| - 1];
      assert (a + b)[..|a + b| - 1] == a + b';
      assert (a + b)[|a + b| - 1] == z;
      assert Generation(grid, a + b) == Generation(grid, a + b') + Step(grid, z);
      GenerationAppend(grid, a, b');
      assert Generation(grid, b) == Generation(grid, b') + Step(grid, z);
      ConcatSnoc(Generation(grid, a), Generation(grid, b'), Step(grid, z));
    }
  }

  lemma GenerationSingle(grid: seq<Sample>, r: Region)
    requires |grid| > 0
    ensures Generation(grid, [r]) == Step(grid, r)
  {
  }

  /** Region `i` is replaced in place: by itself when frozen, by its children in the
      order lower-left, lower-right, upper-left, upper-right when split. */
  lemma GenerationAt(grid: seq<Sample>, rs: seq<Region>, i: nat)
    requires |grid| > 0 && i < |rs|
    ensures Generation(grid, rs) ==
      Generation(grid, rs[..i]) + Step(grid, rs[i]) + Generation(grid, rs[i + 1..])
  {
    assert rs == rs[..i] + [rs[i]] + rs[i + 1..];
    GenerationAppend(grid, rs[..i] + [rs[i]], rs[i + 1..]);
    GenerationAppend(grid, rs[..i], [rs[i]]);
    GenerationSingle(grid, rs[i]);
  }

  /** How many regions of `rs` split. */
  function SplitCount(grid: seq<Sample>, rs: seq<Region>): nat
  {
    if rs == [] then 0
    else SplitCount(grid, rs[..|rs| - 1]) + (if ShouldSplit(grid, rs[|rs| - 1]) then 1 else 0)
  }

  /** Every split adds three regions: new count = old count + 3 * splits. */
  lemma {:induction false} GenerationLength(grid: seq<Sample>, rs: seq<Region>)
    requires |grid| > 0
    ensures |Generation(grid, rs)| == |rs| + 3 * SplitCount(grid, rs)
    ensures SplitCount(grid, rs) <= |rs|
  {
    if rs != [] {
      GenerationLength(grid, rs[..|rs| - 1]);
    }
  }

  function Pow4(n: nat): nat
  {
    if n == 0 then 1 else 4 * Pow4(n - 1)
  }

  lemma QuadrupleBound(m: nat, a: nat, p: nat)
    requires m <= a * p
    ensures 4 * m <= a * (4 * p)
  {
  }

  /** The count never decreases and at most quadruples per generation. */
  lemma RefineLength(grid: seq<Sample>, rs: seq<Region>, n: nat)
    requires |grid| > 0
    ensures |rs| <= |Refine(grid, rs, n)| <= |rs| * Pow4(n)
  {
    var k := 0;
    while k < n
      invariant k <= n
      invariant |rs| <= |Refine(grid, rs, k)| <= |rs| * Pow4(k)
    {
      var prev := Refine(grid, rs, k);
      GenerationLength(grid, prev);
      QuadrupleBound(|prev|, |rs|, Pow4(k));
      k := k + 1;
    }
  }

  /** The builder's output has between 1 and 4^maxLevel regions. */
  lemma BuildLength(grid: seq<Sample>, maxLevel: nat)
    requires |grid| > 0
    ensures 1 <= |Refine(grid, [Root(grid)], maxLevel)| <= Pow4(maxLevel)
  {
    RefineLength(grid, [Root(grid)], maxLevel);
  }

  // ---------------------------------------------------------------- frozen regions

  /** A region that does not split is carried into the next generation unchanged. */
  lemma {:induction false} FrozenCarried(grid: seq<Sample>, rs: seq<Region>, r: Region)
    requires |grid| > 0
    requires r in rs && !ShouldSplit(grid, r)
    ensures r in Generation(grid, rs)
  {
    var last := rs[|rs| - 1];
    if r != last {
      assert rs == rs[..|rs| - 1] + [last];
      FrozenCarried(grid, rs[..|rs| - 1], r);
    }
  }

  /** The split test depends only on the region record and the fixed grid, so a
      region that is frozen once stays, unchanged, in every later generation. */
  lemma FrozenPersists(grid: seq<Sample>, rs: seq<Region>, r: Region, n: nat)
    requires |grid| > 0
    requires r in rs && !ShouldSplit(grid, r)
    ensures r in Refine(grid, rs, n)
  {
    var k := 0;
    while k < n
      invariant k <= n
      invariant r in Refine(grid, rs, k)
    {
      FrozenCarried(grid, Refine(grid, rs, k), r);
      k := k + 1;
    }
  }

  // ---------------------------------------------------------------- partition

  /** Every region is a well-formed rectangle inside `root` with a non-negative variance. */
  predicate AllWithin(rs: seq<Region>, root: Box)
  {
    forall r <- rs :: WellFormed(BoxOf(r)) && Inside(BoxOf(r), root) && r.variance >= 0.0
  }

  lemma {:induction false} GenerationWithin(grid: seq<Sample>, rs: seq<Region>, root: Box)
    requires |grid| > 0
    requires AllWithin(rs, root)
    ensures AllWithin(Generation(grid, rs), root)
  {
    if rs != [] {
      var r := rs[|rs| - 1];
      GenerationWithin(grid, rs[..|rs| - 1], root);
      if ShouldSplit(grid, r) {
        QuadrantsInside(BoxOf(r));
        var cs := Children(grid, r);
        forall c <- cs ensures WellFormed(BoxOf(c)) && Inside(BoxOf(c), root) && c.variance >= 0.0 {
          var k :| 0 <= k < 4 && cs[k] == c;
          assert QuadrantVariances(grid, r)[k] in QuadrantVariances(grid, r);
        }
      }
    }
  }

  /** Every generation of the builder stays inside the root rectangle. */
  lemma RefineWithin(grid: seq<Sample>, n: nat)
    requires |grid| > 0
    ensures AllWithin(Refine(grid, [Root(grid)], n), BoxOf(Root(grid)))
  {
    var root := Root(grid);
    RootRegion(grid);
    var k := 0;
    while k < n
      invariant k <= n
      invariant AllWithin(Refine(grid, [root], k), BoxOf(root))
    {
      GenerationWithin(grid, Refine(grid, [root], k), BoxOf(root));
      k := k + 1;
    }
  }

  function Hit(r: Region, x: real, y: real): nat
  {
    if InMask(x, y, BoxOf(r)) then 1 else 0
  }

  /** How many regions of `rs` hold `(x, y)` in their half-open mask. */
  function CoverCount(rs: seq<Region>, x: real, y: real): nat
  {
    if rs == [] then 0 else CoverCount(rs[..|rs| - 1], x, y) + Hit(rs[|rs| - 1], x, y)
  }

  lemma {:induction false} CoverCountAppend(a: seq<Region>, b: seq<Region>, x: real, y: real)
    ensures CoverCount(a + b, x, y) == CoverCount(a, x, y) + CoverCount(b, x, y)
    decreases |b|
  {
    if b == [] {
      assert a + b == a;
    } else {
      var b' := b[..|b| - 1];
      assert (a + b)[..|a + b| - 1] == a + b';
      CoverCountAppend(a, b', x, y);
    }
  }

  /** One region's step covers exactly the points the region covered. */
  lemma StepCover(grid: seq<Sample>, r: Region, x: real, y: real)
    requires |grid| > 0 && WellFormed(BoxOf(r))
    ensures CoverCount(Step(grid, r), x, y) == if InMask(x, y, BoxOf(r)) then 1 else 0
  {
    if ShouldSplit(grid, r) {
      var cs := Children(grid, r);
      QuadrantsTile(BoxOf(r), x, y);
      assert cs[..1][..0] == [] && cs[..2][..1] == cs[..1] && cs[..3][..2] == cs[..2] && cs[..4] == cs;
      assert CoverCount(cs[..1], x, y) == Hit(cs[0], x, y);
      assert CoverCount(cs[..2], x, y) == Hit(cs[0], x, y) + Hit(cs[1], x, y);
      assert CoverCount(cs[..3], x, y) == Hit(cs[0], x, y) + Hit(cs[1], x, y) + Hit(cs[2], x, y);
      assert CoverCount(cs, x, y) == Hit(cs[0], x, y) + Hit(cs[1], x, y) + Hit(cs[2], x, y) + Hit(cs[3], x, y);
    } else {
      assert [r][..0] == [];
    }
  }

  lemma {:induction false} GenerationCover(grid: seq<Sample>, rs: seq<Region>, root: Box, x: real, y: real)
    requires |grid| > 0 && AllWithin(rs, root)
    ensures CoverCount(Generation(grid, rs), x, y) == CoverCount(rs, x, y)
  {
    if rs != [] {
      var r := rs[|rs| - 1];
      GenerationCover(grid, rs[..|rs| - 1], root, x, y);
      CoverCountAppend(Generation(grid, rs[..|rs| - 1]), Step(grid, r), x, y);
      StepCover(grid, r, x, y);
    }
  }

  /** Every generation partitions the root rectangle: each point of the root's
      half-open mask lies in the mask of exactly one region, and no point outside
      it lies in any. */
  lemma Partition(grid: seq<Sample>, n: nat, x: real, y: real)
    requires |grid| > 0
    ensures CoverCount(Refine(grid, [Root(grid)], n), x, y) ==
      if InMask(x, y, BoxOf(Root(grid))) then 1 else 0
  {
    var root := Root(grid);
    assert [root][..0] == [];
    var k := 0;
    while k < n
      invariant k <= n
      invariant CoverCount(Refine(grid, [root], k), x, y) == if InMask(x, y, BoxOf(root)) then 1 else 0
    {
      RefineWithin(grid, k);
      GenerationCover(grid, Refine(grid, [root], k), BoxOf(root), x, y);
      k := k + 1;
    }
  }

  /** Grid nodes on the top edge `x = max X` or `y = max Y` fall in no quadrant
      mask of any region the builder ever tests, because the masks are open above. */
  lemma MaxEdgeExcluded(grid: seq<Sample>, n: nat, r: Region, k: nat, i: nat)
    requires |grid| > 0 && k < 4 && i < |grid|
    requires r in Refine(grid, [Root(grid)], n)
    requires grid[i].x == Root(grid).xr.hi || grid[i].y == Root(grid).yr.hi
    ensures !InMask(grid[i].x, grid[i].y, Quadrants(BoxOf(r))[k])
  {
    RefineWithin(grid, n);
    QuadrantsInside(BoxOf(r));
  }

  // ---------------------------------------------------------------- flat surface

  lemma {:induction false} MaskedHeightsConstant(grid: seq<Sample>, b: Box, c: real)
    requires forall i :: 0 <= i < |grid| ==> grid[i].z == c
    ensures forall i :: 0 <= i < |MaskedHeights(grid, b)| ==> MaskedHeights(grid, b)[i] == c
  {
    if grid != [] {
      MaskedHeightsConstant(grid[1..], b, c);
    }
  }

  /** On a flat surface every quadrant variance is 0 or NaN, so no region ever splits. */
  lemma FlatNeverSplits(grid: seq<Sample>, c: real, r: Region)
    requires forall i :: 0 <= i < |grid| ==> grid[i].z == c
    ensures !ShouldSplit(grid, r)
  {
    var q := Quadrants(BoxOf(r));
    var vs := QuadrantVariances(grid, r);
    forall k | 0 <= k < 4 ensures vs[k] == NaN || vs[k] == Value(0.0) {
      MaskedHeightsConstant(grid, q[k], c);
      if |MaskedHeights(grid, q[k])| > 0 {
        ConstantVariance(MaskedHeights(grid, q[k]), c);
      }
    }
    var avg := Average(vs);
    AverageDefined(vs);
    if avg.Value? {
      assert forall k :: 0 <= k < 4 ==> vs[k] in vs;
      ConstantSum(Values(vs), 0.0);
    }
  }

  /** On a flat surface the builder returns the single root region, whatever the depth. */
  lemma FlatSurface(grid: seq<Sample>, c: real, n: nat)
    requires |grid| > 0
    requires forall i :: 0 <= i < |grid| ==> grid[i].z == c
    ensures Refine(grid, [Root(grid)], n) == [Root(grid)]
  {
    var root := Root(grid);
    FlatNeverSplits(grid, c, root);
    GenerationSingle(grid, root);
    var k := 0;
    while k < n
      invariant k <= n
      invariant Refine(grid, [root], k) == [root]
    {
      k := k + 1;
    }
  }
}
