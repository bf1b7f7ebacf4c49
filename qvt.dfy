/** The quad variance tree (QVT) builder: a level-by-level refinement of a flat
    list of rectangular regions of the height grid. Each generation bisects
    every region at its midpoints, measures the height variance in each of the
    four quadrants, and replaces the region by its quadrants when its own
    variance divided by the mean quadrant variance is below one; otherwise the
    region is carried over unchanged. */
module Qvt {
  import opened Numerics

  /** A closed range `(lo, hi)` as the source stores it in a tuple. */
  datatype Interval = Interval(lo: real, hi: real)

  /** One node of the evaluation grid: planar coordinates and the surface height there. */
  datatype Sample = Sample(x: real, y: real, z: real)

  /** An axis-aligned rectangle in the plane. */
  datatype Box = Box(xr: Interval, yr: Interval)

  /** A region record `(xrange, yrange, zrange, variance)`. */
  datatype Region = Region(xr: Interval, yr: Interval, zr: Interval, variance: real)

  function BoxOf(r: Region): Box
  {
    Box(r.xr, r.yr)
  }

  /** The grid's x coordinates, in grid order. */
  function Xs(grid: seq<Sample>): (xs: seq<real>)
    ensures |xs| == |grid|
  {
    if grid == [] then [] else [grid[0].x] + Xs(grid[1..])
  }

  /** The grid's y coordinates, in grid order. */
  function Ys(grid: seq<Sample>): (ys: seq<real>)
    ensures |ys| == |grid|
  {
    if grid == [] then [] else [grid[0].y] + Ys(grid[1..])
  }

  /** The grid's heights, in grid order. */
  function Zs(grid: seq<Sample>): (zs: seq<real>)
    ensures |zs| == |grid|
  {
    if grid == [] then [] else [grid[0].z] + Zs(grid[1..])
  }

  /** The global height range `(min Z, max Z)`. */
  function GlobalZRange(grid: seq<Sample>): Interval
    requires |grid| > 0
  {
    Interval(MinOf(Zs(grid)), MaxOf(Zs(grid)))
  }

  /** The generation-0 region: the bounding box of the grid, the global height
      range and the global variance. */
  function Root(grid: seq<Sample>): Region
    requires |grid| > 0
  {
    Region(Interval(MinOf(Xs(grid)), MaxOf(Xs(grid))), Interval(MinOf(Ys(grid)), MaxOf(Ys(grid))),
           GlobalZRange(grid), Variance(Zs(grid)).v)
  }

  function Midpoint(i: Interval): real
  {
    (i.lo + i.hi) / 2.0
  }

  /** The four quadrants of `b`, split at its midpoints, in the order
      lower-left, lower-right, upper-left, upper-right. */
  function Quadrants(b: Box): (q: seq<Box>)
    ensures |q| == 4
  {
    var xm, ym := Midpoint(b.xr), Midpoint(b.yr);
    [ Box(Interval(b.xr.lo, xm), Interval(b.yr.lo, ym)),
      Box(Interval(xm, b.xr.hi), Interval(b.yr.lo, ym)),
      Box(Interval(b.xr.lo, xm), Interval(ym, b.yr.hi)),
      Box(Interval(xm, b.xr.hi), Interval(ym, b.yr.hi)) ]
  }

  /** The variance mask: closed below and open above on both axes. */
  predicate InMask(x: real, y: real, b: Box)
  {
    b.xr.lo <= x < b.xr.hi && b.yr.lo <= y < b.yr.hi
  }

  /** `Z[mask]`: the heights of the grid nodes inside the mask of `b`, in grid order. */
  function MaskedHeights(grid: seq<Sample>, b: Box): seq<real>
  {
    if grid == [] then []
    else
      var rest := MaskedHeights(grid[1..], b);
      if InMask(grid[0].x, grid[0].y, b) then [grid[0].z] + rest else rest
  }

  /** The variance of the heights in each quadrant's mask, as the split test sees them. */
  function QuadrantVariances(grid: seq<Sample>, r: Region): (vs: seq<Measure>)
    ensures |vs| == 4
  {
    var q := Quadrants(BoxOf(r));
    [ Variance(MaskedHeights(grid, q[0])), Variance(MaskedHeights(grid, q[1])),
      Variance(MaskedHeights(grid, q[2])), Variance(MaskedHeights(grid, q[3])) ]
  }

  /** `parent / avg < 1` on floats: false when `avg` is NaN, and false when `avg` is
      zero, since the ratio is then infinite (or NaN for 0 / 0). */
  predicate RatioBelowOne(parent: real, avg: Measure)
  {
    avg.Value? && avg.v != 0.0 && parent / avg.v < 1.0
  }

  /** The split test of one generation. */
  predicate ShouldSplit(grid: seq<Sample>, r: Region)
  {
    RatioBelowOne(r.variance, Average(QuadrantVariances(grid, r)))
  }

  /** The region records that replace a split region: each quadrant's box, the
      global height range, and the quadrant's variance. */
  function Children(grid: seq<Sample>, r: Region): (cs: seq<Region>)
    requires |grid| > 0 && ShouldSplit(grid, r)
    ensures |cs| == 4
    ensures forall k :: 0 <= k < 4 ==>
      BoxOf(cs[k]) == Quadrants(BoxOf(r))[k] && cs[k].zr == GlobalZRange(grid) &&
      Value(cs[k].variance) == QuadrantVariances(grid, r)[k]
  {
    var q, vs, zr := Quadrants(BoxOf(r)), QuadrantVariances(grid, r), GlobalZRange(grid);
    AverageDefined(vs);
    assert vs[0] in vs && vs[1] in vs && vs[2] in vs && vs[3] in vs;
    [ Region(q[0].xr, q[0].yr, zr, vs[0].v), Region(q[1].xr, q[1].yr, zr, vs[1].v),
      Region(q[2].xr, q[2].yr, zr, vs[2].v), Region(q[3].xr, q[3].yr, zr, vs[3].v) ]
  }

  /** What one region contributes to the next generation. */
  function Step(grid: seq<Sample>, r: Region): seq<Region>
    requires |grid| > 0
  {
    if ShouldSplit(grid, r) then Children(grid, r) else [r]
  }

  /** The next generation: every region's contribution, concatenated in list order. */
  function Generation(grid: seq<Sample>, rs: seq<Region>): seq<Region>
    requires |grid| > 0
  {
    if rs == [] then [] else Generation(grid, rs[..|rs| - 1]) + Step(grid, rs[|rs| - 1])
  }

  /** The region list after `n` generations starting from `rs`. */
  function Refine(grid: seq<Sample>, rs: seq<Region>, n: nat): seq<Region>
    requires |grid| > 0
  {
    if n == 0 then rs else Generation(grid, Refine(grid, rs, n - 1))
  }
}
