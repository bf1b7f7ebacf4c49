/** The QVT builder as the source runs it: a loop over generations that builds a
    fresh region list by appending, with an inner loop over the regions and a
    loop over each region's four quadrants. */
module QvtBuilder {
  import opened Numerics
  import opened Qvt
  import opened QvtProperties

  /** The variances of the four quadrant masks of `r`, one mask at a time. */
  method MeasureQuadrants(grid: seq<Sample>, r: Region) returns (vs: seq<Measure>)
    ensures vs == QuadrantVariances(grid, r)
  {
    var quads := Quadrants(BoxOf(r));
    vs := [];
    var k := 0;
    while k < 4
      invariant 0 <= k <= 4
      invariant |vs| == k
      invariant forall j :: 0 <= j < k ==> vs[j] == Variance(MaskedHeights(grid, quads[j]))
    {
      vs := vs + [Variance(MaskedHeights(grid, quads[k]))];
      k := k + 1;
    }
  }

  /** One region's turn in a generation: the ratio test, then either its four
      children (each variance recomputed from the same half-open mask) or the
      region itself, appended to `next`. */
  method AppendStep(grid: seq<Sample>, r: Region, next: seq<Region>) returns (next': seq<Region>)
    requires |grid| > 0
    ensures next' == next + Step(grid, r)
  {
    next' := next;
    var vs := MeasureQuadrants(grid, r);
    if RatioBelowOne(r.variance, Average(vs)) {
      var quads := Quadrants(BoxOf(r));
      var k := 0;
      while k < 4
        invariant 0 <= k <= 4
        invariant next' == next + Children(grid, r)[..k]
      {
        var v := Variance(MaskedHeights(grid, quads[k]));
        next' := next' + [Region(quads[k].xr, quads[k].yr, GlobalZRange(grid), v.v)];
        k := k + 1;
      }
    } else {
      next' := next' + [r];
    }
  }

  /** One generation: a fresh list built by appending each region's step in order. */
  method NextGeneration(grid: seq<Sample>, regions: seq<Region>) returns (next: seq<Region>)
    requires |grid| > 0
    ensures next == Generation(grid, regions)
  {
    next := [];
    var i := 0;
    while i < |regions|
      invariant 0 <= i <= |regions|
      invariant next == Generation(grid, regions[..i])
    {
      assert regions[..i + 1][..i] == regions[..i];
      next := AppendStep(grid, regions[i], next);
      i := i + 1;
    }
    assert regions[..|regions|] == regions;
  }

  lemma BuildGuarantees(grid: seq<Sample>, n: nat)
    requires |grid| > 0
    ensures 1 <= |Refine(grid, [Root(grid)], n)| <= Pow4(n)
    ensures AllWithin(Refine(grid, [Root(grid)], n), BoxOf(Root(grid)))
    ensures forall x: real, y: real ::
      CoverCount(Refine(grid, [Root(grid)], n), x, y) == if InMask(x, y, BoxOf(Root(grid))) then 1 else 0
  {
    BuildLength(grid, n);
    RefineWithin(grid, n);
    forall x: real, y: real
      ensures CoverCount(Refine(grid, [Root(grid)], n), x, y) == if InMask(x, y, BoxOf(Root(grid))) then 1 else 0
    {
      Partition(grid, n, x, y);
    }
  }

  /** The builder: `maxLevel` generations starting from the root region. */
  method BuildQvt(grid: seq<Sample>, maxLevel: nat) returns (regions: seq<Region>)
    requires |grid| > 0
    ensures regions == Refine(grid, [Root(grid)], maxLevel)
    ensures maxLevel == 0 ==> regions == [Root(grid)]
    ensures 1 <= |regions| <= Pow4(maxLevel)
    ensures AllWithin(regions, BoxOf(Root(grid)))
    ensures forall x: real, y: real ::
      CoverCount(regions, x, y) == if InMask(x, y, BoxOf(Root(grid))) then 1 else 0
  {
    var root := Root(grid);
    regions := [root];
    // `done` counts the generations completed; the source's `level` is `done + 1`
    var done: nat := 0;
    if maxLevel == 0 {
      // no generation runs: the result is the root region alone
      assert regions == [Root(grid)];
    }
    while done < maxLevel
      invariant done <= maxLevel
      invariant regions == Refine(grid, [root], done)
    {
      regions := NextGeneration(grid, regions);
      done := done + 1;
    }
    BuildGuarantees(grid, maxLevel);
  }

  /** `QVT(X, Y, Z, max_level)`: the minima and maxima of an empty grid raise; a
      negative `max_level` runs no generation. */
  method QuadVarianceTree(grid: seq<Sample>, maxLevel: int) returns (res: Result<seq<Region>>)
    ensures res.Failure? <==> |grid| == 0
    ensures res.Ok? ==> res.value == Refine(grid, [Root(grid)], if maxLevel < 0 then 0 else maxLevel)
    ensures res.Ok? && maxLevel <= 0 ==> res.value == [Root(grid)]
  {
    if |grid| == 0 {
      return Failure("the range of an empty grid is undefined");
    }
    var levels: nat := if maxLevel < 0 then 0 else maxLevel;
    var regions := BuildQvt(grid, levels);
    res := Ok(regions);
  }
}
