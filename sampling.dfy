/** Measurement-point selection: the prioritized regions are visited from the
    back of the list, and each receives `int(N * variance / last variance)`
    points drawn uniformly inside its x, y and z ranges. */
module Sampling {
  import opened Numerics
  import opened Qvt
  import opened Prioritize

  /** A measurement: planar position and measured height. */
  datatype Point = Point(x: real, y: real, z: real)

  /** `v` lies between `a` and `b`; a uniform draw accepts its bounds in either order. */
  predicate Between(v: real, a: real, b: real)
  {
    a <= v <= b || b <= v <= a
  }

  /** A point that `np.random.uniform` may draw for `r`, axis by axis. */
  predicate DrawnIn(p: Point, r: Region)
  {
    Between(p.x, r.xr.lo, r.xr.hi) && Between(p.y, r.yr.lo, r.yr.hi) && Between(p.z, r.zr.lo, r.zr.hi)
  }

  /** Variances are never negative (they come from `np.var`). */
  predicate NonNegativeVariances(rs: seq<Region>)
  {
    forall i :: 0 <= i < |rs| ==> rs[i].variance >= 0.0
  }

  /** `s[::-1]`. */
  function Reverse<T>(s: seq<T>): (r: seq<T>)
    ensures |r| == |s|
    ensures forall i :: 0 <= i < |s| ==> r[i] == s[|s| - 1 - i]
  {
    if s == [] then [] else Reverse(s[1..]) + [s[0]]
  }

  lemma ReverseNonNegative(rs: seq<Region>)
    requires NonNegativeVariances(rs)
    ensures NonNegativeVariances(Reverse(rs))
  {
  }

  /** `int(n * v / vlast)`: truncation toward zero, which is the floor of the
      non-negative ratio. */
  function PointCount(n: nat, v: real, vlast: real): (c: nat)
    requires v >= 0.0 && vlast > 0.0
    ensures c as real <= n as real * v / vlast < c as real + 1.0
  {
    var q := n as real * v / vlast;
    assert q >= 0.0 by {
      assert n as real * v >= 0.0;
    }
    q.Floor
  }

  /** The region whose variance is the divisor receives exactly `n` points. */
  lemma PointCountOfDivisor(n: nat, v: real)
    requires v > 0.0
    ensures PointCount(n, v, v) == n
  {
    assert n as real * v / v == n as real;
  }

  /** A region at least as variable as the divisor receives at least `n` points. */
  lemma PointCountAtLeast(n: nat, v: real, vlast: real)
    requires vlast > 0.0 && v >= vlast
    ensures PointCount(n, v, vlast) >= n
  {
    assert n as real * v >= n as real * vlast by {
      assert n as real * (v - vlast) >= 0.0;
    }
    assert n as real * v / vlast >= n as real * vlast / vlast;
    assert n as real * vlast / vlast == n as real;
  }

  /** The number of points the regions of `order` receive altogether. */
  function TotalCount(order: seq<Region>, n: nat, vlast: real): nat
    requires NonNegativeVariances(order) && vlast > 0.0
  {
    if order == [] then 0
    else TotalCount(order[..|order| - 1], n, vlast) + PointCount(n, order[|order| - 1].variance, vlast)
  }

  /** `points` is the concatenation, region by region in the order `order`, of blocks
      holding exactly each region's count of points, every point drawn in its region. */
  predicate Fits(points: seq<Point>, order: seq<Region>, n: nat, vlast: real)
    requires NonNegativeVariances(order) && vlast > 0.0
    decreases |order|
  {
    if order == [] then points == []
    else
      var r := order[|order| - 1];
      var c := PointCount(n, r.variance, vlast);
      c <= |points| &&
      (forall i :: |points| - c <= i < |points| ==> DrawnIn(points[i], r)) &&
      Fits(points[..|points| - c], order[..|order| - 1], n, vlast)
  }

  /** The points `select_measurement_points` can return for `regions` and budget `n`:
      none for no regions; otherwise the blocks of the regions visited back to front,
      each of the size its variance relative to the last region's variance gives. */
  predicate Allocated(points: seq<Point>, regions: seq<Region>, n: nat)
  {
    NonNegativeVariances(regions) &&
    if regions == [] then points == []
    else
      var vlast := regions[|regions| - 1].variance;
      ReverseNonNegative(regions);
      vlast > 0.0 && Fits(points, Reverse(regions), n, vlast)
  }

  /** The points drawn and the visiting order, as the source returns them. */
  datatype Selection = Selection(points: seq<Point>, order: seq<Region>)

  /** `c` points drawn uniformly inside `r`, one coordinate array per axis stacked
      column by column; the random source is a nondeterministic choice. */
  method DrawUniform(r: Region, c: nat) returns (block: seq<Point>)
    ensures |block| == c
    ensures forall k :: 0 <= k < c ==> DrawnIn(block[k], r)
  {
    block := [];
    while |block| < c
      invariant |block| <= c
      invariant forall k :: 0 <= k < |block| ==> DrawnIn(block[k], r)
    {
      assert DrawnIn(Point(r.xr.lo, r.yr.lo, r.zr.lo), r);
      var p: Point :| DrawnIn(p, r);
      block := block + [p];
    }
  }

  /** `select_measurement_points`. The counts divide by the variance of the last
      region, which is also the first visited: when it is zero the first count is
      0 / 0 and the conversion to an integer raises before anything is drawn. */
  method SelectMeasurementPoints(regions: seq<Region>, n: nat) returns (res: Result<Selection>)
    requires NonNegativeVariances(regions)
    ensures res.Failure? <==> |regions| > 0 && regions[|regions| - 1].variance == 0.0
    ensures res.Ok? ==> res.value.order == Reverse(regions) && Allocated(res.value.points, regions, n)
  {
    var order := Reverse(regions);
    var points: seq<Point> := [];
    if regions == [] {
      return Ok(Selection(points, order));
    }
    var vlast := regions[|regions| - 1].variance;
    if vlast == 0.0 {
      return Failure("point count divides by a zero variance");
    }
    ReverseNonNegative(regions);
    var i := 0;
    while i < |order|
      invariant 0 <= i <= |order|
      invariant Fits(points, order[..i], n, vlast)
    {
      var r := order[i];
      var c := PointCount(n, r.variance, vlast);
      var block := DrawUniform(r, c);
      ghost var before := points;
      points := points + block;
      assert order[..i + 1][..i] == order[..i];
      assert points[..|points| - c] == before;
      i := i + 1;
    }
    assert order[..|order|] == order;
    res := Ok(Selection(points, order));
  }

  /** The size of a drawn set is the sum of the counts. */
  lemma {:induction false} FitsLength(points: seq<Point>, order: seq<Region>, n: nat, vlast: real)
    requires NonNegativeVariances(order) && vlast > 0.0
    requires Fits(points, order, n, vlast)
    ensures |points| == TotalCount(order, n, vlast)
    decreases |order|
  {
    if order != [] {
      var c := PointCount(n, order[|order| - 1].variance, vlast);
      FitsLength(points[..|points| - c], order[..|order| - 1], n, vlast);
    }
  }

  /** Every drawn point lies in one of the regions visited. */
  lemma {:induction false} FitsInside(points: seq<Point>, order: seq<Region>, n: nat, vlast: real)
    requires NonNegativeVariances(order) && vlast > 0.0
    requires Fits(points, order, n, vlast)
    ensures forall i :: 0 <= i < |points| ==> exists k :: 0 <= k < |order| && DrawnIn(points[i], order[k])
    decreases |order|
  {
    if order != [] {
      var last := |order| - 1;
      var c := PointCount(n, order[last].variance, vlast);
      var front := points[..|points| - c];
      FitsInside(front, order[..last], n, vlast);
      forall i | 0 <= i < |points| ensures exists k :: 0 <= k < |order| && DrawnIn(points[i], order[k]) {
        if i < |points| - c {
          assert points[i] == front[i];
          var k :| 0 <= k < last && DrawnIn(front[i], order[..last][k]);
          assert order[..last][k] == order[k];
        } else {
          assert DrawnIn(points[i], order[last]);
        }
      }
    }
  }

  /** No region's count exceeds the total. */
  lemma {:induction false} TotalCountCovers(order: seq<Region>, n: nat, vlast: real, k: nat)
    requires NonNegativeVariances(order) && vlast > 0.0
    requires k < |order|
    ensures PointCount(n, order[k].variance, vlast) <= TotalCount(order, n, vlast)
  {
    if k < |order| - 1 {
      TotalCountCovers(order[..|order| - 1], n, vlast, k);
    }
  }

  /** When every region's count is at least `m`, the total is at least `m` per region. */
  lemma {:induction false} TotalCountAtLeast(order: seq<Region>, n: nat, vlast: real, m: nat)
    requires NonNegativeVariances(order) && vlast > 0.0
    requires forall k :: 0 <= k < |order| ==> PointCount(n, order[k].variance, vlast) >= m
    ensures TotalCount(order, n, vlast) >= m * |order|
  {
    if order != [] {
      TotalCountAtLeast(order[..|order| - 1], n, vlast, m);
    }
  }

  /** A non-empty allocation draws `TotalCount` points, at least the `n` given to the
      last region, and each of them inside some region. */
  lemma AllocatedSize(points: seq<Point>, regions: seq<Region>, n: nat)
    requires NonNegativeVariances(regions) && |regions| > 0
    requires Allocated(points, regions, n)
    ensures |points| == TotalCount(Reverse(regions), n, regions[|regions| - 1].variance)
    ensures |points| >= n
    ensures forall i :: 0 <= i < |points| ==> exists k :: 0 <= k < |regions| && DrawnIn(points[i], regions[k])
  {
    ReverseNonNegative(regions);
    var order := Reverse(regions);
    var vlast := regions[|regions| - 1].variance;
    FitsLength(points, order, n, vlast);
    TotalCountCovers(order, n, vlast, 0);
    PointCountOfDivisor(n, vlast);
    FitsInside(points, order, n, vlast);
    forall i | 0 <= i < |points| ensures exists k :: 0 <= k < |regions| && DrawnIn(points[i], regions[k]) {
      var k :| 0 <= k < |order| && DrawnIn(points[i], order[k]);
      assert order[k] == regions[|regions| - 1 - k];
    }
  }

  /** For a list in priority order the divisor is the smallest variance, so the last
      region gets exactly `n` points, every other at least `n`, and the set holds at
      least `n` points per region. */
  lemma DescendingAllocation(regions: seq<Region>, n: nat)
    requires NonNegativeVariances(regions) && Descending(regions)
    requires |regions| > 0 && regions[|regions| - 1].variance > 0.0
    ensures PointCount(n, regions[|regions| - 1].variance, regions[|regions| - 1].variance) == n
    ensures forall k :: 0 <= k < |regions| ==>
      PointCount(n, regions[k].variance, regions[|regions| - 1].variance) >= n
    ensures TotalCount(Reverse(regions), n, regions[|regions| - 1].variance) >= n * |regions|
  {
    var vlast := regions[|regions| - 1].variance;
    PointCountOfDivisor(n, vlast);
    forall k | 0 <= k < |regions| ensures PointCount(n, regions[k].variance, vlast) >= n {
      PointCountAtLeast(n, regions[k].variance, vlast);
    }
    ReverseNonNegative(regions);
    var order := Reverse(regions);
    forall k | 0 <= k < |order| ensures PointCount(n, order[k].variance, vlast) >= n {
      assert order[k] == regions[|regions| - 1 - k];
    }
    TotalCountAtLeast(order, n, vlast, n);
  }
}
