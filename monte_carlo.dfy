/** The Monte Carlo estimator: the RMS error of a drawn measurement set against the
    surface model, the search for the first run below an accuracy threshold, the
    closed region mask, and the fixed-budget and budget-sweep drivers. */
module MonteCarlo {
  import opened Numerics
  import opened Qvt
  import opened QvtProperties
  import opened Sampling

  /** Sum over the points of the squared residual `z - surface(x, y)`. */
  function SquaredResiduals(surface: (real, real) -> real, points: seq<Point>): (r: real)
    ensures r >= 0.0
  {
    if points == [] then 0.0
    else
      var d := points[0].z - surface(points[0].x, points[0].y);
      SquareSign(d);
      Square(d) + SquaredResiduals(surface, points[1..])
  }

  /** The surface model reproduces every measured height. */
  predicate Exact(surface: (real, real) -> real, points: seq<Point>)
  {
    forall i :: 0 <= i < |points| ==> points[i].z == surface(points[i].x, points[i].y)
  }

  /** `np.mean((z - surface(x, y))**2)`: NaN when there are no points. */
  function MeanSquareError(surface: (real, real) -> real, points: seq<Point>): (m: Measure)
    ensures m.Value? <==> |points| > 0
    ensures m.Value? ==> m.v >= 0.0
  {
    if |points| == 0 then NaN else Value(SquaredResiduals(surface, points) / |points| as real)
  }

  lemma {:induction false} SquaredResidualsZero(surface: (real, real) -> real, points: seq<Point>)
    ensures SquaredResiduals(surface, points) == 0.0 <==> Exact(surface, points)
  {
    if points != [] {
      SquaredResidualsZero(surface, points[1..]);
      var d := points[0].z - surface(points[0].x, points[0].y);
      SquareSign(d);
      if Exact(surface, points) {
        assert d == 0.0;
        forall i | 0 <= i < |points| - 1
          ensures points[1..][i].z == surface(points[1..][i].x, points[1..][i].y)
        {
          assert points[1..][i] == points[i + 1];
        }
      }
      if Exact(surface, points[1..]) && d == 0.0 {
        forall i | 0 <= i < |points| ensures points[i].z == surface(points[i].x, points[i].y) {
          if i > 0 {
            assert points[i] == points[1..][i - 1];
          }
        }
      }
    }
  }

  /** The error of a non-empty measurement set is zero exactly when the model
      reproduces every measured height. */
  lemma MeanSquareErrorZero(surface: (real, real) -> real, points: seq<Point>)
    requires |points| > 0
    ensures MeanSquareError(surface, points) == Value(0.0) <==> Exact(surface, points)
  {
    SquaredResidualsZero(surface, points);
  }

  /** `sqrt` is the non-negative square root on the non-negative reals. */
  ghost predicate IsSqrt(sqrt: real -> real)
  {
    forall x :: x >= 0.0 ==> sqrt(x) >= 0.0 && Square(sqrt(x)) == x
  }

  /** `calculate_RMS_error`: the square root of the mean square error; NaN for an
      empty measurement set, and the square root of NaN is NaN. */
  function RmsError(surface: (real, real) -> real, sqrt: real -> real, points: seq<Point>): (e: Measure)
    ensures e.Value? <==> |points| > 0
  {
    match MeanSquareError(surface, points)
    case NaN => NaN
    case Value(m) => Value(sqrt(m))
  }

  /** With a true square root, the RMS error squares to the mean square error and is
      zero exactly when every measured height matches the model. */
  lemma RmsErrorMeaning(surface: (real, real) -> real, sqrt: real -> real, points: seq<Point>)
    requires IsSqrt(sqrt) && |points| > 0
    ensures RmsError(surface, sqrt, points).v >= 0.0
    ensures Square(RmsError(surface, sqrt, points).v) == MeanSquareError(surface, points).v
    ensures RmsError(surface, sqrt, points) == Value(0.0) <==> Exact(surface, points)
  {
    MeanSquareErrorZero(surface, points);
    var m := MeanSquareError(surface, points).v;
    var e := sqrt(m);
    assert RmsError(surface, sqrt, points) == Value(e);
    assert e >= 0.0 && Square(e) == m;
    SquareSign(e);
  }

  /** A budget of at least one point on a non-empty region list always yields a
      numeric error. */
  lemma AllocatedErrorDefined(surface: (real, real) -> real, sqrt: real -> real,
                              points: seq<Point>, regions: seq<Region>, n: nat)
    requires NonNegativeVariances(regions) && |regions| > 0 && n > 0
    requires Allocated(points, regions, n)
    ensures RmsError(surface, sqrt, points).Value?
  {
    AllocatedSize(points, regions, n);
  }

  /** `result` is what `analyze_Monte_Carlo_results` returns: the 1-based position of
      the first error strictly below `threshold`, or -1 when there is none (a NaN is
      never below). */
  predicate FirstBelow(result: int, errors: seq<Measure>, threshold: real)
  {
    if result == -1 then forall i :: 0 <= i < |errors| ==> !Below(errors[i], threshold)
    else
      1 <= result <= |errors| && Below(errors[result - 1], threshold) &&
      forall i :: 0 <= i < result - 1 ==> !Below(errors[i], threshold)
  }

  /** At most one answer fits a list of errors. */
  lemma FirstBelowUnique(a: int, b: int, errors: seq<Measure>, threshold: real)
    requires FirstBelow(a, errors, threshold) && FirstBelow(b, errors, threshold)
    ensures a == b
  {
  }

  /** `analyze_Monte_Carlo_results`: scan from the front for the first error below
      the threshold. */
  method AnalyzeMonteCarloResults(errors: seq<Measure>, threshold: real) returns (result: int)
    ensures FirstBelow(result, errors, threshold)
    ensures result == -1 || 1 <= result <= |errors|
  {
    var i := 0;
    while i < |errors|
      invariant 0 <= i <= |errors|
      invariant forall j :: 0 <= j < i ==> !Below(errors[j], threshold)
    {
      if Below(errors[i], threshold) {
        return i + 1;
      }
      i := i + 1;
    }
    return -1;
  }

  /** `get_mask`: element by element, whether the grid node lies in the closed region. */
  function GetMask(xs: seq<real>, ys: seq<real>, r: Region): (mask: seq<bool>)
    requires |xs| == |ys|
    ensures |mask| == |xs|
    ensures forall i :: 0 <= i < |xs| ==> (mask[i] <==> InClosed(xs[i], ys[i], BoxOf(r)))
  {
    if xs == [] then []
    else [InClosed(xs[0], ys[0], BoxOf(r))] + GetMask(xs[1..], ys[1..], r)
  }

  /** `get_mask` selects the nodes the variance mask of the same region selects plus
      exactly those on its upper x or y edge. */
  lemma GetMaskVersusVarianceMask(xs: seq<real>, ys: seq<real>, r: Region, i: nat)
    requires |xs| == |ys| && i < |xs|
    ensures GetMask(xs, ys, r)[i] <==>
      InMask(xs[i], ys[i], BoxOf(r)) ||
      (InClosed(xs[i], ys[i], BoxOf(r)) && (xs[i] == r.xr.hi || ys[i] == r.yr.hi))
  {
  }

  /** The result of the fixed-budget driver: the answer of the threshold search and
      the error of every run. */
  datatype FixedBudgetOutcome = FixedBudgetOutcome(minNumMeasurements: int, rmsErrors: seq<Measure>)

  /** `QVT_prioritized_Monte_Carlo_simulation` without its plots and progress
      messages: `numRuns` independent draws with the same budget, their errors, and
      the threshold search over them. It raises when a draw raises, and when there
      is no run at all, because the plot then reads the points of a run that never
      happened. */
  method FixedBudgetSimulation(surface: (real, real) -> real, sqrt: real -> real,
                               prioritized: seq<Region>, desiredAccuracy: real,
                               numRuns: nat, numMeasurements: nat)
    returns (res: Result<FixedBudgetOutcome>, ghost draws: seq<seq<Point>>)
    requires NonNegativeVariances(prioritized)
    ensures res.Failure? <==>
      numRuns == 0 || (|prioritized| > 0 && prioritized[|prioritized| - 1].variance == 0.0)
    ensures res.Ok? ==> |draws| == numRuns && |res.value.rmsErrors| == numRuns
    ensures res.Ok? ==> forall i :: 0 <= i < |draws| ==>
      Allocated(draws[i], prioritized, numMeasurements) &&
      res.value.rmsErrors[i] == RmsError(surface, sqrt, draws[i])
    ensures res.Ok? ==> FirstBelow(res.value.minNumMeasurements, res.value.rmsErrors, desiredAccuracy)
  {
    var errors: seq<Measure> := [];
    draws := [];
    var i := 0;
    while i < numRuns
      invariant 0 <= i <= numRuns
      invariant |draws| == i && |errors| == i
      invariant i > 0 ==> !(|prioritized| > 0 && prioritized[|prioritized| - 1].variance == 0.0)
      invariant forall j :: 0 <= j < i ==>
        Allocated(draws[j], prioritized, numMeasurements) && errors[j] == RmsError(surface, sqrt, draws[j])
    {
      var selection := SelectMeasurementPoints(prioritized, numMeasurements);
      if selection.Failure? {
        return Failure(selection.reason), draws;
      }
      var points := selection.value.points;
      errors := errors + [RmsError(surface, sqrt, points)];
      draws := draws + [points];
      i := i + 1;
    }
    if numRuns == 0 {
      return Failure("no run drew the points the plot shows"), draws;
    }
    var minNum := AnalyzeMonteCarloResults(errors, desiredAccuracy);
    res := Ok(FixedBudgetOutcome(minNum, errors));
  }

  /** `s[:k]`. */
  function Take<T>(s: seq<T>, k: nat): seq<T>
  {
    if k < |s| then s[..k] else s
  }

  /** Taking `k` after taking `m >= k` is taking `k`. */
  lemma TakeTake<T>(s: seq<T>, m: nat, k: nat)
    requires k <= m
    ensures Take(Take(s, m), k) == Take(s, k)
  {
  }

  lemma TakeNonNegative(rs: seq<Region>, k: nat)
    requires NonNegativeVariances(rs)
    ensures NonNegativeVariances(Take(rs, k))
  {
  }

  /** A zero variance among the first `m` regions: the sweep divides by it. */
  predicate ZeroAmongFirst(rs: seq<Region>, m: nat)
  {
    exists j :: 0 <= j < |rs| && j < m && rs[j].variance == 0.0
  }

  /** Budget `k` of the sweep draws from a non-empty list whose last variance is zero. */
  predicate DividesByZero(rs: seq<Region>, k: nat)
  {
    var t := Take(rs, k);
    |t| > 0 && t[|t| - 1].variance == 0.0
  }

  /** A budget that divides by zero exposes a zero variance among the first `m`
      regions, for any `m` at least that budget. */
  lemma DividesByZeroWitness(rs: seq<Region>, m: nat, k: nat)
    requires k <= m && DividesByZero(rs, k)
    ensures ZeroAmongFirst(rs, m)
  {
  }

  /** A zero variance among the first `m` regions makes some budget up to `m` divide
      by zero: the budget one past its position. */
  lemma ZeroAmongFirstDivides(rs: seq<Region>, m: nat)
    requires ZeroAmongFirst(rs, m)
    ensures exists k :: 0 <= k <= m && DividesByZero(rs, k)
  {
    var j :| 0 <= j < |rs| && j < m && rs[j].variance == 0.0;
    assert Take(rs, j + 1)[j] == rs[j];
    assert DividesByZero(rs, j + 1);
  }

  /** Budget `k` of the sweep drew `points` from the first `k` regions and measured `e`. */
  predicate SweepEntry(surface: (real, real) -> real, sqrt: real -> real,
                       prioritized: seq<Region>, k: nat, points: seq<Point>, e: Measure)
  {
    Allocated(points, Take(prioritized, k), k) && e == RmsError(surface, sqrt, points)
  }

  /** One budget of the sweep: draw `k` points' worth from the first `k` of the
      selected regions and measure the error. */
  method SweepPoint(surface: (real, real) -> real, sqrt: real -> real,
                    prioritized: seq<Region>, selected: seq<Region>, maxNum: nat, k: nat)
    returns (res: Result<Measure>, ghost points: seq<Point>)
    requires NonNegativeVariances(prioritized)
    requires selected == Take(prioritized, maxNum) && k <= maxNum
    ensures res.Failure? <==> DividesByZero(prioritized, k)
    ensures res.Ok? ==> SweepEntry(surface, sqrt, prioritized, k, points, res.value)
  {
    TakeTake(prioritized, maxNum, k);
    TakeNonNegative(prioritized, k);
    var selection := SelectMeasurementPoints(Take(selected, k), k);
    if selection.Failure? {
      return Failure(selection.reason), [];
    }
    var drawn := selection.value.points;
    points := drawn;
    res := Ok(RmsError(surface, sqrt, drawn));
  }

  /** One run of the budget sweep: for each budget `k` from 0 to `maxNum`, draw `k`
      points' worth from the first `k` regions and record the error. */
  method SweepRun(surface: (real, real) -> real, sqrt: real -> real,
                  prioritized: seq<Region>, maxNum: nat)
    returns (res: Result<seq<Measure>>, ghost draws: seq<seq<Point>>)
    requires NonNegativeVariances(prioritized)
    ensures res.Failure? <==> ZeroAmongFirst(prioritized, maxNum)
    ensures res.Ok? ==> |res.value| == maxNum + 1 && |draws| == maxNum + 1
    ensures res.Ok? ==> forall k :: 0 <= k <= maxNum ==>
      SweepEntry(surface, sqrt, prioritized, k, draws[k], res.value[k])
  {
    var selected := Take(prioritized, maxNum);
    var row: seq<Measure> := [];
    draws := [];
    var k := 0;
    while k <= maxNum
      invariant 0 <= k <= maxNum + 1
      invariant |row| == k && |draws| == k
      invariant forall b :: 0 <= b < k ==> !DividesByZero(prioritized, b)
      invariant forall b :: 0 <= b < k ==> SweepEntry(surface, sqrt, prioritized, b, draws[b], row[b])
    {
      var e, points := SweepPoint(surface, sqrt, prioritized, selected, maxNum, k);
      if e.Failure? {
        DividesByZeroWitness(prioritized, maxNum, k);
        return Failure(e.reason), draws;
      }
      row := row + [e.value];
      draws := draws + [points];
      k := k + 1;
    }
    if ZeroAmongFirst(prioritized, maxNum) {
      ZeroAmongFirstDivides(prioritized, maxNum);
      assert false;
    }
    res := Ok(row);
  }

  /** Column `k` of a table of rows. */
  function Column(table: seq<seq<Measure>>, k: nat): (col: seq<Measure>)
    requires forall i :: 0 <= i < |table| ==> k < |table[i]|
    ensures |col| == |table|
    ensures forall i :: 0 <= i < |table| ==> col[i] == table[i][k]
  {
    if table == [] then [] else [table[0][k]] + Column(table[1..], k)
  }

  /** The errors of budget `k` across the runs whose draws are `draws`. */
  ghost function ErrorsAtBudget(surface: (real, real) -> real, sqrt: real -> real,
                                draws: seq<seq<seq<Point>>>, k: nat): (col: seq<Measure>)
    requires forall i :: 0 <= i < |draws| ==> k < |draws[i]|
    ensures |col| == |draws|
    ensures forall i :: 0 <= i < |draws| ==> col[i] == RmsError(surface, sqrt, draws[i][k])
  {
    if draws == [] then [] else [RmsError(surface, sqrt, draws[0][k])] + ErrorsAtBudget(surface, sqrt, draws[1..], k)
  }

  /** `np.mean(table, axis=0)` over rows of `width` entries. */
  function ColumnMeans(table: seq<seq<Measure>>, width: nat): (means: seq<Measure>)
    requires forall i :: 0 <= i < |table| ==> |table[i]| == width
    ensures |means| == width
  {
    seq(width, k requires 0 <= k < width => Average(Column(table, k)))
  }

  /** A budget's mean is a number exactly when there is at least one run and every
      run's error at that budget is a number, so a single NaN spoils the column; the
      mean of non-negative errors is non-negative. */
  lemma ColumnMeanMeaning(table: seq<seq<Measure>>, width: nat, k: nat)
    requires forall i :: 0 <= i < |table| ==> |table[i]| == width
    requires k < width
    ensures ColumnMeans(table, width)[k].Value? <==>
      |table| > 0 && forall i :: 0 <= i < |table| ==> table[i][k].Value?
    ensures (ColumnMeans(table, width)[k].Value? &&
             forall i :: 0 <= i < |table| ==> table[i][k].Value? ==> table[i][k].v >= 0.0) ==>
            ColumnMeans(table, width)[k].v >= 0.0
  {
    var col := Column(table, k);
    assert ColumnMeans(table, width)[k] == Average(col);
    AverageDefined(col);
    assert (forall m <- col :: m.Value?) <==> forall i :: 0 <= i < |table| ==> table[i][k].Value? by {
      if forall i :: 0 <= i < |table| ==> table[i][k].Value? {
        forall m | m in col ensures m.Value? {
          var i :| 0 <= i < |col| && col[i] == m;
        }
      }
      if forall m <- col :: m.Value? {
        forall i | 0 <= i < |table| ensures table[i][k].Value? {
          assert col[i] in col;
        }
      }
    }
    if Average(col).Value? && forall i :: 0 <= i < |table| ==> table[i][k].Value? ==> table[i][k].v >= 0.0 {
      forall m | m in col ensures m.Value? ==> m.v >= 0.0 {
        var i :| 0 <= i < |col| && col[i] == m;
      }
      AverageNonNegative(col);
    }
  }

  /** The sweep table's column `k` holds the errors of budget `k` of every run. */
  lemma ColumnIsErrors(surface: (real, real) -> real, sqrt: real -> real, prioritized: seq<Region>,
                       table: seq<seq<Measure>>, draws: seq<seq<seq<Point>>>, maxNum: nat, k: nat)
    requires |table| == |draws| && k <= maxNum
    requires forall i :: 0 <= i < |table| ==> |table[i]| == maxNum + 1 && |draws[i]| == maxNum + 1
    requires forall i, b :: 0 <= i < |table| && 0 <= b <= maxNum ==>
      SweepEntry(surface, sqrt, prioritized, b, draws[i][b], table[i][b])
    ensures Column(table, k) == ErrorsAtBudget(surface, sqrt, draws, k)
  {
  }

  /** `QVT_multiple_Monte_Carlo_simulations` without its plot and progress messages:
      `numRuns` sweeps over the budgets 0 to `maxNum`, averaged budget by budget. It
      raises when a draw raises; with no run at all the average is no curve, which
      counts as a failure here. */
  method BudgetSweepSimulation(surface: (real, real) -> real, sqrt: real -> real,
                               prioritized: seq<Region>, numRuns: nat, maxNum: nat)
    returns (res: Result<seq<Measure>>, ghost draws: seq<seq<seq<Point>>>)
    requires NonNegativeVariances(prioritized)
    ensures res.Failure? <==> numRuns == 0 || ZeroAmongFirst(prioritized, maxNum)
    ensures res.Ok? ==> |res.value| == maxNum + 1 && res.value[0] == NaN
    ensures res.Ok? ==> |draws| == numRuns && forall i :: 0 <= i < numRuns ==> |draws[i]| == maxNum + 1
    ensures res.Ok? ==> forall i, k :: 0 <= i < numRuns && 0 <= k <= maxNum ==>
      Allocated(draws[i][k], Take(prioritized, k), k)
    ensures res.Ok? ==> forall k :: 0 <= k <= maxNum ==>
      res.value[k] == Average(ErrorsAtBudget(surface, sqrt, draws, k))
  {
    var table: seq<seq<Measure>> := [];
    draws := [];
    var i := 0;
    while i < numRuns
      invariant 0 <= i <= numRuns
      invariant |table| == i && |draws| == i
      invariant i > 0 ==> !ZeroAmongFirst(prioritized, maxNum)
      invariant forall j :: 0 <= j < i ==> |table[j]| == maxNum + 1 && |draws[j]| == maxNum + 1
      invariant forall j, k :: 0 <= j < i && 0 <= k <= maxNum ==>
        SweepEntry(surface, sqrt, prioritized, k, draws[j][k], table[j][k])
    {
      var row, runDraws := SweepRun(surface, sqrt, prioritized, maxNum);
      if row.Failure? {
        return Failure(row.reason), draws;
      }
      table := table + [row.value];
      draws := draws + [runDraws];
      i := i + 1;
    }
    if numRuns == 0 {
      return Failure("the mean over no runs is not a curve"), draws;
    }
    var curve := ColumnMeans(table, maxNum + 1);
    forall k | 0 <= k <= maxNum
      ensures curve[k] == Average(ErrorsAtBudget(surface, sqrt, draws, k))
    {
      ColumnIsErrors(surface, sqrt, prioritized, table, draws, maxNum, k);
    }
    // with budget 0 every run measures nothing
    assert SweepEntry(surface, sqrt, prioritized, 0, draws[0][0], table[0][0]);
    assert Take(prioritized, 0) == [];
    assert ErrorsAtBudget(surface, sqrt, draws, 0)[0] == NaN;
    AverageDefined(ErrorsAtBudget(surface, sqrt, draws, 0));
    res := Ok(curve);
  }
}
