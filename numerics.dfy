/** The numpy statistics the partition and the Monte Carlo estimator rely on,
    over exact reals. A statistic of no data is NaN in numpy; here it is the
    `NaN` case of `Measure`, and every comparison with it is false. */
module Numerics {

  /** A float64 statistic: a finite value, or NaN (the mean or variance of nothing,
      or anything computed from a NaN). */
  datatype Measure = Value(v: real) | NaN

  /** An operation that either succeeds or raises. */
  datatype Result<T> = Ok(value: T) | Failure(reason: string)

  /** `m < t` on floats: false when `m` is NaN. */
  predicate Below(m: Measure, t: real)
  {
    m.Value? && m.v < t
  }

  function Sum(s: seq<real>): real
  {
    if s == [] then 0.0 else s[0] + Sum(s[1..])
  }

  function Mean(s: seq<real>): real
    requires |s| > 0
  {
    Sum(s) / |s| as real
  }

  function Square(x: real): real
  {
    x * x
  }

  lemma PositiveProduct(a: real, b: real)
    requires a > 0.0 && b > 0.0
    ensures a * b > 0.0
  {
  }

  /** A square is never negative, and is zero only for zero. */
  lemma SquareSign(x: real)
    ensures Square(x) >= 0.0
    ensures x != 0.0 ==> Square(x) > 0.0
  {
    if x != 0.0 {
      var a := if x < 0.0 then -x else x;
      var h := a / 2.0;
      PositiveProduct(a, h);
      assert Square(x) == a * h + a * h;
    }
  }

  /** Sum of squared deviations of `s` from `c`. */
  function SumSqDev(s: seq<real>, c: real): (r: real)
    ensures r >= 0.0
  {
    if s == [] then 0.0
    else
      SquareSign(s[0] - c);
      Square(s[0] - c) + SumSqDev(s[1..], c)
  }

  /** Population variance (`np.var`, ddof = 0); NaN when there is no data. */
  function Variance(s: seq<real>): (r: Measure)
    ensures r.Value? <==> |s| > 0
    ensures r.Value? ==> r.v >= 0.0
  {
    if |s| == 0 then NaN else Value(SumSqDev(s, Mean(s)) / |s| as real)
  }

  lemma {:induction false} ConstantSum(s: seq<real>, c: real)
    requires forall i :: 0 <= i < |s| ==> s[i] == c
    ensures Sum(s) == |s| as real * c
  {
    if s != [] {
      ConstantSum(s[1..], c);
    }
  }

  lemma {:induction false} ConstantSumSqDev(s: seq<real>, c: real)
    requires forall i :: 0 <= i < |s| ==> s[i] == c
    ensures SumSqDev(s, c) == 0.0
  {
    if s != [] {
      ConstantSumSqDev(s[1..], c);
    }
  }

  /** Heights that are all equal have variance exactly zero. */
  lemma ConstantVariance(s: seq<real>, c: real)
    requires |s| > 0
    requires forall i :: 0 <= i < |s| ==> s[i] == c
    ensures Variance(s) == Value(0.0)
  {
    ConstantSum(s, c);
    assert Mean(s) == c;
    ConstantSumSqDev(s, c);
  }

  /** No measure in the list is NaN. */
  predicate AllNumbers(ms: seq<Measure>)
  {
    ms == [] || (ms[0].Value? && AllNumbers(ms[1..]))
  }

  lemma {:induction false} AllNumbersIff(ms: seq<Measure>)
    ensures AllNumbers(ms) <==> forall i :: 0 <= i < |ms| ==> ms[i].Value?
  {
    if ms != [] {
      AllNumbersIff(ms[1..]);
      assert forall i :: 1 <= i < |ms| ==> ms[1..][i - 1] == ms[i];
    }
  }

  /** The finite values of a NaN-free list of measures. */
  function Values(ms: seq<Measure>): (vs: seq<real>)
    requires AllNumbers(ms)
    ensures |vs| == |ms|
    ensures forall i :: 0 <= i < |ms| ==> ms[i].Value? && vs[i] == ms[i].v
  {
    AllNumbersIff(ms);
    if ms == [] then [] else [ms[0].v] + Values(ms[1..])
  }

  /** `np.mean` of float values: NaN when the list is empty or holds a NaN. */
  function Average(ms: seq<Measure>): Measure
  {
    if |ms| == 0 || !AllNumbers(ms) then NaN else Value(Mean(Values(ms)))
  }

  /** The mean is a number exactly when there is at least one value and none is NaN. */
  lemma AverageDefined(ms: seq<Measure>)
    ensures Average(ms).Value? <==> |ms| > 0 && forall m <- ms :: m.Value?
  {
    AllNumbersIff(ms);
    if forall m <- ms :: m.Value? {
      forall i | 0 <= i < |ms| ensures ms[i].Value? {
        assert ms[i] in ms;
      }
    }
  }

  lemma {:induction false} SumNonNegative(s: seq<real>)
    requires forall i :: 0 <= i < |s| ==> s[i] >= 0.0
    ensures Sum(s) >= 0.0
  {
    if s != [] {
      SumNonNegative(s[1..]);
    }
  }

  /** The average of non-negative values is non-negative. */
  lemma AverageNonNegative(ms: seq<Measure>)
    requires Average(ms).Value?
    requires forall m <- ms :: m.Value? ==> m.v >= 0.0
    ensures Average(ms).v >= 0.0
  {
    AverageDefined(ms);
    var vs := Values(ms);
    forall i | 0 <= i < |vs| ensures vs[i] >= 0.0 {
      assert ms[i] in ms;
    }
    SumNonNegative(vs);
  }

  /** Smallest element (`np.min`). */
  function MinOf(s: seq<real>): (r: real)
    requires |s| > 0
    ensures r in s
    ensures forall i :: 0 <= i < |s| ==> r <= s[i]
  {
    if |s| == 1 then s[0]
    else
      var m := MinOf(s[1..]);
      if s[0] <= m then s[0] else m
  }

  /** Largest element (`np.max`). */
  function MaxOf(s: seq<real>): (r: real)
    requires |s| > 0
    ensures r in s
    ensures forall i :: 0 <= i < |s| ==> s[i] <= r
  {
    if |s| == 1 then s[0]
    else
      var m := MaxOf(s[1..]);
      if s[0] >= m then s[0] else m
  }
}
