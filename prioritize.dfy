/** Sampling priority: the terminal regions ordered by descending variance with a
    stable sort, so regions of equal variance keep their relative order. */
module Prioritize {
  import opened Qvt

  /** Variance never increases from front to back. */
  predicate Descending(rs: seq<Region>)
  {
    forall i, j :: 0 <= i < j < |rs| ==> rs[i].variance >= rs[j].variance
  }

  /** The regions of `rs` whose variance is exactly `v`, in list order. */
  function WithVariance(rs: seq<Region>, v: real): seq<Region>
  {
    if rs == [] then [] else (if rs[0].variance == v then [rs[0]] else []) + WithVariance(rs[1..], v)
  }

  /** Puts `r` behind every region of higher variance and ahead of the rest, so it
      stays ahead of the later input regions of equal variance. */
  function Insert(r: Region, sorted: seq<Region>): seq<Region>
  {
    if sorted == [] || sorted[0].variance <= r.variance then [r] + sorted
    else [sorted[0]] + Insert(r, sorted[1..])
  }

  /** `sorted(regions, key=variance, reverse=True)`: a stable sort by descending variance. */
  function SortByVarianceDesc(rs: seq<Region>): seq<Region>
  {
    if rs == [] then [] else Insert(rs[0], SortByVarianceDesc(rs[1..]))
  }

  lemma {:induction false} InsertPermutes(r: Region, sorted: seq<Region>)
    ensures multiset(Insert(r, sorted)) == multiset(sorted) + multiset{r}
    ensures |Insert(r, sorted)| == |sorted| + 1
  {
    if !(sorted == [] || sorted[0].variance <= r.variance) {
      InsertPermutes(r, sorted[1..]);
      assert sorted == [sorted[0]] + sorted[1..];
    }
  }

  lemma {:induction false} InsertKeepsDescending(r: Region, sorted: seq<Region>)
    requires Descending(sorted)
    ensures Descending(Insert(r, sorted))
  {
    if !(sorted == [] || sorted[0].variance <= r.variance) {
      var tail := sorted[1..];
      InsertKeepsDescending(r, tail);
      InsertPermutes(r, tail);
      var ins := Insert(r, tail);
      var out := [sorted[0]] + ins;
      forall i, j | 0 <= i < j < |out| ensures out[i].variance >= out[j].variance {
        if i == 0 {
          // every element of `ins` is `r` or an element of `tail`
          assert out[j] in multiset(ins);
          assert out[j] in multiset(tail) + multiset{r};
          if out[j] != r {
            assert out[j] in tail;
          }
        }
      }
    }
  }

  /** Inserting `r` only adds `r` to the regions of its own variance, at their front. */
  lemma {:induction false} InsertStable(r: Region, sorted: seq<Region>, v: real)
    ensures WithVariance(Insert(r, sorted), v) ==
      (if r.variance == v then [r] else []) + WithVariance(sorted, v)
  {
    if sorted == [] || sorted[0].variance <= r.variance {
      var out := [r] + sorted;
      assert out[0] == r && out[1..] == sorted;
    } else {
      var ins := Insert(r, sorted[1..]);
      InsertStable(r, sorted[1..], v);
      var out := [sorted[0]] + ins;
      assert out[0] == sorted[0] && out[1..] == ins;
      // the region passed over has a higher variance than `r`
      var head := if sorted[0].variance == v then [sorted[0]] else [];
      var mine := if r.variance == v then [r] else [];
      assert r.variance == v ==> head == [];
      calc {
        WithVariance(out, v);
        head + WithVariance(ins, v);
        head + (mine + WithVariance(sorted[1..], v));
        { assert head == [] || mine == []; }
        mine + (head + WithVariance(sorted[1..], v));
        mine + WithVariance(sorted, v);
      }
    }
  }

  /** The sort returns a permutation of its input, of the same length. */
  lemma {:induction false} SortPermutes(rs: seq<Region>)
    ensures multiset(SortByVarianceDesc(rs)) == multiset(rs)
    ensures |SortByVarianceDesc(rs)| == |rs|
  {
    if rs != [] {
      SortPermutes(rs[1..]);
      InsertPermutes(rs[0], SortByVarianceDesc(rs[1..]));
      assert rs == [rs[0]] + rs[1..];
    }
  }

  /** The sort's output has non-increasing variance. */
  lemma {:induction false} SortDescending(rs: seq<Region>)
    ensures Descending(SortByVarianceDesc(rs))
  {
    if rs != [] {
      SortDescending(rs[1..]);
      InsertKeepsDescending(rs[0], SortByVarianceDesc(rs[1..]));
    }
  }

  /** The sort is stable: for every variance, the regions with that variance appear
      in the same order as in the input. */
  lemma {:induction false} SortStable(rs: seq<Region>, v: real)
    ensures WithVariance(SortByVarianceDesc(rs), v) == WithVariance(rs, v)
  {
    if rs != [] {
      SortStable(rs[1..], v);
      InsertStable(rs[0], SortByVarianceDesc(rs[1..]), v);
    }
  }

  /** `prioritize_subregions`: sort, then copy the sorted regions one by one into a
      fresh list. */
  method PrioritizeSubregions(regions: seq<Region>) returns (prioritized: seq<Region>)
    ensures prioritized == SortByVarianceDesc(regions)
    ensures |prioritized| == |regions| && multiset(prioritized) == multiset(regions)
    ensures Descending(prioritized)
    ensures forall v: real :: WithVariance(prioritized, v) == WithVariance(regions, v)
  {
    var sorted := SortByVarianceDesc(regions);
    prioritized := [];
    var i := 0;
    while i < |sorted|
      invariant 0 <= i <= |sorted|
      invariant prioritized == sorted[..i]
    {
      prioritized := prioritized + [sorted[i]];
      i := i + 1;
    }
    assert sorted[..|sorted|] == sorted;
    SortPermutes(regions);
    SortDescending(regions);
    forall v: real ensures WithVariance(prioritized, v) == WithVariance(regions, v) {
      SortStable(regions, v);
    }
  }
}
