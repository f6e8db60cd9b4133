/**
  Frequency aggregation: turning a slice of observations into a map from each
  distinct observation to the number of times it occurs.

  Both index packages begin their `CalculateSlice` with the same counting loop
  (simpsonsdi/simpsonsdi.go:12-15 and shannonsdi/shannondi.go:11-14); it is
  modelled once, by `CountOccurrences`.
 */
module Frequency {
  import opened Sums

  /**
    The reference frequency map of `xs`: every distinct element of `xs` is a
    key, and its count is the number of times it occurs in `xs`.
   */
  function Histogram<T>(xs: seq<T>): (h: map<T, nat>)
    ensures h.Keys == set x | x in xs
    ensures forall x :: x in h ==> h[x] >= 1
  {
    map x | x in multiset(xs) :: multiset(xs)[x]
  }

  /**
    The loop of `CalculateSlice`: for each value in turn, the value's count is
    incremented, a missing key reading as zero as it does in Go.
   */
  method CountOccurrences<T>(values: seq<T>) returns (countByValue: map<T, nat>)
    ensures countByValue == Histogram(values)
  {
    countByValue := map[];
    for i := 0 to |values|
      invariant countByValue == Histogram(values[..i])
    {
      var value := values[i];
      HistogramAppend(values[..i], value);
      assert values[..i + 1] == values[..i] + [value];
      countByValue := countByValue[value := (if value in countByValue then countByValue[value] else 0) + 1];
    }
    assert values[..|values|] == values;
  }

  /** Observing one more value adds one to its count and changes no other count. */
  lemma HistogramAppend<T>(xs: seq<T>, v: T)
    ensures Histogram(xs + [v]) == Histogram(xs)[v := (if v in Histogram(xs) then Histogram(xs)[v] else 0) + 1]
  {
    var h, h' := Histogram(xs), Histogram(xs + [v]);
    assert multiset(xs + [v]) == multiset(xs) + multiset{v};
    forall x | x in h'
      ensures x in h || x == v
    {
    }
    assert h'.Keys == h.Keys + {v};
  }

  /** The counts of a histogram add up to the number of observations. */
  lemma {:induction false} HistogramTotal<T>(xs: seq<T>)
    ensures Total(Histogram(xs)) == |xs| as real
    decreases |xs|
  {
    if xs != [] {
      var init, v := xs[..|xs| - 1], xs[|xs| - 1];
      assert xs == init + [v];
      HistogramTotal(init);
      var h, h' := Histogram(init), Histogram(xs);
      HistogramAppend(init, v);
      SumRemove(h', h'.Keys, Counted(), v);
      SumAgree(h', h, h.Keys - {v}, Counted());
      assert h'.Keys - {v} == h.Keys - {v};
      if v in h {
        SumRemove(h, h.Keys, Counted(), v);
      } else {
        assert h.Keys - {v} == h.Keys;
      }
    }
  }

  /** In a slice of pairwise distinct values every value is counted exactly once. */
  lemma {:induction false} HistogramDistinct<T>(xs: seq<T>)
    requires forall i, j :: 0 <= i < j < |xs| ==> xs[i] != xs[j]
    ensures forall x :: x in Histogram(xs) ==> Histogram(xs)[x] == 1
    ensures |Histogram(xs).Keys| == |xs|
    decreases |xs|
  {
    if xs != [] {
      var init, v := xs[..|xs| - 1], xs[|xs| - 1];
      assert xs == init + [v];
      HistogramDistinct(init);
      assert v !in init;
      var h := Histogram(init);
      assert v !in h.Keys;
      HistogramAppend(init, v);
      assert Histogram(xs) == h[v := 1];
    }
  }
}
