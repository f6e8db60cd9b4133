/**
  The cases of the repository's tests (diversityindex_test.go,
  simpsonsdi/simpsonsdi_test.go, shannonsdi/shannondi_test.go), stated as
  lemmas. The Simpson values are exact rationals here; the tests compare them
  rounded to two decimals. The Shannon values depend on `math.Log` and are
  stated as expressions in the logarithm `ln`.
 */
module TestCases {
  import opened Sums
  import opened Frequency
  import Simpson
  import Shannon
  import opened Diversity

  /** A sum over two distinct keys is the sum of their two terms. */
  lemma SumOfTwo<K>(m: map<K, nat>, a: K, b: K, term: nat --> real)
    requires m.Keys == {a, b} && a != b
    requires term.requires(m[a]) && term.requires(m[b])
    ensures Applicable(m, m.Keys, term)
    ensures Sum(m, m.Keys, term) == term(m[a]) + term(m[b])
  {
    SumInAnyOrder(m, [a, b], term);
    assert (set k | k in [a, b]) == m.Keys;
    assert [a, b][..1] == [a] && [a][..0] == [];
    assert Accumulate(m, [a], term) == term(m[a]);
    assert Accumulate(m, [a, b], term) == term(m[a]) + term(m[b]);
  }

  /** Accumulating over five keys adds their five terms. */
  lemma AccumulateFive<K>(m: map<K, nat>, ks: seq<K>, term: nat --> real)
    requires |ks| == 5
    requires forall i :: 0 <= i < 5 ==> ks[i] in m && term.requires(m[ks[i]])
    ensures Accumulate(m, ks, term)
         == term(m[ks[0]]) + term(m[ks[1]]) + term(m[ks[2]]) + term(m[ks[3]]) + term(m[ks[4]])
  {
    assert ks[..4][..3][..2][..1][..0] == [];
    assert Accumulate(m, ks[..1], term) == term(m[ks[0]]);
    assert Accumulate(m, ks[..2], term) == term(m[ks[0]]) + term(m[ks[1]]);
    assert ks[..3][..2] == ks[..2];
    assert Accumulate(m, ks[..3], term) == term(m[ks[0]]) + term(m[ks[1]]) + term(m[ks[2]]);
    assert ks[..4][..3] == ks[..3];
    assert Accumulate(m, ks[..4], term) == term(m[ks[0]]) + term(m[ks[1]]) + term(m[ks[2]]) + term(m[ks[3]]);
  }

  /** Three observations of one value and two of another give the counts 3 and 2. */
  lemma ThreeAndTwo<T>(a: T, b: T)
    requires a != b
    ensures Histogram([a, a, a, b, b]) == map[a := 3, b := 2]
  {
    var xs := [a, a, a, b, b];
    assert multiset(xs) == multiset{a, a, a, b, b};
    assert multiset(xs)[a] == 3 && multiset(xs)[b] == 2;
  }

  /** Counts 3 and 2 under any two keys, ints, strings or floats alike, give Simpson 12/25 = 0.48. */
  lemma SimpsonThreeAndTwo<K>(a: K, b: K)
    requires a != b
    ensures Simpson.Defined(map[a := 3, b := 2])
    ensures Simpson.SimpsonIndex(map[a := 3, b := 2]) == 12.0 / 25.0
  {
    var m := map[a := 3, b := 2];
    assert m[a] > 0;
    SumOfTwo(m, a, b, Counted());
    assert Total(m) == 5.0;
    Simpson.DefinedTotal(m);
    SumOfTwo(m, a, b, Simpson.SquaredShare(5.0));
    Simpson.SquaredShareValue(5.0, 3, 0.6);
    Simpson.SquaredShareValue(5.0, 2, 0.4);
  }

  /** `CalculateSlice(DiversityIndexSimpsons, []uint64{1, 1, 1, 2, 2})` is 0.48 and no error. */
  lemma SimpsonSliceCase(ln: real -> real)
    ensures CalculateSlice(Simpsons, [1, 1, 1, 2, 2], ln) == Outcome(12.0 / 25.0, None)
  {
    ThreeAndTwo(1, 2);
    SimpsonThreeAndTwo(1, 2);
  }

  /** The string and float slices of simpsonsdi_test.go give 0.48 as well. */
  lemma SimpsonSliceKeyTypes()
    ensures Simpson.Defined(Histogram(["1", "1", "1", "2", "2"]))
    ensures Simpson.SimpsonIndex(Histogram(["1", "1", "1", "2", "2"])) == 12.0 / 25.0
    ensures Simpson.Defined(Histogram([1.1, 1.1, 1.1, 2.2, 2.2]))
    ensures Simpson.SimpsonIndex(Histogram([1.1, 1.1, 1.1, 2.2, 2.2])) == 12.0 / 25.0
  {
    ThreeAndTwo("1", "2");
    SimpsonThreeAndTwo("1", "2");
    ThreeAndTwo(1.1, 2.2);
    SimpsonThreeAndTwo(1.1, 2.2);
  }

  /** `CalculateMap(DiversityIndexSimpsons, map[int]uint{1: 3, 2: 2})` is 0.48 and no error. */
  lemma SimpsonMapCase(ln: real -> real)
    ensures Accepts(Simpsons, map[1 := 3, 2 := 2])
    ensures CalculateMap(Simpsons, map[1 := 3, 2 := 2], ln) == Outcome(12.0 / 25.0, None)
  {
    SimpsonThreeAndTwo(1, 2);
  }

  /** A sum over a map keyed by the strings "1" to "5" adds the terms of its five counts. */
  lemma SumOverFive(m: map<string, nat>, term: nat --> real)
    requires m.Keys == {"1", "2", "3", "4", "5"}
    requires term.requires(m["1"]) && term.requires(m["2"]) && term.requires(m["3"])
    requires term.requires(m["4"]) && term.requires(m["5"])
    ensures Applicable(m, m.Keys, term)
    ensures Sum(m, m.Keys, term) == term(m["1"]) + term(m["2"]) + term(m["3"]) + term(m["4"]) + term(m["5"])
  {
    var ks := ["1", "2", "3", "4", "5"];
    assert (set k | k in ks) == m.Keys;
    SumInAnyOrder(m, ks, term);
    AccumulateFive(m, ks, term);
  }

  /** The counts 81, 2, 2, 2, 2 add up to 89. */
  lemma EightyOneTotal()
    ensures Total(map["1" := 81, "2" := 2, "3" := 2, "4" := 2, "5" := 2]) == 89.0
  {
    SumOverFive(map["1" := 81, "2" := 2, "3" := 2, "4" := 2, "5" := 2], Counted());
  }

  /** The string keyed map `{81, 2, 2, 2, 2}` gives 1344/7921, about 0.17. */
  lemma SimpsonFiveCategories()
    ensures Simpson.Defined(map["1" := 81, "2" := 2, "3" := 2, "4" := 2, "5" := 2])
    ensures Simpson.SimpsonIndex(map["1" := 81, "2" := 2, "3" := 2, "4" := 2, "5" := 2]) == 1344.0 / 7921.0
  {
    var m := map["1" := 81, "2" := 2, "3" := 2, "4" := 2, "5" := 2];
    assert m["1"] > 0;
    EightyOneTotal();
    Simpson.DefinedTotal(m);
    EightyOneTerms();
    SumOverFive(m, Simpson.SquaredShare(89.0));
  }

  /** The squared shares of the counts 81 and 2 over a total of 89. */
  lemma EightyOneTerms()
    ensures Simpson.SquaredShare(89.0)(81) == 6561.0 / 7921.0
    ensures Simpson.SquaredShare(89.0)(2) == 4.0 / 7921.0
  {
    Simpson.SquaredShareValue(89.0, 81, 81.0 / 89.0);
    Simpson.SquaredShareValue(89.0, 2, 2.0 / 89.0);
  }

  /** 101 distinct values, `0, 1, ..., 100`, give 100/101, about 0.99. */
  lemma SimpsonDistinctValues()
    ensures Simpson.Defined(Histogram(seq(101, i => i)))
    ensures Simpson.SimpsonIndex(Histogram(seq(101, i => i))) == 100.0 / 101.0
  {
    var xs := seq(101, i => i);
    HistogramDistinct(xs);
    assert xs[0] in Histogram(xs);
    Simpson.EvenCategories(Histogram(xs), 1);
  }

  /** Three observations of the same value give Simpson 0. */
  lemma SimpsonOneValue()
    ensures Simpson.Defined(Histogram([1, 1, 1]))
    ensures Simpson.SimpsonIndex(Histogram([1, 1, 1])) == 0.0
  {
    var xs := [1, 1, 1];
    assert multiset(xs)[1] == 3;
    assert Histogram(xs).Keys == {1};
    Simpson.SingleCategoryIsZero(Histogram(xs), 1);
  }

  /** The empty slice gives Simpson 1 and Shannon 0, and no error. */
  lemma EmptySlices<T>(ln: real -> real)
    ensures CalculateSlice<T>(Simpsons, [], ln) == Outcome(1.0, None)
    ensures CalculateSlice<T>(Shannons, [], ln) == Outcome(0.0, None)
  {
    assert Histogram<T>([]) == map[];
  }

  /** `DiversityIndex(100)` is rejected by both entry points, on empty inputs. */
  lemma InvalidSelectorCase(ln: real -> real)
    ensures CalculateSlice<nat>(100, [], ln) == Outcome(0.0, Some(ErrInvalidDiversityIndex))
    ensures CalculateMap<string>(100, map[], ln) == Outcome(0.0, Some(ErrInvalidDiversityIndex))
  {
  }

  /** `[1, 1, 1, 2, 2]` gives Shannon `-(0.6 ln 0.6 + 0.4 ln 0.4)`, about 0.67 with the natural logarithm. */
  lemma ShannonSliceCase(ln: real -> real)
    ensures CalculateSlice(Shannons, [1, 1, 1, 2, 2], ln) == Outcome(-(0.6 * ln(0.6) + 0.4 * ln(0.4)), None)
  {
    ThreeAndTwo(1, 2);
    var m := map[1 := 3, 2 := 2];
    SumOfTwo(m, 1, 2, Counted());
    assert Total(m) == 5.0;
    Shannon.PositiveTotal(m, ln);
    SumOfTwo(m, 1, 2, Shannon.ShareTimesLog(5.0, ln));
    Shannon.ShareTimesLogValue(5.0, ln, 3, 0.6);
    Shannon.ShareTimesLogValue(5.0, ln, 2, 0.4);
    Shannon.IndexIsNegatedSum(m, ln);
  }

  /** The counts 40, 20, 15, 8, 22 add up to 105. */
  lemma FortyTwentyTotal()
    ensures Total(map["1" := 40, "2" := 20, "3" := 15, "4" := 8, "5" := 22]) == 105.0
  {
    SumOverFive(map["1" := 40, "2" := 20, "3" := 15, "4" := 8, "5" := 22], Counted());
  }

  /** The five terms `p ln p` of the counts 40, 20, 15, 8, 22 over a total of 105. */
  lemma FortyTwentyTerms(ln: real -> real)
    ensures Shannon.ShareTimesLog(105.0, ln)(40) == 40.0 / 105.0 * ln(40.0 / 105.0)
    ensures Shannon.ShareTimesLog(105.0, ln)(20) == 20.0 / 105.0 * ln(20.0 / 105.0)
    ensures Shannon.ShareTimesLog(105.0, ln)(15) == 15.0 / 105.0 * ln(15.0 / 105.0)
    ensures Shannon.ShareTimesLog(105.0, ln)(8) == 8.0 / 105.0 * ln(8.0 / 105.0)
    ensures Shannon.ShareTimesLog(105.0, ln)(22) == 22.0 / 105.0 * ln(22.0 / 105.0)
  {
    Shannon.ShareTimesLogValue(105.0, ln, 40, 40.0 / 105.0);
    Shannon.ShareTimesLogValue(105.0, ln, 20, 20.0 / 105.0);
    Shannon.ShareTimesLogValue(105.0, ln, 15, 15.0 / 105.0);
    Shannon.ShareTimesLogValue(105.0, ln, 8, 8.0 / 105.0);
    Shannon.ShareTimesLogValue(105.0, ln, 22, 22.0 / 105.0);
  }

  /** The Σ p ln p of the string keyed map `{40, 20, 15, 8, 22}`, over its shares of 105. */
  lemma ShannonFiveCategories(ln: real -> real)
    ensures Shannon.AllPositive(map["1" := 40, "2" := 20, "3" := 15, "4" := 8, "5" := 22])
    ensures Shannon.SumShareTimesLog(map["1" := 40, "2" := 20, "3" := 15, "4" := 8, "5" := 22], ln)
         == 40.0 / 105.0 * ln(40.0 / 105.0) + 20.0 / 105.0 * ln(20.0 / 105.0)
            + 15.0 / 105.0 * ln(15.0 / 105.0) + 8.0 / 105.0 * ln(8.0 / 105.0)
            + 22.0 / 105.0 * ln(22.0 / 105.0)
  {
    var m := map["1" := 40, "2" := 20, "3" := 15, "4" := 8, "5" := 22];
    FortyTwentyTotal();
    Shannon.PositiveTotal(m, ln);
    SumOverFive(m, Shannon.ShareTimesLog(105.0, ln));
    FortyTwentyTerms(ln);
  }

  /** `CalculateMap(DiversityIndexShannons, {40, 20, 15, 8, 22})` is minus that sum, about 1.49, and no error. */
  lemma ShannonMapCase(ln: real -> real)
    ensures Accepts(Shannons, map["1" := 40, "2" := 20, "3" := 15, "4" := 8, "5" := 22])
    ensures CalculateMap(Shannons, map["1" := 40, "2" := 20, "3" := 15, "4" := 8, "5" := 22], ln)
         == Outcome(-(40.0 / 105.0 * ln(40.0 / 105.0) + 20.0 / 105.0 * ln(20.0 / 105.0)
                      + 15.0 / 105.0 * ln(15.0 / 105.0) + 8.0 / 105.0 * ln(8.0 / 105.0)
                      + 22.0 / 105.0 * ln(22.0 / 105.0)), None)
  {
    ShannonFiveCategories(ln);
    Shannon.IndexIsNegatedSum(map["1" := 40, "2" := 20, "3" := 15, "4" := 8, "5" := 22], ln);
  }
}
