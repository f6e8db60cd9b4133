/**
  Shannon's diversity index, `-Σ pᵢ ln pᵢ` where `pᵢ` is the share of the
  observations that fall in category `i` (shannonsdi/shannondi.go).

  `float64` is modelled as `real`. The natural logarithm `math.Log` is not
  defined here: every member takes it as a parameter `ln`, and the lemmas that
  need a property of the logarithm require it of `ln`. The bounds proved are
  `0 <= ShannonIndex <= ln(n)` for `n` categories.
 */
module Shannon {
  import opened Sums
  import opened Frequency

  /**
    The maps on which Go's `CalculateMap` yields a number: every count is
    positive. A zero count makes Go compute `0 * math.Log(0)`, which is NaN.
   */
  ghost predicate AllPositive<K>(values: map<K, nat>)
  {
    forall k :: k in values ==> values[k] > 0
  }

  /** The term one count adds, `pi * ln(pi)` with `pi = count / totalCount`. */
  function ShareTimesLog(totalCount: real, ln: real -> real): nat --> real
  {
    c requires totalCount != 0.0 => var pi := c as real / totalCount; pi * ln(pi)
  }

  /** On a map of positive counts the total is positive as soon as there is a key. */
  lemma PositiveTotal<K>(values: map<K, nat>, ln: real -> real)
    requires AllPositive(values)
    ensures values != map[] ==> Total(values) > 0.0
    ensures Applicable(values, values.Keys, ShareTimesLog(Total(values), ln))
  {
    if values != map[] {
      var k :| k in values;
      TotalPositive(values, k);
    }
  }

  /** The sum `Σ pi * ln(pi)` the second loop accumulates. */
  ghost function SumShareTimesLog<K>(values: map<K, nat>, ln: real -> real): real
    requires AllPositive(values)
  {
    PositiveTotal(values, ln);
    Sum(values, values.Keys, ShareTimesLog(Total(values), ln))
  }

  /** Shannon's index of a count map: the sum negated, unless it is exactly zero. */
  ghost function ShannonIndex<K>(values: map<K, nat>, ln: real -> real): real
    requires AllPositive(values)
  {
    var ret := SumShareTimesLog(values, ln);
    if ret != 0.0 then -ret else ret
  }

  /** What the term of a count evaluates to. */
  lemma ShareTimesLogValue(totalCount: real, ln: real -> real, c: nat, pi: real)
    requires totalCount != 0.0 && pi == c as real / totalCount
    ensures ShareTimesLog(totalCount, ln).requires(c) && ShareTimesLog(totalCount, ln)(c) == pi * ln(pi)
  {
  }

  /**
    `CalculateMap`: a first pass over the map adds up the counts, a second adds
    up `pi * ln(pi)`, both visiting the keys in an arbitrary order; a non-zero
    sum is then negated.
   */
  method CalculateMap<K>(values: map<K, nat>, ln: real -> real) returns (index: real)
    requires AllPositive(values)
    ensures index == ShannonIndex(values, ln)
  {
    var totalCount, ret, pi := 0.0, 0.0, 0.0;

    var rest := values.Keys;
    while rest != {}
      invariant rest <= values.Keys
      invariant totalCount == Sum(values, values.Keys - rest, Counted())
      decreases rest
    {
      var k :| k in rest;
      SumInsert(values, values.Keys - rest, Counted(), k);
      assert values.Keys - rest + {k} == values.Keys - (rest - {k});
      totalCount := totalCount + values[k] as real;
      rest := rest - {k};
    }
    assert values.Keys - rest == values.Keys;
    assert totalCount == Total(values);
    PositiveTotal(values, ln);

    rest := values.Keys;
    while rest != {}
      invariant rest <= values.Keys
      invariant ret == Sum(values, values.Keys - rest, ShareTimesLog(totalCount, ln))
      decreases rest
    {
      var k :| k in rest;
      SumInsert(values, values.Keys - rest, ShareTimesLog(totalCount, ln), k);
      assert values.Keys - rest + {k} == values.Keys - (rest - {k});
      pi := values[k] as real / totalCount;
      ShareTimesLogValue(totalCount, ln, values[k], pi);
      ret := ret + pi * ln(pi);
      rest := rest - {k};
    }
    assert values.Keys - rest == values.Keys;

    if ret != 0.0 {
      ret := ret * -1.0;
    }
    index := ret;
  }

  /** `CalculateSlice`: count the occurrences, then compute the index of the counts. */
  method CalculateSlice<T(==)>(values: seq<T>, ln: real -> real) returns (index: real)
    ensures AllPositive(Histogram(values)) && index == ShannonIndex(Histogram(values), ln)
  {
    var countByValue := CountOccurrences(values);
    index := CalculateMap(countByValue, ln);
  }

  /** Each share `pi = count / totalCount` lies in (0, 1]. */
  lemma ShareInUnitInterval<K>(values: map<K, nat>, k: K)
    requires AllPositive(values) && k in values
    ensures Total(values) > 0.0
    ensures 0.0 < values[k] as real / Total(values) <= 1.0
  {
    TotalPositive(values, k);
    CountAtMostTotal(values, k);
  }

  /**
    Over the reals the guarded negation is plain negation: the index is minus
    the sum in every case, the guard only keeps Go from returning -0.
   */
  lemma IndexIsNegatedSum<K>(values: map<K, nat>, ln: real -> real)
    requires AllPositive(values)
    ensures SumShareTimesLog(values, ln) == 0.0 ==> ShannonIndex(values, ln) == SumShareTimesLog(values, ln)
    ensures ShannonIndex(values, ln) == -SumShareTimesLog(values, ln)
  {
  }

  /** The empty map, whose second loop never runs, has index exactly 0. */
  lemma EmptyIsZero<K>(values: map<K, nat>, ln: real -> real)
    requires values == map[]
    ensures AllPositive(values) && ShannonIndex(values, ln) == 0.0
  {
  }

  /** One category with a positive count has index 0, because ln(1) = 0. */
  lemma SingleCategoryIsZero<K>(values: map<K, nat>, k: K, ln: real -> real)
    requires ln(1.0) == 0.0
    requires values.Keys == {k} && values[k] > 0
    ensures AllPositive(values) && ShannonIndex(values, ln) == 0.0
  {
    SumRemove(values, values.Keys, Counted(), k);
    var total := Total(values);
    assert total == values[k] as real;
    PositiveTotal(values, ln);
    SumRemove(values, values.Keys, ShareTimesLog(total, ln), k);
    ShareTimesLogValue(total, ln, values[k], 1.0);
  }

  /** If the logarithm is non-positive on (0, 1], the index is never negative. */
  lemma NonNegative<K>(values: map<K, nat>, ln: real -> real)
    requires forall p :: 0.0 < p <= 1.0 ==> ln(p) <= 0.0
    requires AllPositive(values)
    ensures ShannonIndex(values, ln) >= 0.0
  {
    PositiveTotal(values, ln);
    var total := Total(values);
    forall k | k in values
      ensures ShareTimesLog(total, ln)(values[k]) <= 0.0
    {
      ShareInUnitInterval(values, k);
      var pi := values[k] as real / total;
      ShareTimesLogValue(total, ln, values[k], pi);
      NonPositiveProduct(pi, ln(pi));
    }
    SumNonPositive(values, values.Keys, ShareTimesLog(total, ln));
  }

  /** A positive number times a non-positive one is non-positive. */
  lemma NonPositiveProduct(a: real, b: real)
    requires a > 0.0 && b <= 0.0
    ensures a * b <= 0.0
  {
    assert a * b <= a * 0.0;
  }

  /**
    The index depends only on the counts, not on the keys: renaming the keys
    one-to-one, onto the keys of another map with the same counts, possibly of
    another key type, gives the same index.
   */
  lemma RenameInvariant<K, L>(values: map<K, nat>, renamed: map<L, nat>, rename: K -> L, ln: real -> real)
    requires AllPositive(values)
    requires forall k :: k in values ==> rename(k) in renamed && renamed[rename(k)] == values[k]
    requires forall a, b :: a in values && b in values && rename(a) == rename(b) ==> a == b
    requires renamed.Keys == Image(values.Keys, rename)
    ensures AllPositive(renamed) && ShannonIndex(renamed, ln) == ShannonIndex(values, ln)
  {
    SumRename(values, renamed, values.Keys, rename, Counted());
    PositiveTotal(values, ln);
    SumRename(values, renamed, values.Keys, rename, ShareTimesLog(Total(values), ln));
  }

  /** `ln` turns products of positive numbers into sums. */
  ghost predicate LogOfProduct(ln: real -> real)
  {
    forall a, b {:trigger ln(Product(a, b))} :: 0.0 < a && 0.0 < b ==> ln(Product(a, b)) == ln(a) + ln(b)
  }

  /** The product of two reals, named so that `LogOfProduct` is used only where asked for. */
  function Product(a: real, b: real): real
  {
    a * b
  }

  /** `ln` lies below its tangent at 1: `ln(x) <= x - 1` for positive `x`. */
  ghost predicate LogBelowTangent(ln: real -> real)
  {
    forall x :: 0.0 < x ==> ln(x) <= x - 1.0
  }

  /** The term `pi * ln(pi * n)`. */
  function ShareTimesLogScaled(totalCount: real, ln: real -> real, n: real): nat --> real
  {
    c requires totalCount != 0.0 => var pi := c as real / totalCount; pi * ln(Product(pi, n))
  }

  /** One instance of `LogOfProduct`. */
  lemma LogProduct(ln: real -> real, a: real, b: real)
    requires LogOfProduct(ln) && 0.0 < a && 0.0 < b
    ensures ln(a * b) == ln(a) + ln(b)
  {
    assert ln(Product(a, b)) == ln(a) + ln(b);
  }

  /** What the scaled term evaluates to on one count. */
  lemma ScaledTermValue(totalCount: real, ln: real -> real, n: real, c: nat, pi: real)
    requires totalCount != 0.0 && pi == c as real / totalCount
    ensures ShareTimesLogScaled(totalCount, ln, n)(c) == pi * ln(pi * n)
  {
    assert Product(pi, n) == pi * n;
  }

  /** From `ln(x) + ln(1/x) == 0` and the tangent bound at `1/x`: `ln(x) >= 1 - 1/x`. */
  lemma LogAboveChord(ln: real -> real, x: real)
    requires LogOfProduct(ln) && LogBelowTangent(ln)
    requires 0.0 < x
    ensures ln(x) >= 1.0 - 1.0 / x
  {
    var q := 1.0 / x;
    assert q > 0.0;
    assert x * q == 1.0;
    LogProduct(ln, 1.0, 1.0);
    LogProduct(ln, x, q);
    assert ln(q) <= q - 1.0;
  }

  /** Arithmetic for `TermAboveTangent`: multiplying the chord bound by `p`. */
  lemma ScaleChord(p: real, n: real, l: real)
    requires 0.0 < p && 0.0 < n && l >= 1.0 - 1.0 / (p * n)
    ensures p * l >= p - 1.0 / n
  {
    assert p * n > 0.0;
    var r := 1.0 / (p * n);
    assert r * (p * n) == 1.0;
    assert (p * r) * n == 1.0;
    assert p * r == 1.0 / n;
    var d := l - (1.0 - r);
    assert d >= 0.0;
    assert p * d >= 0.0;
    assert p * l == p - p * r + p * d;
  }

  /** Gibbs' inequality for one term: `p * ln(p * n) >= p - 1/n`. */
  lemma TermAboveTangent(ln: real -> real, p: real, n: real)
    requires LogOfProduct(ln) && LogBelowTangent(ln)
    requires 0.0 < p && 0.0 < n
    ensures p * ln(p * n) >= p - 1.0 / n
  {
    assert p * n > 0.0;
    LogAboveChord(ln, p * n);
    ScaleChord(p, n, ln(p * n));
  }

  /** Per count: the scaled term lies above `pi - 1/n`. */
  lemma ScaledTermBounds(totalCount: real, ln: real -> real, n: real, c: nat)
    requires LogOfProduct(ln) && LogBelowTangent(ln)
    requires totalCount > 0.0 && c > 0 && 0.0 < n
    ensures ShareMinus(totalCount, 1.0 / n)(c) <= ShareTimesLogScaled(totalCount, ln, n)(c)
  {
    var pi := c as real / totalCount;
    assert pi > 0.0;
    ShareTermValues(totalCount, 1.0 / n, c, pi);
    ScaledTermValue(totalCount, ln, n, c, pi);
    TermAboveTangent(ln, pi, n);
  }

  /** Per count: the scaled term splits into `pi * ln(pi) + pi * ln(n)`. */
  lemma ScaledTermSplit(totalCount: real, ln: real -> real, n: real, c: nat)
    requires LogOfProduct(ln)
    requires totalCount > 0.0 && c > 0 && 0.0 < n
    ensures ShareTimesLogScaled(totalCount, ln, n)(c)
         == ShareTimesLog(totalCount, ln)(c) + ShareTimes(totalCount, ln(n))(c)
  {
    var pi := c as real / totalCount;
    assert pi > 0.0;
    ShareTermValues(totalCount, ln(n), c, pi);
    ScaledTermValue(totalCount, ln, n, c, pi);
    ShareTimesLogValue(totalCount, ln, c, pi);
    LogProduct(ln, pi, n);
    Distribute(pi, ln(pi * n), ln(pi), ln(n));
  }

  /** Gibbs' inequality summed: `Σ pi * ln(pi * n) >= Σ (pi - 1/n) == 0` for `n` keys. */
  lemma GibbsSum<K>(values: map<K, nat>, ln: real -> real)
    requires LogOfProduct(ln) && LogBelowTangent(ln)
    requires AllPositive(values) && values != map[]
    ensures Total(values) > 0.0
    ensures Sum(values, values.Keys, ShareTimesLogScaled(Total(values), ln, |values.Keys| as real)) >= 0.0
  {
    PositiveTotal(values, ln);
    var total := Total(values);
    var n := |values.Keys| as real;
    CenteredSharesSum(values);
    forall k | k in values
      ensures ShareMinus(total, 1.0 / n)(values[k]) <= ShareTimesLogScaled(total, ln, n)(values[k])
    {
      ScaledTermBounds(total, ln, n, values[k]);
    }
    SumMonotone(values, values.Keys, ShareMinus(total, 1.0 / n), ShareTimesLogScaled(total, ln, n));
  }

  /** `Σ pi * ln(pi * n)` is the sum of the index's terms plus `ln(n)`. */
  lemma ScaledSum<K>(values: map<K, nat>, ln: real -> real)
    requires LogOfProduct(ln)
    requires AllPositive(values) && values != map[]
    ensures Total(values) > 0.0
    ensures Sum(values, values.Keys, ShareTimesLogScaled(Total(values), ln, |values.Keys| as real))
         == SumShareTimesLog(values, ln) + ln(|values.Keys| as real)
  {
    PositiveTotal(values, ln);
    var total := Total(values);
    var n := |values.Keys| as real;
    var k0 :| k0 in values;
    WeightedSharesSum(values, ln(n));
    forall k | k in values
      ensures ShareTimesLogScaled(total, ln, n)(values[k])
           == ShareTimesLog(total, ln)(values[k]) + ShareTimes(total, ln(n))(values[k])
    {
      ScaledTermSplit(total, ln, n, values[k]);
    }
    SumAdd(values, values.Keys, ShareTimesLog(total, ln), ShareTimes(total, ln(n)), ShareTimesLogScaled(total, ln, n));
  }

  /**
    With `n` categories the index is at most `ln(n)`, for any `ln` that turns
    products into sums and lies below its tangent at 1.
   */
  lemma AtMostLogOfCategories<K>(values: map<K, nat>, ln: real -> real)
    requires LogOfProduct(ln) && LogBelowTangent(ln)
    requires AllPositive(values) && values != map[]
    ensures ShannonIndex(values, ln) <= ln(|values.Keys| as real)
  {
    GibbsSum(values, ln);
    ScaledSum(values, ln);
    IndexIsNegatedSum(values, ln);
  }
}
