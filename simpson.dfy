/**
  Simpson's diversity index, `1 - Σ pᵢ²` where `pᵢ` is the share of the
  observations that fall in category `i` (simpsonsdi/simpsonsdi.go).

  `float64` is modelled as `real`, so the arithmetic here is exact, and
  `math.Pow(x, 2)` is `x * x`.
 */
module Simpson {
  import opened Sums
  import opened Frequency

  /**
    The maps on which Go's `CalculateMap` never divides zero by zero: the
    empty map, whose loop body never runs, and the maps recording at least
    one observation, whose total is then positive.
   */
  ghost predicate Defined<K>(values: map<K, nat>)
  {
    values == map[] || exists k :: k in values && values[k] > 0
  }

  /** The term one count adds, `(count / totalCount)²`; it needs a non-zero total. */
  function SquaredShare(totalCount: real): nat --> real
  {
    c requires totalCount != 0.0 => (c as real / totalCount) * (c as real / totalCount)
  }

  /** What the squared share of a count evaluates to. */
  lemma SquaredShareValue(totalCount: real, c: nat, pi: real)
    requires totalCount != 0.0 && pi == c as real / totalCount
    ensures SquaredShare(totalCount).requires(c) && SquaredShare(totalCount)(c) == pi * pi
  {
  }

  /** The share of a count within the total lies in [0, 1] and bounds its square. */
  lemma TermBounds(totalCount: real, c: nat)
    requires totalCount > 0.0 && c as real <= totalCount
    ensures 0.0 <= SquaredShare(totalCount)(c) <= Share(totalCount)(c) <= 1.0
    ensures c > 0 ==> SquaredShare(totalCount)(c) > 0.0
  {
    var p := c as real / totalCount;
    assert Share(totalCount)(c) == p;
    SquaredShareValue(totalCount, c, p);
    assert 0.0 <= p <= 1.0 && (c > 0 ==> p > 0.0);
    SquareBounds(p);
  }

  /** A number in [0, 1] is at least its square, which is positive when it is. */
  lemma SquareBounds(p: real)
    requires 0.0 <= p <= 1.0
    ensures 0.0 <= p * p <= p
    ensures p > 0.0 ==> p * p > 0.0
  {
    assert p * p <= p * 1.0;
    assert p > 0.0 ==> p * p > 0.0 * p;
  }

  /** On a defined map the total is positive as soon as there is a key. */
  lemma DefinedTotal<K>(values: map<K, nat>)
    requires Defined(values)
    ensures values != map[] ==> Total(values) > 0.0
    ensures Applicable(values, values.Keys, SquaredShare(Total(values)))
  {
    if values != map[] {
      var k :| k in values && values[k] > 0;
      TotalPositive(values, k);
    }
  }

  /** Simpson's index of a count map: one minus the sum of the squared shares. */
  ghost function SimpsonIndex<K>(values: map<K, nat>): real
    requires Defined(values)
  {
    DefinedTotal(values);
    1.0 - Sum(values, values.Keys, SquaredShare(Total(values)))
  }

  /**
    `CalculateMap`: a first pass over the map adds up the counts, a second adds
    up the squared shares, both visiting the keys in an arbitrary order.
   */
  method CalculateMap<K>(values: map<K, nat>) returns (index: real)
    requires Defined(values)
    ensures index == SimpsonIndex(values)
  {
    var totalCount, ret := 0.0, 0.0;

    var rest := values.Keys;
    while rest != {}
      invariant rest <= values.Keys
      invariant totalCount == Sum(values, values.Keys - rest, Counted())
      decreases rest
    {
      var k :| k in rest;
      SumInsert(values, values.Keys - rest, Counted(), k);
      assert values.Keys - rest + {k} == values.Keys - (rest - {k});
      totalCount := totalCount + values[k] as real;
      rest := rest - {k};
    }
    assert values.Keys - rest == values.Keys;
    assert totalCount == Total(values);
    DefinedTotal(values);
    assert values.Keys != {} ==> totalCount != 0.0;

    rest := values.Keys;
    while rest != {}
      invariant rest <= values.Keys
      invariant ret == Sum(values, values.Keys - rest, SquaredShare(totalCount))
      decreases rest
    {
      var k :| k in rest;
      SumInsert(values, values.Keys - rest, SquaredShare(totalCount), k);
      assert values.Keys - rest + {k} == values.Keys - (rest - {k});
      var pi := values[k] as real / totalCount;
      SquaredShareValue(totalCount, values[k], pi);
      ret := ret + pi * pi;
      rest := rest - {k};
    }
    assert values.Keys - rest == values.Keys;

    index := 1.0 - ret;
  }

  /** Every histogram is a defined input: each of its counts is at least one. */
  lemma HistogramDefined<T>(xs: seq<T>)
    ensures Defined(Histogram(xs))
  {
    if xs != [] {
      assert xs[0] in Histogram(xs);
    }
  }

  /** `CalculateSlice`: count the occurrences, then compute the index of the counts. */
  method CalculateSlice<T(==)>(values: seq<T>) returns (index: real)
    ensures Defined(Histogram(values)) && index == SimpsonIndex(Histogram(values))
  {
    var countByValue := CountOccurrences(values);
    HistogramDefined(values);
    index := CalculateMap(countByValue);
  }

  /** The empty map, whose loops never run, has index exactly 1. */
  lemma EmptyIsOne<K>(values: map<K, nat>)
    requires values == map[]
    ensures Defined(values) && SimpsonIndex(values) == 1.0
  {
  }

  /** One category with a positive count has index 0. */
  lemma SingleCategoryIsZero<K>(values: map<K, nat>, k: K)
    requires values.Keys == {k} && values[k] > 0
    ensures Defined(values) && SimpsonIndex(values) == 0.0
  {
    SumRemove(values, values.Keys, Counted(), k);
    assert Total(values) == values[k] as real;
    DefinedTotal(values);
    SumRemove(values, values.Keys, SquaredShare(Total(values)), k);
  }

  /** On a map with observations the index lies in [0, 1). */
  lemma IndexRange<K>(values: map<K, nat>)
    requires Defined(values) && values != map[]
    ensures 0.0 <= SimpsonIndex(values) < 1.0
  {
    DefinedTotal(values);
    SharesSumToOne(values);
    var total := Total(values);
    forall k | k in values
      ensures 0.0 <= SquaredShare(total)(values[k]) <= Share(total)(values[k])
    {
      CountAtMostTotal(values, k);
      TermBounds(total, values[k]);
    }
    SumMonotone(values, values.Keys, SquaredShare(total), Share(total));
    var k :| k in values && values[k] > 0;
    CountAtMostTotal(values, k);
    TermBounds(total, values[k]);
    SumAtLeastTerm(values, values.Keys, SquaredShare(total), k);
  }

  /** `n` categories observed equally often give the index `1 - 1/n`. */
  lemma EvenCategories<K>(values: map<K, nat>, c: nat)
    requires values != map[] && c > 0
    requires forall k :: k in values ==> values[k] == c
    ensures Defined(values) && SimpsonIndex(values) == 1.0 - 1.0 / |values.Keys| as real
  {
    var k :| k in values;
    assert Defined(values);
    var n := |values.Keys| as real;
    EvenSquares(values, c);
    InverseSquare(n);
  }

  /** Over `n` equal counts every squared share is `(1/n)²`. */
  lemma EvenSquares<K>(values: map<K, nat>, c: nat)
    requires values != map[] && c > 0
    requires forall k :: k in values ==> values[k] == c
    ensures |values.Keys| as real >= 1.0 && Total(values) > 0.0
    ensures Applicable(values, values.Keys, SquaredShare(Total(values)))
    ensures Sum(values, values.Keys, SquaredShare(Total(values)))
         == |values.Keys| as real * ((1.0 / |values.Keys| as real) * (1.0 / |values.Keys| as real))
  {
    var n := |values.Keys| as real;
    EvenTotal(values, c);
    var total := Total(values);
    var q := 1.0 / n;
    EvenSquareValue(total, c, n);
    SumConstant(values, values.Keys, SquaredShare(total), q * q);
  }

  /** A count `c` within the total `n * c` has the squared share `(1/n)²`. */
  lemma EvenSquareValue(total: real, c: nat, n: real)
    requires c > 0 && n >= 1.0 && total == n * c as real
    ensures total != 0.0 && SquaredShare(total)(c) == (1.0 / n) * (1.0 / n)
  {
    EvenShare(c as real, n);
    SquaredShareValue(total, c, 1.0 / n);
  }

  /** `n` equal counts `c` add up to `n * c`. */
  lemma EvenTotal<K>(values: map<K, nat>, c: nat)
    requires values != map[] && c > 0
    requires forall k :: k in values ==> values[k] == c
    ensures |values.Keys| as real >= 1.0
    ensures Total(values) == |values.Keys| as real * c as real
    ensures Total(values) > 0.0
  {
    var k :| k in values;
    SumConstant(values, values.Keys, Counted(), c as real);
  }

  /** `n` squares of `1/n` add up to `1/n`. */
  lemma InverseSquare(n: real)
    requires n >= 1.0
    ensures n * ((1.0 / n) * (1.0 / n)) == 1.0 / n
  {
    var q := 1.0 / n;
    assert n * q == 1.0;
    assert n * (q * q) == (n * q) * q;
  }

  /** Arithmetic for `EvenCategories`: each of `n` equal counts `c` is a `1/n` share. */
  lemma EvenShare(c: real, n: real)
    requires c > 0.0 && n >= 1.0
    ensures c / (n * c) == 1.0 / n
  {
    assert n * c != 0.0;
    assert (c / (n * c)) * (n * c) == c;
  }

  /**
    The index depends only on the counts, not on the keys: renaming the keys
    one-to-one, onto the keys of another map with the same counts, possibly of
    another key type, gives the same index.
   */
  lemma RenameInvariant<K, L>(values: map<K, nat>, renamed: map<L, nat>, rename: K -> L)
    requires Defined(values)
    requires forall k :: k in values ==> rename(k) in renamed && renamed[rename(k)] == values[k]
    requires forall a, b :: a in values && b in values && rename(a) == rename(b) ==> a == b
    requires renamed.Keys == Image(values.Keys, rename)
    ensures Defined(renamed) && SimpsonIndex(renamed) == SimpsonIndex(values)
  {
    SumRename(values, renamed, values.Keys, rename, Counted());
    DefinedTotal(values);
    if values != map[] {
      var k :| k in values && values[k] > 0;
      assert rename(k) in renamed;
    }
    SumRename(values, renamed, values.Keys, rename, SquaredShare(Total(values)));
  }

  /** The term `(pi - mean)²`, the squared distance of a share from `mean`. */
  function SquaredDeviation(totalCount: real, mean: real): nat --> real
  {
    c requires totalCount != 0.0 => (c as real / totalCount - mean) * (c as real / totalCount - mean)
  }

  /** The term `pi * a + b`. */
  function ShareAffine(totalCount: real, a: real, b: real): nat --> real
  {
    c requires totalCount != 0.0 => c as real / totalCount * a + b
  }

  /** Arithmetic for `AtMostOneMinusInverse`: `(p - m)² == p² + (p * (-2m) + m²)`. */
  lemma ExpandSquare(p: real, m: real)
    ensures (p - m) * (p - m) == p * p + (p * (-2.0 * m) + m * m)
  {
  }

  /** Per count: the squared deviation splits into the squared share and an affine rest. */
  lemma DeviationSplits(totalCount: real, mean: real, c: nat)
    requires totalCount != 0.0
    ensures SquaredDeviation(totalCount, mean)(c) >= 0.0
    ensures SquaredDeviation(totalCount, mean)(c)
         == SquaredShare(totalCount)(c) + ShareAffine(totalCount, -2.0 * mean, mean * mean)(c)
  {
    var pi := c as real / totalCount;
    assert SquaredDeviation(totalCount, mean)(c) == (pi - mean) * (pi - mean);
    assert ShareAffine(totalCount, -2.0 * mean, mean * mean)(c) == pi * (-2.0 * mean) + mean * mean;
    SquaredShareValue(totalCount, c, pi);
    ExpandSquare(pi, mean);
    var d := pi - mean;
    assert d * d >= 0.0;
  }

  /** What the affine term evaluates to on one count. */
  lemma ShareAffineValue(totalCount: real, a: real, b: real, c: nat)
    requires totalCount != 0.0
    ensures ShareAffine(totalCount, a, b)(c) == ShareTimes(totalCount, a)(c) + Constant(b)(c)
  {
    ShareTermValues(totalCount, a, c, c as real / totalCount);
  }

  /** Over `n` keys the terms `pi * a + b` add up to `a + n * b`. */
  lemma AffineSum<K>(values: map<K, nat>, a: real, b: real)
    requires Total(values) > 0.0
    ensures Applicable(values, values.Keys, ShareAffine(Total(values), a, b))
    ensures Sum(values, values.Keys, ShareAffine(Total(values), a, b)) == a + |values.Keys| as real * b
  {
    var total := Total(values);
    SumConstant(values, values.Keys, Constant(b), b);
    WeightedSharesSum(values, a);
    forall k | k in values
      ensures ShareAffine(total, a, b)(values[k]) == ShareTimes(total, a)(values[k]) + Constant(b)(values[k])
    {
      ShareAffineValue(total, a, b, values[k]);
    }
    SumAdd(values, values.Keys, ShareTimes(total, a), Constant(b), ShareAffine(total, a, b));
  }

  /**
    For every `mean`, the squared deviations from it are never negative, so
    `Σ pi² >= 2 * mean - n * mean²` over `n` keys.
   */
  lemma SquaresAboveDeviation<K>(values: map<K, nat>, mean: real)
    requires Total(values) > 0.0
    ensures Applicable(values, values.Keys, SquaredShare(Total(values)))
    ensures Sum(values, values.Keys, SquaredShare(Total(values)))
         >= 2.0 * mean - |values.Keys| as real * (mean * mean)
  {
    AffineSum(values, -2.0 * mean, mean * mean);
    DeviationsSplit(values, mean);
  }

  /** The squared deviations from `mean` add up to a non-negative sum of squares plus an affine sum. */
  lemma DeviationsSplit<K>(values: map<K, nat>, mean: real)
    requires Total(values) > 0.0
    requires Applicable(values, values.Keys, ShareAffine(Total(values), -2.0 * mean, mean * mean))
    ensures Applicable(values, values.Keys, SquaredShare(Total(values)))
    ensures Applicable(values, values.Keys, SquaredDeviation(Total(values), mean))
    ensures 0.0 <= Sum(values, values.Keys, SquaredDeviation(Total(values), mean))
         == Sum(values, values.Keys, SquaredShare(Total(values)))
          + Sum(values, values.Keys, ShareAffine(Total(values), -2.0 * mean, mean * mean))
  {
    var total := Total(values);
    forall k | k in values
      ensures SquaredShare(total).requires(values[k])
      ensures SquaredDeviation(total, mean)(values[k]) >= 0.0
      ensures SquaredDeviation(total, mean)(values[k])
           == SquaredShare(total)(values[k]) + ShareAffine(total, -2.0 * mean, mean * mean)(values[k])
    {
      DeviationSplits(total, mean, values[k]);
    }
    SumNonNegative(values, values.Keys, SquaredDeviation(total, mean));
    SumAdd(values, values.Keys, SquaredShare(total), ShareAffine(total, -2.0 * mean, mean * mean),
      SquaredDeviation(total, mean));
  }

  /**
    With `n` categories the index is at most `1 - 1/n`: the squared shares add
    up to at least `1/n`, because their squared deviations from `1/n` are never
    negative. `EvenCategories` shows the bound is reached.
   */
  lemma AtMostOneMinusInverse<K>(values: map<K, nat>)
    requires Defined(values) && values != map[]
    ensures SimpsonIndex(values) <= 1.0 - 1.0 / |values.Keys| as real
  {
    DefinedTotal(values);
    var n := |values.Keys| as real;
    var k0 :| k0 in values;
    assert n >= 1.0;
    SquaresAboveDeviation(values, 1.0 / n);
    InverseSquare(n);
  }
}
