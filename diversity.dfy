/**
  The public entry points (diversityindex.go): a selector names one of the two
  indices, and `CalculateMap` or `CalculateSlice` routes the input to it, or
  reports an invalid selector.
 */
module Diversity {
  import opened Frequency
  import Simpson
  import Shannon

  /** The selector type, a `uint16`: every value in [0, 65536) can be built. */
  newtype DiversityIndex = x: int | 0 <= x < 0x1_0000

  /** The two selectors the source declares with `iota`, in that order. */
  const Shannons: DiversityIndex := 0
  const Simpsons: DiversityIndex := 1

  /** The single error the entry points return. */
  datatype Error = ErrInvalidDiversityIndex

  datatype Option<T> = None | Some(value: T)

  /** Go's result pair `(float64, error)`. */
  datatype Outcome = Outcome(index: real, err: Option<Error>)

  /** The answer to an invalid selector: the value 0 together with the error. */
  const Invalid: Outcome := Outcome(0.0, Some(ErrInvalidDiversityIndex))

  /** True for the selectors that name an index. */
  predicate Known(f: DiversityIndex)
  {
    f == Shannons || f == Simpsons
  }

  /** There are exactly two known selectors, 0 and 1. */
  lemma KnownSelectors(f: DiversityIndex)
    ensures Known(f) <==> f as int == 0 || f as int == 1
    ensures Shannons != Simpsons
  {
  }

  /**
    The count maps the selected index computes a number for (see
    `Shannon.AllPositive` and `Simpson.Defined`); an invalid selector accepts
    every map.
   */
  ghost predicate Accepts<K>(f: DiversityIndex, values: map<K, nat>)
  {
    && (f == Shannons ==> Shannon.AllPositive(values))
    && (f == Simpsons ==> Simpson.Defined(values))
  }

  /** `CalculateMap`: the index of a count map, or the error for an invalid selector. */
  ghost function CalculateMap<K>(f: DiversityIndex, values: map<K, nat>, ln: real -> real): (r: Outcome)
    requires Accepts(f, values)
    ensures r.err.None? <==> Known(f)
    ensures !Known(f) ==> r == Invalid
    ensures f == Shannons ==> r.index == Shannon.ShannonIndex(values, ln)
    ensures f == Simpsons ==> r.index == Simpson.SimpsonIndex(values)
  {
    if f == Shannons then Outcome(Shannon.ShannonIndex(values, ln), None)
    else if f == Simpsons then Outcome(Simpson.SimpsonIndex(values), None)
    else Invalid
  }

  /** `CalculateSlice`: the index of a slice of observations, or the error for an invalid selector. */
  ghost function CalculateSlice<T>(f: DiversityIndex, values: seq<T>, ln: real -> real): (r: Outcome)
    ensures r.err.None? <==> Known(f)
    ensures !Known(f) ==> r == Invalid
  {
    if f == Shannons then Outcome(Shannon.ShannonIndex(Histogram(values), ln), None)
    else if f == Simpsons then
      Simpson.HistogramDefined(values);
      Outcome(Simpson.SimpsonIndex(Histogram(values)), None)
    else Invalid
  }

  /**
    Aggregation commutes with dispatch: for every selector, the index of a
    slice is the index of its frequency map.
   */
  lemma SliceIsMapOfCounts<T>(f: DiversityIndex, values: seq<T>, ln: real -> real)
    ensures Accepts(f, Histogram(values))
    ensures CalculateSlice(f, values, ln) == CalculateMap(f, Histogram(values), ln)
  {
    Simpson.HistogramDefined(values);
  }

  /**
    Whether an error is returned depends on the selector alone: any count map
    and any slice, empty or not, get the same answer to it.
   */
  lemma ErrorDependsOnlyOnSelector<K, T>(f: DiversityIndex, counts: map<K, nat>, values: seq<T>, ln: real -> real)
    requires Accepts(f, counts)
    ensures CalculateMap(f, counts, ln).err == CalculateSlice(f, values, ln).err
    ensures CalculateMap(f, counts, ln).err.None? <==> Known(f)
  {
  }
}
