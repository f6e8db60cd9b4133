# diversityindex in Dafny

A model of the Go library `diversityindex`. The library computes two diversity
indices of a set of observations:

- Simpson's index, `1 - Σ pᵢ²`;
- Shannon's index, `-Σ pᵢ ln pᵢ`.

Here `pᵢ` is the share of the observations that fall in category `i`.

Each index package has two entry points:

- `CalculateSlice` counts the occurrences of each value of a slice into a map.
- `CalculateMap` takes such a map of counts and runs two passes over it. The
  first adds up the total. The second adds up one term per count.

The top-level package selects one of the two indices with a `uint16`
selector. Shannon is 0 and Simpson is 1. Any other selector gives the value 0
together with `ErrInvalidDiversityIndex`.

Modules, one per concern:

- `Sums` (sums.dfy): sums over the entries of a count map. Go visits a map in
  an unspecified order. `Sum` therefore takes the keys in no particular order,
  and `SumRemove` proves that the order does not matter.
- `Frequency` (frequency.dfy): the counting loop shared by both packages, and
  its reference function `Histogram`.
- `Simpson` (simpson.dfy) and `Shannon` (shannon.dfy):
  - the two-pass loops, as methods proved against the functions
    `SimpsonIndex` and `ShannonIndex`;
  - the properties of those functions.
- `Diversity` (diversity.dfy): the selector, the error and the two
  dispatching entry points.
- `TestCases` (test_cases.dfy): the cases of the repository's tests, stated
  as lemmas.

Modelling decisions:

- `float64` is `real`, so the arithmetic is exact. The Simpson test values are
  proved as exact rationals: 12/25, 1344/7921 and 100/101.
- `math.Pow(x, 2)` is `x * x`.
- `math.Log` is a parameter `ln: real -> real` of every Shannon member. A
  lemma that needs a property of the logarithm requires it of `ln`:
  - `ln(1) = 0`;
  - `ln` is non-positive on (0, 1];
  - `ln(ab) = ln a + ln b`;
  - `ln x <= x - 1`.
- Counts are `nat`.
- Go's `(float64, error)` result is `Outcome(index, err)`.
- The Go code does not skip zero counts. The model follows the code:
  - A Simpson map whose keys all have count 0 makes Go divide 0 by 0, which
    gives NaN. `Simpson.Defined` excludes such maps.
  - A Shannon map with any zero count makes Go compute `0 * Log(0)`, which
    gives NaN. `Shannon.AllPositive` excludes such maps.
  - Every slice yields counts of at least one, so neither precondition
    restricts `CalculateSlice`.
- The spread of the indices is proved in full:
  - Simpson lies in [0, 1 - 1/N], with the maximum reached by equal counts.
  - Shannon lies in [0, ln N].

## Model

| member | source | states |
|---|---|---|
| Frequency.Histogram | simpsonsdi/simpsonsdi.go:12-15 | The key set of the frequency map is exactly the set of values in the slice, and every count is at least 1. |
| Frequency.CountOccurrences | simpsonsdi/simpsonsdi.go:11-15 | The counting loop, with a missing key read as 0 and then incremented, leaves exactly the frequency map of the slice. |
| Frequency.HistogramAppend | shannonsdi/shannondi.go:12-14 | One more observation adds one to its own count and changes no other count. |
| Frequency.HistogramTotal | shannonsdi/shannondi.go:11-14 | The counts of a slice add up to the slice's length. |
| Frequency.HistogramDistinct | simpsonsdi/simpsonsdi_test.go:13-16 | A slice of pairwise distinct values gives every value count 1, with as many keys as values. |
| Sums.SumRemove | simpsonsdi/simpsonsdi.go:27-29 | A sum over a map's keys may take any key first: the result does not depend on the order in which `range` visits the map. |
| Sums.SumInAnyOrder | shannonsdi/shannondi.go:26-28 | Accumulating the terms over any duplicate-free listing of the keys gives the order-free sum. |
| Sums.SharesSumToOne | simpsonsdi/simpsonsdi.go:27-34 | When the total is positive, the shares `count / totalCount` add up to 1. |
| Sums.ShiftedSharesSum | shannonsdi/shannondi.go:26-32 | Over `n` keys the shares, each less a fixed `v`, add up to `1 - n * v`. |
| Sums.CenteredSharesSum | shannonsdi/shannondi.go:26-32 | Over `n` keys with a positive total the shares, each less `1/n`, add up to exactly 0. |
| Sums.WeightedSharesSum | shannonsdi/shannondi.go:26-32 | The shares, each multiplied by a fixed `v`, add up to `v`. |
| Simpson.CalculateMap | simpsonsdi/simpsonsdi.go:23-39 | Whatever the order of visiting, passing over the keys once for the total and once for the squared shares yields `SimpsonIndex`, `1 - Σ (count/total)²`. |
| Simpson.CalculateSlice | simpsonsdi/simpsonsdi.go:10-19 | The slice entry point yields `SimpsonIndex` of the slice's frequency map, which is always a defined input. |
| Simpson.HistogramDefined | simpsonsdi/simpsonsdi.go:12-18 | Every frequency map is a defined Simpson input, so the division by the total never divides 0 by 0. |
| Simpson.EmptyIsOne | simpsonsdi/simpsonsdi.go:24-38 | The empty map gives exactly 1. |
| Simpson.SingleCategoryIsZero | simpsonsdi/simpsonsdi.go:32-38 | A single category with a positive count gives exactly 0. |
| Simpson.IndexRange | simpsonsdi/simpsonsdi.go:32-38 | A map with observations gives an index in [0, 1). |
| Simpson.AtMostOneMinusInverse | simpsonsdi/simpsonsdi.go:32-38 | With `n` categories the index is at most `1 - 1/n`. |
| Simpson.EvenCategories | simpsonsdi/simpsonsdi.go:32-38 | `n` categories with equal positive counts give exactly `1 - 1/n`, so the bound is reached. |
| Simpson.RenameInvariant | simpsonsdi/simpsonsdi_test.go:48-50 | The index depends only on the counts: a one-to-one renaming of the keys, even to another key type, leaves it unchanged. |
| Shannon.CalculateMap | shannonsdi/shannondi.go:22-41 | Whatever the order of visiting, the two passes and the guarded negation yield `ShannonIndex`, the sum of `pi * ln(pi)` negated unless it is exactly 0. |
| Shannon.CalculateSlice | shannonsdi/shannondi.go:9-18 | The slice entry point yields `ShannonIndex` of the slice's frequency map, whose counts are all positive. |
| Shannon.ShareInUnitInterval | shannonsdi/shannondi.go:32 | Each share `pi = count / totalCount` of a positive count lies in (0, 1]. |
| Shannon.IndexIsNegatedSum | shannonsdi/shannondi.go:36-40 | A zero sum is returned as it is. Otherwise the sum is negated, so over the reals the index is always minus the sum. |
| Shannon.EmptyIsZero | shannonsdi/shannondi.go:23-40 | The empty map gives exactly 0. |
| Shannon.SingleCategoryIsZero | shannonsdi/shannondi.go:31-38 | A single category with a positive count gives 0 whenever `ln(1) = 0`. |
| Shannon.NonNegative | shannonsdi/shannondi.go:31-38 | The index is at least 0 whenever `ln` is non-positive on (0, 1]. |
| Shannon.AtMostLogOfCategories | shannonsdi/shannondi.go:31-38 | With `n` categories the index is at most `ln(n)`, for any `ln` that turns products into sums and lies below `x - 1`. |
| Shannon.GibbsSum | shannonsdi/shannondi.go:31-34 | With `n` categories, the sum of `pi * ln(pi * n)` is at least 0, for any `ln` that turns products into sums and lies below `x - 1`. |
| Shannon.ScaledSum | shannonsdi/shannondi.go:31-34 | The sum of `pi * ln(pi * n)` is the sum the second pass accumulates, plus `ln(n)`, for any `ln` that turns products into sums. |
| Shannon.RenameInvariant | shannonsdi/shannondi_test.go:41-43 | The index depends only on the counts: a one-to-one renaming of the keys, even to another key type, leaves it unchanged. |
| Diversity.KnownSelectors | diversityindex.go:12-20 | Exactly two selectors are valid: Shannon is 0 and Simpson is 1. |
| Diversity.CalculateMap | diversityindex.go:31-40 | Selector 0 gives the Shannon index and selector 1 the Simpson index, both with no error. Any other selector gives 0 with `ErrInvalidDiversityIndex`. |
| Diversity.CalculateSlice | diversityindex.go:45-54 | An error is returned exactly for the selectors other than 0 and 1, and then the result is 0 with `ErrInvalidDiversityIndex`. |
| Diversity.SliceIsMapOfCounts | diversityindex.go:45-54 | For every selector, the slice entry point gives what the map entry point gives on the slice's frequency map. |
| Diversity.ErrorDependsOnlyOnSelector | diversityindex.go:32-53 | Whether an error is returned depends on the selector alone, never on the data, empty or not. |
| TestCases.SimpsonThreeAndTwo | simpsonsdi/simpsonsdi_test.go:49-50 | Counts 3 and 2 under any two distinct keys give exactly 12/25. |
| TestCases.SimpsonSliceCase | diversityindex_test.go:15 | The Simpson slice entry point on `[1, 1, 1, 2, 2]` gives 12/25 and no error. |
| TestCases.SimpsonSliceKeyTypes | simpsonsdi/simpsonsdi_test.go:23-25 | String and float slices with the same pattern give 12/25 as well. |
| TestCases.SimpsonMapCase | diversityindex_test.go:57 | The Simpson map entry point on `{1: 3, 2: 2}` gives 12/25 and no error. |
| TestCases.SimpsonFiveCategories | simpsonsdi/simpsonsdi_test.go:48 | The string keyed map with counts 81, 2, 2, 2, 2 gives exactly 1344/7921. |
| TestCases.SimpsonDistinctValues | simpsonsdi/simpsonsdi_test.go:13-16 | The 101 distinct values 0 to 100 give exactly 100/101. |
| TestCases.SimpsonOneValue | simpsonsdi/simpsonsdi_test.go:26 | `[1, 1, 1]` gives 0. |
| TestCases.EmptySlices | simpsonsdi/simpsonsdi_test.go:28 | The empty slice gives Simpson 1 (simpsonsdi/simpsonsdi_test.go:28) and Shannon 0 (shannonsdi/shannondi_test.go:21), with no error. |
| TestCases.InvalidSelectorCase | diversityindex_test.go:40-49 | Selector 100 is rejected by both entry points, on an empty slice and on an empty map. |
| TestCases.ShannonSliceCase | diversityindex_test.go:25 | `[1, 1, 1, 2, 2]` gives Shannon `-(0.6 ln 0.6 + 0.4 ln 0.4)` and no error. |
| TestCases.ShannonFiveCategories | shannonsdi/shannondi_test.go:41 | For the counts 40, 20, 15, 8, 22, the second pass accumulates the five terms `p ln p` over shares of 105. |
| TestCases.ShannonMapCase | diversityindex_test.go:67 | The Shannon map entry point on those five counts gives minus that sum, and no error. |

## Left out

- Floating point: `float64` rounding, NaN and negative zero are not modelled. The arithmetic is exact over `real`, so results agree with Go's only up to rounding. This covers the two top-level tests that compare the Simpson result to `0.48` with a plain `!=` on `float64` (diversityindex_test.go:19 and :61): the lemmas prove the exact value 12/25.
- The value of `math.Log`: the logarithm is a parameter, and the lemmas require only the properties they use. The Shannon tests' decimal values 0.67 and 1.49 therefore appear as expressions in `ln`, not as numbers.
- Simpson.CalculateMap: maps whose keys all have count 0 are excluded by `Simpson.Defined`. Go returns NaN on them, which `real` cannot represent.
- Shannon.CalculateMap: maps with a zero count are excluded by `Shannon.AllPositive`. Go returns NaN on them, which `real` cannot represent.
- Diversity.CalculateMap: requires the precondition of the selected index, for the same reason.
- Go's several counter widths (`uint`, `uint16`, `uint32`, `uint64`) and the overflow of a `uint64` count are not modelled: counts are `nat`.
- The identity of the error value made by `errors.New` is not modelled: the error is a single datatype constructor.
- Go generics over `comparable` and `interface{}` keys become Dafny type parameters with equality.
- The rounding to two decimals with `fmt.Sprintf("%.2f")` in the tests that use it is not modelled: the lemmas state exact values.
- The top-level `CalculateMap` and `CalculateSlice` are functions: they return a value and have no loops of their own. The loops live in the index modules, whose methods are proved equal to the functions these entry points use.
