# Movie ratings count, modelled in Dafny

The `MovieRatingsCount` job reads tab-separated rating records
(`userID`, `movieID`, `rating`, `timestamp`) and counts the ratings of
every movie in two MapReduce steps:

1. `mapper_get_movies` keys each line by its movie ID with the value 1, and
   `reducer_count_ratings` sums the ones of a movie and emits the sum, as
   a decimal zero-padded to five characters, as the key of a new pair whose
   value is the movie ID;
2. `reducer_sort` receives the movies that share one padded count and
   re-emits each as `(movie, count)`. The movies come out in ascending count
   order only because the job framework sorts the keys of the second step as
   strings, and the zero-padding is meant to make string order match numeric
   order.

The model has three modules:

- `PyStr` (`py_str.dfy`): Python's `str.split(sep)` and `sep.join(...)` for a
  one-character separator, with the proof that splitting undoes joining.
- `Decimal` (`decimal.dfy`): `str(n)` for naturals, `str.zfill(width)`
  (including Python's rule that the zeros go after a leading sign), reading
  a digit string back as a number, and Python's lexicographic string order.
- `MovieRatingsCount` (`movie_ratings_count.dfy`): the three functions of the
  job as pure functions returning the sequence of pairs each Python
  generator yields, in order, and the lemmas about them.

The mapper's failure is a value: Python's tuple unpacking raises
`ValueError` ("not enough values to unpack" with the number found, or "too
many values to unpack") before anything is yielded. The model returns
`Err(NotEnoughValues(n))` or `Err(TooManyValues)` for that case and
`Ok(pairs)` otherwise.

The padding claim is proved with its limit. Below 100000 every padded count
is exactly five digits, and string order agrees with numeric order in both
directions. From 100000 on the padded string is longer than five, and the
agreement fails at every power of ten: `"100000"` sorts before `"99999"`.

## Model

| member | source | states |
|---|---|---|
| `PyStr.Split` | key-concepts-examples/MapReduce.py:13 | `line.split('\t')` yields one more field than the line has tabs; no field contains a tab; joining the fields with tabs gives the line back |
| `PyStr.SplitJoin` | key-concepts-examples/MapReduce.py:13 | splitting a tab-join of tab-free fields gives exactly those fields, so the split is the only way to cut a line into tab-free fields |
| `Decimal.Str` | key-concepts-examples/MapReduce.py:17 | `str(n)` is a non-empty string of digits with no leading zero (except `"0"`) that reads back as n |
| `Decimal.StrLength` | key-concepts-examples/MapReduce.py:17 | `str(n)` has at most k digits exactly when n < 10^k |
| `Decimal.LexLess` | key-concepts-examples/MapReduce.py:17 | Python's `<` on `str`, code-point lexicographic order: no string is below itself, and a proper prefix comes before its extensions |
| `Decimal.LexLessFirstDifference` | key-concepts-examples/MapReduce.py:17 | at the first position where two strings differ, the string with the smaller character there is the smaller one, and only then |
| `Decimal.LexLessTrichotomy` | key-concepts-examples/MapReduce.py:17 | the string order is trichotomous and asymmetric: two distinct strings are ordered one way, never both |
| `Decimal.LexLessTransitive` | key-concepts-examples/MapReduce.py:17 | the string order is transitive, so with irreflexivity and trichotomy it is a strict total order, the order a sort by string keys relies on |
| `Decimal.ZFill` | key-concepts-examples/MapReduce.py:17 | `zfill(width)` gives a string of length max(len, width); a string already that long is unchanged; otherwise, for an unsigned string the original ends the result and every character before it is `'0'`, and for a signed string the sign comes first, then the zeros, then the rest of the string |
| `Decimal.ZFillDigits` | key-concepts-examples/MapReduce.py:17 | on a digit string, `zfill` puts exactly width - len zeros in front, and none when the string is already wide enough |
| `Decimal.ParseLeadingZeros` | key-concepts-examples/MapReduce.py:17 | leading zeros do not change the number a digit string denotes |
| `Decimal.LexLessDigits` | key-concepts-examples/MapReduce.py:17 | for digit strings of the same length, string order and numeric order agree, in both directions |
| `MovieRatingsCount.MapperGetMovies` | key-concepts-examples/MapReduce.py:12-14 | the mapper succeeds exactly when the line has three tabs; then it emits one pair, the tab-free second field with the value 1; otherwise it fails with "not enough values" (with the field count) or "too many values" |
| `MovieRatingsCount.MapperOnRecord` | key-concepts-examples/MapReduce.py:12-14 | a record of four tab-free fields joined by tabs is mapped to exactly `[(movieID, 1)]` |
| `MovieRatingsCount.MapperAcceptsOnlyRecords` | key-concepts-examples/MapReduce.py:12-14 | every line the mapper accepts is four tab-free fields joined by tabs, and the emitted key is the second of them |
| `MovieRatingsCount.Sum` | key-concepts-examples/MapReduce.py:17 | Python's `sum(values)`, the left fold `0 + v1 + … + vn`: it bounds every value from above and is 0 exactly when every value is 0 |
| `MovieRatingsCount.PaddedCount` | key-concepts-examples/MapReduce.py:17 | `str(n).zfill(5)`, i.e. `ZFill(Str(n), 5)`: a string of at least five digits that reads back as n |
| `MovieRatingsCount.ReducerCountRatings` | key-concepts-examples/MapReduce.py:16-17 | the count reducer emits one pair; its value is the movie key unchanged; its key is a digit string that reads back as the sum of the values and is max(5, decimal length of the sum) long |
| `MovieRatingsCount.PaddedCountShape` | key-concepts-examples/MapReduce.py:17 | `str(n).zfill(5)` is `str(n)` behind exactly as many zeros as it lacks to be 5 long: it contains only digits, is max(5, decimal length of n) long, and reads back as n |
| `MovieRatingsCount.PaddedCountWidth` | key-concepts-examples/MapReduce.py:17 | the padded count is exactly 5 long precisely when n < 100000, and longer from 100000 on |
| `MovieRatingsCount.PaddedCountOrder` | key-concepts-examples/MapReduce.py:17 | for counts below 100000, one padded count sorts before another as a string exactly when it is the smaller number, and two padded counts are equal exactly when the counts are |
| `MovieRatingsCount.PaddedCountOrderBreaks` | key-concepts-examples/MapReduce.py:17 | for every k >= 5, the padded string of 10^k is a one and k zeros, that of the smaller number 10^k - 1 is k nines, and the first sorts before the second |
| `MovieRatingsCount.PaddedCountOrderBreaksAt100000` | key-concepts-examples/MapReduce.py:17 | at 100000 the padding stops working: the padded strings are `"100000"` and `"99999"`, and the first sorts before the second |
| `MovieRatingsCount.SumOfOnes` | key-concepts-examples/MapReduce.py:17 | the sum of a group of ones is the size of the group |
| `MovieRatingsCount.CountEqualsGroupSize` | key-concepts-examples/MapReduce.py:12-17 | when every value is the mapper's 1, the emitted count reads back as the number of ratings, and it is 5 wide exactly when there are fewer than 100000 |
| `MovieRatingsCount.ReducerSort` | key-concepts-examples/MapReduce.py:19-21 | the sort reducer emits as many pairs as there are movies, the i-th being `(movies[i], count)` |
| `MovieRatingsCount.ReducerSortPreservesMovies` | key-concepts-examples/MapReduce.py:19-21 | the emitted keys are the movies, in their original order, none added or dropped, and every emitted value is the group's count |
| `MovieRatingsCount.ReducerSortAppend` | key-concepts-examples/MapReduce.py:19-21 | re-emitting a group in two parts gives the two outputs concatenated: each movie is handled on its own, in order |
| `MovieRatingsCount.ReducerSortUndoesSwap` | key-concepts-examples/MapReduce.py:16-21 | a one-movie group holding the count reducer's pair re-emits that pair swapped back, as `(key, paddedCount)` |
| `MovieRatingsCount.ExampleMapperFirstLine` | key-concepts-examples/MapReduce.py:12-14 | the line `"1\t10\t4.0\t1"` is mapped to `[("10", 1)]` |
| `MovieRatingsCount.ExampleCountReducer` | key-concepts-examples/MapReduce.py:16-17 | two ratings of movie 10 become `("00002", "10")`, one of movie 20 becomes `("00001", "20")` |
| `MovieRatingsCount.ExampleSortReducer` | key-concepts-examples/MapReduce.py:19-21 | the groups `"00001": ["20"]` and `"00002": ["10"]` become `("20", "00001")` and `("10", "00002")` |
| `MovieRatingsCount.ExampleMalformedLines` | key-concepts-examples/MapReduce.py:13 | a line with three fields, the empty line and a line with five fields are rejected with the matching unpacking error |

## Left out

- The job framework: subclassing `MRJob`, the `steps()` wiring of the two `MRStep`s (MapReduce.py:5-10) and the entry point `MovieRatingsCount.run()` (MapReduce.py:24-25). These are library calls and process start-up, and the library's code is not part of this model.
- The shuffle between the mapper and the first reducer, and the grouping and key sorting before the second reducer. The framework does these and the source does not define them, so there is no end-to-end pipeline model. For the same reason the model does not prove properties of the whole job's output: one record per distinct movie, output in ascending count order, or the same result on every run. What the model does prove is the fact such a stage would rely on: string order of padded counts matches numeric order below 100000 and not from 100000 on.
- Reading input lines and writing output, including newline stripping and the framework's output encoding.
- The mapper's first parameter (`_`, the input key the framework passes for raw lines). It is ignored by the source and is not a parameter of `MapperGetMovies`.
- `rating` and `timestamp` are unpacked but never used. The model checks that they exist as fields and does not otherwise represent them.
- `MovieRatingsCount.ReducerCountRatings`: the values are modelled as naturals, which is what the mapper emits. Python's `sum` would also accept negative numbers or floats, whose rendering (`"-0012"`, `"002.5"`) the model does not cover. `Decimal.ZFill` does model the sign rule for strings in general.
- `Decimal.Parse` gives the empty string the value 0, where Python's `int("")` raises. The helper lemmas `Decimal.ParseBound`, `Decimal.ParseLeadingZeros` and `Decimal.LexLessDigits` are stated for every digit string and so also cover the empty one, read as 0; every statement about the job's output concerns output of `Str` and `zfill`, which is never empty.
- `Decimal.Str` never fails. CPython 3.11 and later, and the September 2022 security releases 3.10.7, 3.9.14, 3.8.14 and 3.7.14, raise `ValueError` from `str(n)` when n has more than 4300 digits, the default of `sys.get_int_max_str_digits()`, which can be changed or turned off with 0. The job cannot reach that limit: the sum it renders counts input lines, so it never comes near 10^4300.
- Distribution, parallelism and fault tolerance: the source has none of its own.
