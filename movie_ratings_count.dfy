/** The per-record logic of the `MovieRatingsCount` job: a mapper that keys
    every rating line by its movie, a reducer that counts the ratings of one
    movie and emits the count, zero-padded, as the new key, and a reducer
    that swaps each (count, movie) back to (movie, count).

    Each function returns the sequence of pairs the Python generator
    yields, in order. The grouping and key sorting that the job framework
    performs between the steps is not part of this module. */
module MovieRatingsCount {
  import opened PyStr
  import opened Decimal

  /** Fields are separated by a tab. */
  const Tab: char := '\t'

  /** A rating line is unpacked into (userID, movieID, rating, timestamp). */
  const FieldCount: nat := 4

  /** Counts are zero-padded to this width. */
  const PadWidth: nat := 5

  /** Python's `ValueError` from unpacking into four names: too few fields
      (with the number found) or too many. */
  datatype UnpackError = NotEnoughValues(got: nat) | TooManyValues

  datatype Result<T> = Ok(value: T) | Err(error: UnpackError)

  /** `mapper_get_movies(_, line)`: split the line on tabs, unpack exactly
      four fields, and emit `(movieID, 1)`. The unpack fails before anything
      is emitted when the line does not have exactly four fields. */
  function MapperGetMovies(line: string): (r: Result<seq<(string, nat)>>)
    ensures r.Ok? <==> CountChar(line, Tab) == FieldCount - 1
    ensures r.Ok? ==>
              && |r.value| == 1
              && r.value[0].0 == Split(line, Tab)[1]
              && Tab !in r.value[0].0
              && r.value[0].1 == 1
    ensures r.Err? ==>
              r.error == if CountChar(line, Tab) < FieldCount - 1
                         then NotEnoughValues(CountChar(line, Tab) + 1)
                         else TooManyValues
  {
    var fields := Split(line, Tab);
    if |fields| < FieldCount then Err(NotEnoughValues(|fields|))
    else if |fields| > FieldCount then Err(TooManyValues)
    else
      var movieID := fields[1];
      Ok([(movieID, 1)])
  }

  /** Python's `sum(values)`: a left fold with `+` starting from 0. */
  function Sum(values: seq<nat>): (r: nat)
    ensures forall i :: 0 <= i < |values| ==> values[i] <= r
    ensures r == 0 <==> forall i :: 0 <= i < |values| ==> values[i] == 0
  {
    if values == [] then 0 else Sum(values[..|values| - 1]) + values[|values| - 1]
  }

  /** `str(n).zfill(5)`. */
  function PaddedCount(n: nat): (r: string)
    ensures |r| >= PadWidth && AllDigits(r) && Parse(r) == n
  {
    var s := Str(n);
    ZFillDigits(s, PadWidth);
    ParseLeadingZeros(Max(0, PadWidth - |s|), s);
    ZFill(s, PadWidth)
  }

  /** `reducer_count_ratings(key, values)`: emit the sum of the values,
      rendered in decimal and zero-padded to five characters, as the key
      of one pair whose value is the movie key. */
  function ReducerCountRatings(key: string, values: seq<nat>): (r: seq<(string, string)>)
    ensures |r| == 1
    ensures r[0].1 == key
    ensures AllDigits(r[0].0) && Parse(r[0].0) == Sum(values)
    ensures |r[0].0| == Max(PadWidth, |Str(Sum(values))|)
  {
    PaddedCountShape(Sum(values));
    [(PaddedCount(Sum(values)), key)]
  }

  /** `reducer_sort(count, movies)`: for each movie of the group, in order,
      emit `(movie, count)`. */
  function ReducerSort(count: string, movies: seq<string>): (r: seq<(string, string)>)
    ensures |r| == |movies|
    ensures forall i :: 0 <= i < |r| ==> r[i] == (movies[i], count)
  {
    if movies == [] then []
    else [(movies[0], count)] + ReducerSort(count, movies[1..])
  }

  /** The keys of a sequence of pairs, in order. */
  function Keys<K, V>(pairs: seq<(K, V)>): (ks: seq<K>)
    ensures |ks| == |pairs| && forall i :: 0 <= i < |ks| ==> ks[i] == pairs[i].0
  {
    if pairs == [] then [] else [pairs[0].0] + Keys(pairs[1..])
  }

  // ---------------------------------------------------------------- mapper

  /** A well-formed rating line, four tab-free fields joined by tabs, is
      mapped to exactly one pair: its movie ID with the value 1. */
  lemma MapperOnRecord(userID: string, movieID: string, rating: string, timestamp: string)
    requires Tab !in userID && Tab !in movieID && Tab !in rating && Tab !in timestamp
    ensures MapperGetMovies(Join([userID, movieID, rating, timestamp], Tab)) == Ok([(movieID, 1)])
  {
    var fields := [userID, movieID, rating, timestamp];
    SplitJoin(fields, Tab);
  }

  /** Conversely, a line the mapper accepts is such a record, and the key
      emitted is its second field. */
  lemma MapperAcceptsOnlyRecords(line: string)
    requires MapperGetMovies(line).Ok?
    ensures exists fields: seq<string> ::
              && |fields| == FieldCount
              && (forall i :: 0 <= i < |fields| ==> Tab !in fields[i])
              && Join(fields, Tab) == line
              && MapperGetMovies(line) == Ok([(fields[1], 1)])
  {
  }

  // ------------------------------------------------------- padded counts

  /** The padded count is `str(n)` behind as many zeros as it lacks to be
      five characters: it holds only digits, is five characters or the
      decimal length of n if that is longer, and reads back as n. */
  lemma PaddedCountShape(n: nat)
    ensures PaddedCount(n) == Zeros(Max(0, PadWidth - |Str(n)|)) + Str(n)
    ensures AllDigits(PaddedCount(n))
    ensures |PaddedCount(n)| == Max(PadWidth, |Str(n)|)
    ensures Parse(PaddedCount(n)) == n
  {
    ZFillDigits(Str(n), PadWidth);
  }

  /** The padded count is exactly five characters long precisely when the
      count is below 100000; from there on it is longer. */
  lemma PaddedCountWidth(n: nat)
    ensures |PaddedCount(n)| == PadWidth <==> n < 100000
    ensures n >= 100000 ==> |PaddedCount(n)| > PadWidth
  {
    PaddedCountShape(n);
    StrLength(n, PadWidth);
    assert Pow10(PadWidth) == 100000;
  }

  /** Below 100000, comparing padded counts as strings agrees with
      comparing the counts as numbers, in both directions. */
  lemma PaddedCountOrder(a: nat, b: nat)
    requires a < 100000 && b < 100000
    ensures LexLess(PaddedCount(a), PaddedCount(b)) <==> a < b
    ensures PaddedCount(a) == PaddedCount(b) <==> a == b
  {
    PaddedCountWidth(a);
    PaddedCountWidth(b);
    PaddedCountShape(a);
    PaddedCountShape(b);
    LexLessDigits(PaddedCount(a), PaddedCount(b));
  }

  /** At every power of ten from 100000 on, the agreement fails: the padded
      string of 10^k is a one and k zeros, that of the smaller number
      10^k - 1 is k nines, and the first sorts before the second. */
  lemma PaddedCountOrderBreaks(k: nat)
    requires k >= PadWidth
    ensures PaddedCount(Pow10(k)) == "1" + Zeros(k)
    ensures PaddedCount(Pow10(k) - 1) == Repeat('9', k)
    ensures LexLess(PaddedCount(Pow10(k)), PaddedCount(Pow10(k) - 1))
  {
    var big, small := PaddedCount(Pow10(k)), PaddedCount(Pow10(k) - 1);
    assert big == "1" + Zeros(k) by {
      StrPowerOfTen(k);
      ZFillDigits(Str(Pow10(k)), PadWidth);
      assert Zeros(0) + Str(Pow10(k)) == Str(Pow10(k));
    }
    assert small == Repeat('9', k) by {
      StrAllNines(k);
      ZFillDigits(Str(Pow10(k) - 1), PadWidth);
      assert Zeros(0) + Str(Pow10(k) - 1) == Str(Pow10(k) - 1);
    }
    OneZerosBeforeNines(k, k);
  }

  /** The first place it fails: "100000" sorts before "99999". */
  lemma PaddedCountOrderBreaksAt100000()
    ensures PaddedCount(100000) == "100000" && PaddedCount(99999) == "99999"
    ensures LexLess(PaddedCount(100000), PaddedCount(99999))
  {
    PaddedCountOrderBreaks(PadWidth);
    assert Pow10(PadWidth) == 100000;
    assert "1" + Zeros(5) == "100000";
    assert Repeat('9', 5) == "99999";
  }

  // ------------------------------------------------------------ reducers

  /** A group of ones sums to its size. */
  lemma {:induction false} SumOfOnes(values: seq<nat>)
    requires forall i :: 0 <= i < |values| ==> values[i] == 1
    ensures Sum(values) == |values|
  {
    if values != [] {
      SumOfOnes(values[..|values| - 1]);
    }
  }

  /** When every value is 1, as the mapper emits, the count reducer's
      padded count reads back as the number of ratings of the movie, and
      is five characters wide below 100000 ratings. */
  lemma CountEqualsGroupSize(key: string, values: seq<nat>)
    requires forall i :: 0 <= i < |values| ==> values[i] == 1
    ensures Parse(ReducerCountRatings(key, values)[0].0) == |values|
    ensures |values| < 100000 <==> |ReducerCountRatings(key, values)[0].0| == PadWidth
  {
    SumOfOnes(values);
    PaddedCountWidth(|values|);
  }

  /** The sort reducer keeps the movies in order, adding or dropping none,
      and pairs each with the group's count. */
  lemma ReducerSortPreservesMovies(count: string, movies: seq<string>)
    ensures Keys(ReducerSort(count, movies)) == movies
    ensures forall p :: p in ReducerSort(count, movies) ==> p.1 == count
  {
  }

  /** Emitting a group in two parts emits the same pairs as emitting it in
      one, concatenated: the reducer handles each movie independently. */
  lemma ReducerSortAppend(count: string, a: seq<string>, b: seq<string>)
    ensures ReducerSort(count, a + b) == ReducerSort(count, a) + ReducerSort(count, b)
  {
  }

  /** A one-movie group holding the count reducer's pair re-emits that
      pair swapped back: the movie first, its padded count second. */
  lemma ReducerSortUndoesSwap(key: string, values: seq<nat>)
    ensures var c := ReducerCountRatings(key, values)[0];
            ReducerSort(c.0, [c.1]) == [(key, PaddedCount(Sum(values)))]
  {
  }

  /** The worked example has three rating lines, movie 10 rated twice and
      movie 20 once; the mapper keys the first line by movie 10. */
  lemma ExampleMapperFirstLine()
    ensures MapperGetMovies("1\t10\t4.0\t1") == Ok([("10", 1)])
  {
    assert Join(["1", "10", "4.0", "1"], Tab) == "1\t10\t4.0\t1";
    MapperOnRecord("1", "10", "4.0", "1");
  }

  /** In the worked example the count reducer emits "00002" for movie 10
      and "00001" for movie 20. */
  lemma ExampleCountReducer()
    ensures ReducerCountRatings("10", [1, 1]) == [("00002", "10")]
    ensures ReducerCountRatings("20", [1]) == [("00001", "20")]
  {
    assert Sum([1, 1]) == 2 by { assert [1, 1][..1] == [1]; }
    assert Sum([1]) == 1 by { assert [1][..0] == []; }
    ZFillDigits("2", PadWidth);
    ZFillDigits("1", PadWidth);
    assert Zeros(4) + "2" == "00002";
    assert Zeros(4) + "1" == "00001";
  }

  /** In the worked example the sort reducer emits ("20", "00001") and
      ("10", "00002"). */
  lemma ExampleSortReducer()
    ensures ReducerSort("00001", ["20"]) == [("20", "00001")]
    ensures ReducerSort("00002", ["10"]) == [("10", "00002")]
  {
  }

  /** A line without four fields is rejected, not mapped. */
  lemma ExampleMalformedLines()
    ensures MapperGetMovies("1\t10\t4.0") == Err(NotEnoughValues(3))
    ensures MapperGetMovies("") == Err(NotEnoughValues(1))
    ensures MapperGetMovies("1\t10\t4.0\t1\tx") == Err(TooManyValues)
  {
  }
}
