/**
 Summary statistics and bootstrap confidence intervals. The random generator is an arbitrary
 choice of an index for every draw, fixed by the seed; values are reals.
 */
module Statistics {
  import opened Ranks
  import opened Reals
  import opened Sorting
  import opened Sums
  import opened Wrappers

  datatype Error = EmptyInput | IndexError

  /** Which element draw `k` of resample `i` takes. */
  type Draws = (nat, nat) -> nat

  ghost predicate DrawsWithin(draw: Draws, n: nat) {
    forall i, k :: draw(i, k) < n
  }

  predicate RealLe(a: real, b: real) {
    a <= b
  }

  function Mean(s: seq<real>): real
    requires s != []
  {
    Sum(Identity(), s) / |s| as real
  }

  function Resample(values: seq<real>, draw: Draws, i: nat): (r: seq<real>)
    requires DrawsWithin(draw, |values|)
    ensures |r| == |values|
    ensures forall k :: 0 <= k < |r| ==> r[k] == values[draw(i, k)]
  {
    seq(|values|, k requires 0 <= k < |values| => values[draw(i, k)])
  }

  /** The means of `n` resamples, in the order they are drawn. */
  function Means(values: seq<real>, draw: Draws, n: nat): (r: seq<real>)
    requires values != [] && DrawsWithin(draw, |values|)
    ensures |r| == n
    ensures forall i :: 0 <= i < n ==> r[i] == Mean(Resample(values, draw, i))
  {
    seq(n, i requires 0 <= i < n => Mean(Resample(values, draw, i)))
  }

  /** `int(x)`: truncation towards zero. */
  function Truncate(x: real): int {
    if x >= 0.0 then x.Floor else -((-x).Floor)
  }

  /** `int(fraction * iterations)` */
  function PositionAt(fraction: real, iterations: int): int {
    Truncate(Scaled(fraction, iterations as real))
  }

  function LowerIndex(confidence: real, iterations: int): int {
    PositionAt((1.0 - confidence) / 2.0, iterations)
  }

  function UpperIndex(confidence: real, iterations: int): int {
    var i := PositionAt(1.0 - (1.0 - confidence) / 2.0, iterations);
    if i <= iterations - 1 then i else iterations - 1
  }

  /** Indexing a list, with negative indices counted from the end. */
  function PyIndex(s: seq<real>, i: int): Option<real> {
    if 0 <= i < |s| then Some(s[i])
    else if -|s| <= i < 0 then Some(s[|s| + i])
    else None
  }

  /** The two order statistics that bound the interval. */
  function Bounds(sorted: seq<real>, confidence: real, iterations: int): Result<(real, real), Error> {
    match (PyIndex(sorted, LowerIndex(confidence, iterations)), PyIndex(sorted, UpperIndex(confidence, iterations)))
    case (Some(lower), Some(upper)) => Ok((lower, upper))
    case _ => Err(IndexError)
  }

  function Repetitions(iterations: int): nat {
    if iterations > 0 then iterations else 0
  }

  datatype Interval = Interval(mean: real, lower: real, upper: real, confidence: real, sampleSize: nat, small: bool)

  /** The interval, or the error, for any input whatsoever. */
  function Bootstrap(values: seq<real>, confidence: real, iterations: int, draw: Draws): Result<Interval, Error>
    requires values != [] ==> DrawsWithin(draw, |values|)
  {
    if values == [] then Err(EmptyInput)
    else if |values| == 1 then Ok(Interval(values[0], values[0], values[0], confidence, 1, true))
    else
      match Bounds(Sort(RealLe, Means(values, draw, Repetitions(iterations))), confidence, iterations)
      case Err(e) => Err(e)
      case Ok((lower, upper)) =>
        Ok(Interval(Mean(values), lower, upper, confidence, |values|, |values| < 10))
  }

  method BootstrapCi(values: seq<real>, confidence: real, iterations: int, draw: Draws)
    returns (r: Result<Interval, Error>)
    requires values != [] ==> DrawsWithin(draw, |values|)
    ensures r == Bootstrap(values, confidence, iterations, draw)
  {
    if values == [] {
      return Err(EmptyInput);
    }
    var n := |values|;
    if n == 1 {
      return Ok(Interval(values[0], values[0], values[0], confidence, 1, true));
    }
    var means := [];
    var i := 0;
    while i < iterations
      invariant 0 <= i <= Repetitions(iterations)
      invariant means == Means(values, draw, i)
    {
      var resample := [];
      var k := 0;
      while k < n
        invariant 0 <= k <= n
        invariant resample == Resample(values, draw, i)[..k]
      {
        resample := resample + [values[draw(i, k)]];
        k := k + 1;
      }
      assert resample == Resample(values, draw, i);
      means := means + [Mean(resample)];
      i := i + 1;
    }
    means := Sort(RealLe, means);
    var bounds := Bounds(means, confidence, iterations);
    match bounds
    case Err(e) => return Err(e);
    case Ok((lower, upper)) => return Ok(Interval(Mean(values), lower, upper, confidence, n, n < 10));
  }

  /** Differences of the means of two resamples each. */
  function Deltas(a: seq<real>, b: seq<real>, drawA: Draws, drawB: Draws, n: nat): (r: seq<real>)
    requires a != [] && b != [] && DrawsWithin(drawA, |a|) && DrawsWithin(drawB, |b|)
    ensures |r| == n
    ensures forall i :: 0 <= i < n ==> r[i] == Mean(Resample(a, drawA, i)) - Mean(Resample(b, drawB, i))
  {
    seq(n, i requires 0 <= i < n => Mean(Resample(a, drawA, i)) - Mean(Resample(b, drawB, i)))
  }

  /** The mean difference with its interval. */
  method PairwiseDeltaCi(
    a: seq<real>, b: seq<real>, confidence: real, iterations: int, drawA: Draws, drawB: Draws)
    returns (r: Result<(real, real, real), Error>)
    requires a != [] ==> DrawsWithin(drawA, |a|)
    requires b != [] ==> DrawsWithin(drawB, |b|)
    ensures a == [] || b == [] ==> r == Err(EmptyInput)
    ensures a != [] && b != [] ==>
              r == match Bounds(Sort(RealLe, Deltas(a, b, drawA, drawB, Repetitions(iterations))),
                                confidence, iterations)
                   case Err(e) => Err(e)
                   case Ok((lower, upper)) => Ok((Mean(a) - Mean(b), lower, upper))
  {
    if a == [] || b == [] {
      return Err(EmptyInput);
    }
    var deltas := [];
    var i := 0;
    while i < iterations
      invariant 0 <= i <= Repetitions(iterations)
      invariant deltas == Deltas(a, b, drawA, drawB, i)
    {
      deltas := deltas + [Mean(Resample(a, drawA, i)) - Mean(Resample(b, drawB, i))];
      i := i + 1;
    }
    deltas := Sort(RealLe, deltas);
    var bounds := Bounds(deltas, confidence, iterations);
    match bounds
    case Err(e) => return Err(e);
    case Ok((lower, upper)) => return Ok((Mean(a) - Mean(b), lower, upper));
  }

  // ---------------------------------------------------------------------------
  // Indices
  // ---------------------------------------------------------------------------

  ghost predicate Sensible(confidence: real, iterations: int) {
    0.0 <= confidence <= 1.0 && iterations >= 1
  }

  lemma PositionMonotone(x: real, y: real, iterations: int)
    requires 0.0 <= x <= y && iterations >= 1
    ensures 0 <= PositionAt(x, iterations) <= PositionAt(y, iterations)
  {
    MultiplyMonotone(0.0, x, iterations as real);
    MultiplyMonotone(x, y, iterations as real);
    assert Scaled(0.0, iterations as real) == 0.0;
  }

  lemma HalfBelow(iterations: int)
    requires iterations >= 1
    ensures PositionAt(0.5, iterations) <= iterations - 1
  {
  }

  /** Both indices are positions of the list, the lower one in front. */
  lemma IndicesInRange(confidence: real, iterations: int)
    requires Sensible(confidence, iterations)
    ensures 0 <= LowerIndex(confidence, iterations) <= UpperIndex(confidence, iterations) < iterations
  {
    var tail := (1.0 - confidence) / 2.0;
    PositionMonotone(tail, 1.0 - tail, iterations);
    PositionMonotone(tail, 0.5, iterations);
    HalfBelow(iterations);
  }

  /** More confidence moves the lower index down and the upper index up. */
  lemma IndicesNested(low: real, high: real, iterations: int)
    requires Sensible(low, iterations) && Sensible(high, iterations) && low <= high
    ensures LowerIndex(high, iterations) <= LowerIndex(low, iterations)
    ensures UpperIndex(low, iterations) <= UpperIndex(high, iterations)
  {
    var tailLow, tailHigh := (1.0 - low) / 2.0, (1.0 - high) / 2.0;
    PositionMonotone(tailHigh, tailLow, iterations);
    PositionMonotone(1.0 - tailLow, 1.0 - tailHigh, iterations);
  }

  // ---------------------------------------------------------------------------
  // Intervals
  // ---------------------------------------------------------------------------

  ghost predicate Between(s: seq<real>, low: real, high: real) {
    forall i :: 0 <= i < |s| ==> low <= s[i] <= high
  }

  lemma {:induction false} Extremes(s: seq<real>) returns (low: real, high: real)
    ensures Between(s, low, high)
  {
    low, high := 0.0, 0.0;
    if s != [] {
      low, high := Extremes(s[1..]);
      assert forall i :: 0 < i < |s| ==> s[i] == s[1..][i - 1];
      if s[0] < low { low := s[0]; }
      if s[0] > high { high := s[0]; }
    }
  }

  lemma MeanBetween(s: seq<real>, low: real, high: real)
    requires s != [] && Between(s, low, high)
    ensures low <= Mean(s) <= high
  {
    SumBetween(Identity(), s, low, high);
    var n := |s| as real;
    DivideMonotone(Multiple(|s|, low), Sum(Identity(), s), n);
    DivideMonotone(Sum(Identity(), s), Multiple(|s|, high), n);
    assert Multiple(|s|, low) / n == low && Multiple(|s|, high) / n == high;
  }

  lemma SortedBetween(s: seq<real>, low: real, high: real)
    requires Between(s, low, high)
    ensures Sorted(RealLe, Sort(RealLe, s)) && Between(Sort(RealLe, s), low, high)
  {
    SortSorts(RealLe, s);
    SortPermutes(RealLe, s);
    forall i | 0 <= i < |s| ensures low <= Sort(RealLe, s)[i] <= high {
      MultisetMember(Sort(RealLe, s), s, Sort(RealLe, s)[i]);
    }
  }

  /** The bounds read off a list of that many numbers are in order and among them. */
  lemma BoundsInOrder(s: seq<real>, confidence: real, iterations: int, low: real, high: real)
    requires Sensible(confidence, iterations) && |s| == iterations && Between(s, low, high)
    ensures var sorted := Sort(RealLe, s);
            var i, j := LowerIndex(confidence, iterations), UpperIndex(confidence, iterations);
            && 0 <= i <= j < |sorted|
            && Bounds(sorted, confidence, iterations) == Ok((sorted[i], sorted[j]))
            && low <= sorted[i] <= sorted[j] <= high
  {
    IndicesInRange(confidence, iterations);
    SortedBetween(s, low, high);
    var sorted := Sort(RealLe, s);
    var i, j := LowerIndex(confidence, iterations), UpperIndex(confidence, iterations);
    assert i < j ==> RealLe(sorted[i], sorted[j]);
  }

  lemma MeansBetween(values: seq<real>, draw: Draws, n: nat, low: real, high: real)
    requires values != [] && DrawsWithin(draw, |values|) && Between(values, low, high)
    ensures Between(Means(values, draw, n), low, high)
  {
    forall i | 0 <= i < n ensures low <= Means(values, draw, n)[i] <= high {
      MeanBetween(Resample(values, draw, i), low, high);
    }
  }

  /**
   For a confidence between 0 and 1 and at least one iteration there is an interval, its
   bounds are in order, and they and the mean lie between the least and the greatest value.
   */
  lemma IntervalWithinSample(
    values: seq<real>, confidence: real, iterations: int, draw: Draws, low: real, high: real)
    requires values != [] && DrawsWithin(draw, |values|) && Sensible(confidence, iterations)
    requires Between(values, low, high)
    ensures Bootstrap(values, confidence, iterations, draw).Ok?
    ensures var ci := Bootstrap(values, confidence, iterations, draw).value;
            && low <= ci.lower <= ci.upper <= high && low <= ci.mean <= high
            && ci.sampleSize == |values| && ci.confidence == confidence && (ci.small <==> |values| < 10)
  {
    MeanBetween(values, low, high);
    MeansBetween(values, draw, iterations, low, high);
    BoundsInOrder(Means(values, draw, iterations), confidence, iterations, low, high);
  }

  /** With the same draws, the interval at a higher confidence contains the one at a lower. */
  lemma IntervalsNested(values: seq<real>, less: real, more: real, iterations: int, draw: Draws)
    requires values != [] && DrawsWithin(draw, |values|)
    requires Sensible(less, iterations) && Sensible(more, iterations) && less <= more
    ensures Bootstrap(values, less, iterations, draw).Ok? && Bootstrap(values, more, iterations, draw).Ok?
    ensures var narrow := Bootstrap(values, less, iterations, draw).value;
            var wide := Bootstrap(values, more, iterations, draw).value;
            wide.lower <= narrow.lower && narrow.upper <= wide.upper
  {
    var means := Means(values, draw, iterations);
    var low, high := Extremes(values);
    MeansBetween(values, draw, iterations, low, high);
    BoundsInOrder(means, less, iterations, low, high);
    BoundsInOrder(means, more, iterations, low, high);
    IndicesNested(less, more, iterations);
    SortedBetween(means, low, high);
    var sorted := Sort(RealLe, means);
    SortedAt(sorted, LowerIndex(more, iterations), LowerIndex(less, iterations));
    SortedAt(sorted, UpperIndex(less, iterations), UpperIndex(more, iterations));
  }

  lemma SortedAt(s: seq<real>, i: nat, j: nat)
    requires Sorted(RealLe, s) && i <= j < |s|
    ensures s[i] <= s[j]
  {
    assert i < j ==> RealLe(s[i], s[j]);
  }

  // ---------------------------------------------------------------------------
  // Larger samples, larger intervals
  // ---------------------------------------------------------------------------

  ghost predicate Pointwise(s: seq<real>, t: seq<real>) {
    |s| == |t| && forall i :: 0 <= i < |s| ==> s[i] <= t[i]
  }

  lemma InsertInFront(x: real, s: seq<real>)
    requires Sorted(RealLe, [x] + s)
    ensures Insert(RealLe, x, s) == [x] + s
  {
    assert s != [] ==> RealLe(([x] + s)[0], ([x] + s)[1]);
  }

  lemma TailPointwise(x: real, s: seq<real>, y: real, t: seq<real>)
    requires x <= y && Pointwise(s, t)
    ensures Pointwise([x] + s, [y] + t)
  {
  }

  lemma {:induction false} InsertMonotone(x: real, s: seq<real>, y: real, t: seq<real>)
    requires x <= y && Pointwise(s, t) && Sorted(RealLe, s) && Sorted(RealLe, t)
    ensures Pointwise(Insert(RealLe, x, s), Insert(RealLe, y, t))
    decreases |s|
  {
    if s != [] {
      var s', t' := s[1..], t[1..];
      assert s == [s[0]] + s' && t == [t[0]] + t';
      if RealLe(x, s[0]) && RealLe(y, t[0]) {
        TailPointwise(x, s, y, t);
      } else if RealLe(x, s[0]) {
        InsertInFront(s[0], s');
        InsertMonotone(s[0], s', y, t');
        TailPointwise(x, s, t[0], Insert(RealLe, y, t'));
      } else if RealLe(y, t[0]) {
        InsertInFront(t[0], t');
        InsertMonotone(x, s', t[0], t');
        TailPointwise(s[0], Insert(RealLe, x, s'), y, t);
      } else {
        InsertMonotone(x, s', y, t');
        TailPointwise(s[0], Insert(RealLe, x, s'), t[0], Insert(RealLe, y, t'));
      }
    }
  }

  /** Raising numbers raises every order statistic. */
  lemma {:induction false} SortMonotone(s: seq<real>, t: seq<real>)
    requires Pointwise(s, t)
    ensures Pointwise(Sort(RealLe, s), Sort(RealLe, t))
    decreases |s|
  {
    if s != [] {
      SortMonotone(s[1..], t[1..]);
      SortSorts(RealLe, s[1..]);
      SortSorts(RealLe, t[1..]);
      InsertMonotone(s[0], Sort(RealLe, s[1..]), t[0], Sort(RealLe, t[1..]));
    }
  }

  lemma MeanMonotone(s: seq<real>, t: seq<real>)
    requires s != [] && Pointwise(s, t)
    ensures Mean(s) <= Mean(t)
  {
    SumMonotone(Identity(), s, Identity(), t);
    DivideMonotone(Sum(Identity(), s), Sum(Identity(), t), |s| as real);
  }

  /** With the same draws, raising sample values raises the mean and both bounds. */
  lemma IntervalMonotone(values: seq<real>, raised: seq<real>, confidence: real, iterations: int, draw: Draws)
    requires values != [] && Pointwise(values, raised) && DrawsWithin(draw, |values|)
    requires Sensible(confidence, iterations)
    ensures Bootstrap(values, confidence, iterations, draw).Ok?
    ensures Bootstrap(raised, confidence, iterations, draw).Ok?
    ensures var before := Bootstrap(values, confidence, iterations, draw).value;
            var after := Bootstrap(raised, confidence, iterations, draw).value;
            before.mean <= after.mean && before.lower <= after.lower && before.upper <= after.upper
  {
    MeanMonotone(values, raised);
    var s, t := Means(values, draw, iterations), Means(raised, draw, iterations);
    forall i | 0 <= i < iterations ensures s[i] <= t[i] {
      MeanMonotone(Resample(values, draw, i), Resample(raised, draw, i));
    }
    SortMonotone(s, t);
    IndicesInRange(confidence, iterations);
  }

  lemma DifferenceMonotone(
    a: seq<real>, raised: seq<real>, b: seq<real>, drawA: Draws, drawB: Draws, n: nat)
    requires a != [] && b != [] && DrawsWithin(drawA, |a|) && DrawsWithin(drawB, |b|)
    requires Pointwise(a, raised)
    ensures Pointwise(Deltas(a, b, drawA, drawB, n), Deltas(raised, b, drawA, drawB, n))
    ensures Pointwise(Deltas(b, raised, drawB, drawA, n), Deltas(b, a, drawB, drawA, n))
  {
    forall i | 0 <= i < n
      ensures Deltas(a, b, drawA, drawB, n)[i] <= Deltas(raised, b, drawA, drawB, n)[i]
      ensures Deltas(b, raised, drawB, drawA, n)[i] <= Deltas(b, a, drawB, drawA, n)[i]
    {
      MeanMonotone(Resample(a, drawA, i), Resample(raised, drawA, i));
    }
  }

  /** Raising the first sample raises the interval of the difference; raising the second lowers it. */
  lemma DeltaIntervalMonotone(
    a: seq<real>, raised: seq<real>, b: seq<real>, confidence: real, iterations: int, drawA: Draws, drawB: Draws)
    requires a != [] && b != [] && DrawsWithin(drawA, |a|) && DrawsWithin(drawB, |b|)
    requires Pointwise(a, raised) && Sensible(confidence, iterations)
    ensures var first := Bounds(Sort(RealLe, Deltas(a, b, drawA, drawB, iterations)), confidence, iterations);
            var second := Bounds(Sort(RealLe, Deltas(raised, b, drawA, drawB, iterations)), confidence, iterations);
            first.Ok? && second.Ok? && first.value.0 <= second.value.0 && first.value.1 <= second.value.1
    ensures var first := Bounds(Sort(RealLe, Deltas(b, raised, drawB, drawA, iterations)), confidence, iterations);
            var second := Bounds(Sort(RealLe, Deltas(b, a, drawB, drawA, iterations)), confidence, iterations);
            first.Ok? && second.Ok? && first.value.0 <= second.value.0 && first.value.1 <= second.value.1
  {
    DifferenceMonotone(a, raised, b, drawA, drawB, iterations);
    SortMonotone(Deltas(a, b, drawA, drawB, iterations), Deltas(raised, b, drawA, drawB, iterations));
    SortMonotone(Deltas(b, raised, drawB, drawA, iterations), Deltas(b, a, drawB, drawA, iterations));
    IndicesInRange(confidence, iterations);
  }

  // ---------------------------------------------------------------------------
  // Summary
  // ---------------------------------------------------------------------------

  function Median(values: seq<real>): real
    requires values != []
  {
    var s, half := Sort(RealLe, values), |values| / 2;
    if |values| % 2 == 1 then s[half] else (s[half - 1] + s[half]) / 2.0
  }

  function SquaredDeviation(mean: real): real -> real {
    (x: real) => (x - mean) * (x - mean)
  }

  /** The sample variance, zero for a single value. */
  function Variance(values: seq<real>): real
    requires values != []
  {
    if |values| == 1 then 0.0 else Sum(SquaredDeviation(Mean(values)), values) / (|values| - 1) as real
  }

  datatype Summary = Summary(count: nat, mean: real, median: real, variance: real)

  function CalculateSummary(values: seq<real>): Result<Summary, Error> {
    if values == [] then Err(EmptyInput)
    else Ok(Summary(|values|, Mean(values), Median(values), Variance(values)))
  }

  lemma SquareNotNegative(x: real)
    ensures x * x >= 0.0
  {
  }

  lemma VarianceNotNegative(values: seq<real>)
    requires values != []
    ensures Variance(values) >= 0.0
  {
    var f, zero := SquaredDeviation(Mean(values)), (x: real) => 0.0;
    forall i | 0 <= i < |values| ensures zero(values[i]) <= f(values[i]) {
      SquareNotNegative(values[i] - Mean(values));
    }
    SumMonotone(zero, values, f, values);
    SumBetween(zero, values, 0.0, 0.0);
    assert Multiple(|values|, 0.0) == 0.0;
    if |values| > 1 {
      DivideMonotone(0.0, Sum(f, values), (|values| - 1) as real);
    }
  }

  /** Mean and median lie within the sample, the variance is not negative, and the order of the values is immaterial. */
  lemma SummaryIsSound(values: seq<real>, permuted: seq<real>, low: real, high: real)
    requires values != [] && Between(values, low, high) && multiset(values) == multiset(permuted)
    ensures CalculateSummary(values).Ok? && CalculateSummary(permuted) == CalculateSummary(values)
    ensures var s := CalculateSummary(values).value;
            && s == Summary(|values|, Mean(values), Median(values), Variance(values))
            && low <= s.mean <= high && low <= s.median <= high && s.variance >= 0.0
            && (|values| == 1 ==> s.variance == 0.0)
  {
    assert |values| == |multiset(values)| == |permuted|;
    MeanBetween(values, low, high);
    SortedBetween(values, low, high);
    VarianceNotNegative(values);
    SumPermuted(Identity(), values, permuted);
    SumPermuted(SquaredDeviation(Mean(values)), values, permuted);
    SortSorts(RealLe, values);
    SortOrderFree(RealLe, values, permuted);
  }

  // ---------------------------------------------------------------------------
  // What the numbers are
  // ---------------------------------------------------------------------------

  /** The share of the samples that an interval of this confidence leaves out on either side. */
  function Tail(confidence: real, iterations: int): real {
    Scaled((1.0 - confidence) / 2.0, iterations as real)
  }

  lemma TailPositions(confidence: real, iterations: int)
    requires Sensible(confidence, iterations)
    ensures var tail := Tail(confidence, iterations);
            && LowerIndex(confidence, iterations) as real <= tail < LowerIndex(confidence, iterations) as real + 1.0
            && (iterations - 1 - UpperIndex(confidence, iterations)) as real <= tail
            && tail <= (iterations - UpperIndex(confidence, iterations)) as real
  {
    var share, n := (1.0 - confidence) / 2.0, iterations as real;
    MultiplyMonotone(0.0, share, n);
    assert Scaled(1.0 - share, n) == n - Scaled(share, n);
    MultiplyMonotone(share, 1.0, n);
    assert Scaled(1.0, n) == n && Scaled(0.0, n) == 0.0;
  }

  /**
   The bounds cut off the tails: no more than the tail's share of the samples lies below the
   lower bound, or above the upper one, and at least that share lies no higher, or no lower.
   */
  lemma BoundsCutTails(samples: seq<real>, confidence: real, iterations: int)
    requires Sensible(confidence, iterations) && |samples| == iterations
    ensures Bounds(Sort(RealLe, samples), confidence, iterations).Ok?
    ensures var (lower, upper) := Bounds(Sort(RealLe, samples), confidence, iterations).value;
            var tail := (1.0 - confidence) / 2.0 * iterations as real;
            && Count(Below(RealLe, lower), samples) as real <= tail < Count(UpTo(RealLe, lower), samples) as real
            && Count(Above(RealLe, upper), samples) as real <= tail <= Count(AtLeast(RealLe, upper), samples) as real
  {
    IndicesInRange(confidence, iterations);
    TailPositions(confidence, iterations);
    RankCounts(RealLe, samples, LowerIndex(confidence, iterations));
    RankCounts(RealLe, samples, UpperIndex(confidence, iterations));
  }

  /** So does a bootstrap interval with the means of the resamples. */
  lemma IntervalCutsTails(values: seq<real>, confidence: real, iterations: int, draw: Draws)
    requires |values| > 1 && DrawsWithin(draw, |values|) && Sensible(confidence, iterations)
    ensures Bootstrap(values, confidence, iterations, draw).Ok?
    ensures var ci := Bootstrap(values, confidence, iterations, draw).value;
            var means := Means(values, draw, iterations);
            var tail := (1.0 - confidence) / 2.0 * iterations as real;
            && Count(Below(RealLe, ci.lower), means) as real <= tail < Count(UpTo(RealLe, ci.lower), means) as real
            && Count(Above(RealLe, ci.upper), means) as real <= tail
            && tail <= Count(AtLeast(RealLe, ci.upper), means) as real
  {
    BoundsCutTails(Means(values, draw, iterations), confidence, iterations);
  }

  /** There is no interval without values, and none of several values without an iteration. */
  lemma NoInterval(values: seq<real>, confidence: real, iterations: int, draw: Draws)
    requires values != [] ==> DrawsWithin(draw, |values|)
    ensures values == [] ==> Bootstrap(values, confidence, iterations, draw) == Err(EmptyInput)
    ensures |values| > 1 && iterations <= 0 ==> Bootstrap(values, confidence, iterations, draw) == Err(IndexError)
  {
    if |values| > 1 && iterations <= 0 {
      assert Sort(RealLe, Means(values, draw, 0)) == [];
    }
  }

  function Square(): real -> real {
    (x: real) => x * x
  }

  lemma OneDeviation(mean: real, x: real)
    ensures SquaredDeviation(mean)(x) == Square()(x) - Scaled(x, 2.0 * mean) + mean * mean
  {
    assert (x - mean) * (x - mean) == x * x - x * mean - mean * x + mean * mean;
    assert x * (2.0 * mean) == x * mean + mean * x;
  }

  lemma {:induction false} DeviationSum(mean: real, s: seq<real>)
    ensures Sum(SquaredDeviation(mean), s)
         == Sum(Square(), s) - Scaled(Sum(Identity(), s), 2.0 * mean) + Multiple(|s|, mean * mean)
  {
    if s == [] {
      NoMultiple(mean * mean);
      assert Scaled(0.0, 2.0 * mean) == 0.0;
    } else {
      var front, x := s[..|s| - 1], s[|s| - 1];
      DeviationSum(mean, front);
      OneDeviation(mean, x);
      ScaledSum(Sum(Identity(), front), x, 2.0 * mean);
      MultipleStep(|front|, mean * mean);
      assert Identity()(x) == x;
    }
  }

  /** Around the mean, the deviations come to the sum of squares less the count times the squared mean. */
  lemma DeviationsFromMean(s: seq<real>, mean: real)
    requires Multiple(|s|, mean) == Sum(Identity(), s)
    ensures Sum(SquaredDeviation(mean), s) == Sum(Square(), s) - Multiple(|s|, mean * mean)
  {
    DeviationSum(mean, s);
    TwiceTheMean(|s|, mean, Sum(Identity(), s));
  }

  lemma TwiceTheMean(n: nat, mean: real, total: real)
    requires Multiple(n, mean) == total
    ensures Scaled(total, 2.0 * mean) == Multiple(n, mean * mean) + Multiple(n, mean * mean)
  {
    var x := n as real;
    assert total * (2.0 * mean) == 2.0 * (x * mean * mean);
    assert x * mean * mean == x * (mean * mean);
  }

  lemma QuotientTimes(x: real, n: nat)
    requires n > 0
    ensures Multiple(n, x / n as real) == x
  {
  }

  /** The mean times the count is the sum. */
  lemma MeanTimesCount(values: seq<real>)
    requires values != []
    ensures Multiple(|values|, Mean(values)) == Sum(Identity(), values)
  {
    QuotientTimes(Sum(Identity(), values), |values|);
  }

  /** The sample variance times one less than the count: the squares less the count times the squared mean. */
  lemma VarianceTimesCount(values: seq<real>, mean: real)
    requires |values| > 1 && mean == Mean(values)
    ensures Multiple(|values| - 1, Variance(values)) == Sum(Square(), values) - Multiple(|values|, mean * mean)
  {
    MeanTimesCount(values);
    DeviationsFromMean(values, mean);
    QuotientTimes(Sum(SquaredDeviation(mean), values), |values| - 1);
  }

  /** The median is the middle of any sorted arrangement of the values, or half way between its two middle ones. */
  lemma MedianIsMiddle(values: seq<real>, sorted: seq<real>)
    requires values != [] && multiset(sorted) == multiset(values) && Sorted(RealLe, sorted)
    ensures |sorted| == |values|
    ensures |values| % 2 == 1 ==> Median(values) == sorted[|values| / 2]
    ensures |values| % 2 == 0 ==> 2.0 * Median(values) == sorted[|values| / 2 - 1] + sorted[|values| / 2]
  {
    assert |sorted| == |multiset(sorted)| == |multiset(values)| == |values|;
    SortOrderFree(RealLe, values, sorted);
    SortFixesSorted(RealLe, sorted);
  }
}
