/** Counters of a run and the latency percentiles read off the sorted samples. */
module RunMetrics {
  import opened Ranks
  import opened Sorting
  import opened Sums

  datatype Metrics = Metrics(
    successes: nat, errors: nat, tokens: int, cost: real, latencies: seq<int>, providerErrors: map<string, nat>)

  const NO_METRICS := Metrics(0, 0, 0, 0.0, [], map[])

  function RecordSuccess(m: Metrics, latency: int, tokens: int, cost: real): Metrics {
    m.(successes := m.successes + 1, latencies := m.latencies + [latency],
       tokens := m.tokens + tokens, cost := m.cost + cost)
  }

  function RecordError(m: Metrics, provider: string, kind: string): Metrics {
    var key := provider + "." + kind;
    m.(errors := m.errors + 1,
       providerErrors := m.providerErrors[key := 1 + if key in m.providerErrors then m.providerErrors[key] else 0])
  }

  function AsReal(): nat -> real {
    (n: nat) => n as real
  }

  /** A latency per success, and every error counted under one provider and type. */
  ghost predicate Consistent(m: Metrics) {
    |m.latencies| == m.successes && MapSum(AsReal(), m.providerErrors) == m.errors as real
  }

  lemma NothingConsistent()
    ensures Consistent(NO_METRICS)
  {
  }

  /** Recording keeps the counters consistent with each other. */
  lemma RecordingKeepsConsistent(
    m: Metrics, latency: int, tokens: int, cost: real, provider: string, kind: string)
    requires Consistent(m)
    ensures Consistent(RecordSuccess(m, latency, tokens, cost))
    ensures Consistent(RecordError(m, provider, kind))
    ensures var counts, key := RecordError(m, provider, kind).providerErrors, provider + "." + kind;
            && key in counts && counts[key] == 1 + (if key in m.providerErrors then m.providerErrors[key] else 0)
            && forall k :: k != key ==> (k in counts <==> k in m.providerErrors)
                                        && (k in counts ==> counts[k] == m.providerErrors[k])
  {
    var key := provider + "." + kind;
    MapSumUpdated(AsReal(), m.providerErrors, key, RecordError(m, provider, kind).providerErrors[key]);
  }

  predicate IntLe(a: int, b: int) {
    a <= b
  }

  function MedianIndex(n: nat): (i: nat)
    requires n > 0
    ensures i < n
  {
    n / 2
  }

  function TailIndex(n: nat): (i: nat)
    requires n > 0
    ensures MedianIndex(n) <= i < n
  {
    (n as real * 0.95).Floor
  }

  function P50(latencies: seq<int>): int {
    if latencies == [] then 0 else Sort(IntLe, latencies)[MedianIndex(|latencies|)]
  }

  function P95(latencies: seq<int>): int {
    if latencies == [] then 0 else Sort(IntLe, latencies)[TailIndex(|latencies|)]
  }

  /** The percentiles are recorded latencies, in order, and do not depend on when each was recorded. */
  lemma Percentiles(latencies: seq<int>, permuted: seq<int>)
    requires multiset(latencies) == multiset(permuted)
    ensures P50(latencies) <= P95(latencies)
    ensures latencies != [] ==> P50(latencies) in latencies && P95(latencies) in latencies
    ensures P50(latencies) == P50(permuted) && P95(latencies) == P95(permuted)
  {
    assert |latencies| == |multiset(latencies)| == |permuted|;
    if latencies != [] {
      var s := Sort(IntLe, latencies);
      SortSorts(IntLe, latencies);
      SortPermutes(IntLe, latencies);
      SortOrderFree(IntLe, latencies, permuted);
      var i, j := MedianIndex(|s|), TailIndex(|s|);
      assert i < j ==> IntLe(s[i], s[j]);
      MultisetMember(s, latencies, s[i]);
      MultisetMember(s, latencies, s[j]);
    }
  }

  /** P50 and P95 are the 50th and the 95th percentile: so much of the samples and no more lies below. */
  lemma PercentileRanks(latencies: seq<int>)
    requires latencies != []
    ensures var n := |latencies|;
            && 2 * Count(Below(IntLe, P50(latencies)), latencies) <= n
            && n < 2 * Count(UpTo(IntLe, P50(latencies)), latencies)
            && Count(Below(IntLe, P95(latencies)), latencies) as real <= 0.95 * n as real
            && 0.95 * n as real < Count(UpTo(IntLe, P95(latencies)), latencies) as real
  {
    var n := |latencies|;
    RankCounts(IntLe, latencies, MedianIndex(n));
    RankCounts(IntLe, latencies, TailIndex(n));
  }

  class RunMetrics {
    var successCount: nat
    var errorCount: nat
    var totalTokens: int
    var totalCost: real
    var latenciesMs: seq<int>
    var providerErrors: map<string, nat>

    function State(): Metrics
      reads this
    {
      Metrics(successCount, errorCount, totalTokens, totalCost, latenciesMs, providerErrors)
    }

    ghost predicate Valid()
      reads this
    {
      Consistent(State())
    }

    constructor ()
      ensures Valid() && State() == NO_METRICS
    {
      successCount, errorCount, totalTokens, totalCost := 0, 0, 0, 0.0;
      latenciesMs, providerErrors := [], map[];
      new;
      NothingConsistent();
    }

    /** Keeps one latency per success, the new one last; errors are as before. */
    method Success(latency: int, tokens: int, cost: real)
      requires Valid()
      modifies this
      ensures Valid() && State() == RecordSuccess(old(State()), latency, tokens, cost)
    {
      RecordingKeepsConsistent(State(), latency, tokens, cost, "", "");
      successCount := successCount + 1;
      latenciesMs := latenciesMs + [latency];
      totalTokens := totalTokens + tokens;
      totalCost := totalCost + cost;
    }

    /** Keeps the number of errors the sum over providers and types; successes are as before. */
    method Error(provider: string, kind: string)
      requires Valid()
      modifies this
      ensures Valid() && State() == RecordError(old(State()), provider, kind)
    {
      RecordingKeepsConsistent(State(), 0, 0, 0.0, provider, kind);
      errorCount := errorCount + 1;
      var key := provider + "." + kind;
      providerErrors := providerErrors[key := 1 + if key in providerErrors then providerErrors[key] else 0];
    }
  }
}
