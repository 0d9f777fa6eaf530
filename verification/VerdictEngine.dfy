/**
 From scores to a verdict: metrics whose lower values are better are turned round, the
 weighted mean is compared with two thresholds, and in blocking categories the first failed
 score decides alone. Scores, weights and confidences are reals.
 */
module VerdictEngine {
  import opened Reals
  import opened Rounding
  import opened Sums
  import opened Wrappers

  datatype Rule = Rule(weight: Option<real>, invert: bool)

  const NO_RULE := Rule(None, false)

  datatype Score = Score(executionId: string, metricName: string, numericScore: real, passed: bool, confidence: real)

  datatype Engine = Engine(
    passThreshold: real, warnThreshold: real, minConfidence: real,
    rules: map<string, map<string, Rule>>, blocking: set<string>)

  const DEFAULT_BLOCKING := {"context_isolation", "tool_use_boundaries"}

  /** The constructor: an empty set of blocking categories stands for the default ones. */
  function MakeEngine(
    passThreshold: real, warnThreshold: real, minConfidence: real,
    rules: map<string, map<string, Rule>>, blocking: set<string>): Engine
  {
    Engine(passThreshold, warnThreshold, minConfidence, rules,
           if blocking == {} then DEFAULT_BLOCKING else blocking)
  }

  datatype Status = FAIL | WARN | PASS | INCONCLUSIVE

  datatype Verdict = Verdict(
    executionId: string, status: Status, confidence: real, requiresReview: bool, blockingMetric: Option<string>)

  // ---------------------------------------------------------------------------
  // Quality of one score
  // ---------------------------------------------------------------------------

  function MetricRule(e: Engine, category: string, metric: string): Rule {
    if category in e.rules && metric in e.rules[category] then e.rules[category][metric] else NO_RULE
  }

  function Weight(e: Engine, category: string, s: Score): real {
    match MetricRule(e, category, s.metricName).weight
    case Some(w) => w
    case None => 1.0
  }

  function Clamp(x: real): (r: real)
    ensures 0.0 <= r <= 1.0
  {
    if x < 0.0 then 0.0 else if x > 1.0 then 1.0 else x
  }

  /** Higher is better, between 0 and 1. */
  function Quality(e: Engine, category: string, s: Score): (q: real)
    ensures 0.0 <= q <= 1.0
  {
    var value := Clamp(s.numericScore);
    if MetricRule(e, category, s.metricName).invert then 1.0 - value else value
  }

  // ---------------------------------------------------------------------------
  // The decision
  // ---------------------------------------------------------------------------

  /** What one score contributes to the weighted sum. */
  function Contribution(e: Engine, category: string): Score -> real {
    (s: Score) => Scaled(Quality(e, category, s), Weight(e, category, s))
  }

  function WeightIn(e: Engine, category: string): Score -> real {
    (s: Score) => Weight(e, category, s)
  }

  function Confidence(): Score -> real {
    (s: Score) => s.confidence
  }

  function WeightedSum(e: Engine, category: string, scores: seq<Score>): real {
    Sum(Contribution(e, category), scores)
  }

  function TotalWeight(e: Engine, category: string, scores: seq<Score>): real {
    Sum(WeightIn(e, category), scores)
  }

  function Overall(e: Engine, category: string, scores: seq<Score>): real {
    var total := TotalWeight(e, category, scores);
    if total == 0.0 then 0.0 else WeightedSum(e, category, scores) / total
  }

  function MeanConfidence(scores: seq<Score>): real
    requires scores != []
  {
    Sum(Confidence(), scores) / |scores| as real
  }

  /** The metric of the first failed score at or after position `i`. */
  function FirstFailed(scores: seq<Score>, i: nat): (metric: Option<string>)
    requires i <= |scores|
    decreases |scores| - i
  {
    if i == |scores| then None
    else if !scores[i].passed then Some(scores[i].metricName)
    else FirstFailed(scores, i + 1)
  }

  function BlockingFailure(e: Engine, category: string, scores: seq<Score>): Option<string> {
    if category in e.blocking then FirstFailed(scores, 0) else None
  }

  /** A failure blocks only if its metric has a name: an empty name reads as no failure. */
  predicate Blocked(e: Engine, category: string, scores: seq<Score>) {
    var metric := BlockingFailure(e, category, scores);
    metric.Some? && metric.value != ""
  }

  /** What the mean alone would give. */
  function ByThreshold(e: Engine, overall: real): Status {
    if overall >= e.passThreshold then PASS else if overall >= e.warnThreshold then WARN else FAIL
  }

  function StatusOf(e: Engine, category: string, scores: seq<Score>): Status {
    if scores == [] then INCONCLUSIVE
    else if Blocked(e, category, scores) then FAIL
    else ByThreshold(e, Overall(e, category, scores))
  }

  const PLACES_3 := 1000.0

  /** One pass for the blocking failure, one for the weighted mean, one for the confidence. */
  method Decide(e: Engine, category: string, scores: seq<Score>) returns (v: Verdict)
    ensures v.status == StatusOf(e, category, scores)
    ensures scores == [] ==> v == Verdict("", INCONCLUSIVE, 0.0, true, None)
    ensures scores != [] ==>
              && v.executionId == scores[0].executionId
              && v.confidence == Round(MeanConfidence(scores), 1000.0)
              && (v.requiresReview <==> MeanConfidence(scores) < e.minConfidence)
              && v.blockingMetric == BlockingFailure(e, category, scores)
    ensures v.blockingMetric.Some? <==>
              category in e.blocking && exists i :: 0 <= i < |scores| && !scores[i].passed
  {
    if category in e.blocking {
      var first := FirstFailedIs(scores, 0);
    }
    if scores == [] {
      return Verdict("", INCONCLUSIVE, 0.0, true, None);
    }
    var blockingFailure: Option<string> := None;
    if category in e.blocking {
      var i := 0;
      while i < |scores|
        invariant 0 <= i <= |scores| && blockingFailure == None
        invariant FirstFailed(scores, i) == FirstFailed(scores, 0)
      {
        if !scores[i].passed {
          blockingFailure := Some(scores[i].metricName);
          break;
        }
        i := i + 1;
      }
    }
    var weightedSum, totalWeight, confidences := 0.0, 0.0, 0.0;
    var k := 0;
    while k < |scores|
      invariant 0 <= k <= |scores|
      invariant weightedSum == WeightedSum(e, category, scores[..k])
      invariant totalWeight == TotalWeight(e, category, scores[..k])
      invariant confidences == Sum(Confidence(), scores[..k])
    {
      SumPrefix(Contribution(e, category), scores, k);
      SumPrefix(WeightIn(e, category), scores, k);
      SumPrefix(Confidence(), scores, k);
      var weight := Weight(e, category, scores[k]);
      weightedSum := weightedSum + Scaled(Quality(e, category, scores[k]), weight);
      totalWeight := totalWeight + weight;
      confidences := confidences + scores[k].confidence;
      k := k + 1;
    }
    assert scores[..|scores|] == scores;
    var overall := if totalWeight == 0.0 then 0.0 else weightedSum / totalWeight;
    var confidence := confidences / |scores| as real;
    var status :=
      if blockingFailure.Some? && blockingFailure.value != "" then FAIL else ByThreshold(e, overall);
    return Verdict(scores[0].executionId, status, Round(confidence, PLACES_3),
                   confidence < e.minConfidence, blockingFailure);
  }

  // ---------------------------------------------------------------------------
  // The mean
  // ---------------------------------------------------------------------------

  ghost predicate NonNegativeWeights(e: Engine) {
    forall c, m :: c in e.rules && m in e.rules[c] && e.rules[c][m].weight.Some? ==>
      e.rules[c][m].weight.value >= 0.0
  }

  lemma WeightNotNegative(e: Engine, category: string, s: Score)
    requires NonNegativeWeights(e)
    ensures Weight(e, category, s) >= 0.0
  {
  }

  lemma ContributionInRange(e: Engine, category: string, s: Score)
    requires NonNegativeWeights(e)
    ensures 0.0 <= Contribution(e, category)(s) <= WeightIn(e, category)(s)
  {
    var weight := Weight(e, category, s);
    WeightNotNegative(e, category, s);
    MultiplyMonotone(Quality(e, category, s), 1.0, weight);
    MultiplyMonotone(0.0, Quality(e, category, s), weight);
    assert Scaled(0.0, weight) == 0.0 && Scaled(1.0, weight) == weight;
  }

  /** With non-negative weights the overall quality is between 0 and 1. */
  lemma OverallInUnit(e: Engine, category: string, scores: seq<Score>)
    requires NonNegativeWeights(e)
    ensures 0.0 <= Overall(e, category, scores) <= 1.0
    ensures TotalWeight(e, category, scores) >= 0.0
  {
    var q, w := Contribution(e, category), WeightIn(e, category);
    forall i | 0 <= i < |scores| ensures 0.0 <= q(scores[i]) <= w(scores[i]) {
      ContributionInRange(e, category, scores[i]);
    }
    var zero := (s: Score) => 0.0;
    SumMonotone(zero, scores, q, scores);
    SumMonotone(q, scores, w, scores);
    SumBetween(zero, scores, 0.0, 0.0);
    assert Multiple(|scores|, 0.0) == 0.0;
    var sum, total := WeightedSum(e, category, scores), TotalWeight(e, category, scores);
    if total > 0.0 {
      DivideMonotone(0.0, sum, total);
      DivideMonotone(sum, total, total);
      assert total / total == 1.0;
    }
  }

  /** The second score is at least as good as the first on the same metric. */
  ghost predicate Improves(e: Engine, category: string, a: Score, b: Score) {
    && a.metricName == b.metricName
    && Quality(e, category, a) <= Quality(e, category, b)
    && (a.passed ==> b.passed)
  }

  ghost predicate AllImprove(e: Engine, category: string, a: seq<Score>, b: seq<Score>) {
    |a| == |b| && forall i :: 0 <= i < |a| ==> Improves(e, category, a[i], b[i])
  }

  function Rank(s: Status): int {
    match s
    case FAIL => 0
    case WARN => 1
    case PASS => 2
    case INCONCLUSIVE => -1
  }

  lemma ImprovedContribution(e: Engine, category: string, x: Score, y: Score)
    requires NonNegativeWeights(e) && Improves(e, category, x, y)
    ensures Contribution(e, category)(x) <= Contribution(e, category)(y)
    ensures WeightIn(e, category)(x) == WeightIn(e, category)(y)
  {
    var weight := Weight(e, category, x);
    WeightNotNegative(e, category, x);
    MultiplyMonotone(Quality(e, category, x), Quality(e, category, y), weight);
    assert Weight(e, category, y) == weight;
  }

  lemma OverallMonotone(e: Engine, category: string, a: seq<Score>, b: seq<Score>)
    requires NonNegativeWeights(e) && AllImprove(e, category, a, b)
    ensures Overall(e, category, a) <= Overall(e, category, b)
  {
    var q, w := Contribution(e, category), WeightIn(e, category);
    forall i | 0 <= i < |a| ensures q(a[i]) <= q(b[i]) && w(a[i]) == w(b[i]) {
      ImprovedContribution(e, category, a[i], b[i]);
    }
    SumMonotone(q, a, q, b);
    SumEqual(w, a, w, b);
    OverallInUnit(e, category, a);
    var total := TotalWeight(e, category, a);
    if total > 0.0 {
      DivideMonotone(WeightedSum(e, category, a), WeightedSum(e, category, b), total);
    }
  }

  /** The weight configured for the metric, or one. */
  predicate Configured(e: Engine, category: string, metric: string) {
    category in e.rules && metric in e.rules[category]
  }

  /** A score on its own: its weight, and its value, turned round if so configured, cut off at nought and one. */
  lemma LoneScore(e: Engine, category: string, s: Score)
    ensures TotalWeight(e, category, [s]) ==
              if Configured(e, category, s.metricName) && e.rules[category][s.metricName].weight.Some?
              then e.rules[category][s.metricName].weight.value else 1.0
    ensures TotalWeight(e, category, [s]) != 0.0 ==>
              var value := if s.numericScore < 0.0 then 0.0 else if s.numericScore > 1.0 then 1.0 else s.numericScore;
              Overall(e, category, [s]) ==
                if Configured(e, category, s.metricName) && e.rules[category][s.metricName].invert
                then 1.0 - value else value
    ensures MeanConfidence([s]) == s.confidence
  {
    assert [s][..0] == [];
    var q, w := Quality(e, category, s), Weight(e, category, s);
    assert Sum(Contribution(e, category), [s]) == Sum(Contribution(e, category), []) + Scaled(q, w);
    assert Sum(WeightIn(e, category), [s]) == Sum(WeightIn(e, category), []) + w;
    assert Sum(Confidence(), [s]) == Sum(Confidence(), []) + s.confidence;
    if w != 0.0 {
      assert Scaled(q, w) / w == q;
    }
  }

  lemma OverallTimesWeight(e: Engine, category: string, scores: seq<Score>)
    requires NonNegativeWeights(e)
    ensures Scaled(Overall(e, category, scores), TotalWeight(e, category, scores)) == WeightedSum(e, category, scores)
  {
    var q, w := Contribution(e, category), WeightIn(e, category);
    forall i | 0 <= i < |scores| ensures 0.0 <= q(scores[i]) <= w(scores[i]) {
      ContributionInRange(e, category, scores[i]);
    }
    SumMonotone(q, scores, w, scores);
    SumNotNegative(q, scores);
    if Sum(w, scores) != 0.0 {
      QuotientScaled(Sum(q, scores), Sum(w, scores));
    } else {
      assert Scaled(0.0, 0.0) == 0.0;
    }
  }

  lemma QuotientScaled(x: real, y: real)
    requires y != 0.0
    ensures Scaled(x / y, y) == x
  {
  }

  /** The overall quality of two lists together is the mean of both, weighted with their weights. */
  lemma OverallOfParts(e: Engine, category: string, a: seq<Score>, b: seq<Score>)
    requires NonNegativeWeights(e)
    ensures TotalWeight(e, category, a + b) == TotalWeight(e, category, a) + TotalWeight(e, category, b)
    ensures Scaled(Overall(e, category, a + b), TotalWeight(e, category, a + b))
         == Scaled(Overall(e, category, a), TotalWeight(e, category, a))
            + Scaled(Overall(e, category, b), TotalWeight(e, category, b))
  {
    SumOfParts(WeightIn(e, category), a, b);
    SumOfParts(Contribution(e, category), a, b);
    OverallTimesWeight(e, category, a);
    OverallTimesWeight(e, category, b);
    OverallTimesWeight(e, category, a + b);
  }

  /** The confidence of two lists together is the mean of both, weighted with their lengths. */
  lemma ConfidenceOfParts(a: seq<Score>, b: seq<Score>)
    requires a != [] && b != []
    ensures Scaled(MeanConfidence(a + b), |a + b| as real)
         == Scaled(MeanConfidence(a), |a| as real) + Scaled(MeanConfidence(b), |b| as real)
  {
    SumOfParts(Confidence(), a, b);
    QuotientScaled(Sum(Confidence(), a), |a| as real);
    QuotientScaled(Sum(Confidence(), b), |b| as real);
    QuotientScaled(Sum(Confidence(), a + b), |a + b| as real);
  }

  /** When no failure decides alone, the status is read off the two thresholds, each of which is still reached. */
  lemma StatusByMean(e: Engine, category: string, scores: seq<Score>)
    requires scores != [] && e.warnThreshold <= e.passThreshold
    requires category in e.blocking ==> forall i :: 0 <= i < |scores| ==> scores[i].passed
    ensures StatusOf(e, category, scores) == PASS <==> e.passThreshold <= Overall(e, category, scores)
    ensures StatusOf(e, category, scores) == WARN <==> e.warnThreshold <= Overall(e, category, scores) < e.passThreshold
    ensures StatusOf(e, category, scores) == FAIL <==> Overall(e, category, scores) < e.warnThreshold
  {
    var k := FirstFailedIs(scores, 0);
  }

  // ---------------------------------------------------------------------------
  // Failures and their names
  // ---------------------------------------------------------------------------

  ghost predicate NamedFailure(scores: seq<Score>) {
    exists i :: 0 <= i < |scores| && !scores[i].passed && scores[i].metricName != ""
  }

  ghost predicate NamelessFailure(scores: seq<Score>) {
    exists i :: 0 <= i < |scores| && !scores[i].passed && scores[i].metricName == ""
  }

  lemma {:induction false} FirstFailedIs(scores: seq<Score>, i: nat) returns (k: nat)
    requires i <= |scores|
    ensures i <= k <= |scores|
    ensures forall j :: i <= j < k ==> scores[j].passed
    ensures k < |scores| ==> !scores[k].passed && FirstFailed(scores, i) == Some(scores[k].metricName)
    ensures k == |scores| ==> FirstFailed(scores, i) == None
    decreases |scores| - i
  {
    if i == |scores| || !scores[i].passed {
      k := i;
    } else {
      k := FirstFailedIs(scores, i + 1);
    }
  }

  /** A blocking category, a named failure, and a nameless one in front of all of those. */
  ghost predicate Hidden(e: Engine, category: string, scores: seq<Score>) {
    category in e.blocking && NamedFailure(scores) && FirstFailed(scores, 0) == Some("")
  }

  /**
   In a blocking category, scores with a failure fail exactly when the first failure has a
   name or the mean fails on its own.
   */
  lemma BlockingFailureFails(e: Engine, category: string, scores: seq<Score>)
    requires category in e.blocking && exists i :: 0 <= i < |scores| && !scores[i].passed
    ensures StatusOf(e, category, scores) == FAIL <==>
              FirstFailed(scores, 0) != Some("") || ByThreshold(e, Overall(e, category, scores)) == FAIL
  {
    var k := FirstFailedIs(scores, 0);
  }

  /** A blocking category with a named failure fails, unless the failure is hidden and the mean would pass or warn. */
  lemma NamedFailureFails(e: Engine, category: string, scores: seq<Score>)
    requires category in e.blocking && NamedFailure(scores)
    ensures StatusOf(e, category, scores) == FAIL <==>
              !Hidden(e, category, scores) || ByThreshold(e, Overall(e, category, scores)) == FAIL
  {
    var k := FirstFailedIs(scores, 0);
  }

  /** Without nameless metrics nothing is ever hidden, so every failure in a blocking category forces FAIL. */
  lemma NamedMetricsNeverHidden(e: Engine, category: string, scores: seq<Score>)
    requires forall i :: 0 <= i < |scores| ==> scores[i].metricName != ""
    requires category in e.blocking && exists i :: 0 <= i < |scores| && !scores[i].passed
    ensures StatusOf(e, category, scores) == FAIL
  {
    var k := FirstFailedIs(scores, 0);
  }

  /** Without a list of its own, an engine has exactly two blocking categories; with one, those of the list. */
  lemma BlockingCategories(rules: map<string, map<string, Rule>>, blocking: set<string>, category: string)
    ensures category in MakeEngine(0.75, 0.60, 0.70, rules, blocking).blocking <==>
              if blocking == {} then category == "context_isolation" || category == "tool_use_boundaries"
              else category in blocking
  {
  }

  /** The hiding is real: two failed scores, the first nameless, and the verdict is PASS. */
  lemma HiddenFailurePasses()
    ensures var e := MakeEngine(0.75, 0.60, 0.70, map[], {});
            var scores := [Score("x", "", 1.0, false, 1.0), Score("x", "leak", 1.0, false, 1.0)];
            NamedFailure(scores) && StatusOf(e, "context_isolation", scores) == PASS
  {
    var e := MakeEngine(0.75, 0.60, 0.70, map[], {});
    var first, second := Score("x", "", 1.0, false, 1.0), Score("x", "leak", 1.0, false, 1.0);
    var scores := [first, second];
    assert !scores[1].passed && scores[1].metricName != "";
    SumOfTwo(Contribution(e, "context_isolation"), first, second);
    SumOfTwo(WeightIn(e, "context_isolation"), first, second);
  }

  /** A nameless failure needs no other to pass: on its own it is overlooked as well. */
  lemma NamelessFailurePasses()
    ensures var e := MakeEngine(0.75, 0.60, 0.70, map[], {});
            var scores := [Score("x", "", 1.0, false, 1.0)];
            "context_isolation" in e.blocking && !Hidden(e, "context_isolation", scores)
            && StatusOf(e, "context_isolation", scores) == PASS
  {
    var e := MakeEngine(0.75, 0.60, 0.70, map[], {});
    var only := Score("x", "", 1.0, false, 1.0);
    assert [only][..0] == [];
    assert Sum(Contribution(e, "context_isolation"), [only]) == Contribution(e, "context_isolation")(only);
    assert Sum(WeightIn(e, "context_isolation"), [only]) == WeightIn(e, "context_isolation")(only);
  }

  // ---------------------------------------------------------------------------
  // Monotonicity
  // ---------------------------------------------------------------------------

  /** The scores with every nameless failure turned into a pass. */
  function NamelessPassed(scores: seq<Score>): (r: seq<Score>)
    ensures |r| == |scores|
    ensures forall i :: 0 <= i < |scores| ==>
              r[i] == if scores[i].metricName == "" then scores[i].(passed := true) else scores[i]
  {
    seq(|scores|, i requires 0 <= i < |scores| =>
      if scores[i].metricName == "" then scores[i].(passed := true) else scores[i])
  }

  lemma ImprovementKeepsBlock(e: Engine, category: string, a: seq<Score>, b: seq<Score>)
    requires AllImprove(e, category, a, b) && Blocked(e, category, b)
    ensures Blocked(e, category, a) || Hidden(e, category, a)
  {
    var i := FirstFailedIs(a, 0);
    var k := FirstFailedIs(b, 0);
    assert Improves(e, category, a[k], b[k]);
    assert !a[k].passed && a[k].metricName != "";
  }

  lemma UncoverHidden(e: Engine, category: string, a: seq<Score>)
    requires Hidden(e, category, a)
    ensures AllImprove(e, category, a, NamelessPassed(a))
    ensures StatusOf(e, category, NamelessPassed(a)) == FAIL
  {
    var b := NamelessPassed(a);
    forall i | 0 <= i < |a| ensures Improves(e, category, a[i], b[i]) { }
    var k := FirstFailedIs(b, 0);
    var i :| 0 <= i < |a| && !a[i].passed && a[i].metricName != "";
    assert b[i] == a[i];
  }

  /**
   Improving scores never makes the verdict worse, with one exception that is exactly this:
   a failure hidden behind a nameless one comes to light when the nameless one is repaired.
   */
  lemma MonotoneUnlessHidden(e: Engine, category: string, a: seq<Score>)
    requires NonNegativeWeights(e) && a != []
    ensures (forall b :: AllImprove(e, category, a, b) ==>
               Rank(StatusOf(e, category, a)) <= Rank(StatusOf(e, category, b)))
            <==> !Hidden(e, category, a) || ByThreshold(e, Overall(e, category, a)) == FAIL
  {
    if !Hidden(e, category, a) || ByThreshold(e, Overall(e, category, a)) == FAIL {
      forall b | AllImprove(e, category, a, b)
        ensures Rank(StatusOf(e, category, a)) <= Rank(StatusOf(e, category, b))
      {
        OverallMonotone(e, category, a, b);
        if Blocked(e, category, b) {
          ImprovementKeepsBlock(e, category, a, b);
        }
      }
    } else {
      UncoverHidden(e, category, a);
    }
  }

  // ---------------------------------------------------------------------------
  // Order
  // ---------------------------------------------------------------------------

  lemma OverallPermuted(e: Engine, category: string, a: seq<Score>, b: seq<Score>)
    requires multiset(a) == multiset(b)
    ensures Overall(e, category, a) == Overall(e, category, b)
  {
    SumPermuted(Contribution(e, category), a, b);
    SumPermuted(WeightIn(e, category), a, b);
  }

  lemma FailuresPermuted(a: seq<Score>, b: seq<Score>)
    requires multiset(a) == multiset(b)
    ensures NamedFailure(a) ==> NamedFailure(b)
    ensures NamelessFailure(a) ==> NamelessFailure(b)
  {
    forall x | x in a ensures x in b {
      assert x in multiset(a);
      assert x in multiset(b);
    }
    if NamedFailure(a) {
      var i :| 0 <= i < |a| && !a[i].passed && a[i].metricName != "";
      assert a[i] in b;
    }
    if NamelessFailure(a) {
      var i :| 0 <= i < |a| && !a[i].passed && a[i].metricName == "";
      assert a[i] in b;
    }
  }

  /** Some failures have a name and some have not. */
  ghost predicate MixedFailures(e: Engine, category: string, scores: seq<Score>) {
    category in e.blocking && NamedFailure(scores) && NamelessFailure(scores)
  }

  lemma BlockedUnlessMixed(e: Engine, category: string, scores: seq<Score>)
    requires !MixedFailures(e, category, scores)
    ensures Blocked(e, category, scores) <==> category in e.blocking && NamedFailure(scores)
  {
    var k := FirstFailedIs(scores, 0);
  }

  function MovedFirst(scores: seq<Score>, i: nat): seq<Score>
    requires i < |scores|
  {
    [scores[i]] + scores[..i] + scores[i + 1..]
  }

  lemma MovedFirstPermutes(scores: seq<Score>, i: nat)
    requires i < |scores|
    ensures multiset(MovedFirst(scores, i)) == multiset(scores)
  {
    assert scores == scores[..i] + [scores[i]] + scores[i + 1..];
  }

  /**
   The status does not depend on the order of the scores, with one exception that is exactly
   this: named and nameless failures mixed in a blocking category whose mean would not fail.
   */
  lemma OrderFreeUnlessMixed(e: Engine, category: string, a: seq<Score>)
    requires a != []
    ensures (forall b :: multiset(a) == multiset(b) ==> StatusOf(e, category, a) == StatusOf(e, category, b))
            <==> !MixedFailures(e, category, a) || ByThreshold(e, Overall(e, category, a)) == FAIL
  {
    if !MixedFailures(e, category, a) || ByThreshold(e, Overall(e, category, a)) == FAIL {
      forall b | multiset(a) == multiset(b) ensures StatusOf(e, category, a) == StatusOf(e, category, b) {
        SamePermutedStatus(e, category, a, b);
      }
    } else {
      var i :| 0 <= i < |a| && !a[i].passed && a[i].metricName != "";
      var j :| 0 <= j < |a| && !a[j].passed && a[j].metricName == "";
      var named, nameless := MovedFirst(a, i), MovedFirst(a, j);
      MovedFirstPermutes(a, i);
      MovedFirstPermutes(a, j);
      OverallPermuted(e, category, a, nameless);
      assert StatusOf(e, category, named) == FAIL;
      assert StatusOf(e, category, nameless) == ByThreshold(e, Overall(e, category, a));
    }
  }

  lemma SamePermutedStatus(e: Engine, category: string, a: seq<Score>, b: seq<Score>)
    requires a != [] && multiset(a) == multiset(b)
    requires !MixedFailures(e, category, a) || ByThreshold(e, Overall(e, category, a)) == FAIL
    ensures StatusOf(e, category, a) == StatusOf(e, category, b)
  {
    assert |a| == |multiset(a)| == |multiset(b)| == |b|;
    OverallPermuted(e, category, a, b);
    FailuresPermuted(a, b);
    FailuresPermuted(b, a);
    if !MixedFailures(e, category, a) {
      BlockedUnlessMixed(e, category, a);
      BlockedUnlessMixed(e, category, b);
    }
  }
}
