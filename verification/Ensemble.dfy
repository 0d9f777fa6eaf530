/** The judge ensemble: weighted majority with a deterministic tie-breaker, or unanimity. */
module Ensemble {
  import opened Reals
  import opened Sums
  import opened Wrappers

  datatype JudgeResult = JudgeResult(judgeId: string, passed: bool, score: real)

  datatype Strategy = WeightedMajority | Consensus | Unanimous

  datatype Policy = FailClosed | Refuse

  datatype Panel = Panel(weights: map<string, real>, strategy: Strategy, missingJudges: Policy)

  datatype Error = EmptyResults | NegativeWeight(judgeId: string)

  datatype Verdict = Verdict(
    passed: bool, finalScore: real, agreementRatio: real, disagreement: bool, tieBroken: bool,
    passedWeight: real, totalWeight: real)

  const NO_JUDGES := Verdict(false, 0.0, 0.0, true, false, 0.0, 0.0)

  /** A judge without a weight counts once. */
  function WeightOf(weights: map<string, real>): JudgeResult -> real {
    (r: JudgeResult) => if r.judgeId in weights then weights[r.judgeId] else 1.0
  }

  function PassedWeightOf(weights: map<string, real>): JudgeResult -> real {
    (r: JudgeResult) => if r.passed then WeightOf(weights)(r) else 0.0
  }

  function ScoreOf(): JudgeResult -> real {
    (r: JudgeResult) => r.score
  }

  function HasPassed(): JudgeResult -> bool {
    (r: JudgeResult) => r.passed
  }

  function MeanScore(results: seq<JudgeResult>): real
    requires results != []
  {
    Sum(ScoreOf(), results) / |results| as real
  }

  function Max(a: int, b: int): int {
    if a >= b then a else b
  }

  function AgreementRatio(results: seq<JudgeResult>): real
    requires results != []
  {
    var passes := Count(HasPassed(), results);
    Max(passes, |results| - passes) as real / |results| as real
  }

  /** Whether the panel passes, and whether the scores had to break a tie. */
  function Outcome(panel: Panel, results: seq<JudgeResult>): (bool, bool)
    requires results != []
  {
    match panel.strategy
    case WeightedMajority =>
      var passed, half := Sum(PassedWeightOf(panel.weights), results), Sum(WeightOf(panel.weights), results) / 2.0;
      if passed > half then (true, false)
      else if passed < half then (false, false)
      else (MeanScore(results) >= 0.5, true)
    case _ => (Count(HasPassed(), results) == |results|, false)
  }

  ghost predicate NonNegative(panel: Panel, results: seq<JudgeResult>) {
    forall i :: 0 <= i < |results| ==> WeightOf(panel.weights)(results[i]) >= 0.0
  }

  /** Validates the weights, adds up weights and scores, and decides. */
  method Consolidate(panel: Panel, results: seq<JudgeResult>) returns (r: Result<Verdict, Error>)
    ensures results == [] ==> r == if panel.missingJudges.FailClosed? then Ok(NO_JUDGES) else Err(EmptyResults)
    ensures results == [] && r.Ok? ==> !r.value.passed && r.value.disagreement && r.value.finalScore == 0.0
    ensures r.Err? && r.error.NegativeWeight? ==>
              exists i :: 0 <= i < |results| && results[i].judgeId == r.error.judgeId
                          && r.error.judgeId in panel.weights && panel.weights[r.error.judgeId] < 0.0
    ensures results != [] ==> (r.Ok? <==> NonNegative(panel, results))
    ensures results != [] && r.Ok? ==>
              && (r.value.passed, r.value.tieBroken) == Outcome(panel, results)
              && r.value.finalScore == MeanScore(results)
              && r.value.agreementRatio == AgreementRatio(results)
              && (r.value.disagreement <==> 0 < Count(HasPassed(), results) < |results|)
              && r.value.passedWeight == Sum(PassedWeightOf(panel.weights), results)
              && r.value.totalWeight == Sum(WeightOf(panel.weights), results)
  {
    if results == [] {
      if panel.missingJudges.FailClosed? {
        return Ok(NO_JUDGES);
      }
      return Err(EmptyResults);
    }
    var w := WeightOf(panel.weights);
    var j := 0;
    while j < |results|
      invariant 0 <= j <= |results|
      invariant forall i :: 0 <= i < j ==> w(results[i]) >= 0.0
    {
      if w(results[j]) < 0.0 {
        return Err(NegativeWeight(results[j].judgeId));
      }
      j := j + 1;
    }
    var totalWeight, passedWeight, scores, passes := 0.0, 0.0, 0.0, 0;
    var k := 0;
    while k < |results|
      invariant 0 <= k <= |results|
      invariant totalWeight == Sum(w, results[..k])
      invariant passedWeight == Sum(PassedWeightOf(panel.weights), results[..k])
      invariant scores == Sum(ScoreOf(), results[..k])
      invariant passes == Count(HasPassed(), results[..k])
    {
      SumPrefix(w, results, k);
      SumPrefix(PassedWeightOf(panel.weights), results, k);
      SumPrefix(ScoreOf(), results, k);
      CountPrefix(HasPassed(), results, k);
      totalWeight := totalWeight + w(results[k]);
      if results[k].passed {
        passedWeight := passedWeight + w(results[k]);
        passes := passes + 1;
      }
      scores := scores + results[k].score;
      k := k + 1;
    }
    assert results[..|results|] == results;
    var n := |results|;
    var mean := scores / n as real;
    var passed, tieBroken := passes == n, false;
    if panel.strategy.WeightedMajority? {
      var half := totalWeight / 2.0;
      if passedWeight > half {
        passed := true;
      } else if passedWeight < half {
        passed := false;
      } else {
        passed := mean >= 0.5;
        tieBroken := true;
      }
    }
    return Ok(Verdict(passed, mean, Max(passes, n - passes) as real / n as real, 0 < passes < n, tieBroken,
                      passedWeight, totalWeight));
  }

  // ---------------------------------------------------------------------------
  // Properties
  // ---------------------------------------------------------------------------

  function FailedWeightOf(weights: map<string, real>): JudgeResult -> real {
    (r: JudgeResult) => if r.passed then 0.0 else if r.judgeId in weights then weights[r.judgeId] else 1.0
  }

  /**
   A weighted panel passes when the judges that passed outweigh those that failed, and on a
   tie when the mean score reaches one half; the other panels pass when every judge did.
   */
  lemma OutcomeByVotes(panel: Panel, results: seq<JudgeResult>)
    requires results != []
    ensures var pass, fail := Sum(PassedWeightOf(panel.weights), results), Sum(FailedWeightOf(panel.weights), results);
            panel.strategy.WeightedMajority? ==>
              && Outcome(panel, results).1 == (pass == fail)
              && (Outcome(panel, results).0 <==>
                    pass > fail || (pass == fail && 2.0 * Sum(ScoreOf(), results) >= |results| as real))
    ensures !panel.strategy.WeightedMajority? ==>
              Outcome(panel, results) == (forall i :: 0 <= i < |results| ==> results[i].passed, false)
  {
    var w := panel.weights;
    SumOfSums(PassedWeightOf(w), FailedWeightOf(w), WeightOf(w), results);
    HalfOrMore(Sum(ScoreOf(), results), |results|);
    AllPassed(results);
  }

  lemma HalfOrMore(total: real, n: nat)
    requires n > 0
    ensures total / n as real >= 0.5 <==> 2.0 * total >= n as real
  {
    var mean := total / n as real;
    assert mean * n as real == total;
    if mean >= 0.5 {
      MultiplyMonotone(0.5, mean, n as real);
    } else {
      assert (0.5 - mean) * n as real > 0.0;
    }
  }

  lemma {:induction false} AllPassed(results: seq<JudgeResult>)
    ensures Count(HasPassed(), results) <= |results|
    ensures Count(HasPassed(), results) == |results| <==> forall i :: 0 <= i < |results| ==> results[i].passed
  {
    if results != [] {
      var front := results[..|results| - 1];
      AllPassed(front);
      assert forall i :: 0 <= i < |front| ==> front[i] == results[i];
    }
  }

  /** Mean and agreement, multiplied out: the sum of the scores, and the larger of the two camps. */
  lemma ScoresAndCamps(results: seq<JudgeResult>)
    requires results != []
    ensures MeanScore(results) * |results| as real == Sum(ScoreOf(), results)
    ensures var camp := AgreementRatio(results) * |results| as real;
            var passes := Count(HasPassed(), results);
            && camp >= passes as real && camp >= (|results| - passes) as real
            && (camp == passes as real || camp == (|results| - passes) as real)
  {
    TimesQuotient(Sum(ScoreOf(), results), |results|);
    var passes := Count(HasPassed(), results);
    TimesQuotient(Max(passes, |results| - passes) as real, |results|);
  }

  lemma TimesQuotient(x: real, n: nat)
    requires n > 0
    ensures x / n as real * n as real == x
  {
  }

  /** The outcome does not depend on the order of the judges. */
  lemma OutcomePermuted(panel: Panel, a: seq<JudgeResult>, b: seq<JudgeResult>)
    requires a != [] && multiset(a) == multiset(b)
    ensures b != [] && Outcome(panel, a) == Outcome(panel, b)
    ensures MeanScore(a) == MeanScore(b) && AgreementRatio(a) == AgreementRatio(b)
  {
    assert |a| == |multiset(a)| == |multiset(b)| == |b|;
    SumPermuted(WeightOf(panel.weights), a, b);
    SumPermuted(PassedWeightOf(panel.weights), a, b);
    SumPermuted(ScoreOf(), a, b);
    CountPermuted(HasPassed(), a, b);
  }

  /** The same judges, with passes kept or gained and scores kept or raised. */
  ghost predicate Raised(a: seq<JudgeResult>, b: seq<JudgeResult>) {
    && |a| == |b|
    && forall i :: 0 <= i < |a| ==>
         a[i].judgeId == b[i].judgeId && (a[i].passed ==> b[i].passed) && a[i].score <= b[i].score
  }

  lemma {:induction false} CountRaised(a: seq<JudgeResult>, b: seq<JudgeResult>)
    requires Raised(a, b)
    ensures Count(HasPassed(), a) <= Count(HasPassed(), b) <= |b|
    decreases |a|
  {
    if a != [] {
      CountRaised(a[..|a| - 1], b[..|b| - 1]);
    }
  }

  /** Turning a judge to pass or raising a score never turns the panel from pass to fail, ties included. */
  lemma OutcomeMonotone(panel: Panel, a: seq<JudgeResult>, b: seq<JudgeResult>)
    requires a != [] && Raised(a, b) && NonNegative(panel, a)
    ensures Outcome(panel, a).0 ==> Outcome(panel, b).0
  {
    var w, p := WeightOf(panel.weights), PassedWeightOf(panel.weights);
    forall i | 0 <= i < |a| ensures w(a[i]) == w(b[i]) && p(a[i]) <= p(b[i]) {
      assert w(a[i]) >= 0.0;
    }
    SumEqual(w, a, w, b);
    SumMonotone(p, a, p, b);
    SumMonotone(ScoreOf(), a, ScoreOf(), b);
    DivideMonotone(Sum(ScoreOf(), a), Sum(ScoreOf(), b), |a| as real);
    CountRaised(a, b);
  }

  /** Every weight multiplied by the same factor. */
  function Rescaled(weights: map<string, real>, factor: real): map<string, real> {
    map j | j in weights :: Scaled(weights[j], factor)
  }

  lemma CompareScaled(x: real, y: real, factor: real)
    requires factor > 0.0
    ensures x > y / 2.0 <==> Scaled(x, factor) > Scaled(y, factor) / 2.0
    ensures x < y / 2.0 <==> Scaled(x, factor) < Scaled(y, factor) / 2.0
  {
    var d := x - y / 2.0;
    assert Scaled(x, factor) - Scaled(y, factor) / 2.0 == d * factor;
    if d > 0.0 {
      assert d * factor > 0.0;
    } else if d < 0.0 {
      assert d * factor < 0.0;
    }
  }

  /** When every judge has a weight, only the proportions of the weights matter. */
  lemma OutcomeScaleFree(panel: Panel, results: seq<JudgeResult>, factor: real)
    requires results != [] && factor > 0.0
    requires forall i :: 0 <= i < |results| ==> results[i].judgeId in panel.weights
    ensures Outcome(panel.(weights := Rescaled(panel.weights, factor)), results) == Outcome(panel, results)
  {
    var scaled := Rescaled(panel.weights, factor);
    forall i | 0 <= i < |results|
      ensures WeightOf(scaled)(results[i]) == Scaled(WeightOf(panel.weights)(results[i]), factor)
      ensures PassedWeightOf(scaled)(results[i]) == Scaled(PassedWeightOf(panel.weights)(results[i]), factor)
    {
      assert Scaled(0.0, factor) == 0.0;
    }
    SumScaled(WeightOf(panel.weights), results, WeightOf(scaled), factor);
    SumScaled(PassedWeightOf(panel.weights), results, PassedWeightOf(scaled), factor);
    CompareScaled(Sum(PassedWeightOf(panel.weights), results), Sum(WeightOf(panel.weights), results), factor);
  }

  /** The results come from these judges, in this order. */
  predicate From(results: seq<JudgeResult>, ids: seq<string>) {
    |results| == |ids| && forall i :: 0 <= i < |ids| ==> results[i].judgeId == ids[i]
  }

  predicate AllWeighted(weights: map<string, real>, ids: seq<string>) {
    forall i :: 0 <= i < |ids| ==> ids[i] in weights
  }

  /** The judges that have a weight of their own weigh nothing. */
  predicate WeightedCountNothing(weights: map<string, real>, ids: seq<string>) {
    forall i :: 0 <= i < |ids| && ids[i] in weights ==> weights[ids[i]] == 0.0
  }

  /** The weight a judge has of its own, and the one it gets by default. */
  function OwnWeight(weights: map<string, real>): JudgeResult -> real {
    (r: JudgeResult) => if r.judgeId in weights then weights[r.judgeId] else 0.0
  }

  function DefaultWeight(weights: map<string, real>): JudgeResult -> real {
    (r: JudgeResult) => if r.judgeId in weights then 0.0 else 1.0
  }

  /** Exactly the judges with a weight of their own pass. */
  function WeightedPass(weights: map<string, real>, ids: seq<string>): (results: seq<JudgeResult>)
    ensures From(results, ids)
    ensures forall i :: 0 <= i < |ids| ==> results[i].passed == (ids[i] in weights)
  {
    seq(|ids|, i requires 0 <= i < |ids| => JudgeResult(ids[i], ids[i] in weights, 0.0))
  }

  lemma WeightedAgainstDefault(weights: map<string, real>, results: seq<JudgeResult>)
    requires forall i :: 0 <= i < |results| ==> results[i].passed == (results[i].judgeId in weights)
    ensures Sum(PassedWeightOf(weights), results) == Sum(OwnWeight(weights), results)
    ensures Sum(WeightOf(weights), results) == Sum(OwnWeight(weights), results) + Sum(DefaultWeight(weights), results)
  {
    forall i | 0 <= i < |results| ensures PassedWeightOf(weights)(results[i]) == OwnWeight(weights)(results[i]) {
      var r := results[i];
      assert r.passed == (r.judgeId in weights);
      assert PassedWeightOf(weights)(r) == if r.passed then WeightOf(weights)(r) else 0.0;
      assert OwnWeight(weights)(r) == if r.judgeId in weights then weights[r.judgeId] else 0.0;
    }
    SumEqual(PassedWeightOf(weights), results, OwnWeight(weights), results);
    SumOfSums(OwnWeight(weights), DefaultWeight(weights), WeightOf(weights), results);
  }

  lemma RescaledOwn(weights: map<string, real>, factor: real, results: seq<JudgeResult>)
    ensures Sum(OwnWeight(Rescaled(weights, factor)), results) == Scaled(Sum(OwnWeight(weights), results), factor)
    ensures Sum(DefaultWeight(Rescaled(weights, factor)), results) == Sum(DefaultWeight(weights), results)
  {
    assert Scaled(0.0, factor) == 0.0;
    SumScaled(OwnWeight(weights), results, OwnWeight(Rescaled(weights, factor)), factor);
    SumEqual(DefaultWeight(Rescaled(weights, factor)), results, DefaultWeight(weights), results);
  }

  /** A factor that makes one amount larger or smaller than another, whichever it was not. */
  function Tipping(own: real, others: real): (factor: real)
    requires own > 0.0 && others > 0.0
    ensures factor > 0.0
    ensures own > others ==> Scaled(own, factor) < others
    ensures own <= others ==> Scaled(own, factor) > others
  {
    var factor := if own > others then others / (2.0 * own) else 2.0 * others / own;
    TippingScales(own, others);
    factor
  }

  lemma TippingScales(own: real, others: real)
    requires own > 0.0 && others > 0.0
    ensures others / (2.0 * own) > 0.0 && Scaled(own, others / (2.0 * own)) == others / 2.0
    ensures 2.0 * others / own > 0.0 && Scaled(own, 2.0 * others / own) == 2.0 * others
  {
  }

  /** With judges of both kinds that weigh something, the scale decides between them. */
  lemma ScaleTips(panel: Panel, ids: seq<string>, c: nat, u: nat) returns (factor: real)
    requires panel.strategy.WeightedMajority? && c < |ids| && u < |ids|
    requires forall i :: 0 <= i < |ids| && ids[i] in panel.weights ==> panel.weights[ids[i]] >= 0.0
    requires ids[c] in panel.weights && panel.weights[ids[c]] > 0.0 && ids[u] !in panel.weights
    ensures factor > 0.0
    ensures var results := WeightedPass(panel.weights, ids);
            Outcome(panel.(weights := Rescaled(panel.weights, factor)), results) != Outcome(panel, results)
  {
    var w := panel.weights;
    var results := WeightedPass(w, ids);
    var own, others := Sum(OwnWeight(w), results), Sum(DefaultWeight(w), results);
    SumHolds(OwnWeight(w), results, c);
    SumHolds(DefaultWeight(w), results, u);
    factor := Tipping(own, others);
    WeightedAgainstDefault(w, results);
    WeightedAgainstDefault(Rescaled(w, factor), results);
    RescaledOwn(w, factor, results);
  }

  lemma ScaleLost(panel: Panel, ids: seq<string>, results: seq<JudgeResult>, factor: real)
    requires results != [] && From(results, ids) && WeightedCountNothing(panel.weights, ids)
    ensures Outcome(panel.(weights := Rescaled(panel.weights, factor)), results) == Outcome(panel, results)
  {
    var w, scaled := panel.weights, Rescaled(panel.weights, factor);
    assert Scaled(0.0, factor) == 0.0;
    SumEqual(WeightOf(scaled), results, WeightOf(w), results);
    SumEqual(PassedWeightOf(scaled), results, PassedWeightOf(w), results);
  }

  ghost predicate ScaleFree(panel: Panel, ids: seq<string>)
    requires ids != []
  {
    forall results: seq<JudgeResult>, factor: real :: From(results, ids) && factor > 0.0 ==>
      Outcome(panel.(weights := Rescaled(panel.weights, factor)), results) == Outcome(panel, results)
  }

  /**
   Which panels only look at the proportions of their weights: those that do not weigh, and
   those whose judges all have a weight or whose given weights are all zero.
   */
  lemma ScaleFreeIff(panel: Panel, ids: seq<string>)
    requires ids != []
    requires forall i :: 0 <= i < |ids| && ids[i] in panel.weights ==> panel.weights[ids[i]] >= 0.0
    ensures ScaleFree(panel, ids) <==>
              || !panel.strategy.WeightedMajority?
              || AllWeighted(panel.weights, ids)
              || WeightedCountNothing(panel.weights, ids)
  {
    if panel.strategy.WeightedMajority? && !AllWeighted(panel.weights, ids)
       && !WeightedCountNothing(panel.weights, ids) {
      var u :| 0 <= u < |ids| && ids[u] !in panel.weights;
      var c :| 0 <= c < |ids| && ids[c] in panel.weights && panel.weights[ids[c]] != 0.0;
      var factor := ScaleTips(panel, ids, c, u);
      assert From(WeightedPass(panel.weights, ids), ids) && !ScaleFree(panel, ids);
    } else {
      forall results: seq<JudgeResult>, factor: real | From(results, ids) && factor > 0.0
        ensures Outcome(panel.(weights := Rescaled(panel.weights, factor)), results) == Outcome(panel, results)
      {
        if AllWeighted(panel.weights, ids) {
          OutcomeScaleFree(panel, results, factor);
        } else if WeightedCountNothing(panel.weights, ids) {
          ScaleLost(panel, ids, results, factor);
        }
      }
    }
  }

  /** For one: with a judge left to the default weight the scale does matter. */
  lemma DefaultWeightBreaksScale()
    ensures var panel := Panel(map["a" := 2.0], WeightedMajority, FailClosed);
            var results := [JudgeResult("a", true, 1.0), JudgeResult("b", false, 0.0)];
            && Outcome(panel, results).0
            && !Outcome(panel.(weights := Rescaled(panel.weights, 0.25)), results).0
  {
    var a, b := JudgeResult("a", true, 1.0), JudgeResult("b", false, 0.0);
    var weights := map["a" := 2.0];
    var scaled := Rescaled(weights, 0.25);
    SumOfTwo(WeightOf(weights), a, b);
    SumOfTwo(PassedWeightOf(weights), a, b);
    SumOfTwo(WeightOf(scaled), a, b);
    SumOfTwo(PassedWeightOf(scaled), a, b);
  }

  lemma {:induction false} CountAtMost(results: seq<JudgeResult>)
    ensures Count(HasPassed(), results) <= |results|
  {
    if results != [] {
      CountAtMost(results[..|results| - 1]);
    }
  }

  /** Disagreement is reported exactly when the agreement is not complete. */
  lemma DisagreementIsIncompleteAgreement(results: seq<JudgeResult>)
    requires results != []
    ensures 0.5 <= AgreementRatio(results) <= 1.0
    ensures 0 < Count(HasPassed(), results) < |results| <==> AgreementRatio(results) < 1.0
  {
    CountAtMost(results);
    var passes := Count(HasPassed(), results);
    RatioRange(Max(passes, |results| - passes), |results|);
  }

  lemma RatioRange(m: int, n: int)
    requires 0 < n <= 2 * m <= 2 * n
    ensures 0.5 <= m as real / n as real <= 1.0
    ensures m as real / n as real < 1.0 <==> m < n
  {
    var x, y := m as real, n as real;
    HalfAndWhole(y);
    DivideMonotone(y / 2.0, x, y);
    DivideMonotone(x, y, y);
    if m < n {
      StrictlyLess(x, y);
    }
  }

  lemma HalfAndWhole(y: real)
    requires y > 0.0
    ensures y / y == 1.0 && (y / 2.0) / y == 0.5
  {
  }

  lemma StrictlyLess(x: real, y: real)
    requires x < y && y > 0.0
    ensures x / y < 1.0
  {
    HalfAndWhole(y);
    DivideMonotone(x, y, y);
    assert (x / y) * y == x;
  }
}
