/**
 How far concurrent dispatch can exceed a cap. A request is checked against what has been
 spent, not against what is in flight, so with several permits the caps are soft; the
 results bound how far spending reaches, and for every number of permits show a run that
 reaches it.
 */
module DispatchBudget {
  import opened Reals
  import opened Rounding
  import opened Wrappers
  import opened CostEstimator
  import opened CostGuard
  import opened Dispatch
  import R = RateLimiter
  import Retry

  /** A budget: the global one, or that of one provider. */
  datatype Account = Everything | Only(provider: string)

  predicate Counts(cfg: Config, t: nat, account: Account)
    requires t < |cfg.plan|
  {
    account.Everything? || cfg.plan[t].provider == account.provider
  }

  function Spent(l: Ledger, account: Account): real {
    match account
    case Everything => l.globalSpend
    case Only(p) => SpendOf(l.providerSpend, p)
  }

  function Cap(cfg: Config, account: Account): Option<real> {
    match account
    case Everything => Some(cfg.caps.EffectiveGlobalCap())
    case Only(p) => if p in cfg.caps.providerCaps then Some(cfg.caps.providerCaps[p]) else None
  }

  /** Estimates of the requests in flight, each with `slack` added, over the first `n` tasks. */
  function InFlightSum(cfg: Config, phases: seq<Phase>, account: Account, slack: real, n: nat): real
    requires n <= |phases| == |cfg.plan|
  {
    if n == 0 then 0.0
    else InFlightSum(cfg, phases, account, slack, n - 1)
         + if phases[n - 1].InFlight? && Counts(cfg, n - 1, account) then Estimate(cfg, n - 1) + slack else 0.0
  }

  function InFlightCount(phases: seq<Phase>, n: nat): nat
    requires n <= |phases|
  {
    if n == 0 then 0 else InFlightCount(phases, n - 1) + if phases[n - 1].InFlight? then 1 else 0
  }

  /** What has been spent and what is committed to requests in flight. */
  function Exposure(cfg: Config, s: State, account: Account, slack: real): real
    requires |s.phases| == |cfg.plan|
  {
    Spent(s.ledger, account) + InFlightSum(cfg, s.phases, account, slack, |cfg.plan|)
  }

  /** The contribution of one task in some phase. */
  function Share(cfg: Config, t: nat, phase: Phase, account: Account, slack: real): real
    requires t < |cfg.plan|
  {
    if phase.InFlight? && Counts(cfg, t, account) then Estimate(cfg, t) + slack else 0.0
  }

  lemma {:induction false} SumUpdate(
    cfg: Config, phases: seq<Phase>, t: nat, phase: Phase, account: Account, slack: real, n: nat)
    requires t < |phases| == |cfg.plan| && n <= |phases|
    ensures InFlightSum(cfg, phases[t := phase], account, slack, n) ==
              InFlightSum(cfg, phases, account, slack, n)
              + if t < n then Share(cfg, t, phase, account, slack) - Share(cfg, t, phases[t], account, slack)
                else 0.0
    decreases n
  {
    if n > 0 {
      SumUpdate(cfg, phases, t, phase, account, slack, n - 1);
    }
  }

  /** Every estimate is between nothing and `largest`. */
  ghost predicate EstimatesUpTo(cfg: Config, largest: real) {
    largest >= 0.0 && forall t :: 0 <= t < |cfg.plan| ==> 0.0 <= Estimate(cfg, t) <= largest
  }

  lemma {:induction false} SumAtMost(
    cfg: Config, phases: seq<Phase>, account: Account, slack: real, largest: real, n: nat)
    requires n <= |phases| == |cfg.plan| && EstimatesUpTo(cfg, largest) && slack >= 0.0
    ensures InFlightSum(cfg, phases, account, slack, n) <= Multiple(InFlightCount(phases, n), largest + slack)
    decreases n
  {
    if n > 0 {
      SumAtMost(cfg, phases, account, slack, largest, n - 1);
      MultipleStep(InFlightCount(phases, n - 1), largest + slack);
    }
  }

  lemma {:induction false} OthersInFlight(phases: seq<Phase>, t: nat, n: nat)
    requires t < |phases| && phases[t].Limiting? && n <= |phases|
    ensures InFlightCount(phases, n) + (if t < n then 1 else 0) <= Active(phases[..n])
    decreases n
  {
    if n > 0 {
      OthersInFlight(phases, t, n - 1);
      assert phases[..n][..n - 1] == phases[..n - 1];
    }
  }

  /** One cap's worth, one slack, and all permits but one taken by the largest requests. */
  function Reach(cfg: Config, cap: real, largest: real, slack: real): real {
    cap + slack + Multiple(cfg.permits - 1, largest + slack)
  }

  predicate IsAnswer(step: Step) {
    step.Settle? && step.end.Success?
  }

  /** No response costs more than its estimate and `slack`. */
  ghost predicate OverrunsUpTo(cfg: Config, steps: seq<Step>, slack: real) {
    forall i :: 0 <= i < |steps| && IsAnswer(steps[i]) && steps[i].task < |cfg.plan| ==>
      ActualCost(cfg, steps[i].task, steps[i].end.value) <= Estimate(cfg, steps[i].task) + slack
  }

  /** A request that passes the check leaves the exposure within reach. */
  lemma AdmittedWithinReach(
    cfg: Config, s: State, t: nat, phase: Phase, account: Account, slack: real, largest: real)
    requires ValidConfig(cfg) && t < |s.phases| == |cfg.plan| && s.phases[t].Limiting? && phase.InFlight?
    requires Active(s.phases) <= cfg.permits
    requires EstimatesUpTo(cfg, largest) && slack >= 0.0
    requires Cap(cfg, account).Some? && Counts(cfg, t, account)
    requires CheckProvider(cfg.caps, s.ledger, cfg.plan[t].provider, Estimate(cfg, t)).Admitted?
    ensures Exposure(cfg, s.(phases := s.phases[t := phase]), account, slack)
         <= Reach(cfg, Cap(cfg, account).value, largest, slack)
  {
    var n := |cfg.plan|;
    SumUpdate(cfg, s.phases, t, phase, account, slack, n);
    SumAtMost(cfg, s.phases, account, slack, largest, n);
    OthersInFlight(s.phases, t, n);
    assert s.phases[..n] == s.phases;
    MultipleMonotone(InFlightCount(s.phases, n), cfg.permits - 1, largest + slack);
    assert Spent(s.ledger, account) + Estimate(cfg, t) <= Cap(cfg, account).value;
  }

  /** Spending of one task's cost, as the account sees it. */
  lemma SpentRecorded(l: Ledger, provider: string, actual: real, account: Account)
    ensures Spent(RecordSpend(l, provider, actual), account) ==
              Spent(l, account) + if account.Everything? || account.provider == provider then actual else 0.0
  {
  }

  lemma StepExposure(cfg: Config, s: State, step: Step, account: Account, slack: real, largest: real)
    requires ValidConfig(cfg) && Enabled(cfg, s, step) && |s.phases| == |cfg.plan|
    requires Active(s.phases) <= cfg.permits
    requires EstimatesUpTo(cfg, largest) && slack >= 0.0 && Cap(cfg, account).Some?
    requires IsAnswer(step) ==> ActualCost(cfg, step.task, step.end.value) <= Estimate(cfg, step.task) + slack
    ensures |Apply(cfg, s, step).phases| == |cfg.plan|
    ensures Exposure(cfg, Apply(cfg, s, step), account, slack) <= Exposure(cfg, s, account, slack)
         || Exposure(cfg, Apply(cfg, s, step), account, slack)
            <= Reach(cfg, Cap(cfg, account).value, largest, slack)
  {
    var next, t := Apply(cfg, s, step), step.task;
    StepPhases(cfg, s, step);
    SumUpdate(cfg, s.phases, t, next.phases[t], account, slack, |cfg.plan|);
    if IsAnswer(step) {
      SpentRecorded(s.ledger, cfg.plan[t].provider, ActualCost(cfg, t, step.end.value), account);
    } else {
      assert next.ledger == s.ledger;
      if step.TryPass? && next.phases[t].InFlight? && Counts(cfg, t, account) {
        AdmittedWithinReach(cfg, s, t, next.phases[t], account, slack, largest);
      }
    }
  }

  lemma {:induction false} NothingInFlight(cfg: Config, account: Account, slack: real, n: nat)
    requires ValidConfig(cfg) && n <= |cfg.plan|
    ensures InFlightSum(cfg, Start(cfg).phases, account, slack, n) == 0.0
  {
    if n > 0 {
      NothingInFlight(cfg, account, slack, n - 1);
    }
  }

  /**
   In every interleaving, for the global budget and for each provider with a cap: what is
   spent plus what is in flight never exceeds the cap by more than the largest request on
   each of the other permits, and the overrun of one request per permit.
   */
  lemma {:induction false} BudgetBound(
    cfg: Config, steps: seq<Step>, account: Account, slack: real, largest: real)
    requires ValidConfig(cfg) && Legal(cfg, steps)
    requires EstimatesUpTo(cfg, largest) && slack >= 0.0 && Cap(cfg, account).Some?
    requires OverrunsUpTo(cfg, steps, slack)
    ensures |After(cfg, steps).phases| == |cfg.plan|
    ensures Exposure(cfg, After(cfg, steps), account, slack)
         <= AtLeastZero(Reach(cfg, Cap(cfg, account).value, largest, slack))
    decreases |steps|
  {
    if steps == [] {
      NothingInFlight(cfg, account, slack, |cfg.plan|);
    } else {
      var front, last := steps[..|steps| - 1], steps[|steps| - 1];
      assert OverrunsUpTo(cfg, front, slack) by {
        forall i | 0 <= i < |front| && IsAnswer(front[i]) && front[i].task < |cfg.plan|
          ensures ActualCost(cfg, front[i].task, front[i].end.value) <= Estimate(cfg, front[i].task) + slack
        {
          assert steps[i] == front[i];
        }
      }
      BudgetBound(cfg, front, account, slack, largest);
      PermitsRespected(cfg, front);
      StepExposure(cfg, After(cfg, front), last, account, slack, largest);
    }
  }

  lemma {:induction false} SumNotNegative(
    cfg: Config, phases: seq<Phase>, account: Account, slack: real, largest: real, n: nat)
    requires n <= |phases| == |cfg.plan| && EstimatesUpTo(cfg, largest) && slack >= 0.0
    ensures InFlightSum(cfg, phases, account, slack, n) >= 0.0
    decreases n
  {
    if n > 0 {
      SumNotNegative(cfg, phases, account, slack, largest, n - 1);
    }
  }

  /** With one permit and responses within their estimates no cap is ever exceeded. */
  lemma OnePermitNeverOverspends(cfg: Config, steps: seq<Step>, account: Account, largest: real)
    requires ValidConfig(cfg) && Legal(cfg, steps) && cfg.permits == 1
    requires EstimatesUpTo(cfg, largest) && OverrunsUpTo(cfg, steps, 0.0)
    requires Cap(cfg, account).Some?
    ensures Spent(After(cfg, steps).ledger, account) <= AtLeastZero(Cap(cfg, account).value)
  {
    BudgetBound(cfg, steps, account, 0.0, largest);
    SumNotNegative(cfg, After(cfg, steps).phases, account, 0.0, largest, |cfg.plan|);
    NoMultiple(largest + 0.0);
  }

  /** Responses within the sizes the estimate assumes. */
  ghost predicate WithinAssumedSizes(cfg: Config, steps: seq<Step>) {
    forall i :: 0 <= i < |steps| && IsAnswer(steps[i]) && steps[i].task < |cfg.plan| ==>
      && steps[i].end.value.inputTokens <= ASSUMED_INPUT_TOKENS
      && steps[i].end.value.outputTokens <= cfg.plan[steps[i].task].maxOutputTokens
  }

  /** With the estimator as it is, such responses overrun by at most its rounding. */
  lemma SizesBoundOverruns(cfg: Config, steps: seq<Step>)
    requires PricesNonNegative(cfg)
    requires WithinAssumedSizes(cfg, steps)
    ensures OverrunsUpTo(cfg, steps, ROUNDING_SLACK)
  {
    forall i | 0 <= i < |steps| && IsAnswer(steps[i]) && steps[i].task < |cfg.plan|
      ensures ActualCost(cfg, steps[i].task, steps[i].end.value)
           <= Estimate(cfg, steps[i].task) + ROUNDING_SLACK
    {
      var t, reply := steps[i].task, steps[i].end.value;
      ActualNearEstimate(cfg.pricing, cfg.plan[t].model, cfg.plan[t].maxOutputTokens,
                         reply.inputTokens, reply.outputTokens);
    }
  }

  /** The bound for the estimator as it is. */
  lemma BudgetBoundForSizes(cfg: Config, steps: seq<Step>, account: Account, largest: real)
    requires ValidConfig(cfg) && Legal(cfg, steps)
    requires PricesNonNegative(cfg)
    requires EstimatesUpTo(cfg, largest) && WithinAssumedSizes(cfg, steps) && Cap(cfg, account).Some?
    ensures Spent(After(cfg, steps).ledger, account)
         <= AtLeastZero(Reach(cfg, Cap(cfg, account).value, largest, ROUNDING_SLACK))
  {
    SizesBoundOverruns(cfg, steps);
    BudgetBound(cfg, steps, account, ROUNDING_SLACK, largest);
    SumNotNegative(cfg, After(cfg, steps).phases, account, ROUNDING_SLACK, largest, |cfg.plan|);
  }

  // ---------------------------------------------------------------------------
  // One permit
  // ---------------------------------------------------------------------------

  /** No estimate loses anything to its second rounding. */
  ghost predicate EstimatesKept(cfg: Config) {
    forall t :: 0 <= t < |cfg.plan| ==>
      KeptByRounding(LargestCost(cfg.pricing, cfg.plan[t].model, cfg.plan[t].maxOutputTokens))
  }

  ghost predicate PricesNonNegative(cfg: Config) {
    forall t :: 0 <= t < |cfg.plan| ==> NonNegative(ModelPrices(cfg.pricing, cfg.plan[t].model))
  }

  lemma KeptMeansNoOverrun(cfg: Config, steps: seq<Step>)
    requires PricesNonNegative(cfg) && WithinAssumedSizes(cfg, steps) && EstimatesKept(cfg)
    ensures OverrunsUpTo(cfg, steps, 0.0)
  {
    forall i | 0 <= i < |steps| && IsAnswer(steps[i]) && steps[i].task < |cfg.plan|
      ensures ActualCost(cfg, steps[i].task, steps[i].end.value) <= Estimate(cfg, steps[i].task) + 0.0
    {
      var item := cfg.plan[steps[i].task];
      EstimateCovers(cfg.pricing, item.model, item.maxOutputTokens);
    }
  }

  lemma EstimateNotNegative(cfg: Config, t: nat)
    requires t < |cfg.plan| && NonNegative(ModelPrices(cfg.pricing, cfg.plan[t].model))
    ensures Estimate(cfg, t) >= 0.0
  {
    var item := cfg.plan[t];
    CostNotNegative(cfg.pricing, item.model, ASSUMED_INPUT_TOKENS, item.maxOutputTokens);
    var cost := EstimateCost(cfg.pricing, item.model, ASSUMED_INPUT_TOKENS, item.maxOutputTokens);
    assert Times(cost, 1, 1) == cost;
    RoundMonotone(0.0, cost, PLACES_6);
  }

  lemma {:induction false} LargestEstimate(cfg: Config, n: nat) returns (largest: real)
    requires PricesNonNegative(cfg) && n <= |cfg.plan|
    ensures largest >= 0.0 && forall t :: 0 <= t < n ==> 0.0 <= Estimate(cfg, t) <= largest
  {
    largest := 0.0;
    if n > 0 {
      largest := LargestEstimate(cfg, n - 1);
      EstimateNotNegative(cfg, n - 1);
      if largest < Estimate(cfg, n - 1) {
        largest := Estimate(cfg, n - 1);
      }
    }
  }

  lemma FullBucketGrants(rpm: nat, created: real)
    requires rpm > 0
    ensures R.Pass(rpm, R.Full(rpm, created), created).1.Granted?
  {
    assert R.Accrued(rpm, 0.0) == 0.0;
  }

  /** Task `t` alone, answered at once and as dearly as the assumed sizes allow. */
  function Alone(cfg: Config, t: nat): seq<Step>
    requires t < |cfg.plan|
  {
    [Enter(t), TryPass(t, cfg.created), Settle(t, cfg.created, Retry.Success(Dearest(cfg, t)), 0.0)]
  }

  function Dearest(cfg: Config, t: nat): Reply
    requires t < |cfg.plan|
  {
    Reply(ASSUMED_INPUT_TOKENS, cfg.plan[t].maxOutputTokens, 0, 0)
  }

  ghost predicate AloneAt(cfg: Config, s: State, t: nat, phase: Phase) {
    && t < |cfg.plan| == |s.phases| && s.phases[t] == phase && s.now == cfg.created && s.ledger == EMPTY_LEDGER
  }

  lemma AloneEnters(cfg: Config, t: nat)
    requires ValidConfig(cfg) && t < |cfg.plan|
    ensures Legal(cfg, [Enter(t)])
    ensures AloneAt(cfg, After(cfg, [Enter(t)]), t, Limiting(None))
    ensures After(cfg, [Enter(t)]).limiters == Start(cfg).limiters
  {
    NoneActive(Start(cfg).phases);
    assert After(cfg, []) == Start(cfg);
    OneMoreStep(cfg, [], Enter(t));
    assert [] + [Enter(t)] == [Enter(t)];
  }

  lemma AloneLaunches(cfg: Config, s: State, t: nat)
    requires ValidConfig(cfg) && AloneAt(cfg, s, t, Limiting(None)) && s.limiters == Start(cfg).limiters
    requires cfg.retry.maxAttempts > 0
    requires CheckProvider(cfg.caps, EMPTY_LEDGER, cfg.plan[t].provider, Estimate(cfg, t)).Admitted?
    ensures Enabled(cfg, s, TryPass(t, cfg.created))
    ensures AloneAt(cfg, Apply(cfg, s, TryPass(t, cfg.created)), t, InFlight(1, cfg.created, None))
  {
    var p := cfg.plan[t].provider;
    if p in cfg.rpm {
      FullBucketGrants(cfg.rpm[p], cfg.created);
    }
  }

  lemma AlonePays(cfg: Config, t: nat)
    requires ValidConfig(cfg) && t < |cfg.plan| && cfg.retry.maxAttempts > 0
    requires CheckProvider(cfg.caps, EMPTY_LEDGER, cfg.plan[t].provider, Estimate(cfg, t)).Admitted?
    ensures Legal(cfg, Alone(cfg, t)) && WithinAssumedSizes(cfg, Alone(cfg, t))
    ensures After(cfg, Alone(cfg, t)).ledger.globalSpend == ActualCost(cfg, t, Dearest(cfg, t))
  {
    var steps := Alone(cfg, t);
    AloneEnters(cfg, t);
    AloneLaunches(cfg, After(cfg, [Enter(t)]), t);
    OneMoreStep(cfg, [Enter(t)], steps[1]);
    assert [Enter(t)] + [steps[1]] == [Enter(t), steps[1]];
    OneMoreStep(cfg, [Enter(t), steps[1]], steps[2]);
    assert [Enter(t), steps[1]] + [steps[2]] == steps;
  }

  /** Under these caps, whatever happens, no cap is exceeded by responses within the assumed sizes. */
  ghost predicate NeverOverspends(cfg: Config, caps: Caps)
    requires ValidConfig(cfg)
  {
    var capped := cfg.(caps := caps);
    forall steps: seq<Step>, account: Account ::
      && Legal(capped, steps) && WithinAssumedSizes(capped, steps)
      && Cap(capped, account).Some? && Cap(capped, account).value >= 0.0
      ==> Spent(After(capped, steps).ledger, account) <= Cap(capped, account).value
  }

  /**
   With one permit and responses within the assumed sizes, a plan keeps within any caps
   exactly when none of its estimates loses anything to rounding.
   */
  lemma OnePermitKeepsCaps(cfg: Config)
    requires ValidConfig(cfg) && cfg.permits == 1 && cfg.retry.maxAttempts > 0 && PricesNonNegative(cfg)
    ensures (forall caps: Caps :: NeverOverspends(cfg, caps)) <==> EstimatesKept(cfg)
  {
    if EstimatesKept(cfg) {
      forall caps: Caps ensures NeverOverspends(cfg, caps) {
        KeptKeepsCaps(cfg, caps);
      }
    } else {
      var t :| 0 <= t < |cfg.plan|
               && !KeptByRounding(LargestCost(cfg.pricing, cfg.plan[t].model, cfg.plan[t].maxOutputTokens));
      var caps := Caps(Estimate(cfg, t), 0.0, map[]);
      var capped := cfg.(caps := caps);
      EstimateNotNegative(capped, t);
      AlonePays(capped, t);
      LargestIsCovered(cfg.pricing, cfg.plan[t].model, cfg.plan[t].maxOutputTokens);
      assert Spent(After(capped, Alone(capped, t)).ledger, Everything) > Cap(capped, Everything).value;
      assert !NeverOverspends(cfg, caps);
    }
  }

  lemma KeptKeepsCaps(cfg: Config, caps: Caps)
    requires ValidConfig(cfg) && cfg.permits == 1 && PricesNonNegative(cfg) && EstimatesKept(cfg)
    ensures NeverOverspends(cfg, caps)
  {
    var capped := cfg.(caps := caps);
    var largest := LargestEstimate(capped, |cfg.plan|);
    forall steps: seq<Step>, account: Account |
      && Legal(capped, steps) && WithinAssumedSizes(capped, steps)
      && Cap(capped, account).Some? && Cap(capped, account).value >= 0.0
      ensures Spent(After(capped, steps).ledger, account) <= Cap(capped, account).value
    {
      KeptMeansNoOverrun(capped, steps);
      OnePermitNeverOverspends(capped, steps, account, largest);
    }
  }

  // ---------------------------------------------------------------------------
  // The reach is reached
  // ---------------------------------------------------------------------------

  const FULL_REPLY := Reply(500, 0, 500, 1)
  const ONCE := Retry.Policy(1, 0.0, 0.0, 1.0, 0.0)
  const DOLLAR_PRICING: Pricing := [("m", Prices(Some(2000.0), None))]

  /** A provider that counts for the account. */
  function ProviderFor(account: Account): string {
    if account.Everything? then "p" else account.provider
  }

  /** As many requests as permits, each estimated at exactly the whole budget of one dollar. */
  function Crowd(account: Account, n: nat): Config {
    var provider := ProviderFor(account);
    Config(seq(n, _ => Item("e", provider, "m", 0)), n, Caps(6.0, 5.0, map[provider := 1.0]),
           DOLLAR_PRICING, map[], 0.0, ONCE, 60.0)
  }

  lemma DollarRequests(account: Account, n: nat, t: nat)
    requires t < n
    ensures Estimate(Crowd(account, n), t) == 1.0
    ensures ActualCost(Crowd(account, n), t, FULL_REPLY) == 1.0
  {
    assert ModelPrices(DOLLAR_PRICING, "m") == Prices(Some(2000.0), None);
    assert ExactCost(Prices(Some(2000.0), None), 500, 0) == 1.0;
    assert RoundInt(1.0 * PLACES_8) == 100000000;
    assert EstimateCost(DOLLAR_PRICING, "m", 500, 0) == 1.0;
    assert Times(1.0, 1, 1) == 1.0;
    assert RoundInt(1.0 * PLACES_6) == 1000000;
  }

  /** The first `j` of `n` tasks are in one phase, the others in another. */
  function Mixed(n: nat, j: nat, done: Phase, rest: Phase): (phases: seq<Phase>)
    ensures |phases| == n
    ensures forall i :: 0 <= i < n ==> phases[i] == if i < j then done else rest
  {
    seq(n, i => if i < j then done else rest)
  }

  lemma OneMoreDone(n: nat, j: nat, done: Phase, rest: Phase)
    requires j < n
    ensures Mixed(n, j, done, rest)[j := done] == Mixed(n, j + 1, done, rest)
  {
  }

  lemma AllDone(n: nat, done: Phase, rest: Phase, next: Phase)
    ensures Mixed(n, n, done, rest) == Mixed(n, 0, next, done)
  {
  }

  lemma {:induction false} ActiveOfMixed(n: nat, j: nat)
    requires j <= n
    ensures Active(Mixed(n, j, Limiting(None), Queued)) == j
    decreases n
  {
    if n > 0 {
      var phases := Mixed(n, j, Limiting(None), Queued);
      if j == n {
        assert phases[..n - 1] == Mixed(n - 1, n - 1, Limiting(None), Queued);
        ActiveOfMixed(n - 1, n - 1);
      } else {
        assert phases[..n - 1] == Mixed(n - 1, j, Limiting(None), Queued);
        ActiveOfMixed(n - 1, j);
      }
    }
  }

  predicate CrowdState(account: Account, s: State, phases: seq<Phase>, spent: real, now: real) {
    && s.limiters == map[] && s.phases == phases && s.now == now
    && s.ledger.globalSpend == spent && SpendOf(s.ledger.providerSpend, ProviderFor(account)) == spent
  }

  /** A run of the crowd, all answers in full, that has come to these phases, spend and time. */
  ghost predicate CrowdAt(account: Account, n: nat, steps: seq<Step>, phases: seq<Phase>, spent: real, now: real) {
    && ValidConfig(Crowd(account, n)) && Legal(Crowd(account, n), steps)
    && (forall i :: 0 <= i < |steps| && IsAnswer(steps[i]) ==> steps[i].end.value == FULL_REPLY)
    && CrowdState(account, After(Crowd(account, n), steps), phases, spent, now)
  }

  lemma CrowdAppend(
    account: Account, n: nat, steps: seq<Step>, step: Step, before: seq<Phase>, was: real, since: real,
    phases: seq<Phase>, spent: real, now: real)
    requires CrowdAt(account, n, steps, before, was, since)
    requires IsAnswer(step) ==> step.end.value == FULL_REPLY
    requires Enabled(Crowd(account, n), After(Crowd(account, n), steps), step)
    requires CrowdState(account, Apply(Crowd(account, n), After(Crowd(account, n), steps), step), phases, spent, now)
    ensures CrowdAt(account, n, steps + [step], phases, spent, now)
  {
    OneMoreStep(Crowd(account, n), steps, step);
  }

  lemma TaskEnters(account: Account, n: nat, s: State, j: nat)
    requires j < n && CrowdState(account, s, Mixed(n, j, Limiting(None), Queued), 0.0, 0.0)
    ensures ValidConfig(Crowd(account, n)) && Enabled(Crowd(account, n), s, Enter(j))
    ensures CrowdState(account, Apply(Crowd(account, n), s, Enter(j)),
                       Mixed(n, j + 1, Limiting(None), Queued), 0.0, 0.0)
  {
    ActiveOfMixed(n, j);
    OneMoreDone(n, j, Limiting(None), Queued);
  }

  lemma {:induction false} AllEnter(account: Account, n: nat, j: nat) returns (steps: seq<Step>)
    requires j <= n && n > 0
    ensures CrowdAt(account, n, steps, Mixed(n, j, Limiting(None), Queued), 0.0, 0.0)
  {
    if j == 0 {
      steps := [];
      assert After(Crowd(account, n), steps).phases == Mixed(n, 0, Limiting(None), Queued);
    } else {
      var front := AllEnter(account, n, j - 1);
      TaskEnters(account, n, After(Crowd(account, n), front), j - 1);
      CrowdAppend(account, n, front, Enter(j - 1), Mixed(n, j - 1, Limiting(None), Queued), 0.0, 0.0,
                  Mixed(n, j, Limiting(None), Queued), 0.0, 0.0);
      steps := front + [Enter(j - 1)];
    }
  }

  const SENT := InFlight(1, 0.0, None)

  lemma TaskLaunches(account: Account, n: nat, s: State, j: nat)
    requires j < n && CrowdState(account, s, Mixed(n, j, SENT, Limiting(None)), 0.0, 0.0)
    ensures ValidConfig(Crowd(account, n)) && Enabled(Crowd(account, n), s, TryPass(j, 0.0))
    ensures CrowdState(account, Apply(Crowd(account, n), s, TryPass(j, 0.0)),
                       Mixed(n, j + 1, SENT, Limiting(None)), 0.0, 0.0)
  {
    DollarRequests(account, n, j);
    OneMoreDone(n, j, SENT, Limiting(None));
  }

  /** Nothing has been paid for yet, so every check passes. */
  lemma {:induction false} AllLaunch(account: Account, n: nat, j: nat) returns (steps: seq<Step>)
    requires j <= n && n > 0
    ensures CrowdAt(account, n, steps, Mixed(n, j, SENT, Limiting(None)), 0.0, 0.0)
  {
    if j == 0 {
      steps := AllEnter(account, n, n);
      AllDone(n, Limiting(None), Queued, SENT);
    } else {
      var front := AllLaunch(account, n, j - 1);
      TaskLaunches(account, n, After(Crowd(account, n), front), j - 1);
      CrowdAppend(account, n, front, TryPass(j - 1, 0.0), Mixed(n, j - 1, SENT, Limiting(None)), 0.0, 0.0,
                  Mixed(n, j, SENT, Limiting(None)), 0.0, 0.0);
      steps := front + [TryPass(j - 1, 0.0)];
    }
  }

  /** A full answer, a second after the request was sent. */
  function Pays(j: nat): Step {
    Settle(j, 1.0, Retry.Success(FULL_REPLY), 0.0)
  }

  lemma TaskPays(account: Account, n: nat, s: State, j: nat, now: real)
    requires j < n && now <= 1.0 && CrowdState(account, s, Mixed(n, j, Finished, SENT), j as real, now)
    ensures ValidConfig(Crowd(account, n)) && Enabled(Crowd(account, n), s, Pays(j))
    ensures CrowdState(account, Apply(Crowd(account, n), s, Pays(j)),
                       Mixed(n, j + 1, Finished, SENT), (j + 1) as real, 1.0)
  {
    DollarRequests(account, n, j);
    OneMoreDone(n, j, Finished, SENT);
  }

  lemma {:induction false} AllPay(account: Account, n: nat, j: nat) returns (steps: seq<Step>)
    requires j <= n && n > 0
    ensures CrowdAt(account, n, steps, Mixed(n, j, Finished, SENT), j as real, if j == 0 then 0.0 else 1.0)
  {
    if j == 0 {
      steps := AllLaunch(account, n, n);
      AllDone(n, SENT, Limiting(None), Finished);
    } else {
      var front := AllPay(account, n, j - 1);
      var now := if j == 1 then 0.0 else 1.0;
      TaskPays(account, n, After(Crowd(account, n), front), j - 1, now);
      CrowdAppend(account, n, front, Pays(j - 1), Mixed(n, j - 1, Finished, SENT), (j - 1) as real, now,
                  Mixed(n, j, Finished, SENT), j as real, 1.0);
      steps := front + [Pays(j - 1)];
    }
  }

  /**
   The bound cannot be improved: for every number of permits there is a run, with no response
   dearer than its estimate, that spends the cap and one largest request more for each permit
   but one, of the global budget and of a provider's alike.
   */
  lemma ReachIsReached(account: Account, permits: nat) returns (cfg: Config, steps: seq<Step>, largest: real)
    requires permits > 0
    ensures cfg.permits == permits && ValidConfig(cfg) && Legal(cfg, steps)
    ensures EstimatesUpTo(cfg, largest) && OverrunsUpTo(cfg, steps, 0.0) && largest > 0.0
    ensures Cap(cfg, account) == Some(largest)
    ensures Spent(After(cfg, steps).ledger, account) == Reach(cfg, largest, largest, 0.0)
  {
    cfg, largest := Crowd(account, permits), 1.0;
    steps := AllPay(account, permits, permits);
    forall t | 0 <= t < permits
      ensures Estimate(cfg, t) == 1.0 && ActualCost(cfg, t, FULL_REPLY) == 1.0
    {
      DollarRequests(account, permits, t);
    }
    assert Multiple(permits - 1, 1.0) == (permits - 1) as real;
  }

  /** A run in which no response costs more than estimated, and the cap is exceeded all the same. */
  ghost predicate Overspends(cfg: Config, steps: seq<Step>, account: Account, largest: real) {
    && ValidConfig(cfg) && Legal(cfg, steps)
    && EstimatesUpTo(cfg, largest) && OverrunsUpTo(cfg, steps, 0.0)
    && Cap(cfg, account).Some? && Cap(cfg, account).value >= 0.0
    && Spent(After(cfg, steps).ledger, account) > Cap(cfg, account).value
  }

  /** "There is no overspend" holds of the dispatcher, for either kind of cap, exactly when it has a single permit. */
  lemma OverspendNeedsSecondPermit(account: Account, permits: nat)
    requires permits > 0
    ensures (exists cfg: Config, steps, largest :: cfg.permits == permits && Overspends(cfg, steps, account, largest))
            <==> permits >= 2
  {
    if permits >= 2 {
      var cfg, steps, largest := ReachIsReached(account, permits);
      MultipleStep(permits - 2, largest);
      NoMultiple(largest);
      MultipleMonotone(0, permits - 2, largest);
      assert largest + 0.0 == largest;
      assert Overspends(cfg, steps, account, largest);
    } else {
      forall cfg: Config, steps, largest | cfg.permits == permits && Overspends(cfg, steps, account, largest)
        ensures false
      {
        OnePermitNeverOverspends(cfg, steps, account, largest);
      }
    }
  }
}
