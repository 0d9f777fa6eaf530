/**
 Which plans keep within every choice of caps, however many permits there are, as long as no
 response costs more than its estimate. One request that can cost anything is harmless; of
 two, each may be let in before the other is paid for.
 */
module DispatchCaps {
  import opened Wrappers
  import opened CostEstimator
  import opened CostGuard
  import opened Dispatch
  import opened DispatchLimits
  import opened DispatchBudget
  import R = RateLimiter
  import Retry

  /** Under these caps no run without overruns exceeds a cap. */
  ghost predicate KeepsCaps(cfg: Config, caps: Caps)
    requires ValidConfig(cfg)
  {
    var capped := cfg.(caps := caps);
    forall steps: seq<Step>, account: Account ::
      && Legal(capped, steps) && OverrunsUpTo(capped, steps, 0.0)
      && Cap(capped, account).Some? && Cap(capped, account).value >= 0.0
      ==> Spent(After(capped, steps).ledger, account) <= Cap(capped, account).value
  }

  /** The reply costs something, and no more than estimated. */
  predicate CostsWithin(cfg: Config, t: nat, reply: Reply)
    requires t < |cfg.plan|
  {
    0.0 < ActualCost(cfg, t, reply) <= Estimate(cfg, t)
  }

  ghost predicate CanCost(cfg: Config, t: nat)
    requires t < |cfg.plan|
  {
    exists reply :: CostsWithin(cfg, t, reply)
  }

  // ---------------------------------------------------------------------------
  // One request that can cost anything
  // ---------------------------------------------------------------------------

  ghost predicate OnlyPayer(cfg: Config, t: nat) {
    forall u :: 0 <= u < |cfg.plan| && u != t ==> !CanCost(cfg, u)
  }

  /** Nothing is spent until that request has been paid for, and it was let in for its estimate. */
  ghost predicate PayerInv(cfg: Config, s: State, account: Account, t: nat)
    requires Cap(cfg, account).Some?
  {
    && |s.phases| == |cfg.plan|
    && Spent(s.ledger, account) <= Cap(cfg, account).value
    && ((t < |cfg.plan| && s.phases[t].Finished?) || Spent(s.ledger, account) == 0.0)
    && (t < |cfg.plan| && s.phases[t].InFlight? && Counts(cfg, t, account) ==>
          Estimate(cfg, t) <= Cap(cfg, account).value)
  }

  lemma OthersPayNothing(cfg: Config, t: nat, u: nat, reply: Reply)
    requires PricesNonNegative(cfg) && OnlyPayer(cfg, t) && u < |cfg.plan| && u != t
    requires ActualCost(cfg, u, reply) <= Estimate(cfg, u)
    ensures ActualCost(cfg, u, reply) == 0.0
  {
    CostNotNegative(cfg.pricing, cfg.plan[u].model, reply.inputTokens, reply.outputTokens);
    assert CostsWithin(cfg, u, reply) ==> CanCost(cfg, u);
  }

  lemma StepKeepsPayer(cfg: Config, s: State, step: Step, account: Account, t: nat)
    requires ValidConfig(cfg) && Enabled(cfg, s, step) && Cap(cfg, account).Some?
    requires PricesNonNegative(cfg) && OnlyPayer(cfg, t) && PayerInv(cfg, s, account, t)
    requires IsAnswer(step) ==> ActualCost(cfg, step.task, step.end.value) <= Estimate(cfg, step.task)
    ensures PayerInv(cfg, Apply(cfg, s, step), account, t)
  {
    var next := Apply(cfg, s, step);
    StepPhases(cfg, s, step);
    if IsAnswer(step) {
      var cost := ActualCost(cfg, step.task, step.end.value);
      SpentRecorded(s.ledger, cfg.plan[step.task].provider, cost, account);
      if step.task != t {
        OthersPayNothing(cfg, t, step.task, step.end.value);
      }
    } else {
      assert next.ledger == s.ledger;
    }
  }

  lemma {:induction false} PayerKept(cfg: Config, steps: seq<Step>, account: Account, t: nat)
    requires ValidConfig(cfg) && Legal(cfg, steps) && OverrunsUpTo(cfg, steps, 0.0)
    requires Cap(cfg, account).Some? && Cap(cfg, account).value >= 0.0
    requires PricesNonNegative(cfg) && OnlyPayer(cfg, t)
    ensures PayerInv(cfg, After(cfg, steps), account, t)
    decreases |steps|
  {
    if steps != [] {
      var front, last := steps[..|steps| - 1], steps[|steps| - 1];
      assert OverrunsUpTo(cfg, front, 0.0) by {
        forall i | 0 <= i < |front| && IsAnswer(front[i]) && front[i].task < |cfg.plan|
          ensures ActualCost(cfg, front[i].task, front[i].end.value) <= Estimate(cfg, front[i].task) + 0.0
        {
          assert steps[i] == front[i];
        }
      }
      PayerKept(cfg, front, account, t);
      StepKeepsPayer(cfg, After(cfg, front), last, account, t);
    }
  }

  /** With at most one request that can cost anything, no choice of caps is ever exceeded. */
  lemma OnePayerKeepsCaps(cfg: Config, t: nat, caps: Caps)
    requires ValidConfig(cfg) && PricesNonNegative(cfg) && OnlyPayer(cfg, t)
    ensures KeepsCaps(cfg, caps)
  {
    var capped := cfg.(caps := caps);
    forall u | 0 <= u < |cfg.plan| && u != t ensures !CanCost(capped, u) {
      forall reply | CostsWithin(capped, u, reply) ensures CanCost(cfg, u) {
        assert CostsWithin(cfg, u, reply);
      }
    }
    forall steps: seq<Step>, account: Account |
      && Legal(capped, steps) && OverrunsUpTo(capped, steps, 0.0)
      && Cap(capped, account).Some? && Cap(capped, account).value >= 0.0
      ensures Spent(After(capped, steps).ledger, account) <= Cap(capped, account).value
    {
      PayerKept(capped, steps, account, t);
    }
  }

  // ---------------------------------------------------------------------------
  // Two requests that can
  // ---------------------------------------------------------------------------

  /** All tasks are queued but two. */
  ghost predicate PairPhases(phases: seq<Phase>, n: nat, t: nat, u: nat, first: Phase, second: Phase) {
    |phases| == n && forall i :: 0 <= i < n ==>
      phases[i] == if i == t then first else if i == u then second else Queued
  }

  lemma PairActive(phases: seq<Phase>, n: nat, t: nat, u: nat, first: Phase, second: Phase)
    requires t < n && u < n && t != u && PairPhases(phases, n, t, u, first, second)
    ensures Active(phases) == (if HoldsPermit(first) then 1 else 0) + (if HoldsPermit(second) then 1 else 0)
  {
    var queued := seq(n, _ => Queued);
    NoneActive(queued);
    ActiveUpdate(queued, t, first);
    ActiveUpdate(queued[t := first], u, second);
    assert phases == queued[t := first][u := second];
  }

  ghost predicate PairState(
    cfg: Config, s: State, t: nat, u: nat, first: Phase, second: Phase, spent: real, now: real)
  {
    PairPhases(s.phases, |cfg.plan|, t, u, first, second) && s.ledger.globalSpend == spent && s.now == now
  }

  /** A run without overruns that has come to these two phases, spend and time. */
  ghost predicate PairAt(
    cfg: Config, steps: seq<Step>, t: nat, u: nat, first: Phase, second: Phase, spent: real, now: real)
  {
    && ValidConfig(cfg) && Legal(cfg, steps) && OverrunsUpTo(cfg, steps, 0.0)
    && PairState(cfg, After(cfg, steps), t, u, first, second, spent, now)
  }

  /** A global cap that lets each of the two in as long as nothing has been paid for. */
  ghost predicate RoomForEach(cfg: Config, t: nat, u: nat) {
    && ValidConfig(cfg) && cfg.permits >= 2 && cfg.retry.maxAttempts > 0
    && t < |cfg.plan| && u < |cfg.plan| && t != u
    && cfg.caps.providerCaps == map[]
    && Estimate(cfg, t) <= cfg.caps.EffectiveGlobalCap() && Estimate(cfg, u) <= cfg.caps.EffectiveGlobalCap()
  }

  lemma PairAppend(
    cfg: Config, steps: seq<Step>, step: Step, t: nat, u: nat, first: Phase, second: Phase, spent: real, now: real)
    requires ValidConfig(cfg) && Legal(cfg, steps) && OverrunsUpTo(cfg, steps, 0.0)
    requires Enabled(cfg, After(cfg, steps), step)
    requires IsAnswer(step) ==> ActualCost(cfg, step.task, step.end.value) <= Estimate(cfg, step.task)
    requires PairState(cfg, Apply(cfg, After(cfg, steps), step), t, u, first, second, spent, now)
    ensures PairAt(cfg, steps + [step], t, u, first, second, spent, now)
  {
    OneMoreStep(cfg, steps, step);
    var more := steps + [step];
    forall i | 0 <= i < |more| && IsAnswer(more[i]) && more[i].task < |cfg.plan|
      ensures ActualCost(cfg, more[i].task, more[i].end.value) <= Estimate(cfg, more[i].task) + 0.0
    {
      assert i < |steps| ==> more[i] == steps[i];
    }
  }

  /** A minute after anything else happened, the limiter lets a task through. */
  lemma LimiterPasses(cfg: Config, steps: seq<Step>, t: nat, at: real)
    requires ValidConfig(cfg) && Legal(cfg, steps) && t < |cfg.plan|
    requires After(cfg, steps).now + 60.0 <= at
    ensures PassLimiter(cfg, After(cfg, steps), t, at).1.None?
  {
    var p := cfg.plan[t].provider;
    if p in cfg.rpm {
      var s := After(cfg, steps);
      LimitersInOrder(cfg, steps, p);
      LastRefillPast(cfg, s, p);
      R.TokensInRange(cfg.rpm[p], cfg.created, s.limiters[p].events, |s.limiters[p].events|);
      MinuteSuffices(cfg.rpm[p], s.limiters[p].bucket, at);
    }
  }

  lemma MinuteSuffices(rpm: nat, b: R.BucketState, at: real)
    requires rpm > 0 && b.tokens >= 0.0 && b.lastRefill + 60.0 <= at
    ensures R.Pass(rpm, b, at).1.Granted?
  {
    R.AccruedMonotone(rpm, 60.0, at - b.lastRefill);
    assert R.Accrued(rpm, 60.0) == rpm as real;
  }

  /** One of the two enters. */
  lemma PairEnters(cfg: Config, steps: seq<Step>, v: nat, t: nat, u: nat, first: Phase, second: Phase, now: real)
    requires RoomForEach(cfg, t, u) && PairAt(cfg, steps, t, u, first, second, 0.0, now)
    requires (v == t && first.Queued?) || (v == u && second.Queued?)
    ensures PairAt(cfg, steps + [Enter(v)], t, u, if v == t then Limiting(None) else first,
                   if v == u then Limiting(None) else second, 0.0, now)
  {
    PairActive(After(cfg, steps).phases, |cfg.plan|, t, u, first, second);
    PairAppend(cfg, steps, Enter(v), t, u, if v == t then Limiting(None) else first,
               if v == u then Limiting(None) else second, 0.0, now);
  }

  /** One of the two is launched, a minute later and with nothing paid for. */
  lemma PairLaunches(
    cfg: Config, steps: seq<Step>, v: nat, t: nat, u: nat, first: Phase, second: Phase, now: real, at: real)
    requires RoomForEach(cfg, t, u) && PairAt(cfg, steps, t, u, first, second, 0.0, now) && at == now + 60.0
    requires (v == t && first == Limiting(None)) || (v == u && second == Limiting(None))
    ensures PairAt(cfg, steps + [TryPass(v, at)], t, u, if v == t then InFlight(1, at, None) else first,
                   if v == u then InFlight(1, at, None) else second, 0.0, at)
  {
    LimiterPasses(cfg, steps, v, at);
    PairAppend(cfg, steps, TryPass(v, at), t, u, if v == t then InFlight(1, at, None) else first,
               if v == u then InFlight(1, at, None) else second, 0.0, at);
  }

  /** One of the two is answered and paid for. */
  lemma PairPays(
    cfg: Config, steps: seq<Step>, v: nat, reply: Reply, t: nat, u: nat, first: Phase, second: Phase,
    spent: real, now: real)
    requires RoomForEach(cfg, t, u) && PairAt(cfg, steps, t, u, first, second, spent, now)
    requires (v == t && first.InFlight? && first.wake.None?) || (v == u && second.InFlight? && second.wake.None?)
    requires ActualCost(cfg, v, reply) <= Estimate(cfg, v)
    ensures PairAt(cfg, steps + [Settle(v, now, Retry.Success(reply), 0.0)], t, u,
                   if v == t then Finished else first, if v == u then Finished else second,
                   spent + ActualCost(cfg, v, reply), now)
  {
    PairAppend(cfg, steps, Settle(v, now, Retry.Success(reply), 0.0), t, u,
               if v == t then Finished else first, if v == u then Finished else second,
               spent + ActualCost(cfg, v, reply), now);
  }

  /** Both are launched before either is paid for. */
  lemma PairRuns(cfg: Config, t: nat, u: nat, a: Reply, b: Reply) returns (steps: seq<Step>)
    requires RoomForEach(cfg, t, u)
    requires ActualCost(cfg, t, a) <= Estimate(cfg, t) && ActualCost(cfg, u, b) <= Estimate(cfg, u)
    ensures Legal(cfg, steps) && OverrunsUpTo(cfg, steps, 0.0)
    ensures After(cfg, steps).ledger.globalSpend == ActualCost(cfg, t, a) + ActualCost(cfg, u, b)
  {
    var later := cfg.created + 60.0;
    var last := later + 60.0;
    var sentT, sentU := InFlight(1, later, None), InFlight(1, last, None);
    steps := [];
    assert PairAt(cfg, steps, t, u, Queued, Queued, 0.0, cfg.created);
    PairEnters(cfg, steps, t, t, u, Queued, Queued, cfg.created);
    steps := steps + [Enter(t)];
    PairEnters(cfg, steps, u, t, u, Limiting(None), Queued, cfg.created);
    steps := steps + [Enter(u)];
    PairLaunches(cfg, steps, t, t, u, Limiting(None), Limiting(None), cfg.created, later);
    steps := steps + [TryPass(t, later)];
    PairLaunches(cfg, steps, u, t, u, sentT, Limiting(None), later, last);
    steps := steps + [TryPass(u, last)];
    PairPays(cfg, steps, t, a, t, u, sentT, sentU, 0.0, last);
    steps := steps + [Settle(t, last, Retry.Success(a), 0.0)];
    PairPays(cfg, steps, u, b, t, u, Finished, sentU, ActualCost(cfg, t, a), last);
    steps := steps + [Settle(u, last, Retry.Success(b), 0.0)];
  }

  function Larger(x: real, y: real): real {
    if x >= y then x else y
  }

  /** Two requests that together can cost more than either is estimated at exceed the cap that fits the larger. */
  lemma TwoPayersExceed(cfg: Config, t: nat, u: nat, a: Reply, b: Reply)
    requires ValidConfig(cfg) && cfg.permits >= 2 && cfg.retry.maxAttempts > 0 && PricesNonNegative(cfg)
    requires t < |cfg.plan| && u < |cfg.plan| && t != u
    requires ActualCost(cfg, t, a) <= Estimate(cfg, t) && ActualCost(cfg, u, b) <= Estimate(cfg, u)
    requires Larger(Estimate(cfg, t), Estimate(cfg, u)) < ActualCost(cfg, t, a) + ActualCost(cfg, u, b)
    ensures !KeepsCaps(cfg, Caps(Larger(Estimate(cfg, t), Estimate(cfg, u)), 0.0, map[]))
  {
    var caps := Caps(Larger(Estimate(cfg, t), Estimate(cfg, u)), 0.0, map[]);
    var capped := cfg.(caps := caps);
    var steps := PairRuns(capped, t, u, a, b);
    EstimateNotNegative(cfg, t);
    assert Cap(capped, Everything) == Some(Larger(Estimate(cfg, t), Estimate(cfg, u)));
    assert Spent(After(capped, steps).ledger, Everything) > Cap(capped, Everything).value;
  }

  /** The estimate is no more than the request can cost. */
  ghost predicate EstimateMet(cfg: Config, t: nat)
    requires t < |cfg.plan|
  {
    Estimate(cfg, t) == 0.0 || exists reply :: CostsAll(cfg, t, reply)
  }

  predicate CostsAll(cfg: Config, t: nat, reply: Reply)
    requires t < |cfg.plan|
  {
    ActualCost(cfg, t, reply) == Estimate(cfg, t)
  }

  /** At most one request is estimated to cost anything. */
  ghost predicate OneEstimate(cfg: Config) {
    forall t, u :: 0 <= t < u < |cfg.plan| ==> Estimate(cfg, t) == 0.0 || Estimate(cfg, u) == 0.0
  }

  lemma OneEstimateOnePayer(cfg: Config) returns (t: nat)
    requires OneEstimate(cfg)
    ensures OnlyPayer(cfg, t)
  {
    if v :| 0 <= v < |cfg.plan| && Estimate(cfg, v) != 0.0 {
      t := v;
      forall u | 0 <= u < |cfg.plan| && u != t ensures !CanCost(cfg, u) {
        assert Estimate(cfg, u) == 0.0;
      }
    } else {
      t := 0;
    }
  }

  /**
   With several permits and without overruns, a plan whose estimates can be met exactly keeps
   within every choice of caps exactly when at most one of its requests can cost anything.
   */
  lemma SeveralPermitsKeepCaps(cfg: Config)
    requires ValidConfig(cfg) && cfg.permits >= 2 && cfg.retry.maxAttempts > 0 && PricesNonNegative(cfg)
    requires forall t :: 0 <= t < |cfg.plan| ==> EstimateMet(cfg, t)
    ensures (forall caps: Caps :: KeepsCaps(cfg, caps)) <==> OneEstimate(cfg)
  {
    if OneEstimate(cfg) {
      var t := OneEstimateOnePayer(cfg);
      forall caps: Caps ensures KeepsCaps(cfg, caps) {
        OnePayerKeepsCaps(cfg, t, caps);
      }
    } else {
      var t, u :| 0 <= t < u < |cfg.plan| && Estimate(cfg, t) != 0.0 && Estimate(cfg, u) != 0.0;
      assert EstimateMet(cfg, t) && EstimateMet(cfg, u);
      var a: Reply :| CostsAll(cfg, t, a);
      var b: Reply :| CostsAll(cfg, u, b);
      EstimateNotNegative(cfg, t);
      EstimateNotNegative(cfg, u);
      TwoPayersExceed(cfg, t, u, a, b);
    }
  }
}
