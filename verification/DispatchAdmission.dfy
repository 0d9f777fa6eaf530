/**
 Who is let through, in terms of money and time alone: a task that gets a token is launched
 exactly when its estimate fits what is left of the caps, is turned away for the cap that is
 exceeded, and otherwise waits no longer than it has to, for a token or for the next attempt.
 */
module DispatchAdmission {
  import opened Wrappers
  import opened CostGuard
  import opened Dispatch
  import opened DispatchLimits
  import opened DispatchAccounting
  import R = RateLimiter
  import Retry

  // ---------------------------------------------------------------------------
  // Money
  // ---------------------------------------------------------------------------

  /** What a provider's answers have cost, or those of all providers when none is named. */
  function Paid(cfg: Config, results: Results, provider: Option<string>): real
    requires InPlan(cfg, results)
  {
    if results == [] then 0.0
    else
      var (t, outcome) := results[|results| - 1];
      Paid(cfg, results[..|results| - 1], provider)
      + if outcome.Answered? && (provider.None? || cfg.plan[t].provider == provider.value)
        then ActualCost(cfg, t, outcome.reply) else 0.0
  }

  /** The ledger holds what was paid, in total and for each provider. */
  lemma {:induction false} LedgerIsPaid(cfg: Config, results: Results, p: string)
    requires InPlan(cfg, results)
    ensures LedgerOf(cfg, results).globalSpend == Paid(cfg, results, None)
    ensures SpendOf(LedgerOf(cfg, results).providerSpend, p) == Paid(cfg, results, Some(p))
    decreases |results|
  {
    if results != [] {
      LedgerIsPaid(cfg, results[..|results| - 1], p);
    }
  }

  /** With the request, more than the provider's cap, if it has one, or than the global cap without its reserve. */
  predicate OverProvider(cfg: Config, s: State, t: nat)
    requires t < |cfg.plan| && InPlan(cfg, s.results)
  {
    var p := cfg.plan[t].provider;
    p in cfg.caps.providerCaps && Paid(cfg, s.results, Some(p)) + Estimate(cfg, t) > cfg.caps.providerCaps[p]
  }

  predicate OverGlobal(cfg: Config, s: State, t: nat)
    requires t < |cfg.plan| && InPlan(cfg, s.results)
  {
    Paid(cfg, s.results, None) + Estimate(cfg, t) > cfg.caps.globalCap - cfg.caps.reserve
  }

  /** The bucket of the task's provider, if there is one, holds a token at that time. */
  predicate HasToken(cfg: Config, s: State, t: nat, at: real)
    requires t < |cfg.plan|
  {
    var p := cfg.plan[t].provider;
    p in cfg.rpm && p in s.limiters ==> R.Refill(cfg.rpm[p], s.limiters[p].bucket, at).tokens >= 1.0
  }

  /**
   A task that gets a token is in flight if and only if no cap is exceeded with its estimate,
   and otherwise finished, over the provider's cap or else over the global one.
   */
  lemma AdmissionIsExact(cfg: Config, steps: seq<Step>, t: nat, at: real)
    requires ValidConfig(cfg) && Legal(cfg, steps) && Enabled(cfg, After(cfg, steps), TryPass(t, at))
    requires cfg.retry.maxAttempts > 0 && HasToken(cfg, After(cfg, steps), t, at)
    ensures InPlan(cfg, After(cfg, steps).results)
    ensures var s, next := After(cfg, steps), Apply(cfg, After(cfg, steps), TryPass(t, at));
            && (next.phases[t].InFlight? <==> !OverProvider(cfg, s, t) && !OverGlobal(cfg, s, t))
            && (next.phases[t].InFlight? ==>
                  next.phases[t] == InFlight(1, at, None) && next.results == s.results && next.metrics == s.metrics)
            && (OverProvider(cfg, s, t) ==>
                  next.phases[t].Finished? && next.results == s.results + [(t, OverBudget(ProviderCapExceeded))])
            && (!OverProvider(cfg, s, t) && OverGlobal(cfg, s, t) ==>
                  next.phases[t].Finished? && next.results == s.results + [(t, OverBudget(GlobalCapExceeded))])
  {
    BooksAgree(cfg, steps);
    LedgerIsPaid(cfg, After(cfg, steps).results, cfg.plan[t].provider);
  }

  // ---------------------------------------------------------------------------
  // Refusals over whole runs
  // ---------------------------------------------------------------------------

  lemma {:induction false} PrefixIsLegal(cfg: Config, steps: seq<Step>, n: nat)
    requires ValidConfig(cfg) && Legal(cfg, steps) && n <= |steps|
    ensures Legal(cfg, steps[..n])
    ensures InPlan(cfg, After(cfg, steps[..n]).results)
    ensures n < |steps| ==> Enabled(cfg, After(cfg, steps[..n]), steps[n])
    decreases |steps|
  {
    if n == |steps| {
      assert steps[..n] == steps;
    } else {
      var front := steps[..|steps| - 1];
      PrefixIsLegal(cfg, front, n);
      assert front[..n] == steps[..n];
      assert n == |steps| - 1 ==> steps[..n] == front;
      assert n < |front| ==> front[n] == steps[n];
    }
    BooksAgree(cfg, steps[..n]);
  }

  /** At this step the task had a token and the cap named by `k` was exceeded, the provider's first. */
  predicate RefusedBy(cfg: Config, s: State, step: Step, t: nat, k: Check)
    requires InPlan(cfg, s.results)
  {
    && step.TryPass? && step.task == t && t < |cfg.plan| && HasToken(cfg, s, t, step.at)
    && match k
       case Admitted => false
       case ProviderCapExceeded => OverProvider(cfg, s, t)
       case GlobalCapExceeded => !OverProvider(cfg, s, t) && OverGlobal(cfg, s, t)
  }

  lemma StepRefuses(cfg: Config, s: State, step: Step, t: nat, k: Check)
    requires ValidConfig(cfg) && Enabled(cfg, s, step) && BooksInv(cfg, s)
    ensures (t, OverBudget(k)) in Apply(cfg, s, step).results <==>
              (t, OverBudget(k)) in s.results || RefusedBy(cfg, s, step, t, k)
  {
    StepRecords(cfg, s, step);
    var next := Apply(cfg, s, step);
    LedgerIsPaid(cfg, s.results, cfg.plan[step.task].provider);
    if next.phases[step.task].Finished? {
      var r := next.results[|s.results|];
      assert next.results == s.results + [r];
    }
  }

  ghost predicate RefusedIn(cfg: Config, steps: seq<Step>, t: nat, k: Check, n: nat)
    requires ValidConfig(cfg) && Legal(cfg, steps) && n < |steps|
  {
    PrefixIsLegal(cfg, steps, n);
    RefusedBy(cfg, After(cfg, steps[..n]), steps[n], t, k)
  }

  lemma RefusedEarlier(cfg: Config, steps: seq<Step>, t: nat, k: Check, n: nat)
    requires ValidConfig(cfg) && Legal(cfg, steps) && n < |steps| - 1
    ensures RefusedIn(cfg, steps, t, k, n) <==> RefusedIn(cfg, steps[..|steps| - 1], t, k, n)
  {
    var front := steps[..|steps| - 1];
    assert steps[..n] == front[..n] && steps[n] == front[n];
  }

  lemma RefusedLast(cfg: Config, steps: seq<Step>, t: nat, k: Check)
    requires ValidConfig(cfg) && Legal(cfg, steps) && steps != []
    ensures InPlan(cfg, After(cfg, steps[..|steps| - 1]).results)
    ensures RefusedIn(cfg, steps, t, k, |steps| - 1)
            <==> RefusedBy(cfg, After(cfg, steps[..|steps| - 1]), steps[|steps| - 1], t, k)
  {
    BooksAgree(cfg, steps[..|steps| - 1]);
  }

  /**
   A task is recorded as over budget if and only if there was a step at which it had its token
   and the cap in question was exceeded with its estimate.
   */
  lemma {:induction false} OverBudgetIffRefused(cfg: Config, steps: seq<Step>, t: nat, k: Check)
    requires ValidConfig(cfg) && Legal(cfg, steps)
    ensures (t, OverBudget(k)) in After(cfg, steps).results <==>
              exists n :: 0 <= n < |steps| && RefusedIn(cfg, steps, t, k, n)
    decreases |steps|
  {
    if steps != [] {
      var front, last := steps[..|steps| - 1], steps[|steps| - 1];
      OverBudgetIffRefused(cfg, front, t, k);
      BooksAgree(cfg, front);
      StepRefuses(cfg, After(cfg, front), last, t, k);
      forall n | 0 <= n < |front| ensures RefusedIn(cfg, steps, t, k, n) <==> RefusedIn(cfg, front, t, k, n) {
        RefusedEarlier(cfg, steps, t, k, n);
      }
      RefusedLast(cfg, steps, t, k);
    }
  }

  // ---------------------------------------------------------------------------
  // Waiting
  // ---------------------------------------------------------------------------

  /** A task without a token may come back exactly when one has accrued, and nothing is recorded meanwhile. */
  lemma TokenIsDue(cfg: Config, steps: seq<Step>, t: nat, at: real, later: real)
    requires ValidConfig(cfg) && Legal(cfg, steps) && Enabled(cfg, After(cfg, steps), TryPass(t, at))
    requires !HasToken(cfg, After(cfg, steps), t, at) && at <= later
    ensures var s, next := After(cfg, steps), Apply(cfg, After(cfg, steps), TryPass(t, at));
            var p := cfg.plan[t].provider;
            && next.results == s.results && next.ledger == s.ledger && next.metrics == s.metrics
            && p in cfg.rpm && p in next.limiters
            && (Enabled(cfg, next, TryPass(t, later)) <==>
                  R.Refill(cfg.rpm[p], next.limiters[p].bucket, later).tokens >= 1.0)
  {
    var p := cfg.plan[t].provider;
    var s := After(cfg, steps);
    R.SleepIsLeast(cfg.rpm[p], s.limiters[p].bucket, at, later);
  }

  /** The delay after attempt `a`, as configured, with the jitter drawn. */
  function Delay(p: Retry.Policy, a: nat, jitter: real): real
    requires a > 0
  {
    var grown := p.baseDelay * Retry.Power(p.backoff, a - 1);
    (if grown > p.maxDelay then p.maxDelay else grown) + jitter
  }

  /** After a transient failure with attempts left, the next can be made exactly from the end of the delay on. */
  lemma AttemptIsDue(cfg: Config, s: State, t: nat, at: real, end: Retry.Attempt<Reply>, jitter: real, later: real)
    requires ValidConfig(cfg) && Enabled(cfg, s, Settle(t, at, end, jitter)) && at <= later
    requires end.Timeout? || end.Retryable?
    requires 0 < s.phases[t].attempt < cfg.retry.maxAttempts
    ensures var next := Apply(cfg, s, Settle(t, at, end, jitter));
            && next.results == s.results && next.ledger == s.ledger && next.metrics == s.metrics
            && (Enabled(cfg, next, Resend(t, later)) <==> at + Delay(cfg.retry, s.phases[t].attempt, jitter) <= later)
            && (Enabled(cfg, next, Resend(t, later)) ==>
                  Apply(cfg, next, Resend(t, later)).phases[t] == InFlight(s.phases[t].attempt + 1, later, None))
  {
  }
}
