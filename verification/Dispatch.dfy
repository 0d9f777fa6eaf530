/**
 The dispatcher: one task per plan item, interleaved at the points where a task awaits. A
 task waits for a permit of the semaphore, takes a token from its provider's bucket, is
 checked against the budget and makes its first attempt in the same stretch. An attempt that
 fails transiently is made again by the adapter after a delay, without another token; then
 the task is accounted for. Each `Step` is one stretch between awaits; which task moves next,
 when, and how an attempt ends is arbitrary.
 */
module Dispatch {
  import opened Wrappers
  import opened CostEstimator
  import opened CostGuard
  import opened RunMetrics
  import R = RateLimiter
  import Retry

  datatype Item = Item(executionId: string, provider: string, model: string, maxOutputTokens: nat)

  /**
   Buckets exist for the providers in `rpm` only; the others are not limited. `retry` and
   `timeout`, the time allowed for one attempt, are the adapters' retry configuration.
   */
  datatype Config = Config(
    plan: seq<Item>, permits: nat, caps: Caps, pricing: Pricing, rpm: map<string, nat>, created: real,
    retry: Retry.Policy, timeout: real)

  ghost predicate ValidConfig(cfg: Config) {
    cfg.permits > 0 && forall p :: p in cfg.rpm ==> cfg.rpm[p] > 0
  }

  /** In flight, a task awaits the end of an attempt or, with a time to wake, sleeps before the next. */
  datatype Phase =
    | Queued
    | Limiting(wake: Option<real>)
    | InFlight(attempt: nat, sent: real, wake: Option<real>)
    | Finished

  datatype Reply = Reply(inputTokens: nat, outputTokens: nat, totalTokens: int, latencyMs: int)

  datatype Outcome = Answered(reply: Reply) | OverBudget(check: Check) | Failed(kind: string)

  /** A bucket together with the passes made over it so far. */
  datatype Limiter = Limiter(bucket: R.BucketState, events: seq<R.Event>)

  datatype State = State(
    now: real,
    phases: seq<Phase>,
    limiters: map<string, Limiter>,
    ledger: Ledger,
    results: seq<(nat, Outcome)>,
    store: map<string, Reply>,
    metrics: Metrics)

  datatype Step =
    | Enter(task: nat)
    | TryPass(task: nat, at: real)
    | Settle(task: nat, at: real, end: Retry.Attempt<Reply>, jitter: real)
    | Resend(task: nat, at: real)

  function Estimate(cfg: Config, t: nat): real
    requires t < |cfg.plan|
  {
    RequestEstimate(cfg.pricing, cfg.plan[t].model, cfg.plan[t].maxOutputTokens)
  }

  function ActualCost(cfg: Config, t: nat, reply: Reply): real
    requires t < |cfg.plan|
  {
    EstimateCost(cfg.pricing, cfg.plan[t].model, reply.inputTokens, reply.outputTokens)
  }

  predicate HoldsPermit(phase: Phase) {
    phase.Limiting? || phase.InFlight?
  }

  /** How many tasks hold a permit. */
  function Active(phases: seq<Phase>): nat {
    if phases == [] then 0
    else Active(phases[..|phases| - 1]) + if HoldsPermit(phases[|phases| - 1]) then 1 else 0
  }

  function Start(cfg: Config): State
    requires ValidConfig(cfg)
  {
    State(cfg.created,
          seq(|cfg.plan|, _ => Queued),
          map p | p in cfg.rpm :: Limiter(R.Full(cfg.rpm[p], cfg.created), []),
          EMPTY_LEDGER, [], map[], NO_METRICS)
  }

  predicate Enabled(cfg: Config, s: State, step: Step) {
    && step.task < |cfg.plan| == |s.phases|
    && (step.Enter? || s.now <= step.at)
    && var phase := s.phases[step.task];
       match step
       case Enter(_) => phase.Queued? && Active(s.phases) < cfg.permits
       case TryPass(_, at) => phase.Limiting? && (phase.wake.Some? ==> phase.wake.value <= at)
       case Settle(_, _, _, jitter) =>
         phase.InFlight? && phase.wake.None? && Retry.PossibleJitter(cfg.retry, jitter)
       case Resend(_, at) => phase.InFlight? && phase.wake.Some? && phase.wake.value <= at
  }

  /** The limiter's part of a pass: whether the task may go on, and if not, when to come back. */
  function PassLimiter(cfg: Config, s: State, t: nat, at: real): (map<string, Limiter>, Option<real>)
    requires ValidConfig(cfg) && t < |cfg.plan|
  {
    var p := cfg.plan[t].provider;
    if p !in cfg.rpm || p !in s.limiters then (s.limiters, None)
    else
      var (bucket, outcome) := R.Pass(cfg.rpm[p], s.limiters[p].bucket, at);
      var limiter := Limiter(bucket, s.limiters[p].events + [R.Event(t, at)]);
      (s.limiters[p := limiter], if outcome.Granted? then None else Some(at + outcome.seconds))
  }

  /**
   The budget check of a task that got its token, and the first attempt of its request. A
   configuration that allows no attempt makes the adapter fail an assertion.
   */
  function Launch(cfg: Config, s: State, t: nat): State
    requires t < |cfg.plan| == |s.phases|
  {
    var check := CheckProvider(cfg.caps, s.ledger, cfg.plan[t].provider, Estimate(cfg, t));
    if !check.Admitted? then
      s.(phases := s.phases[t := Finished],
         results := s.results + [(t, OverBudget(check))],
         metrics := RecordError(s.metrics, cfg.plan[t].provider, "budget_exceeded"))
    else if cfg.retry.maxAttempts == 0 then Abandon(cfg, s, t, "AssertionError")
    else s.(phases := s.phases[t := InFlight(1, s.now, None)])
  }

  /** The error a failed attempt is reported as if it is the last. */
  function KindOf(end: Retry.Attempt<Reply>): string
    requires !end.Success?
  {
    if end.Timeout? then "ProviderTimeoutError" else end.kind
  }

  /** When the adapter's sleep after attempt `attempt` is over; a negative delay is none. */
  function WakeAfter(cfg: Config, attempt: nat, at: real, jitter: real): real
    requires attempt > 0
  {
    var delay := Retry.BaseDelay(cfg.retry, attempt) + jitter;
    if delay > 0.0 then at + delay else at
  }

  /** The end of an attempt: an answer, another attempt to come, or the error for good. */
  function Conclude(cfg: Config, s: State, t: nat, end: Retry.Attempt<Reply>, jitter: real): State
    requires t < |cfg.plan| == |s.phases| && s.phases[t].InFlight?
  {
    var phase := s.phases[t];
    if end.Success? then Account(cfg, s, t, end.value)
    else if Retry.Transient(end, true) && 0 < phase.attempt < cfg.retry.maxAttempts then
      s.(phases := s.phases[t := phase.(wake := Some(WakeAfter(cfg, phase.attempt, s.now, jitter)))])
    else Abandon(cfg, s, t, KindOf(end))
  }

  function Account(cfg: Config, s: State, t: nat, reply: Reply): State
    requires t < |cfg.plan| == |s.phases|
  {
    var cost := ActualCost(cfg, t, reply);
    s.(phases := s.phases[t := Finished],
       ledger := RecordSpend(s.ledger, cfg.plan[t].provider, cost),
       store := s.store[cfg.plan[t].executionId := reply],
       results := s.results + [(t, Answered(reply))],
       metrics := RecordSuccess(s.metrics, reply.latencyMs, reply.totalTokens, cost))
  }

  function Abandon(cfg: Config, s: State, t: nat, kind: string): State
    requires t < |cfg.plan| == |s.phases|
  {
    s.(phases := s.phases[t := Finished],
       results := s.results + [(t, Failed(kind))],
       metrics := RecordError(s.metrics, cfg.plan[t].provider, kind))
  }

  function Apply(cfg: Config, s: State, step: Step): State
    requires ValidConfig(cfg) && Enabled(cfg, s, step)
  {
    match step
    case Enter(t) => s.(phases := s.phases[t := Limiting(None)])
    case TryPass(t, at) =>
      var (limiters, wake) := PassLimiter(cfg, s, t, at);
      var passed := s.(now := at, limiters := limiters);
      if wake.Some? then passed.(phases := s.phases[t := Limiting(wake)])
      else Launch(cfg, passed, t)
    case Settle(t, at, end, jitter) => Conclude(cfg, s.(now := at), t, end, jitter)
    case Resend(t, at) =>
      s.(now := at, phases := s.phases[t := InFlight(s.phases[t].attempt + 1, at, None)])
  }

  /** Each step was possible when it was taken. */
  predicate Legal(cfg: Config, steps: seq<Step>)
    requires ValidConfig(cfg)
    decreases |steps|, 1
  {
    steps == [] ||
    (var front := steps[..|steps| - 1];
     Legal(cfg, front) && Enabled(cfg, After(cfg, front), steps[|steps| - 1]))
  }

  function After(cfg: Config, steps: seq<Step>): State
    requires ValidConfig(cfg) && Legal(cfg, steps)
    decreases |steps|, 2
  {
    if steps == [] then Start(cfg)
    else Apply(cfg, After(cfg, steps[..|steps| - 1]), steps[|steps| - 1])
  }

  lemma {:induction false} PhasesPerTask(cfg: Config, steps: seq<Step>)
    requires ValidConfig(cfg) && Legal(cfg, steps)
    ensures |After(cfg, steps).phases| == |cfg.plan|
  {
    if steps != [] {
      PhasesPerTask(cfg, steps[..|steps| - 1]);
    }
  }

  // ---------------------------------------------------------------------------
  // Attempts
  // ---------------------------------------------------------------------------

  /** A request in flight is at one of the attempts it is allowed, and sleeps only before another. */
  predicate AttemptInv(cfg: Config, s: State, t: nat)
    requires t < |s.phases|
  {
    var phase := s.phases[t];
    phase.InFlight? ==>
      && 1 <= phase.attempt <= cfg.retry.maxAttempts && phase.sent <= s.now
      && (phase.wake.Some? ==> phase.attempt < cfg.retry.maxAttempts)
  }

  lemma StepKeepsAttempts(cfg: Config, s: State, step: Step, t: nat)
    requires ValidConfig(cfg) && Enabled(cfg, s, step) && t < |s.phases| && AttemptInv(cfg, s, t)
    ensures t < |Apply(cfg, s, step).phases| && AttemptInv(cfg, Apply(cfg, s, step), t)
  {
    StepPhases(cfg, s, step);
  }

  lemma {:induction false} AttemptsAllowed(cfg: Config, steps: seq<Step>, t: nat)
    requires ValidConfig(cfg) && Legal(cfg, steps) && t < |cfg.plan|
    ensures t < |After(cfg, steps).phases| && AttemptInv(cfg, After(cfg, steps), t)
  {
    if steps != [] {
      AttemptsAllowed(cfg, steps[..|steps| - 1], t);
      StepKeepsAttempts(cfg, After(cfg, steps[..|steps| - 1]), steps[|steps| - 1], t);
    }
  }

  lemma OneMoreStep(cfg: Config, steps: seq<Step>, step: Step)
    requires ValidConfig(cfg) && Legal(cfg, steps) && Enabled(cfg, After(cfg, steps), step)
    ensures Legal(cfg, steps + [step])
    ensures After(cfg, steps + [step]) == Apply(cfg, After(cfg, steps), step)
  {
    assert (steps + [step])[..|steps|] == steps;
  }

  // ---------------------------------------------------------------------------
  // Permits
  // ---------------------------------------------------------------------------

  lemma {:induction false} ActiveUpdate(phases: seq<Phase>, t: nat, phase: Phase)
    requires t < |phases|
    ensures Active(phases[t := phase]) ==
              Active(phases) - (if HoldsPermit(phases[t]) then 1 else 0) + (if HoldsPermit(phase) then 1 else 0)
  {
    var n := |phases| - 1;
    var updated := phases[t := phase];
    if t < n {
      assert updated[..n] == phases[..n][t := phase];
      ActiveUpdate(phases[..n], t, phase);
    } else {
      assert updated[..n] == phases[..n];
    }
  }

  lemma {:induction false} NoneActive(phases: seq<Phase>)
    requires forall t :: 0 <= t < |phases| ==> !HoldsPermit(phases[t])
    ensures Active(phases) == 0
  {
    if phases != [] {
      NoneActive(phases[..|phases| - 1]);
    }
  }

  /** The phase a step puts its task in. */
  lemma StepPhases(cfg: Config, s: State, step: Step)
    requires ValidConfig(cfg) && Enabled(cfg, s, step)
    ensures var next := Apply(cfg, s, step);
            && |next.phases| == |s.phases|
            && next.phases == s.phases[step.task := next.phases[step.task]]
            && s.now <= next.now
  {
  }

  /** The semaphore is respected: never more tasks between permit and result than permits. */
  lemma {:induction false} PermitsRespected(cfg: Config, steps: seq<Step>)
    requires ValidConfig(cfg) && Legal(cfg, steps)
    ensures Active(After(cfg, steps).phases) <= cfg.permits
  {
    if steps == [] {
      NoneActive(Start(cfg).phases);
    } else {
      var front, last := steps[..|steps| - 1], steps[|steps| - 1];
      PermitsRespected(cfg, front);
      var s := After(cfg, front);
      StepPhases(cfg, s, last);
      ActiveUpdate(s.phases, last.task, Apply(cfg, s, last).phases[last.task]);
    }
  }
}
