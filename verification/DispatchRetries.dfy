/**
 What the adapter's retry loop adds to a dispatch. An attempt after the first takes no token,
 so the bucket bounds launches and not attempts: the two bounds agree exactly when one
 attempt is allowed, and otherwise attempts are bounded through the launches they belong to.
 Task by task, the attempts of a dispatch are those of the retry loop on its own.
 */
module DispatchRetries {
  import opened Reals
  import opened Wrappers
  import opened Dispatch
  import opened DispatchLimits
  import R = RateLimiter
  import Retry
  import CostGuard
  import CostEstimator

  // ---------------------------------------------------------------------------
  // Attempts in a window
  // ---------------------------------------------------------------------------

  /** The step makes an attempt, the first or another, at provider `p` between `t1` and `t2`. */
  predicate AttemptBy(cfg: Config, s: State, step: Step, p: string, t1: real, t2: real)
    requires ValidConfig(cfg) && Enabled(cfg, s, step)
  {
    || LaunchedBy(cfg, s, step, p, t1, t2)
    || (step.Resend? && cfg.plan[step.task].provider == p && t1 <= step.at <= t2)
  }

  /** Calls made to the provider. */
  function AttemptsWithin(cfg: Config, steps: seq<Step>, p: string, t1: real, t2: real): nat
    requires ValidConfig(cfg) && Legal(cfg, steps)
    decreases |steps|
  {
    if steps == [] then 0
    else
      var front, last := steps[..|steps| - 1], steps[|steps| - 1];
      AttemptsWithin(cfg, front, p, t1, t2) + if AttemptBy(cfg, After(cfg, front), last, p, t1, t2) then 1 else 0
  }

  lemma {:induction false} SingleAttempts(cfg: Config, steps: seq<Step>, p: string, t1: real, t2: real)
    requires ValidConfig(cfg) && Legal(cfg, steps) && cfg.retry.maxAttempts <= 1
    ensures AttemptsWithin(cfg, steps, p, t1, t2) == LaunchedWithin(cfg, steps, p, t1, t2)
    decreases |steps|
  {
    if steps != [] {
      var front, last := steps[..|steps| - 1], steps[|steps| - 1];
      SingleAttempts(cfg, front, p, t1, t2);
      PhasesPerTask(cfg, front);
      AttemptsAllowed(cfg, front, last.task);
    }
  }

  // ---------------------------------------------------------------------------
  // Every attempt belongs to a recent launch
  // ---------------------------------------------------------------------------

  /** The longest time from one attempt to the next when no task is resumed later than `lag` after it is due. */
  function LongestGap(cfg: Config, lag: real): real {
    AtLeastZero(cfg.timeout) + lag + Retry.LongestDelay(cfg.retry) + lag
  }

  /** The longest time from the first attempt of a request to its last. */
  function Lifetime(cfg: Config, lag: real): real {
    if cfg.retry.maxAttempts == 0 then 0.0 else Multiple(cfg.retry.maxAttempts - 1, LongestGap(cfg, lag))
  }

  /** A failed attempt ends at most `lag` after its timeout, and a sleep at most `lag` after its time to wake. */
  predicate PromptStep(cfg: Config, s: State, step: Step, lag: real)
    requires ValidConfig(cfg) && Enabled(cfg, s, step)
  {
    var phase := s.phases[step.task];
    && (step.Settle? && Retry.Transient(step.end, true) ==> step.at <= phase.sent + AtLeastZero(cfg.timeout) + lag)
    && (step.Resend? ==> step.at <= phase.wake.value + lag)
  }

  predicate Prompt(cfg: Config, steps: seq<Step>, lag: real)
    requires ValidConfig(cfg) && Legal(cfg, steps)
    decreases |steps|
  {
    steps == [] ||
    (var front := steps[..|steps| - 1];
     Prompt(cfg, front, lag) && PromptStep(cfg, After(cfg, front), steps[|steps| - 1], lag))
  }

  /** A task asleep between attempts wakes soon after the attempt that failed was sent. */
  predicate WakesInTime(cfg: Config, phase: Phase, lag: real) {
    phase.InFlight? && phase.wake.Some? ==>
      phase.wake.value + lag <= phase.sent + LongestGap(cfg, lag)
  }

  lemma StepWakesInTime(cfg: Config, s: State, step: Step, lag: real, t: nat)
    requires ValidConfig(cfg) && Enabled(cfg, s, step) && t < |cfg.plan|
    requires PromptStep(cfg, s, step, lag) && AttemptInv(cfg, s, t) && WakesInTime(cfg, s.phases[t], lag)
    ensures t < |Apply(cfg, s, step).phases| && WakesInTime(cfg, Apply(cfg, s, step).phases[t], lag)
  {
    StepPhases(cfg, s, step);
  }

  /** The request may still be attempted in the window, judging by when it was last attempted. */
  predicate Pending(cfg: Config, phase: Phase, lag: real, t1: real, t2: real) {
    && phase.InFlight? && phase.attempt <= cfg.retry.maxAttempts
    && t1 - Multiple(cfg.retry.maxAttempts - phase.attempt, LongestGap(cfg, lag)) <= phase.sent <= t2
  }

  /** The attempts a task may still make in the window. */
  function Credit(cfg: Config, t: nat, phase: Phase, p: string, lag: real, t1: real, t2: real): nat
    requires t < |cfg.plan|
  {
    if cfg.plan[t].provider == p && Pending(cfg, phase, lag, t1, t2)
    then cfg.retry.maxAttempts - phase.attempt else 0
  }

  function CreditSum(cfg: Config, phases: seq<Phase>, p: string, lag: real, t1: real, t2: real, n: nat): nat
    requires n <= |phases| == |cfg.plan|
  {
    if n == 0 then 0
    else CreditSum(cfg, phases, p, lag, t1, t2, n - 1) + Credit(cfg, n - 1, phases[n - 1], p, lag, t1, t2)
  }

  lemma {:induction false} CreditUpdate(
    cfg: Config, phases: seq<Phase>, t: nat, phase: Phase, p: string, lag: real, t1: real, t2: real, n: nat)
    requires t < |phases| == |cfg.plan| && n <= |phases|
    ensures CreditSum(cfg, phases[t := phase], p, lag, t1, t2, n) ==
              CreditSum(cfg, phases, p, lag, t1, t2, n)
              + if t < n then Credit(cfg, t, phase, p, lag, t1, t2) - Credit(cfg, t, phases[t], p, lag, t1, t2) else 0
    decreases n
  {
    if n > 0 {
      CreditUpdate(cfg, phases, t, phase, p, lag, t1, t2, n - 1);
    }
  }

  lemma {:induction false} NoCredit(
    cfg: Config, phases: seq<Phase>, p: string, lag: real, t1: real, t2: real, n: nat)
    requires n <= |phases| == |cfg.plan| && forall t :: 0 <= t < n ==> !phases[t].InFlight?
    ensures CreditSum(cfg, phases, p, lag, t1, t2, n) == 0
    decreases n
  {
    if n > 0 {
      NoCredit(cfg, phases, p, lag, t1, t2, n - 1);
    }
  }

  /** Sending an attempt again uses up the credit of its task, one unit of it in the window. */
  lemma ResendUsesCredit(cfg: Config, t: nat, phase: Phase, p: string, lag: real, t1: real, t2: real, at: real)
    requires t < |cfg.plan| && phase.InFlight? && phase.attempt < cfg.retry.maxAttempts && lag >= 0.0
    requires phase.sent <= at <= phase.sent + LongestGap(cfg, lag)
    ensures Credit(cfg, t, InFlight(phase.attempt + 1, at, None), p, lag, t1, t2)
            + (if cfg.plan[t].provider == p && t1 <= at <= t2 then 1 else 0)
            <= Credit(cfg, t, phase, p, lag, t1, t2)
  {
    var gap, left := LongestGap(cfg, lag), cfg.retry.maxAttempts - phase.attempt - 1;
    MultipleStep(left, gap);
    NoMultiple(gap);
    MultipleMonotone(0, left, gap);
  }

  /** A launch brings the credit for its other attempts with it. */
  lemma LaunchBringsCredit(cfg: Config, t: nat, p: string, lag: real, t1: real, t2: real, at: real)
    requires t < |cfg.plan| && cfg.retry.maxAttempts > 0 && lag >= 0.0
    ensures Credit(cfg, t, InFlight(1, at, None), p, lag, t1, t2)
            + (if cfg.plan[t].provider == p && t1 <= at <= t2 then 1 else 0)
            <= if cfg.plan[t].provider == p && t1 - Lifetime(cfg, lag) <= at <= t2 then cfg.retry.maxAttempts else 0
  {
    NoMultiple(LongestGap(cfg, lag));
    MultipleMonotone(0, cfg.retry.maxAttempts - 1, LongestGap(cfg, lag));
  }

  lemma StepPaysAttempt(cfg: Config, s: State, step: Step, p: string, lag: real, t1: real, t2: real)
    requires ValidConfig(cfg) && Enabled(cfg, s, step) && lag >= 0.0 && PromptStep(cfg, s, step, lag)
    requires AttemptInv(cfg, s, step.task) && WakesInTime(cfg, s.phases[step.task], lag)
    ensures var t, next := step.task, Apply(cfg, s, step);
            && |next.phases| == |s.phases|
            && Credit(cfg, t, next.phases[t], p, lag, t1, t2)
               + (if AttemptBy(cfg, s, step, p, t1, t2) then 1 else 0)
               <= Credit(cfg, t, s.phases[t], p, lag, t1, t2)
                  + if LaunchedBy(cfg, s, step, p, t1 - Lifetime(cfg, lag), t2) then cfg.retry.maxAttempts else 0
  {
    var t := step.task;
    StepPhases(cfg, s, step);
    if step.Resend? {
      ResendUsesCredit(cfg, t, s.phases[t], p, lag, t1, t2, step.at);
    } else if step.TryPass? && Apply(cfg, s, step).phases[t].InFlight? {
      LaunchBringsCredit(cfg, t, p, lag, t1, t2, step.at);
    }
  }

  ghost predicate AllWakeInTime(cfg: Config, s: State, lag: real) {
    |s.phases| == |cfg.plan| && forall t :: 0 <= t < |cfg.plan| ==> WakesInTime(cfg, s.phases[t], lag)
  }

  /** Attempts in a window, made or still to come, are covered by the launches that began early enough. */
  lemma {:induction false} AttemptsPerLaunch(
    cfg: Config, steps: seq<Step>, p: string, lag: real, t1: real, t2: real)
    requires ValidConfig(cfg) && Legal(cfg, steps) && lag >= 0.0 && Prompt(cfg, steps, lag)
    ensures AllWakeInTime(cfg, After(cfg, steps), lag)
    ensures AttemptsWithin(cfg, steps, p, t1, t2)
            + CreditSum(cfg, After(cfg, steps).phases, p, lag, t1, t2, |cfg.plan|)
            <= cfg.retry.maxAttempts * LaunchedWithin(cfg, steps, p, t1 - Lifetime(cfg, lag), t2)
    decreases |steps|
  {
    if steps == [] {
      NoCredit(cfg, Start(cfg).phases, p, lag, t1, t2, |cfg.plan|);
    } else {
      var front, last := steps[..|steps| - 1], steps[|steps| - 1];
      var s, next := After(cfg, front), After(cfg, steps);
      AttemptsPerLaunch(cfg, front, p, lag, t1, t2);
      StepPhases(cfg, s, last);
      forall t | 0 <= t < |cfg.plan| ensures AttemptInv(cfg, s, t) && WakesInTime(cfg, next.phases[t], lag) {
        AttemptsAllowed(cfg, front, t);
        StepWakesInTime(cfg, s, last, lag, t);
      }
      StepPaysAttempt(cfg, s, last, p, lag, t1, t2);
      CreditUpdate(cfg, s.phases, last.task, next.phases[last.task], p, lag, t1, t2, |cfg.plan|);
      MoreLaunches(cfg.retry.maxAttempts, LaunchedWithin(cfg, front, p, t1 - Lifetime(cfg, lag), t2));
    }
  }

  lemma MoreLaunches(attempts: nat, launches: nat)
    ensures attempts * (launches + 1) == attempts * launches + attempts
  {
  }

  /**
   The bound on calls to a provider: as many attempts as allowed for each launch the bucket
   lets through in the window or in the lifetime of a request before it.
   */
  lemma AttemptsPerWindow(cfg: Config, steps: seq<Step>, p: string, lag: real, t1: real, t2: real)
    requires ValidConfig(cfg) && Legal(cfg, steps) && p in cfg.rpm && t1 <= t2
    requires lag >= 0.0 && Prompt(cfg, steps, lag)
    ensures AttemptsWithin(cfg, steps, p, t1, t2) as real
         <= Multiple(cfg.retry.maxAttempts,
                     cfg.rpm[p] as real + R.Accrued(cfg.rpm[p], t2 - t1 + Lifetime(cfg, lag)))
  {
    var from := t1 - Lifetime(cfg, lag);
    var launches := LaunchedWithin(cfg, steps, p, from, t2);
    NoMultiple(LongestGap(cfg, lag));
    if cfg.retry.maxAttempts > 0 {
      MultipleMonotone(0, cfg.retry.maxAttempts - 1, LongestGap(cfg, lag));
    }
    AttemptsPerLaunch(cfg, steps, p, lag, t1, t2);
    LaunchesPerWindow(cfg, steps, p, from, t2);
    assert t2 - from == t2 - t1 + Lifetime(cfg, lag);
    ManyTimes(cfg.retry.maxAttempts, launches,
              cfg.rpm[p] as real + R.Accrued(cfg.rpm[p], t2 - t1 + Lifetime(cfg, lag)));
  }

  lemma ManyTimes(attempts: nat, launches: nat, bound: real)
    requires launches as real <= bound
    ensures (attempts * launches) as real <= Multiple(attempts, bound)
  {
    MultiplyMonotone(launches as real, bound, attempts as real);
    assert (attempts * launches) as real == attempts as real * launches as real;
  }

  // ---------------------------------------------------------------------------
  // When the bucket bounds attempts
  // ---------------------------------------------------------------------------

  /** In this run the attempts at a provider stay within what its bucket would grant. */
  ghost predicate WithinBucket(cfg: Config, steps: seq<Step>, p: string, t1: real, t2: real)
    requires ValidConfig(cfg) && Legal(cfg, steps) && p in cfg.rpm
  {
    AttemptsWithin(cfg, steps, p, t1, t2) as real <= cfg.rpm[p] as real + R.Accrued(cfg.rpm[p], t2 - t1)
  }

  const ITEM := Item("e", "p", "m", 0)

  /** Two free requests to a provider that allows one request a minute. */
  function TwoFree(retry: Retry.Policy, timeout: real, permits: nat): Config {
    Config([ITEM.(executionId := "a"), ITEM.(executionId := "b")], permits,
           CostGuard.Caps(0.0, 0.0, map[]), [], map["p" := 1], 0.0, retry, timeout)
  }

  /** When the second attempt can be made and the bucket is full again. */
  function Meeting(cfg: Config): real {
    var wake := WakeAfter(cfg, 1, 0.0, 0.0);
    if wake < 60.0 then 60.0 else wake
  }

  /** How far a run of the two requests has come. */
  ghost predicate ClashAt(
    cfg: Config, steps: seq<Step>, first: Phase, second: Phase, bucket: R.BucketState, now: real, attempts: nat)
  {
    && ValidConfig(cfg) && Legal(cfg, steps)
    && var s := After(cfg, steps);
       && s.phases == [first, second] && s.now == now && s.ledger == CostGuard.EMPTY_LEDGER
       && "p" in s.limiters && s.limiters["p"].bucket == bucket
       && AttemptsWithin(cfg, steps, "p", Meeting(cfg), Meeting(cfg)) == attempts
  }

  lemma FreeRequests(retry: Retry.Policy, timeout: real, permits: nat, t: nat)
    requires t < 2
    ensures Estimate(TwoFree(retry, timeout, permits), t) == 0.0
  {
    assert CostEstimator.ModelPrices([], "m") == CostEstimator.NO_PRICES;
    assert CostEstimator.EstimateCost([], "m", 500, 0) == 0.0;
    assert CostEstimator.Times(0.0, 1, 1) == 0.0;
  }

  lemma NeitherActive(first: Phase, second: Phase)
    requires !HoldsPermit(first) && !HoldsPermit(second)
    ensures Active([first, second]) == 0
  {
    NoneActive([first, second]);
  }

  lemma ClashAppend(
    cfg: Config, steps: seq<Step>, step: Step, first: Phase, second: Phase, bucket: R.BucketState, now: real,
    attempts: nat)
    requires ValidConfig(cfg) && Legal(cfg, steps) && Enabled(cfg, After(cfg, steps), step)
    requires AttemptsWithin(cfg, steps, "p", Meeting(cfg), Meeting(cfg))
             + (if AttemptBy(cfg, After(cfg, steps), step, "p", Meeting(cfg), Meeting(cfg)) then 1 else 0) == attempts
    requires var s := Apply(cfg, After(cfg, steps), step);
             && s.phases == [first, second] && s.now == now && s.ledger == CostGuard.EMPTY_LEDGER
             && "p" in s.limiters && s.limiters["p"].bucket == bucket
    ensures ClashAt(cfg, steps + [step], first, second, bucket, now, attempts)
  {
    OneMoreStep(cfg, steps, step);
    assert (steps + [step])[..|steps|] == steps;
  }

  const EMPTY := R.BucketState(0.0, 0.0)

  /** Two free requests, with two attempts allowed. */
  ghost predicate TwoAttempts(cfg: Config) {
    && cfg == TwoFree(cfg.retry, cfg.timeout, cfg.permits)
    && cfg.permits > 0 && cfg.retry.maxAttempts >= 2
  }

  /** The first request asleep after its first attempt. */
  function Asleep(cfg: Config): Phase {
    InFlight(1, 0.0, Some(WakeAfter(cfg, 1, 0.0, 0.0)))
  }

  /** With a token to take, a free request is launched. */
  lemma FreeLaunch(cfg: Config, s: State, t: nat, at: real, bucket: R.BucketState)
    requires TwoAttempts(cfg) && ValidConfig(cfg) && t < |s.phases| == 2 && s.phases[t] == Limiting(None)
    requires s.now <= at && s.ledger == CostGuard.EMPTY_LEDGER
    requires "p" in s.limiters && R.Pass(1, s.limiters["p"].bucket, at) == (bucket, R.Granted)
    ensures Enabled(cfg, s, TryPass(t, at))
    ensures var next := Apply(cfg, s, TryPass(t, at));
            && next.phases == s.phases[t := InFlight(1, at, None)] && next.now == at && next.ledger == s.ledger
            && "p" in next.limiters && next.limiters["p"].bucket == bucket
    ensures AttemptBy(cfg, s, TryPass(t, at), "p", Meeting(cfg), Meeting(cfg)) <==> at == Meeting(cfg)
  {
    FreeRequests(cfg.retry, cfg.timeout, cfg.permits, t);
  }

  lemma ClashLaunch(
    cfg: Config, before: seq<Step>, t: nat, first: Phase, second: Phase, bucket: R.BucketState, now: real,
    attempts: nat, at: real, nextFirst: Phase, nextSecond: Phase, nextBucket: R.BucketState, nextAttempts: nat)
    requires TwoAttempts(cfg) && ClashAt(cfg, before, first, second, bucket, now, attempts)
    requires t < 2 && (if t == 0 then first else second) == Limiting(None) && now <= at
    requires R.Pass(1, bucket, at) == (nextBucket, R.Granted)
    requires nextFirst == if t == 0 then InFlight(1, at, None) else first
    requires nextSecond == if t == 1 then InFlight(1, at, None) else second
    requires nextAttempts == attempts + if at == Meeting(cfg) then 1 else 0
    ensures ClashAt(cfg, before + [TryPass(t, at)], nextFirst, nextSecond, nextBucket, at, nextAttempts)
  {
    FreeLaunch(cfg, After(cfg, before), t, at, nextBucket);
    ClashAppend(cfg, before, TryPass(t, at), nextFirst, nextSecond, nextBucket, at, nextAttempts);
  }

  lemma ClashStarts(cfg: Config)
    requires TwoAttempts(cfg)
    ensures ClashAt(cfg, [], Queued, Queued, R.Full(1, 0.0), 0.0, 0)
  {
    assert After(cfg, []).phases == [Queued, Queued];
  }

  /** The first request enters. */
  lemma FirstEnters(cfg: Config, before: seq<Step>)
    requires TwoAttempts(cfg) && ClashAt(cfg, before, Queued, Queued, R.Full(1, 0.0), 0.0, 0)
    ensures ClashAt(cfg, before + [Enter(0)], Limiting(None), Queued, R.Full(1, 0.0), 0.0, 0)
  {
    NeitherActive(Queued, Queued);
    ClashAppend(cfg, before, Enter(0), Limiting(None), Queued, R.Full(1, 0.0), 0.0, 0);
  }

  /** It is launched with the only token. */
  lemma FirstLaunched(cfg: Config, before: seq<Step>)
    requires TwoAttempts(cfg) && ClashAt(cfg, before, Limiting(None), Queued, R.Full(1, 0.0), 0.0, 0)
    ensures ClashAt(cfg, before + [TryPass(0, 0.0)], InFlight(1, 0.0, None), Queued, EMPTY, 0.0, 0)
  {
    FullAtFirst();
    MeetingIsLater(cfg);
    ClashLaunch(cfg, before, 0, Limiting(None), Queued, R.Full(1, 0.0), 0.0, 0,
                0.0, InFlight(1, 0.0, None), Queued, EMPTY, 0);
  }

  /** It fails at once and sleeps. */
  lemma FirstFails(cfg: Config, before: seq<Step>)
    requires TwoAttempts(cfg) && ClashAt(cfg, before, InFlight(1, 0.0, None), Queued, EMPTY, 0.0, 0)
    ensures ClashAt(cfg, before + [Settle(0, 0.0, Retry.Retryable("RateLimited"), 0.0)],
                    Asleep(cfg), Queued, EMPTY, 0.0, 0)
  {
    ClashAppend(cfg, before, Settle(0, 0.0, Retry.Retryable("RateLimited"), 0.0),
                Asleep(cfg), Queued, EMPTY, 0.0, 0);
  }

  /** It is attempted again. */
  lemma FirstResent(cfg: Config, before: seq<Step>)
    requires TwoAttempts(cfg) && ClashAt(cfg, before, Asleep(cfg), Queued, EMPTY, 0.0, 0)
    ensures ClashAt(cfg, before + [Resend(0, Meeting(cfg))],
                    InFlight(2, Meeting(cfg), None), Queued, EMPTY, Meeting(cfg), 1)
  {
    ClashAppend(cfg, before, Resend(0, Meeting(cfg)),
                InFlight(2, Meeting(cfg), None), Queued, EMPTY, Meeting(cfg), 1);
  }

  /** It fails for good and gives up its permit. */
  lemma FirstGivesUp(cfg: Config, before: seq<Step>)
    requires TwoAttempts(cfg) && ClashAt(cfg, before, InFlight(2, Meeting(cfg), None), Queued, EMPTY, Meeting(cfg), 1)
    ensures ClashAt(cfg, before + [Settle(0, Meeting(cfg), Retry.NonRetryable("Refused"), 0.0)],
                    Finished, Queued, EMPTY, Meeting(cfg), 1)
  {
    ClashAppend(cfg, before, Settle(0, Meeting(cfg), Retry.NonRetryable("Refused"), 0.0),
                Finished, Queued, EMPTY, Meeting(cfg), 1);
  }

  /** The second request takes the permit. */
  lemma SecondEnters(cfg: Config, before: seq<Step>)
    requires TwoAttempts(cfg) && ClashAt(cfg, before, Finished, Queued, EMPTY, Meeting(cfg), 1)
    ensures ClashAt(cfg, before + [Enter(1)], Finished, Limiting(None), EMPTY, Meeting(cfg), 1)
  {
    NeitherActive(Finished, Queued);
    ClashAppend(cfg, before, Enter(1), Finished, Limiting(None), EMPTY, Meeting(cfg), 1);
  }

  /** By now the bucket is full again: a second attempt at this instant. */
  lemma SecondLaunched(cfg: Config, before: seq<Step>)
    requires TwoAttempts(cfg) && ClashAt(cfg, before, Finished, Limiting(None), EMPTY, Meeting(cfg), 1)
    ensures ClashAt(cfg, before + [TryPass(1, Meeting(cfg))],
                    Finished, InFlight(1, Meeting(cfg), None), R.BucketState(0.0, Meeting(cfg)), Meeting(cfg), 2)
  {
    var at := Meeting(cfg);
    FullAgain(at);
    ClashLaunch(cfg, before, 1, Finished, Limiting(None), EMPTY, at, 1,
                at, Finished, InFlight(1, at, None), R.BucketState(0.0, at), 2);
  }

  lemma MeetingIsLater(cfg: Config)
    ensures Meeting(cfg) >= 60.0
  {
  }

  lemma FullAtFirst()
    ensures R.Pass(1, R.Full(1, 0.0), 0.0) == (EMPTY, R.Granted)
  {
    assert R.Accrued(1, 0.0) == 0.0;
  }

  lemma FullAgain(at: real)
    requires at >= 60.0
    ensures R.Pass(1, EMPTY, at) == (R.BucketState(0.0, at), R.Granted)
  {
    R.AccruedMonotone(1, 60.0, at);
  }

  /** A run with two attempts at one instant, where the bucket grants one. */
  lemma ClashHappens(cfg: Config) returns (steps: seq<Step>)
    requires TwoAttempts(cfg)
    ensures ValidConfig(cfg) && Legal(cfg, steps)
    ensures !WithinBucket(cfg, steps, "p", Meeting(cfg), Meeting(cfg))
  {
    steps := [];
    ClashStarts(cfg);
    FirstEnters(cfg, steps);
    steps := steps + [Enter(0)];
    FirstLaunched(cfg, steps);
    steps := steps + [TryPass(0, 0.0)];
    FirstFails(cfg, steps);
    steps := steps + [Settle(0, 0.0, Retry.Retryable("RateLimited"), 0.0)];
    FirstResent(cfg, steps);
    steps := steps + [Resend(0, Meeting(cfg))];
    FirstGivesUp(cfg, steps);
    steps := steps + [Settle(0, Meeting(cfg), Retry.NonRetryable("Refused"), 0.0)];
    SecondEnters(cfg, steps);
    steps := steps + [Enter(1)];
    SecondLaunched(cfg, steps);
    steps := steps + [TryPass(1, Meeting(cfg))];
    assert R.Accrued(1, 0.0) == 0.0;
  }

  /**
   Whatever the delays, the timeout and the number of permits: the bucket bounds the calls
   to a provider in every run exactly when no request is attempted more than once.
   */
  lemma BucketBoundsSingleAttempts(retry: Retry.Policy, timeout: real, permits: nat)
    requires permits > 0
    ensures (forall cfg: Config, steps, p, t1, t2 ::
               && cfg.retry == retry && cfg.timeout == timeout && cfg.permits == permits
               && ValidConfig(cfg) && Legal(cfg, steps) && p in cfg.rpm && t1 <= t2
               ==> WithinBucket(cfg, steps, p, t1, t2))
            <==> retry.maxAttempts <= 1
  {
    if retry.maxAttempts <= 1 {
      forall cfg: Config, steps, p, t1, t2 |
        && cfg.retry == retry && cfg.timeout == timeout && cfg.permits == permits
        && ValidConfig(cfg) && Legal(cfg, steps) && p in cfg.rpm && t1 <= t2
        ensures WithinBucket(cfg, steps, p, t1, t2)
      {
        SingleAttempts(cfg, steps, p, t1, t2);
        LaunchesPerWindow(cfg, steps, p, t1, t2);
      }
    } else {
      var cfg := TwoFree(retry, timeout, permits);
      var steps := ClashHappens(cfg);
      assert "p" in cfg.rpm && !WithinBucket(cfg, steps, "p", Meeting(cfg), Meeting(cfg));
    }
  }

  // ---------------------------------------------------------------------------
  // The dispatch runs the retry loop
  // ---------------------------------------------------------------------------

  /** How the attempts of a task ended so far, in order. */
  function EndsOf(steps: seq<Step>, t: nat): seq<Retry.Attempt<Reply>> {
    if steps == [] then []
    else
      var last := steps[|steps| - 1];
      EndsOf(steps[..|steps| - 1], t) + if last.Settle? && last.task == t then [last.end] else []
  }

  /** The ends as a stream, as the retry loop reads them. */
  function Stream(ends: seq<Retry.Attempt<Reply>>): nat -> Retry.Attempt<Reply> {
    (i: nat) => if i < |ends| then ends[i] else Retry.Timeout
  }

  /** The result a dispatch records for what the adapter's loop returns or raises. */
  function OutcomeOf(ending: Retry.Ending<Reply>): Outcome {
    match ending
    case Returned(reply) => Answered(reply)
    case TimedOut => Failed("ProviderTimeoutError")
    case RaisedRetryable(kind) => Failed(kind)
    case Raised(end) => if end.Success? then Answered(end.value) else Failed(KindOf(end))
    case NoAttempt => Failed("AssertionError")
  }

  /** The loop, run on these ends, makes that many attempts and has this outcome. */
  ghost predicate LoopGives(cfg: Config, ends: seq<Retry.Attempt<Reply>>, outcome: Outcome) {
    && |ends| == Retry.Calls(Stream(ends), true, cfg.retry.maxAttempts)
    && outcome == OutcomeOf(Retry.Result(Stream(ends), true, cfg.retry.maxAttempts))
  }

  /** Where a task is in the loop, and what has been recorded for it. */
  ghost predicate LoopInv(cfg: Config, s: State, ends: seq<Retry.Attempt<Reply>>, t: nat)
    requires t < |s.phases|
  {
    var phase := s.phases[t];
    && (phase.Queued? || phase.Limiting? ==> ends == [])
    && (phase.InFlight? ==>
          && |ends| + (if phase.wake.None? then 1 else 0) == phase.attempt
          && forall i :: 0 <= i < |ends| ==> Retry.Transient(ends[i], true))
    && forall r :: r in s.results && r.0 == t ==>
         phase.Finished? && (if r.1.OverBudget? then ends == [] else LoopGives(cfg, ends, r.1))
  }

  /** An end that is decisive, or that of the last attempt, is what the loop comes to. */
  lemma LoopEnds(cfg: Config, ends: seq<Retry.Attempt<Reply>>, last: Retry.Attempt<Reply>)
    requires |ends| < cfg.retry.maxAttempts
    requires forall i :: 0 <= i < |ends| ==> Retry.Transient(ends[i], true)
    requires !Retry.Transient(last, true) || |ends| + 1 == cfg.retry.maxAttempts
    ensures LoopGives(cfg, ends + [last], if last.Success? then Answered(last.value) else Failed(KindOf(last)))
  {
    var stream := Stream(ends + [last]);
    var k := Retry.FirstDecisive(stream, true, 0, cfg.retry.maxAttempts);
    assert forall i :: 0 <= i < |ends| ==> stream(i) == ends[i];
    assert stream(|ends|) == last;
  }

  lemma LoopOfNone(cfg: Config)
    requires cfg.retry.maxAttempts == 0
    ensures LoopGives(cfg, [], Failed("AssertionError"))
  {
  }

  /** The task's own step. */
  lemma OwnStepKeepsLoop(cfg: Config, s: State, step: Step, ends: seq<Retry.Attempt<Reply>>)
    requires ValidConfig(cfg) && Enabled(cfg, s, step)
    requires AttemptInv(cfg, s, step.task) && LoopInv(cfg, s, ends, step.task)
    ensures step.task < |Apply(cfg, s, step).phases|
    ensures LoopInv(cfg, Apply(cfg, s, step), ends + if step.Settle? then [step.end] else [], step.task)
  {
    StepPhases(cfg, s, step);
    if step.Settle? && Apply(cfg, s, step).phases[step.task].Finished? {
      LoopEnds(cfg, ends, step.end);
    } else if !step.Settle? {
      assert ends + [] == ends;
    }
    if cfg.retry.maxAttempts == 0 {
      LoopOfNone(cfg);
    }
  }

  lemma OtherStepKeepsLoop(cfg: Config, s: State, step: Step, ends: seq<Retry.Attempt<Reply>>, t: nat)
    requires ValidConfig(cfg) && Enabled(cfg, s, step) && t < |s.phases| && t != step.task
    requires LoopInv(cfg, s, ends, t)
    ensures t < |Apply(cfg, s, step).phases|
    ensures LoopInv(cfg, Apply(cfg, s, step), ends, t)
  {
    var next := Apply(cfg, s, step);
    StepPhases(cfg, s, step);
    assert next.phases[t] == s.phases[t];
    forall r | r in next.results && r.0 == t ensures r in s.results {
    }
  }

  /**
   However tasks interleave, the attempts of each are those of the retry loop run alone: a
   result that is not over budget is the loop's, after exactly as many attempts.
   */
  lemma {:induction false} AttemptsAreTheLoops(cfg: Config, steps: seq<Step>, t: nat)
    requires ValidConfig(cfg) && Legal(cfg, steps) && t < |cfg.plan|
    ensures t < |After(cfg, steps).phases|
    ensures LoopInv(cfg, After(cfg, steps), EndsOf(steps, t), t)
  {
    if steps != [] {
      var front, last := steps[..|steps| - 1], steps[|steps| - 1];
      AttemptsAreTheLoops(cfg, front, t);
      AttemptsAllowed(cfg, front, t);
      if last.task == t {
        OwnStepKeepsLoop(cfg, After(cfg, front), last, EndsOf(front, t));
      } else {
        OtherStepKeepsLoop(cfg, After(cfg, front), last, EndsOf(front, t), t);
        assert EndsOf(steps, t) == EndsOf(front, t);
      }
    }
  }

  /** So a recorded result is either over budget without an attempt, or what the loop returns or raises. */
  lemma ResultsAreTheLoops(cfg: Config, steps: seq<Step>, t: nat, outcome: Outcome)
    requires ValidConfig(cfg) && Legal(cfg, steps) && t < |cfg.plan|
    requires (t, outcome) in After(cfg, steps).results
    ensures if outcome.OverBudget? then EndsOf(steps, t) == [] else LoopGives(cfg, EndsOf(steps, t), outcome)
  {
    AttemptsAreTheLoops(cfg, steps, t);
  }
}
