/**
 The rate limiter as the dispatcher uses it: in every interleaving the passes over each
 bucket are ordered and disciplined, so the throughput bound holds of the requests that are
 launched, the dispatch never gets stuck, and it ends after a bounded number of steps.
 */
module DispatchLimits {
  import opened Dispatch
  import R = RateLimiter
  import Retry

  // ---------------------------------------------------------------------------
  // The invariant of one bucket
  // ---------------------------------------------------------------------------

  /** Pass `k` of bucket `p` was made by a task of that provider that has not come back too early. */
  ghost predicate EventInv(cfg: Config, s: State, p: string, k: nat)
    requires p in cfg.rpm && cfg.rpm[p] > 0 && p in s.limiters && k < |s.limiters[p].events|
  {
    var events := s.limiters[p].events;
    var t := events[k].task;
    && t < |cfg.plan| == |s.phases| && cfg.plan[t].provider == p
    && events[k].now <= s.now
    && !s.phases[t].Queued?
    && (s.phases[t].Limiting? ==>
          && R.OutcomeAt(cfg.rpm[p], cfg.created, events, k).Wait?
          && s.phases[t].wake.Some?
          && events[k].now + R.OutcomeAt(cfg.rpm[p], cfg.created, events, k).seconds <= s.phases[t].wake.value)
  }

  ghost predicate LimiterInv(cfg: Config, s: State, p: string)
    requires p in cfg.rpm && cfg.rpm[p] > 0
  {
    && p in s.limiters
    && var events := s.limiters[p].events;
       && s.limiters[p].bucket == R.StateAfter(cfg.rpm[p], cfg.created, events, |events|)
       && cfg.created <= s.now
       && R.Ordered(cfg.created, events)
       && R.Disciplined(cfg.rpm[p], cfg.created, events)
       && forall k :: 0 <= k < |events| ==> EventInv(cfg, s, p, k)
  }

  lemma OutcomeOfPrefix(rpm: nat, created: real, events: seq<R.Event>, e: R.Event, k: nat)
    requires rpm > 0 && k < |events|
    ensures R.OutcomeAt(rpm, created, events + [e], k) == R.OutcomeAt(rpm, created, events, k)
  {
    R.StateOfPrefix(rpm, created, events, e, k);
  }

  /** One more pass by a task that is due keeps the sequence ordered and disciplined. */
  lemma OneMorePass(cfg: Config, s: State, p: string, t: nat, at: real)
    requires p in cfg.rpm && cfg.rpm[p] > 0 && LimiterInv(cfg, s, p)
    requires t < |cfg.plan| == |s.phases| && cfg.plan[t].provider == p && s.now <= at
    requires s.phases[t].Limiting? && (s.phases[t].wake.Some? ==> s.phases[t].wake.value <= at)
    ensures var events := s.limiters[p].events + [R.Event(t, at)];
            && R.Ordered(cfg.created, events)
            && R.Disciplined(cfg.rpm[p], cfg.created, events)
  {
    var before := s.limiters[p].events;
    var events := before + [R.Event(t, at)];
    forall k | 0 <= k < |before| ensures before[k].now <= at {
      assert EventInv(cfg, s, p, k);
    }
    forall j, k | 0 <= j < k < |events| && events[j].task == events[k].task
      ensures R.OutcomeAt(cfg.rpm[p], cfg.created, events, j).Wait?
      ensures events[j].now + R.OutcomeAt(cfg.rpm[p], cfg.created, events, j).seconds <= events[k].now
    {
      OutcomeOfPrefix(cfg.rpm[p], cfg.created, before, R.Event(t, at), j);
      assert EventInv(cfg, s, p, j);
      if k < |before| {
        assert before[j].task == before[k].task;
      }
    }
  }

  /** The bucket that is passed over keeps its invariant. */
  lemma PassedBucket(cfg: Config, s: State, t: nat, at: real)
    requires ValidConfig(cfg) && Enabled(cfg, s, TryPass(t, at))
    requires cfg.plan[t].provider in cfg.rpm && LimiterInv(cfg, s, cfg.plan[t].provider)
    ensures LimiterInv(cfg, Apply(cfg, s, TryPass(t, at)), cfg.plan[t].provider)
  {
    var p := cfg.plan[t].provider;
    var next := Apply(cfg, s, TryPass(t, at));
    var before, events := s.limiters[p].events, next.limiters[p].events;
    var e := R.Event(t, at);
    assert events == before + [e];
    OneMorePass(cfg, s, p, t, at);
    R.StateOfPrefix(cfg.rpm[p], cfg.created, before, e, |before|);
    StepPhases(cfg, s, TryPass(t, at));
    R.TokensInRange(cfg.rpm[p], cfg.created, before, |before|);
    LastRefillPast(cfg, s, p);
    R.PassInRange(cfg.rpm[p], s.limiters[p].bucket, at);
    forall k | 0 <= k < |events| ensures EventInv(cfg, next, p, k) {
      if k < |before| {
        OutcomeOfPrefix(cfg.rpm[p], cfg.created, before, e, k);
        assert EventInv(cfg, s, p, k);
      }
    }
  }

  lemma LastRefillPast(cfg: Config, s: State, p: string)
    requires p in cfg.rpm && cfg.rpm[p] > 0 && LimiterInv(cfg, s, p)
    ensures s.limiters[p].bucket.lastRefill <= s.now
  {
    var events := s.limiters[p].events;
    R.TokensInRange(cfg.rpm[p], cfg.created, events, |events|);
    if events != [] {
      assert EventInv(cfg, s, p, |events| - 1);
    }
  }

  /** Steps that do not touch a bucket keep its invariant. */
  lemma OtherBucket(cfg: Config, s: State, step: Step, p: string)
    requires ValidConfig(cfg) && Enabled(cfg, s, step) && p in cfg.rpm && LimiterInv(cfg, s, p)
    requires step.TryPass? ==> cfg.plan[step.task].provider != p
    ensures LimiterInv(cfg, Apply(cfg, s, step), p)
    ensures Apply(cfg, s, step).limiters[p] == s.limiters[p]
  {
    var next := Apply(cfg, s, step);
    StepPhases(cfg, s, step);
    assert next.limiters[p] == s.limiters[p];
    forall k | 0 <= k < |s.limiters[p].events| ensures EventInv(cfg, next, p, k) {
      assert EventInv(cfg, s, p, k);
    }
  }

  lemma StepKeepsLimiter(cfg: Config, s: State, step: Step, p: string)
    requires ValidConfig(cfg) && Enabled(cfg, s, step) && p in cfg.rpm && LimiterInv(cfg, s, p)
    ensures LimiterInv(cfg, Apply(cfg, s, step), p)
  {
    if step.TryPass? && cfg.plan[step.task].provider == p {
      PassedBucket(cfg, s, step.task, step.at);
    } else {
      OtherBucket(cfg, s, step, p);
    }
  }

  /** In every interleaving every bucket is used in order and with discipline. */
  lemma {:induction false} LimitersInOrder(cfg: Config, steps: seq<Step>, p: string)
    requires ValidConfig(cfg) && Legal(cfg, steps) && p in cfg.rpm
    ensures LimiterInv(cfg, After(cfg, steps), p)
  {
    if steps != [] {
      var front, last := steps[..|steps| - 1], steps[|steps| - 1];
      LimitersInOrder(cfg, front, p);
      StepKeepsLimiter(cfg, After(cfg, front), last, p);
    }
  }

  // ---------------------------------------------------------------------------
  // Requests launched in a window
  // ---------------------------------------------------------------------------

  /** The step makes the first attempt of a request to provider `p` between `t1` and `t2`. */
  predicate LaunchedBy(cfg: Config, s: State, step: Step, p: string, t1: real, t2: real)
    requires ValidConfig(cfg) && Enabled(cfg, s, step)
  {
    && step.TryPass? && cfg.plan[step.task].provider == p && t1 <= step.at <= t2
    && Apply(cfg, s, step).phases[step.task].InFlight?
  }

  function LaunchedWithin(cfg: Config, steps: seq<Step>, p: string, t1: real, t2: real): nat
    requires ValidConfig(cfg) && Legal(cfg, steps)
    decreases |steps|
  {
    if steps == [] then 0
    else
      var front, last := steps[..|steps| - 1], steps[|steps| - 1];
      LaunchedWithin(cfg, front, p, t1, t2) + if LaunchedBy(cfg, After(cfg, front), last, p, t1, t2) then 1 else 0
  }

  lemma {:induction false} GrantsOfPrefix(
    rpm: nat, created: real, events: seq<R.Event>, e: R.Event, n: nat, t1: real, t2: real)
    requires rpm > 0 && n <= |events|
    ensures R.GrantsWithin(rpm, created, events + [e], n, t1, t2)
         == R.GrantsWithin(rpm, created, events, n, t1, t2)
    decreases n
  {
    if n > 0 {
      GrantsOfPrefix(rpm, created, events, e, n - 1, t1, t2);
      OutcomeOfPrefix(rpm, created, events, e, n - 1);
    }
  }

  /** The grants of a bucket so far. */
  function Granted(cfg: Config, s: State, p: string, t1: real, t2: real): nat
    requires p in cfg.rpm && cfg.rpm[p] > 0 && p in s.limiters
  {
    R.GrantsWithin(cfg.rpm[p], cfg.created, s.limiters[p].events, |s.limiters[p].events|, t1, t2)
  }

  lemma LaunchTakesAToken(cfg: Config, s: State, step: Step, p: string, t1: real, t2: real)
    requires ValidConfig(cfg) && Enabled(cfg, s, step) && p in cfg.rpm && LimiterInv(cfg, s, p)
    ensures p in Apply(cfg, s, step).limiters
    ensures Granted(cfg, Apply(cfg, s, step), p, t1, t2) >=
              Granted(cfg, s, p, t1, t2) + if LaunchedBy(cfg, s, step, p, t1, t2) then 1 else 0
  {
    if step.TryPass? && cfg.plan[step.task].provider == p {
      var events, e := s.limiters[p].events, R.Event(step.task, step.at);
      GrantsOfPrefix(cfg.rpm[p], cfg.created, events, e, |events|, t1, t2);
      R.StateOfPrefix(cfg.rpm[p], cfg.created, events, e, |events|);
      assert Apply(cfg, s, step).limiters[p].events == events + [e];
    } else {
      OtherBucket(cfg, s, step, p);
    }
  }

  lemma {:induction false} LaunchedAreGranted(cfg: Config, steps: seq<Step>, p: string, t1: real, t2: real)
    requires ValidConfig(cfg) && Legal(cfg, steps) && p in cfg.rpm
    ensures p in After(cfg, steps).limiters
    ensures LaunchedWithin(cfg, steps, p, t1, t2) <= Granted(cfg, After(cfg, steps), p, t1, t2)
    decreases |steps|
  {
    LimitersInOrder(cfg, steps, p);
    if steps != [] {
      var front, last := steps[..|steps| - 1], steps[|steps| - 1];
      LaunchedAreGranted(cfg, front, p, t1, t2);
      LimitersInOrder(cfg, front, p);
      LaunchTakesAToken(cfg, After(cfg, front), last, p, t1, t2);
    }
  }

  /** In every interleaving and every window: requests launched stay below a full bucket plus what accrues. */
  lemma LaunchesPerWindow(cfg: Config, steps: seq<Step>, p: string, t1: real, t2: real)
    requires ValidConfig(cfg) && Legal(cfg, steps) && p in cfg.rpm && t1 <= t2
    ensures LaunchedWithin(cfg, steps, p, t1, t2) as real
         <= cfg.rpm[p] as real + R.Accrued(cfg.rpm[p], t2 - t1)
  {
    LimitersInOrder(cfg, steps, p);
    LaunchedAreGranted(cfg, steps, p, t1, t2);
    R.WindowBound(cfg.rpm[p], cfg.created, After(cfg, steps).limiters[p].events, t1, t2);
  }

  // ---------------------------------------------------------------------------
  // Termination
  // ---------------------------------------------------------------------------

  /** Steps taken by one task. */
  function StepsOf(steps: seq<Step>, t: nat): nat {
    if steps == [] then 0
    else StepsOf(steps[..|steps| - 1], t) + if steps[|steps| - 1].task == t then 1 else 0
  }

  function PassesOf(s: State, p: string, t: nat): nat {
    if p in s.limiters then R.Passes(s.limiters[p].events, t, |s.limiters[p].events|) else 0
  }

  /** The steps of a request once launched: its attempts end, and all but the first have to be sent. */
  function AttemptSteps(attempts: nat): nat {
    if attempts == 0 then 0 else 2 * attempts - 1
  }

  /** One step to enter, the passes, one more if the provider is not limited, and those of the attempts. */
  function Budgeted(cfg: Config, s: State, t: nat): nat
    requires t < |cfg.plan| == |s.phases|
  {
    var p, phase := cfg.plan[t].provider, s.phases[t];
    PassesOf(s, p, t)
    + (if phase.Queued? then 0 else 1)
    + (if p !in cfg.rpm && (phase.InFlight? || phase.Finished?) then 1 else 0)
    + (if phase.Finished? then AttemptSteps(cfg.retry.maxAttempts)
       else if phase.InFlight? && phase.attempt > 0 then 2 * (phase.attempt - 1) + if phase.wake.Some? then 1 else 0
       else 0)
  }

  lemma {:induction false} PassesOfPrefix(events: seq<R.Event>, e: R.Event, t: nat, n: nat)
    requires n <= |events|
    ensures R.Passes(events + [e], t, n) == R.Passes(events, t, n)
    decreases n
  {
    if n > 0 {
      PassesOfPrefix(events, e, t, n - 1);
    }
  }

  ghost predicate SameProviders(cfg: Config, s: State) {
    forall p :: p in s.limiters <==> p in cfg.rpm
  }

  lemma StepIsBudgeted(cfg: Config, s: State, step: Step, t: nat)
    requires ValidConfig(cfg) && Enabled(cfg, s, step) && t < |cfg.plan| && SameProviders(cfg, s)
    requires AttemptInv(cfg, s, t)
    ensures SameProviders(cfg, Apply(cfg, s, step))
    ensures |Apply(cfg, s, step).phases| == |cfg.plan|
    ensures Budgeted(cfg, Apply(cfg, s, step), t) >= Budgeted(cfg, s, t) + if step.task == t then 1 else 0
  {
    var p := cfg.plan[t].provider;
    StepPhases(cfg, s, step);
    if step.TryPass? && cfg.plan[step.task].provider == p && p in cfg.rpm {
      var events, e := s.limiters[p].events, R.Event(step.task, step.at);
      PassesOfPrefix(events, e, t, |events|);
      assert Apply(cfg, s, step).limiters[p].events == events + [e];
    }
  }

  lemma {:induction false} StepsAreBudgeted(cfg: Config, steps: seq<Step>, t: nat)
    requires ValidConfig(cfg) && Legal(cfg, steps) && t < |cfg.plan|
    ensures SameProviders(cfg, After(cfg, steps))
    ensures |After(cfg, steps).phases| == |cfg.plan|
    ensures StepsOf(steps, t) <= Budgeted(cfg, After(cfg, steps), t)
    decreases |steps|
  {
    if steps != [] {
      var front, last := steps[..|steps| - 1], steps[|steps| - 1];
      StepsAreBudgeted(cfg, front, t);
      AttemptsAllowed(cfg, front, t);
      StepIsBudgeted(cfg, After(cfg, front), last, t);
    }
  }

  /** What one task may need: to enter, to pass the limiter among all tasks, and its attempts. */
  function StepLimit(cfg: Config): nat {
    |cfg.plan| + 2 + AttemptSteps(cfg.retry.maxAttempts)
  }

  /** No task takes more steps than that. */
  lemma StepsPerTask(cfg: Config, steps: seq<Step>, t: nat)
    requires ValidConfig(cfg) && Legal(cfg, steps) && t < |cfg.plan|
    ensures StepsOf(steps, t) <= StepLimit(cfg)
  {
    StepsAreBudgeted(cfg, steps, t);
    AttemptsAllowed(cfg, steps, t);
    var p := cfg.plan[t].provider;
    if p in cfg.rpm {
      LimitersInOrder(cfg, steps, p);
      var s := After(cfg, steps);
      var events := s.limiters[p].events;
      forall k | 0 <= k < |events| ensures events[k].task < |cfg.plan| {
        assert EventInv(cfg, s, p, k);
      }
      R.PassesBounded(cfg.rpm[p], cfg.created, events, |cfg.plan|, t);
    }
  }

  function StepsOfFirst(steps: seq<Step>, n: nat): nat {
    if n == 0 then 0 else StepsOfFirst(steps, n - 1) + StepsOf(steps, n - 1)
  }

  lemma {:induction false} StepsOfFirstSplit(steps: seq<Step>, step: Step, n: nat)
    ensures StepsOfFirst(steps + [step], n) == StepsOfFirst(steps, n) + if step.task < n then 1 else 0
  {
    assert (steps + [step])[..|steps|] == steps;
    if n > 0 {
      StepsOfFirstSplit(steps, step, n - 1);
    }
  }

  lemma {:induction false} AllStepsCounted(steps: seq<Step>, n: nat)
    requires forall i :: 0 <= i < |steps| ==> steps[i].task < n
    ensures StepsOfFirst(steps, n) == |steps|
    decreases |steps|
  {
    if steps == [] {
      NoSteps(n);
    } else {
      var front, last := steps[..|steps| - 1], steps[|steps| - 1];
      AllStepsCounted(front, n);
      StepsOfFirstSplit(front, last, n);
      assert steps == front + [last];
    }
  }

  lemma {:induction false} NoSteps(n: nat)
    ensures StepsOfFirst([], n) == 0
  {
    if n > 0 {
      NoSteps(n - 1);
    }
  }

  lemma {:induction false} TasksInPlan(cfg: Config, steps: seq<Step>)
    requires ValidConfig(cfg) && Legal(cfg, steps)
    ensures forall i :: 0 <= i < |steps| ==> steps[i].task < |cfg.plan|
    decreases |steps|
  {
    if steps != [] {
      TasksInPlan(cfg, steps[..|steps| - 1]);
    }
  }

  lemma {:induction false} SumBound(cfg: Config, steps: seq<Step>, n: nat)
    requires ValidConfig(cfg) && Legal(cfg, steps) && n <= |cfg.plan|
    ensures StepsOfFirst(steps, n) <= n * StepLimit(cfg)
    decreases n
  {
    if n > 0 {
      SumBound(cfg, steps, n - 1);
      StepsPerTask(cfg, steps, n - 1);
      assert n * StepLimit(cfg) == (n - 1) * StepLimit(cfg) + StepLimit(cfg);
    }
  }

  /** Every run of the dispatcher ends: however tasks are scheduled, it has boundedly many steps. */
  lemma RunsAreBounded(cfg: Config, steps: seq<Step>)
    requires ValidConfig(cfg) && Legal(cfg, steps)
    ensures |steps| <= |cfg.plan| * StepLimit(cfg)
  {
    TasksInPlan(cfg, steps);
    AllStepsCounted(steps, |cfg.plan|);
    SumBound(cfg, steps, |cfg.plan|);
  }

  /** What a task may do next: enter while a permit is free, move on when due, end an attempt in any way at any time. */
  lemma MovesOfTask(cfg: Config, s: State, t: nat, at: real, end: Retry.Attempt<Reply>, jitter: real)
    requires t < |cfg.plan| == |s.phases| && s.now <= at
    ensures s.phases[t].Queued? ==> (Enabled(cfg, s, Enter(t)) <==> Active(s.phases) < cfg.permits)
    ensures s.phases[t].Limiting? && s.phases[t].wake.None? ==> Enabled(cfg, s, TryPass(t, at))
    ensures s.phases[t].Limiting? && s.phases[t].wake.Some? ==>
              (Enabled(cfg, s, TryPass(t, at)) <==> s.phases[t].wake.value <= at)
    ensures s.phases[t].InFlight? && s.phases[t].wake.None? ==>
              (Enabled(cfg, s, Settle(t, at, end, jitter)) <==> Retry.PossibleJitter(cfg.retry, jitter))
    ensures s.phases[t].InFlight? && s.phases[t].wake.Some? ==>
              (Enabled(cfg, s, Resend(t, at)) <==> s.phases[t].wake.value <= at)
  {
  }

  /** Until every task has finished there is a step to take: the dispatch cannot get stuck. */
  lemma NeverStuck(cfg: Config, steps: seq<Step>)
    requires ValidConfig(cfg) && Legal(cfg, steps)
    requires exists t :: 0 <= t < |After(cfg, steps).phases| && !After(cfg, steps).phases[t].Finished?
    ensures exists step :: Enabled(cfg, After(cfg, steps), step)
  {
    var s := After(cfg, steps);
    PhasesPerTask(cfg, steps);
    if t :| 0 <= t < |s.phases| && s.phases[t].InFlight? {
      if s.phases[t].wake.None? {
        assert Enabled(cfg, s, Settle(t, s.now, Retry.Unexpected(""), 0.0));
      } else {
        var wake := s.phases[t].wake.value;
        assert Enabled(cfg, s, Resend(t, if wake > s.now then wake else s.now));
      }
    } else if t :| 0 <= t < |s.phases| && s.phases[t].Limiting? {
      var wake := s.phases[t].wake;
      var at := if wake.Some? && wake.value > s.now then wake.value else s.now;
      assert Enabled(cfg, s, TryPass(t, at));
    } else {
      var t :| 0 <= t < |s.phases| && !s.phases[t].Finished?;
      NoneActive(s.phases);
      assert Enabled(cfg, s, Enter(t));
    }
  }
}
