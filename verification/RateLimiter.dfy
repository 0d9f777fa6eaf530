/**
 The token bucket of one provider. Tasks take turns making passes over it: a pass refills
 the bucket for the time elapsed, then takes a token or computes how long to sleep. Time and
 tokens are reals. The results are the throughput bound over any window and the bound on
 how often a waiting task can be overtaken.
 */
module RateLimiter {
  import opened Reals

  datatype BucketState = BucketState(tokens: real, lastRefill: real)

  /** Tokens added in a time span. */
  function Accrued(rpm: nat, seconds: real): real {
    seconds * (rpm as real / 60.0)
  }

  function Min(a: real, b: real): real {
    if a <= b then a else b
  }

  function Refill(rpm: nat, b: BucketState, now: real): BucketState {
    BucketState(Min(rpm as real, b.tokens + Accrued(rpm, now - b.lastRefill)), now)
  }

  datatype Outcome = Granted | Wait(seconds: real)

  /** What one pass decides, and the bucket afterwards. */
  function Pass(rpm: nat, b: BucketState, now: real): (BucketState, Outcome)
    requires rpm > 0
  {
    var r := Refill(rpm, b, now);
    if r.tokens >= 1.0 then (r.(tokens := r.tokens - 1.0), Granted)
    else (r, Wait((1.0 - r.tokens) / (rpm as real / 60.0)))
  }

  predicate InRange(rpm: nat, b: BucketState) {
    0.0 <= b.tokens <= rpm as real
  }

  lemma AccruedSum(rpm: nat, s: real, t: real)
    ensures Accrued(rpm, s + t) == Accrued(rpm, s) + Accrued(rpm, t)
  {
  }

  lemma AccruedMonotone(rpm: nat, s: real, t: real)
    requires s <= t
    ensures Accrued(rpm, s) <= Accrued(rpm, t)
    ensures 0.0 <= s ==> 0.0 <= Accrued(rpm, s)
  {
    var rate := rpm as real / 60.0;
    assert 0.0 <= (t - s) * rate;
  }

  /** Sleeping for the computed time accrues exactly the missing fraction of a token. */
  lemma WaitAccrues(rpm: nat, missing: real)
    requires rpm > 0
    ensures Accrued(rpm, missing / (rpm as real / 60.0)) == missing
    ensures 0.0 <= missing ==> 0.0 <= missing / (rpm as real / 60.0)
  {
  }

  /** Refilling in two instalments, or in any number of them, is refilling once. */
  lemma RefillSplits(rpm: nat, b: BucketState, t: real, u: real)
    requires b.lastRefill <= t <= u
    ensures Refill(rpm, Refill(rpm, b, t), u) == Refill(rpm, b, u)
  {
    AccruedSum(rpm, t - b.lastRefill, u - t);
    AccruedMonotone(rpm, 0.0, u - t);
  }

  lemma PassInRange(rpm: nat, b: BucketState, now: real)
    requires rpm > 0 && InRange(rpm, b) && b.lastRefill <= now
    ensures InRange(rpm, Pass(rpm, b, now).0) && Pass(rpm, b, now).0.lastRefill == now
    ensures Pass(rpm, b, now).1.Wait? ==> Pass(rpm, b, now).1.seconds > 0.0
  {
    AccruedMonotone(rpm, 0.0, now - b.lastRefill);
  }

  // ---------------------------------------------------------------------------
  // Sequences of passes
  // ---------------------------------------------------------------------------

  /** A pass made by some task at some time. */
  datatype Event = Event(task: nat, now: real)

  function Full(rpm: nat, created: real): BucketState {
    BucketState(rpm as real, created)
  }

  /** The bucket after the first `n` passes. */
  function StateAfter(rpm: nat, created: real, events: seq<Event>, n: nat): BucketState
    requires rpm > 0 && n <= |events|
  {
    if n == 0 then Full(rpm, created)
    else Pass(rpm, StateAfter(rpm, created, events, n - 1), events[n - 1].now).0
  }

  function OutcomeAt(rpm: nat, created: real, events: seq<Event>, k: nat): Outcome
    requires rpm > 0 && k < |events|
  {
    Pass(rpm, StateAfter(rpm, created, events, k), events[k].now).1
  }

  /** Time does not run backwards. */
  ghost predicate Ordered(created: real, events: seq<Event>) {
    && (forall k :: 0 <= k < |events| ==> created <= events[k].now)
    && (forall j, k :: 0 <= j < k < |events| ==> events[j].now <= events[k].now)
  }

  /** Tokens never leave the range from none to a full minute's worth. */
  lemma {:induction false} TokensInRange(rpm: nat, created: real, events: seq<Event>, n: nat)
    requires rpm > 0 && Ordered(created, events) && n <= |events|
    ensures InRange(rpm, StateAfter(rpm, created, events, n))
    ensures StateAfter(rpm, created, events, n).lastRefill == if n == 0 then created else events[n - 1].now
  {
    if n > 0 {
      TokensInRange(rpm, created, events, n - 1);
      PassInRange(rpm, StateAfter(rpm, created, events, n - 1), events[n - 1].now);
    }
  }

  lemma {:induction false} StateOfPrefix(rpm: nat, created: real, events: seq<Event>, e: Event, n: nat)
    requires rpm > 0 && n <= |events|
    ensures StateAfter(rpm, created, events + [e], n) == StateAfter(rpm, created, events, n)
  {
    if n > 0 {
      StateOfPrefix(rpm, created, events, e, n - 1);
      assert (events + [e])[n - 1] == events[n - 1];
    }
  }

  // ---------------------------------------------------------------------------
  // Throughput
  // ---------------------------------------------------------------------------

  predicate GrantedWithin(rpm: nat, created: real, events: seq<Event>, k: nat, t1: real, t2: real)
    requires rpm > 0 && k < |events|
  {
    t1 <= events[k].now <= t2 && OutcomeAt(rpm, created, events, k).Granted?
  }

  /** How many of the first `n` passes were granted between `t1` and `t2`. */
  function GrantsWithin(rpm: nat, created: real, events: seq<Event>, n: nat, t1: real, t2: real): nat
    requires rpm > 0 && n <= |events|
  {
    if n == 0 then 0
    else GrantsWithin(rpm, created, events, n - 1, t1, t2)
         + if GrantedWithin(rpm, created, events, n - 1, t1, t2) then 1 else 0
  }

  lemma PassConserves(rpm: nat, b: BucketState, now: real)
    requires rpm > 0
    ensures var (after, outcome) := Pass(rpm, b, now);
            after.tokens + (if outcome.Granted? then 1.0 else 0.0) == Refill(rpm, b, now).tokens
  {
  }

  /** Grants so far in the window, plus the tokens left, stay below what a full bucket accrues. */
  lemma {:induction false} WindowPotential(
    rpm: nat, created: real, events: seq<Event>, n: nat, t1: real, t2: real)
    requires rpm > 0 && Ordered(created, events) && 0 < n <= |events| && t1 <= t2
    ensures var now := events[n - 1].now;
            var count := GrantsWithin(rpm, created, events, n, t1, t2) as real;
            && (now < t1 ==> count == 0.0)
            && (t1 <= now <= t2 ==>
                  count + StateAfter(rpm, created, events, n).tokens <= rpm as real + Accrued(rpm, now - t1))
            && (t2 < now ==> count <= rpm as real + Accrued(rpm, t2 - t1))
  {
    var before := StateAfter(rpm, created, events, n - 1);
    var now := events[n - 1].now;
    TokensInRange(rpm, created, events, n - 1);
    TokensInRange(rpm, created, events, n);
    PassConserves(rpm, before, now);
    AccruedMonotone(rpm, 0.0, t2 - t1);
    if t1 <= now {
      AccruedMonotone(rpm, 0.0, now - t1);
    }
    if n > 1 {
      WindowPotential(rpm, created, events, n - 1, t1, t2);
      var last := events[n - 2].now;
      if t1 <= last <= t2 {
        AccruedSum(rpm, last - t1, now - last);
        AccruedMonotone(rpm, last - t1, t2 - t1);
      }
    }
  }

  /** In any window at most a full bucket plus what accrues during the window is granted. */
  lemma WindowBound(rpm: nat, created: real, events: seq<Event>, t1: real, t2: real)
    requires rpm > 0 && Ordered(created, events) && t1 <= t2
    ensures GrantsWithin(rpm, created, events, |events|, t1, t2) as real
         <= rpm as real + Accrued(rpm, t2 - t1)
  {
    AccruedMonotone(rpm, 0.0, t2 - t1);
    if events != [] {
      WindowPotential(rpm, created, events, |events|, t1, t2);
      TokensInRange(rpm, created, events, |events|);
      var now := events[|events| - 1].now;
      if now <= t2 {
        AccruedMonotone(rpm, now - t1, t2 - t1);
      }
    }
  }

  /** The bound is met: a fresh bucket grants a full minute's worth at one instant, and no more. */
  lemma {:induction false} BurstIsExact(rpm: nat, created: real, events: seq<Event>, n: nat)
    requires rpm > 0 && n <= |events| && n <= rpm + 1
    requires forall k :: 0 <= k < |events| ==> events[k].now == created
    ensures GrantsWithin(rpm, created, events, n, created, created) == if n <= rpm then n else rpm
    ensures n <= rpm ==> StateAfter(rpm, created, events, n) == BucketState((rpm - n) as real, created)
  {
    if n > 0 {
      BurstIsExact(rpm, created, events, n - 1);
      assert Accrued(rpm, 0.0) == 0.0;
    }
  }

  /** The time in which one token accrues. */
  function Interval(rpm: nat): real
    requires rpm > 0
  {
    60.0 / rpm as real
  }

  /** The time of pass `k` when a full bucket is emptied at once and then every token taken as it accrues. */
  function SteadyTime(rpm: nat, created: real, k: nat): real
    requires rpm > 0
  {
    if k < rpm then created else created + Multiple(k - rpm + 1, Interval(rpm))
  }

  function Steady(rpm: nat, created: real, n: nat): (events: seq<Event>)
    requires rpm > 0
    ensures |events| == n && forall k :: 0 <= k < n ==> events[k] == Event(k, SteadyTime(rpm, created, k))
  {
    seq(n, k requires 0 <= k < n => Event(k, SteadyTime(rpm, created, k)))
  }

  lemma IntervalAccrues(rpm: nat)
    requires rpm > 0
    ensures Interval(rpm) > 0.0 && Accrued(rpm, Interval(rpm)) == 1.0
  {
    var x := rpm as real;
    assert (60.0 / x) * x == 60.0;
    assert (60.0 / x) * (x / 60.0) == 1.0;
  }

  lemma {:induction false} MultipleAccrues(rpm: nat, m: nat)
    requires rpm > 0
    ensures Accrued(rpm, Multiple(m, Interval(rpm))) == m as real
    ensures Multiple(m, Interval(rpm)) >= 0.0
  {
    IntervalAccrues(rpm);
    if m == 0 {
      NoMultiple(Interval(rpm));
    } else {
      MultipleAccrues(rpm, m - 1);
      MultipleStep(m - 1, Interval(rpm));
      AccruedSum(rpm, Multiple(m - 1, Interval(rpm)), Interval(rpm));
    }
  }

  lemma SteadyAccrual(rpm: nat, created: real, k: nat)
    requires rpm > 0
    ensures k > 0 ==> SteadyTime(rpm, created, k - 1) <= SteadyTime(rpm, created, k)
    ensures k > 0 && k >= rpm ==>
              Accrued(rpm, SteadyTime(rpm, created, k) - SteadyTime(rpm, created, k - 1)) == 1.0
    ensures created <= SteadyTime(rpm, created, k)
  {
    if k >= rpm {
      var m := k - rpm;
      IntervalAccrues(rpm);
      MultipleAccrues(rpm, m + 1);
      MultipleStep(m, Interval(rpm));
      NoMultiple(Interval(rpm));
      StepAccrues(rpm, created + Multiple(m, Interval(rpm)));
    }
  }

  lemma StepAccrues(rpm: nat, from: real)
    requires rpm > 0
    ensures Accrued(rpm, from + Interval(rpm) - from) == 1.0
  {
    IntervalAccrues(rpm);
    assert from + Interval(rpm) - from == Interval(rpm);
  }

  /** Every pass of this history is granted. */
  lemma {:induction false} SteadyGrants(rpm: nat, created: real, total: nat, n: nat)
    requires rpm > 0 && n <= total
    ensures var events := Steady(rpm, created, total);
            && StateAfter(rpm, created, events, n)
               == BucketState(if n < rpm then (rpm - n) as real else 0.0,
                              if n == 0 then created else SteadyTime(rpm, created, n - 1))
            && (n < total ==> OutcomeAt(rpm, created, events, n).Granted?)
  {
    SteadyAccrual(rpm, created, n);
    assert Accrued(rpm, 0.0) == 0.0;
    if n > 0 {
      SteadyGrants(rpm, created, total, n - 1);
      SteadyAccrual(rpm, created, n - 1);
    }
  }

  lemma {:induction false} SteadyCount(rpm: nat, created: real, total: nat, n: nat, end: real)
    requires rpm > 0 && n <= total
    requires forall k :: 0 <= k < n ==> SteadyTime(rpm, created, k) <= end
    ensures GrantsWithin(rpm, created, Steady(rpm, created, total), n, created, end) == n
  {
    if n > 0 {
      SteadyCount(rpm, created, total, n - 1, end);
      SteadyGrants(rpm, created, total, n - 1);
      SteadyAccrual(rpm, created, n - 1);
    }
  }

  lemma {:induction false} SteadyOrdered(rpm: nat, created: real, j: nat, k: nat)
    requires rpm > 0 && j <= k
    ensures SteadyTime(rpm, created, j) <= SteadyTime(rpm, created, k)
  {
    if j < k {
      SteadyOrdered(rpm, created, j, k - 1);
      SteadyAccrual(rpm, created, k);
    }
  }

  lemma SteadyEnd(rpm: nat, created: real, n: nat)
    requires rpm > 0 && n > 0
    ensures var end := SteadyTime(rpm, created, rpm + n - 1);
            && created < end == created + Multiple(n, Interval(rpm))
            && Accrued(rpm, end - created) == n as real
  {
    MultipleAccrues(rpm, n);
    MultipleAccrues(rpm, n - 1);
    MultipleStep(n - 1, Interval(rpm));
    IntervalAccrues(rpm);
    assert created + Multiple(n, Interval(rpm)) - created == Multiple(n, Interval(rpm));
  }

  lemma SteadyInOrder(rpm: nat, created: real, n: nat)
    requires rpm > 0
    ensures Ordered(created, Steady(rpm, created, n))
  {
    forall k | 0 <= k < n ensures created <= SteadyTime(rpm, created, k) {
      SteadyAccrual(rpm, created, k);
    }
    forall j, k | 0 <= j < k < n ensures SteadyTime(rpm, created, j) <= SteadyTime(rpm, created, k) {
      SteadyOrdered(rpm, created, j, k);
    }
  }

  /**
   The window bound cannot be improved: windows from the creation of a bucket, however long,
   see exactly a full bucket and all that accrues, in a history in which `n` more tokens are
   taken than a full bucket holds.
   */
  lemma WindowBoundIsMet(rpm: nat, created: real, n: nat)
    requires rpm > 0 && n > 0
    ensures var events, end := Steady(rpm, created, rpm + n), SteadyTime(rpm, created, rpm + n - 1);
            && Ordered(created, events)
            && created < end == created + Multiple(n, Interval(rpm))
            && GrantsWithin(rpm, created, events, |events|, created, end) == rpm + n
            && (rpm + n) as real == rpm as real + Accrued(rpm, end - created)
  {
    var total := rpm + n;
    var end := SteadyTime(rpm, created, total - 1);
    SteadyEnd(rpm, created, n);
    SteadyInOrder(rpm, created, total);
    forall k | 0 <= k < total ensures SteadyTime(rpm, created, k) <= end {
      SteadyOrdered(rpm, created, k, total - 1);
    }
    SteadyCount(rpm, created, total, total, end);
  }

  // ---------------------------------------------------------------------------
  // Progress under contention
  // ---------------------------------------------------------------------------

  /**
   How tasks use the bucket: a task that was granted a token does not come back, and one
   that was told to wait sleeps at least that long.
   */
  ghost predicate Disciplined(rpm: nat, created: real, events: seq<Event>)
    requires rpm > 0
  {
    forall j, k :: 0 <= j < k < |events| && events[j].task == events[k].task ==>
      && OutcomeAt(rpm, created, events, j).Wait?
      && events[j].now + OutcomeAt(rpm, created, events, j).seconds <= events[k].now
  }

  /** Grants among the first `n` passes. */
  function Grants(rpm: nat, created: real, events: seq<Event>, n: nat): nat
    requires rpm > 0 && n <= |events|
  {
    if n == 0 then 0
    else Grants(rpm, created, events, n - 1)
         + if OutcomeAt(rpm, created, events, n - 1).Granted? then 1 else 0
  }

  predicate FailsAt(rpm: nat, created: real, events: seq<Event>, task: nat, k: nat)
    requires rpm > 0 && k < |events|
  {
    events[k].task == task && OutcomeAt(rpm, created, events, k).Wait?
  }

  /** Passes among the first `n` in which the task was sent to sleep. */
  function Fails(rpm: nat, created: real, events: seq<Event>, task: nat, n: nat): nat
    requires rpm > 0 && n <= |events|
  {
    if n == 0 then 0
    else Fails(rpm, created, events, task, n - 1)
         + if FailsAt(rpm, created, events, task, n - 1) then 1 else 0
  }

  lemma {:induction false} GrantsMonotone(rpm: nat, created: real, events: seq<Event>, m: nat, n: nat)
    requires rpm > 0 && m <= n <= |events|
    ensures Grants(rpm, created, events, m) <= Grants(rpm, created, events, n)
    decreases n
  {
    if m < n {
      GrantsMonotone(rpm, created, events, m, n - 1);
    }
  }

  /** While nothing is granted, the passes in between only refill. */
  lemma {:induction false} NoGrantOnlyRefills(rpm: nat, created: real, events: seq<Event>, m: nat, n: nat, now: real)
    requires rpm > 0 && Ordered(created, events) && m <= n <= |events|
    requires Grants(rpm, created, events, m) == Grants(rpm, created, events, n)
    requires created <= now && (n > 0 ==> events[n - 1].now <= now)
    ensures Refill(rpm, StateAfter(rpm, created, events, n), now)
         == Refill(rpm, StateAfter(rpm, created, events, m), now)
    decreases n
  {
    if m < n {
      GrantsMonotone(rpm, created, events, m, n - 1);
      NoGrantOnlyRefills(rpm, created, events, m, n - 1, now);
      TokensInRange(rpm, created, events, n - 1);
      RefillSplits(rpm, StateAfter(rpm, created, events, n - 1), events[n - 1].now, now);
    }
  }

  /** After the computed sleep there is a token, if nobody else took one. */
  lemma SleepSuffices(rpm: nat, b: BucketState, now: real, later: real)
    requires rpm > 0 && Pass(rpm, b, now).1.Wait?
    requires now + Pass(rpm, b, now).1.seconds <= later
    ensures Refill(rpm, Pass(rpm, b, now).0, later).tokens >= 1.0
  {
    var (slept, outcome) := Pass(rpm, b, now);
    WaitAccrues(rpm, 1.0 - slept.tokens);
    AccruedMonotone(rpm, outcome.seconds, later - now);
  }

  /** The computed sleep is the least that suffices: any earlier there is no token, then and later there is. */
  lemma SleepIsLeast(rpm: nat, b: BucketState, now: real, later: real)
    requires rpm > 0 && now <= later && Pass(rpm, b, now).1.Wait?
    ensures Refill(rpm, Pass(rpm, b, now).0, later).tokens >= 1.0 <==> now + Pass(rpm, b, now).1.seconds <= later
    ensures var due := now + Pass(rpm, b, now).1.seconds;
            Refill(rpm, Pass(rpm, b, now).0, due).tokens == 1.0
  {
    var (slept, outcome) := Pass(rpm, b, now);
    var due := now + outcome.seconds;
    WaitAccrues(rpm, 1.0 - slept.tokens);
    assert due - now == outcome.seconds;
    if due <= later {
      SleepSuffices(rpm, b, now, later);
    } else {
      AccrualIsStrict(rpm, later - now, outcome.seconds);
    }
  }

  lemma AccrualIsStrict(rpm: nat, s: real, t: real)
    requires rpm > 0 && s < t
    ensures Accrued(rpm, s) < Accrued(rpm, t)
  {
    var rate := rpm as real / 60.0;
    assert 0.0 < (t - s) * rate;
  }

  /** A task that slept its time out and still gets nothing was overtaken by a grant. */
  lemma OvertakenByGrant(rpm: nat, created: real, events: seq<Event>, j: nat, k: nat)
    requires rpm > 0 && Ordered(created, events) && Disciplined(rpm, created, events)
    requires j < k < |events| && events[j].task == events[k].task
    requires OutcomeAt(rpm, created, events, k).Wait?
    ensures Grants(rpm, created, events, j) < Grants(rpm, created, events, k)
  {
    GrantsMonotone(rpm, created, events, j + 1, k);
    if Grants(rpm, created, events, j + 1) == Grants(rpm, created, events, k) {
      NoGrantOnlyRefills(rpm, created, events, j + 1, k, events[k].now);
      SleepSuffices(rpm, StateAfter(rpm, created, events, j), events[j].now, events[k].now);
    }
  }

  lemma {:induction false} LastFail(rpm: nat, created: real, events: seq<Event>, task: nat, n: nat) returns (f: nat)
    requires rpm > 0 && n <= |events| && Fails(rpm, created, events, task, n) > 0
    ensures f < n && FailsAt(rpm, created, events, task, f)
    ensures Fails(rpm, created, events, task, f + 1) == Fails(rpm, created, events, task, n)
  {
    if FailsAt(rpm, created, events, task, n - 1) {
      f := n - 1;
    } else {
      f := LastFail(rpm, created, events, task, n - 1);
    }
  }

  /** Every failure but the first is paid for by a grant: a task fails at most once more than others succeed. */
  lemma {:induction false} FailuresAreCharged(rpm: nat, created: real, events: seq<Event>, task: nat, k: nat)
    requires rpm > 0 && Ordered(created, events) && Disciplined(rpm, created, events)
    requires k < |events| && FailsAt(rpm, created, events, task, k)
    ensures Fails(rpm, created, events, task, k + 1) <= Grants(rpm, created, events, k) + 1
  {
    if Fails(rpm, created, events, task, k) > 0 {
      var f := LastFail(rpm, created, events, task, k);
      FailuresAreCharged(rpm, created, events, task, f);
      OvertakenByGrant(rpm, created, events, f, k);
    }
  }

  /** The tasks that were granted a token in the first `n` passes. */
  function Served(rpm: nat, created: real, events: seq<Event>, n: nat): set<nat>
    requires rpm > 0 && n <= |events|
  {
    if n == 0 then {}
    else Served(rpm, created, events, n - 1)
         + if OutcomeAt(rpm, created, events, n - 1).Granted? then {events[n - 1].task} else {}
  }

  lemma {:induction false} ServedByPass(rpm: nat, created: real, events: seq<Event>, n: nat, t: nat)
    requires rpm > 0 && n <= |events|
    ensures t in Served(rpm, created, events, n) <==>
              exists k :: 0 <= k < n && events[k].task == t && OutcomeAt(rpm, created, events, k).Granted?
  {
    if n > 0 {
      ServedByPass(rpm, created, events, n - 1, t);
    }
  }

  /** A task that was granted a token makes no further pass. */
  ghost predicate ServedOnce(rpm: nat, created: real, events: seq<Event>)
    requires rpm > 0
  {
    forall j, k :: 0 <= j < k < |events| && events[j].task == events[k].task ==>
      !OutcomeAt(rpm, created, events, j).Granted?
  }

  lemma NotServedBefore(rpm: nat, created: real, events: seq<Event>, n: nat)
    requires rpm > 0 && n < |events| && ServedOnce(rpm, created, events)
    ensures events[n].task !in Served(rpm, created, events, n)
  {
    ServedByPass(rpm, created, events, n, events[n].task);
  }

  lemma ServedGrows(rpm: nat, created: real, events: seq<Event>, n: nat)
    requires rpm > 0 && n < |events|
    requires events[n].task !in Served(rpm, created, events, n)
    ensures |Served(rpm, created, events, n + 1)| == |Served(rpm, created, events, n)|
              + if OutcomeAt(rpm, created, events, n).Granted? then 1 else 0
  {
    var before, task := Served(rpm, created, events, n), events[n].task;
    assert |before + {task}| == |before| + 1;
    assert before + {} == before;
  }

  lemma {:induction false} GrantsAreServed(rpm: nat, created: real, events: seq<Event>, n: nat)
    requires rpm > 0 && n <= |events| && ServedOnce(rpm, created, events)
    ensures Grants(rpm, created, events, n) == |Served(rpm, created, events, n)|
    decreases n
  {
    if n > 0 {
      GrantsAreServed(rpm, created, events, n - 1);
      NotServedBefore(rpm, created, events, n - 1);
      ServedGrows(rpm, created, events, n - 1);
    }
  }

  lemma {:induction false} Below(s: set<nat>, n: nat)
    requires forall t :: t in s ==> t < n
    ensures |s| <= n
  {
    if n == 0 {
      assert s == {};
    } else {
      var rest := s - {n - 1};
      Below(rest, n - 1);
      assert s <= rest + {n - 1};
      assert |s| <= |rest + {n - 1}|;
    }
  }

  /** With `tasks` tasks after a token each, none is sent to sleep more than `tasks` times. */
  lemma FailuresBounded(rpm: nat, created: real, events: seq<Event>, tasks: nat, task: nat)
    requires rpm > 0 && Ordered(created, events) && Disciplined(rpm, created, events)
    requires task < tasks && forall k :: 0 <= k < |events| ==> events[k].task < tasks
    ensures Fails(rpm, created, events, task, |events|) <= tasks
  {
    if Fails(rpm, created, events, task, |events|) > 0 {
      var f := LastFail(rpm, created, events, task, |events|);
      FailuresAreCharged(rpm, created, events, task, f);
      GrantsAreServed(rpm, created, events, f);
      var served := Served(rpm, created, events, f);
      ServedByPass(rpm, created, events, f, task);
      forall t | t in served ensures t < tasks {
        ServedByPass(rpm, created, events, f, t);
      }
      assert task !in served;
      Below(served + {task}, tasks);
      assert |served + {task}| == |served| + 1;
    }
  }

  /** Passes made by one task among the first `n`. */
  function Passes(events: seq<Event>, task: nat, n: nat): nat
    requires n <= |events|
  {
    if n == 0 then 0 else Passes(events, task, n - 1) + if events[n - 1].task == task then 1 else 0
  }

  lemma {:induction false} PassesAreFailsAndGrant(rpm: nat, created: real, events: seq<Event>, task: nat, n: nat)
    requires rpm > 0 && n <= |events| && ServedOnce(rpm, created, events)
    ensures Passes(events, task, n) ==
              Fails(rpm, created, events, task, n) + if task in Served(rpm, created, events, n) then 1 else 0
  {
    if n > 0 {
      PassesAreFailsAndGrant(rpm, created, events, task, n - 1);
      NotServedBefore(rpm, created, events, n - 1);
    }
  }

  /** A task needs at most one pass more than there are tasks. */
  lemma PassesBounded(rpm: nat, created: real, events: seq<Event>, tasks: nat, task: nat)
    requires rpm > 0 && Ordered(created, events) && Disciplined(rpm, created, events)
    requires task < tasks && forall k :: 0 <= k < |events| ==> events[k].task < tasks
    ensures Passes(events, task, |events|) <= tasks + 1
  {
    PassesAreFailsAndGrant(rpm, created, events, task, |events|);
    FailuresBounded(rpm, created, events, tasks, task);
  }

  // ---------------------------------------------------------------------------
  // The bucket object
  // ---------------------------------------------------------------------------

  class Bucket {
    const requestsPerMinute: nat
    var tokens: real
    var lastRefill: real

    ghost predicate Valid()
      reads this
    {
      requestsPerMinute > 0 && InRange(requestsPerMinute, State())
    }

    function State(): BucketState
      reads this
    {
      BucketState(tokens, lastRefill)
    }

    constructor (rpm: nat, created: real)
      requires rpm > 0
      ensures Valid() && requestsPerMinute == rpm && State() == Full(rpm, created)
    {
      requestsPerMinute := rpm;
      tokens, lastRefill := rpm as real, created;
    }

    /** The part of `acquire` that runs under the lock. */
    method TryAcquire(now: real) returns (outcome: Outcome)
      requires Valid() && lastRefill <= now
      modifies this
      ensures Valid() && lastRefill == now
      ensures (State(), outcome) == Pass(requestsPerMinute, old(State()), now)
    {
      PassInRange(requestsPerMinute, State(), now);
      var elapsed := now - lastRefill;
      tokens := Min(requestsPerMinute as real, tokens + Accrued(requestsPerMinute, elapsed));
      lastRefill := now;
      if tokens >= 1.0 {
        tokens := tokens - 1.0;
        return Granted;
      }
      return Wait((1.0 - tokens) / (requestsPerMinute as real / 60.0));
    }

    /**
     `acquire` by a task nobody competes with. `late(n)` is how much longer than asked the
     n-th sleep takes. With a token there it is through at once, otherwise the one sleep lasts
     until the moment a whole token has accrued, and the second pass succeeds.
     */
    method Acquire(arrival: real, late: nat -> real) returns (passes: nat, now: real)
      requires Valid() && lastRefill <= arrival && forall n :: late(n) >= 0.0
      modifies this
      ensures Valid() && lastRefill == now && 1 <= passes <= 2
      ensures State() == Pass(requestsPerMinute, old(State()), now).0
      ensures Pass(requestsPerMinute, old(State()), now).1 == Granted
      ensures passes == 1 <==> Refill(requestsPerMinute, old(State()), arrival).tokens >= 1.0
      ensures passes == 1 ==> now == arrival
      ensures passes == 2 ==>
                && arrival < now - late(1)
                && Refill(requestsPerMinute, old(State()), now - late(1)).tokens == 1.0
    {
      ghost var before := State();
      passes, now := 0, arrival;
      while true
        invariant Valid() && lastRefill <= now && arrival <= now && passes <= 1
        invariant passes == 0 ==> State() == before && now == arrival
        invariant passes == 1 ==> State() == Refill(requestsPerMinute, before, lastRefill)
        invariant passes == 1 ==> before.lastRefill <= lastRefill
        invariant passes == 1 ==> Refill(requestsPerMinute, State(), now).tokens >= 1.0
        invariant passes == 1 ==> Refill(requestsPerMinute, before, arrival).tokens < 1.0
        invariant passes == 1 ==> arrival < now - late(1)
        invariant passes == 1 ==> Refill(requestsPerMinute, before, now - late(1)).tokens == 1.0
        decreases 1 - passes
      {
        ghost var b := State();
        RefillSplits(requestsPerMinute, before, b.lastRefill, now);
        var outcome := TryAcquire(now);
        passes := passes + 1;
        if outcome.Granted? {
          return;
        }
        WaitAccrues(requestsPerMinute, 1.0 - tokens);
        AccruedMonotone(requestsPerMinute, outcome.seconds, outcome.seconds + late(passes));
        SleepIsLeast(requestsPerMinute, b, now, now + outcome.seconds);
        RefillSplits(requestsPerMinute, b, now, now + outcome.seconds);
        now := now + outcome.seconds + late(passes);
        assert now - late(passes) == now - late(1);
      }
    }
  }
}
