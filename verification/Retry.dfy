/**
 The two retry loops: the adapter's, which also turns a timeout into a retryable error, and
 the retry manager's. What each attempt brings and how much jitter is added to each delay
 are arbitrary; delays are reals.
 */
module Retry {
  import opened Reals
  import opened Wrappers

  /** How one attempt ends. */
  datatype Attempt<T> =
    | Success(value: T)
    | Timeout
    | Retryable(kind: string)
    | NonRetryable(kind: string)
    | Unexpected(kind: string)

  /** How the whole call ends. `NoAttempt` is the failing assertion when no attempt is allowed. */
  datatype Ending<T> =
    | Returned(value: T)
    | TimedOut
    | RaisedRetryable(kind: string)
    | Raised(attempt: Attempt<T>)
    | NoAttempt

  datatype Policy = Policy(maxAttempts: nat, baseDelay: real, maxDelay: real, backoff: real, jitterMax: real)

  function Power(x: real, n: nat): real {
    if n == 0 then 1.0 else x * Power(x, n - 1)
  }

  /** The delay after attempt `attempt`, without jitter. */
  function BaseDelay(p: Policy, attempt: nat): real
    requires attempt > 0
  {
    var grown := p.baseDelay * Power(p.backoff, attempt - 1);
    if grown <= p.maxDelay then grown else p.maxDelay
  }

  /** Whether there is another attempt after this; the retry manager does not catch timeouts. */
  predicate Transient<T>(a: Attempt<T>, catchTimeout: bool) {
    a.Retryable? || (catchTimeout && a.Timeout?)
  }

  /** What the caller sees when this is the last attempt. */
  function EndingOf<T>(a: Attempt<T>, catchTimeout: bool): Ending<T> {
    match a
    case Success(v) => Returned(v)
    case Retryable(kind) => RaisedRetryable(kind)
    case Timeout => if catchTimeout then TimedOut else Raised(a)
    case _ => Raised(a)
  }

  /** The first of the attempts `from`, ..., `max - 1` that is not transient, or `max`. */
  function FirstDecisive<T>(attempts: nat -> Attempt<T>, catchTimeout: bool, from: nat, max: nat): (k: nat)
    requires from <= max
    ensures from <= k <= max
    ensures forall i :: from <= i < k ==> Transient(attempts(i), catchTimeout)
    ensures k < max ==> !Transient(attempts(k), catchTimeout)
    decreases max - from
  {
    if from == max || !Transient(attempts(from), catchTimeout) then from
    else FirstDecisive(attempts, catchTimeout, from + 1, max)
  }

  /** Up to and including the first decisive attempt, but no more than allowed. */
  function Calls<T>(attempts: nat -> Attempt<T>, catchTimeout: bool, max: nat): nat {
    var k := FirstDecisive(attempts, catchTimeout, 0, max);
    if k < max then k + 1 else max
  }

  /** The ending of the first decisive attempt, or of the last one allowed. */
  function Result<T>(attempts: nat -> Attempt<T>, catchTimeout: bool, max: nat): Ending<T> {
    if max == 0 then NoAttempt else EndingOf(attempts(Calls(attempts, catchTimeout, max) - 1), catchTimeout)
  }

  /** The sum of a list of delays. */
  function Total(delays: seq<real>): real {
    if delays == [] then 0.0 else Total(delays[..|delays| - 1]) + delays[|delays| - 1]
  }

  /** The delays are the base delays of the attempts 1, 2, ... with some jitter each. */
  ghost predicate Backoff(p: Policy, delays: seq<real>) {
    forall k :: 0 <= k < |delays| ==>
      PossibleJitter(p, delays[k] - BaseDelay(p, k + 1))
  }

  /** What `random.uniform(0, jitter_max)` may return, for a maximum of either sign. */
  predicate PossibleJitter(p: Policy, jitter: real) {
    0.0 <= jitter <= p.jitterMax || p.jitterMax <= jitter <= 0.0
  }

  /** The jitter is some fraction of the maximum, and any fraction is possible. */
  lemma JitterIsFraction(p: Policy, jitter: real)
    ensures PossibleJitter(p, jitter) <==> exists u :: 0.0 <= u <= 1.0 && jitter == Scaled(p.jitterMax, u)
  {
    if p.jitterMax == 0.0 {
      assert Scaled(p.jitterMax, 0.0) == 0.0;
    } else if PossibleJitter(p, jitter) {
      var positive := p.jitterMax > 0.0;
      var u := Fraction(if positive then jitter else -jitter, if positive then p.jitterMax else -p.jitterMax);
      assert p.jitterMax < 0.0 ==> -p.jitterMax * u == -(p.jitterMax * u);
      assert jitter == Scaled(p.jitterMax, u);
    }
    forall u | 0.0 <= u <= 1.0 && jitter == Scaled(p.jitterMax, u) ensures PossibleJitter(p, jitter) {
      if p.jitterMax >= 0.0 {
        MultiplyMonotone(0.0, u, p.jitterMax);
        MultiplyMonotone(u, 1.0, p.jitterMax);
      } else {
        MultiplyMonotone(0.0, u, -p.jitterMax);
        MultiplyMonotone(u, 1.0, -p.jitterMax);
        assert u * -p.jitterMax == -(p.jitterMax * u);
      }
    }
  }

  lemma Fraction(x: real, y: real) returns (u: real)
    requires 0.0 <= x <= y && y > 0.0
    ensures 0.0 <= u <= 1.0 && y * u == x
  {
    u := x / y;
    assert u * y == x;
  }

  ghost predicate JitterWithin(p: Policy, jitter: nat -> real) {
    forall n :: PossibleJitter(p, jitter(n))
  }

  /**
   The adapter's loop. It ends with the first attempt that is not transient, if that is one
   of the first `maxAttempts`, and otherwise with the last transient error; between two
   attempts it sleeps once.
   */
  method Generate<T>(p: Policy, attempts: nat -> Attempt<T>, jitter: nat -> real)
    returns (ending: Ending<T>, calls: nat, delays: seq<real>)
    requires JitterWithin(p, jitter)
    ensures ending == Result(attempts, true, p.maxAttempts)
    ensures calls == Calls(attempts, true, p.maxAttempts)
    ensures |delays| == (if calls == 0 then 0 else calls - 1) && Backoff(p, delays)
    ensures forall k :: 0 <= k < |delays| ==> delays[k] == BaseDelay(p, k + 1) + jitter(k + 1)
  {
    var attempt := 0;
    var lastError: Option<Ending<T>> := None;
    delays := [];
    while attempt < p.maxAttempts
      invariant attempt <= p.maxAttempts
      invariant forall i :: 0 <= i < attempt ==> Transient(attempts(i), true)
      invariant |delays| == if attempt == p.maxAttempts && attempt > 0 then attempt - 1 else attempt
      invariant lastError == if attempt == 0 then None else Some(EndingOf(attempts(attempt - 1), true))
      invariant forall k :: 0 <= k < |delays| ==> delays[k] == BaseDelay(p, k + 1) + jitter(k + 1)
    {
      attempt := attempt + 1;
      match attempts(attempt - 1) {
        case Success(v) => return Returned(v), attempt, delays;
        case NonRetryable(kind) => return Raised(NonRetryable(kind)), attempt, delays;
        case Unexpected(kind) => return Raised(Unexpected(kind)), attempt, delays;
        case Timeout => lastError := Some(TimedOut);
        case Retryable(kind) => lastError := Some(RaisedRetryable(kind));
      }
      if attempt < p.maxAttempts {
        delays := delays + [BaseDelay(p, attempt) + jitter(attempt)];
      }
    }
    if lastError.None? {
      return NoAttempt, attempt, delays;
    }
    return lastError.value, attempt, delays;
  }

  /** The retry manager's loop, the same but for timeouts, which it lets through. */
  method Execute<T>(p: Policy, attempts: nat -> Attempt<T>, jitter: nat -> real)
    returns (ending: Ending<T>, calls: nat, delays: seq<real>)
    requires JitterWithin(p, jitter)
    ensures ending == Result(attempts, false, p.maxAttempts)
    ensures calls == Calls(attempts, false, p.maxAttempts)
    ensures |delays| == (if calls == 0 then 0 else calls - 1) && Backoff(p, delays)
    ensures forall k :: 0 <= k < |delays| ==> delays[k] == BaseDelay(p, k + 1) + jitter(k + 1)
  {
    var attempt := 0;
    var lastError: Option<Ending<T>> := None;
    delays := [];
    while attempt < p.maxAttempts
      invariant attempt <= p.maxAttempts
      invariant forall i :: 0 <= i < attempt ==> Transient(attempts(i), false)
      invariant |delays| == if attempt == p.maxAttempts && attempt > 0 then attempt - 1 else attempt
      invariant lastError == if attempt == 0 then None else Some(EndingOf(attempts(attempt - 1), false))
      invariant forall k :: 0 <= k < |delays| ==> delays[k] == BaseDelay(p, k + 1) + jitter(k + 1)
    {
      attempt := attempt + 1;
      match attempts(attempt - 1) {
        case Success(v) => return Returned(v), attempt, delays;
        case Retryable(kind) =>
          lastError := Some(RaisedRetryable(kind));
          if attempt < p.maxAttempts {
            delays := delays + [BaseDelay(p, attempt) + jitter(attempt)];
          }
        case other => return Raised(other), attempt, delays;
      }
    }
    if lastError.None? {
      return NoAttempt, attempt, delays;
    }
    return lastError.value, attempt, delays;
  }

  /** The two loops end alike exactly when none of the adapter's attempts times out. */
  lemma LoopsAgree<T>(attempts: nat -> Attempt<T>, max: nat)
    ensures Result(attempts, true, max) == Result(attempts, false, max)
            <==> forall i :: 0 <= i < Calls(attempts, true, max) ==> !attempts(i).Timeout?
    ensures Calls(attempts, false, max) <= Calls(attempts, true, max)
  {
    var withTimeouts := FirstDecisive(attempts, true, 0, max);
    var without := FirstDecisive(attempts, false, 0, max);
    assert withTimeouts < max ==> !Transient(attempts(withTimeouts), false);
    if without < withTimeouts {
      assert attempts(without).Timeout?;
    }
  }

  // ---------------------------------------------------------------------------
  // Delays
  // ---------------------------------------------------------------------------

  lemma {:induction false} PowerGrows(x: real, n: nat)
    requires x >= 1.0
    ensures 1.0 <= Power(x, n) <= Power(x, n + 1)
  {
    if n > 0 {
      PowerGrows(x, n - 1);
      assert Power(x, n) >= 1.0;
    }
    assert (x - 1.0) * Power(x, n) >= 0.0;
  }

  /**
   The delays are a geometric series cut off at the maximum: the first is the base delay, and
   each is the one before times the backoff, as long as the maximum is not reached.
   */
  lemma DelaysAreGeometric(p: Policy, attempt: nat)
    requires attempt > 0
    ensures BaseDelay(p, 1) == if p.baseDelay <= p.maxDelay then p.baseDelay else p.maxDelay
    ensures BaseDelay(p, attempt) < p.maxDelay ==>
              var next := BaseDelay(p, attempt) * p.backoff;
              BaseDelay(p, attempt + 1) == if next <= p.maxDelay then next else p.maxDelay
    ensures p.backoff >= 1.0 && p.baseDelay >= 0.0 && BaseDelay(p, attempt) == p.maxDelay ==>
              BaseDelay(p, attempt + 1) == p.maxDelay
  {
    assert Power(p.backoff, 0) == 1.0;
    var grown := p.baseDelay * Power(p.backoff, attempt - 1);
    assert Power(p.backoff, attempt) == p.backoff * Power(p.backoff, attempt - 1);
    assert p.baseDelay * Power(p.backoff, attempt) == grown * p.backoff;
    if p.backoff >= 1.0 && p.baseDelay >= 0.0 {
      BaseDelayGrows(p, attempt);
    }
  }

  /** With a backoff of at least one the delays before jitter never shrink, and stay below the maximum. */
  lemma BaseDelayGrows(p: Policy, attempt: nat)
    requires attempt > 0 && p.backoff >= 1.0 && p.baseDelay >= 0.0
    ensures BaseDelay(p, attempt) <= BaseDelay(p, attempt + 1) <= p.maxDelay
  {
    PowerGrows(p.backoff, attempt - 1);
    var low, high := Power(p.backoff, attempt - 1), Power(p.backoff, attempt);
    assert p.baseDelay * (high - low) >= 0.0;
  }

  /** The longest sleep between two attempts; a negative one is none. */
  function LongestDelay(p: Policy): real {
    AtLeastZero(p.maxDelay + AtLeastZero(p.jitterMax))
  }

  lemma {:induction false} TotalOfBackoff(p: Policy, delays: seq<real>)
    requires Backoff(p, delays)
    ensures Total(delays) <= Multiple(|delays|, LongestDelay(p))
  {
    if delays != [] {
      var front := delays[..|delays| - 1];
      forall k | 0 <= k < |front|
        ensures PossibleJitter(p, front[k] - BaseDelay(p, k + 1))
      {
        assert front[k] == delays[k];
      }
      TotalOfBackoff(p, front);
      MultipleStep(|front|, LongestDelay(p));
    }
  }

  /** A call never sleeps longer in total than the longest delay between each two of the allowed attempts. */
  lemma TotalSleepBound<T>(p: Policy, attempts: nat -> Attempt<T>, catchTimeout: bool, delays: seq<real>)
    requires p.maxAttempts > 0
    requires |delays| == Calls(attempts, catchTimeout, p.maxAttempts) - 1 && Backoff(p, delays)
    ensures Total(delays) <= Multiple(p.maxAttempts - 1, LongestDelay(p))
  {
    TotalOfBackoff(p, delays);
    MultipleMonotone(|delays|, p.maxAttempts - 1, LongestDelay(p));
  }
}
