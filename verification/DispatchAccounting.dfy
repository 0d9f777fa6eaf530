/**
 Bookkeeping of a dispatch: the response store, the ledger and the metrics are at all times
 what the list of results says they are, and once every task has finished that list has
 exactly one entry per plan item.
 */
module DispatchAccounting {
  import opened Wrappers
  import opened Sorting
  import opened CostGuard
  import opened RunMetrics
  import opened Dispatch
  import V = VerdictEngine

  type Results = seq<(nat, Outcome)>

  ghost predicate InPlan(cfg: Config, results: Results) {
    forall i :: 0 <= i < |results| ==> results[i].0 < |cfg.plan|
  }

  /** The ledger after these results. */
  function LedgerOf(cfg: Config, results: Results): Ledger
    requires InPlan(cfg, results)
  {
    if results == [] then EMPTY_LEDGER
    else
      var front := LedgerOf(cfg, results[..|results| - 1]);
      var (t, outcome) := results[|results| - 1];
      match outcome
      case Answered(reply) => RecordSpend(front, cfg.plan[t].provider, ActualCost(cfg, t, reply))
      case _ => front
  }

  /** The stored responses after these results. */
  function StoreOf(cfg: Config, results: Results): map<string, Reply>
    requires InPlan(cfg, results)
  {
    if results == [] then map[]
    else
      var front := StoreOf(cfg, results[..|results| - 1]);
      var (t, outcome) := results[|results| - 1];
      match outcome
      case Answered(reply) => front[cfg.plan[t].executionId := reply]
      case _ => front
  }

  /** The metrics after these results. */
  function MetricsOf(cfg: Config, results: Results): Metrics
    requires InPlan(cfg, results)
  {
    if results == [] then NO_METRICS
    else
      var front := MetricsOf(cfg, results[..|results| - 1]);
      var (t, outcome) := results[|results| - 1];
      match outcome
      case Answered(reply) =>
        RecordSuccess(front, reply.latencyMs, reply.totalTokens, ActualCost(cfg, t, reply))
      case OverBudget(_) => RecordError(front, cfg.plan[t].provider, "budget_exceeded")
      case Failed(kind) => RecordError(front, cfg.plan[t].provider, kind)
  }

  ghost predicate HasResult(results: Results, t: nat) {
    exists i :: 0 <= i < |results| && results[i].0 == t
  }

  ghost predicate DistinctTasks(results: Results) {
    forall i, j :: 0 <= i < j < |results| ==> results[i].0 != results[j].0
  }

  /** The books agree with the results, and exactly the finished tasks have one. */
  ghost predicate BooksInv(cfg: Config, s: State) {
    && |s.phases| == |cfg.plan| && InPlan(cfg, s.results) && DistinctTasks(s.results)
    && (forall t :: 0 <= t < |cfg.plan| ==> (s.phases[t].Finished? <==> HasResult(s.results, t)))
    && s.ledger == LedgerOf(cfg, s.results)
    && s.store == StoreOf(cfg, s.results)
    && s.metrics == MetricsOf(cfg, s.results)
  }

  lemma ResultAdded(cfg: Config, s: State, next: State, t: nat, outcome: Outcome)
    requires BooksInv(cfg, s) && t < |cfg.plan| && !s.phases[t].Finished?
    requires next.results == s.results + [(t, outcome)] && next.phases == s.phases[t := Finished]
    ensures InPlan(cfg, next.results) && DistinctTasks(next.results)
    ensures forall u :: 0 <= u < |cfg.plan| ==> (next.phases[u].Finished? <==> HasResult(next.results, u))
    ensures next.results[..|next.results| - 1] == s.results
  {
    var n := |s.results|;
    forall u | 0 <= u < |cfg.plan| ensures next.phases[u].Finished? <==> HasResult(next.results, u) {
      if HasResult(s.results, u) {
        var i :| 0 <= i < n && s.results[i].0 == u;
        assert next.results[i].0 == u;
      }
      if u == t {
        assert next.results[n].0 == u;
      }
    }
  }

  /** A step that does not finish its task records nothing, and one that does adds a result. */
  lemma StepRecords(cfg: Config, s: State, step: Step)
    requires ValidConfig(cfg) && Enabled(cfg, s, step) && !s.phases[step.task].Finished?
    ensures var t, next := step.task, Apply(cfg, s, step);
            && |next.phases| == |s.phases|
            && if next.phases[t].Finished?
               then |next.results| == |s.results| + 1
                    && next.results == s.results + [(t, next.results[|s.results|].1)]
                    && next.phases == s.phases[t := Finished]
               else next.results == s.results && next.ledger == s.ledger
                    && next.store == s.store && next.metrics == s.metrics
  {
  }

  /** Every step of every task keeps the books. */
  lemma StepKeepsBooks(cfg: Config, s: State, step: Step)
    requires ValidConfig(cfg) && Enabled(cfg, s, step) && BooksInv(cfg, s)
    ensures BooksInv(cfg, Apply(cfg, s, step))
  {
    var next := Apply(cfg, s, step);
    StepPhases(cfg, s, step);
    StepRecords(cfg, s, step);
    if next.phases[step.task].Finished? {
      ResultAdded(cfg, s, next, step.task, next.results[|s.results|].1);
    }
  }

  lemma {:induction false} BooksAgree(cfg: Config, steps: seq<Step>)
    requires ValidConfig(cfg) && Legal(cfg, steps)
    ensures BooksInv(cfg, After(cfg, steps))
    decreases |steps|
  {
    if steps != [] {
      var front, last := steps[..|steps| - 1], steps[|steps| - 1];
      BooksAgree(cfg, front);
      StepKeepsBooks(cfg, After(cfg, front), last);
    }
  }

  // ---------------------------------------------------------------------------
  // Conservation
  // ---------------------------------------------------------------------------

  function Answers(results: Results): nat {
    if results == [] then 0
    else Answers(results[..|results| - 1]) + if results[|results| - 1].1.Answered? then 1 else 0
  }

  lemma MetricsStayConsistent(cfg: Config, results: Results)
    requires InPlan(cfg, results) && results != [] && Consistent(MetricsOf(cfg, results[..|results| - 1]))
    ensures Consistent(MetricsOf(cfg, results))
  {
    var front := MetricsOf(cfg, results[..|results| - 1]);
    var (t, outcome) := results[|results| - 1];
    match outcome
    case Answered(reply) =>
      RecordingKeepsConsistent(front, reply.latencyMs, reply.totalTokens, ActualCost(cfg, t, reply), "", "");
    case OverBudget(_) => RecordingKeepsConsistent(front, 0, 0, 0.0, cfg.plan[t].provider, "budget_exceeded");
    case Failed(kind) => RecordingKeepsConsistent(front, 0, 0, 0.0, cfg.plan[t].provider, kind);
  }

  /** The latencies and the tokens of the answers. */
  function LatenciesOf(results: Results): seq<int> {
    if results == [] then []
    else LatenciesOf(results[..|results| - 1])
         + match results[|results| - 1].1 { case Answered(reply) => [reply.latencyMs] case _ => [] }
  }

  function TokensOf(results: Results): int {
    if results == [] then 0
    else TokensOf(results[..|results| - 1])
         + match results[|results| - 1].1 { case Answered(reply) => reply.totalTokens case _ => 0 }
  }

  /** Every result is counted once, as a success or as an error, and every cost is charged once. */
  lemma {:induction false} BooksBalance(cfg: Config, results: Results)
    requires InPlan(cfg, results)
    ensures MetricsOf(cfg, results).successes == Answers(results)
    ensures MetricsOf(cfg, results).successes + MetricsOf(cfg, results).errors == |results|
    ensures Consistent(MetricsOf(cfg, results))
    ensures MetricsOf(cfg, results).latencies == LatenciesOf(results)
    ensures MetricsOf(cfg, results).tokens == TokensOf(results)
    ensures LedgerOf(cfg, results).globalSpend == MetricsOf(cfg, results).cost
    ensures Balanced(LedgerOf(cfg, results))
    decreases |results|
  {
    if results == [] {
      NothingConsistent();
    } else {
      var front, last := results[..|results| - 1], results[|results| - 1];
      BooksBalance(cfg, front);
      MetricsStayConsistent(cfg, results);
      if last.1.Answered? {
        RecordKeepsBalance(LedgerOf(cfg, front), cfg.plan[last.0].provider, ActualCost(cfg, last.0, last.1.reply));
      }
    }
  }

  /** The provider and type under which a result counts as an error. */
  function ErrorKey(cfg: Config, t: nat, outcome: Outcome): Option<string>
    requires t < |cfg.plan|
  {
    match outcome
    case Answered(_) => None
    case OverBudget(_) => Some(cfg.plan[t].provider + "." + "budget_exceeded")
    case Failed(kind) => Some(cfg.plan[t].provider + "." + kind)
  }

  function ErrorsUnder(cfg: Config, results: Results, key: string): nat
    requires InPlan(cfg, results)
  {
    if results == [] then 0
    else
      var (t, outcome) := results[|results| - 1];
      ErrorsUnder(cfg, results[..|results| - 1], key) + if ErrorKey(cfg, t, outcome) == Some(key) then 1 else 0
  }

  /** The metrics count the errors of each provider and type. */
  lemma {:induction false} ErrorsByKey(cfg: Config, results: Results, key: string)
    requires InPlan(cfg, results)
    ensures var counts := MetricsOf(cfg, results).providerErrors;
            (if key in counts then counts[key] else 0) == ErrorsUnder(cfg, results, key)
    decreases |results|
  {
    if results != [] {
      ErrorsByKey(cfg, results[..|results| - 1], key);
    }
  }

  ghost predicate DistinctExecutions(cfg: Config) {
    forall t, u :: 0 <= t < u < |cfg.plan| ==> cfg.plan[t].executionId != cfg.plan[u].executionId
  }

  /** Some result is the answer stored under this execution id. */
  ghost predicate AnsweredAs(cfg: Config, results: Results, id: string, reply: Reply)
    requires InPlan(cfg, results)
  {
    exists i :: 0 <= i < |results| && cfg.plan[results[i].0].executionId == id
                && results[i].1 == Answered(reply)
  }

  lemma AnsweredAsStep(cfg: Config, results: Results, id: string, reply: Reply)
    requires InPlan(cfg, results) && results != []
    ensures InPlan(cfg, results[..|results| - 1])
    ensures AnsweredAs(cfg, results, id, reply) <==>
              || AnsweredAs(cfg, results[..|results| - 1], id, reply)
              || (cfg.plan[results[|results| - 1].0].executionId == id
                  && results[|results| - 1].1 == Answered(reply))
  {
    var n := |results| - 1;
    var front := results[..n];
    if AnsweredAs(cfg, results, id, reply) {
      var i :| 0 <= i < |results| && cfg.plan[results[i].0].executionId == id
               && results[i].1 == Answered(reply);
      assert i < n ==> front[i] == results[i];
    }
    if AnsweredAs(cfg, front, id, reply) {
      var i :| 0 <= i < n && cfg.plan[front[i].0].executionId == id && front[i].1 == Answered(reply);
      assert front[i] == results[i];
    }
  }

  lemma NotStoredBefore(cfg: Config, results: Results, reply: Reply)
    requires InPlan(cfg, results) && results != [] && DistinctTasks(results) && DistinctExecutions(cfg)
    ensures InPlan(cfg, results[..|results| - 1])
    ensures !AnsweredAs(cfg, results[..|results| - 1], cfg.plan[results[|results| - 1].0].executionId, reply)
  {
    var n := |results| - 1;
    forall i | 0 <= i < n ensures cfg.plan[results[i].0].executionId != cfg.plan[results[n].0].executionId {
      assert results[i].0 != results[n].0;
    }
  }

  /** The store holds exactly the answers, each under the id of its execution. */
  lemma {:induction false} StoreHoldsAnswers(cfg: Config, results: Results, id: string, reply: Reply)
    requires InPlan(cfg, results) && DistinctTasks(results) && DistinctExecutions(cfg)
    ensures id in StoreOf(cfg, results) && StoreOf(cfg, results)[id] == reply
            <==> AnsweredAs(cfg, results, id, reply)
    decreases |results|
  {
    if results != [] {
      var front := results[..|results| - 1];
      StoreHoldsAnswers(cfg, front, id, reply);
      AnsweredAsStep(cfg, results, id, reply);
      NotStoredBefore(cfg, results, reply);
    }
  }

  lemma {:induction false} StoreSize(cfg: Config, results: Results)
    requires InPlan(cfg, results) && DistinctTasks(results) && DistinctExecutions(cfg)
    ensures |StoreOf(cfg, results)| == Answers(results)
    decreases |results|
  {
    if results != [] {
      var front := results[..|results| - 1];
      var (t, outcome) := results[|results| - 1];
      StoreSize(cfg, front);
      if outcome.Answered? {
        var id := cfg.plan[t].executionId;
        if id in StoreOf(cfg, front) {
          StoreHoldsAnswers(cfg, front, id, StoreOf(cfg, front)[id]);
          NotStoredBefore(cfg, results, StoreOf(cfg, front)[id]);
        }
        StoreGrows(StoreOf(cfg, front), id, outcome.reply);
      }
    }
  }

  lemma StoreGrows(store: map<string, Reply>, id: string, reply: Reply)
    requires id !in store
    ensures |store[id := reply]| == |store| + 1
  {
    assert store[id := reply].Keys == store.Keys + {id};
  }

  ghost predicate Completed(cfg: Config, s: State) {
    |s.phases| == |cfg.plan| && forall t :: 0 <= t < |s.phases| ==> s.phases[t].Finished?
  }

  lemma {:induction false} UpTo(tasks: seq<nat>, n: nat)
    requires NoDuplicates(tasks)
    requires forall t :: t in tasks <==> 0 <= t < n
    ensures |tasks| == n
    decreases n
  {
    assert tasks == [] || tasks[0] in tasks;
    if n > 0 {
      assert n - 1 in tasks;
      var i :| 0 <= i < |tasks| && tasks[i] == n - 1;
      var rest := tasks[..i] + tasks[i + 1..];
      forall t ensures t in rest <==> 0 <= t < n - 1 {
        if t in rest {
          var j :| 0 <= j < |rest| && rest[j] == t;
          assert rest[j] == tasks[if j < i then j else j + 1];
          assert t in tasks;
        }
        if 0 <= t < n - 1 {
          assert t in tasks;
          var j :| 0 <= j < |tasks| && tasks[j] == t;
          assert rest[if j < i then j else j - 1] == t;
        }
      }
      UpTo(rest, n - 1);
    }
  }

  lemma CompletedHasAll(cfg: Config, s: State)
    requires BooksInv(cfg, s) && Completed(cfg, s)
    ensures |s.results| == |cfg.plan|
  {
    var tasks := seq(|s.results|, i requires 0 <= i < |s.results| => s.results[i].0);
    forall t ensures t in tasks <==> 0 <= t < |cfg.plan| {
      if 0 <= t < |cfg.plan| {
        assert HasResult(s.results, t);
        var i :| 0 <= i < |s.results| && s.results[i].0 == t;
        assert tasks[i] == t;
      }
    }
    UpTo(tasks, |cfg.plan|);
  }

  /**
   A completed dispatch has one result per plan item; successes and errors sum to the plan
   size; the spend is the same in the ledger, over its providers and in the metrics; and the
   store has one response per success.
   */
  lemma CompletedDispatchConserves(cfg: Config, steps: seq<Step>)
    requires ValidConfig(cfg) && Legal(cfg, steps) && Completed(cfg, After(cfg, steps))
    ensures var s := After(cfg, steps);
            && DistinctTasks(s.results) && |s.results| == |cfg.plan|
            && (forall t :: 0 <= t < |cfg.plan| ==> HasResult(s.results, t))
            && s.metrics.successes == Answers(s.results)
            && s.metrics.successes + s.metrics.errors == |cfg.plan| && Consistent(s.metrics)
            && s.ledger.globalSpend == TotalOf(s.ledger.providerSpend) == s.metrics.cost
            && (DistinctExecutions(cfg) ==> |s.store| == s.metrics.successes)
  {
    var s := After(cfg, steps);
    BooksAgree(cfg, steps);
    BooksBalance(cfg, s.results);
    CompletedHasAll(cfg, s);
    if DistinctExecutions(cfg) {
      StoreSize(cfg, s.results);
    }
  }

  // ---------------------------------------------------------------------------
  // The summary of a run
  // ---------------------------------------------------------------------------

  datatype Summary = Summary(totalExecutions: nat, passed: nat, failed: nat, errored: nat, withErrors: bool)

  function CountStatus(verdicts: seq<V.Status>, status: V.Status): nat {
    if verdicts == [] then 0
    else CountStatus(verdicts[..|verdicts| - 1], status) + if verdicts[|verdicts| - 1] == status then 1 else 0
  }

  /** The verdicts of the answered results, in order. */
  function Verdicts(results: Results, decide: (nat, Reply) -> V.Status): seq<V.Status> {
    if results == [] then []
    else
      var (t, outcome) := results[|results| - 1];
      Verdicts(results[..|results| - 1], decide)
      + match outcome { case Answered(reply) => [decide(t, reply)] case _ => [] }
  }

  lemma {:induction false} StatusesPartition(verdicts: seq<V.Status>)
    ensures CountStatus(verdicts, V.PASS) + CountStatus(verdicts, V.WARN) + CountStatus(verdicts, V.FAIL)
            + CountStatus(verdicts, V.INCONCLUSIVE) == |verdicts|
  {
    if verdicts != [] {
      StatusesPartition(verdicts[..|verdicts| - 1]);
    }
  }

  /** Decides a verdict for every answer and counts; verdicts and errors together are all results. */
  method Summarize(results: Results, decide: (nat, Reply) -> V.Status)
    returns (verdicts: seq<V.Status>, summary: Summary)
    ensures verdicts == Verdicts(results, decide)
    ensures |verdicts| + summary.errored == summary.totalExecutions == |results|
    ensures summary.errored == |results| - Answers(results)
    ensures summary.passed == CountStatus(verdicts, V.PASS) && summary.failed == CountStatus(verdicts, V.FAIL)
    ensures summary.passed + summary.failed + summary.errored <= summary.totalExecutions
    ensures summary.withErrors <==> exists i :: 0 <= i < |results| && !results[i].1.Answered?
  {
    verdicts := [];
    var errored := 0;
    var i := 0;
    while i < |results|
      invariant 0 <= i <= |results|
      invariant verdicts == Verdicts(results[..i], decide)
      invariant |verdicts| == Answers(results[..i]) && |verdicts| + errored == i
      invariant errored > 0 <==> exists k :: 0 <= k < i && !results[k].1.Answered?
    {
      assert results[..i + 1][..i] == results[..i];
      if results[i].1.Answered? {
        verdicts := verdicts + [decide(results[i].0, results[i].1.reply)];
      } else {
        errored := errored + 1;
      }
      i := i + 1;
    }
    assert results[..|results|] == results;
    var passed, failed := 0, 0;
    var k := 0;
    while k < |verdicts|
      invariant 0 <= k <= |verdicts|
      invariant passed == CountStatus(verdicts[..k], V.PASS) && failed == CountStatus(verdicts[..k], V.FAIL)
    {
      assert verdicts[..k + 1][..k] == verdicts[..k];
      if verdicts[k] == V.PASS {
        passed := passed + 1;
      }
      if verdicts[k] == V.FAIL {
        failed := failed + 1;
      }
      k := k + 1;
    }
    assert verdicts[..|verdicts|] == verdicts;
    StatusesPartition(verdicts);
    summary := Summary(|results|, passed, failed, errored, errored > 0);
  }
}
