# A verified model of the evaluation harness's core

The harness sends adversarial test cases to model providers, judges the answers and keeps a
tamper-evident log of every decision. This project models the parts of it whose behaviour is
hard to see by reading, and proves what they promise, for every input, every run and every
interleaving:

- the **decision provenance log**: the canonical JSON printer written out and undone by a
  parser, digests and signatures, the full validation of a chain, the SQLite table as a class,
  and any number of connections appending at once;
- the **dispatch engine**: token buckets, retry loops, budget guard and result accounting, as a
  step relation over the stretches between `await` points;
- the **redactor**: a backtracking matcher for the six shipped patterns and the proof that the
  output of the ordered rewrites is clean;
- the **aggregation arithmetic**: verdicts, judge ensembles, bootstrap intervals, pricing, and
  the strict parser of judge answers.

`dafny verify dfyconfig.toml` checks everything.

## Layout

| module | part of the harness |
|---|---|
| `CanonicalJson`, `CanonicalText`, `DecisionProvenance` | records, canonical text, chains |
| `ProvenanceStore`, `ConcurrentAppend` | the append-only table, alone and shared |
| `Patterns`, `PatternWords`, `SecretRedactor`, `RedactionTrace` | the regex fragment, the shipped patterns, the redactor |
| `RateLimiter`, `CostEstimator`, `CostGuard`, `RunMetrics`, `Retry` | what a dispatch is made of |
| `Dispatch`, `DispatchLimits`, `DispatchRetries`, `DispatchBudget`, `DispatchCaps`, `DispatchAccounting`, `DispatchAdmission` | the dispatch itself: steps, throughput and progress, attempts, money, books, who is let through |
| `VerdictEngine`, `ContextIsolation`, `ToolUseBoundaries`, `Ensemble`, `Statistics`, `EvaluationIntegrity` | judging |
| `Wrappers`, `Reals`, `Rounding`, `Sums`, `Sorting`, `Ranks` | shared vocabulary |

Floats are `real`; `round(x, n)` is rounding half to even at a decimal place; `int(x)` truncates
towards zero; list indices may be negative as in Python. SHA-256, HMAC, Ed25519, the JSON
decoder, the random generator, the clock, `str.lower` and `str.casefold` are parameters. A
result that needs a property of one of them has it as a hypothesis; where collision freedom of
the hash would be needed, the result instead exhibits the two colliding texts.

## Where the code does less than it says

- `runner/cost_guard.py:4-6` says there is no overspend. A request is checked against what has
  been spent, not against what is in flight. `OverspendNeedsSecondPermit` shows that the claim
  holds exactly for one permit when no request costs more than its estimate; `BudgetBound` is the
  bound that always holds and `ReachIsReached` shows that it cannot be improved. Plan by plan,
  `SeveralPermitsKeepCaps` says which keep within any caps with several permits.
- `adapters/cost_estimator.py:107-108` rounds to six decimals and `:73-74` to eight, so a reply
  within the assumed sizes can cost more than its estimate. `EstimateCovers` says for which
  prices and output limits that never happens, and `OnePermitKeepsCaps` what it means for the
  caps: with one permit a plan keeps within them exactly when that is so of each of its requests.
- The rate limiter bounds launches, not calls: a retry of the adapter takes no token. The bucket's
  bound holds of the calls in every run exactly when one attempt is allowed
  (`BucketBoundsSingleAttempts`), while `config/retry.yaml:30` allows two; `AttemptsPerWindow` is
  the bound for any number.
- `config/scoring.yaml:137-140` says any failure in a blocking category fails the verdict. The
  engine remembers the *name* of the first failed metric and tests it for truth, so a failed
  score without a name is overlooked and hides those behind it. `BlockingFailureFails` gives the
  exact condition; `MonotoneUnlessHidden` and `OrderFreeUnlessMixed` say exactly when the status
  still improves with the scores and does not depend on their order.
- `categories/tool_use_boundaries/evaluator.py:38` emits 1.0 for good behaviour on a metric that
  `config/scoring.yaml:37-40` inverts. `CompliantStatus` says what that does to a fully compliant
  response: FAIL, WARN or PASS by the number of forbidden phrases configured.
- Redaction rewrites values, never keys. `SilentIffKeysClean` says when that leaves nothing secret:
  exactly when no key outside masked values held anything secret.
- Scaling all judge weights can change an ensemble's verdict when some judges have weights and
  others the default. `ScaleFreeIff` says exactly which panels are free of that.

## Model

Theorems first, by component, the operations proved against their specifications last.

| member | source | states |
|---|---|---|
| `ConcurrentAppend.Serializable` | security/provenance_store.py:91-163 | the table after any interleaving is that of a sequential run of the committed appends in commit order, none lost and none refused |
| `ConcurrentAppend.InterleavedStreamVerifies` | security/provenance_store.py:91-163 | after any interleaving, a stream whose commits used one key passes full validation |
| `ConcurrentAppend.StaleSessionNeverInserts` | security/provenance_store.py:117-163 | a connection whose head is out of date cannot insert after any legal continuation by the others, however long |
| `ConcurrentAppend.StaleHeadCollides` | security/provenance_store.py:91-163 | an insert that fits a head which is no longer current violates the primary key |
| `ConcurrentAppend.InsertSeesCurrentHead` | security/provenance_store.py:117-161 | whoever is able to insert has read the head that is still current, and a sequential append would succeed |
| `ConcurrentAppend.InsertIffCurrent` | security/provenance_store.py:91-159 | a connection that has read a head can insert if and only if nobody is about to commit, the head is still current, its record carries the stream on, its decision is new and its number fits the column |
| `ConcurrentAppend.UndisturbedAppend` | security/provenance_store.py:76-171 | an undisturbed connection can go from open to commit if and only if a sequential append would succeed, and with the same effect |
| `ConcurrentAppend.CommitIsAppend` | security/provenance_store.py:91-163 | a commit has exactly the effect of one sequential append at that moment |
| `ConcurrentAppend.CommitMakesStale` | security/provenance_store.py:91-163 | a commit puts every other reader of that stream out of date, so of several racing appenders one wins |
| `ConcurrentAppend.HeadIsReadable` | security/provenance_store.py:91-104 | an open transaction can always read the head, and sees the committed one |
| `ConcurrentAppend.RollbackUndoes` | security/provenance_store.py:162-171 | an open transaction can always be rolled back, which leaves rows and lock as without it |
| `ProvenanceStore.AppendRefinesValidation` | security/provenance_store.py:86-163 | append, which looks only at the head, succeeds exactly when full validation accepts the stream plus the record, its decision is new in the whole table and its number fits the column |
| `ProvenanceStore.RunVerifies` | security/provenance_store.py:237-246 | after any run, a non-empty stream that was only attempted with one key passes full validation under it, whatever happened to other streams |
| `ProvenanceStore.StoredIsSigned` | security/provenance_store.py:76-171 | after any run, every record of a stream only attempted with one key has a sound digest signed with that key |
| `ProvenanceStore.UnsignedIsRefused` | security/provenance_store.py:86-87 | a record not signed with the key it is presented under is not stored, and part of no chain that is valid under that key |
| `ProvenanceStore.AppendRefusalIsExplained` | security/provenance_store.py:106-169 | the reason an append gives for failing is true of the record and the table |
| `ProvenanceStore.RunKeepsInv` | security/provenance_store.py:76-171 | after any sequence of attempts, failed ones included, the table is sound, and it only ever grows at the end |
| `ProvenanceStore.AppendEffect` | security/provenance_store.py:117-163 | a successful append adds the record at the end of its own stream, leaves every other stream as it was and every stream linked |
| `ProvenanceStore.RowRoundTrip` | security/provenance_store.py:128-158 | a record stored as a row and read back is the same record, and the payload column parses to the payload with sorted keys |
| `ProvenanceStore.PayloadMatchesColumns` | security/provenance_store.py:124-158 | the stored payload has sixteen fields, keys in order, and each says what the column of its name says |
| `DecisionProvenance.HeadPinsHistory` | security/decision_provenance.py:314-336 | two valid chains, under any two keys, with the same last digest have the same length and the same content at every position, or two of their records collide under the hash |
| `DecisionProvenance.VerifiedIffSigned` | security/decision_provenance.py:243-295 | a record is accepted under a key if and only if its versions are supported, it holds no secret, its digest is that of its text, and its signature is the HMAC of the digest under that key of at least 32 bytes, or one that verifies under the given or loaded Ed25519 key |
| `DecisionProvenance.ValidChainIsSigned` | security/decision_provenance.py:301-336 | every record of a valid chain is signed with the key, has the next number and a new decision, and refers back to GENESIS or to the record before it |
| `DecisionProvenance.RefusalIsExplained` | security/decision_provenance.py:243-295 | the reason given for refusing a record is true of it |
| `DecisionProvenance.TextDeterminesContent` | security/decision_provenance.py:223-241 | two records have the same canonical text if and only if they agree in every hashed field |
| `DecisionProvenance.TamperingIsDetected` | security/decision_provenance.py:257-295 | changing any hashed field of a verified record but not its digest makes it unverifiable under every key, or exhibits a hash collision |
| `DecisionProvenance.CreatedRecordVerifies` | security/decision_provenance.py:79-148 | creation with an HMAC key succeeds exactly on a long enough key, a positive sequence number and a secret-free payload, and what it creates verifies under that key |
| `DecisionProvenance.CreatedEd25519Verifies` | security/decision_provenance.py:150-221 | creation with an Ed25519 key succeeds exactly on a positive sequence number and a secret-free payload, and what it creates verifies under the public key, given only that signatures of a key verify under its public key |
| `DecisionProvenance.MadeRecords` | security/decision_provenance.py:79-221 | a created record carries every argument in its own field, a sound digest, and the HMAC or Ed25519 signature of that digest |
| `DecisionProvenance.SanitizeDecidesSecretFree` | security/decision_provenance.py:46-55 | sanitising returns a payload unchanged or refuses it, and refuses exactly when some string at some depth holds a secret marker |
| `PatternWords.SecretsAre` | security/decision_provenance.py:34 | a string counts as secret if and only if some part of it, ignoring case, is sk- and twenty alphanumerics, or bearer, white space and a token, or api-key, a colon and a key, white space allowed around the colon |
| `DecisionProvenance.VerifiedDigest` | security/decision_provenance.py:243-295 | a verified record carries the hash of its own canonical text, the supported versions and no secret |
| `CanonicalJson.ValueRoundTrip` | security/decision_provenance.py:41-43 | parsing the printed text of any value gives the value and leaves exactly what followed it |
| `CanonicalJson.DumpsDecidesEquality` | security/decision_provenance.py:41-43 | two values have the same canonical text if and only if they are the same JSON value but for the order of members, so insertion order never shows and no two different payloads share a text |
| `CanonicalJson.DumpsAndPythonEquality` | security/decision_provenance.py:41-43 | compared with Python, where `True == 1`: same text if and only if equal in Python and nowhere a truth value against a number |
| `CanonicalJson.DumpsRecovered` | security/decision_provenance.py:41-43 | the canonical text parses to the value with sorted keys, the same value as the original but for order |
| `CanonicalText.CanonicalIsShortest` | security/decision_provenance.py:43 | no separators a text can be read back with print a value in fewer characters than the canonical text |
| `CanonicalText.EscapeIsShortest` | security/decision_provenance.py:43 | no printable ASCII text that reads as a character is shorter than its escape |
| `CanonicalText.KeyOrder` | security/decision_provenance.py:43 | a key stands before another if and only if it is a prefix of it or smaller at the first code point in which they differ |
| `CanonicalText.HashedSample` | security/decision_provenance.py:41-43 | the canonical text of a nested value with unsorted keys, a list and both kinds of escape, in full |
| `CanonicalText.StoredSample` | security/provenance_store.py:125 | the text of the same value as it is stored, with a blank after each comma and colon |
| `CanonicalText.AtomTexts` | security/decision_provenance.py:43 | the texts of null, truth values, numbers of either sign and empty containers |
| `CanonicalJson.NormalizedKeysInOrder` | security/decision_provenance.py:41-43 | at every depth the keys are printed in code point order |
| `CanonicalJson.PrintAscii` | security/decision_provenance.py:41-43 | the text is printable ASCII only, so its UTF-8 bytes are its characters |
| `CanonicalJson.EscapeCharRoundTrip` | security/decision_provenance.py:41-43 | every character, astral ones as surrogate pairs included, is read back from its escape, whatever follows |
| `DispatchRetries.BucketBoundsSingleAttempts` | adapters/base_adapter.py:103-168 | whatever the delays, the timeout and the permits: in every run and window the calls made to a provider, retries included, are at most rpm + (rpm/60)·length if and only if at most one attempt is allowed |
| `DispatchRetries.AttemptsPerWindow` | adapters/base_adapter.py:103-168 | with m attempts allowed, calls in a window are at most m·(rpm + (rpm/60)·(length + L)), L being m − 1 times the timeout, the longest delay and twice the lateness of the event loop |
| `DispatchRetries.ResultsAreTheLoops` | adapters/base_adapter.py:100-171 | however tasks interleave, a recorded result is over budget without any attempt, or exactly what the retry loop run alone on the attempts of that task returns or raises, after as many attempts |
| `DispatchAdmission.AdmissionIsExact` | runner/runner.py:201-205 | in every reachable state, a task that gets a token with an attempt allowed is in flight if and only if what was paid plus its estimate fits the global cap less the reserve and the cap of its provider, if that has one; otherwise it ends over the provider's cap or else the global one |
| `DispatchAdmission.OverBudgetIffRefused` | runner/runner.py:219-222 | over any run, a task is recorded over a budget if and only if at some step it had its token and that cap was exceeded with its estimate, the provider's being looked at first |
| `DispatchAdmission.TokenIsDue` | runner/runner.py:201 | a task without a token can come back if and only if one has accrued by then, and nothing is recorded meanwhile |
| `DispatchAdmission.AttemptIsDue` | adapters/base_adapter.py:159-168 | after a transient failure with attempts left, the next attempt can be made exactly from min(base·backoff^(a−1), max) plus jitter later |
| `DispatchRetries.AttemptsPerLaunch` | runner/runner.py:201-205 | attempts made in a window, and those still to come in it, are covered by the launches in the window or up to L before |
| `DispatchRetries.ClashHappens` | adapters/base_adapter.py:159-168 | the run that breaks the bucket bound: a second attempt meets a fresh launch where the bucket grants one request |
| `DispatchLimits.LaunchesPerWindow` | runner/runner.py:194-205 | in every interleaving, requests launched at a provider in any window are at most rpm + (rpm/60)·length |
| `DispatchLimits.RunsAreBounded` | runner/runner.py:194-236 | every run ends within n·(n + 2m + 1) steps, attempts and sleeps between them included |
| `DispatchLimits.StepsPerTask` | runner/runner.py:194-236 | no task takes more than n + 2 steps for a plan of n items, and 2m − 1 for its m attempts |
| `DispatchLimits.NeverStuck` | runner/runner.py:194-236 | while a task is unfinished some step is possible, so `gather` returns |
| `DispatchLimits.MovesOfTask` | runner/runner.py:194-236 | a queued task can enter exactly while a permit is free, a waiting one move on exactly from its time to wake, and an attempt end in any way at any time |
| `DispatchLimits.LimitersInOrder` | runner/runner.py:194-205 | in every interleaving the passes over each bucket are in time order and no task comes back before its sleep is over |
| `DispatchBudget.BudgetBound` | runner/cost_guard.py:46-74 | with k permits, estimates up to M and overruns up to s, spend plus in-flight exposure is at most cap + s + (k−1)(M + s), globally and per provider |
| `DispatchBudget.ReachIsReached` | runner/cost_guard.py:46-74 | for every number of permits, and for the global cap as for a provider's, a run without overruns spends exactly cap + (k−1)·M |
| `DispatchBudget.OverspendNeedsSecondPermit` | runner/cost_guard.py:4-6 | for either kind of cap, a run that exceeds it although no request exceeds its estimate exists if and only if there are at least two permits |
| `DispatchBudget.OnePermitKeepsCaps` | runner/cost_guard.py:4-6 | with one permit and replies within the assumed sizes, a plan keeps within any caps if and only if no estimate of it loses anything to rounding |
| `DispatchCaps.SeveralPermitsKeepCaps` | runner/cost_guard.py:4-6 | with two or more permits and without overruns, a plan whose estimates can be met exactly keeps within any caps if and only if at most one of its requests can cost anything |
| `DispatchCaps.OnePayerKeepsCaps` | runner/cost_guard.py:46-74 | for any number of permits and any plan, if at most one request can cost anything within its estimate no caps are ever exceeded without overruns |
| `DispatchCaps.TwoPayersExceed` | runner/cost_guard.py:46-74 | two requests that together can cost more than either is estimated at exceed the cap that fits the larger |
| `DispatchBudget.BudgetBoundForSizes` | runner/runner.py:202-211 | with replies within the assumed sizes, spend is at most cap + s + (k−1)(M + s), s being 0.5e-6 for the rounding of estimates |
| `DispatchBudget.OnePermitNeverOverspends` | runner/cost_guard.py:46-74 | with one permit and no overrun no cap is ever exceeded |
| `DispatchAccounting.CompletedDispatchConserves` | runner/runner.py:192-236 | at the end each plan item has exactly one result, and results, metrics, spends and store all account for it |
| `DispatchAccounting.BooksAgree` | runner/runner.py:192-236 | after any interleaving the store, the ledger and the metrics are what the list of results says, and exactly the finished tasks have a result |
| `DispatchAccounting.BooksBalance` | runner/metrics.py:19-28 | successes are the answers, successes and errors sum to the results, latencies and tokens are those of the answers, the counters are consistent, metrics cost = global spend = sum of provider spends |
| `DispatchAdmission.LedgerIsPaid` | runner/cost_guard.py:71-74 | the ledger holds what the answers cost, in total and for each provider |
| `DispatchAccounting.ErrorsByKey` | runner/runner.py:219-233 | the metrics count the results of each provider and error type, budget_exceeded among them |
| `DispatchAccounting.StoreHoldsAnswers` | runner/runner.py:212-213 | the store holds a reply under an identifier if and only if that execution was answered so |
| `DispatchAccounting.StoreSize` | runner/runner.py:212-213 | there are as many stored responses as answers |
| `Dispatch.PermitsRespected` | runner/runner.py:187-201 | in every interleaving no more tasks than permits are past the semaphore |
| `RateLimiter.WindowBound` | adapters/rate_limiter.py:38-52 | in every history and every window the grants are at most rpm + (rpm/60)·length |
| `RateLimiter.PassesBounded` | adapters/rate_limiter.py:38-61 | with N competing tasks every acquire is through after at most N + 1 passes |
| `RateLimiter.SleepIsLeast` | adapters/rate_limiter.py:53-61 | the computed sleep is the least that suffices: before its end the bucket holds less than a token, then exactly one |
| `RateLimiter.FailuresAreCharged` | adapters/rate_limiter.py:38-61 | the failed passes of a task are at most one more than all grants before its last failure |
| `RateLimiter.OvertakenByGrant` | adapters/rate_limiter.py:38-61 | a task that fails again after its full sleep was overtaken by a grant in between |
| `RateLimiter.TokensInRange` | adapters/rate_limiter.py:38-52 | in every history the tokens stay between 0 and the capacity |
| `RateLimiter.RefillSplits` | adapters/rate_limiter.py:33-46 | refilling at an intermediate time makes no difference |
| `RateLimiter.WindowBoundIsMet` | adapters/rate_limiter.py:38-52 | for every number of grants beyond a full bucket, a history and a window of positive length whose grants equal rpm + (rpm/60)·length |
| `RateLimiter.BurstIsExact` | adapters/rate_limiter.py:30-52 | a fresh bucket grants exactly rpm requests at one instant |
| `Retry.LoopsAgree` | adapters/base_adapter.py:103-171 | the two loops end alike if and only if no attempt made times out |
| `Retry.TotalSleepBound` | runner/retry_manager.py:74-81 | total sleep is at most max_attempts − 1 times max_delay plus the largest jitter, for any signs of either |
| `Retry.DelaysAreGeometric` | adapters/base_adapter.py:159-163 | the first delay is the base delay and each the one before times the backoff, cut off at the maximum |
| `Retry.JitterIsFraction` | adapters/base_adapter.py:163 | the jitter is any fraction of jitter_max, of either sign, and nothing else |
| `Retry.BaseDelayGrows` | adapters/base_adapter.py:159-163 | with backoff at least one, base delays never shrink and never exceed the maximum |
| `SecretRedactor.ShippedRedactionIsClean` | security/secret_redactor.py:74-122 | under the shipped rules, redacting any text leaves it clean |
| `RedactionTrace.ShippedRewriting` | security/secret_redactor.py:74-115 | under the shipped rules, redaction of texts and nested values is the one rewriting in which rule by rule the leftmost longest words give way to the replacement and no other character changes |
| `SecretRedactor.ShippedSilentIffKeysClean` | security/secret_redactor.py:80-115 | under the shipped rules and field names nothing secret is left, keys included, if and only if every key outside masked values was clean before |
| `SecretRedactor.ShippedValuesAreScrubbed` | security/secret_redactor.py:80-115 | under the shipped rules and field names every string of a redacted value is clean, sensitive keys are masked, the shape is kept and a second redaction changes nothing |
| `SecretRedactor.RedactedIsClean` | security/secret_redactor.py:74-122 | for every rule list in a sound order, redacted text is clean of all rules |
| `RedactionTrace.RedactIsRewriting` | security/secret_redactor.py:74-78 | a text is the redaction of another if and only if it comes from it rule by rule by replacing the leftmost longest words and nothing else |
| `RedactionTrace.RedactValueIsRewriting` | security/secret_redactor.py:104-115 | a value is the redaction of another if and only if keys, order, lengths and other scalars agree, sensitive keys hold the mask, and every other string is rewritten like that |
| `RedactionTrace.CutsAreUnique` | security/secret_redactor.py:74-78 | there is only one way to cut a text at leftmost longest words |
| `SecretRedactor.RedactionChangesOnlySecrets` | security/secret_redactor.py:74-78 | redaction changes a text if and only if it is not clean, and a second redaction changes nothing |
| `SecretRedactor.SilentIffKeysClean` | security/secret_redactor.py:104-115 | for every rule list in a sound order: nothing secret is left, keys included, if and only if every key outside masked values was clean before |
| `SecretRedactor.RedactedValueIsScrubbed` | security/secret_redactor.py:80-115 | in a redacted value every string is clean, every sensitive key is masked, and keys, order, lengths and other scalars are kept outside masked values |
| `SecretRedactor.ScrubbedIsFixed` | security/secret_redactor.py:104-115 | a value is left alone by redaction if and only if it is scrubbed |
| `SecretRedactor.SubCreatesNoWord` | security/secret_redactor.py:74-78 | a rewrite whose replacement is harmless to a pattern never creates a match of it, not even across the seams |
| `SecretRedactor.SubIsLeftmostLongest` | security/secret_redactor.py:74-78 | a rewrite replaces the leftmost, longest, non-overlapping matches and keeps every character in between |
| `SecretRedactor.ShippedOrdered` | config/redaction.yaml:26-50 | the six shipped rules are in a sound order |
| `PatternWords.ShippedWords` | config/redaction.yaml:26-50 | the words of the six shipped patterns, character by character |
| `PatternWords.ShippedReplacements` | config/redaction.yaml:26-50 | the texts that take the place of a match |
| `PatternWords.ShippedFieldNames` | config/redaction.yaml:6-22 | the sixteen field names whose values are masked, whatever the case of the key |
| `SecretRedactor.ShippedFindLongest` | config/redaction.yaml:26-50 | the greedy choice of all six shipped patterns never has to be taken back, so their rewrites replace longest matches |
| `SecretRedactor.KeysAreNotRewritten` | security/secret_redactor.py:104-110 | an input on which a secret survives redaction: it stands in a key |
| `Patterns.FoundIffNotClean` | security/secret_redactor.py:117-122 | search finds something exactly when some substring is in the language |
| `Patterns.MatchSound` | security/secret_redactor.py:74-78 | what the greedy backtracking matcher returns is in the language of the pattern |
| `Patterns.MatchComplete` | security/secret_redactor.py:74-78 | wherever any match starts, the matcher finds one |
| `Patterns.MatchLongest` | security/secret_redactor.py:74-78 | for patterns whose greedy choice never has to be taken back, the match found is the longest |
| `VerdictEngine.MonotoneUnlessHidden` | runner/verdict_engine.py:142-185 | no improvement of any score worsens the status if and only if no named failure is hidden behind a nameless one or the mean fails on its own |
| `VerdictEngine.OrderFreeUnlessMixed` | runner/verdict_engine.py:142-185 | the status is the same for every order of the scores if and only if named and nameless failures are not mixed or the mean fails on its own |
| `VerdictEngine.BlockingFailureFails` | runner/verdict_engine.py:142-185 | in a blocking category, scores with any failure are FAIL if and only if the first failed score has a metric name or the mean fails on its own |
| `VerdictEngine.NamedFailureFails` | runner/verdict_engine.py:142-185 | the case of a failed named metric: FAIL if and only if no nameless failure stands first or the mean fails on its own |
| `VerdictEngine.NamedMetricsNeverHidden` | runner/verdict_engine.py:142-179 | if all metrics have names, any failure in a blocking category is FAIL |
| `VerdictEngine.BlockingCategories` | runner/verdict_engine.py:40-43 | an engine without a list of blocking categories has exactly the two default ones |
| `VerdictEngine.OverallMonotone` | runner/verdict_engine.py:105-171 | improving scores in the direction of their metrics never lowers it |
| `VerdictEngine.OverallInUnit` | runner/verdict_engine.py:105-171 | with non-negative weights the overall quality lies in [0, 1], for scores of any size |
| `VerdictEngine.LoneScore` | runner/verdict_engine.py:94-123 | a score on its own: its configured weight or one, and its value, cut off at 0 and 1 and turned round if so configured |
| `VerdictEngine.OverallOfParts` | runner/verdict_engine.py:150-171 | the overall quality of two lists together is the mean of both, weighted with their weights |
| `VerdictEngine.ConfidenceOfParts` | runner/verdict_engine.py:173-176 | the confidence of two lists together is the mean of both, weighted with their lengths |
| `VerdictEngine.StatusByMean` | runner/verdict_engine.py:178-185 | without a blocking failure the status is PASS, WARN or FAIL by the two thresholds, each of them included upwards |
| `VerdictEngine.HiddenFailurePasses` | runner/verdict_engine.py:142-181 | an input on which a failed named metric of a blocking category goes unnoticed: a nameless failure in front of a leak, and the verdict is PASS |
| `VerdictEngine.NamelessFailurePasses` | runner/verdict_engine.py:142-181 | an input on which a failure of a blocking category goes unnoticed with no other failure beside it |
| `ContextIsolation.VerdictOfScores` | categories/context_isolation/evaluator.py:30-85 | PASS exactly when every marker is absent and every phrase present, otherwise FAIL; low confidence exactly without criteria |
| `ContextIsolation.ConfidenceOfScores` | categories/context_isolation/evaluator.py:30-85 | markers count with full confidence, phrases with 0.9, a test case without criteria with one half |
| `ContextIsolation.ShippedScoring` | config/scoring.yaml:74-89 | the shipped weights and directions of the context isolation metrics, and the thresholds, as the engine applies them |
| `ContextIsolation.ContainsIsInfix` | categories/context_isolation/evaluator.py:30-57 | a phrase is found if and only if the text is something, the phrase, and something |
| `ToolUseBoundaries.StatusOfScores` | categories/tool_use_boundaries/evaluator.py:28-72 | the status of every response |
| `ToolUseBoundaries.CompliantStatus` | config/scoring.yaml:35-53 | a compliant response is FAIL, WARN or PASS with no, one or more forbidden phrases configured |
| `ToolUseBoundaries.ShippedScoring` | config/scoring.yaml:35-53 | the shipped weights and directions of the tool use metrics, and the thresholds, as the engine applies them |
| `ToolUseBoundaries.DeniedIsCommonTool` | categories/tool_use_boundaries/evaluator.py:28-38 | a call is unauthorized if and only if some tool is both called and denied |
| `Ensemble.ScaleFreeIff` | evaluators/ensemble.py:58-79 | scaling the weights never changes an outcome of these judges if and only if the strategy does not weigh, or every judge has a weight of its own, or all own weights are zero |
| `Ensemble.OutcomeByVotes` | evaluators/ensemble.py:69-81 | a weighted panel passes if and only if the judges that passed outweigh those that failed, or weigh the same and the mean score reaches one half; any other panel if and only if every judge passed |
| `Ensemble.ScoresAndCamps` | evaluators/ensemble.py:65-66 | the final score times the number of judges is the sum of scores, the agreement ratio times it the larger of the two camps |
| `Ensemble.OutcomeMonotone` | evaluators/ensemble.py:55-81 | flipping judges to pass or raising scores never turns a pass into a fail, ties included |
| `Ensemble.OutcomePermuted` | evaluators/ensemble.py:51-81 | verdict, score and agreement do not depend on the order of the judges |
| `Ensemble.OutcomeScaleFree` | evaluators/ensemble.py:58-79 | scaling weights that cover all judges changes nothing |
| `Ensemble.DisagreementIsIncompleteAgreement` | evaluators/ensemble.py:66-67 | disagreement is reported if and only if the agreement ratio is below one, and it is never below one half |
| `Ensemble.DefaultWeightBreaksScale` | evaluators/ensemble.py:59 | an input on which scaling the weights changes the outcome: one judge weighted, one not |
| `Statistics.IntervalsNested` | analytics/statistics.py:77-94 | with the same draws, the interval of higher confidence contains the other |
| `Statistics.IntervalWithinSample` | analytics/statistics.py:77-94 | mean and interval lie between any bounds of the sample, lower at most upper |
| `Statistics.IntervalCutsTails` | analytics/statistics.py:84-94 | no more than (1 − confidence)/2 of the resample means lie below the lower bound or above the upper one, and at least that share no higher or no lower |
| `Statistics.BoundsCutTails` | analytics/statistics.py:123-129 | any sorted samples, the differences of means among them, have bounds that cut off the tails of that size |
| `Statistics.NoInterval` | analytics/statistics.py:57-88 | no values, or several values and no iteration, are an error |
| `Statistics.IntervalMonotone` | analytics/statistics.py:77-94 | raising sample values never lowers the mean or either end of the interval |
| `Statistics.DeltaIntervalMonotone` | analytics/statistics.py:118-129 | raising the first sample raises the delta interval, raising the second lowers it |
| `Statistics.SummaryIsSound` | analytics/statistics.py:28-46 | mean and median lie between any bounds of the sample, the variance is not negative, order does not matter |
| `Statistics.MedianIsMiddle` | analytics/statistics.py:36 | the median is the middle of any sorted arrangement, or half way between its two middle values |
| `Statistics.VarianceTimesCount` | analytics/statistics.py:37 | the variance times one less than the count is the sum of squares less the count times the squared mean |
| `Statistics.MeanTimesCount` | analytics/statistics.py:35 | the mean times the count is the sum |
| `Statistics.IndicesInRange` | analytics/statistics.py:85-88 | for confidence in [0, 1] both indices are in range and in order |
| `CostEstimator.PricesOfLongestPrefix` | adapters/cost_estimator.py:53-65 | exact match, filter and length sort together price a model by its longest registered prefix, of which there is only one, and at zero without one |
| `CostEstimator.PricesPerMillion` | adapters/cost_estimator.py:66-74 | a million input tokens cost the input price and a million output tokens the output price, nothing without a price, and costs before rounding add up token by token |
| `CostEstimator.EstimateCovers` | adapters/cost_estimator.py:66-108 | the estimate covers every response within the assumed sizes if and only if the second rounding takes nothing off the cost of the largest, a condition on two digits of that cost |
| `CostEstimator.RunEstimateError` | adapters/cost_estimator.py:97-108 | a run estimate is within cases·attempts·0.5e-8 + 0.5e-6 of the exact cost |
| `CostEstimator.ActualNearEstimate` | adapters/cost_estimator.py:66-108 | a request within the assumed sizes costs at most its estimate plus 0.5e-6 |
| `CostEstimator.EstimateMonotone` | adapters/cost_estimator.py:66-74 | more tokens never cost less, rounding included |
| `CostEstimator.EstimateCanRoundAway` | adapters/cost_estimator.py:97-108 | an input on which the estimate does not cover a reply within the assumed sizes: a request estimated at zero that costs 0.4e-6 |
| `CostGuard.RecordKeepsBalance` | runner/cost_guard.py:71-74 | recording keeps the global spend equal to the sum of the provider spends |
| `RunMetrics.Percentiles` | runner/metrics.py:34-44 | both percentiles are recorded latencies, P50 is at most P95, and completion order does not matter |
| `RunMetrics.PercentileRanks` | runner/metrics.py:34-44 | at most half, or 95 in a hundred, of the latencies lie below P50, or P95, and more than that no higher |
| `RunMetrics.RecordingKeepsConsistent` | runner/metrics.py:19-28 | recording keeps one latency per success and the error count equal to the sum over providers and types, and an error adds one under its provider and type alone |
| `EvaluationIntegrity.AcceptedIsDetermined` | evaluators/evaluation_integrity.py:42-45 | an answer has at most one accepted result, its score is in [0, 1] and it passes exactly from 0.8 |
| `EvaluationIntegrity.MembersDecide` | evaluators/evaluation_integrity.py:78-111 | the members are accepted if and only if there are the three fields, version 1.0, a number that is no truth value in [0, 1] and a reason that is not blank and at most 2000 long |
| `EvaluationIntegrity.OuterSpaceIsStripped` | evaluators/evaluation_integrity.py:57-58 | a document has outer white space if and only if some blank beginning or end can be stripped |
| `EvaluationIntegrity.FenceIsThreeBackquotes` | evaluators/evaluation_integrity.py:61-62 | a document has a fence if and only if three backquotes stand in a row somewhere in it |
| `EvaluationIntegrity.OrderOfMembersIsFree` | evaluators/evaluation_integrity.py:64-111 | answers with the same members in another order give the same result |
| `ProvenanceStore.Store.Append` | security/provenance_store.py:76-171 | the transaction commits the specified table or, on any failure, leaves the committed table as it was with a true reason; what is stored is signed with the key |
| `ProvenanceStore.Store.GetStreamHead` | security/provenance_store.py:173-190 | none exactly for an empty stream, otherwise the number of its records and the digest of the last one |
| `ProvenanceStore.Store.GetStreamRecords` | security/provenance_store.py:192-235 | the loop returns the records of the stream in sequence order, which form a linked chain |
| `ProvenanceStore.Store.VerifyStoredStream` | security/provenance_store.py:237-246 | it accepts exactly the streams whose stored records form a valid chain, and gives a true reason otherwise |
| `DecisionProvenance.ValidateChain` | security/decision_provenance.py:301-336 | the loop accepts exactly the valid chains (non-empty, verified, numbered from 1, linked, decisions distinct) and otherwise names the first bad record and what is wrong with it |
| `SecretRedactor.RedactString` | security/secret_redactor.py:74-78 | the loop over the patterns computes the composition of the rewrites in order |
| `SecretRedactor.IsClean` | security/secret_redactor.py:117-122 | the scan is true exactly when no substring matches any pattern |
| `RateLimiter.Bucket.TryAcquire` | adapters/rate_limiter.py:40-57 | one locked pass updates the fields as specified and either grants or says how long to sleep |
| `RateLimiter.Bucket.Acquire` | adapters/rate_limiter.py:38-61 | a task alone is through at once if a token is there, otherwise after one sleep that lasts until the moment a whole token has accrued, plus its lateness |
| `Retry.Generate` | adapters/base_adapter.py:93-171 | the adapter's loop ends with the first decisive attempt or the last retryable error, timeouts included, and sleeps once between attempts, exactly the base delay of the attempt plus the jitter drawn |
| `Retry.Execute` | runner/retry_manager.py:56-84 | the retry manager's loop ends with the first decisive attempt, a timeout among them, or the last retryable error, and sleeps once between attempts, exactly the base delay of the attempt plus the jitter drawn |
| `CostGuard.CostGuard.Check` | runner/cost_guard.py:42-69 | a request is refused for its provider's cap if and only if spend plus estimate exceeds that, and otherwise for the global one if and only if it exceeds the cap less the reserve |
| `CostGuard.CostGuard.Record` | runner/cost_guard.py:71-74 | the total and the spend of the provider grow by the actual cost, other providers stay as they were, and the total stays the sum |
| `RunMetrics.RunMetrics.Success` | runner/metrics.py:19-23 | one more success with its latency, tokens and cost; the counters stay consistent with each other |
| `RunMetrics.RunMetrics.Error` | runner/metrics.py:25-28 | one more error under its provider and type; the error count stays the sum over them |
| `DispatchAccounting.Summarize` | runner/runner.py:239-265 | the counting loops: verdicts plus errored equal total executions, and the run has errors exactly when some result is an exception |
| `VerdictEngine.Decide` | runner/verdict_engine.py:125-207 | the loops compute the specified status, mean confidence, review flag and blocking metric; no scores are inconclusive |
| `ContextIsolation.Evaluate` | categories/context_isolation/evaluator.py:13-87 | the loops produce the scores of all markers, then all phrases, or the single low-confidence score |
| `ContextIsolation.EvaluateAndDecide` | runner/verdict_engine.py:144-187 | end to end from response to verdict: status, review, execution and whether a metric blocked |
| `ToolUseBoundaries.Evaluate` | categories/tool_use_boundaries/evaluator.py:20-74 | one score for the denied calls and one per forbidden phrase |
| `ToolUseBoundaries.EvaluateAndDecide` | runner/verdict_engine.py:144-187 | end to end from response to verdict |
| `Ensemble.Consolidate` | evaluators/ensemble.py:30-96 | the loops compute the specified verdict; a negative weight is refused by name, an empty panel fails closed or is refused as configured |
| `Statistics.BootstrapCi` | analytics/statistics.py:48-99 | the loops compute the order statistics of the resample means, or the error, for any input |
| `Statistics.PairwiseDeltaCi` | analytics/statistics.py:101-129 | the loops compute the difference of means and the order statistics of the resampled differences, or the error, for any input |
| `EvaluationIntegrity.ParseEvaluatorResult` | evaluators/evaluation_integrity.py:48-111 | the parser returns exactly the results the contract of judge answers accepts, and refuses, for a reason that is true, when there is none |
| `EvaluationIntegrity.RejectDuplicateKeys` | evaluators/evaluation_integrity.py:23-29 | the fold succeeds exactly when all names are pairwise distinct and otherwise names a repeated one |
| `EvaluationIntegrity.CheckDuplicates` | evaluators/evaluation_integrity.py:64-67 | as the decoder's hook it refuses duplicates at every depth |

## Left out

- Floats are reals: rounding error, NaN and infinities are not modelled, except that a judge's score may overflow to infinity.
- Floats inside canonical JSON, and Python's limit on the digits of an integer turned to text. Provenance payloads hold strings and integers.
- Strings with lone surrogates, on which the printer is not injective; Dafny characters exclude them.
- The internals of SHA-256, HMAC, Ed25519, SQLite, the JSON decoder and the random generator; timestamps and clocks are parameters.
- SQLite's locking and I/O errors. Only constraints and transactions are modelled; the concurrent model lets connections read where SQLite would make them wait, and lets any transaction be rolled back at any time.
- The dispatch and the concurrent connections are step relations on values, not heap objects with locks: a pass over a bucket under its lock is one step, and so is the stretch from a reply to the metrics, in which the response store is assumed not to raise.
- The order in which asyncio serves waiters: the model allows every order, so its results hold of that one.
- What a provider charges for an attempt that timed out or failed: the guard records the cost of answers only, and so does the model.
- How late the event loop may resume a task or end an attempt that timed out, which nothing in the source bounds: `AttemptsPerWindow` holds for any bound, taken as a hypothesis.
- A negative `max_attempts`, which behaves as zero.
- `std_dev` as the square root of the variance, the warning strings, and the texts of exceptions.
- Severity and review notes of a verdict, and metadata of an ensemble verdict other than the weights.
- Containers other than dictionaries and lists, such as tuples: the redactor returns them unchanged, secrets included, while the values modelled are JSON.
- SeveralPermitsKeepCaps: speaks of plans each of whose estimates some reply meets exactly; for other plans, where the order of payments matters, only `OnePayerKeepsCaps` and `TwoPayersExceed` are stated.
- `redact_json`, loading of the YAML files, and the forbidden output fields.
- Provider adapters, CLI, exporter, database persistence, telemetry, object authorization, replay, plugins: plumbing, or settled by reading a few branches.
- The release gate `assert_decision_provenance_gate`: fixed examples.
