# Gateway admission and dispatch

A Dafny model of how the LLM gateway decides whether a request may proceed and how it then dispatches it: rate limits,
concurrency permits, policies, authentication, caches, and routing with retries. These parts share counters in Redis,
rows in PostgreSQL and in-process caches, so what they promise holds over whole runs, not over one call. Each shared
protocol is therefore a step machine (`Step`, `Run`) whose invariant is proved for every run, and each object of the
original that changes its state is a class whose methods are proved against the same step functions.

| file | models |
|---|---|
| `SlidingBound`, `SlidingWindow`, `TwoLevelLimit` | window counters with expiry, the weighted test, account and global limits with rollback |
| `Concurrency` | the acquire script and permits that are released, dropped, cancelled, lost or leaked |
| `PolicyMerge`, `PolicyDecision`, `PolicyAdmin`, `Validation` | merging policies, deciding a request, the admin handlers and the policy cache |
| `Backoff`, `Dispatch`, `RouteDirectory` | backoff arithmetic, plan, retry and fallback, route table, query and cache |
| `KeyRecord`, `KeyStaleness`, `Lifecycle` | key lookup through two cache tiers, revocation, tenants and accounts |
| `CacheStaleness`, `SharedCaches` | time-to-live caches of many instances over one database, for routes and policies |
| `NonceGuard` | timestamps and nonces |
| `Pagination` | keyset pages and walks over a changing table |
| `Wrappers`, `Redis`, `Counting`, `Arithmetic` | shared definitions |

How to read the model:

- The clock, the random draw, the provider's answers, the database's row order, and whether Redis can be reached or its
  reply arrives are parameters, universally quantified in every result.
- A rate-limit check has two times: the gateway's clock, which picks the windows, and the instant Redis runs the script,
  which drives expiry. The clock is read before waiting for a connection, so a script may run late. What matters is
  expiry: reads are true exactly when no script finds a counter of its own expired (`ReadsTrueIff`). A timely run, where
  both times fall in one window and Redis time does not go backwards, always qualifies; the bounds only need expiry not
  to happen and, for spans, the windows of a prefix to come in order.
- `f64` weights are exact over `real`. The cast to `u32` saturates, so a limit of 2^32 - 1 admits everything; the
  bounds exclude that one value.
- Cache agreement is proved with one step per handler on one instance. Staleness across instances is proved with every
  read and write of a lookup as its own step, for keys (`KeyStaleness`) and for routes and policies (`SharedCaches`).
- Window lengths are positive: the original divides by them.

Where the code and its own words differ, the model follows the code:

- `rate_limit.rs` introduces the evaluator as checking global, then account; it checks the account first.
- "Most restrictive wins" fails when the allowlists of an account's policies share no pattern: their empty intersection
  reads as "no restriction". `MostRestrictiveIff` gives the exact condition and `DisjointExample` a case.
- `policies.rs` and the delete handler document a conflict for a policy that still has bindings; the schema cascades, so
  the bindings go with it.
- A late script can find a counter expired and read too little (`LateScriptMissesPrevious`); `ReadsTrueIff` and, for the
  account check, `ArriveExactIff` are the conditions.
- The concurrency key lives 120 seconds after its last acquire. The counter is outstanding plus leaked permits if and only
  if the key has not expired under a permit (`AcquireExactIffFresh`, `LandExactIffFresh`, and `LongHoldExceedsLimit` for a
  case).
- So the limit itself can be exceeded after an expiry: an acquire keeps to it if and only if the key has not expired under
  a permit, or the outstanding permits leave room for one more (`WithinLimitIff`).
- The same TTL is described as reclaiming leaked slots. Refused acquires renew it too, so a leaked slot comes back if and
  only if no acquire, granted or refused, is made for 120 seconds (`ReclaimedIffGap`, `BusyNeverReclaims`, and
  `LeakOutlivesTtl` for a case).
- A rollback aims at the window of its own clock, not of the hit it undoes; `RollbackExactIff` is the condition and
  `LateRollbackMiscounts` a case. The counter it leaves behind is said to expire; it has no TTL, and while it stays below
  zero the limiter is unavailable to the account for the whole of the next window (`StuckCounterRefusesAll`,
  `LateRollbackSticks`).
- A nonce is kept for the skew after its acceptance, a timestamp is honoured for the skew after its own time, and the clock
  is read before the key, the account and Redis are waited for. With waits of up to d seconds one request can be accepted
  twice if and only if its first acceptance came at most d seconds after its stamp (`AcceptedAgainIff`; cases in
  `FutureStampAcceptedTwice` and, for a stamp in the past, `DelayedStampAcceptedTwice`).
- Allowlists are intersected as sets of patterns, not of models: two lists that both match a model may merge to one that
  does not (`OverlapExample`). `AcceptsIff` is the exact decision.

## Model

| member | source | states |
|---|---|---|
| `SlidingWindow.WeightedTest` | gateway/crates/gateway/src/policy/rate_limit.rs:56-94 | The rounded weighted count is within the limit exactly when cur\*W + prev\*(W - e) <= limit\*W |
| `SlidingWindow.BuildCheckResult` | gateway/crates/gateway/src/policy/rate_limit.rs:70-94 | Admission is that inequality (or the saturating limit); a refusal leaves nothing remaining; `reset_at` is the first instant of the next window |
| `SlidingWindow.RemainingIsSlack` | gateway/crates/gateway/src/policy/rate_limit.rs:83-84 | `remaining` is exactly how many more hits in the same second would still be admitted |
| `SlidingWindow.SlidingWindowLimiter.CheckAndIncrement` | gateway/crates/gateway/src/policy/rate_limit.rs:135-170 | One atomic script run on the counters, expiry included, or an error that leaves them alone when Redis is out of reach |
| `SlidingWindow.CheckedDecides` | gateway/crates/gateway/src/policy/rate_limit.rs:135-170 | With both counters alive a call answers, and admits if and only if the checks of its window, its own included, and those of the window before fit the limit |
| `SlidingWindow.CallsAreExecuted` | gateway/crates/gateway/src/policy/rate_limit.rs:135-170 | The results of any sequence of calls on a limiter are the admissions of the corresponding run, so the bounds below are about the limiter |
| `SlidingWindow.CallsBounded` | gateway/crates/gateway/src/policy/rate_limit.rs:135-170 | For instance, calls on one prefix in a timely run are granted fewer than twice the limit in any W consecutive seconds |
| `SlidingWindow.SlidingWindowLimiter.Rollback` | gateway/crates/gateway/src/policy/rate_limit.rs:296-310 | Decrements the counter of the clock's current window and no other, keeping its expiry |
| `SlidingWindow.ReadsTrueIff` | gateway/crates/gateway/src/policy/rate_limit.rs:108-161 | In every run over any prefixes, timely or not, all scripts read the true number of checks ever made in their window and in the one before if and only if no script finds either of its two counters expired |
| `SlidingWindow.CheckReadsIff` | gateway/crates/gateway/src/policy/rate_limit.rs:108-161 | The same for one script: its two reads are true exactly when neither counter has expired |
| `SlidingWindow.ReadsAreTrue` | gateway/crates/gateway/src/policy/rate_limit.rs:108-161 | Twice the window is TTL enough: in every timely run all reads are true, as with never-expiring counters, and every counter outlasts the window after its own |
| `SlidingWindow.TimelyRunsQualify` | gateway/crates/gateway/src/policy/rate_limit.rs:141-161 | Timely runs meet the premises of all bounds below |
| `SlidingWindow.AdmissionIsExact` | gateway/crates/gateway/src/policy/rate_limit.rs:70-171 | While no counter expires, a check is admitted if and only if the checks really made so far fit its limit: neither over- nor under-admission |
| `SlidingWindow.LateScriptMissesPrevious` | gateway/crates/gateway/src/policy/rate_limit.rs:141-161 | A script run after its window has ended finds the previous counter expired and misses a hit |
| `SlidingWindow.LateScriptMayReadTrue` | gateway/crates/gateway/src/policy/rate_limit.rs:141-161 | A late script whose counters are alive reads truly: expiry decides, not lateness |
| `SlidingWindow.FixedWindowBound` | gateway/crates/gateway/src/policy/rate_limit.rs:70-171 | No fixed window of any run in which no counter expires, timely ones included, admits more than the limit |
| `SlidingWindow.SlidingSpanBound` | gateway/crates/gateway/src/policy/rate_limit.rs:70-171 | If also the windows of the prefix come in order, as in timely runs, any W consecutive seconds admit strictly fewer than twice the limit |
| `SlidingWindow.UnorderedSpanBound` | gateway/crates/gateway/src/policy/rate_limit.rs:70-171 | In whatever order the windows come, such a span admits at most twice the limit |
| `SlidingWindow.UnorderedReachesTwice` | gateway/crates/gateway/src/policy/rate_limit.rs:141-161 | A script that lands after one of a later window: exactly twice the limit is reached |
| `SlidingWindow.SlidingSpanByLast` | gateway/crates/gateway/src/policy/rate_limit.rs:70-171 | Such a span admits at most limit + a\*e/W, with a the admissions of the window before and e the seconds elapsed at its last admission |
| `SlidingBound.SpanBelowTwice` | gateway/crates/gateway/src/policy/rate_limit.rs:56-94 | The same bound for any sequence of checks whose kept ones met the weighted test against counters covering the kept ones before, however those counters are kept |
| `TwoLevelLimit.RateLimitEvaluator.Evaluate` | gateway/crates/gateway/src/policy/rate_limit.rs:201-289 | Exactly when each outcome occurs; an account refusal leaves global counters alone, a global refusal gives the account its hit back, success reports the tighter level |
| `TwoLevelLimit.EvaluationIsInARow` | gateway/crates/gateway/src/policy/rate_limit.rs:201-310 | With Redis in reach an evaluation leaves the counters and ends in the phase that the protocol's three steps in a row give, so what holds of all runs is about the evaluator |
| `TwoLevelLimit.VerdictCases` | gateway/crates/gateway/src/policy/rate_limit.rs:209-289 | Which result is returned when, from the two checks; a refusal carries the time left in the window of the level that refused, success the lesser remaining |
| `TwoLevelLimit.RetryAfterIsNextWindow` | gateway/crates/gateway/src/policy/rate_limit.rs:227-234 | The retry hint, computed within the window of the check, leads to the first instant of the next window |
| `TwoLevelLimit.TightestIsLeast` | gateway/crates/gateway/src/policy/rate_limit.rs:278-289 | The reported level has the lesser remaining, the global one on a tie |
| `TwoLevelLimit.LostReplyFails` | gateway/crates/gateway/src/policy/rate_limit.rs:209-258 | A check whose reply is lost leaves its hit counted and the request failed |
| `TwoLevelLimit.MostRestrictive` | gateway/crates/gateway/src/policy/rate_limit.rs:314-324 | One of the two outcomes, with no more remaining than either |
| `TwoLevelLimit.RunKeepsInv` | gateway/crates/gateway/src/policy/rate_limit.rs:201-310 | Under every sound interleaving of concurrent evaluations, with policy limits changing from request to request, lost replies and failed rollbacks, each counter stands for the requests it should count and every holding request met its test against them |
| `TwoLevelLimit.TimelyRunsAreSound` | gateway/crates/gateway/src/policy/rate_limit.rs:201-310 | Runs whose scripts and rollbacks stay in their windows are sound |
| `TwoLevelLimit.AccountCounterIsExact` | gateway/crates/gateway/src/policy/rate_limit.rs:201-310 | Until it expires an account's window counter is the sum of its requests admitted, awaiting the global check or the rollback, refused by the account, or lost to a Redis failure |
| `TwoLevelLimit.TimelyCountersLast` | gateway/crates/gateway/src/policy/rate_limit.rs:141-161 | In a timely run no counter expires before the window after its own has ended |
| `TwoLevelLimit.ArriveExactIff` | gateway/crates/gateway/src/policy/rate_limit.rs:209-241 | The account check reads the charges of its two windows, and keeps the counters exact, if and only if the counters it touches have not expired while standing for a request |
| `TwoLevelLimit.AccountAdmissionsBounded` | gateway/crates/gateway/src/policy/rate_limit.rs:201-310 | However an account's policy changes, its admitted plus pending requests never exceed the largest rpm it had in a window, nor reach twice it in any W seconds, although rollbacks lower its counter |
| `TwoLevelLimit.GlobalCounterIsExact` | gateway/crates/gateway/src/policy/rate_limit.rs:201-258 | Until it expires the global counter of a window is the number of requests that passed their account and reached it; account-refused requests spend none |
| `TwoLevelLimit.GlobalAdmissionsBounded` | gateway/crates/gateway/src/policy/rate_limit.rs:201-289 | Requests finally admitted over all accounts stay within the global limit per window and under twice it in any W seconds |
| `TwoLevelLimit.AdmittedPassedGlobal` | gateway/crates/gateway/src/policy/rate_limit.rs:236-289 | Every finally admitted request is one that the global bound counts |
| `TwoLevelLimit.RollbackExactIff` | gateway/crates/gateway/src/policy/rate_limit.rs:296-310 | A rollback keeps all counters exact if and only if the clock is still in the window of the hit it undoes and that counter has not expired |
| `TwoLevelLimit.LateRollbackMiscounts` | gateway/crates/gateway/src/policy/rate_limit.rs:296-310 | A reachable late rollback: one window stays one too high and the next starts at -1, with no request charged to either |
| `TwoLevelLimit.LateRollbackSticks` | gateway/crates/gateway/src/policy/rate_limit.rs:290-310 | That counter of -1 has no expiry |
| `TwoLevelLimit.StuckCounterRefusesAll` | gateway/crates/gateway/src/policy/rate_limit.rs:150-161 | Unless its own window is hit again, in any run, every check of the account in the window after a counter left below zero fails as unavailable, at any instant and under any limit |
| `Concurrency.ConcurrencyLimiter.Acquire` | gateway/crates/gateway/src/policy/concurrency.rs:68-121 | Grants a fresh permit exactly when the live count is below the limit, and leaves the count unchanged on refusal |
| `Concurrency.ConcurrencyPermit.Release` | gateway/crates/gateway/src/policy/concurrency.rs:137-148 | Decrements once, and never after an earlier release or drop |
| `Concurrency.ConcurrencyPermit.Drop` | gateway/crates/gateway/src/policy/concurrency.rs:151-169 | Decrements only an unreleased permit, and only while a runtime exists |
| `Concurrency.ConcurrencyPermit.ReleaseAndDrop` | gateway/crates/gateway/src/policy/concurrency.rs:137-169 | A release followed by the drop it implies makes one decrement in all, none if Redis was out of reach |
| `Concurrency.GrantedIff` | gateway/crates/gateway/src/policy/concurrency.rs:30-38 | Granted if and only if the permits outstanding and leaked on the live key are fewer than the limit |
| `Concurrency.GrantIsHeld` | gateway/crates/gateway/src/policy/concurrency.rs:88-121 | A grant adds one permit, held if answered and leaked if the answer is lost |
| `Concurrency.ReleaseGivesBack` | gateway/crates/gateway/src/policy/concurrency.rs:141-169 | A release, or a drop with a runtime, whose decrement lands gives back exactly one slot |
| `Concurrency.LossLeaks` | gateway/crates/gateway/src/policy/concurrency.rs:145-169 | Without a runtime, on a crash or when the decrement is lost, the key is untouched and the slot leaked |
| `Concurrency.RunKeepsInv` | gateway/crates/gateway/src/policy/concurrency.rs:30-169 | Every timely interleaving of acquire, refusal, release, cancelled release, drop and crash keeps the counter equal to the permits of the key's current life that have not decremented |
| `Concurrency.CounterIsExact` | gateway/crates/gateway/src/policy/concurrency.rs:30-169 | Until expiry the counter is outstanding plus leaked permits; once expired nobody is outstanding |
| `Concurrency.AtMostOneDecrement` | gateway/crates/gateway/src/policy/concurrency.rs:137-169 | In every run, timely or not, no permit sends more than one decrement, and none before its release; a lost one is not sent again |
| `Concurrency.LimitHolds` | gateway/crates/gateway/src/policy/concurrency.rs:30-121 | Outstanding plus leaked permits never exceed the limit, across key expiry too |
| `Concurrency.ShortHoldRunsAreTimely` | gateway/crates/gateway/src/policy/concurrency.rs:18-20 | Holding each permit for less than 120 seconds is enough for all of the above |
| `Concurrency.AcquireExactIffFresh` | gateway/crates/gateway/src/policy/concurrency.rs:30-38 | After an acquire the value Redis holds is outstanding plus leaked permits, and the invariant holds, if and only if the key had not expired under an outstanding permit |
| `Concurrency.LandExactIffFresh` | gateway/crates/gateway/src/policy/concurrency.rs:141-148 | A landing decrement keeps it under the same condition, and otherwise leaves -1 without a TTL |
| `Concurrency.LongHoldExceedsLimit` | gateway/crates/gateway/src/policy/concurrency.rs:18-38 | A permit held past the TTL: two permits outstanding at limit one |
| `Concurrency.WithinLimitIff` | gateway/crates/gateway/src/policy/concurrency.rs:30-38 | From within the limit, an acquire stays within it if and only if the key has not expired under an outstanding permit or fewer permits than the limit are outstanding |
| `Concurrency.ReclaimedIffGap` | gateway/crates/gateway/src/policy/concurrency.rs:18-38 | With any slot leaked, an acquire counts the leaked and outstanding ones along if and only if less than the TTL has passed since the last acquire of any outcome, and starts from zero otherwise; it is granted accordingly |
| `Concurrency.BusyNeverReclaims` | gateway/crates/gateway/src/policy/concurrency.rs:18-38 | In every run whose acquires come within the TTL of each other no leaked slot is reclaimed, however few; outstanding permits stay within what the leaks leave of the limit, and if that is nothing, nothing is granted |
| `Concurrency.LeakOutlivesTtl` | gateway/crates/gateway/src/policy/concurrency.rs:18-38 | One leaked slot and an attempt every 100 seconds: still refused after 300 seconds |
| `PolicyMerge.MergePolicies` | gateway/crates/gateway/src/policy/engine.rs:120-223 | The result is described by the set of policies: failure exactly on a malformed one; allowlist intersection, denylist union, least limits and conjoined flags otherwise; and the allowlist keeps the order of the load's first nonempty one |
| `PolicyMerge.MergeOne` | gateway/crates/gateway/src/policy/engine.rs:136-206 | One round fails exactly on a malformed policy and otherwise folds it into the accumulators |
| `PolicyMerge.MergeOnColumns` | gateway/crates/gateway/src/policy/engine.rs:120-223 | The outcome on the stored columns: failure if and only if some list is no array of strings or some limit not positive; denied exactly the items of some denied list; allowed exactly the items on every nonempty allowed list; each limit the least of its column; each flag the conjunction; and the defaults of an account without policies |
| `PolicyMerge.ListsAreRead` | gateway/crates/gateway/src/policy/engine.rs:137-175 | Reading a list column gives its JSON strings one for one |
| `PolicyMerge.LimitStep` | gateway/crates/gateway/src/policy/engine.rs:82-107 | Merging one limit fails exactly on a non-positive value and otherwise keeps the minimum over the set |
| `PolicyMerge.MergeIsDetermined` | gateway/crates/gateway/src/policy/engine.rs:120-223 | Any two loads of the same policies, permuted or repeated, merge to the same outcome, error included |
| `PolicyMerge.MorePoliciesRestrict` | gateway/crates/gateway/src/policy/engine.rs:120-223 | Adding policies never raises a limit, enables a flag, shrinks the denylist or widens a nonempty allowlist intersection |
| `PolicyDecision.GlobIsWildcardIff` | gateway/crates/gateway/src/policy/model_access.rs:59-65 | The prefix matcher equals a full wildcard matcher on all values if and only if no `*` precedes the last character |
| `PolicyDecision.ValidPatternIsSimple` | gateway/crates/gateway/src/api/admin/mod.rs:261-285 | Every pattern the admin API accepts is of that kind |
| `PolicyDecision.AloneIsMerge` | gateway/crates/gateway/src/policy/engine.rs:120-223 | A policy read by itself is the merge of the singleton |
| `PolicyDecision.DenyDecomposes` | gateway/crates/gateway/src/policy/model_access.rs:28-57 | The merged denylist denies a model if and only if some policy's does |
| `PolicyDecision.InputDecomposes` | gateway/crates/gateway/src/policy/quotas.rs:39-67 | An input estimate fits the merged limit if and only if it fits every policy's |
| `PolicyDecision.MergedAcceptsLess` | gateway/crates/gateway/src/policy/engine.rs:313-327 | If the allowlists share a pattern, whatever the merged policy accepts every policy alone accepts |
| `PolicyDecision.AcceptsIff` | gateway/crates/gateway/src/policy/engine.rs:313-327 | For any policies and any request the merge accepts if and only if every policy passes it apart from its allowlist, and the allowlists are absent, share no pattern, or share one that matches |
| `PolicyDecision.ChecksDecide` | gateway/crates/gateway/src/policy/engine.rs:313-327 | On the stored columns: the first check that some policy fails gives its denial, in the order model, streaming, tools, files, input; otherwise the returned cap is the least of the request and all caps, marked if and only if some cap is below the request |
| `PolicyDecision.UnboundDecides` | gateway/crates/gateway/src/policy/engine.rs:120-131 | Without policies every model and streaming are allowed, tools and files are not, and output is not capped |
| `PolicyDecision.AllowedIff` | gateway/crates/gateway/src/policy/model_access.rs:28-57 | The allowlist part of it: exactly the models matched by a pattern common to all nonempty lists, or all if there is none such |
| `PolicyDecision.OverlapExample` | gateway/crates/gateway/src/policy/engine.rs:151-160 | A model that two policies with a shared pattern both accept and their merge refuses |
| `PolicyDecision.NoAllowlistsExact` | gateway/crates/gateway/src/policy/engine.rs:313-327 | Without allowlists the merged decision is exactly the conjunction of the single decisions |
| `PolicyDecision.MostRestrictiveIff` | gateway/crates/gateway/src/policy/engine.rs:120-223 | For stored policies the merge never accepts what one of them refuses if and only if the allowlists share a pattern or some denylist holds `*` |
| `PolicyDecision.DisjointExample` | gateway/crates/gateway/src/policy/engine.rs:151-160 | `gpt-4*` and `gpt-4-turbo` on one account: a model both refuse is accepted |
| `PolicyDecision.OutputCapIsClampAll` | gateway/crates/gateway/src/policy/quotas.rs:39-67 | The effective output cap is the requested one clamped by each policy in turn, in any order, and is marked clamped exactly when some policy alone would clamp it |
| `PolicyDecision.ClampAllIsLeast` | gateway/crates/gateway/src/policy/quotas.rs:54-66 | Clamping in turn gives the least of the request and all caps |
| `PolicyAdmin.ListPolicies` | gateway/crates/gateway/src/storage/repositories/policies.rs:262-296 | Bound policies in any row order plus the policy of whatever default id is passed, if it exists, without repeating it |
| `PolicyAdmin.ApplicableIff` | gateway/crates/gateway/src/storage/repositories/policies.rs:262-296 | A policy applies to an account if and only if it is bound to it or is its default |
| `PolicyAdmin.EarlierDefaultLoads` | gateway/crates/gateway/src/policy/engine.rs:233-248 | Loading with a default id read at any earlier point of the run, as authentication does, loads what the tables now prescribe |
| `PolicyAdmin.RunAgrees` | gateway/crates/gateway/src/policy/engine.rs:364-398 | After every run of handlers, lookups, expiries and evictions each cached entry is a merge of what the tables hold for its account |
| `PolicyAdmin.EvaluationIsCurrent` | gateway/crates/gateway/src/api/admin/policies.rs:82-425 | So an evaluation, cached or not, equals merging a fresh load, binding cascade and default clearing included |
| `PolicyAdmin.RunStaysStored` | gateway/crates/gateway/src/storage/repositories/policies.rs:132-178 | Creates and partial updates keep every stored policy valid |
| `PolicyAdmin.ReadSideNeverFails` | gateway/crates/gateway/src/api/admin/mod.rs:261-345 | So no set of stored policies makes the merge fail, and on each stored pattern the simple matcher is the full one |
| `PolicyAdmin.BodyOkIff` | gateway/crates/gateway/src/api/admin/mod.rs:287-345 | A body is accepted if and only if its lists hold valid patterns, its token limits are in 1..1000000, its rpm in 1..100000 and its concurrency in 1..10000 |
| `Validation.PatternsAccepted` | gateway/crates/gateway/src/api/admin/mod.rs:154-182 | Accepted patterns are exactly the names of at most 128 ASCII letters, digits and - _ . : /, or nothing, followed by at most one star; identifiers the nonempty names |
| `Validation.ValuesAccepted` | gateway/crates/gateway/src/api/admin/mod.rs:261-345 | The same for lists, and the ranges of the limits |
| `PolicyAdmin.RemovedNeverApplies` | gateway/crates/gateway/src/api/admin/policies.rs:290-332 | After a policy is deleted no policy with its id applies to any account again, in any run |
| `PolicyAdmin.LookupCaches` | gateway/crates/gateway/src/policy/engine.rs:364-398 | A lookup leaves exactly what it returned cached for its account |
| `PolicyAdmin.PolicyService.Create` | gateway/crates/gateway/src/api/admin/policies.rs:82-147 | Rejects an invalid body without a write; otherwise the row has the values given, no limit or list where none is given and features allowed unless refused, nothing else changes, and the emptied cache agrees |
| `PolicyAdmin.PolicyService.Update` | gateway/crates/gateway/src/api/admin/policies.rs:209-283 | For the owning tenant only: each value given replaces the old, each absent one keeps it, nothing else changes, and the emptied cache agrees |
| `PolicyAdmin.PolicyService.Remove` | gateway/crates/gateway/src/api/admin/policies.rs:290-332 | The policy is gone with every binding and default that named it, all other policies, bindings and defaults are as before, and the emptied cache agrees |
| `PolicyAdmin.PolicyService.Bind` | gateway/crates/gateway/src/api/admin/policies.rs:343-380 | Adds one binding and drops only that account's entry, which is enough for agreement |
| `PolicyAdmin.PolicyService.Unbind` | gateway/crates/gateway/src/api/admin/policies.rs:390-425 | Removes one binding and drops only that account's entry |
| `PolicyAdmin.PolicyService.GetOrEvaluate` | gateway/crates/gateway/src/policy/engine.rs:364-382 | Returns and caches the merge for the tables as they are; a failed merge is not cached |
| `Backoff.BoundIsExponential` | gateway/crates/gateway/src/routing/retry.rs:56-81 | The clamped, saturating bound is min(cap, base\*2^attempt) if and only if attempt <= 32, base is zero, or cap <= base\*2^32 |
| `Backoff.BoundUnderCap` | gateway/crates/gateway/src/routing/retry.rs:20-81 | In particular for every base >= 1 ms and cap <= 2^32 ms |
| `Backoff.BoundMonotone` | gateway/crates/gateway/src/routing/retry.rs:56-81 | The bound never falls from one attempt to the next and never exceeds the cap |
| `Backoff.JitterIsFull` | gateway/crates/gateway/src/routing/retry.rs:56-81 | A sleep can have every length up to the bound of its attempt and no other |
| `Dispatch.Build` | gateway/crates/gateway/src/routing/router.rs:140-183 | One attempt per route in the same order with its limits, or the error of the first invalid route |
| `Dispatch.RetryWithBackoff` | gateway/crates/gateway/src/routing/retry.rs:120-187 | The calls are retryable failures ended by a success, a fatal failure, or call 1 + max_retries; the last outcome and the count are reported; one sleep after each call but the last, drawn for that attempt with the route's base and cap |
| `Dispatch.ExecuteWithFallback` | gateway/crates/gateway/src/routing/fallback.rs:55-108 | For every outcome stream the calls form one segment per route in plan order up to the first success; the result, the u32 tallies or the last route's last error are reported |
| `Dispatch.TraceUnique` | gateway/crates/gateway/src/routing/fallback.rs:67-97 | The trace specification determines the calls completely |
| `Dispatch.SuccessIsLast` | gateway/crates/gateway/src/routing/fallback.rs:70-79 | The first success is the last call made |
| `Dispatch.CallsWithinBudget` | gateway/crates/gateway/src/routing/retry.rs:129-187 | No dispatch makes more than the sum of 1 + max_retries calls |
| `Dispatch.TalliesAreTrue` | gateway/crates/gateway/src/routing/fallback.rs:63-83 | When that sum fits a u32, `total_attempts` is the calls made and `routes_tried` the routes tried |
| `Dispatch.TalliesTrueIff` | gateway/crates/gateway/src/routing/fallback.rs:63-83 | Each tally is true if and only if the number it counts fits a u32 |
| `Dispatch.TotalSleepBound` | gateway/crates/gateway/src/routing/router.rs:98-183 | Total sleep is at most ten seconds per allowed retry of the plan |
| `RouteDirectory.QueryIsPermitted` | gateway/crates/gateway/src/storage/repositories/routes.rs:231-256 | Every table has an answer: a reordering of exactly the matching rows, tenant-scoped first, then by priority |
| `RouteDirectory.PermittedMembers` | gateway/crates/gateway/src/storage/repositories/routes.rs:231-256 | A row is in a permitted answer if and only if it is an enabled match of the tenant or a global one |
| `RouteDirectory.PermittedOnColumns` | gateway/crates/gateway/src/storage/repositories/routes.rs:231-256 | On the columns: alias, enabled and scope of the rows returned, tenant-scoped before global, ascending priority within each |
| `RouteDirectory.CreateOkIff` | gateway/crates/gateway/src/api/admin/routes.rs:82-116 | A route can be created if and only if its provider is one of the five known and both names are valid identifiers |
| `RouteDirectory.DeletedRouteStaysGone` | gateway/crates/gateway/src/api/admin/routes.rs:257-276 | After a route is deleted no resolution of any run returns it, unless one is created under its id |
| `RouteDirectory.CacheKeyInjective` | gateway/crates/gateway/src/routing/router.rs:44-46 | Tenant and alias are recovered from the cache key, even if the alias contains `:` |
| `RouteDirectory.RunAgrees` | gateway/crates/gateway/src/routing/router.rs:44-90 | After every run of route handlers, resolutions and evictions each cached list is a permitted answer for the table as it is |
| `RouteDirectory.ResolveIsCurrent` | gateway/crates/gateway/src/routing/resolver.rs:37-73 | So a resolution, cached or not, returns exactly the matching routes in a permitted order |
| `RouteDirectory.RouteService.CreateRoute` | gateway/crates/gateway/src/api/admin/routes.rs:82-116 | A valid route is added with the values given or the defaults 100, enabled, 30000, 1 and 250, and the cache emptied; an invalid one changes nothing |
| `RouteDirectory.RouteService.UpdateRoute` | gateway/crates/gateway/src/api/admin/routes.rs:192-236 | Each value given replaces the old, absent ones and the scope are kept, other rows are untouched, and the cache is emptied |
| `RouteDirectory.RouteService.DeleteRoute` | gateway/crates/gateway/src/api/admin/routes.rs:257-276 | Exactly the rows with other ids are left, as often as before, and the cache is emptied |
| `RouteDirectory.RouteService.ResolveRoutes` | gateway/crates/gateway/src/routing/resolver.rs:37-73 | Answers from the cache or fills it; if the cache agreed with the table it still does, the list is a permitted answer for the table, and the error means that nothing matches |
| `KeyStaleness.RunKeepsInv` | gateway/crates/gateway/src/auth/key_store.rs:63-112 | In every interleaving of lookups on any number of instances, writes and possibly failing invalidations, each cached row was the table's row at an instant its expiry is bounded by |
| `KeyStaleness.ServedRowsAreRecent` | gateway/crates/gateway/src/auth/key_store.rs:20-97 | Every row served was the table's row at most 60 + 300 + 2d seconds before, d bounding one lookup |
| `KeyStaleness.RevokedIsTerminal` | gateway/crates/gateway/src/storage/repositories/keys.rs:27-175 | No sequence of table writes takes a key out of revoked |
| `KeyStaleness.RevokedRefusedEverywhere` | gateway/crates/gateway/src/auth/key_store.rs:20-112 | A revoked key is refused by every instance after that bound, even if no invalidation succeeded |
| `KeyStaleness.RevocationTakesHold` | gateway/crates/gateway/src/auth/key_store.rs:20-112 | From the admin's write on: every row served more than 60 + 300 + 2d seconds after an existing key is revoked is unusable |
| `KeyStaleness.WritesTakeEffect` | gateway/crates/gateway/src/storage/repositories/keys.rs:27-175 | What registration, revocation and use make of a row |
| `KeyStaleness.LookupAlone` | gateway/crates/gateway/src/auth/key_store.rs:63-97 | A lookup by itself serves the live local entry, else the live shared one, else the table's row, and leaves it cached for 60 and 300 seconds |
| `Lifecycle.KeyStore.GetByKeyId` | gateway/crates/gateway/src/auth/key_store.rs:63-97 | L1, then L2, then the table, filling the tiers above the one that answered and nothing for an unknown key; caches that agree with the table keep agreeing and give the table's row |
| `Lifecycle.KeyStore.Invalidate` | gateway/crates/gateway/src/auth/key_store.rs:103-112 | The key is in neither tier, every other entry as before |
| `Lifecycle.KeyStore.VerifyKey` | gateway/crates/gateway/src/auth/middleware.rs:85-123 | Succeeds if and only if the row found is active or rotating and not past its expiry, which with agreeing caches is the table's row; every refusal looks the same |
| `Lifecycle.CacheIsCurrent` | gateway/crates/gateway/src/auth/key_store.rs:63-112 | After every run on one instance each cached row, and each lookup, is the table's row but for `last_used_at` |
| `Lifecycle.RevokedNeverVerifies` | gateway/crates/gateway/src/api/admin/service_accounts.rs:408-429 | After `revoke_key` no later verification of that key succeeds, in any run |
| `Lifecycle.StaysRevoked` | gateway/crates/gateway/src/storage/repositories/keys.rs:144-175 | No admin operation brings a revoked key back |
| `Lifecycle.RunKeepsLinks` | gateway/crates/gateway/src/storage/repositories/tenants.rs:124-179 | Key to account and account to tenant links and tenant deletion are permanent in every run |
| `Lifecycle.DeletedTenantNeverAuthenticates` | gateway/crates/gateway/src/auth/middleware.rs:127-165 | After a tenant is deleted no sequence of admin operations and no key row from any past state authenticates for it |
| `Lifecycle.DeletedTenantLocksOut` | gateway/crates/gateway/src/auth/middleware.rs:200-222 | The same for whatever a lookup through the instance's caches returns, however stale they were |
| `Lifecycle.AuthenticateIff` | gateway/crates/gateway/src/auth/middleware.rs:200-222 | A request authenticates if and only if its key is active or rotating and unexpired, its account is the claimed one and active, and the tenant is active; and then as that account of that tenant |
| `Lifecycle.SuspendedNeverAuthenticates` | gateway/crates/gateway/src/storage/repositories/service_accounts.rs:228-272 | After an account is suspended no row of it authenticates, in any run that does not activate it |
| `Lifecycle.RevokedNeverAuthenticates` | gateway/crates/gateway/src/api/admin/service_accounts.rs:408-429 | After a key is revoked what a lookup finds never authenticates |
| `Lifecycle.NewcomerAuthenticates` | gateway/crates/gateway/src/storage/repositories/keys.rs:27-47 | A new tenant, account and key authenticate together at once |
| `Lifecycle.ActivatedAuthenticates` | gateway/crates/gateway/src/storage/repositories/service_accounts.rs:254-272 | An activated account of an active tenant authenticates with any usable key |
| `Lifecycle.WritesAreScoped` | gateway/crates/gateway/src/storage/repositories/keys.rs:144-168 | Suspension and activation need the account's own tenant, revocation the key's own id and account; otherwise nothing changes |
| `Lifecycle.KeyWrites` | gateway/crates/gateway/src/storage/repositories/keys.rs:27-175 | Registration stores the key as given, active and unused, and never replaces one; use changes one timestamp; other keys stay |
| `Lifecycle.DeletionSuspendsAccounts` | gateway/crates/gateway/src/storage/repositories/tenants.rs:154-179 | After a tenant is deleted none of its accounts is active, in every run that neither activates nor creates one for it |
| `Lifecycle.DeletionSparesOthers` | gateway/crates/gateway/src/storage/repositories/tenants.rs:154-179 | The cascade leaves every account of another tenant as it was |
| `CacheStaleness.RunKeepsInv` | gateway/crates/gateway/src/policy/engine.rs:347-398 | In every interleaving of lookups, loads of several queries, waiters sharing a load, writes and unheard-of invalidations on any number of instances, each cached or served value answers tables in force shortly before |
| `CacheStaleness.ServedIsRecent` | gateway/crates/gateway/src/routing/router.rs:35-90 | Every value served, to waiters that share another request's load too, answers tables in force at most d + max(ttl, d) seconds before, d bounding one request: ttl + d unless requests outlast the TTL |
| `CacheStaleness.ChangesArrive` | gateway/crates/gateway/src/routing/router.rs:25-90 | What has been true of the tables for longer than that is true of everything a served value was made from, on every instance |
| `CacheStaleness.RequestAlone` | gateway/crates/gateway/src/policy/engine.rs:364-382 | A request by itself is served the live entry, or loads, serves and keeps the value for the TTL |
| `SharedCaches.RoutesAreRecent` | gateway/crates/gateway/src/routing/router.rs:25-90 | Every route list served is a permitted answer for a table in force at most d + max(ttl, d) seconds before |
| `SharedCaches.RouteChangesArrive` | gateway/crates/gateway/src/routing/router.rs:25-90 | d + max(ttl, d) seconds after a route stops or starts being offered, no list or every list served on any instance contains it |
| `SharedCaches.PolicyChangesArrive` | gateway/crates/gateway/src/policy/engine.rs:336-382 | d + max(ttl, d) seconds after the last change that concerns an account, every instance serves the merge of what the tables prescribe for it |
| `SharedCaches.BoundPolicyEnforced` | gateway/crates/gateway/src/policy/engine.rs:336-382 | A policy bound to an account for more than d + max(ttl, d) seconds is enforced on every instance: each limit, each flag and each item of its denied list, whatever else changes |
| `NonceGuard.NonceKeyInjective` | gateway/crates/gateway/src/auth/nonce.rs:62-84 | Account and nonce are recovered from the nonce key |
| `NonceGuard.NonceStore.Check` | gateway/crates/gateway/src/auth/nonce.rs:62-84 | Accepts only a nonce that is not live and has been stored; no answer means no admission |
| `NonceGuard.DecideCases` | gateway/crates/gateway/src/auth/middleware.rs:195-249 | Which answer a request gets, in order: malformed or expired timestamp, nonce not of 16 to 64 characters, failed verification, store failure, nonce still remembered, acceptance |
| `NonceGuard.AcceptedIsStored` | gateway/crates/gateway/src/auth/nonce.rs:62-84 | An accepted nonce, or one whose answer is lost, is stored for the skew; nothing else is |
| `NonceGuard.RunKeepsInv` | gateway/crates/gateway/src/auth/middleware.rs:195-249 | In every run each accepted nonce is remembered until the skew has passed, and acceptances are spaced |
| `NonceGuard.AcceptancesApart` | gateway/crates/gateway/src/auth/nonce.rs:62-84 | Two acceptances of one account and nonce are at least the skew apart |
| `NonceGuard.RepeatNeedsLateStamp` | gateway/crates/gateway/src/auth/nonce.rs:17-84 | In every run, a request accepted twice was stamped no earlier than its first acceptance less the delay, from clock reading to nonce store, of its second |
| `NonceGuard.PastStampAcceptedOnce` | gateway/crates/gateway/src/auth/nonce.rs:17-84 | If requests take at most d seconds from clock reading to nonce store, one stamped more than d before its first acceptance is accepted once only |
| `NonceGuard.InstantPastStampOnce` | gateway/crates/gateway/src/auth/nonce.rs:17-84 | If the clock does not advance within a request's checks, one stamped before the clock is accepted once only |
| `NonceGuard.AcceptedAgainIff` | gateway/crates/gateway/src/auth/middleware.rs:195-249 | With delays of up to d, an accepted request can be accepted again if and only if it was accepted at most d after its stamp |
| `NonceGuard.InstantAcceptedAgainIff` | gateway/crates/gateway/src/auth/nonce.rs:17-84 | Without delays: if and only if it was stamped at or after the clock |
| `NonceGuard.FutureStampAcceptedTwice` | gateway/crates/gateway/src/auth/nonce.rs:17-84 | A concrete run in which that happens without delays |
| `NonceGuard.DelayedStampAcceptedTwice` | gateway/crates/gateway/src/auth/middleware.rs:195-249 | A concrete run in which it happens to a stamp in the past, with one second of delay |
| `NonceGuard.OnlyVerifiedStored` | gateway/crates/gateway/src/auth/middleware.rs:195-249 | Every stored nonce came from a request that had passed all other checks |
| `NonceGuard.FreshNonceAccepted` | gateway/crates/gateway/src/auth/middleware.rs:195-249 | A request that passes them with a nonce its account never presented is accepted: unverified requests cannot use up a nonce |
| `Pagination.ClampLimit` | gateway/crates/gateway/src/models.rs:104-110 | The page size is the value nearest to the request in 1..200, and one row more is fetched |
| `Pagination.PageIsTop` | gateway/crates/gateway/src/models.rs:79-101 | A page holds the newest rows after the cursor; there is a next cursor, at its last row, exactly when rows remain |
| `Pagination.WalkDescends` | gateway/crates/gateway/src/storage/repositories/keys.rs:76-116 | Whatever is inserted or deleted between pages, the rows of a walk are strictly descending, so none comes twice |
| `Pagination.WalkCovers` | gateway/crates/gateway/src/storage/repositories/keys.rs:76-116 | A completed walk returns every row that was present throughout it |
| `Pagination.StableRowOnce` | gateway/crates/gateway/src/storage/repositories/keys.rs:76-116 | And returns it in exactly one place |
| `Pagination.FixedTableWalk` | gateway/crates/gateway/src/storage/repositories/keys.rs:76-116 | On an unchanging table a walk ends for any page sizes and its pages concatenate to the whole table |

## Left out

- Ed25519, SHA-256, base64, JSON and RFC 3339 codecs: signature and body checks are one verdict, the cursor codec an assumed inverse pair.
- IEEE 754 rounding in the weighted count: exact arithmetic instead.
- moka, sqlx, deadpool and tokio internals: caches are maps with arbitrary eviction, queries are functions of the tables.
- Database queries that fail leave everything as it is. A write that commits while its reply is lost, so that the cache is not invalidated, is covered by the staleness bounds only.
- A system clock before the Unix epoch, and i64 overflow on timestamps far outside the skew.
- HTTP plumbing, configuration, admin roles, audit events, and the name, slug and key-id validators, which appear only as `cleared`.
- Circuit breaker, budgets, streaming, usage, pricing, providers, the Python SDK and the admin console.
- Columns without influence on decisions: descriptions, metadata, `updated_at`, the `config` of a route.
- The provider-call timeout: a timed-out call is one of the provider's outcomes.
- How a default policy comes to be set: runs start from any consistent database, and no modelled handler sets one.
- QueryIsPermitted: rows that tie on scope and priority may come in any order, as the query leaves it.
- Sorting a listing: the filtered table is given in key order, the sorting itself is the database's.
- SlidingSpanBound: assumes that no counter expires under a script and that windows come in order, as in every timely run; excludes limit 0, for which `FixedWindowBound` says nothing is admitted, and the saturating limit.
- AccountAdmissionsBounded: assumes a sound run, in which rollbacks land in the window of their hit and counters do not expire under a script; `RollbackExactIff` and `ArriveExactIff` show that exactness needs it.
- GetOrEvaluate: takes a default id that was the account's at some earlier point; `EarlierDefaultLoads` shows that this is what authentication supplies.
- RunStaysStored: starts from a database whose policies are already valid, for example an empty one.
- AcceptedAgainIff: assumes that the nonce store is reached no earlier than the clock was read, on one time scale; clock drift between gateway and Redis is not modelled.
