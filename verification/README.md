# WealthGenie verification

Dafny models of the parts of WealthGenie whose correctness depends on order, time and accounting, and proofs of what
those parts promise. `dafny verify dfyconfig.toml` checks the whole project.

Each file follows one component:

| files | component |
|---|---|
| `PermitStore`, `PermitSafety`, `PermitTheorems`, `PermitRelease`, `PermitHolder` | the distributed tool-permit leases in Redis, and the heartbeat and release closures that hold them |
| `RateWindow` | fixed-window request budgets, in Redis and in process, and the in-process fallback permits |
| `HmmPaths`, `HmmFilter`, `HmmParameters`, `StateAlignment`, `ModelSelection` | the causal HMM filter, label alignment and run lengths, and the choice of the state count |
| `TckPolicy`, `TckGate`, `TckTree` | the fail-closed gate over the A2A test-kit report, and what it reads off the report's tree |
| `RateLimiter`, `RateSafety`, `RateEviction` | the sliding-window limiter of the RAG router |
| `McpRuntime` | admission, active work and bounded drain of the MCP runtime |
| `TokenBudget` | the shared token budget of concurrent model calls |
| `ParetoFrontier`, `WalkForward` | candidate selection and chronological splits |
| `RefreshLease`, `Schedule` | the lease around market-data refreshes and the timers that start them |
| `StableSort`, `CorpusGeneration` | the order-independent identity of a corpus generation |
| `Prelude` | options, results and facts about finite sets |

Objects that the program updates in place are classes (`Redis`, `Controller`, `RedisCounters`, `LocalCounters`,
`LocalPermits`, `Limiter`, `Runtime`, `SharedBudget`, `Replicas`, `AdaptiveJob`). Each method is one atomic piece of the
program (a Redis script, the body of a lock, the code between two awaits) and its contract equates the new state with a
step function on values. The theorems are about sequences of those steps: any number of users, tokens, calls and
replicas in any interleaving.

Clocks are integers that never go back, except where a file says otherwise. Probabilities, scores and the router's clock
are exact reals. Hash functions are parameters, injective where a theorem needs it. Redis hides a key once its deadline
has passed, that is when the clock is strictly later than the deadline.

## What the proofs found

- `RELEASE` is the one permit script that can tell that keys expire; `ACQUIRE` and `RENEW` never see a difference. For a
  permit that was granted and not yet released, Redis fails to report the removal that a store without key expiry would
  report exactly when the user has had no grant and no renewal for longer than a lease and sent no `ACQUIRE` at or after
  the end of the permit's own lease (`ReleaseSeesKeyExpiry`, with a run in `LateReleaseDiffers`). A release racing a
  renewal is not a cause of the unhealthy flag: only a lapse or a failing Redis is.
- A permit renewed on the heartbeat's schedule stays in force exactly when its lease is longer than ten milliseconds,
  because of the floor on the renewal interval (`HeartbeatOnTime`). `server/config/runtime.js:88` refuses leases under
  1000 ms, so only a configuration made by hand reaches the other side.
- The router's limiter reads the clock before it takes its lock (`ml-service/rag/router.py:93-94`), so a reading can
  trail one used before it. If none trails by more than some lag, the limits of 600 calls and 100 index calls hold in
  every window of a given length exactly when the window is no longer than 60 seconds less that lag
  (`LateWindowsExactly`): the promised 60 seconds exactly when readings come in lock order.
- `_BudgetedDspyLM.__call__` leaves its reservation behind exactly when `max_tokens` cannot be converted, reading the
  history fails, the provider call ends in something that is not an `Exception`, or reading the usage fails
  (`SharedBudget.Call`). A reservation left behind shrinks the budget for good (`StrandedForGood`).
- Capacity is healthy exactly when, since the last probe that succeeded, no probe failed and every renewal that settled
  was heard and had run before its lease ended (`HealthExactly`). An unhealthy process still renews the leases it has.
- A drain always ends. It reports success exactly when everything that was active when it was called has settled by
  then, and otherwise how much has not (`DrainVerdict`); `StoppedMayAbandonWork` is a run where work is abandoned. A
  drain that reports success left nothing behind, and nothing starts afterwards.
- The Pareto selection fails exactly when two different gated candidates meet and `float()` rejects a score of one of
  them. A score that is NaN fails nothing, but keeps its candidate on every frontier (`NaNIsKept`), and so does a failed
  hard gate (`UngatedIsKept`).
- A limiter store forgets a key, and with it the calls it counted, exactly when 4096 other keys have been touched since
  (`KeptExactly`).
- Sorting chunks or members by id makes the corpus digest independent of reading order exactly when no two different
  entries share an id. The code does not check for duplicate ids.
- The gate's test that the skipped count exceeds the pinned maximum is implied by its other tests, and so is the error
  "no complete folds" of the walk-forward plan by its size checks: neither can be reached on its own.
- A market-data job never overlaps itself, over all histories in which its refreshes finish within some bound after
  their lease was stored, if and only if that bound is no longer than the term of the lease (`OverlapExactly`). The lease
  is not renewed while a refresh runs.

## Model

| member | source | states |
|---|---|---|
| PermitStore.Redis.constructor | server/mcp/mcpCapacity.js:16-50 | a server starts with no keys |
| PermitStore.Redis.AcquireScript | server/mcp/mcpCapacity.js:16-30 | ACQUIRE, command by command, prunes both sets and grants exactly when the permits in force leave room under both limits; its whole effect is `AcquireStep` |
| PermitStore.Redis.RenewScript | server/mcp/mcpCapacity.js:38-50 | RENEW extends a lease only when both sets hold the token with one score that is still in the future; otherwise nothing changes |
| PermitStore.Redis.ReleaseScript | server/mcp/mcpCapacity.js:32-36 | RELEASE removes the token from both sets and reports whether the user's set still showed it |
| PermitSafety.LiveStep | server/mcp/mcpCapacity.js:16-50 | the permits in force under any key after any script or passage of time, although pruning, score expiry and key expiry remove entries at different moments; a key still outlives every member it holds |
| PermitSafety.StepKeepsSound | server/mcp/mcpCapacity.js:16-50 | one script keeps: keys outlive members, tokens sit only in their minter's set, user and global permits match one to one with equal scores, both limits hold |
| PermitSafety.RunKeepsSound | server/mcp/mcpCapacity.js:16-50 | the same over every interleaving of any users and tokens |
| PermitTheorems.RepliesRefine | server/mcp/mcpCapacity.js:16-50 | ACQUIRE and RENEW answer exactly as a plain lease table with no pruning, no key expiry and no second set would |
| PermitTheorems.StepRefines | server/mcp/mcpCapacity.js:16-50 | the permits in force after a script are the lease table's rows after its step |
| PermitTheorems.RunRefines | server/mcp/mcpCapacity.js:16-50 | over whole runs the two sorted sets with their deadlines refine the lease table, replies included (RELEASE of a lapsed permit may report a removal the table does not) |
| PermitTheorems.LimitsHold | server/mcp/mcpCapacity.js:19-23 | at every instant of every run from an empty store the per-user and the global limit hold |
| PermitTheorems.LivePermitsConserved | server/mcp/mcpCapacity.js:19-28 | each script prunes only one user's set, yet the live permits summed over all users equal the live global permits |
| PermitTheorems.DeadStaysDead | server/mcp/mcpCapacity.js:32-50 | once released or lapsed, a token is never in force again and every later RENEW of it fails |
| PermitTheorems.HeartbeatKeepsPermit | server/mcp/mcpCapacity.js:38-50 | a permit renewed before each lapse is never lost and every such RENEW succeeds, whatever other tokens and key deadlines do |
| PermitTheorems.PermitLivesExactly | server/mcp/mcpCapacity.js:32-50 | over every run in which only its owner renews it, a permit is in force at the end exactly when no gap between renewals reached the lease that was left and nobody released it |
| PermitTheorems.HeartbeatOnTime | server/mcp/mcpCapacity.js:179-203 | a fresh permit renewed on schedule is in force in the store after any number of beats exactly when its lease exceeds ten milliseconds |
| PermitTheorems.MissedBeats | server/mcp/mcpCapacity.js:179-203 | a fresh permit whose first beats fail is saved by the next beat exactly when that one comes before the lease ends |
| PermitTheorems.BeatsToSpare | server/mcp/mcpCapacity.js:179 | one missed beat is survived exactly by leases over 20 ms, two exactly by leases over 30 ms that three does not divide |
| PermitTheorems.KeyExpiryInvisible | server/mcp/mcpCapacity.js:27-28 | over whole runs a store without PEXPIRE has the same permits in force and gives ACQUIRE and RENEW the same replies |
| PermitRelease.RunFollows | server/mcp/mcpCapacity.js:16-50 | over every run, from any pair of stores with and without key expiry, what both hold of a permit is told by the requests and replies so far |
| PermitRelease.ReleaseSeesKeyExpiry | server/mcp/mcpCapacity.js:32-36 | after any history the two stores answer RELEASE differently exactly when the permit was granted and not released, more than one lease has passed since the user's last grant or renewal, and no ACQUIRE of the user came at or after the end of the permit's lease; each reply is given exactly |
| PermitRelease.LateReleaseDiffers | server/mcp/mcpCapacity.js:32-36 | the replies of a run where the difference shows, for every lease length |
| PermitHolder.Controller.constructor | server/mcp/mcpCapacity.js:88-92 | a process starts healthy with no permits |
| PermitHolder.Controller.AskPermit | server/mcp/mcpCapacity.js:141-146 | a request that starts while the process is unhealthy goes no further |
| PermitHolder.Controller.RunAcquire | server/mcp/mcpCapacity.js:151-178 | a request past the check acquires even if the flag turned meanwhile; only a grant whose reply arrives creates the shared variables of the closures |
| PermitHolder.Controller.StartRenewal | server/mcp/mcpCapacity.js:180-182 | no renewal is sent after release or while another is under way |
| PermitHolder.Controller.RunRenewal | server/mcp/mcpCapacity.js:183-187 | the RENEW script runs between the sending and the handling of a renewal |
| PermitHolder.Controller.SettleRenewal | server/mcp/mcpCapacity.js:189-201 | the new state after a renewal settles, heard or not: the flag, the slot for the next renewal, and a script that may still run; what the flag means over whole runs is `HealthExactly` |
| PermitHolder.Controller.RunStray | server/mcp/mcpCapacity.js:183-186 | a renewal given up on that Redis executes later changes the store and nothing else |
| PermitHolder.Controller.SettleProbe | server/mcp/mcpCapacity.js:248-301 | a probe sets the flag either way |
| PermitHolder.Controller.BeginRelease | server/mcp/mcpCapacity.js:205-209 | only the first release of a permit goes on |
| PermitHolder.Controller.RunRelease | server/mcp/mcpCapacity.js:209-215 | RELEASE is sent only once no renewal is under way |
| PermitHolder.RenewReplyMeansLapse | server/mcp/mcpCapacity.js:38-50 | whenever it runs, RENEW is refused exactly when the lease had run out or the permit was given back; for a renewal that is waited for a release is never the reason |
| PermitHolder.RunKeepsInv | server/mcp/mcpCapacity.js:141-225 | over every interleaving of holders, each unreleased holder's lease is in force exactly until the end it recorded |
| PermitHolder.UnhealthyHasCause | server/mcp/mcpCapacity.js:189-299 | capacity is unhealthy only after a lease ran out, Redis failed to answer or a probe failed; closing permits never causes it |
| PermitHolder.UnhealthyAdmitsNothing | server/mcp/mcpCapacity.js:102-142 | from then on, over every run until a probe succeeds, only requests already past the check can still be granted a permit |
| PermitHolder.HealthExactly | server/mcp/mcpCapacity.js:180-201 | over every run from the start capacity is healthy exactly when, since the last probe that succeeded, no probe failed and every renewal that settled was heard and had run before the recorded end of its lease |
| PermitHolder.OneRenewalAtATime | server/mcp/mcpCapacity.js:180-201 | over every run, while a renewal of a permit is under way a beat does nothing, until it settles |
| PermitHolder.HoldersAreGrants | server/mcp/mcpCapacity.js:151-178 | over every run the permits a process holds are exactly those the lease table had room for and whose reply arrived |
| PermitHolder.RequestServed | server/mcp/mcpCapacity.js:141-178 | while capacity is healthy a fresh request is granted exactly when the permits in force leave room under both limits, and its lease then runs a full term |
| PermitHolder.BeatExtends | server/mcp/mcpCapacity.js:180-203 | a beat extends the lease of a permit in use by a full term from when RENEW runs, and does so whether capacity is healthy or not |
| PermitHolder.StrayExtends | server/mcp/mcpCapacity.js:183-201 | a renewal given up on brings capacity down, yet still extends the lease if Redis receives it before the lease ends |
| PermitHolder.CloseGivesBack | server/mcp/mcpCapacity.js:205-215 | closing gives a permit back whatever its lease has come to: at once, or as soon as the renewal under way settles |
| PermitHolder.LeftAlone | server/mcp/mcpCapacity.js:38-50 | a permit left alone and not given back is in force exactly while its recorded end is ahead |
| PermitHolder.ReleaseIsFinal | server/mcp/mcpCapacity.js:205-221 | after its RELEASE a permit is never in force again, no renewal of it is sent, and a stray one is refused |
| RateWindow.RedisCounters.constructor | server/mcp/mcpCapacity.js:5-14 | no counter exists before the first request |
| RateWindow.RedisCounters.Consume | server/mcp/mcpCapacity.js:5-14 | every answer counts exactly the earlier requests of its bucket, although counters expire; a counter expires no earlier than its bucket closes and within one window after |
| RateWindow.LocalCounters.constructor | server/mcp/mcpCapacity.js:94-99 | the local map starts empty |
| RateWindow.PruneWindows | server/mcp/mcpCapacity.js:94-99 | the loop deletes exactly the windows whose bucket has closed |
| RateWindow.LocalCounters.Consume | server/mcp/mcpCapacity.js:120-129 | the same exact counting with a pruned map that holds only open buckets and never more than 10000 entries; refused exactly when the identity is new to the pruned map and the map is full |
| RateWindow.BucketExact | server/mcp/mcpCapacity.js:11-13 | of the requests in a bucket exactly the first `limit` are admitted |
| RateWindow.AtMostTwice | server/mcp/mcpCapacity.js:9-12 | no interval of one window's length admits more than twice the limit |
| RateWindow.TwiceIsReached | server/mcp/mcpCapacity.js:9-12 | that bound is met by two bursts one millisecond apart, for every limit |
| RateWindow.LocalPermits.constructor | server/mcp/mcpCapacity.js:227-233 | no permit is in use at first |
| RateWindow.LocalPermits.Acquire | server/mcp/mcpCapacity.js:227-233 | granted exactly when the permits in use leave room under both limits; the counters are the numbers of permits in use |
| RateWindow.LocalPermits.Release | server/mcp/mcpCapacity.js:234-242 | the first release of a permit gives back one unit, a second gives back nothing |
| HmmPaths.PathsExact | ml-service/market_context/hmm_model.py:111-123 | the reference enumeration lists each of the N^T state paths exactly once |
| HmmPaths.ForwardRecursion | ml-service/market_context/hmm_model.py:118-119 | the mass of all paths that end in a state obeys the one-step forward recursion |
| HmmParameters.MassIsPathMass | ml-service/market_context/hmm_model.py:111-123 | the mass of a path is the clipped start probability of its first state, times each clipped transition entry from a state (row) to the next (column), times the density of each observation under its state's mean and covariance |
| HmmFilter.NormaliseCarries | ml-service/market_context/hmm_model.py:120-123 | dividing a row by its sum moves that sum into the running product, which becomes the mass of all paths; the row sums to one |
| HmmFilter.CausalFilter | ml-service/market_context/hmm_model.py:85-124 | the O(T·N²) loop returns the brute-force posterior at every time, the least most likely state, and the total path mass as likelihood; each error exactly on its check, in order |
| HmmParameters.FilteredIsBayes | ml-service/market_context/hmm_model.py:111-124 | told from the arguments alone: the entry for a state at a time is the mass of all paths that end there over the mass of all paths |
| HmmParameters.CheckExactly | ml-service/market_context/hmm_model.py:97-110 | which arguments are accepted, the tolerance in numbers, and that each error is the first of the five checks that fails |
| HmmFilter.Causality | ml-service/market_context/hmm_model.py:85-124 | the filtered row at a time depends on no later observation |
| StateAlignment.PermutationsExact | ml-service/market_context/hmm_model.py:145 | the search enumerates exactly the rearrangements of the labels |
| StateAlignment.PermutationsSorted | ml-service/market_context/hmm_model.py:145 | in lexicographic order |
| StateAlignment.RelabellingBijective | ml-service/market_context/hmm_model.py:145 | a rearrangement of the labels is a bijection on them |
| StateAlignment.StatePermutation | ml-service/market_context/hmm_model.py:137-153 | a relabelling of least total cost over all N!, the lexicographically first among them; it fails exactly on a shape mismatch |
| StateAlignment.CostOfOneChange | ml-service/market_context/hmm_model.py:145-148 | sending one candidate state elsewhere changes the cost by the difference of its two distances and by nothing else |
| StateAlignment.TwoStates | ml-service/market_context/hmm_model.py:145-148 | with two states the search compares the two sums of distances |
| StateAlignment.RecoversRelabelling | ml-service/market_context/hmm_model.py:137-153 | when the candidate's states are the reference's under other labels, the search undoes exactly that relabelling |
| StateAlignment.AlignStates | ml-service/market_context/hmm_model.py:156-161 | each state gets its new label; it fails exactly when a state is out of range |
| StateAlignment.RelabellingPreserves | ml-service/market_context/hmm_model.py:156-169 | relabelling keeps the number of switches and carries each occupancy count to the new label |
| StateAlignment.RecordRuns | ml-service/market_context/hmm_model.py:168-179 | the scan fails exactly on an empty sequence or a label out of range; otherwise it lists for each state, in order, the lengths of its maximal stretches, which sum to its occupancy and are one more than the switches |
| StateAlignment.StretchesUnique | ml-service/market_context/hmm_model.py:168-179 | a sequence falls into maximal stretches in one way only, so the recorded durations are determined |
| StateAlignment.StateMetrics | ml-service/market_context/hmm_model.py:164-188 | occupancies, their minimum, the switching rate and the mean durations are all those of the recorded runs |
| StateAlignment.MeanFitsOccupancy | ml-service/market_context/hmm_model.py:180-188 | a state's mean duration times its number of runs is its occupancy count, and is zero exactly for a state never seen |
| StateAlignment.DurationsCover | ml-service/market_context/hmm_model.py:168-179 | all recorded durations together count every observation of a state below n once |
| StateAlignment.CountsCover | ml-service/market_context/hmm_model.py:166 | the occupancy counts sum to the length of the sequence |
| StateAlignment.AllAccounted | ml-service/market_context/hmm_model.py:166-179 | all recorded durations together sum to the length of the sequence |
| ModelSelection.SelectedIsBest | ml-service/market_context/hmm_model.py:269-308 | a state count is selected exactly when one meets the thresholds, and no other that meets them is preferred to it |
| ModelSelection.SelectionStable | ml-service/market_context/hmm_model.py:296-308 | the selected count does not depend on the order of the candidates nor on candidates that lose |
| ModelSelection.SelectedInNumbers | ml-service/market_context/hmm_model.py:269-308 | the selected candidate meets the four thresholds, in numbers, and of all that do has the highest agreement, then the smallest centroid distance, then the highest likelihood, then the fewest states |
| ModelSelection.NothingSelected | ml-service/market_context/hmm_model.py:269-297 | nothing is selected exactly when every candidate misses one of the thresholds |
| ModelSelection.EarlierOfEquals | ml-service/market_context/hmm_model.py:301-307 | among candidates that no criterion tells apart the first is selected |
| TckPolicy.PolicyCases | scripts/validate_a2a_tck_policy.py:57-103 | the loop accepts exactly six well-formed, reviewed exceptions with matching node ids and no repeats, and then indexes exactly those |
| TckPolicy.PolicyTestCases | scripts/validate_a2a_tck_policy.py:106-154 | the loop accepts exactly a full, repetition-free inventory whose digest and whose declared digest are the pinned one, with the pinned skip count, and then lists exactly its entries |
| TckPolicy.NodeIdExactly | scripts/validate_a2a_tck_policy.py:88-98 | a node id fits when it is the path of the module and the test, with the class in between if the last dotted part names one |
| TckPolicy.ExceptionsExactly | scripts/validate_a2a_tck_policy.py:71-101 | exceptions are fine exactly when each is whole, cites a reviewed issue as classified, and no identity or node id repeats |
| TckPolicy.CasesExactly | scripts/validate_a2a_tck_policy.py:112-131 | inventory entries are fine exactly when each is named, no given skip reason is empty, and no identity repeats |
| TckGate.CheckCase | scripts/validate_a2a_tck_policy.py:360-423 | the loop body objects to nothing exactly when the testcase is fine on its own and not seen before, and then moves the sets and counters by exactly that case |
| TckGate.CheckCases | scripts/validate_a2a_tck_policy.py:357-423 | one pass objects to nothing exactly when every testcase is fine and no identity repeats |
| TckGate.CheckMissing | scripts/validate_a2a_tck_policy.py:425-434 | nothing expected is missing; the maximum on skips adds nothing |
| TckGate.CheckSuites | scripts/validate_a2a_tck_policy.py:436-458 | every suite, nested or not, reports the recounted totals |
| TckGate.CheckTotals | scripts/validate_a2a_tck_policy.py:460-476 | root totals may be absent but never wrong |
| TckGate.EvaluateReport | scripts/validate_a2a_tck_policy.py:346-483 | a report is accepted exactly when it meets the declarative reading `Acceptable`, with the counters of the accepted outcome |
| TckGate.ValidateRun | scripts/validate_a2a_tck_policy.py:329-483 | policy and report together: acceptance exactly on a sound policy and an acceptable report, read against exactly the reviewed exceptions and the pinned inventory |
| TckGate.SkipsWithinSet | scripts/validate_a2a_tck_policy.py:431-434 | accepted skips use up distinct expected skips, so the maximum is implied |
| TckGate.StatusesPartition | scripts/validate_a2a_tck_policy.py:386-423 | when no case is objected to, passed, failed and skipped add up to all cases and the accepted failures are the failed ones |
| TckGate.AcceptedMeans | scripts/validate_a2a_tck_policy.py:357-434 | an accepted run executed each pinned testcase exactly once, skipped no reviewed exception, and its counters add up to 235 |
| TckGate.MarkersAreStatuses | scripts/validate_a2a_tck_policy.py:156-169 | when no case is objected to, counting result elements and counting statuses agree |
| TckTree.IterLists | scripts/validate_a2a_tck_policy.py:348 | the listing of a tag holds every element with it at or below the root, however deep, once for each place it has, in document order |
| TckTree.OrdinaryReport | scripts/validate_a2a_tck_policy.py:348 | in a report of suites of testcases it is the testcases of all suites, one suite after the other |
| TckTree.FoundWithin | scripts/validate_a2a_tck_policy.py:436-440 | what lies below a listed suite is listed below the root |
| TckTree.CaseFineExactly | scripts/validate_a2a_tck_policy.py:360-423 | nothing is held against a testcase exactly when it is a named testcase of the inventory with only flat result and output children, and it passed without a mark, was skipped as pinned, or failed as recorded, each spelled out |
| TckTree.AcceptedExactly | scripts/validate_a2a_tck_policy.py:346-483 | a run is accepted exactly when its policy is sound, its root is a suite or list of suites, it holds 235 fine testcases of different identity with the inventory and the recorded failures among them, there is a suite and each recounts its testcases, the root misstates no total, and the exit code is 1 if a testcase failed and 0 if none did |
| TckTree.TotalsMean | scripts/validate_a2a_tck_policy.py:436-483 | on an accepted report every suite reports how many testcases lie in it and how many of those failed and were skipped |
| TckTree.TotalsOptional | scripts/validate_a2a_tck_policy.py:460-469 | a list of suites may leave all its own totals out |
| RateLimiter.Limiter.constructor | ml-service/rag/router.py:52-56 | the five stores start empty |
| RateLimiter.Limiter.Clear | ml-service/rag/router.py:75-82 | clearing empties all five |
| RateLimiter.Limiter.RecentBucket | ml-service/rag/router.py:66-72 | prune, evict if full, and make the key the most recent |
| RateLimiter.Limiter.CheckRateLimit | ml-service/rag/router.py:85-126 | all five stores are pruned before the verdict and charged together or not at all |
| RateLimiter.Limiter.CheckPrevalidation | ml-service/rag/router.py:129-143 | only the address store is pruned and charged, under the stricter index limit for index calls |
| RateSafety.WindowsBounded | ml-service/rag/router.py:93-126 | with readings at most some lag late every half-open window of 60 seconds less that lag holds at most 600 accepted calls and 100 accepted index calls |
| RateSafety.LateWindowsExactly | ml-service/rag/router.py:93-126 | for every lag and window length, the limits hold over all traces exactly when the window is no longer than 60 seconds less the lag |
| RateEviction.KeptExactly | ml-service/rag/router.py:66-72 | over every trace a touched key is still in its store exactly when fewer than 4096 keys were touched after it |
| RateEviction.NeverEvictsExactly | ml-service/rag/router.py:68-71 | over every trace a key is never evicted exactly when that holds after each call |
| RateEviction.BucketExact | ml-service/rag/router.py:66-72 | as long as it does, a bucket holds exactly the accepted calls of its key in the last 60 seconds, however late the readings, and no window of 60 seconds less the lag exceeded the key's limit |
| RateEviction.CheckVerdict | ml-service/rag/router.py:85-126 | over every trace, for keys always remembered and a reading behind no earlier one, a call is accepted exactly when in the last 60 seconds fewer than 60 calls were accepted for its address, 60 for its principal and 600 in all, and for an index call 10 for the principal and 100 in all |
| RateEviction.PrevalidateVerdict | ml-service/rag/router.py:129-143 | before validation only the address counts: fewer than 60 accepted in the last 60 seconds, or 10 for an index call |
| RateSafety.LruRun | ml-service/rag/router.py:68-71 | over every trace each keyed store holds at most 4096 keys, ordered by last touch |
| RateSafety.EvictsLeastRecent | ml-service/rag/router.py:68-69 | the evicted key is the one touched longest ago |
| RateSafety.StoresNest | ml-service/rag/router.py:94-126 | in any clock order live index charges nest in the index list, that list and the live principal charges in the global list |
| RateSafety.RefusalChargesNothing | ml-service/rag/router.py:109-119 | a refused call adds no live timestamp to any store |
| RateSafety.StaleReadingBreaksWindow | ml-service/rag/router.py:93-95 | for every lag up to a minute and every longer window a trace with one reading that late overfills it, on the global and on the index list |
| McpRuntime.Runtime.constructor | server/mcp/mcpRuntime.js:9-12 | a runtime starts in STARTING with nothing active |
| McpRuntime.Runtime.MarkReady | server/mcp/mcpRuntime.js:125-127 | only STARTING becomes READY |
| McpRuntime.Runtime.NotifyIdle | server/mcp/mcpRuntime.js:14-19 | when nothing is active the loop resolves every waiter in order; a race already settled is not reopened |
| McpRuntime.Runtime.WaitForIdle | server/mcp/mcpRuntime.js:21-24 | idleness now settles the race at once, otherwise a waiter is left |
| McpRuntime.Runtime.Start | server/mcp/mcpRuntime.js:26-38 | work is admitted only in READY |
| McpRuntime.Runtime.Complete | server/mcp/mcpRuntime.js:42-48 | the first completion frees the work and wakes waiters, a second changes nothing |
| McpRuntime.Runtime.CallDrain | server/mcp/mcpRuntime.js:97-104 | a drain of a stopped runtime answers at once, any other stops admission and waits |
| McpRuntime.Runtime.Resume | server/mcp/mcpRuntime.js:104-121 | after the grace period remaining work is aborted and awaited once more; then the runtime stops |
| McpRuntime.RunKeepsInv | server/mcp/mcpRuntime.js:14-122 | over every run every open race has its waiter, and no waiter outlives idleness |
| McpRuntime.IdleHasNoWaiters | server/mcp/mcpRuntime.js:14-24 | in every reachable state an empty active map means nobody waits for idleness |
| McpRuntime.PhaseForward | server/mcp/mcpRuntime.js:97-127 | the phase only moves forward and once draining the active work only shrinks |
| McpRuntime.ActiveIsOutstanding | server/mcp/mcpRuntime.js:34-95 | the active map is exactly the admitted work that has not settled; timeouts and aborts free nothing |
| McpRuntime.DrainsWake | server/mcp/mcpRuntime.js:97-122 | when all outstanding work has settled, no concurrent drain is left waiting |
| McpRuntime.DrainBounded | server/mcp/mcpRuntime.js:97-122 | a drain finishes once its two timers have fired, whatever else happens in between |
| McpRuntime.DrainedIsFinal | server/mcp/mcpRuntime.js:120-121 | a drain that reports success left nothing behind, and nothing is admitted afterwards |
| McpRuntime.IdleDrainSucceeds | server/mcp/mcpRuntime.js:104-121 | a drain that became idle within its grace period reports success |
| McpRuntime.DrainVerdict | server/mcp/mcpRuntime.js:97-122 | over every run a drain reports success exactly when all work active at its call has settled, and otherwise the number of pieces that have not |
| McpRuntime.FlagStep | server/mcp/mcpRuntime.js:53-110 | no event but an abort of this very work, or a drain that gives up its grace period, changes the aborted flag of any work; none changes its kind |
| McpRuntime.AdmittedAs | server/mcp/mcpRuntime.js:34-56 | in READY work is admitted, unaborted and of the kind asked for |
| McpRuntime.AbortedExactly | server/mcp/mcpRuntime.js:106-110 | over every run unsettled work keeps its kind and is aborted exactly when it was before, was itself aborted, or some drain gave up, requests and tools alike |
| McpRuntime.ForcedWorkIsAborted | server/mcp/mcpRuntime.js:106-119 | in every reachable state, once a drain awaits aborted work or has stopped waiting for it, everything still active is aborted |
| McpRuntime.StoppedVerdict | server/mcp/mcpRuntime.js:98 | a drain of a stopped runtime reports at once what is left |
| McpRuntime.StoppedMayAbandonWork | server/mcp/mcpRuntime.js:112-121 | a run in which work that ignores its abort is abandoned |
| TokenBudget.SharedBudget.constructor | ml-service/agent_evolution/runner.py:44-53 | a new budget has used and reserved nothing |
| TokenBudget.SharedBudget.Reserve | ml-service/agent_evolution/runner.py:62-82 | refused or reserved under the lock, with the whole new state |
| TokenBudget.SharedBudget.Settle | ml-service/agent_evolution/runner.py:84-95 | the reservation is replaced by the reported usage before any error is raised |
| TokenBudget.SharedBudget.Call | ml-service/agent_evolution/runner.py:133-147 | a call leaves its reservation behind exactly when `max_tokens` cannot be converted, the history read fails, the provider call ends outside `Exception` or the usage read fails; the limit sent to the provider is exact; a call that answers leaves usage within the budget |
| TokenBudget.RunConserves | ml-service/agent_evolution/runner.py:55-95 | over every interleaving the reserved total is the sum of open reservations, and used plus reserved stay within the budget plus what providers overran |
| TokenBudget.SpendBounded | ml-service/agent_evolution/runner.py:55-95 | without overruns spending stays within the budget and at most budget / 2049 calls are in flight; call limits hold |
| TokenBudget.HonestSettleAccepted | ml-service/agent_evolution/runner.py:84-95 | with no overrun so far, a settlement is accepted exactly when it reports no more than was reserved |
| TokenBudget.ReserveExactly | ml-service/agent_evolution/runner.py:62-82 | a call is refused for its role's limit first, and otherwise exactly when not even one token of output fits; granted, it may use the most output that fits, up to 512, and exactly that is reserved |
| TokenBudget.SettleVerdict | ml-service/agent_evolution/runner.py:84-95 | a settlement is accepted exactly when usage was reported, lies within the reservation, and leaves what was used within the budget |
| TokenBudget.CountersAreTheBooks | ml-service/agent_evolution/runner.py:62-88 | over every interleaving the call counters are the calls granted by role, and the tokens used are the usage reported or, where none was, the reservation |
| TokenBudget.StrandedForGood | ml-service/agent_evolution/runner.py:69-95 | over every later interleaving a reservation that is never settled is missing from the budget |
| TokenBudget.UsageTokenCount | ml-service/agent_evolution/runner.py:98-119 | usage is known exactly when there are entries and each reports it, and it is their sum; reading raises exactly when the first entry without a count is one that cannot be read |
| TokenBudget.CountedExactly | ml-service/agent_evolution/runner.py:101-116 | an entry counts its total or, without one, the sum of both parts, and never a negative number |
| ParetoFrontier.FrontierFailsExactly | ml-service/agent_evolution/pareto.py:4-15 | selection fails exactly when two different gated candidates meet and `float()` rejects a score of one of them |
| ParetoFrontier.NaNIsKept | ml-service/agent_evolution/pareto.py:7-15 | a candidate with a NaN score neither dominates nor is dominated, and is kept |
| ParetoFrontier.UngatedIsKept | ml-service/agent_evolution/pareto.py:5-15 | a candidate that failed its gate neither dominates nor is dominated, and is kept |
| ParetoFrontier.StrictOrder | ml-service/agent_evolution/pareto.py:4-8 | dominance is irreflexive, asymmetric and transitive |
| ParetoFrontier.FloatOrder | ml-service/agent_evolution/pareto.py:7-8 | scores are ordered as floats: numbers by size, infinities at the ends, NaN with nothing |
| ParetoFrontier.DominatesExactly | ml-service/agent_evolution/pareto.py:4-8 | among candidates with numeric scores one dominates another exactly when both passed their gate, it scores no lower on every objective, and higher on one |
| ParetoFrontier.FrontierIsUnbeaten | ml-service/agent_evolution/pareto.py:11-15 | what is kept is, in order, exactly what nothing dominates |
| ParetoFrontier.BeatenByKept | ml-service/agent_evolution/pareto.py:11-15 | whatever is dominated is dominated by something undominated |
| ParetoFrontier.FrontierCovers | ml-service/agent_evolution/pareto.py:11-15 | every candidate left out is dominated by a kept one; a non-empty list keeps something |
| ParetoFrontier.Incremental | ml-service/agent_evolution/pareto.py:11-15 | selecting from an earlier frontier plus newcomers equals selecting from everything, in the same order |
| ParetoFrontier.Idempotent | ml-service/agent_evolution/pareto.py:11-15 | selecting twice changes nothing |
| WalkForward.ExpandingPlan | ml-service/market_context/splits.py:33-74 | as many folds as fit, each error exactly on its condition, "no folds" never; fewer rows than one window remain before the holdout |
| WalkForward.ValidatedOnce | ml-service/market_context/splits.py:49-62 | the validation windows tile without gap or overlap, and each row is validated by a fold trained only on rows at least the purge earlier |
| WalkForward.TrainingExpands | ml-service/market_context/splits.py:49-62 | training starts at the first row, ends the purge before validation, and grows by one validation window from fold to fold |
| RefreshLease.Replicas.constructor | server/jobs/marketDataRefresh.js:38-49 | no lease is held and nothing runs at first |
| RefreshLease.Replicas.Wait | server/config/redis.js:126-134 | time passes; leases lapse by the clock alone |
| RefreshLease.Replicas.SetCacheNX | server/config/redis.js:126-134 | SET NX EX stores only on a key nobody holds; a lost reply reads as a refusal although the key is taken |
| RefreshLease.Replicas.ReleaseCacheNX | server/config/redis.js:142-153 | the lease goes exactly when it is still held under the caller's token |
| RefreshLease.Replicas.BeginRefresh | server/jobs/marketDataRefresh.js:51-56 | a replica goes on only with a lease whose reply will arrive |
| RefreshLease.Replicas.StartRefresh | server/jobs/marketDataRefresh.js:52-59 | the refresh starts when the reply arrives, any time after the lease was stored |
| RefreshLease.Replicas.SettleRefresh | server/jobs/marketDataRefresh.js:58-60 | the refresh ends before its lease is offered back |
| RefreshLease.Replicas.FinishRefresh | server/jobs/marketDataRefresh.js:60-65 | release reports success exactly when Redis answers and the lease had not lapsed |
| RefreshLease.RunKeepsInv | server/jobs/marketDataRefresh.js:51-65 | over every history each unclosed refresh still has its lease in Redis or the lease has lapsed, and refreshes of one job are exclusive |
| RefreshLease.OverlapNeedsLapse | server/jobs/marketDataRefresh.js:51-65 | of two refreshes of one job the later acquired only after the earlier settled or its lease ran out |
| RefreshLease.OverlapExactly | server/jobs/marketDataRefresh.js:51-65 | over all histories of any replicas and jobs in which a job's refreshes finish within a bound after their lease was stored, no two of them are ever unfinished at once if and only if the bound is no longer than the term |
| RefreshLease.TimelyIsAlone | server/jobs/marketDataRefresh.js:51-65 | the direction a deployment relies on: refreshes that finish within their term never overlap, whatever other jobs, lost replies and failed releases do |
| RefreshLease.OverrunOverlaps | server/jobs/marketDataRefresh.js:51-65 | the run behind the other direction, for every term: a refresh that outlives its lease executes beside the next one |
| RefreshLease.ReleaseSparesOthers | server/config/redis.js:136-147 | a former owner's release never touches a lease held under another token |
| RefreshLease.TimelyReleaseFrees | server/jobs/marketDataRefresh.js:60-65 | a refresh that is over within its term and whose release reaches Redis frees the job at once |
| RefreshLease.LostReplyBlocks | server/config/redis.js:126-134 | a lease whose reply was lost starts nothing, and keeps the job from every replica for exactly its term |
| RefreshLease.ReleaseReportsLapse | server/jobs/marketDataRefresh.js:61-64 | at its release a refresh still holds its lease exactly when the term has not run out |
| RefreshLease.BlockedForOneTerm | server/config/redis.js:126-134 | no crash, lost reply or unreachable release blocks a job for longer than the longest term |
| Schedule.MatchesAtOffset | server/jobs/marketDataRefresh.js:268-292 | showing the calendar fields of the expression is the same as sitting at one offset of its period |
| Schedule.MatchesExactly | server/jobs/marketDataRefresh.js:268-292 | in milliseconds, the instants at which the expression is due |
| Schedule.UsableExactly | server/jobs/marketDataRefresh.js:264-285 | usable are minutes 0 to 59 with every second hour or an hour 0 to 23 |
| Schedule.ScheduleTiming | server/jobs/marketDataRefresh.js:256-302 | the first delay lands on the earliest matching instant strictly after now, within two hours or a day; unusable expressions fall back to six hours |
| Schedule.IntervalVisitsAll | server/jobs/marketDataRefresh.js:280-298 | from the first instant on, the fixed interval visits every matching instant and no other |
| Schedule.GuardsNeverAct | server/jobs/marketDataRefresh.js:226-246 | an adaptive job is either refreshing or waiting for one timer, so its re-entry and stop guards never have to act |
| Schedule.StopIsFinal | server/jobs/marketDataRefresh.js:250-253 | a stopped job starts nothing more |
| Schedule.StopLetsFinish | server/jobs/marketDataRefresh.js:239-253 | a refresh in flight when the job is stopped still finishes, and arms nothing |
| Schedule.DelaysInNumbers | server/jobs/marketDataRefresh.js:219-249 | the first refresh comes after five seconds, the next after 8, 30 or 120 minutes by the session reported |
| Schedule.AdaptiveJob.constructor | server/jobs/marketDataRefresh.js:226-249 | the first refresh is armed five seconds ahead |
| Schedule.AdaptiveJob.Run | server/jobs/marketDataRefresh.js:231-234 | a timer that comes due starts a refresh unless a guard holds it back |
| Schedule.AdaptiveJob.FinishRun | server/jobs/marketDataRefresh.js:239-245 | a finished refresh arms the next timer by the session it reported, unless stopped |
| Schedule.AdaptiveJob.Cancel | server/jobs/marketDataRefresh.js:250-253 | stopping disarms the timer |
| StableSort.SortPermutes | ml-service/rag/corpus_generation.py:68 | sorting rearranges |
| StableSort.SortSorts | ml-service/rag/corpus_generation.py:68 | into key order |
| StableSort.SortStable | ml-service/rag/corpus_generation.py:68 | and keeps ties in their order |
| StableSort.LeqExactly | ml-service/rag/corpus_generation.py:33 | keys are compared by code points: a prefix first, otherwise by the first difference |
| StableSort.OrderFreeExactly | ml-service/rag/corpus_generation.py:33 | every reordering sorts to the same list exactly when no two different entries share a key |
| CorpusGeneration.CanonicalMember | ml-service/rag/corpus_generation.py:30-57 | one row per chunk in key order, refused at the first chunk that is not whole |
| CorpusGeneration.AcceptedExactly | ml-service/rag/corpus_generation.py:30-57 | a member is accepted exactly when it has chunks, all of them whole, and the revision has its three fields |
| CorpusGeneration.FirstFault | ml-service/rag/corpus_generation.py:36-43 | chunks that are not whole are refused for the first of them, content before embedding |
| CorpusGeneration.FieldRefusal | ml-service/rag/corpus_generation.py:49-52 | a revision is refused for the first of its three fields that is missing, or a version that is no number |
| CorpusGeneration.MemberFields | ml-service/rag/corpus_generation.py:44-57 | each of the seven fields comes from its own source, with defaults for scope and tenant, the number of chunks, and the digest of the rows in key order |
| CorpusGeneration.RowsExactly | ml-service/rag/corpus_generation.py:36-48 | each chunk contributes the row of its id, content digest and embedding digest, in order |
| CorpusGeneration.DigitsExact | ml-service/rag/corpus_generation.py:68 | `str()` of a number reads back as that number |
| CorpusGeneration.DigitsForm | ml-service/rag/corpus_generation.py:68 | it is a row of digits with no leading zero |
| CorpusGeneration.ShowReadsBack | ml-service/rag/corpus_generation.py:68 | `str()` of a field loses nothing: signed numbers read back, texts are themselves |
| CorpusGeneration.MemberFaithful | ml-service/rag/corpus_generation.py:44-57 | with injective hashes, equal members have equal identifying fields and equal chunks |
| CorpusGeneration.MemberOrderFree | ml-service/rag/corpus_generation.py:33 | the same fields and chunks give the same member, or the same refusal, in whatever order the chunks were read, if chunk ids tell chunks apart |
| CorpusGeneration.MemberOrderFreeExactly | ml-service/rag/corpus_generation.py:33 | for an accepted member that condition is exact |
| CorpusGeneration.EnvelopeIgnored | ml-service/rag/corpus_generation.py:61-67 | members that differ only in `_id` and `generation_id` have one digest |
| CorpusGeneration.StorageFieldsIgnored | ml-service/rag/corpus_generation.py:61-67 | setting `_id` and `generation_id` of any member to anything changes no digest |
| CorpusGeneration.DigestRefusedExactly | ml-service/rag/corpus_generation.py:68 | a digest is refused exactly for a member without its revision id |
| CorpusGeneration.DigestFaithful | ml-service/rag/corpus_generation.py:60-69 | with injective hashes, equal digests force equal members, storage fields and order aside |
| CorpusGeneration.DigestOrderFree | ml-service/rag/corpus_generation.py:68 | the same members in any order give one digest if revision ids tell members apart |
| CorpusGeneration.DigestOrderFreeExactly | ml-service/rag/corpus_generation.py:68 | that condition is exact |
| CorpusGeneration.DigestIsIdentity | ml-service/rag/corpus_generation.py:30-69 | from chunks to digest: two well-named corpora have equal digests exactly when their contents are equal, whatever the orders |

## Left out

- Floating point: `logsumexp` and rounding; results are over exact reals, and the floor of the clip (1e-300), densities and distances are given.
- The Gaussian density itself: the filter takes any positive density of an observation under a mean and a diagonal covariance.
- Fitting, scaling, information criteria and the aggregates over folds and seeds that feed the selection: library numerics; `ModelSelection` takes the aggregates as given.
- XML and regular-expression parsing, path checks of skip locations, the git checkout, file times and the flat policy header: they reach the gate as booleans and matched texts.
- SHA-256 and JSON canonical form: the digest of an inventory and the hash functions of the corpus are parameters; no collision argument is made.
- An embedding that JSON cannot encode, and a `version_number` as text: the first raises outside the modelled rows, of the second only the result of `int()` is kept.
- The prompt that cannot be measured (`ml-service/agent_evolution/runner.py:56-61`): it fails before anything is reserved.
- TokenBudget.SharedBudget.Call: states one call with no other in between, interleavings being the subject of `RunConserves`; an interrupt that arrives between two statements outside the provider call is not modelled.
- The readiness cache of the capacity controller, and the keys of its own on which a probe runs the scripts: a probe is its verdict.
- PermitHolder.Controller.RunAcquire: leaves out the request budget consumed between the check and ACQUIRE, which `RateWindow` models on its own.
- The unlocked branch of the refresh lease outside production, where no exclusion is meant, and job names that collapse to one key.
- RefreshLease.BlockedForOneTerm: assumes a Redis that keeps its data; failover that forgets leases is not modelled.
- The fixed-hour job runner (`server/jobs/marketDataRefresh.js:170-217`): one boolean guard; `IntervalVisitsAll` speaks of ideal timers.
- Parsing of cron text into minute and hour parts, and dates beyond the range of a JavaScript `Date`.
- Text that `float()` parses: a stored score is what `float()` makes of it.
- Redis, Mongo, HTTP and provider clients, logging, tracing and configuration parsing: only the atomic effect of each script or command is modelled.
