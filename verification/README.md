# Verified model of the security log analysis tool

A Dafny model of the parts of the tool whose correctness depends on state kept over time: the job
queue and its worker pool, the sliding-window detectors, the correlation of their findings, watch
mode, the batch engine, the dating of syslog lines, and the login lockout. `dafny verify
dfyconfig.toml` checks all of it.

Objects that the tool updates in place are classes whose methods are proved against functions of
their old state; what the tool promises is then proved of those functions, over every run. Calls
that leave the tool (files, clocks, parsers, hashes, the work of a job) are parameters. The modules
named `...Statement` say the same of inputs and outputs alone, without the functions that compute it.

| module | models |
|---|---|
| `Models`, `Sequences`, `Configuration` | events and findings; filtering and stable sorting; how a configuration is split into detectors and correlations |
| `JobModel`, `JobProtocol`, `JobTheorems`, `JobQueueCode` | registry and tokens; the queue as a transition system with one action per lock region, queue operation or flag access; its guarantees; the code of each call as runs of that system |
| `SlidingWindow`, `DetectionRules`, `Detectors`, `DetectionStatement` | the evicting counter; what five windowed rules decide, and the declaration over the whole history they meet; the five rule objects; exactly what they report, said of log events alone |
| `Correlation`, `CorrelationStatement` | grouping by address, the greedy scan, the reports; exactly what is reported, said of findings alone |
| `IncrementalRules`, `Watch`, `IncrementalStatement` | rules and pruned correlation fed batch by batch; the analyzer object; exactly what it keeps, emits and returns |
| `Tailing`, `WatchReading`, `WatchBooks`, `WatchFindings`, `WatchSessions` | following one file; numbering, sniffing and parsing its lines; the books over all files; what a session finds; the session object |
| `AnalysisModel`, `FileOrder`, `Engine`, `AnalysisStatement` | one batch analysis and its conservation; when the order of the files matters; the engine object; exactly what comes of its files and rules, and what watch mode returns of it |
| `SyslogYear`, `YearlessLines` | the year of a yearless date; the same log read live and by the engine |
| `Lockout` | accounts, failures and locks |

Where the code does less than its documentation suggests, the model follows the code:

- The comment in `submit` says every accepted job is drained before the workers exit. A submission
  and a shutdown between a worker's empty look at the queue and its flag test leave a job behind
  (`JobTheorems.StrandedJob`); `JobTheorems.DrainKeepsItsPromise` says exactly when none is.
- `_infer_timestamp` is documented to lose no event to the calendar. `strptime` reads a four-digit
  year, so reference years below 1004 can; `SyslogYear.InferenceIsLatestPlausible` says exactly when.
- `analyze` is recommended for order-independent results. The events depend on the order in which the
  files are named iff two files read by the same parser share an instant
  (`FileOrder.OrderIsImmaterialIffApart`), and then the findings can (`FileOrder.TiesLetOrderMatter`).
- Watch mode does not emit all that a batch correlation reports: `IncrementalStatement.EmittedExactly`
  says exactly what it emits.
- Watch mode dates a yearless line by the clock at which it is parsed, and `analyze` by its latest web
  event, so the two can read different years from the same line (`SyslogYear.TurnOfTheYear`);
  `YearlessLines.WatchReadsAsTheEngineIff` says exactly when they read the same events.
- The success rule raises IndexError for thresholds below 1, which the loader lets through;
  `DetectionRules.RaisesExactly` says when.

## Model

| member | source | states |
|---|---|---|
| `JobModel.CancelToken.constructor` | src/security_log_analysis_tool/pipeline/queue.py:70-71 | A new token is not set. |
| `JobModel.CancelToken.Cancel` | src/security_log_analysis_tool/pipeline/queue.py:73-74 | Afterwards the token is set; nothing ever clears it. |
| `JobModel.JobRegistry.Add` | src/security_log_analysis_tool/pipeline/queue.py:116-119 | The job and its token are stored under the job's id; every other entry stays. |
| `JobModel.JobRegistry.Get` | src/security_log_analysis_tool/pipeline/queue.py:121-123 | The stored record, or none for an unknown id. |
| `JobModel.JobRegistry.Token` | src/security_log_analysis_tool/pipeline/queue.py:129-131 | The very token object handed in at registration, or none. |
| `JobModel.JobRegistry.Replace` | src/security_log_analysis_tool/pipeline/queue.py:133-135 | Unconditionally overwrites the record of that id; tokens stay. |
| `JobModel.JobRegistry.Remove` | src/security_log_analysis_tool/pipeline/queue.py:137-140 | Record and token are both gone; every other entry stays. |
| `JobModel.JobRegistry.CancelIfQueued` | src/security_log_analysis_tool/pipeline/queue.py:142-157 | Flips a queued job to CANCELLED and says so; leaves every other job, and says so. |
| `JobModel.JobRegistry.StartIfRunnable` | src/security_log_analysis_tool/pipeline/queue.py:159-180 | Claims a queued job whose token is clear as RUNNING; a queued job whose token is set becomes CANCELLED and is not claimed; anything else is left alone. |
| `JobProtocol.InitialInv` | src/security_log_analysis_tool/pipeline/queue.py:190-218 | The queue starts in the invariant, for any number of workers and any bound. |
| `JobProtocol.StepKeepsInvariant` | src/security_log_analysis_tool/pipeline/queue.py:116-180 | Every atomic action of a submitter, canceller, shutdown caller or worker keeps the ownership invariant: who holds which job, in which state, with how many runs and callbacks behind it. |
| `JobProtocol.RunKeepsInvariant` | src/security_log_analysis_tool/pipeline/queue.py:235-357 | So does every interleaving of actions, of any length. |
| `JobTheorems.PlacementIsUnique` | src/security_log_analysis_tool/pipeline/queue.py:235-246 | In every reachable state each unfinished registered job is in exactly one place: the submission in progress, one queue slot, or one worker's hands; it is RUNNING exactly while one worker, and no other, has claimed it. |
| `JobTheorems.ClaimIsExclusive` | src/security_log_analysis_tool/pipeline/queue.py:305-313 | Pending never exceeds the bound; the token of a claimed job is always found, so the early return at 312 is dead; the snapshot a worker publishes is not stale: apart from status and outcome it is the registered record. |
| `JobTheorems.StepMoves` | src/security_log_analysis_tool/pipeline/queue.py:142-180 | One action changes an accepted job not at all or along one edge of the life cycle, and never its files or submitter. |
| `JobTheorems.StatusOnlyAdvances` | src/security_log_analysis_tool/pipeline/queue.py:305-357 | Over every run an accepted job only moves QUEUED to RUNNING to DONE, FAILED or CANCELLED, or QUEUED to CANCELLED; a finished record never changes again; `worker.run` is started at most once. |
| `JobTheorems.ResultIsPublished` | src/security_log_analysis_tool/pipeline/queue.py:315-357 | What `worker.run` came to is what the registry shows ever after, whatever interleaves: DONE with exactly the findings returned, FAILED with the error raised, CANCELLED if it aborted; id, files and submitter as submitted. |
| `JobTheorems.CancelledBeforeClaimNeverRuns` | src/security_log_analysis_tool/pipeline/queue.py:169-180 | Once the token is set while the job is unclaimed, no later step of any thread makes it RUNNING or runs it. |
| `JobTheorems.CancelAnswers` | src/security_log_analysis_tool/pipeline/queue.py:254-268 | Although its four steps interleave with everything: True means the token is set and that from then on, in every later state, the job is refused or no longer QUEUED; False for an id whose token it found means the job was refused or is finished. |
| `JobTheorems.NoJobIsCancelledUnasked` | src/security_log_analysis_tool/pipeline/queue.py:142-180 | In every reachable state a job that is CANCELLED without having run has its token set. |
| `JobTheorems.UncancelledJobHasRun` | src/security_log_analysis_tool/pipeline/queue.py:305-357 | An accepted job whose token was never set has, once it is over, run exactly once. |
| `JobTheorems.CallbackPrecedesDone` | src/security_log_analysis_tool/pipeline/queue.py:347-357 | `on_done` returns at most once per job; wherever DONE is visible it has already returned, even if it raised; where it has returned the job is DONE or still RUNNING. |
| `JobTheorems.CallbackOnlyForDone` | src/security_log_analysis_tool/pipeline/queue.py:340-357 | A job whose `on_done` has returned can end in no status but DONE. |
| `JobTheorems.RefusedLeavesNothing` | src/security_log_analysis_tool/pipeline/queue.py:236-245 | A submission that raised leaves, from then on, no record, no token, no queue slot and no id in any worker's hands. |
| `JobTheorems.StepDrains` | src/security_log_analysis_tool/pipeline/queue.py:279-303 | After the flag is set nothing enters the queue, and every worker step strictly lowers the measure of pending jobs, worker phases and live workers; no other step changes it. |
| `JobTheorems.DrainTerminates` | src/security_log_analysis_tool/pipeline/queue.py:291-303 | After shutdown the workers take at most that many further steps, whatever else interleaves, and the queue is always a suffix of what it was. |
| `JobTheorems.WorkersNeverBlock` | src/security_log_analysis_tool/pipeline/queue.py:291-303 | A worker has no next step iff it has exited. |
| `JobTheorems.DrainKeepsItsPromise` | src/security_log_analysis_tool/pipeline/queue.py:231-234 | Exactly when the promise made here is kept, as things stand at any time once the flag is set: however the threads go on, all accepted jobs are finished when the last worker is gone, iff some worker has yet to take a look at the queue or only cancelled jobs are queued. |
| `JobTheorems.DrainIsComplete` | src/security_log_analysis_tool/pipeline/queue.py:291-299 | Once all workers have exited, every accepted job is finished iff only cancelled jobs are left in the queue; that holds whenever some worker's final Empty came after the flag was set. |
| `JobTheorems.StrandedJob` | src/security_log_analysis_tool/pipeline/queue.py:295-299 | The other case is reachable: with a submission and the shutdown between a worker's Empty (295) and its flag test (297), all workers are gone and an accepted job is queued for ever. |
| `JobQueueCode.SubmitRun` | src/security_log_analysis_tool/pipeline/queue.py:235-246 | The actions of an uninterrupted submission: it is accepted iff the queue is open and has room, refused otherwise, and then registry, tokens and queue are as they were. |
| `JobQueueCode.CancelRun` | src/security_log_analysis_tool/pipeline/queue.py:254-268 | The actions of an uninterrupted cancel: the token is set, and a queued job flipped, exactly when the job is known and unfinished. |
| `JobQueueCode.ProcessRun` | src/security_log_analysis_tool/pipeline/queue.py:305-357 | The actions of an uninterrupted `_process`, from a dequeued id to the published record. |
| `JobQueueCode.JobQueue.constructor` | src/security_log_analysis_tool/pipeline/queue.py:190-210 | A new queue is in the protocol's initial state. |
| `JobQueueCode.JobQueue.CheckFlag` | src/security_log_analysis_tool/pipeline/queue.py:236 | One access, one action: the flag is read under the lifecycle lock. |
| `JobQueueCode.JobQueue.AddJob` | src/security_log_analysis_tool/pipeline/queue.py:238 | One registry write, one action: record and token are registered. |
| `JobQueueCode.JobQueue.PutNoWait` | src/security_log_analysis_tool/pipeline/queue.py:240 | One queue operation, one action: appended iff there is room. |
| `JobQueueCode.JobQueue.RemoveJob` | src/security_log_analysis_tool/pipeline/queue.py:242 | One registry write, one action. |
| `JobQueueCode.JobQueue.SetShutdownEvent` | src/security_log_analysis_tool/pipeline/queue.py:280 | One flag access, one action. |
| `JobQueueCode.JobQueue.LookUpToken` | src/security_log_analysis_tool/pipeline/queue.py:262 | One registry read, one action. |
| `JobQueueCode.JobQueue.LookUpJob` | src/security_log_analysis_tool/pipeline/queue.py:263 | One registry read, one action. |
| `JobQueueCode.JobQueue.SignalToken` | src/security_log_analysis_tool/pipeline/queue.py:266 | The token is set before the record is touched: one action. |
| `JobQueueCode.JobQueue.Flip` | src/security_log_analysis_tool/pipeline/queue.py:267 | One registry write, one action, possible only once the token is set. |
| `JobQueueCode.JobQueue.GetWithTimeout` | src/security_log_analysis_tool/pipeline/queue.py:294 | The head of the queue, or nothing when it is empty: one action. |
| `JobQueueCode.JobQueue.SeesShutdown` | src/security_log_analysis_tool/pipeline/queue.py:297 | One flag access, one action, after the empty look. |
| `JobQueueCode.JobQueue.ClaimJob` | src/security_log_analysis_tool/pipeline/queue.py:306 | One registry write, one action. |
| `JobQueueCode.JobQueue.FetchToken` | src/security_log_analysis_tool/pipeline/queue.py:311 | One registry read, one action; null only for an id that is not registered. |
| `JobQueueCode.JobQueue.RunWorker` | src/security_log_analysis_tool/pipeline/queue.py:317 | The run of the claimed job, with the record that was claimed. |
| `JobQueueCode.JobQueue.Notify` | src/security_log_analysis_tool/pipeline/queue.py:352-356 | `on_done` is called once, with the finished record, before it is published. |
| `JobQueueCode.JobQueue.PublishRecord` | src/security_log_analysis_tool/pipeline/queue.py:357 | One registry write, one action. |
| `JobQueueCode.JobQueue.Submit` | src/security_log_analysis_tool/pipeline/queue.py:220-246 | The code takes exactly the protocol's actions in their order, its fields matching the protocol's state after each, with as many registry writes; it refuses when shutting down, raises QueueFull when full, and then leaves queue and registry unchanged. |
| `JobQueueCode.JobQueue.Cancel` | src/security_log_analysis_tool/pipeline/queue.py:254-268 | The code takes exactly the protocol's actions in their order, token before record; it answers True iff the job is known and unfinished, and changes only that job's record. |
| `JobQueueCode.JobQueue.RequestShutdown` | src/security_log_analysis_tool/pipeline/queue.py:279-280 | The locked part of `shutdown`: the flag is set, nothing else changes. |
| `JobQueueCode.JobQueue.Process` | src/security_log_analysis_tool/pipeline/queue.py:305-357 | The code takes exactly the protocol's actions in their order: claim, token, run, `on_done` for a job that is done, one single publication; the job ends in a final status. |
| `JobQueueCode.JobQueue.Turn` | src/security_log_analysis_tool/pipeline/queue.py:292-303 | One turn of the loop, in any state: the head of the queue is processed; with the queue empty the worker stops iff the flag is set. |
| `JobQueueCode.JobQueue.WorkLoop` | src/security_log_analysis_tool/pipeline/queue.py:291-303 | From a set flag a single worker empties the queue and exits, its last look after the flag. |
| `SlidingWindow.SlidingWindowCounter.Add` | src/security_log_analysis_tool/detection/base.py:78-85 | Appends, evicts what is older than the window, returns the bucket; other keys are untouched. |
| `SlidingWindow.SlidingWindowCounter.WindowAsOf` | src/security_log_analysis_tool/detection/base.py:87-96 | The recorded events of the key still in the window at that instant; records nothing. |
| `SlidingWindow.EvictionIsLossless` | src/security_log_analysis_tool/detection/base.py:78-96 | With non-decreasing instants per key, after any sequence of adds a bucket is the whole history of its key cut at the window, and so is any later look at it. |
| `SlidingWindow.EvictionIsLosslessIff` | src/security_log_analysis_tool/detection/base.py:70-73 | Exactly when eviction loses nothing, in whatever order events are added: a look at the window shows what the whole history would, iff no event of that window was followed by one more than a window later. |
| `SlidingWindow.EvictionNeedsOrder` | src/security_log_analysis_tool/detection/base.py:70-73 | An instance out of order: an event inside the window of a late one is already gone. |
| `DetectionRules.RunAppend` | src/security_log_analysis_tool/detection/brute_force.py:69-78 | Evaluating two batches one after the other on the carried state is evaluating their concatenation: same findings, same order, same state. |
| `DetectionRules.RunMeetsDeclaration` | src/security_log_analysis_tool/detection/brute_force.py:113-127 | The stateful, evicting evaluation yields exactly the findings declared over the whole event history, in order. |
| `DetectionRules.DetectorMeetsStatement` | src/security_log_analysis_tool/detection/brute_force.py:69-78 | For all five rules, unless evaluating raises: an address is reported iff some event of it triggers on its trailing window, once over the rule's lifetime, at the earliest such event. |
| `DetectionRules.RaisesExactly` | src/security_log_analysis_tool/detection/brute_force.py:123-140 | Evaluating raises IndexError iff the rule is the success rule, its threshold is below 1, and the earliest success of some address has no failure in the window before it. |
| `DetectionRules.ZeroThresholdRaises` | src/security_log_analysis_tool/detection/brute_force.py:123-140 | An instance: one success event under a threshold of zero. |
| `DetectionRules.SafeRulesDoNotRaise` | src/security_log_analysis_tool/detection/brute_force.py:123-140 | With a threshold of at least 1, or any other rule, it never raises, from any state. |
| `DetectionRules.FindingDescribesWindow` | src/security_log_analysis_tool/detection/brute_force.py:129-145 | The finding spans exactly the counted events: first attained, last the trigger's, at most a window apart; its count and evidence are theirs, one more for the success rule. |
| `DetectionRules.LevelGrowsByOne` | src/security_log_analysis_tool/detection/scanner.py:38-40 | Events, distinct paths and distinct users alike: one add raises what is compared with the threshold by at most one, and eviction never raises it. |
| `DetectionRules.DecidingLevelIsThreshold` | src/security_log_analysis_tool/detection/scanner.py:33-43 | When a counting rule reports, the deciding number is the threshold itself, never more. |
| `DetectionStatement.SameEventsCount` | src/security_log_analysis_tool/detection/brute_force.py:25-54 | Which events a rule counts and at which it may report, in terms of source, status, path prefix and the phrases "Failed password", "Accepted password" and "invalid user" in the message. |
| `DetectionStatement.FindingsAreExact` | src/security_log_analysis_tool/detection/brute_force.py:69-95 | Exactly what each of the five rules reports of any ordered events that do not make it raise: one finding for each first event of an address at which enough is shown, in their order, with rule, severity, instants, users, count and evidence of all the events within reach. Enough: `threshold` events of the address within the window that count; for a scanner burst with pairwise different non-empty paths, for an enumeration with pairwise different non-empty users. |
| `DetectionStatement.ReportedIffShown` | src/security_log_analysis_tool/detection/scanner.py:33-43 | An address is reported iff some event of it shows enough, and never twice. |
| `DetectionStatement.NeverMoreThanThreshold` | src/security_log_analysis_tool/detection/ssh_enum.py:26-36 | Where a counting rule reports, the events within reach show the threshold and no more. |
| `DetectionStatement.RaisesIffNothingInReach` | src/security_log_analysis_tool/detection/brute_force.py:119-140 | Evaluating raises iff the first success of some address that shows enough has no failure within reach. |
| `Detectors.BruteForceRule.Evaluate` | src/security_log_analysis_tool/detection/brute_force.py:69-78 | The loop over counter and flags steps exactly as the rule's function, from any carried state. |
| `Detectors.BruteForceSuccessRule.Evaluate` | src/security_log_analysis_tool/detection/brute_force.py:113-127 | Likewise for every threshold, combining `add` for failures with `window_as_of` for successes; it raises exactly when a finding would be built from an empty window, and then stops right after that event. |
| `Detectors.ScannerBurstRule.Evaluate` | src/security_log_analysis_tool/detection/scanner.py:33-43 | Likewise, for distinct non-empty paths. |
| `Detectors.SshInvalidUserEnumRule.Evaluate` | src/security_log_analysis_tool/detection/ssh_enum.py:26-36 | Likewise, for distinct non-empty users. |
| `Detectors.RateLimitAbuseRule.Evaluate` | src/security_log_analysis_tool/detection/rate_limit.py:24-33 | Likewise, for plain counts. |
| `Detectors.BuildRule` | src/security_log_analysis_tool/detection/__init__.py:38-50 | The rule object of the configured kind, fresh, unshared and unfed. |
| `Correlation.FindCorrelatedGroup` | src/security_log_analysis_tool/correlation/engine.py:72-92 | The early-return scan returns the group of the first anchor that meets the thresholds. |
| `Correlation.GroupIffSubset` | src/security_log_analysis_tool/correlation/engine.py:82-92 | The greedy scan returns a group iff some subset of the findings, at least one, spans at most the window and meets both thresholds; the group is such a subset, and none starts earlier. |
| `Correlation.GroupIsWindow` | src/security_log_analysis_tool/correlation/engine.py:83-84 | Ties included, the group is everything that starts within a window of its first member. |
| `Correlation.GroupByIp` | src/security_log_analysis_tool/correlation/engine.py:52-56 | Groups the findings with an address by address, each in input order, addresses in order of first occurrence. |
| `Correlation.CorrelateOne` | src/security_log_analysis_tool/correlation/engine.py:40-69 | One report for each address that has a group, in order of first occurrence. |
| `Correlation.Correlate` | src/security_log_analysis_tool/correlation/engine.py:23-37 | The reports of all configurations, in configuration order. |
| `Correlation.CorrelationIsExact` | src/security_log_analysis_tool/correlation/engine.py:58-69 | One configuration reports an address iff some subset of that address's findings qualifies, and reports it once. |
| `Correlation.ReportIsItsWindow` | src/security_log_analysis_tool/correlation/engine.py:95-115 | A report sums up everything its address did from its first instant on for one window (instants, rules, users, count, evidence); it meets the thresholds, and no qualifying subset starts earlier. |
| `Correlation.CorrelationIgnoresOrder` | src/security_log_analysis_tool/correlation/engine.py:52-69 | Permuting the findings, ties included, changes neither the reported addresses nor, for each, rules, users, instants, count and evidence items. |
| `CorrelationStatement.ReportedIffTogether` | src/security_log_analysis_tool/correlation/engine.py:82-92 | An address is reported iff some of its findings, at least one, start within one window, have as many different rule ids as asked for and, only if that is asked for, are of rules configured for both sources; it is reported once. |
| `CorrelationStatement.OneSourceCanSuffice` | src/security_log_analysis_tool/correlation/engine.py:88-89 | Without the demand for distinct sources, two findings of different rules within a window suffice under a demand for two rules, wherever they come from. |
| `CorrelationStatement.ReportIsExact` | src/security_log_analysis_tool/correlation/engine.py:95-115 | Exactly what a report says: id and severity of its configuration; instants, rule ids, users, count and evidence, in order, of everything of its address that starts within a window from its first instant on, sorted by first instant; that is enough, and nothing that is enough starts earlier. |
| `CorrelationStatement.ReportsInOrder` | src/security_log_analysis_tool/correlation/engine.py:52-69 | Addresses are reported in the order in which their findings first occur. |
| `Sequences.StableSortIsUnique` | src/security_log_analysis_tool/pipeline/engine.py:69 | The model's sort is the only result with the two documented properties: ordered, and stable. |
| `Sequences.FilterSort` | src/security_log_analysis_tool/pipeline/watch.py:139-145 | Selecting a rule's source before or after the sort is the same. |
| `Sequences.SortAppend` | src/security_log_analysis_tool/pipeline/watch.py:139 | Sorting the concatenation of batches that do not go back in time is concatenating the sorted batches. |
| `Sequences.SortByKeys` | src/security_log_analysis_tool/pipeline/engine.py:69 | Two lists sort alike iff they agree at every instant. |
| `IncrementalRules.StreamEqualsBatch` | src/security_log_analysis_tool/pipeline/watch.py:135-146 | Over any batching that never goes back in time, each rule ends in the same state with the same findings in the same order as in one pass over the stably sorted whole. |
| `IncrementalRules.SourceSelectionCommutes` | src/security_log_analysis_tool/pipeline/watch.py:139-145 | What a rule receives is the same whether its source is selected before or after sorting. |
| `IncrementalRules.BufferIsWindow` | src/security_log_analysis_tool/pipeline/watch.py:151-157 | After any run the retained buffer is exactly the window of the newest finding, cut from everything ever fed. |
| `IncrementalRules.NewestNeverFalls` | src/security_log_analysis_tool/pipeline/watch.py:154-157 | The newest retained `last_seen` never decreases, and everything retained lies within the window of it. |
| `IncrementalRules.EmissionsAreSound` | src/security_log_analysis_tool/pipeline/watch.py:148-167 | Whatever is ever emitted, one batch correlation over all findings fed so far reports under the same configuration for the same address. |
| `IncrementalRules.EmittedOnce` | src/security_log_analysis_tool/pipeline/watch.py:159-166 | No two emissions of a run agree in address and rule ids; the remembered pairs are exactly those emitted. |
| `IncrementalRules.SeenExactly` | src/security_log_analysis_tool/pipeline/watch.py:151-166 | Exactly which keys are emitted over a run: those that a correlation over the window of the newest finding reports at the end of some feed. |
| `IncrementalRules.EmittedIffQualifiesInTime` | src/security_log_analysis_tool/pipeline/watch.py:151-166 | Exactly which addresses: those some of whose findings qualify and, at the end of some feed, all end within the window before the newest finding fed so far. A batch correlation asks for the first half alone. |
| `IncrementalRules.NothingPrunedNothingMissed` | src/security_log_analysis_tool/pipeline/watch.py:154-166 | While all findings end within one window, every report of a batch correlation over them has been emitted under its own key. |
| `IncrementalRules.PruningCanDropAGroup` | src/security_log_analysis_tool/pipeline/watch.py:154-158 | Otherwise a group can be lost: a single feed also brings a finding of another address that is newer by more than the window. |
| `IncrementalRules.LongFindingDropsAGroup` | src/security_log_analysis_tool/pipeline/watch.py:154-158 | It can be lost with one address and one finding a feed as well: groups are measured by first instants, the buffer is cut by last instants. |
| `IncrementalRules.FedIsFoundAndEmitted` | src/security_log_analysis_tool/pipeline/watch.py:135-146 | All that feeding returns over a run is all that the rules found and all that the correlation emitted, nothing else. |
| `IncrementalStatement.BufferIsExact` | src/security_log_analysis_tool/pipeline/watch.py:151-157 | Exactly what is retained: of all findings fed those, in order, than which none ends later by more than the window. |
| `IncrementalStatement.EmittedExactly` | src/security_log_analysis_tool/pipeline/watch.py:159-167 | Exactly what is emitted: each pair of an address and a set of rule ids that the findings not outdated at the end of some feed are reported under, and each such pair once. |
| `IncrementalStatement.EmittedIffTogetherInTime` | src/security_log_analysis_tool/pipeline/watch.py:151-166 | Exactly which addresses: those with enough findings that start within one window and that are all not yet outdated at the end of some feed. |
| `IncrementalStatement.GrowingGroupIsEmittedAgain` | src/security_log_analysis_tool/pipeline/watch.py:163-166 | An instance: two rules in one feed and a third in the next are emitted as two rules and then as three. |
| `IncrementalStatement.FoundRuleByRule` | src/security_log_analysis_tool/pipeline/watch.py:138-145 | What the rules find in a batch is, rule by rule in configuration order, what each adds to what it has found before. |
| `IncrementalStatement.FedIsFoundThenEmitted` | src/security_log_analysis_tool/pipeline/watch.py:146 | One feed returns first what the rules find and then what the correlation emits beyond what it has emitted before. |
| `Configuration.DetectorsAreEnabled` | src/security_log_analysis_tool/pipeline/engine.py:75-77 | The detectors are the enabled rules that are not correlations, as configured and in order. |
| `Configuration.CorrelationsAreEnabled` | src/security_log_analysis_tool/pipeline/engine.py:78-80 | The correlations are the enabled correlation rules, as configured and in order. |
| `Configuration.SourceIsConfigured` | src/security_log_analysis_tool/pipeline/engine.py:81 | What correlation knows of a rule id is the source of the last enabled detector with that id. |
| `Configuration.CorrelationWindow` | src/security_log_analysis_tool/pipeline/watch.py:124-129 | The widest configured correlation window: attained, exceeded by none; 600 without any. |
| `Watch.IncrementalAnalyzer.constructor` | src/security_log_analysis_tool/pipeline/watch.py:115-133 | Rules in configuration order, all fresh, with the widest correlation window. |
| `Watch.IncrementalAnalyzer.EvaluateRules` | src/security_log_analysis_tool/pipeline/watch.py:138-145 | Every rule that has events in the batch evaluates them, in order; each is then where feeding it all batches puts it. |
| `Watch.IncrementalAnalyzer.Feed` | src/security_log_analysis_tool/pipeline/watch.py:135-146 | New findings then new correlations, as the streaming functions say; an empty batch changes nothing. |
| `Watch.IncrementalAnalyzer.CorrelateNew` | src/security_log_analysis_tool/pipeline/watch.py:148-167 | Append, prune to the window, correlate, and emit what has an unseen key. |
| `Tailing.SplitJoins` | src/security_log_analysis_tool/pipeline/watch.py:93-96 | Splitting loses no byte and every part is one line. |
| `Tailing.SplitIsUnique` | src/security_log_analysis_tool/pipeline/watch.py:93-96 | Nothing else has these two properties. |
| `Tailing.SplitResumes` | src/security_log_analysis_tool/pipeline/watch.py:92-95 | Splitting may stop at any byte, inside a CRLF or a multibyte character, and go on from the partial line alone. |
| `Tailing.LinesAreExact` | src/security_log_analysis_tool/pipeline/watch.py:92-96 | The bytes are cut after each line feed; what comes out is the decoded text of each piece without the carriage returns at its end, and what is left over has no line feed. |
| `Tailing.FileTailer.Poll` | src/security_log_analysis_tool/pipeline/watch.py:69-96 | One poll, chunk cap, missing and unreadable files included, as the step function says. |
| `Tailing.FileTailer.HandleRotation` | src/security_log_analysis_tool/pipeline/watch.py:98-104 | A changed inode or a shrunken file starts over; otherwise only the inode is noted. |
| `Tailing.TailerIsExact` | src/security_log_analysis_tool/pipeline/watch.py:69-96 | For any interleaving of appends and polls on one growing file and any chunk cap: the outputs are exactly the decoded complete lines before the offset, in order, none lost or repeated; the buffer is the partial line; no false rotation fires. |
| `Tailing.StaticFileIsReadFully` | src/security_log_analysis_tool/pipeline/watch.py:86-90 | A file that has stopped growing, whatever it showed before (growing, missing, unreadable): each further poll gets one chunk further, and it is read to its end once the chunks cover what was left. |
| `Tailing.RotationStartsOver` | src/security_log_analysis_tool/pipeline/watch.py:98-104 | From a poll on that shows another inode, where inodes are reported, or fewer bytes than were read, tailer and output are those of a fresh tailer over all later polls. |
| `Tailing.ReplacedFilesAreReadInTurn` | src/security_log_analysis_tool/pipeline/watch.py:98-104 | Over any number of replacements that show in the inode, once the file before has been seen, or in the length, the complete lines of each file come out in turn up to where it was read, and nothing of one file leaks into the next. |
| `Tailing.RunConsumes` | src/security_log_analysis_tool/pipeline/watch.py:69-96 | The same exactness from anywhere in a file that is then only appended to. |
| `Tailing.UnseenReplacement` | src/security_log_analysis_tool/pipeline/watch.py:28-33 | The documented blind spot: a replacement that keeps or hides its inode and is at least as long as the offset is unseen at every later poll, and what comes out is the lines of a splice, the old file up to the offset and the new one from there on. |
| `WatchReading.FileIsAccountedFor` | src/security_log_analysis_tool/pipeline/watch.py:222-251 | Over any polls of a file: parsed and pending lines are one stretch of the tailed lines, each under its own number, preceded only by those trimmed while unsniffed; while no parser is known exactly the newest 100 are pending, and none afterwards; lines = events + failures + pending + trimmed. Each line is parsed at an instant of its own, which dates it if it carries no year. |
| `WatchReading.GrowingFileIsParsedInPlace` | src/security_log_analysis_tool/pipeline/watch.py:222-251 | End to end for a growing file: every parsed or pending line is the line of the file at its number. |
| `WatchReading.EveryItemIsCounted` | src/security_log_analysis_tool/pipeline/watch.py:244-249 | Each line parsed yields one event or one failure. |
| `WatchReading.EventsOfAppend` | src/security_log_analysis_tool/pipeline/watch.py:244-249 | The events of a stretch of lines, each dated by the instant at which it is parsed, are those of its parts in order: parsing over several polls loses and repeats nothing. |
| `WatchReading.EventsInOrder` | src/security_log_analysis_tool/pipeline/watch.py:244-249 | The events are those of the lines that parse, each once and in order; the failures are the others. |
| `WatchReading.ParserIsFirstResolved` | src/security_log_analysis_tool/pipeline/watch.py:231-242 | The parser of a file is the first that a sample resolves to, the newest 100 lines from before a poll and those it brings, and it is kept. |
| `WatchBooks.ReadIsSound` | src/security_log_analysis_tool/pipeline/watch.py:222-251 | Reading one file leaves every other where its own polls put it, keeps the counters equal to what the files yielded, and returns what continues that file's events. |
| `WatchBooks.LinesAreConserved` | src/security_log_analysis_tool/pipeline/watch.py:188-193 | Over all files: lines numbered = events + failures + pending + trimmed; at most 100 pending per file, none once its parser is known. |
| `WatchBooks.SessionConserves` | src/security_log_analysis_tool/pipeline/watch.py:195-206 | The same at every poll boundary of every session, with the events being those of the batches. |
| `WatchBooks.BatchFileByFile` | src/security_log_analysis_tool/pipeline/watch.py:195-200 | The batch of a poll is what its files yield, in the order in which they are named, each going on from where its own polls have left it. |
| `WatchSessions.WatchSession.constructor` | src/security_log_analysis_tool/pipeline/watch.py:173-193 | Every file starts untailed with nothing pending, one tailer each. |
| `WatchSessions.WatchSession.ReadFileEvents` | src/security_log_analysis_tool/pipeline/watch.py:222-251 | The code reads one file as the books say, touching no other tailer. |
| `WatchSessions.WatchSession.NumberAndParse` | src/security_log_analysis_tool/pipeline/watch.py:225-251 | Number, gather, sniff, trim to 100 or parse and clear. |
| `WatchSessions.WatchSession.FeedBatch` | src/security_log_analysis_tool/pipeline/watch.py:201-203 | What the analyzer returns for the batch is what the poll returns; the counters rise by what was read and found. |
| `WatchSessions.WatchSession.PollOnce` | src/security_log_analysis_tool/pipeline/watch.py:195-206 | All files in order, then one feed of the batch, whose findings are returned. After every poll the books, the batches fed and all findings returned so far are those of the sequence of polls. |
| `WatchFindings.SessionFindsWhatTheEngineFinds` | src/security_log_analysis_tool/pipeline/watch.py:195-206 | From file bytes to findings: if a session has read the events of an analysis, in batches that never go back in time, its findings are, one for one, those that the rules find in the analysis and the correlations emitted, and for each of these the findings of the analysis hold a correlation of the same rule and address. |
| `Engine.AnalysisEngine.Analyze` | src/security_log_analysis_tool/pipeline/engine.py:42-97 | The method computes exactly the analysis the lemmas below are about, errors included. |
| `Engine.AnalysisEngine.ReadFiles` | src/security_log_analysis_tool/pipeline/engine.py:47-59 | Web files are parsed at once, auth files put aside, and the first file that cannot be opened ends the run. |
| `Engine.PendingIsAll` | src/security_log_analysis_tool/pipeline/engine.py:61-67 | Deferring the auth files loses none of their events or failures. |
| `Engine.AnalysisEngine.LatestOrNow` | src/security_log_analysis_tool/pipeline/engine.py:99-112 | The maximum instant of the events, or now where there are none. |
| `AnalysisModel.LatestIsMax` | src/security_log_analysis_tool/pipeline/engine.py:110-111 | That maximum is attained and no event is later. |
| `Engine.AnalysisEngine.ParseLines` | src/security_log_analysis_tool/pipeline/engine.py:130-138 | Lines are numbered from 1; each outcome goes to events or failures, in order. |
| `Engine.AnalysisEngine.Detect` | src/security_log_analysis_tool/pipeline/engine.py:75-93 | Fresh rules over the events of their sources, then correlation over all that they found. |
| `AnalysisStatement.AnalysisFindings` | src/security_log_analysis_tool/pipeline/engine.py:75-97 | The findings of an analysis are all that the enabled detectors report, one after the other, of the events of their sources, followed by all that the enabled correlations report of those findings; the events are ordered by time. |
| `AnalysisStatement.RulesFindIff` | src/security_log_analysis_tool/pipeline/engine.py:83-91 | The rules report an address under an id iff for some enabled detector of that id the events of its source show enough. |
| `AnalysisStatement.CorrelationFindsIff` | src/security_log_analysis_tool/pipeline/engine.py:93 | Correlation adds a finding under an id and an address iff under some enabled correlation of that id the rules' findings of the address belong together. |
| `AnalysisStatement.AnalysisEvents` | src/security_log_analysis_tool/pipeline/engine.py:47-69 | Exactly what comes out of the files: each line of each file parsed, by the parser that its first 20 lines select, as an event or a failure under its number; yearless lines dated by the latest web event of the whole run, or by the current time where there is none. |
| `AnalysisStatement.AnalysisFailsIff` | src/security_log_analysis_tool/pipeline/engine.py:114-128 | The run fails with an error iff that is the error of the first file that is missing, unreadable or of unknown format. |
| `AnalysisStatement.ParsedInOrder` | src/security_log_analysis_tool/pipeline/engine.py:130-138 | The events of a file are those of its lines that parse, in order, each under its number. |
| `AnalysisModel.EveryLineComesOutOnce` | src/security_log_analysis_tool/pipeline/engine.py:130-138 | Every (file, line number) comes out exactly once, as an event or a failure, for each time the file is named, and nothing else does; the events are a sorted permutation of those parsed. |
| `AnalysisModel.NoErrorMeansOpen` | src/security_log_analysis_tool/pipeline/engine.py:114-128 | The run fails iff some file is missing, unreadable or of unknown format, with the error of such a file. |
| `AnalysisModel.ReferenceIgnoresOrder` | src/security_log_analysis_tool/pipeline/engine.py:47-67 | As soon as one web event parses, the reference instant depends neither on the order of the files nor on when the run takes place. |
| `AnalysisModel.FileOrderIsImmaterial` | src/security_log_analysis_tool/pipeline/engine.py:47-69 | Permuting the files, the run fails or succeeds alike, with the same multisets of events and failures. |
| `FileOrder.FileOrderKeepsFindings` | src/security_log_analysis_tool/pipeline/engine.py:47-93 | Where no two files read by the same parser have events at one instant, events and findings are identical; ties inside a file, and between a web and an authentication log, do not matter. |
| `FileOrder.OrderIsImmaterialIffApart` | src/security_log_analysis_tool/pipeline/engine.py:47-69 | And only there: the events are the same under every order of the files iff no two files of one parser share an instant. |
| `FileOrder.TiesLetOrderMatter` | src/security_log_analysis_tool/pipeline/engine.py:47-93 | Two web logs of one line each, a failed and a successful login of one address at one instant: named in one order the analysis finds something, in the other nothing. |
| `AnalysisModel.WatchFindsWhatTheEngineFinds` | src/security_log_analysis_tool/pipeline/watch.py:135-146 | In any batches that never go back in time, the live rules find, finding for finding, what the engine finds in one pass. |
| `AnalysisStatement.WatchFindsWhatAnalysisFinds` | src/security_log_analysis_tool/pipeline/watch.py:135-167 | Fed the events of an analysis in any batches that never go back in time, the live rules find, one for one, what the rules find in the analysis; and for every correlation emitted the findings of the analysis hold one of the same rule and address. |
| `SyslogYear.LeapWithinEight` | src/security_log_analysis_tool/parsers/syslog_auth.py:46 | Every eight consecutive years contain a leap year. |
| `SyslogYear.LeapDaySearch` | src/security_log_analysis_tool/parsers/syslog_auth.py:81-85 | From reference year 1004 on, the search for 29 February stops at the nearest earlier leap year, within its depth. |
| `SyslogYear.InferenceIsLatestPlausible` | src/security_log_analysis_tool/parsers/syslog_auth.py:63-86 | The result is the latest plausible year, and none only for dates that exist in no year, iff: the reference year is at least 1004, or the date is impossible, or it is an ordinary date that needs no year below 1000. |
| `SyslogYear.InferredIsLatestUpToHorizon` | src/security_log_analysis_tool/parsers/syslog_auth.py:63-86 | The inferred year is the latest, up to the reference year or the one before, in which the date exists. |
| `SyslogYear.SameYearIff` | src/security_log_analysis_tool/parsers/syslog_auth.py:63-86 | Two references give a line the same year iff no year in which its date exists lies between their horizons; a later horizon never gives an earlier year. |
| `SyslogYear.OrdinaryYearFollowsHorizon` | src/security_log_analysis_tool/parsers/syslog_auth.py:74-80 | Any date but 29 February changes its year exactly with the horizon. |
| `SyslogYear.TurnOfTheYear` | src/security_log_analysis_tool/parsers/syslog_auth.py:74-80 | From one second to the next, at the turn of 2024, a line of 3 February changes its year and a line of 30 December does not. |
| `SyslogYear.CalendarDates` | src/security_log_analysis_tool/parsers/syslog_auth.py:49-60 | Which dates exist: a table of the lengths of the months and the Gregorian rule for 29 February. |
| `YearlessLines.ClockTicks` | src/security_log_analysis_tool/parsers/syslog_auth.py:49-60 | The instants of dates and times are those of a clock: each second of the calendar is a million microseconds after the one before, across minutes, hours, days, months and years. |
| `YearlessLines.LineIsDated` | src/security_log_analysis_tool/parsers/syslog_auth.py:102-118 | A line fails iff it has not the format or a date of no year; otherwise its event carries the instant of its date in the latest year that it may be from. |
| `YearlessLines.YearShowsInInstant` | src/security_log_analysis_tool/parsers/syslog_auth.py:49-60 | The same date and time in another year is another instant. |
| `YearlessLines.ReadAlikeIff` | src/security_log_analysis_tool/parsers/syslog_auth.py:102-117 | Whether a line yields an event does not depend on when it is read; what it yields does exactly when a year in which its date exists lies between the horizons. |
| `YearlessLines.WatchReadsAsTheEngineIff` | src/security_log_analysis_tool/parsers/syslog_auth.py:110-113 | A live session and the engine read the same events from a file iff every line is dated alike by the clock at which the session parsed it and by the engine's reference; the failures are as many in any case. |
| `Lockout.AuthService.CreateUser` | src/security_log_analysis_tool/auth/service.py:59-65 | Empty name, weak password and taken name are refused, in this order of precedence and only for that reason, without changing the store; otherwise a clean account is added. |
| `Lockout.AuthService.Login` | src/security_log_analysis_tool/auth/service.py:67-87 | The code takes exactly one step of the lockout state machine. |
| `Lockout.AuthService.RecordFailure` | src/security_log_analysis_tool/auth/service.py:89-94 | One more failure; from the fifth on, a lock of fifteen minutes from now. |
| `Lockout.AuthService.UpdateAuthState` | src/security_log_analysis_tool/auth/store.py:113-121 | Overwrites counter and lock of that user only; an unknown user changes nothing. |
| `Lockout.StripIsExact` | src/security_log_analysis_tool/auth/service.py:60-68 | A stripped name is what is left between white space, and neither starts nor ends with any. |
| `Lockout.StripIsUnique` | src/security_log_analysis_tool/auth/service.py:60-68 | Nothing else has these properties. |
| `Lockout.UnknownNameIsInvalid` | src/security_log_analysis_tool/auth/service.py:68-74 | A login under a name without an account is answered like a wrong password at any time, and changes nothing. |
| `Lockout.RunsStayConsistent` | src/security_log_analysis_tool/auth/service.py:89-94 | Over every run `locked_until` is set iff `failed_attempts` is at least five, and no login creates or removes an account. |
| `Lockout.AccountsAreIndependent` | src/security_log_analysis_tool/auth/service.py:67-87 | What becomes of an account depends on the logins on that account alone. |
| `Lockout.LockHolds` | src/security_log_analysis_tool/auth/service.py:76-78 | While an account is locked every login on it is refused, whatever the password, and its record does not change. |
| `Lockout.AnswersFollowHistory` | src/security_log_analysis_tool/auth/service.py:67-94 | From outside: a new account answers locked iff its last five or more answers were failures and the latest is less than fifteen minutes old; otherwise it lets in exactly who has the password. |
| `Lockout.LocksPushBack` | src/security_log_analysis_tool/auth/service.py:89-94 | Every test of a password from the fifth on pushes the lock a further fifteen minutes back. |
| `Lockout.GuessesAreBounded` | src/security_log_analysis_tool/auth/service.py:67-94 | Without a success, at most 5 + floor(T / 900,000,000) passwords are tested against an account within T microseconds. |
| `Lockout.BoundIsMet` | src/security_log_analysis_tool/auth/service.py:67-94 | The bound is exact: some run reaches it, for every number of periods. |

## Left out

- Finding ids, titles and descriptions, evidence excerpts and redaction: random or derived text; findings are compared without them. The sorted tuples `users` and `correlated_rule_ids` are sets.
- Parsers, their regular expressions and sniff scores: which parser a sample selects and what a line yields are parameters; only that each parser stamps its source, file and line number is used. Text decoding and `splitlines` are not looked into.
- Engine.AnalysisEngine.Analyze: the detectors of `web_attacks.py`, `sudo_rules.py` and `login_anomaly.py` are not among its rules, because they only group within one call or keep state that no call carries over; a file named twice is read alike both times; a success rule with a threshold below 1, which would end the analysis with an IndexError, is excluded; warnings for failures are not logged.
- Engine.AnalysisEngine.Detect: likewise five of the nine rule types, and no rule that raises.
- Detectors.BuildRule: five of the nine registered types; an unknown type raises ValueError in the source and cannot be expressed here.
- Watch.IncrementalAnalyzer.Feed: the same five rule types, and no success rule with a threshold below 1.
- Job timestamps and statistics, `JobRegistry.list`, and the redaction of error text: no decision depends on them.
- `shutdown` after its locked part: joining threads with a timeout waits and reports, and changes no shared state.
- JobProtocol.StepKeepsInvariant: exceptions outside `Exception`, which would end a worker thread, and a `run` or `on_done` that never returns are not actions of the model.
- JobQueueCode.JobQueue.constructor: the source raises ValueError for a bound or worker count that is not positive; here they are required to be positive.
- JobQueueCode.JobQueue.Submit: the random job id is a parameter and is taken to be unused.
- JobQueueCode.JobQueue.WorkLoop: one worker alone from a set flag on, because a loop that waits for new work has no end; `Turn` is its body in any state, and all interleavings are covered by the transition system.
- JobQueueCode.JobQueue.Notify: the actions before and after the call of `on_done` are taken together here and apart in the transition system; what it raises is swallowed without a log entry.
- SlidingWindow.SlidingWindowCounter.Add: returns the bucket's contents, while the source returns the live list; no rule keeps it beyond the iteration.
- Tailing.FileTailer.Poll: what the file shows is one view per poll, so an append between the size test and the read belongs to the next view, and a replacement between them is not modelled.
- WatchSessions.WatchSession.PollOnce: the `on_findings` callback, an explicit unknown format (an exception in the source) and exceptions in the middle of a poll are not modelled; nor are `run`'s stop event and interval.
- WatchReading.FileIsAccountedFor: the clock is a parameter that says when a line of a file comes to be parsed, which happens at most once; it is not required to move forward.
- SyslogYear.InferenceIsLatestPlausible: month abbreviations are taken as already recognised or not; the `future_dated` mark is not modelled.
- YearlessLines.WatchReadsAsTheEngineIff: the calendar of a clock reading is a parameter; references before the year 1004 are excluded.
- Lockout.AuthService.Login: one login at a time over a map whose keys are the user names (the primary key of the table); SQLite, hashing, the dummy check for unknown users and concurrent logins are not modelled. Stripping knows the white space of Latin-1 only.
- Overflow of `datetime` beyond year 9999 when a window or lock is added: instants are unbounded integers of microseconds.
- Terminal UI, command line, reports, exporters, alerts, logging, configuration and environment loading: plumbing and validation branch by branch.
