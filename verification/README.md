# NexusPipe core, modelled and proved in Dafny

This project models the in-memory core of NexusPipe and proves what that code guarantees for every
input, every run and every interleaving. `dafny verify dfyconfig.toml` checks all of it.

| file | what it models |
|---|---|
| `Results.dfy`, `Durations.dfy` | optional values, results with an error, and time units, shared by the other files |
| `Digraph.dfy` | reference notions on finite directed graphs: walks, reachability, cycles, longest walks |
| `Kahn.dfy`, `Levelling.dfy` | the loop invariants of Kahn's algorithm and of the level labels beside it |
| `Graph.dfy` | the mutable graph: node and edge operations, topological sort, levels |
| `DagValidator.dfy` | the graph validator, and runs of edits guarded by it |
| `StageCycles.dfy` | the three-colour search over pipeline stages, and its agreement with Kahn's algorithm |
| `DagExecutor.dfy`, `SkipDependents.dfy` | level-by-level execution, and the marking of dependents of failed nodes |
| `TokenBucket.dfy`, `IpLimiter.dfy` | token buckets, and the per-address limiter that sweeps its map |
| `WindowLimiters.dfy` | the two counting limiters |
| `Notifier.dfy` | the webhook notifier with its queue, retry timers and dead letters |
| `WebhookManager.dfy` | the webhook registry and its routing index |
| `Breaker.dfy` | the circuit breaker |
| `Recovery.dfy` | missed-run counting and recovery |

## Conventions

- Iteration over a Go map has no fixed order, so every such loop picks its next key
  nondeterministically and contracts hold for all orders.
- Identifiers drawn at random (`uuid.New`) are parameters or a counter. Clocks are parameters. The
  outcomes of handlers, deliveries, jobs, store updates and cancellation are arbitrary.
- Token-bucket amounts and times are exact reals. All other times are integers.
- One request, one breaker transition, one pass over a notification task and one replay are atomic steps.
  Steps of different calls interleave freely.
- A send on the notifier's channel goes through exactly when the buffer has room. With a `QueueSize` of
  zero there is no buffer, and whether a receiver is waiting is arbitrary.
- Objects whose methods change fields are classes. Each method is tied to a function on snapshots,
  and the run-level theorems are proved about those functions.
- Reachability and cycle notions are over edge sets, so parallel edges and self-edges are included.

## What the code does that its names do not promise

- With `HalfOpenMaxCalls` below `SuccessThreshold`, which is the default, a breaker used
  sequentially never closes again once opened (`Breaker.ClosesIff`, `Breaker.DefaultNeverCloses`).
  Overlapping calls can still close it (`Breaker.OverlappingCallsCanClose`), or leave it half-open for
  good (`Breaker.StuckHalfOpenIff`).
- A webhook indexed while inactive is not found after reactivation until the next rebuild
  (`WebhookManager.StaleAfterReactivation`). `WebhookManager.LookupCompleteIff` gives the exact condition.
- Sweeping token buckets can be noticed when two cleanup intervals do not fill a bucket
  (`IpLimiter.SweepUnobservableIff`), and exactly then an address can get more than its burst plus its
  rate over some interval (`IpLimiter.PerAddressBoundIff`).
- The wait sent with a refusal is exact only if two cleanup intervals yield a token: otherwise a sweep
  can drop the bucket and admit the address earlier (`IpLimiter.WaitsExactIff`,
  `IpLimiter.EarlyAdmissionExample`). It is never too short (`IpLimiter.WaitNeverTooShort`).
- Recovery with a policy that does not persist finds the same runs again when repeated
  (`Recovery.RerunFindsNothingIff`). One that persists moves the last run only to the old next run, so
  a later recovery can count later runs again. `Recovery.CountedTwiceIff` gives the exact condition and
  `Recovery.DoubleRecoveryExample` an instance.
- A dry run still writes the next run under SkipAll and ExecuteLatest; only ExecuteAll heeds it
  (`Recovery.WritesNothingIff`).
- Of the two failure tests in `Execute` the second can never succeed: every failing node of a level
  is in the graph. `DagExecutor.RunLevel` proves this in place.
- `collectInputs` is given no graph, so handlers always receive empty inputs. Nothing here says that
  parent outputs reach children.
- A `DeadLetterLimit` of zero is accepted and makes the first burial slice an empty list, which panics
  (`Notifier.FirstBurialPanics`). Burying is safe in every run exactly when the limit is at least one
  (`Notifier.BuriesSafelyIff`).
- A notification with several failing webhooks is retried exponentially often: up to 7 passes with two
  and 8 with three or more, instead of 4 with one. The bound is attained for every number of webhooks
  (`Notifier.OneNotificationBound`, `Notifier.NotificationAttainsBound`).

## Model

| member | source | states |
|---|---|---|
| `Digraph.CyclicWithNewEdge` | internal/dag/validator.go:229-236 | an extra edge makes a graph cyclic exactly when it was cyclic already or the edge's target reached its source |
| `Digraph.CyclicReversed` | internal/pipeline/validator.go:202-209 | pointing every dependency edge the other way neither creates nor removes a cycle |
| `Digraph.LeftoverDownstream` | internal/dag/graph.go:170-185 | where every node has a predecessor inside a finite set, each of its nodes is on or downstream of a cycle (pigeonhole) |
| `Digraph.OrderedNotDownstream` | internal/dag/graph.go:170-185 | no node of a predecessors-first list is on or downstream of a cycle |
| `Digraph.LongestWalkVisitsEveryLevel` | internal/dag/graph.go:231-245 | the nodes of a longest walk have longest-walk lengths 0, 1, 2 and so on |
| `Kahn.RelaxTake` | internal/dag/graph.go:175-182 | scanning one edge out of the current node keeps every in-degree counter equal to the edges still waiting, and the queue equal to the open zero counters |
| `Kahn.KahnEnd` | internal/dag/graph.go:170-186 | when the queue is empty the taken nodes are exactly those no cycle leads to, and their number equals the node count exactly when there is no cycle |
| `Levelling.LabelsAreLongest` | internal/dag/graph.go:213-229 | once all nodes are taken each label is the length of a longest walk ending at its node |
| `Dag.Graph.constructor` | internal/dag/graph.go:26-31 | a new graph is empty and well formed |
| `Dag.Graph.AddNode` | internal/dag/graph.go:33-42 | adds or replaces the node under its identifier and keeps every edge between nodes |
| `Dag.Graph.AddNodeWithID` | internal/dag/graph.go:44-55 | refuses exactly the identifiers already present and then changes nothing |
| `Dag.Graph.AddEdge` | internal/dag/graph.go:57-71 | accepts exactly new edges between existing nodes and appends them, otherwise changes nothing |
| `Dag.Graph.RemoveNode` | internal/dag/graph.go:73-86 | removes the node with exactly the edges that touch it, keeping the order of the rest |
| `Dag.Graph.RemoveEdge` | internal/dag/graph.go:88-96 | removes exactly the first matching edge, and reports whether there was one |
| `Dag.Graph.Clear` | internal/dag/graph.go:273-276 | leaves the empty graph |
| `Dag.Graph.Children` | internal/dag/graph.go:124-134 | one node per edge leaving the given node, in edge order, and nothing else |
| `Dag.Graph.Parents` | internal/dag/graph.go:136-146 | one node per edge entering the given node, in edge order, and nothing else |
| `Dag.Graph.Sorted` | internal/dag/graph.go:154-183 | for any order of the initial queue the loop returns, each once and predecessors first, exactly the nodes no cycle leads to |
| `Dag.Graph.TopologicalSort` | internal/dag/graph.go:153-187 | reports a cycle exactly when the edges have one; always returns, each once and with predecessors first, exactly the nodes no cycle leads to |
| `Dag.Graph.HasCycle` | internal/dag/graph.go:148-151 | true exactly when the edges have a cycle |
| `Dag.Graph.LevelMap` | internal/dag/graph.go:195-229 | on an acyclic graph labels every node with the length of the longest walk ending at it |
| `Dag.Graph.MaxLevel` | internal/dag/graph.go:231-236 | the largest label, zero for an empty graph |
| `Dag.Graph.Bucketed` | internal/dag/graph.go:238-245 | deals the sorted nodes out so that each level holds exactly the nodes with its label, once each |
| `Dag.Graph.Levels` | internal/dag/graph.go:189-248 | fails exactly on cyclic graphs; otherwise each node appears at its longest-walk length, and no level of a non-empty graph is empty |
| `Dag.LevelsPartition` | internal/dag/graph.go:238-245 | no node is on two levels |
| `Dag.EdgesRise` | internal/dag/graph.go:217-227 | every edge leads to a strictly higher level |
| `Dag.DepthIsLongestWalk` | internal/dag/validator.go:153-174 | the number of levels is the node count of a longest walk |
| `DagValidator.Validator.ValidateCycles` | internal/dag/validator.go:77-110 | no error exactly on acyclic graphs; otherwise one error naming, once each, exactly the nodes on a cycle or reachable from one |
| `DagValidator.Validator.ValidateOrphanNodes` | internal/dag/validator.go:112-128 | reports exactly the nodes no edge touches |
| `DagValidator.Validator.ValidateDependencies` | internal/dag/validator.go:130-151 | reports exactly the edge ends that are not nodes, hence nothing for a graph built by its own operations |
| `DagValidator.Validator.ValidateMaxDepth` | internal/dag/validator.go:153-174 | no error exactly when no walk has more than the allowed number of nodes; the depth reported is the node count of a longest walk |
| `DagValidator.Validator.ValidateDAG` | internal/dag/validator.go:56-75 | valid exactly when no walk exceeds the depth limit (so no cycle) and no node is an orphan |
| `DagValidator.Validator.ValidateEdgeAddition` | internal/dag/validator.go:206-257 | accepts exactly when both ends exist, the graph is acyclic and the target does not reach the source; each error kind appears exactly in its case |
| `DagValidator.StepKeepsAcyclic` | internal/dag/graph.go:33-96 | any single edit, edges only after acceptance, keeps an acyclic graph acyclic and well formed |
| `DagValidator.GuardedRunAcyclic` | internal/dag/validator.go:206-257 | any mix of guarded additions and removals keeps the graph acyclic |
| `DagValidator.Apply` | internal/dag/graph.go:33-96 | the graph's own methods, guarded by the validator, carry out the modelled step |
| `DagValidator.RunGuarded` | internal/dag/graph.go:189-248 | after any guarded run from an acyclic graph the levels can be computed |
| `StageCycles.IndexStages` | internal/pipeline/validator.go:197-200 | maps every stage name to the last stage bearing it |
| `StageCycles.BuildAdjacency` | internal/pipeline/validator.go:202-209 | lists for each stage exactly the stages its dependency names resolve to |
| `StageCycles.Dfs` | internal/pipeline/validator.go:214-227 | terminates; a reported cycle is real; with none reported the node and all it reaches are finished, off every cycle, and the grey nodes are as before |
| `StageCycles.DetectCycles` | internal/pipeline/validator.go:196-242 | reports an error exactly when the stage dependencies have a cycle |
| `StageCycles.DetectorsAgree` | internal/pipeline/validator.go:196-242 | the depth-first search and Kahn's algorithm agree on every stage list |
| `DagExecutor.ExecuteLevel` | internal/dag/executor.go:162-267 | for every interleaving of the level's goroutines each node gets exactly one result: skipped exactly if it sees the cancellation, failed exactly if it does not and its handler returns an error, completed otherwise; a handler starts exactly for the nodes that have one and see no cancellation |
| `DagExecutor.BuildResult` | internal/dag/executor.go:326-340 | success exactly when no result is a failure |
| `DagExecutor.Failures` | internal/dag/executor.go:115-124 | tells whether some result failed, and whether one of a graph node did |
| `DagExecutor.RunLevel` | internal/dag/executor.go:106-143 | one level extends the run by exactly that level and halts exactly if the policy is FailFast and a handler of the level errs; the second failure test never succeeds |
| `DagExecutor.Execute` | internal/dag/executor.go:83-160 | fails exactly on cyclic graphs; at every exit the nodes with results are exactly the first k levels, closed under ancestors, each with the status its cancellation check and handler dictate; success is false exactly if a handler of those levels errs; a level with such a handler under FailFast is the last; no handler starts twice or before all parents have results |
| `DagExecutor.StatusesSpelledOut` | internal/dag/executor.go:162-267 | in a run every status and every handler start is fixed by cancellation, registered handlers and their errors alone |
| `DagExecutor.FailuresAreErrors` | internal/dag/executor.go:326-340 | the failures of a run are exactly the nodes of its levels whose handlers err |
| `DagExecutor.StopSpelledOut` | internal/dag/executor.go:126-135 | a run stops on a failure exactly if a handler errs in a level after which the policy is FailFast, and that level is the last |
| `DagExecutor.FailFastCutsOff` | internal/dag/executor.go:126-135 | under FailFast nothing deeper than a failing level has a result |
| `SkipDependents.MarkSkipped` | internal/dag/executor.go:288-305 | terminates on every graph; keeps the marking sound, and complete for nodes no longer being expanded |
| `SkipDependents.CompleteMarking` | internal/dag/executor.go:284-315 | a sound and complete marking holds exactly the nodes without result that lie below a root |
| `SkipDependents.Skip` | internal/dag/executor.go:284-315 | marks exactly the nodes without result one or more edges below a failed node of the level, on cyclic graphs too |
| `TokenBucket.TokensStayInRange` | internal/api/middleware/ratelimit.go:194-202 | on every forward trace the tokens stay between zero and the burst |
| `TokenBucket.AdmissionBound` | internal/api/middleware/ratelimit.go:100-118 | in any interval at most burst plus rate times its length requests are admitted |
| `TokenBucket.RefillComposes` | internal/api/middleware/ratelimit.go:194-202 | two refills in a row equal one |
| `TokenBucket.WaitIsExact` | internal/api/middleware/ratelimit.go:204-210 | a refused bucket holds a whole token exactly from the advertised instant on |
| `TokenBucket.RetryAfterIsExact` | internal/api/middleware/ratelimit.go:194-210 | for one bucket that is not swept: after a refusal every request before the advertised instant is refused and the first one from it on is admitted |
| `IpLimiter.RateLimiter.PerformCleanup` | internal/api/middleware/ratelimit.go:246-270 | when due, keeps exactly the buckets refilled within two intervals and notes the time; otherwise changes nothing |
| `IpLimiter.RateLimiter.GetOrCreateIPBucket` | internal/api/middleware/ratelimit.go:212-227 | returns the stored bucket, or stores and returns a full one |
| `IpLimiter.RateLimiter.IPRateLimit` | internal/api/middleware/ratelimit.go:100-118 | carries out one modelled request, keeps all buckets valid, and a refusal advertises the positive wait the theorems below are about |
| `IpLimiter.HandleSpelledOut` | internal/api/middleware/ratelimit.go:100-118 | a request is admitted exactly when its address has a token, counted from a full bucket or from the last refill, then takes one, and leaves all other buckets alone |
| `IpLimiter.CleanupIsTimely` | internal/api/middleware/ratelimit.go:246-270 | a request at least one interval after the last cleanup leaves no bucket older than two intervals |
| `IpLimiter.BucketsStayRecent` | internal/api/middleware/ratelimit.go:246-270 | in every trace no bucket is older than three intervals once a request has been handled |
| `IpLimiter.SimilarVerdicts` | internal/api/middleware/ratelimit.go:246-270 | simulation: if two intervals fill a bucket, the limiter and one that never sweeps give the same verdicts on every trace |
| `IpLimiter.SweepShows` | internal/api/middleware/ratelimit.go:246-270 | otherwise draining a bucket, waiting and draining it again tells them apart |
| `IpLimiter.SweepUnobservableIff` | internal/api/middleware/ratelimit.go:246-270 | the sweep is unobservable exactly when rate times two intervals reaches the burst |
| `IpLimiter.ProjectsToBucket` | internal/api/middleware/ratelimit.go:212-227 | in a mixed trace each address sees exactly its own bucket on its own requests |
| `IpLimiter.PerAddressBound` | internal/api/middleware/ratelimit.go:100-118 | if two intervals fill a bucket, every address gets at most burst plus rate times the length of any interval of any trace |
| `IpLimiter.BoundBroken` | internal/api/middleware/ratelimit.go:246-270 | otherwise two full volleys just over two intervals apart are all admitted and exceed that |
| `IpLimiter.PerAddressBoundIff` | internal/api/middleware/ratelimit.go:100-118 | all addresses, traces and intervals obey the bound exactly when two intervals fill a bucket |
| `IpLimiter.WaitsExactIfToken` | internal/api/middleware/ratelimit.go:100-118 | if two intervals yield a token, after any refusal in a mixed trace the address is refused until the advertised instant and admitted at its first request from then on |
| `IpLimiter.WaitCutShort` | internal/api/middleware/ratelimit.go:246-270 | otherwise some refused address is admitted early, because a sweep dropped its bucket |
| `IpLimiter.WaitsExactIff` | internal/api/middleware/ratelimit.go:100-118 | every advertised wait of every trace is exact exactly when rate times two intervals reaches one token |
| `IpLimiter.WaitNeverTooShort` | internal/api/middleware/ratelimit.go:204-210 | for all settings, swept or not, a refused address not admitted since is admitted at its first request from the advertised instant on |
| `IpLimiter.EarlyAdmissionExample` | internal/api/middleware/ratelimit.go:246-270 | rate 0.001, burst 1, interval 60: refused at 0 for 1000 seconds, admitted at 121 |
| `WindowLimiters.VisitorLimiter.AllowRequest` | internal/api/middleware.go:121-142 | counts the request in the running or a new window, admits it exactly if it opens one or the count is within the rate, and reports the rest of the rate and the second of the reset |
| `WindowLimiters.AllowExact` | internal/api/middleware.go:121-142 | in every trace a request is admitted exactly if its position in the busy stretch of its key is within the quota; remaining is the rate less that position, or 0 on a refusal; the reset is the second that contains the end of the window |
| `WindowLimiters.AllowExactWithCleanup` | internal/api/middleware.go:108-142 | the same with cleanup ticks anywhere in the trace |
| `WindowLimiters.VisitorLimiter.Cleanup` | internal/api/middleware.go:108-119 | drops exactly the visitors idle for more than two windows |
| `WindowLimiters.CleanupUnobservable` | internal/api/middleware.go:108-142 | whatever the rate and window, cleanup ticks never change an answer |
| `WindowLimiters.AllowBound` | internal/api/middleware.go:121-142 | in any span no longer than the window at most the rate passes per key |
| `WindowLimiters.AllowBusyBound` | internal/api/middleware.go:121-142 | however long the stretch, a key that is never idle for longer than the window gets at most the rate in it |
| `WindowLimiters.AllowBusyExact` | internal/api/middleware.go:121-142 | a whole busy stretch of n requests gets exactly the smaller of n and the rate |
| `WindowLimiters.KeyLimiter.CheckRateLimit` | internal/auth/apikey.go:239-259 | counts the request in the open or a new window, admits it exactly if it opens one or the count is within the rate, and keeps every counter positive |
| `WindowLimiters.CheckExact` | internal/auth/apikey.go:239-259 | in every trace a request is admitted exactly if its position in its fixed window is within the quota |
| `WindowLimiters.CheckBound` | internal/auth/apikey.go:239-259 | in any span no longer than the window at most twice the rate less one passes per key |
| `WindowLimiters.CheckBoundAttained` | internal/auth/apikey.go:239-259 | that bound is reached by a trace straddling two windows |
| `WindowLimiters.AllowImpliesCheck` | internal/auth/apikey.go:239-259 | on the same trace, rate and window everything `allow` admits is admitted here too |
| `Notifier.EventNotifier.Notify` | internal/webhook/notifier.go:140-171 | queues a fresh task when there are webhooks and the send goes through, otherwise drops it and reports, does nothing without webhooks |
| `Notifier.EventNotifier.Receive` | internal/webhook/notifier.go:201-209 | moves the head of the queue into the hands of a worker or the batcher |
| `Notifier.EventNotifier.ProcessTask` | internal/webhook/notifier.go:212-281 | one pass: one copy with the next counter for each failure while retries are left, a burial for each further one; a panicking burial ends it |
| `Notifier.SpawnedExactly` | internal/webhook/notifier.go:269-274 | the copies of a pass are as many as the failures and the retries left allow, with counters in a row |
| `Notifier.EventNotifier.RetryTask` | internal/webhook/notifier.go:283-300 | schedules a copy of the task |
| `Notifier.EventNotifier.FireTimer` | internal/webhook/notifier.go:289-299 | removes the timer and appends its task to the queue, or to the dead letters when that is full |
| `Notifier.EventNotifier.MoveToDeadLetter` | internal/webhook/notifier.go:344-371 | the new last entry holds the task and its counter, the others are the old ones, without the oldest if the list was full; panics exactly when full and empty at once |
| `Notifier.DeadLettersAreLatest` | internal/webhook/notifier.go:344-371 | in every run without replays and clears the dead letters are the latest burials, in order, up to the limit |
| `Notifier.EventNotifier.ReplayDeadLetter` | internal/webhook/notifier.go:382-415 | removes the first entry with the given identifier, queues its task with the counter at zero or buries it again like that; reports an unknown entry |
| `Notifier.EventNotifier.ReplayAllDeadLetter` | internal/webhook/notifier.go:417-436 | queues the tasks that are sent and buries the others again, each in order and with counters at zero, and counts those sent |
| `Notifier.ReplayAllSplits` | internal/webhook/notifier.go:417-436 | the tasks sent are those that fit, or that find a receiver on an unbuffered channel, and nothing is lost |
| `Notifier.EventNotifier.ClearDeadLetter` | internal/webhook/notifier.go:438-444 | empties the dead letters and reports how many there were |
| `Notifier.FailuresAccounted` | internal/webhook/notifier.go:269-274 | every failed delivery of a completed pass scheduled a copy or buried the task, and a pass schedules as many copies as failures and remaining retries allow |
| `Notifier.PassCrashesIff` | internal/webhook/notifier.go:356-358 | a pass panics exactly when no dead letter may be kept, none is there and there are more failures than retries left |
| `Notifier.SpawnedWeighsLess` | internal/webhook/notifier.go:216-280 | the copies a pass spawns weigh, in powers of two of their remaining retries, strictly less than the task |
| `Notifier.PotentialFalls` | internal/webhook/notifier.go:196-300 | the summed powers of two of the retries left fall at every pass and never rise without a notification or replay |
| `Notifier.SpawnedWithinForest` | internal/webhook/notifier.go:216-280 | whatever the outcomes of a pass, the worst cases of the copies it spawns fit into the worst case of the task |
| `Notifier.StepKeepsValid` | internal/webhook/notifier.go:140-444 | every step keeps the queue and the dead letters within their limits, entries in order of burial, counters within their limits, and never panics with a positive dead-letter limit |
| `Notifier.FirstBurialPanics` | internal/webhook/notifier.go:356-358 | with a dead-letter limit of zero a run of a new notifier panics |
| `Notifier.BuriesSafelyIff` | internal/webhook/notifier.go:344-371 | no run of a new notifier panics exactly when the dead-letter limit is at least one |
| `Notifier.WorkIsPaidFor` | internal/webhook/notifier.go:140-436 | in every run passes plus outstanding weight never exceed the initial weight plus what notifications and replays inject |
| `Notifier.OneCopyBound` | internal/webhook/notifier.go:212-300 | a queued copy with k retries left costs at most its worst-case tree, hence at most 2^k passes, in any run that does not queue its notification again |
| `Notifier.NotificationBound` | internal/webhook/notifier.go:140-436 | from any valid state, in any run, passes over a notification are at most the worst case of its copies plus one fresh worst case for each time it is notified or replayed |
| `Notifier.OneNotificationBound` | internal/webhook/notifier.go:140-300 | in any run, from any state that does not know it yet, a notification costs at most one worst-case tree for its number of webhooks for each time it enters the queue |
| `Notifier.AnyNotificationBound` | internal/webhook/notifier.go:140-300 | and at most 2^3 passes for each time, however many webhooks match |
| `Notifier.TreeWithinBounds` | internal/webhook/notifier.go:212-281 | the worst-case tree has at most 2^k passes, exactly 2^k with k or more webhooks, 2^k - 1 with k - 1, and k + 1 with one |
| `Notifier.WorstFillsForest` | internal/webhook/notifier.go:216-280 | a pass that fails while retries are left spawns copies whose worst cases make up that of the task exactly |
| `Notifier.WorstRun` | internal/webhook/notifier.go:196-300 | from waiting timers there is a run of working steps that makes every pass of their retry trees |
| `Notifier.NotificationAttainsBound` | internal/webhook/notifier.go:140-300 | in every configuration and for every number of webhooks an idle notifier has a run with one notification and exactly the passes of the worst-case tree |
| `Notifier.GoesQuiet` | internal/webhook/notifier.go:196-300 | without new notifications or replays only boundedly many steps remain |
| `Notifier.NeverStuck` | internal/webhook/notifier.go:196-300 | some working step is possible exactly while something is pending and no burial has panicked |
| `WebhookManager.IndexEventRoutes` | internal/webhook/manager.go:396-406 | adds exactly one route per occurrence of an event in the webhook's list |
| `WebhookManager.RebuildEventRoutes` | internal/webhook/manager.go:408-413 | in any order yields an index that counts every subscription and records current activity |
| `WebhookManager.Manager.RegisterWebhook` | internal/webhook/manager.go:84-132 | refuses exactly empty names, addresses or event lists; otherwise adds an active webhook and keeps the index correct |
| `WebhookManager.Manager.UpdateWebhook` | internal/webhook/manager.go:134-174 | each given field takes its value and each other keeps the old one; refreshes the index exactly when events are given, and keeps it correct |
| `WebhookManager.Manager.DeleteWebhook` | internal/webhook/manager.go:176-192 | removes exactly that webhook and keeps the index correct |
| `WebhookManager.Manager.SetWebhookStatus` | internal/webhook/manager.go:225-251 | changes only the status; the index stays correct and untouched |
| `WebhookManager.Manager.SubscribeToEvents` | internal/webhook/manager.go:275-288 | replaces the event list and keeps the index correct |
| `WebhookManager.Manager.AddEventSubscription` | internal/webhook/manager.go:290-309 | appends an event that is not yet listed, changes nothing otherwise, keeps the index correct |
| `WebhookManager.Manager.RemoveEventSubscription` | internal/webhook/manager.go:311-330 | removes all occurrences of the event, leaves every other one as often as before, and keeps the index correct |
| `WebhookManager.WithoutConcat` | internal/webhook/manager.go:320-325 | the filter works on each part of a list separately, so the remaining events keep their order |
| `WebhookManager.Manager.GetWebhooksForEvent` | internal/webhook/manager.go:253-273 | returns only active subscribers, and all of them when none was last indexed while inactive |
| `WebhookManager.Manager.HasSubscribers` | internal/webhook/manager.go:352-370 | true exactly when the lookup is not empty |
| `WebhookManager.Manager.SubscriberCount` | internal/webhook/manager.go:372-390 | the length of the lookup |
| `WebhookManager.LookupExact` | internal/webhook/manager.go:253-273 | a lookup lists an active webhook as often as it subscribed if it was active when last indexed, and nothing else |
| `WebhookManager.LookupCompleteIff` | internal/webhook/manager.go:253-273 | a lookup is complete exactly when no active subscriber was last indexed while inactive |
| `WebhookManager.StaleAfterReactivation` | internal/webhook/manager.go:225-288 | a concrete sequence after which an active subscriber is not found |
| `Breaker.CircuitBreaker.constructor` | internal/circuit/breaker.go:83-113 | replaces zero settings by the defaults and starts closed, with a valid configuration and the invariant of all runs |
| `Breaker.CircuitBreaker.CheckReady` | internal/circuit/breaker.go:137-161 | ready exactly if closed, or open for longer than a positive timeout (then half-open), or half-open with fewer outcomes than slots |
| `Breaker.CircuitBreaker.BeginCall` | internal/circuit/breaker.go:119-125 | counts the call, admits it exactly if ready and otherwise counts a failed call |
| `Breaker.CircuitBreaker.RecordFailure` | internal/circuit/breaker.go:163-182 | counts the failure; a half-open breaker opens, a closed one exactly at its threshold |
| `Breaker.CircuitBreaker.RecordSuccess` | internal/circuit/breaker.go:184-201 | counts the success; a closed breaker forgets its failures, a half-open one closes exactly at its threshold |
| `Breaker.CircuitBreaker.ChangeState` | internal/circuit/breaker.go:203-223 | changes the state, clears both counters, stamps the time and counts openings, unless already there |
| `Breaker.CircuitBreaker.ResetToClosed` | internal/circuit/breaker.go:225-236 | closes with cleared counters and reports half-open to closed |
| `Breaker.CircuitBreaker.ProbeTick` | internal/circuit/breaker.go:238-246 | turns an open breaker half-open after the timeout, nothing else |
| `Breaker.RunKeepsInvariant` | internal/circuit/breaker.go:119-246 | in every interleaving: total calls equal failed plus successful plus in flight, counters stay below their thresholds, openings are counted, only the four legal changes occur in a chain, and nothing is admitted within the timeout of an opening |
| `Breaker.RunFromStart` | internal/circuit/breaker.go:83-246 | the same from a newly made breaker on |
| `Breaker.DecisionsExact` | internal/circuit/breaker.go:119-246 | in every interleaving of a new breaker each step is decided by what an observer counts: it opens exactly at the failure that completes the threshold with no success since it closed, closes exactly at the success that completes the other, half-opens exactly after the timeout, and admits exactly the calls it must |
| `Breaker.CountersNeverWrap` | internal/circuit/breaker.go:151-153 | the 32-bit counters and their sum never wrap |
| `Breaker.ClosesIff` | internal/circuit/breaker.go:137-201 | in sequential use an opened breaker can close again exactly when the timeout is positive and the success threshold does not exceed the half-open calls |
| `Breaker.SuccessfulProbesExhaust` | internal/circuit/breaker.go:148-157 | otherwise, in every sequential trace of succeeding calls on an opened breaker, at most as many succeed as there are slots, and all slots are used exactly when it is stuck half-open with none left |
| `Breaker.ProbesCanExhaust` | internal/circuit/breaker.go:148-157 | and some trace gets there |
| `Breaker.ExhaustedRejectsForever` | internal/circuit/breaker.go:148-157 | once there, also by overlapping calls, every later call is rejected in every interleaving |
| `Breaker.StuckHalfOpenIff` | internal/circuit/breaker.go:137-201 | however calls overlap, a half-open breaker never leaves half-open exactly when nothing is in flight and no slot is left |
| `Breaker.DefaultNeverCloses` | internal/circuit/breaker.go:73-81 | the default settings never close again in sequential use |
| `Breaker.OverlappingCallsCanClose` | internal/circuit/breaker.go:148-157 | with overlapping calls every setting with a positive timeout can close |
| `Recovery.CountMissedRuns` | internal/scheduler/cron.go:231-252 | terminates; fails exactly for a reversed interval or a bad expression; otherwise the number of fire times in (since, until] and the first one after it |
| `Recovery.NextNRunTimes` | internal/scheduler/cron.go:56-74 | exactly the first n fire times after now, in order |
| `Recovery.IsCronDue` | internal/scheduler/cron.go:218-229 | due exactly when a fire time lies in (since, now] |
| `Recovery.Engine.ExecuteAllMissed` | internal/scheduler/recovery.go:180-193 | counts the jobs that succeed, all of them in a dry run |
| `Recovery.Engine.UpdateNextRunTime` | internal/repository/schedule_repo.go:241-262 | fails exactly when the database does or the row is missing; otherwise sets the next run and, if that moved forward, the last run to the old next run |
| `Recovery.Engine.RecoverSingleSchedule` | internal/scheduler/recovery.go:119-213 | for every policy and failure: how many missed runs are executed and skipped, when the call fails, what next run it reports, and what it writes to the table; a failing latest job writes nothing |
| `Recovery.RecoveredSplits` | internal/scheduler/recovery.go:160-209 | SkipAll and unknown policies skip all missed runs, ExecuteLatest executes one, PolicyNone all, ExecuteAll those whose jobs succeed or all in a dry run |
| `Recovery.MissedRunsAccounted` | internal/scheduler/recovery.go:160-209 | executed plus skipped never exceeds missed, and equals it exactly unless ExecuteAll had a failing job |
| `Recovery.NextRunIsFuture` | internal/scheduler/recovery.go:149-200 | the missed count is the number of fire times since the start of the lookback, and the stored next run is the first fire time after now |
| `Recovery.RerunFindsNothingIff` | internal/scheduler/recovery.go:144-200 | repeating a successful recovery at the same instant finds nothing exactly when the policy persists |
| `Recovery.WritesNothingIff` | internal/scheduler/recovery.go:160-200 | no recovery writes to the table exactly when there is no lookback or the policy does not persist; a dry run prevents it for ExecuteAll only |
| `Recovery.CountedTwiceIff` | internal/scheduler/recovery.go:136-200 | after a persisted recovery a later one counts again exactly the runs after the old next run and inside its lookback; none exactly when it is not due or no fire time lies there |
| `Recovery.DoubleRecoveryExample` | internal/scheduler/recovery.go:136-200 | a schedule due at 0, recovered at 5 and at 6, has its run at 3 recovered twice |

## Left out

- Database, broker, cache and HTTP code, migrations, repositories other than the next-run update of a schedule, metrics, tracing, configuration: input and output whose behaviour is not visible here.
- Cron parsing and schedule descriptions: a schedule is known only by its next fire time, and one that never fires is outside the model.
- JWT, password hashing, signatures and the rest of the API-key code: library calls.
- Role-based access control: a fixed chain of four roles that would only add easy members.
- `dag/scheduler.go`, `worker/pool.go`, `pipeline/engine.go`: goroutine and timer wiring around the modelled core.
- Node metadata, node outputs, result texts, durations and timeouts: they do not influence the modelled decisions.
- `ValidateNodeAddition`, the other pipeline validations and the listing methods: single scans that would only add easy members.
- The user and global token buckets and the combined `RateLimit` handler: the same bucket code behind other keys.
- Floating-point rounding in the token bucket, and burst, rate or interval settings that are not positive.
- Backoff delays and jitter: a retry timer may fire at any time.
- Delivery history and logging: they have no effect on the queue.
- The notifier's pass over a task is one atomic step: steps of other goroutines between two deliveries of the same pass are not modelled separately.
- A replay of one or all dead letters is one atomic step too, although the source releases its lock before it offers the tasks to the channel.
- Races below the level of one step, such as a breaker state read before the lock is taken.
- 64-bit overflow of the breaker's call counters.
- Aliasing of event lists and webhook records between the manager and its callers: records are values here.
- The 30-second schedule cache of `scheduler/store.go`, which can return a last run from before an update: recovery is modelled on the rows of the table.
- `RecoverMissedJobs` and `DetectMissedSchedules`: loops over schedules that only collect results.
