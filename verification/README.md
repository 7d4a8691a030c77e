# AegisLab: verified models of its stateful kernels

AegisLab schedules fault-injection experiments. Most of its Go code is wiring; this project models
the parts that are not, and proves what they promise. Each is stated over every input, every tree
or every run.

| kernel | files | main results |
|---|---|---|
| Helm values | `HelmValues`, `HelmCommutation`, `HelmKeys`, `HelmHeap` | the in-place path writer refines a pure tree write; read-back exactly without a list conflict; the exact condition under which two writes can be swapped, and order independence of any number of them, conflicts included; key text and paths are mutual inverses exactly on canonical forms |
| Redis task queue | `TaskQueue`, `TaskQueueOperations`, `TaskQueueOrder`, `TaskQueueStore` | every ID is in at most one queue and the index names it, exactly while operations are allowed; conservation in every run; no task and no payload is lost under any interleaving of single commands; the ready list is a FIFO queue; promotion is exact; mark-then-remove is filtering |
| concurrency counter | `ConcurrencyLock` | never more than Max + N - 1 with N acquirers, and that bound is reached |
| namespace lock | `NamespaceLock` | mutual exclusion over every safe run; each command keeps it exactly if it is safe; the unsafe release is reachable |
| group tree | `GroupTree` | permutation, counts, stable leaves, rebuilt from its leaves; leaves in input order exactly if equal prefixes are contiguous, as sorting makes them |
| rate limiter | `RateLimiter` | answers as the specification; at most `limit` per window in every run; cleanup unobservable |
| experiment controller | `CrdController`, `CrdLaws`, `CrdProgress`, `CrdAnswers`, `CrdDeletions`, `JobInformer` | per rising edge one chain with at most one callback and bounded checks, whose answers decide its end, and none is left unanswered by merging; callbacks about jobs are exactly as many as the job edges and stuck-pod updates that call for them; every final callback is followed by a deletion, and nothing else is deleted |
| API keys and logout | `ApiKeys`, `TokenBlacklist` | revoked and deleted are absorbing; disabled and expired keys get no token; nonce reuse is late; a logged-out token is never accepted again, with the exact conditions |
| permissions | `Scopes`, `Permissions`, `PermissionTables` | decisions are monotone in scopes, resource IDs and rule lists; widening a scope keeps its matches; rule text round trips |
| passwords | `Passwords`, `PasswordStrength` | the generator's possible outputs are exactly the mixed passwords of the clamped length; all are rated Strong or better |
| pagination | `Pagination` | pages partition the table; the page loop returns all of it |

`Strings` holds the splitting, joining and decimal text that several of them share, and `Wrappers` the
optional values and results.

## How the models are built

Code that updates things in place is a class or a method on arrays and objects, proved against a
function of the old state; the properties are then proved of that function. Code shared by several
clients is a step relation in which a Redis script or transaction is one step and each other Redis
command is a step of its own. Time, random bytes, replies of range queries and answers of the
Kubernetes API are parameters.

Integers are unbounded except for `strconv.Atoi` on list indices, which saturates as the Go call
does when its error is ignored. Tasks, rows and claims are records, and scores and times are integers.

## Where the code does less than one would expect

Each of these is kept as it is in the code, shown by a lemma with a concrete input or run that the
repository's own code can produce, and delimited by an exact condition.

- A non-final list segment that meets a value that is not a list leaves the cursor where it is, so
  the value lands elsewhere and the order of values can matter (`ReadBack`,
  `ConflictBreaksCommutation`, `CommuteExactly`).
- A submission and an expedite take two commands each. A promotion in between leaves a wrong index
  entry or a task queued twice (`SubmitRacesWithPromotion`, `LateIndexIsAccurate`,
  `ExpediteRacesWithPromotion`, `UniqueExactlyIfSafe`).
- The scheduler submits a recurring task again right after promoting it. The ID is then queued
  twice, the index leads to one copy, and cancelling leaves the other (`RecurringTaskIsQueuedTwice`,
  `InvExactlyIfAllowed`, `CancelRemovesExactly`).
- The concurrency test and increment are two commands, so that N acquirers can exceed the maximum
  by N - 1 and no more (`CounterBoundIsTight`, `CounterBound`).
- The owner check and the write of a namespace release are two commands. If the releaser's lock
  expires in between, the write can clear somebody else's lock (`UnsafeReleaseIsReachable`,
  `StepKeepsInv`). The comment at the call site says that checking and acquiring are atomic, which
  holds; releasing is not.
- An experiment that stops after it was injected is failed on the spot while its chain of checks
  goes on, and can be reported a second time (`StopAfterInjectionGetsTwoCallbacks`,
  `CallbacksOutsideChains`).
- A job whose failure count jumps over the back-off limit, or over the next count, as it can when an
  informer misses a state, is never reported (`FailureJumpIsNeverReported`, `FailureReportedOnce`).
- A pod that cannot get its image reports the failure of its job with every update, beside the
  report of the job itself (`StuckPodReportsTwice`, `CallbacksOutsideChains`).
- Logging out a shorter-lived token with the same ID shortens the entry of the longer-lived one; IDs
  are made from whole seconds (`ShorterTokenUnlocks`, `OtherLogoutExactly`).
- A long generated password can contain a common pattern and is then only rated Strong
  (`LongPasswordCanBeCommon`, `GeneratedPasswordsAreStrong`).

Some contracts also cover inputs that nothing in the repository's Go code produces. The removal script fails
at a list element that is not a task and leaves its markers behind (`Gateway.RemoveFromList`), but
every gateway operation keeps the list free of such elements. A token without an ID survives its
logout (`LogoutLocksOut`), but tokens are issued with one. Truncating a scope can leave only blanks
(`TruncationWidens`), but not where it matched a rule (`TruncationKeepsRules`). Rows sorted by a
collation that ignores a difference in print can leave a group in two pieces
(`CoarseOrderSplitsGroups`); with one that tells values apart as they print they cannot
(`SortedIsContiguous`).

## Model

| member | source | states |
|---|---|---|
| HelmHeap.GetValuesMap | src/dto/container.go:45-121 | the heap of shared maps afterwards represents the old tree with every dynamic value written at its parsed path, in order; the values may hold maps of their own, which later values then write into; only old nodes and fresh ones are touched |
| HelmHeap.WriteValue | src/dto/container.go:59-117 | one value, maps inside it included, leaves the root representing the pure write at the whole path, and changes no object outside the tree |
| HelmHeap.Walk | src/dto/container.go:59-116 | the moving cursor reaches the map from which the final segment gives the whole write |
| HelmHeap.Descend | src/dto/container.go:82-116 | after any non-final segment the work still to do from the new cursor gives the same final tree, also when the cursor stays |
| HelmHeap.DescendElement | src/dto/container.go:82-104 | the list is padded with fresh empty maps, an element that is not a map is replaced by one, and the cursor moves to it |
| HelmHeap.DescendField | src/dto/container.go:105-116 | an existing map is entered, anything else is replaced by a fresh map |
| HelmHeap.Assign | src/dto/container.go:60-80 | the final segment stores the value in the cursor's map and nowhere else in the tree |
| HelmHeap.Relocate | src/dto/container.go:60-80 | a value with maps of its own represents in its new place what it represented before |
| HelmHeap.UpdateInPlace | src/dto/container.go:59-117 | changing one map object changes the represented tree at that object's place only |
| HelmHeap.DescendKeepsOutcome | src/dto/container.go:82-116 | opening the map below a segment first does not change what the write gives |
| HelmValues.StoresCommute | src/dto/container.go:60-104 | stores at different places of one map commute, padding included |
| HelmValues.ElementsAfterWrite | src/dto/container.go:60-80 | a write to a list element keeps the elements there were, puts empty maps in between and nothing beyond |
| HelmValues.ReplacedByMap | src/dto/container.go:105-116 | below a key that holds no map the write leaves a map with nothing else in it |
| HelmValues.ReadBack | src/dto/container.go:59-117 | the written path reads back the value exactly when no list segment met a non-list value; the path actually written always does |
| HelmValues.ConflictLosesValue | src/dto/container.go:91-104 | with such a conflict the value is never found at its path |
| HelmValues.WriteIsEffectiveWrite | src/dto/container.go:59-117 | every write equals a conflict-free write at a path with the blocked segments left out |
| HelmValues.WriteFrame | src/dto/container.go:59-117 | a readable path that parts from the written one keeps its value, for every tree and write |
| HelmValues.WriteKeepsConflictFree | src/dto/container.go:59-117 | a write brings no conflict to a diverging path |
| HelmValues.WritesCommute | src/dto/container.go:54-118 | conflict-free writes at diverging paths give equal trees in both orders |
| HelmValues.ConflictBreaksCommutation | src/dto/container.go:91-104 | with a conflict the order can matter: a tree and two paths |
| HelmCommutation.CommuteExactly | src/dto/container.go:54-118 | for every tree and any two paths, conflicts included: the writes can be swapped for all values exactly if the paths really written diverge and neither write turns into a list what blocks a segment of the other |
| HelmCommutation.IndependentWritesCommute | src/dto/container.go:54-118 | under that condition both orders give equal trees |
| HelmCommutation.EffectiveStays | src/dto/container.go:82-104 | a diverging write that unblocks nothing leaves the path that another write takes alone |
| HelmCommutation.UnblockingChangesPath | src/dto/container.go:82-104 | one that unblocks a segment changes it |
| HelmValues.OrderIndependence | src/dto/container.go:54-118 | every permutation of pairwise diverging conflict-free values gives the same tree |
| HelmCommutation.OrderDoesNotMatter | src/dto/container.go:54-118 | so does every permutation of pairwise independent values, conflicts included |
| HelmCommutation.IndependenceStays | src/dto/container.go:54-118 | independence of two writes survives a third that is independent of both |
| HelmCommutation.EveryValueIsInItsPlace | src/dto/container.go:54-118 | after all of them each value is readable at the path really written for it |
| HelmCommutation.IndependentWritesKeep | src/dto/container.go:54-118 | a value at such a path survives all writes independent of it |
| HelmCommutation.ConflictFreeItemsAreIndependent | src/dto/container.go:54-118 | diverging values without conflicts are a special case |
| HelmValues.AllReadBack | src/dto/container.go:54-118 | after all of them each value is readable at its path |
| HelmValues.AllFrame | src/dto/container.go:54-118 | a readable path diverging from all of them keeps its value |
| HelmKeys.ParseHelmKey | src/utils/string.go:168-193 | the appending loop gives the parse of the dot-separated segments and never an empty path |
| HelmKeys.ParsePartMatches | src/utils/string.go:32 | a segment that the index expression matches parses to its unique name and index |
| HelmKeys.ParsePartCases | src/utils/string.go:168-193 | a segment is an element exactly when the expression matches, and otherwise a field with the text as name |
| HelmKeys.PrintParseRoundTrip | src/utils/string.go:168-193 | parsing a printed path gives it back exactly for the non-empty paths of printable segments |
| HelmKeys.ParsePrintRoundTrip | src/utils/string.go:168-193 | printing a parsed key gives the text back exactly when every index is canonical and fits |
| HelmKeys.ValidKeysParseToNames | src/utils/string.go:151-159 | a key is accepted exactly if it parses to a path whose names are all well formed |
| TaskQueue.UniqueExactlyIfSafe | src/infra/redis/task_queue.go:33-149 | for each Redis command, every ID stays in at most one queue exactly if the command does not add an ID that is queued elsewhere |
| TaskQueue.SafeRunsStayUnique | src/infra/redis/task_queue.go:33-149 | so does every interleaving of such commands |
| TaskQueue.NoTaskIsLost | src/infra/redis/task_queue.go:82-139 | under any interleaving of single commands, expedites split in two included, a queued ID leaves only by a pop or an explicit removal |
| TaskQueue.BodiesAreKept | src/infra/redis/task_queue.go:33-149 | under any interleaving an ID with its payload leaves only by a pop or an explicit removal, and appears only by a command that names it |
| TaskQueueOperations.OperationKeeps | src/infra/redis/task_queue.go:33-283 | every allowed operation keeps uniqueness, an accurate index and scores equal to execute times, and changes the queued IDs by exactly what it adds and takes |
| TaskQueueOperations.InvExactlyIfAllowed | src/infra/redis/task_queue.go:33-283 | any operation keeps them exactly if it adds no ID that is queued otherwise and drops no entry of a queued one |
| TaskQueueOperations.RunsKeepInv | src/infra/redis/task_queue.go:33-149 | all along any run each ID is in at most one queue, once, and the index names it, exactly if every operation is allowed where it happens |
| TaskQueueOperations.RunsConserveTasks | src/infra/redis/task_queue.go:33-149 | in every run, recurring tasks and repeated submissions included, the queued copies of an ID are those that were there and came, less those that left |
| TaskQueueOperations.RecurringTaskIsQueuedTwice | src/service/consumer/task.go:169-213 | a recurring task is queued twice from its promotion on; the index leads to one copy and cancelling leaves the other |
| TaskQueueOperations.CancelRemovesExactly | src/service/consumer/task.go:430-475 | in every state cancelling drops the index entry and takes away exactly the copies the index leads to: all ready ones, or one member of a set; of other IDs none. The ID is gone exactly if those were all its copies |
| TaskQueueOperations.CancelOfSingleTask | src/service/consumer/task.go:430-475 | a task queued once is gone exactly if the index names its queue |
| TaskQueueOperations.CancelKeepsUnique | src/service/consumer/task.go:430-475 | cancelling brings no ID into a second queue |
| TaskQueueOperations.LateIndexIsAccurate | src/infra/redis/task_queue.go:33-76 | the second command of a submission makes the index accurate exactly when the task is still where it was put |
| TaskQueueOperations.SubmitRacesWithPromotion | src/infra/redis/task_queue.go:67-76 | a promotion between the two commands leaves the index naming the wrong queue |
| TaskQueueOperations.ExpediteRacesWithPromotion | src/infra/redis/task_queue.go:82-122 | a promotion between scan and transaction leaves the task queued twice |
| TaskQueueOrder.ReadyListIsFifo | src/infra/redis/task_queue.go:33-48 | leaving aside IDs that are ever removed, tasks come out, or still wait, in the order in which they were pushed |
| TaskQueueOrder.PopsArePrefixOfPushes | src/infra/redis/task_queue.go:33-48 | without removals the popped tasks are a prefix of the pushed tasks and the rest is what waits |
| TaskQueueOrder.PromotionConserves | src/infra/redis/task_queue.go:124-149 | a promotion keeps the multiset of queued tasks |
| TaskQueueOrder.PromotionIsExact | src/infra/redis/task_queue.go:128-139 | exactly the tasks scored 0 to now move, in non-decreasing score, to the end of the FIFO queue |
| TaskQueueStore.MarkThenRemove | src/infra/redis/task_queue.go:227-248 | marking the matches and removing as many markers is filtering them out |
| TaskQueueStore.MarkNext | src/infra/redis/task_queue.go:227-248 | the loop never looks at its own marker |
| TaskQueueStore.Gateway.MarkMatches | src/infra/redis/task_queue.go:227-248 | after the loop the elements looked at are marked exactly where they match, counted, and the loop stopped only at the end or at the first non-task |
| TaskQueueStore.Gateway.RemoveFromList | src/infra/redis/task_queue.go:226-255 | without error: the others in order, and the number of matches; with error: the markers set so far remain |
| TaskQueueStore.Gateway.RemoveFromZSet | src/infra/redis/task_queue.go:257-279 | removes a member exactly when one has the ID, and nothing else |
| TaskQueueStore.Gateway.SubmitImmediateTask | src/infra/redis/task_queue.go:33-39 | the task is at the head of the list and indexed as ready, and nothing else changes; this is the submission operation of the run theorems |
| TaskQueueStore.Gateway.SubmitDelayedTask | src/infra/redis/task_queue.go:67-76 | the task is in the set under its execute time and indexed as delayed, and nothing else changes |
| TaskQueueStore.Gateway.HandleFailedTask | src/infra/redis/task_queue.go:50-65 | a task becomes a dead letter under the given score, indexed if it has an ID; data that does not decode becomes one that no queue operation sees |
| TaskQueueStore.Gateway.PopTask | src/infra/redis/task_queue.go:41-48 | the oldest element comes off, or nothing from an empty list, and the index is not touched |
| TaskQueueStore.Gateway.ExpediteDelayedTask | src/infra/redis/task_queue.go:82-122 | found exactly when the ID is delayed; then the lowest-scored such member is replaced by one with the same ID and payload and the new time, indexed as delayed, and nothing else changes |
| TaskQueueStore.Gateway.ProcessDelayedTasks | src/infra/redis/task_queue.go:124-149 | returns the due tasks; exactly they leave the set, are pushed on the list in order and are indexed as ready |
| ConcurrencyLock.CounterBound | src/infra/redis/task_queue.go:167-180 | with n interleaved acquirers the counter is at most Max + n - 1 and equals acquires minus releases |
| ConcurrencyLock.CounterBoundIsTight | src/infra/redis/task_queue.go:167-174 | for every n some run reaches that bound |
| ConcurrencyLock.Counter.Acquire | src/infra/redis/task_queue.go:167-174 | undisturbed, acquires exactly below the maximum and never passes it |
| NamespaceLock.StepKeepsInv | src/service/consumer/namespace_lock_store.go:85-114 | each command keeps the invariant exactly if it is safe: a release writes before another trace is granted the lock, and traces have names |
| NamespaceLock.SafeRunsExclude | src/service/consumer/namespace_lock_store.go:85-114 | over every safe run at most one trace holds the namespace |
| NamespaceLock.UndisturbedAcquisition | src/service/consumer/namespace_lock_store.go:85-102 | undisturbed, the lock is granted exactly if it is free, one's own or expired, and otherwise nothing changes |
| NamespaceLock.UndisturbedRelease | src/service/consumer/namespace_lock_store.go:104-114 | undisturbed, a release frees the lock exactly if it is one's own or nobody's, and otherwise changes nothing |
| NamespaceLock.UnsafeReleaseAdmitsASecondHolder | src/service/consumer/namespace_lock_store.go:104-114 | after any unsafe release anybody can acquire while the old holder still holds |
| NamespaceLock.UnsafeReleaseIsReachable | src/service/consumer/namespace_lock_store.go:104-114 | a safe run leads to such a release |
| GroupTree.BuildGroupTree | src/dto/search.go:389-398 | the loops build the recursive first-occurrence grouping; no fields, no tree |
| GroupTree.BuildGroupLevel | src/dto/search.go:401-445 | one level of the loops is the grouping by the remaining fields |
| GroupTree.GroupByField | src/dto/search.go:401-445 | one pass gives the values in order of first appearance and for each value its items in order |
| GroupTree.BuildIsMap | src/dto/search.go:401-445 | one node per distinct value, in order of first appearance, holding the items of that value |
| GroupTree.LeavesArePermutation | src/dto/search.go:389-445 | the leaves hold every item once |
| GroupTree.LeafHoldsMatches | src/dto/search.go:401-445 | a leaf holds exactly the items with its values, in input order |
| GroupTree.BuildIsWellFormed | src/dto/search.go:372-378 | every count is its subtree's size, siblings have distinct values, depth is the number of fields |
| GroupTree.RebuildFromLeaves | src/dto/search.go:389-445 | building from the flattened leaves gives the same tree |
| GroupTree.LeavesInInputOrder | src/dto/search.go:389-445 | flattening gives the input back exactly when equal key prefixes are contiguous |
| GroupTree.SortedIsContiguous | src/searchx/query_builder.go:168-176 | rows sorted by the grouping fields are contiguous, if the database may sort by all of them and ranks values equally exactly when they print equally |
| GroupTree.CoarseOrderSplitsGroups | src/searchx/query_builder.go:168-176 | an order that ignores a difference in print can leave a group in two pieces |
| RateLimiter.Limiter.Allow | src/middleware/ratelimit.go:31-62 | the answer is that of the model; a refusal changes nothing, an admission stores the recent times and the new one |
| RateLimiter.Limiter.CleanUp | src/middleware/ratelimit.go:65-86 | the loop over the map prunes every key and drops the empty ones |
| RateLimiter.AnswersMeetSpec | src/middleware/ratelimit.go:31-62 | with a clock that does not run backwards a request is allowed exactly when fewer than `limit` of its key were allowed in (now - window, now] |
| RateLimiter.AtMostLimitPerWindow | src/middleware/ratelimit.go:31-62 | in every run no half-open interval of length `window` holds more than `limit` allowed requests of a key |
| RateLimiter.CleanupIsUnobservable | src/middleware/ratelimit.go:65-86 | leaving all cleanups out of a run changes no answer |
| RateLimiter.CleanupKeepsTheWindow | src/middleware/ratelimit.go:65-86 | a cleanup keeps exactly the times inside the window and no key without any |
| RateLimiter.TableStaysSmall | src/middleware/ratelimit.go:31-86 | never more than `limit` stored times for a key |
| CrdController.OneCallbackPerChain | src/infra/k8s/controller.go:411-707 | in every run each chain of checks, one per rising edge, gets at most one callback and at most MaxRetries + 1 answered checks, and is waiting or has ended in exactly one of four ways |
| CrdLaws.AnswersDecide | src/infra/k8s/controller.go:622-707 | in every run a chain ends in a callback exactly at a found answer that says recovered or is its third, as a success exactly if that answer has a time range; as gone exactly at such an answer; after any other answer it does not end on its own |
| CrdLaws.UnfinishedChainsGoOn | src/infra/k8s/controller.go:622-669 | after an answer that calls for no end the chain is waiting or ends later, and nothing happens to a chain after its end |
| CrdProgress.NoStartIsForgotten | src/infra/k8s/controller.go:369-669 | in every run a started experiment has a check waiting, or has ended since in a callback or as gone, even where the queue merged its checks with others |
| CrdProgress.QuiescenceMeansEnded | src/infra/k8s/controller.go:369-669 | so with an empty queue every experiment that was started has ended since |
| CrdController.ChainsKeepTheirTarget | src/infra/k8s/controller.go:428-437 | everything that happens to a chain happens to the object it was started for, and its checks keep the duration it was started with |
| CrdController.CallbacksOutsideChains | src/infra/k8s/controller.go:391-560 | the chains started, the failures reported directly, and the failures and successes reported for a job are exactly as many as the updates of experiments, jobs and pods that call for them |
| CrdAnswers.CallbacksPerExperiment | src/infra/k8s/controller.go:391-707 | in every run an experiment gets at most as many final callbacks as it had rising edges with a duration and updates that fail it; every such edge is waiting or has ended |
| CrdAnswers.MergingLeavesNothingUnanswered | src/infra/k8s/controller.go:428-437 | whatever the queue merges: after each start, and each chain merged away, a chain of the same experiment waits or has since ended on its own |
| CrdController.StuckPodReportsTwice | src/infra/k8s/controller.go:516-560 | two updates of a pod that cannot get its image report the failure of its job twice |
| CrdController.StopAfterInjectionGetsTwoCallbacks | src/infra/k8s/controller.go:391-440 | an object that stops after its rising edge gets a failure and a success |
| CrdController.EveryChainIsAnswered | src/infra/k8s/controller.go:575-707 | if nothing is merged, a chain that is not waiting has had exactly one callback, unless its object was gone |
| CrdDeletions.CallbacksAreFollowedByDeletion | src/infra/k8s/controller.go:482-707 | after every final callback about an experiment, every success of a job and every failure reported by a pod, the deletion waits on the queue until it has gone through, however items merge and calls fail |
| CrdDeletions.OnlyFinishedObjectsAreDeleted | src/infra/k8s/controller.go:482-707 | of everything the three update handlers and the worker put on the queue, nothing is deleted without such a callback before, and nothing at all while debugging |
| CrdController.LastCheckEnds | src/infra/k8s/controller.go:622-669 | an answered check without retries left ends its chain |
| CrdController.ConditionStatus | src/infra/k8s/controller.go:719-734 | true exactly if some condition of the kind has status True and none of that kind comes before it |
| CrdController.Controller.HandleUpdate | src/infra/k8s/controller.go:369-442 | in terms of the two snapshots: which updates fail the experiment on the spot, which start a check with the duration and no retries used, with what is logged and queued, and that all others change nothing |
| CrdController.Controller.HandleJobUpdate | src/infra/k8s/controller.go:482-502 | in terms of the two snapshots: which callbacks are made and when the deletion is queued |
| CrdController.Controller.HandlePodUpdate | src/infra/k8s/controller.go:516-560 | the first job owner of a pending pod with an image that cannot be pulled is reported and its deletion queued; any other pod changes nothing |
| CrdController.Controller.ProcessQueueItem | src/infra/k8s/controller.go:575-669 | for each kind of item and each answer: what is logged, what goes back on the queue with how many retries, and when the deletion is queued |
| JobInformer.FailureReportedOnce | src/infra/k8s/controller.go:482-502 | over snapshots with non-decreasing counters a failure is reported once if both the limit and the next count are seen, and otherwise never |
| JobInformer.FailureJumpIsNeverReported | src/infra/k8s/controller.go:482-502 | two snapshots of a failed job that nobody is told about |
| JobInformer.SuccessReportedOnce | src/infra/k8s/controller.go:482-502 | a success is reported exactly once when the job starts with none and ends with some |
| ApiKeys.RunKeeps | src/module/auth/service.go:251-478 | over every run revoked keys are not enabled, live key IDs are unique, the revocation time is set once, and deleted rows never change |
| ApiKeys.DeadKeysStayDead | src/module/auth/service.go:408-478 | after a revoke or delete no exchange on the key ever succeeds |
| ApiKeys.DisabledKeysGetNoToken | src/module/auth/service.go:408-478 | over every run a key that is not enabled gets no token until it is enabled |
| ApiKeys.ExpiredKeysGetNoToken | src/module/auth/service.go:408-478 | and no key gets one after its expiry |
| ApiKeys.RevokeAndDeleteKill | src/module/auth/service.go:332-369 | both take effect at once |
| ApiKeys.RevokingTwiceIsRevokingOnce | src/module/auth/service.go:353-369 | a second revocation changes nothing |
| ApiKeys.ExchangeSucceedsExactly | src/module/auth/service.go:408-478 | the exact condition under which a key is exchanged for a token |
| ApiKeys.RotationRetiresOldSecret | src/module/auth/service.go:371-406 | after a rotation only the new secret signs |
| ApiKeys.NonceReuseIsLate | src/module/auth/token_store.go:44-58 | two successful exchanges with the same key ID and nonce are at least the nonce lifetime apart |
| ApiKeys.NonceKeysAreSeparate | src/module/auth/token_store.go:44-58 | key IDs without a colon share a nonce entry exactly when ID and nonce are equal |
| ApiKeys.Find | src/module/auth/repository.go:158-172 | the first row with the key ID that is not deleted |
| ApiKeys.Service.CreateApiKey | src/module/auth/service.go:251-297 | refused exactly if a live key has the ID; otherwise the old keys are unchanged and a request signed with the new secret is exchanged at once |
| ApiKeys.Service.DeleteApiKey | src/module/auth/service.go:332-343 | only the owner can, no other row changes, and the key ID is free again |
| ApiKeys.Service.SetStatus | src/module/auth/service.go:557-571 | nothing but the status of the one key changes, and no revoked key is ever enabled |
| ApiKeys.Service.RevokeApiKey | src/module/auth/service.go:353-369 | afterwards no request on the key is acceptable at any time, the first revocation time stays, and no other row changes |
| ApiKeys.Service.RotateApiKey | src/module/auth/service.go:371-406 | afterwards only requests signed with the new secret are acceptable; nothing else about the key, and no other row, changes |
| ApiKeys.Service.ExchangeToken | src/module/auth/service.go:408-478 | a token exactly for the first live key with the ID if it is enabled, unrevoked and unexpired, the request at most 300 seconds off and signed with its secret, the nonce free and the owner active; when the nonce is reserved; no row changes |
| TokenBlacklist.LogoutLocksOut | src/module/auth/service.go:160-170 | the token is refused from its logout on exactly if it has an ID or had no time left |
| TokenBlacklist.OtherLogoutExactly | src/module/auth/token_store.go:24-42 | when a later logout leaves it refused, exactly |
| TokenBlacklist.LogoutIsFinal | src/module/auth/service.go:160-189 | whatever happens next, provided later logouts under the same ID are of tokens that live as long, the token is never accepted again |
| TokenBlacklist.ShorterTokenUnlocks | src/module/auth/token_store.go:24-42 | without the proviso it can be accepted again |
| TokenBlacklist.TokenStore.AddTokenToBlacklist | src/module/auth/token_store.go:24-42 | the token is refused from then on if it has an ID, and the verdict on tokens with other IDs does not change |
| TokenBlacklist.TokenStore.VerifyToken | src/utils/jwt.go:142-173 | accepted exactly within the lifetime, for active users and while not blacklisted |
| Scopes.ScopeMatchesTarget | src/middleware/api_key_scope.go:12-40 | trimming, splitting, padding and comparing decide the part-wise relation |
| Scopes.ComparePadded | src/middleware/api_key_scope.go:12-40 | padding with stars and comparing is prefix covering |
| Scopes.ScopesAllowAnyTarget | src/middleware/api_key_scope.go:42-54 | true exactly when some scope matches some target |
| Scopes.PlainScopeMatchesOnlyItself | src/middleware/api_key_scope.go:12-40 | a scope that spells out a rule matches that rule and no other |
| Scopes.TruncationWidens | src/middleware/api_key_scope.go:12-40 | cutting parts off the end keeps a match exactly unless only blanks are left |
| Scopes.TruncationKeepsRules | src/middleware/permission.go:110-138 | for the targets of permission checks, whose resource has a name, it always keeps the match |
| Scopes.StarWidens | src/middleware/api_key_scope.go:12-40 | replacing a part by a star keeps every match |
| Scopes.StarMatchesAll | src/middleware/api_key_scope.go:12-40 | the bare star matches every target that is not blank |
| Scopes.RuleRoundTrips | src/consts/system.go:184-198 | a printed rule parses back exactly when its parts have no colon, and whatever parses prints back |
| Permissions.CheckScope | src/middleware/permission.go:110-123 | a session passes; a key passes exactly if one of its scopes matches the rule |
| Permissions.SinglePermission | src/middleware/permission.go:186-203 | yes exactly if the rule is in scope, for an API key, and the tables grant it; an error exactly if it is in scope and the lookup fails |
| Permissions.AnyPermission | src/middleware/permission.go:206-235 | yes exactly if some rule is in scope, for an API key, and granted by the tables; never an error |
| Permissions.AllPermissions | src/middleware/permission.go:238-266 | yes exactly if every rule is in scope, for an API key, and granted; an error exactly if a lookup fails before any refusal |
| Permissions.OutOfScopeKeysAreRefused | src/middleware/permission.go:186-390 | an API key none of whose scopes matches a rule of the check gets no yes from it, whoever owns it |
| Permissions.TeamAccessDecides | src/middleware/permission.go:310-352 | exactly which answers of the service grant team access, and exactly when it is an error |
| Permissions.ProjectAccessDecides | src/middleware/permission.go:355-390 | the same for projects |
| Permissions.OwnershipDecides | src/middleware/permission.go:270-307 | the owner, or an administrator where allowed; an unknown owner is an error |
| Permissions.AnyMeansSome | src/middleware/permission.go:206-235 | yes exactly if one rule is granted, and errors are never passed on |
| Permissions.AllMeansEvery | src/middleware/permission.go:238-266 | yes exactly if every rule is granted |
| Permissions.DecisionsAreMonotone | src/middleware/permission.go:186-390 | for all seven check builders, whatever a context may do a greater one may do |
| Permissions.ScopesOnlyRestrict | src/middleware/permission.go:110-390 | what passes with an API key passes for the same user with a session |
| Permissions.WiderScopesKeepPermissions | src/middleware/permission.go:110-132 | scopes that match more never take a permission away |
| Permissions.LongerListsAreMonotone | src/middleware/permission.go:206-266 | more alternatives or fewer demands never turn a yes into a no |
| PermissionTables.CheckUserHasPermission | src/middleware/deps.go:242-265 | the counted union of subqueries is positive exactly if some unexpired grant, global role or role in a supplied resource gives the permission |
| PermissionTables.CountMembers | src/middleware/deps.go:302-336 | a resource subquery has rows exactly if an enabled membership's role carries the permission |
| PermissionTables.PermissionCheckDecides | src/middleware/deps.go:98-112 | bad input is an error; otherwise yes exactly if the first live row for the rule is granted |
| PermissionTables.MoreIdsKeepGrants | src/middleware/deps.go:242-292 | more resource IDs never lose a grant |
| PermissionTables.MoreIdsKeepPermissions | src/middleware/deps.go:98-112 | nor turn a yes into a no for any check builder |
| Passwords.GenerateRandomPassword | src/utils/password.go:237-287 | succeeds exactly if 2n - 1 random bytes can be read for the clamped length n, with the outcome determined by them |
| Passwords.Draw | src/utils/password.go:256-274 | the buffer holds one character of each class and then any |
| Passwords.Shuffle | src/utils/password.go:276-284 | the in-place swaps are the shuffle function |
| Passwords.ShuffledIsPermutation | src/utils/password.go:276-284 | the multiset of characters is kept |
| Passwords.ShuffleReaches | src/utils/password.go:276-284 | every permutation comes out for some bytes |
| Passwords.PossiblePasswords | src/utils/password.go:237-287 | the possible outcomes are exactly the strings of the clamped length over the alphabet with every class |
| PasswordStrength.GeneratedExactlyIfMixed | src/utils/password.go:237-287 | the same for the four classes of the source, in the validators' terms |
| PasswordStrength.ValidatePasswordStrength | src/utils/password.go:103-218 | an error exactly outside 8 to 128 bytes; otherwise the rating of the score, and as suggestions exactly what is missing and the first common pattern, or praise |
| PasswordStrength.RatingByKinds | src/utils/password.go:118-210 | each of the four ratings exactly, by the number of kinds of characters, the length of twelve and a common pattern |
| PasswordStrength.OccursInLowerCase | src/utils/password.go:187-199 | a pattern is found exactly if it is a part of the password in lower case |
| PasswordStrength.CapitalsHideNothing | src/utils/password.go:187-199 | letter case does not hide a pattern, at the example PASSWORD |
| PasswordStrength.IsPasswordValid | src/utils/password.go:290-321 | accepted exactly with 8 to 128 bytes, a letter and a digit |
| PasswordStrength.GeneratedPasswordsAreStrong | src/utils/password.go:103-321 | both validators accept every generated password, Strong at least, VeryStrong exactly from length 12 on without a common pattern |
| PasswordStrength.LongPasswordCanBeCommon | src/utils/password.go:187-199 | a mixed password of length 12 with a common pattern |
| Pagination.Request.Validate | src/dto/common.go:22-37 | defaults, and the exact accepted inputs |
| Pagination.LastPage | src/dto/common.go:52-63 | a page starts inside the table exactly if it is not past the last page |
| Pagination.RowIsOnOnePage | src/dto/common.go:40-63 | every row is on exactly one page, which is between the first and the last |
| Pagination.PagesAreTheTable | src/dto/common.go:40-63 | pages one to last, one after the other, are the table |
| Pagination.CollectPages | src/app/gateway/metric_services.go:83-106 | the loop ends, fails exactly if a page it asks for fails, and returns the table from its start to the last page asked for; that is the whole table exactly if no earlier page came without pagination info |
| Pagination.ListAlgorithmContainers | src/app/gateway/metric_services.go:83-118 | all the matching containers on those pages, or only the first with the requested ID, or none |
| Pagination.MatchingConcat | src/module/container/repository.go:166-190 | the matching rows keep the order of the table |
| Pagination.UnvalidatedRequests | src/dto/common.go:40-63 | what a page below one and a missing size mean |

## Left out

- gRPC clients, dependency injection, routers, HTTP plumbing and main packages only forward.
- JSON, YAML, regular-expression, SQL and Redis protocol details are small contracts; Redis errors and the millisecond rounding of lifetimes are not modelled.
- SHA-256, HMAC, AES-GCM and token signing are abstract: a request is signed with some secret, a token is correctly signed.
- HelmHeap.GetValuesMap: two dynamic values do not share a map object, and none is part of the values file, as is the case for decoded values; the backing arrays of lists are values.
- HelmHeap.GetValuesMap: the values file has been read and holds a map; a nil root and the file errors are not modelled.
- Index arithmetic above the largest int, which would overflow when a list is padded, is not modelled.
- HandleCronRescheduleFailure has the shape of HandleFailedTask; DeleteTaskIndex and the release of the concurrency counter are single commands and have no contract worth a row.
- The stack limit of unpack in the promotion script, and the order of sorted-set members with equal scores, are not modelled.
- TaskQueueStore.Gateway.SubmitImmediateTask: the two commands are one call here; their interleavings are in the command-level theorems.
- CrdController: getCRDEventTimeRanges is only a range or none, informer start-up and a missing resource type on a deletion are not modelled, debugging is not switched during a run, and a retry's delay is not timed.
- ApiKeys: each operation is atomic, so lost updates between concurrent full-row saves are not modelled; scopes, descriptions and listing of keys are left out.
- NamespaceLock.SafeRunsExclude: one namespace and one clock; registration of namespaces and their status are not modelled.
- Permissions: the extraction of IDs from a URL is left out; the answers about teams, projects and owners are parameters.
- PasswordStrength.ValidatePasswordStrength: suggestions stand for their texts, and byte sequences that are not UTF-8 are not modelled.
- Pagination.CollectPages: the table does not change between the calls, and rows created at the same instant have a fixed order.
- DeepMergeClone, archive extraction, Kubernetes, Helm, Harbor and Loki calls and the Python scripts are not modelled.
