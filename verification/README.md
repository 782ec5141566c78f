# Verified models of the model-mesh runtime adapters

This project models six stateful parts of the runtime adapters and proves what they keep. Each part
has a specification on values (a state machine, a function or a transition system), lemmas about it,
and, since the source works by changing things in place, methods over classes, loops and the heap
that are proved to do what the specification says.

`dafny verify dfyconfig.toml` checks everything.

- **The per-model request serialiser** (`Serialiser`, `SerialiserSafety`, `SerialiserAnswers`,
  `SerialiserLegal`, `SerialiserProgress`, `SerialiserJam`, `SerialiserSharp`, `SerialiserLost`,
  `ModelStateManager`). One step is one channel operation of one goroutine, with the
  places in between kept apart: the count goes up before the send to a worker, and the answer is
  delivered before the count goes down. A submitter may stop receiving at any time. The theorems are
  about every interleaving and every channel capacity N.
- **The OVMS batching actor** (`OvmsGather`, `OvmsConfig`, `OvmsTurns`, `OvmsManager`). What the world does is input:
  requests with the state of their contexts, looks at the timer, the write, and what OVMS reports. The
  meaning of a batch is read off the requests alone, by the last accepted request about each model.
- **Dotpath overrides** (`Dotpath`, `DotpathOrder`, `DotpathFailure`, `DotpathHeap`). `set` is a function on JSON trees and a
  loop with a moving pointer over nested maps on the heap; a ghost tree says which map is where. Go's map
  iteration is an arbitrary choice.
- **The client cache and its manager** (`ClientCache`, `ClientCacheHeap`, `PullManager`). The scan without the
  lock is one step for each entry, mixed freely with lookups; entries are heap objects that a cleanup keeps
  pointers to.
- **TorchServe file names** (`MarNames`, `ModelStore`). The two replacement passes, and the directory with the
  links.
- **The disk size of a model** (`DiskSize`, `DiskRoutes`, `DiskWalk`). The recursive walk with its first error, against
  trails and routes: the ways to get somewhere through directory entries and links.

## What the proofs show of the code

- The serialiser can deadlock with listening submitters and calls that all return, but only with 2N + 2 or more
  requests taken and unanswered, N + 2 or more of them for one model id: 52 and 27 with the channel length of 25. With
  fewer in all, or fewer for every model, it always drains while the submitters listen.
- A submitter whose context ends while it waits leaves its response channel without a receiver. When its result
  comes up, the dispatcher waits there for good, and one request is enough for that. Below these bounds the
  accepted requests can be drained exactly when every submitter of an unanswered one still receives.
- The OVMS config file is written before loads are refused. Until the next write it lists the refused loads too, and a
  process that starts on it desires them.
- In the OVMS actor the log calls for a superseded request ask for the error text of its context
  (`model-mesh-ovms-adapter/server/modelmanager.go`, lines 386, 407 and 425). The context of a request that is still
  waited for has no error, so within one batch window a second load or an unload of a model, or an unloadAll, ends the
  process unless the superseded caller has already given up. The comments there speak of aborting pending requests.
  The model follows the code and gives the exact condition. The batching laws hold for every gather that does not meet
  it, and those gathers cover every sequence of requests.
- The cache key `type|key` keeps pairs apart for all types and keys exactly when no registered type continues another
  after a bar.
- When overrides fail, those applied before the failing one stay, although each single `set` changes nothing on an
  error. A failing call leaves the parameters alone, whatever the order, exactly when every override that can be set is
  in place already; in all other cases what it leaves depends on the iteration order.
- The recursion that adds up the disk size ends exactly when no trail that it goes along comes back to a path. A cycle
  behind an earlier error does no harm; the same two entries listed the other way round keep it going for ever.

## Model

| member | source | states |
|---|---|---|
| SerialiserSafety.ReachableInv | model-serving-puller/server/modelstate.go:91-180 | over every interleaving of submitters, dispatcher and workers the whole invariant holds: structure of live and retired workers, fresh response channels, and per model the reference count and the order of its requests |
| SerialiserSafety.StepInv | model-serving-puller/server/modelstate.go:122-180 | every single channel operation keeps that invariant |
| SerialiserSafety.NeverPanics | model-serving-puller/server/modelstate.go:145-161 | no run sends on a closed channel or closes a channel twice |
| SerialiserSafety.RefCountConserved | model-serving-puller/server/modelstate.go:145-156 | a live model's refCount is the number of its requests in the dispatcher's hand, its queue, its worker and the results channel, plus one delivered and not yet counted out; a model has an entry exactly when that number is positive |
| SerialiserSafety.MutualExclusion | model-serving-puller/server/modelstate.go:131-156 | at most one worker is inside load or unload for a model id, also after its entry was retired and made again |
| SerialiserSafety.PerModelFifo | model-serving-puller/server/modelstate.go:126-149 | per model, what was answered is a prefix of what was started, which is a prefix of what was taken off the intake, which is in the order of submission |
| SerialiserSafety.AnsweredAtMostOnce | model-serving-puller/server/modelstate.go:91-103 | every answer goes to a request that was taken and started, each on its own response channel and at most once |
| SerialiserAnswers.AnswerIsItsOwn | model-serving-puller/server/modelstate.go:166-178 | the result about to be delivered has the outcome of the one call that was made for its own request, that request is the one submitted, of the model and kind asked for, and so a response is of that kind and an unrecognised request always fails |
| SerialiserAnswers.CallsAreSubmissions | model-serving-puller/server/modelstate.go:91-178 | every call that a worker ends in any run is for a request as it was submitted: the submission on its response channel, with its model and kind |
| SerialiserSafety.AnswerIsNew | model-serving-puller/server/modelstate.go:148-149 | a result in the dispatcher's hand belongs to a request that was taken and has not been answered |
| SerialiserSafety.SameChannelSameTicket | model-serving-puller/server/modelstate.go:92-94 | two accepted requests never share a response channel |
| SerialiserSafety.SafeShutdown | model-serving-puller/server/modelstate.go:159-162 | when the dispatcher exits the intake is closed and empty, every accepted request has been answered, and no worker holds or can send a result any more |
| SerialiserSafety.SettleLive | model-serving-puller/server/modelstate.go:150-156 | the model of a delivered result is still live, and when its count falls to zero its queue is empty and its worker idle, so closing the queue loses nothing |
| SerialiserProgress.StuckExactly | model-serving-puller/server/modelstate.go:122-180 | no internal step is possible exactly when the serialiser is idle, or jammed (a full queue, that worker's result, a full results channel, and every other worker stopped), or deserted (the dispatcher holds a result for a submitter that stopped receiving, and every worker is stopped) |
| SerialiserProgress.JamNeeds | model-serving-puller/server/modelstate.go:29-31 | a jam needs 2N + 2 requests that were taken and not answered |
| SerialiserProgress.JamNeedsOne | model-serving-puller/server/modelstate.go:131-146 | and N + 2 of them of one model |
| SerialiserProgress.NoDeadlockBelowBound | model-serving-puller/server/modelstate.go:84-85 | with at least one request taken and unanswered, but fewer than 2N + 2 or fewer than N + 2 of every model, and with listening submitters, some internal step is possible |
| SerialiserProgress.StepCounts | model-serving-puller/server/modelstate.go:122-180 | every internal step lowers a weighted count of stages, and only an answer lowers the number of requests in flight |
| SerialiserProgress.InternalRun | model-serving-puller/server/modelstate.go:122-180 | a run without arrivals is no longer than that count at its start, and neither accepts nor loses a request, whoever listens |
| SerialiserProgress.DrainsToIdle | model-serving-puller/server/modelstate.go:122-180 | with fewer than 2N + 2 requests unanswered in all, or fewer than N + 2 of every model, and listening submitters, every run without arrivals is finite, and where it cannot go on it has answered every accepted request and is idle |
| SerialiserProgress.DrainRun | model-serving-puller/server/modelstate.go:122-180 | below these bounds such a run to the idle state exists |
| SerialiserProgress.LostStaysLost | model-serving-puller/server/modelstate.go:97-99 | an accepted, unanswered request whose submitter stopped receiving is never answered, whatever else is submitted and done |
| SerialiserProgress.DrainsExactly | model-serving-puller/server/modelstate.go:91-180 | below these bounds a run without arrivals to the idle state exists exactly when every submitter of an unanswered request still receives |
| SerialiserProgress.EndsAsListened | model-serving-puller/server/modelstate.go:91-180 | below these bounds every run without arrivals is finite, and where it cannot go on it is idle if every such submitter receives, and otherwise the dispatcher holds the result of one that does not |
| SerialiserLegal.SubmitLegal | model-serving-puller/server/modelstate.go:91-103 | after any run the next submission is accepted exactly when the intake was not closed and holds fewer requests than its capacity, counted as submissions less takes |
| SerialiserLegal.CapSubmits | model-serving-puller/server/modelstate.go:91-103 | with nobody at work a sequence of submissions is accepted exactly when it is no longer than the capacity |
| SerialiserLegal.DispatcherLegal | model-serving-puller/server/modelstate.go:124-162 | after any run the dispatcher's next operation is possible exactly when its channel allows it: a take or a collect while something is there, a send to a worker while its queue is not full, an answer unless its submitter gave up |
| SerialiserLegal.WorkerLegal | model-serving-puller/server/modelstate.go:166-180 | after any run a worker's next operation is possible exactly when its channel allows it, and a call ends in every way that the kind of its request allows and in no other |
| SerialiserLost.DesertedReachable | model-serving-puller/server/modelstate.go:91-149 | for every capacity one request whose caller gives up while its result is in the dispatcher's hand reaches a state in which nothing moves and after which nothing is ever answered |
| SerialiserProgress.AbandonedAnswerBlocksForever | model-serving-puller/server/modelstate.go:97-99 | in a state where the submitter of the result in the dispatcher's hand is gone, no run moves the dispatcher or delivers anything again |
| SerialiserJam.JamReachable | model-serving-puller/server/modelstate.go:84-149 | the bound is sharp: for every capacity N > 0 there is a run with listening submitters that jams with exactly 2N + 2 requests taken and none answered |
| SerialiserSharp.JamAtBothBounds | model-serving-puller/server/modelstate.go:84-149 | both bounds are sharp at once: a jam with listening submitters and exactly 2N + 2 requests, N + 2 of one model and at most N of any other |
| SerialiserJam.JamAtSourceLength | model-serving-puller/server/modelstate.go:29-31 | with the channel length of 25 such a run has 52 requests |
| ModelStateManagers.ModelStateManager.SubmitRequest | model-serving-puller/server/modelstate.go:91-103 | accepts exactly when the intake holds fewer requests than its capacity, and then the request, of the model and kind asked for and on a new response channel, joins the end of the intake; otherwise nothing changes |
| ModelStateManagers.ModelStateManager.FindOrStart | model-serving-puller/server/modelstate.go:131-143 | the one live worker of the model, started with an empty queue if there was none; no other worker changes |
| ModelStateManagers.ModelStateManager.CountIn | model-serving-puller/server/modelstate.go:131-145 | exactly one worker, the model's own, counts one more request |
| ModelStateManagers.ModelStateManager.ReceiveRequest | model-serving-puller/server/modelstate.go:126-145 | the oldest request moves from the intake to the dispatcher's hand, bound for its model's worker, already counted |
| ModelStateManagers.ModelStateManager.SendToWorker | model-serving-puller/server/modelstate.go:146 | the held request joins the end of its worker's queue; panics if that is closed |
| ModelStateManagers.ModelStateManager.CountDown | model-serving-puller/server/modelstate.go:150-157 | the answered request is counted out and an idle worker is retired, as the state machine does |
| ModelStateManagers.ModelStateManager.TestForExit | model-serving-puller/server/modelstate.go:159-162 | closes the results channel and ends exactly when the intake was seen closed and no model is live |
| ModelStateManagers.ModelStateManager.TakeNext | model-serving-puller/server/modelstate.go:167 | the worker holds the oldest request of its queue as it was queued, and the rest stays in order |
| ModelStateManagers.ModelStateManager.EndCall | model-serving-puller/server/modelstate.go:168-177 | the call for the request's type decides the outcome, an unrecognised type fails without one, and the result carries the model id and the response channel of its request |
| ModelStateManagers.ModelStateManager.SendResult | model-serving-puller/server/modelstate.go:178 | the result joins the end of the results channel; panics if that is closed |
| ModelStateManagers.ModelStateManager.Perform | model-serving-puller/server/modelstate.go:122-180 | each operation of the goroutines on the heap is the step of the state machine with that name |
| ModelStateManagers.ModelStateManager.Run | model-serving-puller/server/modelstate.go:122-180 | under every schedule the heap is what the state machine says, keeps the invariant and never panics |
| OvmsGather.BatchIs | model-mesh-ovms-adapter/server/modelmanager.go:348-445 | after any requests a model's desired entry and its place in the batch are what the last accepted request about it says: its own path and the request itself after a load, nothing after an unload or an unloadAll, and the old entry where there was none |
| OvmsGather.BatchMember | model-mesh-ovms-adapter/server/modelmanager.go:435-441 | a batched request is the last accepted one about its model, and a load |
| OvmsGather.AnswersAre | model-mesh-ovms-adapter/server/modelmanager.go:373-441 | each request's answer: its context's error if it was dead on receipt, OK for unloads, Aborted for a load followed by any request about its model, none for the others; and no other channel is touched |
| OvmsGather.LastRequestDecides | model-mesh-ovms-adapter/server/modelmanager.go:373-441 | stated on the events alone: the last request about a model with a live context, where an unloadAll is about every model, decides whether it is desired and with which path, and a model without one keeps its entry |
| OvmsGather.AnswersExactly | model-mesh-ovms-adapter/server/modelmanager.go:373-441 | stated on the events alone: the answer of each request, and that a load is unanswered exactly when no live request about its model, and no live unloadAll, came after it |
| OvmsGather.PendingOrAnswered | model-mesh-ovms-adapter/server/modelmanager.go:373-441 | every request received is in the batch or answered, never both and never neither |
| OvmsGather.TimerIs | model-mesh-ovms-adapter/server/modelmanager.go:350-363 | the deadline is Min after the first accepted load, else Max after the first accepted request, else unset; the short timer is armed exactly after a load, and whenever the batch is not empty |
| OvmsGather.StopsExactly | model-mesh-ovms-adapter/server/modelmanager.go:362-363 | the gather ends exactly at a look at the timer that is not before that deadline |
| OvmsGather.CrashesExactly | model-mesh-ovms-adapter/server/modelmanager.go:386-425 | the actor dies on the error text of a live context exactly when some request supersedes a batched load whose context is not done |
| OvmsGather.OnlyTheLogCrashes | model-mesh-ovms-adapter/server/modelmanager.go:386-425 | the log calls are all that tells a live superseded caller from a dead one: with dead ones the same requests never crash, and a gather that does not crash is unchanged by that |
| OvmsGather.CrashExample | model-mesh-ovms-adapter/server/modelmanager.go:424-427 | two loads of one model while the first caller still waits are enough |
| OvmsConfig.BootRebuilds | model-mesh-ovms-adapter/server/modelmanager.go:116-124 | reading back a list that holds each entry of the map once rebuilds the map, whatever order it was written in |
| OvmsConfig.FromListHolds | model-mesh-ovms-adapter/server/modelmanager.go:121-123 | a list with distinct names is read back entry by entry, with nothing added |
| OvmsConfig.LastEntryWins | model-mesh-ovms-adapter/server/modelmanager.go:121-123 | for any list, with repeated names too, exactly the names in it are read back, each with its last entry |
| OvmsManagers.OvmsModelManager.constructor | model-mesh-ovms-adapter/server/modelmanager.go:102-167 | boots with the models of a readable file, and with none from an unusable file or without one; a file found stays as it is, and without one an empty list is written if the write succeeds |
| OvmsManagers.OvmsModelManager.WriteConfig | model-mesh-ovms-adapter/server/modelmanager.go:494-518 | the list holds each desired entry exactly once, whatever the reused buffer held before; if the write is done the next boot has these models, if it is refused the file is the old one, and a broken one is unusable |
| OvmsManagers.OvmsModelManager.FillList | model-mesh-ovms-adapter/server/modelmanager.go:502-506 | every slot is filled and no entry twice, for every order of the map iteration |
| OvmsManagers.OvmsModelManager.ProcessUnloadAll | model-mesh-ovms-adapter/server/modelmanager.go:381-402 | every pending load is aborted, the caller gets OK and no model stays desired |
| OvmsManagers.OvmsModelManager.ProcessUnload | model-mesh-ovms-adapter/server/modelmanager.go:404-420 | the model's pending load is aborted, the caller gets OK and only this model is dropped |
| OvmsManagers.OvmsModelManager.Select | model-mesh-ovms-adapter/server/modelmanager.go:361-443 | one turn of the select is one step of the gather, for every event and every state of the locals |
| OvmsManagers.OvmsModelManager.GatherLoadRequests | model-mesh-ovms-adapter/server/modelmanager.go:348-445 | the loop with its locals computes what the gather says of its events, and returns exactly when the timer fires |
| OvmsManagers.OvmsModelManager.SweepExpired | model-mesh-ovms-adapter/server/modelmanager.go:276-285 | for every order of the iteration: a load whose context was canceled or passed its deadline is answered with that error, is no longer desired and does not reach the reload; every other load reaches it unanswered and stays desired |
| OvmsManagers.OvmsModelManager.CompleteLoads | model-mesh-ovms-adapter/server/modelmanager.go:304-333 | each load is answered by its first reported state, and dropped unless it is AVAILABLE |
| OvmsManagers.OvmsModelManager.FailLoads | model-mesh-ovms-adapter/server/modelmanager.go:295-298 | after a failed reload every load of the batch is answered Internal and dropped |
| OvmsManagers.OvmsModelManager.FinishBatch | model-mesh-ovms-adapter/server/modelmanager.go:276-333 | a load is answered OK exactly when it stays desired with its own path; every other model keeps its entry; all of the batch is answered and nothing else; the file lists the desired models without the expired loads, so the refused loads stay in it, and it agrees with the desired models exactly when every unexpired load is answered OK; after a write that is done the file names no load whose context was canceled or passed its deadline, and has every other load with its own path |
| OvmsManagers.OvmsModelManager.RunOnce | model-mesh-ovms-adapter/server/modelmanager.go:270-333 | after one turn of the actor every request it met has been answered |
| OvmsManagers.OvmsModelManager.RunLoop | model-mesh-ovms-adapter/server/modelmanager.go:267-334 | over any number of turns each request received was answered exactly once or waits in the current batch, between turns none waits, and a model is desired exactly as its last accepted request and that request's answer say, with that load's path |
| OvmsManagers.Restart | model-mesh-ovms-adapter/server/modelmanager.go:102-125 | a process that starts on the file of another one desires the models last written there |
| OvmsTurns.CodesExactly | model-mesh-ovms-adapter/server/modelmanager.go:276-333 | case by case: a load whose context is done gets that error; any other gets OK exactly when the write was done, the reload confirmed and the first state reported for its model is AVAILABLE, Unknown exactly when that is another state, Internal exactly when the write or the reload failed or its model is not reported; it stays desired exactly when it gets OK |
| OvmsTurns.FileOfBatch | model-mesh-ovms-adapter/server/modelmanager.go:276-288 | the file written after the sweep names a load of the batch exactly when its context was neither canceled nor past its deadline, and with its own path |
| OvmsTurns.FileAgrees | model-mesh-ovms-adapter/server/modelmanager.go:276-333 | the file written before the reload has exactly the refused loads more than the models desired after it |
| OvmsTurns.FileExample | model-mesh-ovms-adapter/server/modelmanager.go:276-333 | one load that OVMS does not report afterwards: the file lists its model and it is desired no longer |
| OvmsTurns.TurnAllFollowed | model-mesh-ovms-adapter/server/modelmanager.go:270-333 | one turn keeps the agreement of the desired models with the last request about each and its answer |
| OvmsTurns.GatherWaits | model-mesh-ovms-adapter/server/modelmanager.go:365-441 | between two turns of the select the pending requests have different channels, none answered, and the next request is none of them |
| OvmsTurns.GatherIds | model-mesh-ovms-adapter/server/modelmanager.go:365-441 | the channels answered or pending after a gather are the old ones and those of the requests it met |
| Dotpath.JoinSplit | model-serving-puller/puller/dotpath.go:37-39 | joining the fields of a dotpath gives it back |
| Dotpath.SplitInjective | model-serving-puller/puller/dotpath.go:37-39 | different dotpaths have different field lists |
| Dotpath.SetSucceeds | model-serving-puller/puller/dotpath.go:41-71 | a path can be set exactly when every value on the way that exists is an object and the value at its end, if any, is a string |
| Dotpath.GetField | model-serving-puller/puller/dotpath.go:41-71 | what a path leads to, field by field: one field more leads to that field of the object there, and to nothing where there is none |
| Dotpath.SetAgain | model-serving-puller/puller/dotpath.go:41-71 | a value that was set can be set again, and the tree is as if only the last had been |
| Dotpath.SetGet | model-serving-puller/puller/dotpath.go:41-71 | after a set the path leads to the value, and every path that is neither above nor below it leads where it led |
| Dotpath.LevelCreated | model-serving-puller/puller/dotpath.go:52-55 | creating a missing level does not change the outcome of the rest of the walk |
| Dotpath.FieldRefused | model-serving-puller/puller/dotpath.go:56-66 | a value of the wrong kind anywhere on the path makes the whole set fail |
| DotpathOrder.Commute | model-serving-puller/puller/dotpath.go:28-35 | two overrides of different paths give the same tree or the same failure in either order |
| DotpathOrder.TwoSucceed | model-serving-puller/puller/dotpath.go:28-35 | both succeed exactly when each does alone and neither path is a proper prefix of the other |
| DotpathOrder.OrderIrrelevant | model-serving-puller/puller/dotpath.go:28-35 | every permutation of the overrides gives the same success or failure and the same tree |
| DotpathOrder.SucceedsExactly | model-serving-puller/puller/dotpath.go:28-35 | all overrides succeed exactly when each is settable in the original parameters and no path is a proper prefix of another |
| DotpathOrder.AppliedGet | model-serving-puller/puller/dotpath.go:28-35 | afterwards every override is in place and what no override touches is where it was |
| DotpathOrder.KeysDistinct | model-serving-puller/puller/dotpath.go:28-39 | the keys of a map of overrides have different field lists |
| DotpathOrder.IterationIrrelevant | model-serving-puller/puller/dotpath.go:28-35 | whatever order Go iterates the map in, the outcome is the same |
| DotpathOrder.IterationExists | model-serving-puller/puller/dotpath.go:28-35 | every map of overrides has an iteration |
| DotpathFailures.UnchangedExactly | model-serving-puller/puller/dotpath.go:28-35 | overrides leave the parameters alone in every order exactly when those that can be set are in place already: for overrides that fail, this is when the call is all or nothing |
| DotpathFailures.SameTreeExactly | model-serving-puller/puller/dotpath.go:28-35 | after a failure the tree depends on the order of the iteration, except when it is the old one in every order |
| DotpathFailures.FailureExample | model-serving-puller/puller/dotpath.go:28-35 | an override that can be set and one that cannot: the first is there after the error or not, as the iteration goes |
| DotpathFailures.FirstStays | model-serving-puller/puller/dotpath.go:28-35 | an override that is tried first and can be set is in the tree after the call, whatever fails later |
| DotpathFailures.AgreeableIs | model-serving-puller/puller/dotpath.go:28-35 | the condition for success needs no order: each override can be set in the parameters, and no path is a proper prefix of another |
| DotpathHeap.AllInPlace | model-serving-puller/puller/dotpath.go:28-35 | on success every override of the map is in place and every path that none of them leads to or through leads where it led |
| DotpathHeap.WritePlaced | model-serving-puller/puller/dotpath.go:54-68 | a write that loses no map leaves the nested maps a tree, each map in one place |
| DotpathHeap.PutErase | model-serving-puller/puller/dotpath.go:54-68 | a write on the heap is the replacement of one field of the tree |
| DotpathHeap.SetInPlace | model-serving-puller/puller/dotpath.go:41-71 | with a nil map an error; otherwise success exactly when the tree can be set, and then the maps hold the new tree; on an error no map has changed |
| DotpathHeap.ApplyParameterOverrides | model-serving-puller/puller/dotpath.go:28-35 | for every order of iteration success exactly when each override can be set in the parameters and no path is a proper prefix of another, and then the same tree, with every override in place; a nil map is an error unless there are no overrides; the tree left is what the order makes of it up to the first refused override, which is named, and each override before it is applied once |
| ClientCaches.EntriesAre | pullman/cache.go:65-95 | in every run a cached entry holds the client last stored under its key and expires a full time to live after its last use |
| ClientCaches.LastUse | pullman/cache.go:65-95 | the last use of a key is its last lookup or store, and its last client that of its last store |
| ClientCaches.NeverEvictsFresh | pullman/cache.go:121-147 | with the scan mixed with lookups in any way, a candidate is still the entry of its key when it is checked under the lock, and is deleted exactly when its last use is more than the time to live ago; no other entry is touched |
| ClientCaches.OnlyRecheckEvicts | pullman/cache.go:65-146 | no other operation takes a client out of the cache |
| ClientCaches.NoTtlNoEviction | pullman/cache.go:37-42 | with a time to live of zero or less a key is cached for good from the first time it is stored |
| ClientCaches.SweepLeaves | pullman/cache.go:138-146 | of a whole sweep an entry goes exactly when it is expired at the check of its own key, and the others stay as they were |
| ClientCacheHeap.ClientCache.GetClient | pullman/cache.go:65-75 | the client stored under the key, if any, with its expiry renewed in place |
| ClientCacheHeap.ClientCache.SetClient | pullman/cache.go:77-95 | an existing entry is updated in place and stays the same object, so a pending candidate sees it; a new entry is a new object |
| ClientCacheHeap.ClientCache.Look | pullman/cache.go:126-130 | the entry is kept as a candidate exactly when it is expired now; without the lock nothing else changes |
| ClientCacheHeap.ClientCache.CheckAgain | pullman/cache.go:139-145 | the candidate's key is deleted exactly when the entry is expired now |
| ClientCacheHeap.ClientCache.ExpireCandidates | pullman/cache.go:132-146 | all candidates are checked with the lock held, what is left is what the sweep says, and the entries left are the same objects |
| PullManagers.KeysApartExactly | pullman/pullman.go:94-95 | distinct pairs of type and key have distinct cache keys exactly when no registered type continues another after a bar |
| PullManagers.NoBarNoSharing | pullman/pullman.go:94-95 | so it is when no registered type contains a bar |
| PullManagers.FoundClient | pullman/pullman.go:98-101 | a client found in the cache was built by the provider of the type asked for, from a config of that type with the same key |
| PullManagers.WrongClient | pullman/pullman.go:94-101 | where one type continues another there are providers and a run after which a lookup finds the other type's client |
| PullManagers.CachedClient | pullman/pullman.go:84-113 | a cached client is the last one built for its key, by the provider of its config's type |
| PullManagers.BuildsAndEvictions | pullman/pullman.go:104-112 | over every run the builds for a key are its evictions, plus one if it is cached |
| PullManagers.CleanupKeepsManaged | pullman/pullman.go:97-110 | a cleanup between the lookup and the store disturbs nothing |
| PullManagers.PullManager.FindClient | pullman/pullman.go:84-101 | an unknown type is an error that touches nothing; a hit is the last client stored, with the cache key asked for, and with the type and key asked for where no registered type continues another |
| PullManagers.PullManager.Scan | pullman/pullman.go:97-110 | a look of the cleanup at an entry, also between the lookup and the store, keeps all this |
| PullManagers.PullManager.CleanUp | pullman/cache.go:132-146 | the locked half of a cleanup, also between the lookup and the store, leaves the entries that the sweep of the candidates leaves, as the same objects, and no candidate |
| PullManagers.PullManager.KeepClient | pullman/pullman.go:103-112 | a failed build leaves the cache as it was; a new client is stored under its key where there was none |
| MarNames.TwoPassesEncode | model-mesh-torchserve-adapter/server/server.go:318-321 | the two replacement passes together are one encoding, character by character |
| MarNames.EscapedParts | model-mesh-torchserve-adapter/server/server.go:318-321 | every backslash is doubled, every slash becomes a backslash and an underscore, and every other character stays |
| MarNames.DecodeEncode | model-mesh-torchserve-adapter/server/server.go:318-321 | the encoding has a left inverse |
| MarNames.EncodeDecode | model-mesh-torchserve-adapter/server/server.go:318-321 | whatever decodes is the encoding of its result |
| MarNames.NameOfId | model-mesh-torchserve-adapter/server/server.go:318-323 | a file name belongs to an id exactly when it is that id's name |
| MarNames.NamesDiffer | model-mesh-torchserve-adapter/server/server.go:318-323 | different model ids have different file names |
| MarNames.NameIsSafe | model-mesh-torchserve-adapter/server/server.go:318-323 | a name has no slash, is not a special directory name, ends in .mar and is never the config file's |
| MarNames.SuffixIs | model-mesh-torchserve-adapter/server/server.go:443-445 | the startup filter lets exactly the names through that are something followed by the suffix |
| ModelStores.LinksApart | model-mesh-torchserve-adapter/server/server.go:328-355 | over every run of operations each id has the link that the operations on this very id gave it |
| ModelStores.OthersStay | model-mesh-torchserve-adapter/server/server.go:443-445 | no run touches a file that does not end in .mar |
| ModelStores.SweepTakesAllLinks | model-mesh-torchserve-adapter/server/server.go:443-445 | the startup filter covers the link of every id and not the config file |
| ModelStores.ModelStore.LinkModelFile | model-mesh-torchserve-adapter/server/server.go:328-345 | succeeds exactly for a file whose link can be made; then this id's name is a link to the model, and no other entry of the directory changes in any case |
| ModelStores.ModelStore.ClearMarFiles | internal/util/fileutil.go:55-73 | succeeds exactly when the directory is missing or can be listed and no entry that ends in .mar is stuck, and then what is left is every other entry, unchanged; in any case nothing else is removed and the config file stays |
| DiskSizes.HaltsExactly | model-serving-puller/puller/puller.go:238-263 | the recursion ends exactly when no trail that the walk goes along, with nothing before it in the way, comes back to a path; it is then no deeper than there are paths, and one |
| DiskSizes.NextIs | model-serving-puller/puller/puller.go:238-262 | the walk goes on from a link to its target, from a directory to its entries in the order listed, and from nothing else |
| DiskSizes.AcyclicHalts | model-serving-puller/puller/puller.go:244-245 | it ends where no trail of entries and link targets at all comes back |
| DiskSizes.MoreFuel | model-serving-puller/puller/puller.go:234-271 | a walk that ends has one outcome |
| DiskSizes.SuccessExactly | model-serving-puller/puller/puller.go:239-266 | a walk that ends succeeds exactly when no trail comes back and none leads to a missing path or a directory that cannot be listed |
| DiskSizes.ErrorBeforeLoop | model-serving-puller/puller/puller.go:239-257 | a dangling link listed before a link back to its directory: the walk ends with an error in spite of the cycle |
| DiskSizes.LoopBeforeError | model-serving-puller/puller/puller.go:247-257 | the same links the other way round: the recursion does not end |
| DiskRoutes.RoutesAre | model-serving-puller/puller/puller.go:238-263 | where the walk succeeds the list of routes has every route from the path to a regular file, and nothing else |
| DiskRoutes.RoutesDistinct | model-serving-puller/puller/puller.go:238-263 | and none of them twice |
| DiskRoutes.TotalIs | model-serving-puller/puller/puller.go:246-262 | a total is the sum of the sizes of the files that its routes end at, wherever it is split |
| DiskRoutes.WalkCounts | model-serving-puller/puller/puller.go:246-262 | a walk that succeeds has added the size of the file at the end of every route |
| DiskRoutes.ModelDiskSize | model-serving-puller/puller/puller.go:234-271 | whenever the recursion ends: an error exactly when some trail comes back or ends in an error, else the sum over all routes to regular files of the file's size |
| DiskWalks.DiskWalk.Visit | model-serving-puller/puller/puller.go:238-263 | the callback adds a file's size, or what a walk of its own finds behind a link; after a failure there it adds nothing |
| DiskWalks.DiskWalk.WalkTree | model-serving-puller/puller/puller.go:238-264 | wherever the recursion ends, the walk over the captured variable gives what the recursive one does, partial sizes of failed walks included |
| DiskWalks.ModelSize | model-serving-puller/puller/puller.go:234-271 | for every file system and path from which the recursion ends: success exactly without cycles and errors, and then the size as a sum over a complete list of distinct routes |

## Left out

- Outside effects: gRPC, HTTP, JSON and the file system enter as arguments (outcomes of load and unload, of the reload, of stat, remove, symlink and lstat); error texts and log lines are not modelled, except the log arguments that can crash.
- Clocks: each operation takes the time it reads as an argument; nothing assumes that these times grow.
- Serialiser: sending on the intake after it was closed is not a step (nothing in the repository closes the intake); calls of load and unload are assumed to end, so a call that hangs is not told from one that takes long.
- Serialiser: `unloadAll` calls the puller directly and is not part of the concurrency model.
- OVMS actor: the path for a closed request channel (lines 366 to 370) and the entry point `GetConfig`, which writes the cached response from outside the actor, are not modelled; the reported states are fixed while one batch is completed.
- OVMS actor: `Reported` requires that OVMS names at least one version state for every model it reports, since line 311 takes the first without a check.
- OVMS actor: a crash ends the run; how many answers had been sent by then is left open.
- OvmsManagers.OvmsModelManager.RunLoop: says nothing of the state after a crash, because the process is gone.
- Dotpath: the nested maps are a tree, as decoded JSON is; maps shared between two places are not modelled.
- Cache: what a Go data race during the unlocked scan does to memory is not modelled; each entry is read in one step. A scan may visit any subset of the entries, each at most once.
- PullManagers.PullManager.KeepClient: NewRepository is a value from outside; two builds are told apart by their place in the run and not by an identity of their own.
- TorchServe: the store directory is one flat map of names; joining its path and registering models with TorchServe are not part of this model.
- Disk size: a link's target stands for the path that the walk opens next; how a relative target is resolved is not modelled. Sizes are unbounded natural numbers: the 64-bit sum of the source does not overflow on real disks.
- Disk size: a file that changes or disappears during the walk is not modelled.
- Adapter bodies that only pass requests on (LoadModel, UnloadModel, RuntimeStatus beyond its cleanup), layout adaptation for Triton, OVMS and MLServer, schema conversion and capacity estimates would only add easy members.
