# Verification of the coroutine core

A Dafny model of the parts of this repository that are hardest to get right: the job hierarchy and the
cancellable continuation of the C++ coroutine library (`src/kotlinx/coroutines`), four smaller pieces of the same
library, and the tree algorithms and the file matching of `tools/ast_distance`. `dafny verify dfyconfig.toml` in
this directory checks all of it.

## What is modelled

**Jobs, as a forest** (`Causes`, `JobTree`, `JobReach`, `JobForest`). A class holds all jobs of a program: state,
parent, whether the job is linked in the parent's handler list, root cause, the one extra exception, the
`is_completing` flag, sealing, pending ChildCompletion nodes. Creating, starting, cancelling and completing a job
run the real cascade: cancellation goes down to children and up to the parent, re-entrantly, and a finished child
wakes the parent that waits for it. A public call, with all callbacks it makes, is one atomic step. `JobTree.Inv`
is what every call keeps; its lemmas read off structured completion, in each state and over runs, and the absence of
lost wake-ups. `JobReach.Reached` says declaratively who a cancellation reaches, and `Cancel` is proved to reach exactly
those. The cascade terminates because `Phi`, a weight over all jobs, falls with every state change.

**Jobs, one at a time under any interleaving** (`JobLifecycle`, `LateHandlers`, `CancelRace`, `CallEffects`).
Threads that start, cancel, complete and register handlers take one step per shared access: a load, a
compare-and-set, a locked section, one list operation. The theorems hold after every sequence of steps.

**The cancellable continuation** (`Continuation`, `SharedFlag`, `Delivery`). The packed decision/index word and the
completion state, raced by one `get_result`, any number of resumptions, cancellations, handler and index registrations,
and one dispatched task, again one load or compare-and-set per step.

**Smaller machines.** `LimitedDispatcher` (queue and worker count of a limited dispatcher over an underlying
dispatcher that may reorder), `ContextAlgebra` (coroutine contexts and `+`), `ResumeLoop` (the unrolled resume loop
against its recursive definition).

**Tree comparison.** `Trees`, `EditDistance` (the table against the recursive distance, against edit scripts, and the
metric laws), `Rounding` (floats, for the normalized distance), `BinaryTree` (left-child/right-sibling conversion on a
heap of nodes), `Flatten` (dissolving nodes of a type, with parent pointers and caches), `Matching` (the greedy name
pass).

## Where the code departs from its documentation

The model follows the code. Each point below has a concrete instance and the exact condition, both proved.

- The list's `close` (`src/kotlinx/coroutines/internal/LockFreeLinkedList.common.cpp:71-73`) does nothing, so a list
  goes on accepting nodes after `notify_completion`. `LateHandlers.HandlerCanBeLost` is a run that loses a handler of
  either kind, `LateHandlers.LostExactlyAfterReturn` says when exactly that happens, and
  `JobLifecycle.HandlersExactlyOnce` holds for a list that honours `close`.
- `complete_exceptionally` on a job with linked children makes it cancelled but does not cancel the children, against
  the parent-child relation documented in `src/kotlinx/coroutines/Job.hpp:221-226`
  (`JobForest.FailedParentActiveChild`, `JobForest.FailureReachesNoChild`; for the handlers of one job under any
  interleaving `CallEffects.CompletionTellsNobody`).
- `src/kotlinx/coroutines/Job.hpp:536-537` promises that a child is cancelled when its parent is. `attach_child`
  (`src/kotlinx/coroutines/JobSupport.cpp:571-584`) cancels a new child exactly if the parent is final
  (`JobForest.JobForest.Create`), so a child created under a cancelled parent stays active
  (`JobForest.CancelledParentActiveChild`).
- `src/kotlinx/coroutines/Job.hpp:225-226` promises that a job waits for all its children.
  `try_make_completing_slow_path` does not close the list to them before it looks for them, so a node, a child's or a
  handler's, is accepted as long as the job is incomplete, also when the completing call has looked for the last time
  (`LateHandlers.NodeAfterScan`, `LateHandlers.AcceptedUntilClosed`).
- A cancelling job keeps its root cause and one more exception (`src/kotlinx/coroutines/JobSupport.cpp:1372-1383`), so a
  failure reported later can be lost, and the job ends with a CancellationException (`JobForest.LostFailure`,
  `JobForest.FailureHeard`).
- Cancelling does not complete a job that has been started: it stays cancelling until something calls for its
  completion, since `get_on_cancel_complete` is not consulted. This holds for calls taken as atomic
  (`JobForest.JobForest.Cancel`). A cancellation that has read the state of a new job goes on in the completion loop,
  whatever happens meanwhile: `CancelRace.CancelCompletesStarted` is a run in which `start` returns true and `cancel`
  alone makes the job final. A cancellation at its loop head can still complete the job exactly if the job is new at
  that moment (`CancelRace.CancelMayComplete`).
- A new job that is created under a final parent gets a null `parent_handle`, through which `init_parent_job` then calls
  `dispose` if the job is final by then (`JobForest.LazyChildOfFinalParent`; `nullDisposed` of
  `JobForest.JobForest.Create` says exactly when).
- `make_handled` and `make_resumed` share one flag, so a resumption after a cancellation throws although nobody has
  resumed before, exactly if a registration was accepted or another resumption let go (`SharedFlag.ResumeCanThrow`,
  `SharedFlag.ResumeAfterCancel`).
- `invoke_on_cancellation` takes any int as index. One that does not fit into the 29 bits below the decision overwrites
  the decision, and a later `get_result` throws (`Continuation.IndexMustFit`, `Continuation.MisfitBreaks`).
- The edit distance compares type sequences only: different trees can be at distance 0, and then the normalized
  distance calls them identical (`EditDistance.ShapeIsNotSeen`, `EditDistance.TreeMetric`). For huge trees rounding does
  so as well (`EditDistance.RoundedToIdentical`, `EditDistance.NormalizedRange`).
- The binary form of a tree has null children wherever a leaf has a later sibling, and the traversals call through them
  (`BinaryTree.LeafBeforeSibling`, `BinaryTree.TraverseBinary`).
- `add_child` invalidates the cached size but not the cached depth (`Flatten.StaleDepth`,
  `Flatten.AddChildKeepsCaches`).

## Model

| member | source | states |
|---|---|---|
| Causes.GetFinalRootCause | src/kotlinx/coroutines/JobSupport.cpp:1188-1248 | the two scans pick, by position, the first failure, else the second timeout behind a leading one, else the first exception; without exceptions a default CancellationException for a cancelling job and nothing otherwise |
| Causes.WhoPrevails | src/kotlinx/coroutines/JobSupport.cpp:1188-1248 | among root cause, extra and proposed exception the first failure prevails in this order; without one the root cause, unless it is a timeout followed by another timeout |
| Causes.FailureRootIsFinal | src/kotlinx/coroutines/JobSupport.cpp:1188-1248 | a failure that was the root cause is the final cause whatever was added or proposed later |
| Causes.FinalCauseKind | src/kotlinx/coroutines/JobSupport.cpp:1350-1383 | with exceptions recorded only under a root cause, the final state is exceptional exactly if there is one, a failure exactly if any recorded or proposed exception is, and the cause is one of those |
| JobTree.RephaseKeeps | src/kotlinx/coroutines/JobSupport.cpp:845-935 | every safe change of one job's state keeps the invariant of the whole forest |
| JobTree.FinishKeeps | src/kotlinx/coroutines/JobSupport.cpp:1176-1186 | storing the final state keeps the invariant, except that the woken parent has to be looked after next |
| JobTree.GiveTokenKeeps | src/kotlinx/coroutines/JobSupport.cpp:1301-1317 | waiting for the first incomplete child keeps the invariant |
| JobTree.AttachKeeps | src/kotlinx/coroutines/JobSupport.cpp:571-593 | linking a new child at the end of the list keeps the invariant |
| JobTree.StructuredCompletion | src/kotlinx/coroutines/JobSupport.cpp:1065-1096 | in every state, no job is final while a job linked below it, at any depth, is incomplete |
| JobTree.StructuredRun | src/kotlinx/coroutines/JobSupport.cpp:1065-1096 | over every run: a job below x, at any depth, stays linked below x until it is final, and x is not final before that |
| JobTree.ChildrenFirst | src/kotlinx/coroutines/JobSupport.cpp:1065-1096 | over every run: a job that has become final left no child incomplete |
| JobTree.NoLostWakeup | src/kotlinx/coroutines/JobSupport.cpp:1288-1335 | between calls, a job that is completing has exactly one pending ChildCompletion, on an incomplete linked child, and all earlier children are final |
| JobTree.FinalOnceChildrenAre | src/kotlinx/coroutines/JobSupport.cpp:1319-1335 | a job told to complete is final as soon as all its children are |
| JobTree.FlagsMatchTable | src/kotlinx/coroutines/Job.hpp:72-79 | the three flags of a job always show one row of the state table, and only a new job shows none of them |
| JobReach.ReachedExactly | src/kotlinx/coroutines/JobSupport.cpp:948-979 | a cascade that kept within its scope has cancelled exactly the declared jobs |
| JobReach.CausesExactly | src/kotlinx/coroutines/JobSupport.cpp:948-979 | a failure is handed on unchanged to every job of its climb; all others that get cancelled have a CancellationException of their own as their cause |
| JobReach.ClimbReached | src/kotlinx/coroutines/JobSupport.cpp:675-690 | a failure reaches the topmost ancestor that can be reached without crossing a supervisor |
| JobReach.BelowReached | src/kotlinx/coroutines/JobSupport.cpp:948-969 | from there it reaches every incomplete job below |
| JobReach.DownwardKept | src/kotlinx/coroutines/JobSupport.cpp:948-969 | a cascade in which every newly cancelled job tells its children keeps it so that every job linked to a cancelled one is cancelled |
| JobReach.DownwardDepth | src/kotlinx/coroutines/JobSupport.cpp:948-969 | then every job below a cancelled one is cancelled, at any depth |
| JobForest.JobForest.Create | src/kotlinx/coroutines/JobSupport.cpp:749-764 | a job is linked exactly if its parent is not final, starts the parent, and changes no other job; under a final parent, and only there, it is cancelled at once, with a CancellationException, so cancellation from a job downwards stays complete exactly unless the parent is cancelled but not final; says exactly when a null handle is disposed |
| JobForest.JobForest.Attach | src/kotlinx/coroutines/JobSupport.cpp:571-593 | the new state of the parent and the place of the child, with the invariant kept |
| JobForest.JobForest.Start | src/kotlinx/coroutines/JobSupport.cpp:821-843 | starts a new job, reports whether it did, and changes nothing else |
| JobForest.JobForest.Cancel | src/kotlinx/coroutines/JobSupport.cpp:845-886 | keeps the invariant and what lasts; jobs in other trees do not change; the job is inactive and, unless it was final, cancelled, with the given exception as its cause (a null one counts as a CancellationException) unless another failure or timeout prevails; no started job completes by it; whoever gets cancelled has told all linked children and, after a failure, the parent, so if all jobs linked to cancelled ones were cancelled they still are; if nothing in the tree of the job is cancelling, exactly the jobs of `Reached` become cancelled, the subtree of the job for a CancellationException, else the subtree of the topmost ancestor without a supervisor in between, and each with the cause `CausesSpread` names |
| JobForest.JobForest.Complete | src/kotlinx/coroutines/JobSupport.cpp:1035-1096 | true exactly for the first completing call, otherwise nothing changes; with linked children it waits for one of them, which keeps the proposal, and changes no other job; otherwise it is final with the exception that prevails among those recorded and proposed, and a live parent that is no supervisor is cancelled with it if it is a failure; jobs in other trees do not change, and no other started job completes that was not told to; cancellation from a job downwards stays complete exactly unless a live job with an uncancelled child is told to complete with an exception |
| JobForest.JobForest.Run | src/kotlinx/coroutines/JobSupport.cpp:821-1335 | every program of calls keeps the forest invariant; over the whole run a final job keeps its state, a child stays linked until it or its parent is final, cancelled stays cancelled, lost activity never returns, root cause and extra exception are written once, a failure as root cause is the final cause, a job that has recorded a failure ends with one, and any other root cause stays unless a failure or a second timeout prevails; without jobs created below others and without exceptional completions every job linked to a cancelled one is cancelled |
| JobForest.JobForest.MakeCancelling | src/kotlinx/coroutines/JobSupport.cpp:845-886 | the loop of cancellation, terminating, within the scope of the call; a live job takes the given exception, and a new one is final with it |
| JobForest.JobForest.EnterCancelling | src/kotlinx/coroutines/JobSupport.cpp:888-901 | entering the cancelling state tells everybody concerned before it returns |
| JobForest.JobForest.NotifyCancelling | src/kotlinx/coroutines/JobSupport.cpp:948-969 | no child of the job is left live afterwards, nor the parent of a failed one that is no supervisor |
| JobForest.JobForest.CancelParent | src/kotlinx/coroutines/JobSupport.cpp:971-979 | a failure leaves no live parent that is not a supervisor, and a parent that was live has that failure as its cause |
| JobForest.JobForest.MakeCompleting | src/kotlinx/coroutines/JobSupport.cpp:1035-1063 | completes at most once and reports it |
| JobForest.JobForest.TryWaitForChild | src/kotlinx/coroutines/JobSupport.cpp:1288-1317 | finds the first incomplete linked child from a position on, or there is none |
| JobForest.JobForest.Finalize | src/kotlinx/coroutines/JobSupport.cpp:1130-1186 | the final state has the cause the collected exceptions demand, and a live parent has been cancelled with it if it is a failure |
| JobForest.JobForest.FinishJob | src/kotlinx/coroutines/JobSupport.cpp:1265-1286 | the job is final and unlinked, and a parent that waited for it has gone on as `Continued` says |
| JobForest.JobForest.ContinueCompleting | src/kotlinx/coroutines/JobSupport.cpp:1319-1335 | the woken parent waits for its next child with the proposal it had, or is final with the cause its exceptions and that proposal demand |
| JobForest.FailureIsNotPassedDown | src/kotlinx/coroutines/JobSupport.cpp:1077-1096 | completing a job exceptionally leaves its linked children as active and as uncancelled as they were |
| JobForest.FailureReachesNoChild | src/kotlinx/coroutines/JobSupport.cpp:1077-1096 | all linked children are cancelled after such a completion exactly if they were before |
| JobForest.FailedParentActiveChild | src/kotlinx/coroutines/JobSupport.cpp:1077-1096 | a program of three calls after which a failed parent has a linked child that is active and not cancelled |
| JobForest.CancelledParentActiveChild | src/kotlinx/coroutines/JobSupport.cpp:571-584 | a program after which a cancelled job has a linked child that is active and not cancelled |
| JobForest.ToldDownward | src/kotlinx/coroutines/JobSupport.cpp:1065-1096 | telling a job to complete leaves a cancelled job with an uncancelled linked child exactly if it makes a live job with such a child fail |
| JobForest.LostFailure | src/kotlinx/coroutines/JobSupport.cpp:1372-1383 | a program in which a failure is reported to a cancelling job, and the job ends with a CancellationException |
| JobForest.ReportFailure | src/kotlinx/coroutines/JobSupport.cpp:1372-1383 | a failure reported to a cancelling job that holds two exceptions leaves no trace in its final state |
| JobForest.FailureHeard | src/kotlinx/coroutines/JobSupport.cpp:1350-1383 | a failure reported to a cancelling job makes it end with a failure exactly if it holds no extra exception yet, or another failure is among root cause, extra and proposed exception |
| JobForest.LazyChildOfFinalParent | src/kotlinx/coroutines/JobSupport.cpp:749-764 | a program that creates a lazy job under a completed parent: the job is linked nowhere, cancelled and final, and the null handle is disposed |
| JobLifecycle.StepKeeps | src/kotlinx/coroutines/JobSupport.cpp:821-1096 | every step of every thread keeps the invariant of the fine-grained machine |
| JobLifecycle.AtMostFourSwaps | src/kotlinx/coroutines/JobSupport.cpp:821-1009 | in every run the state pointer is swapped at most four times, and no thread fails more than four compare-and-sets |
| JobLifecycle.SingleFinalization | src/kotlinx/coroutines/JobSupport.cpp:1130-1186 | finalization runs at most once, its final compare-and-set cannot fail, and at most one completing call reports success |
| JobLifecycle.CausesAgree | src/kotlinx/coroutines/JobSupport.cpp:1350-1383 | the root cause is written at most once; the final state is exceptional exactly if there is one, and has the exception that prevails among root cause, extra and proposed exception |
| JobLifecycle.HandlersExactlyOnce | src/kotlinx/coroutines/JobSupport.cpp:595-637 | no handler is called twice; if the list honours close, every handler owed a call gets exactly one once the job is final and all calls have returned, a completion handler with the final cause |
| JobLifecycle.RunLasts | src/kotlinx/coroutines/JobSupport.cpp:1350-1383 | final, cancelled and inactive never revert under any interleaving; root cause, extra exception and the completing thread stay; nothing is added after sealing |
| LateHandlers.HandlerCanBeLost | src/kotlinx/coroutines/internal/LockFreeLinkedList.common.cpp:71-73 | with the list as it is, a run exists in which an accepted handler, completion or on-cancelling, is never called |
| LateHandlers.LostExactlyAfterReturn | src/kotlinx/coroutines/JobSupport.cpp:1265-1286 | an accepted handler is lost exactly if it is inserted after the completing call has returned and, if it is an on-cancelling one, while no `notify_cancelling` is on its way; otherwise it is called once, a completion handler with the final cause |
| LateHandlers.AcceptedUntilClosed | src/kotlinx/coroutines/JobSupport.cpp:1265-1286 | in every run, a node is accepted unless the list honours close and is closed, so always while the job is incomplete; once the completing call has looked for children for the last time it does not look again |
| LateHandlers.NodeAfterScan | src/kotlinx/coroutines/JobSupport.cpp:1065-1096 | for either kind of list and of node, a run in which the node is accepted after that last look and before the final state |
| CallEffects.CancelTells | src/kotlinx/coroutines/JobSupport.cpp:888-969 | in every run, a cancellation that makes an active job cancelling has every on-cancelling handler that is in the list at that moment called exactly once when all calls have returned, whether or not the job is final: with the exception of the cancellation or, if the job got final first, with the final cause |
| CallEffects.CompletionTellsNobody | src/kotlinx/coroutines/JobSupport.cpp:1065-1096 | if the job gets cancelled by an exception proposed for its completion, no handler in the list is called before it is final |
| CallEffects.LateHandlerCalled | src/kotlinx/coroutines/JobSupport.cpp:595-637 | an on-cancelling handler to be called at once, registered with a cancelled job, has been called once, with the root or final cause, when the registration returns |
| CallEffects.CallsReport | src/kotlinx/coroutines/JobSupport.cpp:821-886 | in every run, once `start` or `cancel` has returned the job is not new, at most one `start` reports true, after `cancel` the job is not active unless it is just being finalized, and a completing call that reports true has made the job final |
| CallEffects.CompletionWaits | src/kotlinx/coroutines/JobSupport.cpp:1065-1096 | the call that takes the completion over waits exactly if it finds an incomplete child, and until it is woken the job does not become final, whatever other calls do |
| CallEffects.FailureCounts | src/kotlinx/coroutines/JobSupport.cpp:1372-1383 | in every run, a failure brought to a finishing job that is not sealed makes it end with a failure exactly if no extra exception is held or another failure is among root cause, extra and final proposal |
| CancelRace.CancelMayComplete | src/kotlinx/coroutines/JobSupport.cpp:845-886 | a cancellation at its loop head can still take the completion of the job over, in some continuation of the run, exactly if the job is new |
| CancelRace.CancelCompletesStarted | src/kotlinx/coroutines/JobSupport.cpp:845-886 | a run of one `start`, which returns true, and one `cancel` after which the job is final |
| Continuation.PackKeepsParts | src/kotlinx/coroutines/CancellableContinuationImpl.hpp:45-56 | packing keeps the decision exactly if the index fits below it, and then the index too; the word is then a non-negative 32-bit int |
| Continuation.IndexNeverDisturbsDecision | src/kotlinx/coroutines/CancellableContinuationImpl.hpp:863-878 | over every run with indices that fit, a decision once made and an index once registered stay, the decision is one of the three, and the word stays a non-negative 32-bit int |
| Continuation.IndexMustFit | src/kotlinx/coroutines/CancellableContinuationImpl.hpp:863-878 | in every reached state without an index, any int can be registered, and the registration leaves the decision alone exactly if the index fits into the word |
| Continuation.IndexReport | src/kotlinx/coroutines/CancellableContinuationImpl.hpp:863-878 | in every run, an index whose registration was accepted is the one in the word, and a refused registration came when there was one |
| Continuation.MisfitBreaks | src/kotlinx/coroutines/CancellableContinuationImpl.hpp:518-543 | a get_result that follows such a registration, before any resumption or cancellation, throws exactly if the index did not fit, and otherwise suspends |
| Continuation.StepKeeps | src/kotlinx/coroutines/CancellableContinuationImpl.hpp:518-667 | every step of every thread keeps the invariant of the continuation |
| Continuation.ExactlyOnceDelivery | src/kotlinx/coroutines/CancellableContinuationImpl.hpp:518-667 | one compare-and-set at most leaves NotCompleted; dispatch is called at most once and never when get_result yields the outcome; at rest a completed continuation with a get_result has done exactly one of the two |
| Continuation.NothingBreaks | src/kotlinx/coroutines/CancellableContinuationImpl.hpp:599-672 | no thread meets a state the code treats as impossible; a get_result that does not suspend never sees NotCompleted |
| Continuation.HandlerHandOff | src/kotlinx/coroutines/CancellableContinuationImpl.hpp:948-1014 | an accepted cancel handler is called exactly once if the continuation ends cancelled and never otherwise |
| Continuation.ResumptionHandOff | src/kotlinx/coroutines/CancellableContinuationImpl.hpp:392-477 | a resumption with a callback never has two of the fates delivered, callback called, call throws; at rest it has one, unless it won and the result has not been handed over; if it won, it is delivered exactly if the continuation does not end cancelled, and its callback is called exactly if it does |
| Delivery.InactiveDecides | src/kotlinx/coroutines/CancellableContinuationImpl.hpp:646-672 | in every run, whoever takes the result looks at the job once: in a cancellable mode with an inactive job the coroutine gets an exception, the continuation ends cancelled and the callback of the resumption is called once; otherwise the coroutine gets the value and the callback is never called |
| Delivery.ActiveJobDelivers | src/kotlinx/coroutines/CancellableContinuationImpl.hpp:646-672 | as long as no deliverer finds the job inactive no result is thrown away, and the winning resumption is delivered once the result is handed over, its callback not called |
| Delivery.CallsReport | src/kotlinx/coroutines/CancellableContinuationImpl.hpp:392-477 | once a resumption or cancellation has returned the continuation is completed; the one that completed it dispatched it or left it to get_result; later cancellations are ignored, later resumptions throw or, after a cancellation, are ignored |
| SharedFlag.ResumeAfterCancel | src/kotlinx/coroutines/CancellableContinuationImpl.hpp:144-165 | in every run, a resumption that meets a cancelled state throws exactly if some registration was accepted or some other resumption let go; otherwise it is let go and its callback called |
| SharedFlag.ResumeCanThrow | src/kotlinx/coroutines/CancellableContinuationImpl.hpp:144-165 | a run of one registration, one cancellation and one resumption in which the resumption throws |
| SharedFlag.RefusedForReason | src/kotlinx/coroutines/CancellableContinuationImpl.hpp:948-1014 | in every run, a registration is refused only if another one was accepted or a resumption was let go after a cancellation |
| LimitedDispatcher.LimitedParallelism | src/kotlinx/coroutines/CoroutineDispatcher.cpp:158-163 | rejects exactly the limits below 1, otherwise a fresh idle dispatcher |
| LimitedDispatcher.LimitedDispatcher.Dispatch | src/kotlinx/coroutines/CoroutineDispatcher.cpp:51-70 | hands the task over while there is room, otherwise queues it last; keeps the invariant |
| LimitedDispatcher.LimitedDispatcher.OnWorkerComplete | src/kotlinx/coroutines/CoroutineDispatcher.cpp:72-98 | the worker's place goes to the longest waiting task, or becomes free |
| LimitedDispatcher.LimitedDispatcher.RunWorker | src/kotlinx/coroutines/CoroutineDispatcher.cpp:109-123 | a worker runs its task and then gives up its place; a task that throws is reported, and nothing else is different |
| LimitedDispatcher.RunKeeps | src/kotlinx/coroutines/CoroutineDispatcher.cpp:51-123 | in every run the workers in flight are counted right and within the limit, a queue means full use, hand-over is in submission order, each task is exactly one of queued, in flight and done, begins and ends once, and is reported at most once |
| LimitedDispatcher.NothingStranded | src/kotlinx/coroutines/CoroutineDispatcher.cpp:72-98 | when no worker is left, every task dispatched is done |
| LimitedDispatcher.Sequential | src/kotlinx/coroutines/CoroutineDispatcher.cpp:51-123 | with limit 1 tasks run one after the other in submission order, whatever the underlying dispatcher does |
| ContextAlgebra.Plus | src/kotlinx/coroutines/CoroutineContext.common.cpp:16-30 | the fold computes the sum the laws are about; null on the right gives the left operand |
| ContextAlgebra.GetFindsLast | src/kotlinx/coroutines/context_impl.hpp:20-25 | get finds the last element with the key, in any context |
| ContextAlgebra.MinusKeyLaw | src/kotlinx/coroutines/context_impl.hpp:32-47 | minus_key removes exactly that key and keeps order and distinctness; the result is null exactly if nothing is left |
| ContextAlgebra.SumElements | src/kotlinx/coroutines/CoroutineContext.common.cpp:16-30 | the sum has the left elements whose keys the right does not have, then the right ones, with distinct keys |
| ContextAlgebra.SumGet | src/kotlinx/coroutines/CoroutineContext.hpp:88-97 | lookup in a sum prefers the right operand |
| ContextAlgebra.SameElements | src/kotlinx/coroutines/context_impl.hpp:11-18 | a context is determined by its elements |
| ContextAlgebra.Associative | src/kotlinx/coroutines/CoroutineContext.common.cpp:16-30 | + is associative, as an equality of contexts |
| ContextAlgebra.Identity | src/kotlinx/coroutines/context_impl.hpp:49-59 | the empty context is an identity on both sides, null on the right |
| ResumeLoop.ResumeWith | src/kotlinx/coroutines/ContinuationImpl.hpp:58-102 | the loop does what the recursive definition does, same calls in the same order, same final state of the frames; the first frame gets the given result, and each later one and the top level the answer of the one before, a value as a success and an exception as a failure |
| ResumeLoop.Resumption | src/kotlinx/coroutines/ContinuationImpl.hpp:58-102 | frames run from the inside out; those that end are released, the first that suspends is not and ends the resumption; the top level is called once exactly if all frames ended; a frame without completion is not invoked |
| EditDistance.TreeEditDistance | tools/ast_distance/include/similarity.hpp:140-169 | the table computes the recursive distance of the two post-order type sequences |
| EditDistance.NoCheaperScript | tools/ast_distance/include/similarity.hpp:158-166 | no sequence of deletions, insertions and replacements, in any order and at any positions, is cheaper than the distance |
| EditDistance.CheapestScript | tools/ast_distance/include/similarity.hpp:158-166 | some sequence of them is exactly as cheap |
| EditDistance.Symmetric | tools/ast_distance/include/similarity.hpp:140-169 | the distance is symmetric |
| EditDistance.ZeroIffEqual | tools/ast_distance/include/similarity.hpp:140-169 | it is zero exactly for equal type sequences |
| EditDistance.Triangle | tools/ast_distance/include/similarity.hpp:140-169 | the triangle inequality |
| EditDistance.TreeMetric | tools/ast_distance/include/similarity.hpp:140-169 | the three laws for all trees |
| EditDistance.ShapeIsNotSeen | tools/ast_distance/include/similarity.hpp:136-148 | two different trees at distance zero |
| EditDistance.NormalizedRange | tools/ast_distance/include/similarity.hpp:171-179 | with floats rounded to nearest, the normalized distance is between 0 and 1; it is 1 for equal type sequences, for trees of up to 2^24 nodes only for them, and in general exactly if the rounded share of edits is at most 2^-25 |
| EditDistance.NormalizedNear | tools/ast_distance/include/similarity.hpp:171-179 | for trees of up to 2^24 nodes it differs from one minus the exact share of edits by at most 2^-24 |
| EditDistance.RoundedToIdentical | tools/ast_distance/include/similarity.hpp:171-179 | of trees with 2^25 nodes or more, two that differ in the type of the root have normalized distance 1 |
| BinaryTree.Heap.ToBinary | tools/ast_distance/include/tree.hpp:144-173 | adds exactly as many nodes as the tree has, leaves older nodes alone, and lays the tree out with left child, right sibling, null placeholder and parent pointer of every node as stated by `Laid` |
| BinaryTree.Heap.ChainTo | tools/ast_distance/include/tree.hpp:160-169 | the sibling becomes the right child of the current node, behind a placeholder if that is a leaf |
| BinaryTree.RoundTrip | tools/ast_distance/include/tree.hpp:144-173 | the binary form decodes to the original tree |
| BinaryTree.TraverseBinary | tools/ast_distance/include/tree.hpp:75-81 | the pre-order traversal of the binary form meets a null child exactly if some leaf has a later sibling, and otherwise visits the original nodes in the original order |
| BinaryTree.LeafBeforeSibling | tools/ast_distance/include/tree.hpp:160-169 | on the binary form of a node with two leaf children the traversal meets a null child |
| Flatten.FlattenNodeType | tools/ast_distance/include/tree.hpp:116-140 | the loop computes the flattened tree the lemmas are about |
| Flatten.FlatOrder | tools/ast_distance/include/tree.hpp:116-140 | exactly the nodes of the type go, the root excepted; pre-order and post-order of the others stay |
| Flatten.FlatSize | tools/ast_distance/include/tree.hpp:116-140 | no node but the root has the type afterwards, and the size drops by the number of dissolved nodes |
| Flatten.FlatKeeps | tools/ast_distance/include/tree.hpp:124-139 | parent pointers that agreed with the child lists still do, caches that were right still are |
| Flatten.Size | tools/ast_distance/include/tree.hpp:53-61 | right if the caches are; the size is cached, only right caches are left behind, and nothing but size caches changes |
| Flatten.Depth | tools/ast_distance/include/tree.hpp:63-72 | the same for the depth |
| Flatten.AddChildKeepsCaches | tools/ast_distance/include/tree.hpp:39-43 | caches stay right exactly if no depth was cached or the child does not make the tree deeper |
| Flatten.AddChildKeepsParents | tools/ast_distance/include/tree.hpp:39-43 | parent pointers still agree with the child lists |
| Flatten.AddChildOrder | tools/ast_distance/include/tree.hpp:39-43 | the new child comes last: after all older ones in pre-order and post-order |
| Flatten.StaleDepth | tools/ast_distance/include/tree.hpp:39-43 | a leaf with a cached depth keeps depth 0 when it gets a child |
| Matching.Collect | tools/ast_distance/include/codebase.hpp:678-692 | the candidates are exactly the pairs of unmatched files that score above 0.4 |
| Matching.Greedy | tools/ast_distance/include/codebase.hpp:701-726 | the accepted pairs are one-to-one and candidates, and every candidate is covered by an accepted pair of at least its score |
| Matching.NamePass | tools/ast_distance/include/codebase.hpp:677-738 | the whole pass: one-to-one, every rejected pair lost a file to a pair of at least its score, no one-to-one matching of eligible pairs totals more than twice as much, no two files left over score above 0.4, and header-matched, name-matched and unmatched files partition both sides |
| Matching.GreedyAtLeastHalf | tools/ast_distance/include/codebase.hpp:701-726 | the total score is at least half that of any one-to-one choice among the candidates |
| Matching.HalfIsTight | tools/ast_distance/include/codebase.hpp:694-726 | the bound cannot be improved: on three candidates every result the greedy pass can give is the middle pair, and it loses two that score almost as much |

## Left out

- Forest: public calls are atomic; interleaved calls on several jobs are not modelled (`JobLifecycle` interleaves calls on one job).
- Forest: jobs are records in one sequence, the index standing for the address; raw pointers, ownership and leaks are not modelled. A parent has a smaller index than its children because `init_parent_job` runs once, at creation.
- Forest: user handlers are not called (they are in `JobLifecycle`); `handle_job_exception`, the handled flag and the `after_completion` hooks are left out.
- Lifecycle: `close(LIST_CHILD_PERMISSION)` in `continue_completing`, which has no effect in the code.
- Forest and lifecycle: a null exception passed to `complete_exceptionally`; the single-JobNode state, which nothing installs; `join`, `await` and `select`; disposing a registered handler.
- Continuation: installing a cancel handler is a compare-and-set followed by a plain store of `owned_state_`; the pair is one step. A compare-and-set compares values, which is as good as comparing addresses because states only move forward.
- Continuation.IndexNeverDisturbsDecision: runs register only indices that fit into the word, because any other int overwrites the decision; `Continuation.IndexMustFit` is the exact condition, for any int.
- Continuation: the two-phase resumption `try_resume` and `complete_resume`, and `resume_undispatched`, which overrides the resume mode.
- Continuation: reusable continuations, idempotent resume tokens, segments beyond the packed index, the parent handle; memory orderings (all steps are sequentially consistent). `DispatchedTask::run` is not part of this model: the dispatched task is an environment that runs once.
- Continuation: the specialisation for `void` repeats the general template and is not modelled separately.
- LimitedDispatcher: the underlying dispatcher is assumed not to run a worker inside `dispatch`, which would take the lock again. `RunWorker` is one worker without interleaving; the runs of `RunKeeps` interleave them freely.
- ContextAlgebra: contexts with duplicate keys are covered by `get` and `minus_key` only; `+` on a null left operand does not exist in the code.
- ResumeLoop: cyclic completion chains; a `release_intercepted` that throws.
- EditDistance: C++ int overflow.
- BinaryTree: only the pre-order traversal is run on the binary form; `size`, `depth` and the post-order traversal go through the same null children.
- Flatten: nodes are values that carry their identity, so two parents cannot share a child; ancestors of the node that is flattened or extended keep their caches, as in the code, and are not part of the statements.
- Matching: the header pass is an input (the two sets of files it matched); name scores are an arbitrary real function; the sort is some stable sort by descending score.
- The other similarity measures, parsing, reports, Tree-LSTM and Python scripts; builders, timeouts, delay, event loops and flows.
