# asynctasks — a verified model of the task lifecycle and the two aggregate tasks

asynctasks replaces promises with task objects. An `AsyncTask` starts
"initialized". Each call of `complete`, `fail` or `cancel` resolves it: the
status becomes "complete", "failed" or "canceled", the task broadcasts its
own event (none for cancel), then "done", and then invokes the callbacks
that `done(cb)` registered, in registration order. Nothing stops a second
such call, but it finds no callbacks left, because the first one dropped
them. Aggregate tasks can also end "mixed". Two aggregate tasks are built on
it:

- `CompoundAsyncTask` runs all its children at once. It files each child that
  reports into `completedTasks` or `failedTasks`. When none is pending any
  more, it settles on "complete", "failed" or "mixed". With `failEarly` the
  first failing child fails the aggregate and cancels the rest.
- `SequentialAsyncTask` runs one child at a time, in list order. Each next
  child is run with the previous one as its input.

This project models those three classes in Dafny. Each class is also given
as a pure function on a state value, and each method is proved to move the
object exactly as that function does. The properties below are proved about
those functions.

Modules:

- `JsArray` (`js_array.dfy`): the JavaScript array operations the aggregates
  rely on. These are `indexOf`, `splice(idx, 1)` with its negative-start rule,
  and the order in which repeated `pop` visits a list.
- `TaskSpec` (`task_spec.dfy`): the lifecycle of one task as a value. It holds
  the status, the registered callbacks and a trace of effects. The trace
  records broadcast events, invoked callbacks, and calls on children: `done`,
  `run` and `cancel`. Keeping all of these in one trace keeps their relative
  order visible.
- `Base` (`async_task.dfy`): class `AsyncTask`, whose fields its methods
  update in place. `NotifyDone` keeps the source's loop.
- `CompoundSpec` (`compound_spec.dfy`) and `Compound` (`compound_async_task.dfy`):
  the parallel aggregate as a value and as a class. The class's `cancelTasks`
  keeps the source's pop loop.
- `CompoundProofs` (`compound_proofs.dfy`): proofs about the parallel
  aggregate. They cover:
  - the partition of the children;
  - settlement for any order of reports (`Drive` feeds a list of reports);
  - fail-early;
  - cancel;
  - `execute`.
- `SequentialSpec` (`sequential_spec.dfy`) and `Sequential`
  (`sequential_async_task.dfy`): the sequential aggregate as a value and as a
  class.
- `SequentialProofs` (`sequential_proofs.dfy`): proofs about the sequential
  aggregate. They cover:
  - the launch chain;
  - the outcome lists;
  - settlement (`Feed` feeds the statuses of the child in flight and then
    of each next child);
  - fail-early.

Errors the source throws are values, not preconditions: `Handled(state,
thrown)` keeps the writes made before the throw. There are three such errors:

- `UnknownTaskStatus`: a child reports a status that is neither terminal nor
  failing.
- `NoTaskToRun`: the sequential `run` has no child to shift off, so the call
  on `undefined` throws.
- `PendingListUndefined`: `cancel` before any `run` reads the length of a
  pending list that was never assigned.

Inheritance becomes composition. `CompoundAsyncTask` holds its `AsyncTask` as
`base`. `SequentialAsyncTask` holds a `CompoundAsyncTask` as `agg` and
overrides `run` and `handleDone`.

## Model

| member | source | states |
|---|---|---|
| Base.AsyncTask.constructor | AsyncTask.ts:33-35 | A new task has status "initialized", no done-callbacks, an empty trace and no data (field initialiser at AsyncTask.ts:45) |
| Base.AsyncTask.SetCompleted | AsyncTask.ts:65-72 | The `completed` setter forces status "complete" whatever value is passed. It broadcasts nothing and invokes no callback. Afterwards the `completed` getter is true and `failed` is false |
| Base.AsyncTask.SetFailed | AsyncTask.ts:81-88 | The `failed` setter forces status "failed" whatever value is passed, silently. Afterwards `failed` is true and `completed` is false |
| Base.AsyncTask.IsCompleted | AsyncTask.ts:65-68 | The `completed` getter is true exactly when the status is "complete" |
| Base.AsyncTask.IsFailed | AsyncTask.ts:81-84 | The `failed` getter is true exactly when the status is "failed". It is never true together with `completed` |
| Base.AsyncTask.Complete | AsyncTask.ts:96-100 | Status becomes "complete", so `completed` reads true and `failed` false. The trace gains "complete", then "done", then one invocation per registered callback in order. No callback stays registered (TaskSpec.CompleteTask) |
| Base.AsyncTask.Fail | AsyncTask.ts:108-112 | The same as Complete, with "failed": `failed` reads true and `completed` false |
| Base.AsyncTask.Cancel | AsyncTask.ts:153-157 | Status becomes "canceled", so neither getter reads true. The trace gains "done" and the callback invocations, with no event of its own |
| Base.AsyncTask.NotifyDone | AsyncTask.ts:113-121 | The loop broadcasts "done", invokes every callback by index in registration order, then destroys. Proved against TaskSpec.NotifyDone by a loop invariant |
| Base.AsyncTask.Destroy | AsyncTask.ts:194-197 | Drops every done-callback and changes nothing else |
| Base.AsyncTask.Done | AsyncTask.ts:134-140 | Appends the callback behind those already registered and returns the task itself |
| Base.AsyncTask.Run | AsyncTask.ts:142-144 | The base `run` changes nothing |
| Base.AsyncTask.SetData | AsyncTask.ts:167-175 | `data` holds the new value. The lifecycle state is unchanged |
| TaskSpec.InvokedCallbacksOfInvocations | AsyncTask.ts:116-118 | The invocation loop invokes exactly the given callbacks, in order |
| TaskSpec.ResolveNotifiesInOrder | AsyncTask.ts:96-121 | Each of complete, fail and cancel sets its terminal status and broadcasts its own event ("complete", "failed", or none for cancel). It then broadcasts "done" and invokes exactly the registered callbacks in registration order. No callback is left registered |
| TaskSpec.RegisterAllAppends | AsyncTask.ts:134-140 | Successive `done` calls queue their callbacks in call order and change nothing else |
| TaskSpec.EachCallbackFiresOnce | AsyncTask.ts:113-140 | Register N callbacks on a fresh task and resolve it: each fires exactly once, in registration order. A second resolution by any route fires none of them again, because destroy cleared the list |
| JsArray.IndexOf | CompoundAsyncTask.ts:113 | The result is -1 exactly when the child is absent. Otherwise it is the first position holding the child |
| JsArray.SpliceFound | CompoundAsyncTask.ts:113-114 | Splicing out a present child removes exactly one occurrence of it: the length drops by one and the multiset loses that child |
| JsArray.SpliceMissing | CompoundAsyncTask.ts:113-114 | For an absent child `indexOf` gives -1, and `splice(-1, 1)` removes the LAST pending child |
| JsArray.PopOrder | CompoundAsyncTask.ts:143-147 | Repeated `pop` visits the list from the back: position i of the visit order is element n-1-i |
| JsArray.PopOrderMultiset | CompoundAsyncTask.ts:143-147 | Popping visits every element exactly once |
| Compound.CompoundAsyncTask.constructor | CompoundAsyncTask.ts:32-41 | A null task list becomes empty. Both outcome lists start empty. The pending list is not yet assigned. The base task is new |
| Compound.CompoundAsyncTask.SetFailEarly | CompoundAsyncTask.ts:53-61 | Sets failEarly and changes nothing else |
| Compound.CompoundAsyncTask.AddTask | CompoundAsyncTask.ts:69-71 | Appends the child to `tasks` and changes nothing else |
| Compound.CompoundAsyncTask.Run | CompoundAsyncTask.ts:92-106 | Ignored while pending. Otherwise: status "pending"; `pending` becomes a copy of `tasks`; each child is registered and then started, in list order. The loop is proved against CompoundSpec.Run |
| Compound.CompoundAsyncTask.HandleDone | CompoundAsyncTask.ts:107-140 | Moves the object exactly as CompoundSpec.HandleDone, including the splice that happens before a throw |
| Compound.CompoundAsyncTask.CancelTasks | CompoundAsyncTask.ts:141-150 | The pop loop cancels every pending child, last first, and records each as failed. Proved against CompoundSpec.CancelTasks by a loop invariant |
| Compound.CompoundAsyncTask.Cancel | CompoundAsyncTask.ts:151-155 | Moves the object as CompoundSpec.Cancel: it cancels the children and then itself, or throws before any `run` |
| Compound.CompoundAsyncTask.SetFinalStatus | CompoundAsyncTask.ts:156-173 | Moves the object as CompoundSpec.SetFinalStatus |
| Compound.CompoundAsyncTask.Execute | CompoundAsyncTask.ts:180-187 | Builds a fresh aggregate, sets failEarly, registers the callback and runs, as CompoundSpec.Execute |
| CompoundProofs.FinalStatusTable | CompoundAsyncTask.ts:156-173 | Final status, in both directions: "complete" iff nothing failed; "failed" iff something failed and nothing completed; "mixed" iff both lists are non-empty |
| CompoundProofs.SetFinalStatusSettles | CompoundAsyncTask.ts:156-173 | Settling gives the table's status and leaves the lists alone. It fires every registered callback once, in order. "mixed" broadcasts "failed", then "complete", then "done" |
| CompoundProofs.SettlesByResolving | CompoundAsyncTask.ts:158-165 | The single-outcome branches are exactly the base task's `complete` and `fail` |
| CompoundProofs.SettlesMixed | CompoundAsyncTask.ts:166-172 | The mixed branch sets "mixed", broadcasts both outcomes and takes the done path |
| CompoundProofs.RunEstablishesPartition | CompoundAsyncTask.ts:92-106 | The first run puts every child in `pending`, so each child is in exactly one of pending, completed and failed. It starts all children |
| CompoundProofs.RunWhilePendingIgnored | CompoundAsyncTask.ts:94-96 | A second `run` while pending changes nothing |
| CompoundProofs.CancelTasksKeepsPartition | CompoundAsyncTask.ts:141-150 | `cancelTasks` keeps the partition. It empties `pending`, keeps the completed list, and moves every pending child to failed |
| CompoundProofs.CancelEndsCanceled | CompoundAsyncTask.ts:141-155 | After any run, in whatever state the aggregate is, `cancel` throws nothing. It moves every pending child to failed, last first, and leaves the completed list alone. The trace shows the children canceled before the aggregate's "done" and callbacks. The aggregate ends "canceled" with no callback left registered |
| CompoundProofs.CancelKeepsPartition | CompoundAsyncTask.ts:141-155 | `cancel` keeps every child in exactly one of pending, completed and failed |
| CompoundProofs.CancelBeforeRunThrows | CompoundAsyncTask.ts:141-155 | `cancel` before any `run` throws on the unassigned pending list. Nothing changes and the aggregate stays "initialized" |
| CompoundProofs.CancelAfterRunSucceeds | CompoundAsyncTask.ts:151-155 | After a `run`, `cancel` does not throw |
| CompoundProofs.HandleDoneKeepsPartition | CompoundAsyncTask.ts:107-140 | For a pending child, `handleDone` throws iff the status is neither "complete" nor failing. When it does not throw, the partition holds afterwards |
| CompoundProofs.CompletionKeepsPartition | CompoundAsyncTask.ts:113-139 | A completing pending child keeps the partition |
| CompoundProofs.FailureKeepsPartition | CompoundAsyncTask.ts:113-139 | A failing pending child keeps the partition, with or without failEarly |
| CompoundProofs.IgnoredOnceSettled | CompoundAsyncTask.ts:109-112 | Once the aggregate is not pending, any further reports change nothing |
| CompoundProofs.FailEarlyCancelsRest | CompoundAsyncTask.ts:121-131 | With failEarly the first failure fails the aggregate first: "failed", then "done", then its callbacks. Only after that is each remaining pending child canceled, last first, and filed as failed. Nothing is left pending |
| CompoundProofs.FailThenCancel | CompoundAsyncTask.ts:128-129 | `fail` and then `cancelTasks`: the aggregate's "failed", "done" and callbacks come before any child is canceled, and the canceled children are filed as failed, last first |
| CompoundProofs.UnknownStatusThrows | CompoundAsyncTask.ts:113-134 | An "initialized" or "pending" report throws after the child was spliced out and before it was filed |
| CompoundProofs.AbsentChildDropsLastPending | CompoundAsyncTask.ts:113-117 | A report from a child not in `pending` removes the last pending child, and the reporter is still filed |
| CompoundProofs.DriveToSettlement | CompoundAsyncTask.ts:107-173 | Each pending child reports once, in ANY order, with a terminal or failing status and no failEarly abort. Then nothing is pending and the children are filed by status in report order. The aggregate settles on the table's status and its callbacks fire exactly once |
| CompoundProofs.DriveLastReport | CompoundAsyncTask.ts:107-139 | The report that empties `pending` settles the aggregate on the spot, whatever reports follow it: the drive ends exactly in the settled state |
| CompoundProofs.AllCompleteChildren | CompoundAsyncTask.ts:116-118 | When every report is "complete", every reporter is filed as completed and none as failed |
| CompoundProofs.AllFailedChildren | CompoundAsyncTask.ts:121-125 | When every report fails, every reporter is filed as failed and none as completed |
| CompoundProofs.StartAllInvokesNothing | CompoundAsyncTask.ts:101-105 | Starting the children invokes none of the aggregate's callbacks |
| CompoundProofs.ExecuteStarts | CompoundAsyncTask.ts:180-187 | `execute` leaves the aggregate pending with all children pending and started. Exactly the one callback is registered and none has fired |
| CompoundProofs.ExecuteSettles | CompoundAsyncTask.ts:180-187 | `execute(tasks, cb)` with k > 0 children, each reporting once in any order. The callback fires exactly once. All complete gives "complete" with all k children completed. All failing gives "failed" with all k failed. A mix gives "mixed" |
| Sequential.SequentialAsyncTask.constructor | SequentialAsyncTask.ts:37-40 | The same initial state as the parallel aggregate |
| Sequential.SequentialAsyncTask.Run | SequentialAsyncTask.ts:41-48 | Moves the object as SequentialSpec.Run |
| Sequential.SequentialAsyncTask.HandleDone | SequentialAsyncTask.ts:49-84 | Moves the object as SequentialSpec.HandleDone |
| Sequential.SequentialAsyncTask.Advance | SequentialAsyncTask.ts:76-83 | Shifts off and launches the next child with the finished one as input, or settles when none is left |
| Sequential.SequentialAsyncTask.Execute | SequentialAsyncTask.ts:91-98 | Builds, sets failEarly, registers the callback and runs, as SequentialSpec.Execute |
| SequentialProofs.ChainAt | SequentialAsyncTask.ts:41-80 | Launch i registers child i and runs it with child i-1 as input; the first child gets no input |
| SequentialProofs.OutcomesSplitRun | SequentialAsyncTask.ts:55-71 | With every child resolved, the completed and failed lists together hold each child of the run exactly once |
| SequentialProofs.AllCompleteOutcomes | SequentialAsyncTask.ts:56-58 | When all complete, the completed list is the whole run and the failed list is empty |
| SequentialProofs.RunLaunchesFirst | SequentialAsyncTask.ts:41-48 | `run` with children: status "pending". The first child is registered and run with no input, and the rest wait in order |
| SequentialProofs.RunWithoutChildrenThrows | SequentialAsyncTask.ts:43-46 | `run` with no children throws after setting "pending". No child is launched, so the aggregate stays pending |
| SequentialProofs.SequentialRunHasNoGuard | SequentialAsyncTask.ts:41-48 | Unlike the parallel `run`, which ignores a pending aggregate, the sequential `run` restarts the chain from the first child |
| SequentialProofs.UnknownStatusLeavesPending | SequentialAsyncTask.ts:72-73 | An unknown status throws with nothing changed. Unlike the parallel handler, `pending` is not touched |
| SequentialProofs.IgnoredOnceSettled | SequentialAsyncTask.ts:51-53 | Reports after settlement change nothing |
| SequentialProofs.FeedToSettlement | SequentialAsyncTask.ts:49-84 | The child in flight and each waiting child report in turn, none of them a failure that meets failEarly (so with failEarly on, all complete). Each waiting child is launched with its predecessor as input, each child is filed by its status, and the aggregate settles |
| SequentialProofs.FeedFailEarly | SequentialAsyncTask.ts:64-70 | With failEarly, when child j is the first to fail after j completions, the drive ends there. The j children are completed and launched in chain order, child j is failed, and the rest are canceled before the aggregate fails |
| SequentialProofs.FeedPrefix | SequentialAsyncTask.ts:49-80 | After k reports while children still wait, none a failure that meets failEarly: the finished children are exactly the first k of the run, filed by status in run order. The first k waiting children have been launched in order, each with its predecessor as input, and the rest still wait in order. The aggregate is still pending and its callbacks are untouched |
| SequentialProofs.ExecuteMidway | SequentialAsyncTask.ts:41-98 | `execute` and then k reports, with k below the number of children, none a failure that meets failEarly. The finished children are the first k of the list, each filed once under its own status. The first k + 1 children have been launched in list order, the rest wait, the aggregate is pending and the caller's callback has not fired |
| SequentialProofs.ExecuteSettles | SequentialAsyncTask.ts:91-98 | `execute` with or without failEarly, every child reporting once and none a failure that meets failEarly. The children are launched in list order, each with its predecessor as input. Each is filed once under its own status, in list order. The aggregate settles on the final-status table and the caller's callback fires exactly once |
| SequentialProofs.ExecuteAllComplete | SequentialAsyncTask.ts:91-98 | When all complete, with or without failEarly, the aggregate completes with the whole list completed in list order |
| SequentialProofs.ExecuteLaunchesFirst | SequentialAsyncTask.ts:91-98 | `execute` registers the callback and launches only the first child, with no input; the rest wait in list order |
| SequentialProofs.SettleExtendsTrace | CompoundAsyncTask.ts:156-173 | Settling only appends to the trace |
| SequentialProofs.FailEarlyCancelsFirst | SequentialAsyncTask.ts:64-70 | Sequential fail-early cancels every waiting child, last first, and files each as failed. Only then does the aggregate broadcast "failed", "done" and fire its callbacks. This is the reverse of the parallel order |
| SequentialProofs.ChainInvokesNothing | SequentialAsyncTask.ts:41-80 | Launching children invokes none of the aggregate's callbacks |

## Left out

- Event listeners: `addEventListener` bookkeeping and their removal in `destroy` (AsyncTask.ts:179-205) are not modelled. Only the callback part of `destroy` is. Broadcasting an event is recorded in the trace and reaches no listener.
- `dispatchEvent` is called unqualified, on the global target rather than the task. The model records each broadcast in the task's trace without saying which target receives it.
- `PromiseTask`, `PromiseToTask`, `TaskToPromise` and `EventClasses` are not part of this model. The `.d.ts` and `.js` files mirror the `.ts` sources.
- Children are opaque task identifiers. Their status arrives as an argument to `handleDone`, and `done`, `run` and `cancel` on a child are recorded as effects rather than executed. A child that resolves synchronously inside `run` or `cancel`, re-entering the aggregate's `handleDone`, is not modelled.
- The source passes `this.handleDone` unbound, so under JavaScript semantics `this` inside it would not be the aggregate. The model gives the evidently intended binding: the report reaches the aggregate that registered it.
- Done-callbacks are opaque identifiers. What a callback does when invoked, including the closure `execute` wraps around the caller's callback, is not modelled.
- The caller's `tasks` array is a value here. Aliasing, where the caller mutates the array after constructing the aggregate, is not modelled.
- `data` passed to `run` is not forwarded by either aggregate and plays no part. The base task's `data` is a class field only.
- The `for..in` over `tasks` is modelled as a walk over the indices in order. Extra enumerable properties on the array are not modelled.
- Status strings are a closed enumeration. A child whose `status` is an arbitrary other string is modelled by the two non-terminal statuses, "initialized" and "pending", which reach the same `throw`.
- CompoundProofs.RunEstablishesPartition: the partition is proved only for a run on empty outcome lists. `run` does not reset them, and `addTask` while pending puts a child in `tasks` that is never pending.
- CompoundProofs.ExecuteSettles: requires at least one child. An empty parallel aggregate never settles, because no child ever reports. The model shows this as `execute` leaving it pending.
- Sequential.SequentialAsyncTask.HandleDone: as in the source, the reporter is never looked up in `pending`. It is taken to be the child in flight, so a report from any other child advances the chain all the same.
