/**
 * The parallel aggregate task as values: the base task's lifecycle state plus
 * the owned child list `tasks`, the working list `pending` and the two outcome
 * lists. Children are identified by TaskId; when a child resolves, the
 * environment calls HandleDone with the child and the status it reports.
 */
module CompoundSpec {
  import opened Wrappers
  import opened TaskSpec
  import opened JsArray

  datatype AggState = AggState(
    base: TaskState,
    tasks: seq<TaskId>,
    pending: seq<TaskId>,
    completed: seq<TaskId>,
    failed: seq<TaskId>,
    failEarly: bool,
    pendingAssigned: bool)

  /**
   * What a handler threw: an unknown child status, no first child to shift
   * off, or a read of the pending list before any `run` assigned it.
   */
  datatype Error = UnknownTaskStatus | NoTaskToRun | PendingListUndefined

  /** The state a handler leaves and what it threw, if anything (a throw does not undo earlier writes). */
  datatype Handled = Handled(state: AggState, thrown: Option<Error>)

  /**
   * A null task list becomes the empty list; both outcome lists start empty;
   * the pending list stays unassigned until the first `run`.
   */
  function NewAggregate(tasks: Option<seq<TaskId>>): AggState
  {
    AggState(NewTask(), if tasks.Some? then tasks.value else [], [], [], [], false, false)
  }

  function AddTask(st: AggState, t: TaskId): AggState
  {
    st.(tasks := st.tasks + [t])
  }

  /** Append effects to the trace of the aggregate's own task. */
  function Emit(st: AggState, effects: seq<Effect>): AggState
  {
    st.(base := st.base.(trace := st.base.trace + effects))
  }

  /** `done(handleDone)` then `run()` with no data, child after child. */
  function StartAll(children: seq<TaskId>): (r: seq<Effect>)
    ensures |r| == 2 * |children|
  {
    if children == [] then []
    else [Registered(children[0]), Started(children[0], None)] + StartAll(children[1..])
  }

  /** `cancel()` on each child in the given order. */
  function Cancellations(children: seq<TaskId>): (r: seq<Effect>)
    ensures |r| == |children|
  {
    if children == [] then [] else [CanceledChild(children[0])] + Cancellations(children[1..])
  }

  /**
   * `run`: ignored while pending; otherwise pending, `pending` a copy of
   * `tasks`, and every child registered and started. The outcome lists are not
   * reset.
   */
  function Run(st: AggState): AggState
  {
    if st.base.status == Pending then st
    else Emit(st.(base := st.base.(status := Pending), pending := st.tasks, pendingAssigned := true), StartAll(st.tasks))
  }

  /** Child statuses sorted into `failedTasks`. */
  predicate CountsAsFailure(s: Status)
  {
    s == Failed || s == Canceled || s == Mixed
  }

  /** `cancelTasks`: pop every pending child, cancel it and record it as failed. */
  function CancelTasks(st: AggState): AggState
  {
    Emit(st.(pending := [], failed := st.failed + PopOrder(st.pending)), Cancellations(PopOrder(st.pending)))
  }

  /**
   * The aggregate's `cancel`: cancel the pending children, then cancel itself.
   * Before any `run` the pending list is unassigned and reading its length
   * throws, so nothing is canceled.
   */
  function Cancel(st: AggState): Handled
  {
    if !st.pendingAssigned then Handled(st, Some(PendingListUndefined))
    else
      var s1 := CancelTasks(st);
      Handled(s1.(base := CancelTask(s1.base)), None)
  }

  /**
   * `setFinalStatus`: no failures -> complete; failures and no completions ->
   * fail; both -> "mixed", broadcasting "failed" and "complete", then done.
   */
  function SetFinalStatus(st: AggState): AggState
  {
    if |st.failed| == 0 then st.(base := CompleteTask(st.base))
    else if |st.completed| == 0 then st.(base := FailTask(st.base))
    else
      st.(base := TaskSpec.NotifyDone(st.base.(status := Mixed,
            trace := st.base.trace + [Dispatched(FailedEvent), Dispatched(CompleteEvent)])))
  }

  /** The status SetFinalStatus settles on, as a decision table. */
  function FinalStatus(completed: seq<TaskId>, failed: seq<TaskId>): Status
  {
    if failed == [] then Complete else if completed == [] then Failed else Mixed
  }

  function SettleIfDrained(st: AggState): AggState
  {
    if st.pending == [] then SetFinalStatus(st) else st
  }

  /**
   * The parallel `handleDone(child)`: ignored unless pending; otherwise
   * `pending.splice(pending.indexOf(child), 1)`, then the child is sorted by
   * its status. With failEarly a failure fails the aggregate and then cancels
   * the rest; otherwise a drained `pending` settles the final status.
   */
  function HandleDone(st: AggState, child: TaskId, status: Status): Handled
  {
    if st.base.status != Pending then Handled(st, None)
    else
      var s1 := st.(pending := SpliceOne(st.pending, IndexOf(st.pending, child)));
      if status == Complete then
        Handled(SettleIfDrained(s1.(completed := s1.completed + [child])), None)
      else if CountsAsFailure(status) then
        var s2 := s1.(failed := s1.failed + [child]);
        if s2.failEarly then Handled(CancelTasks(s2.(base := FailTask(s2.base))), None)
        else Handled(SettleIfDrained(s2), None)
      else Handled(s1, Some(UnknownTaskStatus))
  }

  /** The static `execute`: build, set failEarly, register the callback, run. */
  function Execute(tasks: Option<seq<TaskId>>, callback: CallbackId, failEarly: bool): AggState
  {
    var st := NewAggregate(tasks);
    Run(st.(failEarly := failEarly, base := AddDoneCallback(st.base, callback)))
  }
}
