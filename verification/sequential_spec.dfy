/**
 * The sequential aggregate as values. It keeps the parallel aggregate's state
 * (CompoundSpec.AggState) and overrides `run` and `handleDone`: only one child
 * is in flight at a time, and each next child is run with the previous one as
 * its input.
 */
module SequentialSpec {
  import opened Wrappers
  import opened TaskSpec
  import CompoundSpec

  type AggState = CompoundSpec.AggState
  type Handled = CompoundSpec.Handled

  /** `done(handleDone)` then `run(input)` on one child. */
  function Launch(child: TaskId, input: Option<TaskId>): seq<Effect>
  {
    [Registered(child), Started(child, input)]
  }

  /**
   * `run`: pending, `pending` a copy of `tasks`, and the first child shifted
   * off, registered and run with no input. There is no guard against a second
   * call while pending. With no children the shift yields nothing and the call
   * on it throws, after the status and `pending` were already written.
   */
  function Run(st: AggState): Handled
  {
    var s1 := st.(base := st.base.(status := Pending), pending := st.tasks, pendingAssigned := true);
    if s1.pending == [] then CompoundSpec.Handled(s1, Some(CompoundSpec.NoTaskToRun))
    else
      var first := s1.pending[0];
      CompoundSpec.Handled(CompoundSpec.Emit(s1.(pending := s1.pending[1..]), Launch(first, None)), None)
  }

  /**
   * After a child is recorded: shift off and launch the next child with the
   * finished one as input, or settle the final status when none is left.
   */
  function Advance(st: AggState, finished: TaskId): AggState
  {
    if st.pending != [] then
      var next := st.pending[0];
      CompoundSpec.Emit(st.(pending := st.pending[1..]), Launch(next, Some(finished)))
    else CompoundSpec.SetFinalStatus(st)
  }

  /**
   * The sequential `handleDone(child)`: ignored unless pending; a completed
   * child is recorded and the chain advances; a failed, canceled or mixed child
   * is recorded as failed and, with failEarly, the rest are canceled before the
   * aggregate fails; any other status throws with nothing changed. `pending` is
   * never searched: the reporter is taken to be the child in flight.
   */
  function HandleDone(st: AggState, child: TaskId, status: Status): Handled
  {
    if st.base.status != Pending then CompoundSpec.Handled(st, None)
    else if status == Complete then
      CompoundSpec.Handled(Advance(st.(completed := st.completed + [child]), child), None)
    else if CompoundSpec.CountsAsFailure(status) then
      var s1 := st.(failed := st.failed + [child]);
      if s1.failEarly then
        var s2 := CompoundSpec.CancelTasks(s1);
        CompoundSpec.Handled(s2.(base := FailTask(s2.base)), None)
      else CompoundSpec.Handled(Advance(s1, child), None)
    else CompoundSpec.Handled(st, Some(CompoundSpec.UnknownTaskStatus))
  }

  /** The static `execute`: build, set failEarly, register the callback, run. */
  function Execute(tasks: Option<seq<TaskId>>, callback: CallbackId, failEarly: bool): Handled
  {
    var st := CompoundSpec.NewAggregate(tasks);
    Run(st.(failEarly := failEarly, base := AddDoneCallback(st.base, callback)))
  }
}
