/**
 * The sequential aggregate as an object. The original class extends the
 * parallel aggregate; here it holds one (`agg`), reuses its fields and its
 * `cancelTasks`/`setFinalStatus`, and replaces `run` and `handleDone`.
 */
module Sequential {
  import opened Wrappers
  import opened TaskSpec
  import opened Base
  import opened Compound
  import CompoundSpec
  import SequentialSpec

  class SequentialAsyncTask<D> {
    const agg: CompoundAsyncTask<D>

    function State(): CompoundSpec.AggState
      reads this, agg, agg.base
    {
      agg.State()
    }

    constructor(tasks: Option<seq<TaskId>>)
      ensures fresh(agg) && fresh(agg.base) && agg.base.data == None
      ensures State() == CompoundSpec.NewAggregate(tasks)
    {
      agg := new CompoundAsyncTask(tasks);
    }

    /** The sequential `run`; the aggregate's own input is not passed on. */
    method Run(input: Option<D>) returns (thrown: Option<CompoundSpec.Error>)
      modifies agg, agg.base
      ensures CompoundSpec.Handled(State(), thrown) == SequentialSpec.Run(old(State()))
      ensures agg.base.data == old(agg.base.data)
    {
      agg.base.status := Pending;
      agg.pendingTasks := agg.tasks;
      agg.pendingAssigned := true;
      if |agg.pendingTasks| == 0 {
        return Some(CompoundSpec.NoTaskToRun);
      }
      var task := agg.pendingTasks[0];
      agg.pendingTasks := agg.pendingTasks[1..];
      agg.base.trace := agg.base.trace + [Registered(task)];
      agg.base.trace := agg.base.trace + [Started(task, None)];
      thrown := None;
    }

    method HandleDone(task: TaskId, taskStatus: Status) returns (thrown: Option<CompoundSpec.Error>)
      modifies agg, agg.base
      ensures CompoundSpec.Handled(State(), thrown) == SequentialSpec.HandleDone(old(State()), task, taskStatus)
      ensures agg.base.data == old(agg.base.data)
    {
      thrown := None;
      if agg.base.status != Pending {
        return;
      }
      ghost var st := State();
      match taskStatus {
        case Complete =>
          agg.completedTasks := agg.completedTasks + [task];
          CompletedBranch(st, task);
        case Mixed | Canceled | Failed =>
          agg.failedTasks := agg.failedTasks + [task];
          FailedBranch(st, task, taskStatus);
          if agg.failEarly {
            agg.CancelTasks();
            agg.base.Fail();
            return;
          }
        case _ =>
          thrown := Some(CompoundSpec.UnknownTaskStatus);
          return;
      }
      Advance(task);
    }

    /** The tail of `handleDone`: run the next child with the finished one as input, or settle. */
    method Advance(finished: TaskId)
      modifies agg, agg.base
      ensures State() == SequentialSpec.Advance(old(State()), finished)
      ensures agg.base.data == old(agg.base.data)
    {
      if |agg.pendingTasks| > 0 {
        var nextTask := agg.pendingTasks[0];
        agg.pendingTasks := agg.pendingTasks[1..];
        agg.base.trace := agg.base.trace + [Registered(nextTask)];
        agg.base.trace := agg.base.trace + [Started(nextTask, Some(finished))];
      } else {
        agg.SetFinalStatus();
      }
    }

    /** The static `execute`: the callback is registered before `run`. */
    static method Execute(tasks: Option<seq<TaskId>>, callback: CallbackId, failEarly: bool)
      returns (task: SequentialAsyncTask<D>, thrown: Option<CompoundSpec.Error>)
      ensures fresh(task) && fresh(task.agg) && fresh(task.agg.base)
      ensures CompoundSpec.Handled(task.State(), thrown) == SequentialSpec.Execute(tasks, callback, failEarly)
    {
      task := new SequentialAsyncTask(tasks);
      task.agg.SetFailEarly(failEarly);
      var _ := task.agg.base.Done(callback);
      thrown := task.Run(None);
    }
  }

  lemma CompletedBranch(st: CompoundSpec.AggState, child: TaskId)
    requires st.base.status == Pending
    ensures SequentialSpec.HandleDone(st, child, Complete)
         == CompoundSpec.Handled(SequentialSpec.Advance(st.(completed := st.completed + [child]), child), None)
  {
  }

  lemma FailedBranch(st: CompoundSpec.AggState, child: TaskId, status: Status)
    requires st.base.status == Pending && CompoundSpec.CountsAsFailure(status)
    ensures var s1 := st.(failed := st.failed + [child]);
      var s2 := CompoundSpec.CancelTasks(s1);
      SequentialSpec.HandleDone(st, child, status)
        == if st.failEarly then CompoundSpec.Handled(s2.(base := FailTask(s2.base)), None)
           else CompoundSpec.Handled(SequentialSpec.Advance(s1, child), None)
  {
  }
}
