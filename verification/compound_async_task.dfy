/**
 * The parallel aggregate as an object. It owns its lifecycle through `base`,
 * an AsyncTask (the original class inherits it). Every method is proved to move
 * `State()` exactly as the matching CompoundSpec function does.
 */
module Compound {
  import opened Wrappers
  import opened TaskSpec
  import opened JsArray
  import opened Base
  import CompoundSpec

  class CompoundAsyncTask<D> {
    const base: AsyncTask<D>
    var tasks: seq<TaskId>
    var pendingTasks: seq<TaskId>
    var completedTasks: seq<TaskId>
    var failedTasks: seq<TaskId>
    var failEarly: bool
    /** False while `pendingTasks` is still unassigned (undefined in the original). */
    var pendingAssigned: bool

    function State(): CompoundSpec.AggState
      reads this, base
    {
      CompoundSpec.AggState(base.State(), tasks, pendingTasks, completedTasks, failedTasks, failEarly, pendingAssigned)
    }

    constructor(tasks: Option<seq<TaskId>>)
      ensures fresh(base) && base.data == None
      ensures State() == CompoundSpec.NewAggregate(tasks)
    {
      base := new AsyncTask();
      this.tasks := if tasks.Some? then tasks.value else [];
      pendingTasks := [];
      completedTasks := [];
      failedTasks := [];
      failEarly := false;
      pendingAssigned := false;
    }

    method SetFailEarly(value: bool)
      modifies this
      ensures State() == old(State()).(failEarly := value)
    {
      failEarly := value;
    }

    method AddTask(task: TaskId)
      modifies this
      ensures State() == CompoundSpec.AddTask(old(State()), task)
    {
      tasks := tasks + [task];
    }

    /** The parallel `run`; the aggregate's own input is not passed on to the children. */
    method Run(input: Option<D>)
      modifies this, base
      ensures State() == CompoundSpec.Run(old(State())) && base.data == old(base.data)
    {
      if base.status == Pending {
        return;
      }
      base.status := Pending;
      pendingTasks := tasks;
      pendingAssigned := true;
      for i := 0 to |tasks|
        modifies base`trace
        invariant base.trace == old(base.trace) + CompoundSpec.StartAll(tasks[..i])
      {
        var task := tasks[i];
        assert tasks[..i + 1] == tasks[..i] + [task];
        StartAllSnoc(tasks[..i], task);
        base.trace := base.trace + [Registered(task)];
        base.trace := base.trace + [Started(task, None)];
      }
      assert tasks[..|tasks|] == tasks;
    }

    method HandleDone(task: TaskId, taskStatus: Status) returns (thrown: Option<CompoundSpec.Error>)
      modifies this, base
      ensures CompoundSpec.Handled(State(), thrown) == CompoundSpec.HandleDone(old(State()), task, taskStatus)
      ensures base.data == old(base.data)
    {
      thrown := None;
      if base.status != Pending {
        return;
      }
      ghost var st := State();
      var idx := IndexOf(pendingTasks, task);
      pendingTasks := SpliceOne(pendingTasks, idx);
      ghost var s1 := State();
      assert s1 == st.(pending := SpliceOne(st.pending, IndexOf(st.pending, task)));
      match taskStatus {
        case Complete =>
          completedTasks := completedTasks + [task];
          HandleDoneCompleted(st, task);
        case Mixed | Canceled | Failed =>
          failedTasks := failedTasks + [task];
          HandleDoneFailed(st, task, taskStatus);
          if failEarly {
            base.Fail();
            CancelTasks();
            return;
          }
        case _ =>
          HandleDoneUnknown(st, task, taskStatus);
          thrown := Some(CompoundSpec.UnknownTaskStatus);
          return;
      }
      if |pendingTasks| == 0 {
        SetFinalStatus();
      }
    }

    method CancelTasks()
      modifies this, base
      ensures State() == CompoundSpec.CancelTasks(old(State())) && base.data == old(base.data)
    {
      while |pendingTasks| > 0
        modifies this`pendingTasks, this`failedTasks, base`trace
        invariant pendingTasks == old(pendingTasks)[..|pendingTasks|]
        invariant failedTasks == old(failedTasks) + PopOrder(old(pendingTasks)[|pendingTasks|..])
        invariant base.trace
               == old(base.trace) + CompoundSpec.Cancellations(PopOrder(old(pendingTasks)[|pendingTasks|..]))
        decreases |pendingTasks|
      {
        var k := |pendingTasks| - 1;
        var pending := pendingTasks[k];
        CancelStep(old(pendingTasks), old(failedTasks), old(base.trace), k);
        pendingTasks := pendingTasks[..k];
        base.trace := base.trace + [CanceledChild(pending)];
        failedTasks := failedTasks + [pending];
      }
    }

    /** The aggregate's `cancel`: cancel the pending children, then the base `cancel`. */
    method Cancel() returns (thrown: Option<CompoundSpec.Error>)
      modifies this, base
      ensures CompoundSpec.Handled(State(), thrown) == CompoundSpec.Cancel(old(State()))
      ensures base.data == old(base.data)
    {
      if !pendingAssigned {
        return Some(CompoundSpec.PendingListUndefined);
      }
      thrown := None;
      CancelTasks();
      base.Cancel();
    }

    method SetFinalStatus()
      modifies base
      ensures State() == CompoundSpec.SetFinalStatus(old(State())) && base.data == old(base.data)
    {
      if |failedTasks| == 0 {
        base.Complete();
      } else if |completedTasks| == 0 {
        base.Fail();
      } else {
        base.status := Mixed;
        base.trace := base.trace + [Dispatched(FailedEvent)];
        base.trace := base.trace + [Dispatched(CompleteEvent)];
        base.NotifyDone();
      }
    }

    /** The static `execute`: the callback is registered before `run`, so it is there at resolution. */
    static method Execute(tasks: Option<seq<TaskId>>, callback: CallbackId, failEarly: bool)
      returns (task: CompoundAsyncTask<D>)
      ensures fresh(task) && fresh(task.base)
      ensures task.State() == CompoundSpec.Execute(tasks, callback, failEarly)
    {
      task := new CompoundAsyncTask(tasks);
      task.SetFailEarly(failEarly);
      var _ := task.base.Done(callback);
      task.Run(None);
    }
  }

  lemma HandleDoneCompleted(st: CompoundSpec.AggState, child: TaskId)
    requires st.base.status == Pending
    ensures var s1 := st.(pending := SpliceOne(st.pending, IndexOf(st.pending, child)));
      CompoundSpec.HandleDone(st, child, Complete)
        == CompoundSpec.Handled(CompoundSpec.SettleIfDrained(s1.(completed := s1.completed + [child])), None)
  {
  }

  lemma HandleDoneFailed(st: CompoundSpec.AggState, child: TaskId, status: Status)
    requires st.base.status == Pending && CompoundSpec.CountsAsFailure(status)
    ensures var s1 := st.(pending := SpliceOne(st.pending, IndexOf(st.pending, child)));
      var s2 := s1.(failed := s1.failed + [child]);
      CompoundSpec.HandleDone(st, child, status)
        == if st.failEarly then CompoundSpec.Handled(CompoundSpec.CancelTasks(s2.(base := FailTask(s2.base))), None)
           else CompoundSpec.Handled(CompoundSpec.SettleIfDrained(s2), None)
  {
  }

  lemma HandleDoneUnknown(st: CompoundSpec.AggState, child: TaskId, status: Status)
    requires st.base.status == Pending && status != Complete && !CompoundSpec.CountsAsFailure(status)
    ensures var s1 := st.(pending := SpliceOne(st.pending, IndexOf(st.pending, child)));
      CompoundSpec.HandleDone(st, child, status) == CompoundSpec.Handled(s1, Some(CompoundSpec.UnknownTaskStatus))
  {
  }

  /** One more pop: the child is appended to both the failed list and the cancellations. */
  lemma CancelStep(pending: seq<TaskId>, failed: seq<TaskId>, trace: seq<Effect>, k: nat)
    requires k < |pending|
    ensures pending[..k + 1][..k] == pending[..k] && pending[..k + 1][k] == pending[k]
    ensures failed + PopOrder(pending[k + 1..]) + [pending[k]] == failed + PopOrder(pending[k..])
    ensures trace + CompoundSpec.Cancellations(PopOrder(pending[k + 1..])) + [CanceledChild(pending[k])]
         == trace + CompoundSpec.Cancellations(PopOrder(pending[k..]))
  {
    PopOrderStep(pending, k);
    CancellationsSnoc(PopOrder(pending[k + 1..]), pending[k]);
  }

  /** Popping one more element extends the pop order by it. */
  lemma PopOrderStep(s: seq<TaskId>, k: nat)
    requires k < |s|
    ensures PopOrder(s[k..]) == PopOrder(s[k + 1..]) + [s[k]]
  {
    assert s[k..][1..] == s[k + 1..];
  }

  lemma {:induction false} StartAllSnoc(children: seq<TaskId>, c: TaskId)
    ensures CompoundSpec.StartAll(children + [c])
         == CompoundSpec.StartAll(children) + [Registered(c)] + [Started(c, None)]
  {
    if children != [] {
      assert (children + [c])[1..] == children[1..] + [c];
      StartAllSnoc(children[1..], c);
    }
  }

  lemma {:induction false} CancellationsSnoc(children: seq<TaskId>, c: TaskId)
    ensures CompoundSpec.Cancellations(children + [c])
         == CompoundSpec.Cancellations(children) + [CanceledChild(c)]
  {
    if children != [] {
      assert (children + [c])[1..] == children[1..] + [c];
      CancellationsSnoc(children[1..], c);
    }
  }
}
