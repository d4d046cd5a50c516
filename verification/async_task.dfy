/**
 * The base task as an object whose fields its methods overwrite in place.
 * Every method is proved to move the object's state exactly as the matching
 * function of TaskSpec does. `trace` is not a field of the original object:
 * it is the record of what the task does to the outside (events it
 * broadcasts, callbacks it invokes), kept so that contracts can speak of it.
 */
module Base {
  import opened Wrappers
  import opened TaskSpec

  class AsyncTask<D> {
    var status: Status
    var doneCallbacks: seq<CallbackId>
    var trace: seq<Effect>
    var data: Option<D>

    /** The object's lifecycle state as a TaskSpec value. */
    function State(): TaskState
      reads this
    {
      TaskState(status, doneCallbacks, trace)
    }

    /** A new task is "initialized", has no done-callbacks and no data. */
    constructor()
      ensures State() == NewTask()
      ensures data == None
    {
      status := Initialized;
      doneCallbacks := [];
      trace := [];
      data := None;
    }

    /** The `completed` getter: true exactly when the task resolved successfully. */
    function IsCompleted(): (r: bool)
      reads this
      ensures r <==> State().status == Status.Complete
    {
      status == Status.Complete
    }

    /** The `failed` getter: true exactly when the task resolved to failure; never together with `completed`. */
    function IsFailed(): (r: bool)
      reads this
      ensures r <==> State().status == Status.Failed
      ensures r ==> !IsCompleted()
    {
      status == Status.Failed
    }

    /** The `completed` setter: forces "complete" whatever `value` is, and notifies nobody. */
    method SetCompleted(value: bool)
      modifies this
      ensures State() == ForceStatus(old(State()), Status.Complete) && data == old(data)
      ensures IsCompleted() && !IsFailed()
    {
      status := Status.Complete;
    }

    /** The `failed` setter: forces "failed" whatever `value` is, and notifies nobody. */
    method SetFailed(value: bool)
      modifies this
      ensures State() == ForceStatus(old(State()), Status.Failed) && data == old(data)
      ensures IsFailed() && !IsCompleted()
    {
      status := Status.Failed;
    }

    method Complete()
      modifies this
      ensures State() == CompleteTask(old(State())) && data == old(data)
      ensures IsCompleted() && !IsFailed()
    {
      status := Status.Complete;
      trace := trace + [Dispatched(CompleteEvent)];
      NotifyDone();
    }

    method Fail()
      modifies this
      ensures State() == FailTask(old(State())) && data == old(data)
      ensures IsFailed() && !IsCompleted()
    {
      status := Status.Failed;
      trace := trace + [Dispatched(FailedEvent)];
      NotifyDone();
    }

    method Cancel()
      modifies this
      ensures State() == CancelTask(old(State())) && data == old(data)
      ensures !IsCompleted() && !IsFailed()
    {
      status := Canceled;
      NotifyDone();
    }

    /** Broadcast "done", invoke the callbacks by index, then destroy. */
    method NotifyDone()
      modifies this
      ensures State() == TaskSpec.NotifyDone(old(State())) && data == old(data)
    {
      trace := trace + [Dispatched(DoneEvent)];
      var i := 0;
      while i < |doneCallbacks|
        invariant 0 <= i <= |doneCallbacks|
        invariant doneCallbacks == old(doneCallbacks) && status == old(status) && data == old(data)
        invariant trace == old(trace) + [Dispatched(DoneEvent)] + Invocations(doneCallbacks[..i])
      {
        assert doneCallbacks[..i + 1] == doneCallbacks[..i] + [doneCallbacks[i]];
        InvocationsSnoc(doneCallbacks[..i], doneCallbacks[i]);
        trace := trace + [Invoked(doneCallbacks[i])];
        i := i + 1;
      }
      assert doneCallbacks[..i] == doneCallbacks;
      Destroy();
    }

    /** Drop the done-callbacks so that no observer is kept alive. */
    method Destroy()
      modifies this
      ensures doneCallbacks == []
      ensures status == old(status) && trace == old(trace) && data == old(data)
    {
      doneCallbacks := [];
    }

    /** `done(cb)`: queue `cb` behind the callbacks already registered; returns the task itself. */
    method Done(callback: CallbackId) returns (self: AsyncTask<D>)
      modifies this
      ensures self == this
      ensures State() == AddDoneCallback(old(State()), callback) && data == old(data)
    {
      doneCallbacks := doneCallbacks + [callback];
      self := this;
    }

    /** The base `run` does nothing. */
    method Run(input: Option<D>)
      ensures unchanged(this)
    {
    }

    /** The `data` setter; the getter is the field itself. */
    method SetData(value: D)
      modifies this
      ensures data == Some(value) && State() == old(State())
    {
      data := Some(value);
    }
  }
}
