/**
 * The task lifecycle as values: a task's status, its ordered done-callbacks and
 * the trace of everything it has done to the outside world (events broadcast,
 * done-callbacks invoked, calls made into child tasks). The class in module
 * Base is proved to follow these functions step by step.
 */
module TaskSpec {
  import opened Wrappers

  /** The closed set of statuses a task reports; Mixed is only reached by aggregates. */
  datatype Status = Initialized | Pending | Complete | Failed | Canceled | Mixed

  /** Names of the events a task broadcasts. */
  datatype Event = CompleteEvent | FailedEvent | DoneEvent

  type CallbackId = nat
  type TaskId = nat

  /**
   * One observable action of a task: an event broadcast, a done-callback
   * invoked with the task, or (for aggregates) a call into a child task:
   * `child.done(handleDone)`, `child.run(input)` or `child.cancel()`.
   */
  datatype Effect =
    | Dispatched(event: Event)
    | Invoked(callback: CallbackId)
    | Registered(child: TaskId)
    | Started(child: TaskId, input: Option<TaskId>)
    | CanceledChild(child: TaskId)

  datatype TaskState = TaskState(status: Status, callbacks: seq<CallbackId>, trace: seq<Effect>)

  /** A freshly constructed task. */
  function NewTask(): TaskState
  {
    TaskState(Initialized, [], [])
  }

  /** The effects of invoking the callbacks `cbs` one after the other. */
  function Invocations(cbs: seq<CallbackId>): (r: seq<Effect>)
    ensures |r| == |cbs|
  {
    if cbs == [] then [] else [Invoked(cbs[0])] + Invocations(cbs[1..])
  }

  lemma {:induction false} InvocationsSnoc(cbs: seq<CallbackId>, cb: CallbackId)
    ensures Invocations(cbs + [cb]) == Invocations(cbs) + [Invoked(cb)]
  {
    if cbs != [] {
      assert (cbs + [cb])[1..] == cbs[1..] + [cb];
      InvocationsSnoc(cbs[1..], cb);
    }
  }

  /** The callbacks a trace shows invoked, in invocation order. */
  function InvokedCallbacks(trace: seq<Effect>): seq<CallbackId>
  {
    if trace == [] then []
    else (if trace[0].Invoked? then [trace[0].callback] else []) + InvokedCallbacks(trace[1..])
  }

  lemma {:induction false} InvokedCallbacksAppend(a: seq<Effect>, b: seq<Effect>)
    ensures InvokedCallbacks(a + b) == InvokedCallbacks(a) + InvokedCallbacks(b)
  {
    if a == [] {
      assert a + b == b;
    } else {
      InvokedCallbacksAppend(a[1..], b);
      assert (a + b)[1..] == a[1..] + b;
    }
  }

  lemma {:induction false} InvokedCallbacksOfInvocations(cbs: seq<CallbackId>)
    ensures InvokedCallbacks(Invocations(cbs)) == cbs
  {
    if cbs != [] {
      InvokedCallbacksOfInvocations(cbs[1..]);
      assert Invocations(cbs)[1..] == Invocations(cbs[1..]);
    }
  }

  /** `done(cb)`: append to the callback list. */
  function AddDoneCallback(s: TaskState, cb: CallbackId): TaskState
  {
    s.(callbacks := s.callbacks + [cb])
  }

  /** `notifyDone`: broadcast "done", invoke every callback in order, then `destroy` drops the list. */
  function NotifyDone(s: TaskState): TaskState
  {
    s.(callbacks := [], trace := s.trace + [Dispatched(DoneEvent)] + Invocations(s.callbacks))
  }

  function CompleteTask(s: TaskState): TaskState
  {
    NotifyDone(s.(status := Complete, trace := s.trace + [Dispatched(CompleteEvent)]))
  }

  function FailTask(s: TaskState): TaskState
  {
    NotifyDone(s.(status := Failed, trace := s.trace + [Dispatched(FailedEvent)]))
  }

  /** `cancel`: no "complete"/"failed" broadcast, only the done path. */
  function CancelTask(s: TaskState): TaskState
  {
    NotifyDone(s.(status := Canceled))
  }

  /** The `completed`/`failed` setters: overwrite the status, nothing else. */
  function ForceStatus(s: TaskState, status: Status): TaskState
  {
    s.(status := status)
  }

  /** The three ways a caller resolves a task. */
  datatype Resolution = ByComplete | ByFail | ByCancel

  function Resolve(s: TaskState, how: Resolution): TaskState
  {
    match how
    case ByComplete => CompleteTask(s)
    case ByFail => FailTask(s)
    case ByCancel => CancelTask(s)
  }

  function Outcome(how: Resolution): Status
  {
    match how
    case ByComplete => Complete
    case ByFail => Failed
    case ByCancel => Canceled
  }

  /** The event a resolution broadcasts before "done", if any. */
  function Announcement(how: Resolution): seq<Effect>
  {
    match how
    case ByComplete => [Dispatched(CompleteEvent)]
    case ByFail => [Dispatched(FailedEvent)]
    case ByCancel => []
  }

  /** Registering `cbs` one `done` call at a time. */
  function RegisterAll(s: TaskState, cbs: seq<CallbackId>): TaskState
    decreases cbs
  {
    if cbs == [] then s else RegisterAll(AddDoneCallback(s, cbs[0]), cbs[1..])
  }

  /**
   * Every resolution sets its terminal status, broadcasts its own event (none
   * for cancel) then "done", invokes exactly the registered callbacks in
   * registration order and leaves no callback registered.
   */
  lemma ResolveNotifiesInOrder(s: TaskState, how: Resolution)
    ensures Resolve(s, how).status == Outcome(how)
    ensures Resolve(s, how).callbacks == []
    ensures Resolve(s, how).trace
         == s.trace + Announcement(how) + [Dispatched(DoneEvent)] + Invocations(s.callbacks)
    ensures InvokedCallbacks(Resolve(s, how).trace) == InvokedCallbacks(s.trace) + s.callbacks
  {
    var notices := Announcement(how) + [Dispatched(DoneEvent)];
    assert Resolve(s, how).trace == (s.trace + notices) + Invocations(s.callbacks);
    NoticesInvokeNothing(how);
    InvokedAfterNotices(s.trace, notices, s.callbacks);
  }

  lemma NoticesInvokeNothing(how: Resolution)
    ensures InvokedCallbacks(Announcement(how) + [Dispatched(DoneEvent)]) == []
  {
    var done := [Dispatched(DoneEvent)];
    assert InvokedCallbacks(done) == [] by {
      assert done[1..] == [];
    }
    if how != ByCancel {
      var notices := Announcement(how) + done;
      assert notices[1..] == done;
    }
  }

  lemma InvokedAfterNotices(before: seq<Effect>, notices: seq<Effect>, cbs: seq<CallbackId>)
    requires InvokedCallbacks(notices) == []
    ensures InvokedCallbacks((before + notices) + Invocations(cbs)) == InvokedCallbacks(before) + cbs
  {
    InvokedCallbacksAppend(before + notices, Invocations(cbs));
    InvokedCallbacksAppend(before, notices);
    InvokedCallbacksOfInvocations(cbs);
  }

  /** Successive `done` calls queue the callbacks in call order and change nothing else. */
  lemma {:induction false} RegisterAllAppends(s: TaskState, cbs: seq<CallbackId>)
    ensures RegisterAll(s, cbs) == s.(callbacks := s.callbacks + cbs)
    decreases cbs
  {
    if cbs != [] {
      RegisterAllAppends(AddDoneCallback(s, cbs[0]), cbs[1..]);
      assert s.callbacks + [cbs[0]] + cbs[1..] == s.callbacks + cbs;
    }
  }

  /**
   * Register N callbacks on a fresh task and resolve it: each fires exactly
   * once, in registration order. A second resolution fires none of them again.
   */
  lemma EachCallbackFiresOnce(cbs: seq<CallbackId>, first: Resolution, later: Resolution)
    ensures InvokedCallbacks(Resolve(RegisterAll(NewTask(), cbs), first).trace) == cbs
    ensures InvokedCallbacks(Resolve(Resolve(RegisterAll(NewTask(), cbs), first), later).trace) == cbs
  {
    var s := RegisterAll(NewTask(), cbs);
    RegisterAllAppends(NewTask(), cbs);
    ResolveNotifiesInOrder(s, first);
    ResolveNotifiesInOrder(Resolve(s, first), later);
  }
}
