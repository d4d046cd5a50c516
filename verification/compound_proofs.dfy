/**
 * What the parallel aggregate promises, proved about CompoundSpec: the
 * children are always split between `pending` and the two outcome lists;
 * whatever order the children resolve in, the aggregate settles on the status
 * the decision table gives and fires its own callbacks exactly once; with
 * failEarly the first failure fails the aggregate and cancels the rest.
 */
module CompoundProofs {
  import opened Wrappers
  import opened TaskSpec
  import opened JsArray
  import opened CompoundSpec

  /** Every child is in exactly one of `pending`, `completed`, `failed` (counted with multiplicity). */
  ghost predicate Partitioned(st: AggState)
  {
    multiset(st.pending + st.completed + st.failed) == multiset(st.tasks)
  }

  /** A child resolving: which child, and the status it reports. */
  datatype Report = Report(child: TaskId, status: Status)

  function Children(rs: seq<Report>): (r: seq<TaskId>)
    ensures |r| == |rs|
  {
    if rs == [] then [] else [rs[0].child] + Children(rs[1..])
  }

  /** The reporting children that go to `completedTasks`, in report order. */
  function CompletedChildren(rs: seq<Report>): seq<TaskId>
  {
    if rs == [] then []
    else (if rs[0].status == Complete then [rs[0].child] else []) + CompletedChildren(rs[1..])
  }

  /** The reporting children that go to `failedTasks`, in report order. */
  function FailedChildren(rs: seq<Report>): seq<TaskId>
  {
    if rs == [] then []
    else (if CountsAsFailure(rs[0].status) then [rs[0].child] else []) + FailedChildren(rs[1..])
  }

  /** Children resolving one after the other; processing stops at the first throw. */
  function Drive(st: AggState, rs: seq<Report>): AggState
    decreases |rs|
  {
    if rs == [] then st
    else
      var h := HandleDone(st, rs[0].child, rs[0].status);
      if h.thrown.Some? then h.state else Drive(h.state, rs[1..])
  }

  /** Decision table of the final status, both directions. */
  lemma FinalStatusTable(completed: seq<TaskId>, failed: seq<TaskId>)
    ensures FinalStatus(completed, failed) == Complete <==> failed == []
    ensures FinalStatus(completed, failed) == Failed <==> failed != [] && completed == []
    ensures FinalStatus(completed, failed) == Mixed <==> failed != [] && completed != []
  {
  }

  /**
   * `setFinalStatus` settles on the table's status, leaves the lists alone,
   * and fires every registered callback once, in order; "mixed" broadcasts
   * both "failed" and "complete" before "done".
   */
  lemma SetFinalStatusSettles(st: AggState)
    ensures var r := SetFinalStatus(st);
      && r.base.status == FinalStatus(st.completed, st.failed)
      && r.pending == st.pending && r.completed == st.completed && r.failed == st.failed
      && r.tasks == st.tasks && r.failEarly == st.failEarly
      && r.base.callbacks == []
      && InvokedCallbacks(r.base.trace) == InvokedCallbacks(st.base.trace) + st.base.callbacks
      && (r.base.status == Mixed ==>
            r.base.trace == st.base.trace + [Dispatched(FailedEvent), Dispatched(CompleteEvent),
                                             Dispatched(DoneEvent)] + Invocations(st.base.callbacks))
  {
    if |st.failed| == 0 {
      SettlesByResolving(st, ByComplete);
    } else if |st.completed| == 0 {
      SettlesByResolving(st, ByFail);
    } else {
      SettlesMixed(st);
    }
  }

  /** The single-outcome branches are the base task's `complete` and `fail`. */
  lemma SettlesByResolving(st: AggState, how: Resolution)
    requires how != ByCancel
    requires how == ByComplete <==> |st.failed| == 0
    requires how == ByFail ==> |st.completed| == 0
    ensures var r := SetFinalStatus(st);
      && r == st.(base := Resolve(st.base, how))
      && r.base.status == FinalStatus(st.completed, st.failed)
      && r.base.callbacks == []
      && InvokedCallbacks(r.base.trace) == InvokedCallbacks(st.base.trace) + st.base.callbacks
  {
    ResolveNotifiesInOrder(st.base, how);
  }

  /** The "mixed" branch broadcasts both outcomes, then takes the done path. */
  lemma SettlesMixed(st: AggState)
    requires |st.failed| != 0 && |st.completed| != 0
    ensures var r := SetFinalStatus(st);
      && r.base.status == Mixed && FinalStatus(st.completed, st.failed) == Mixed
      && r.pending == st.pending && r.completed == st.completed && r.failed == st.failed
      && r.tasks == st.tasks && r.failEarly == st.failEarly
      && r.base.callbacks == []
      && InvokedCallbacks(r.base.trace) == InvokedCallbacks(st.base.trace) + st.base.callbacks
      && r.base.trace == st.base.trace + [Dispatched(FailedEvent), Dispatched(CompleteEvent),
                                          Dispatched(DoneEvent)] + Invocations(st.base.callbacks)
  {
    var notices := [Dispatched(FailedEvent), Dispatched(CompleteEvent), Dispatched(DoneEvent)];
    assert notices[1..][1..][1..] == [];
    assert InvokedCallbacks(notices) == [];
    assert SetFinalStatus(st).base.trace == (st.base.trace + notices) + Invocations(st.base.callbacks);
    InvokedAfterNotices(st.base.trace, notices, st.base.callbacks);
  }


  /** The first `run` (lists still empty) splits the children: all of them pending. */
  lemma RunEstablishesPartition(st: AggState)
    requires st.base.status != Pending && st.completed == [] && st.failed == []
    ensures Partitioned(Run(st))
    ensures Run(st).base.status == Pending && Run(st).pending == st.tasks
    ensures Run(st).base.trace == st.base.trace + StartAll(st.tasks)
  {
    assert Run(st).pending + [] + [] == st.tasks;
  }

  /** `run` while pending does nothing. */
  lemma RunWhilePendingIgnored(st: AggState)
    requires st.base.status == Pending
    ensures Run(st) == st
  {
  }

  /** `cancelTasks` empties `pending` into `failed` (last first) and keeps the split. */
  lemma CancelTasksKeepsPartition(st: AggState)
    requires Partitioned(st)
    ensures Partitioned(CancelTasks(st))
    ensures CancelTasks(st).pending == [] && CancelTasks(st).completed == st.completed
    ensures |CancelTasks(st).failed| == |st.failed| + |st.pending|
  {
    var r := CancelTasks(st);
    PopOrderMultiset(st.pending);
    calc {
      multiset(r.pending + r.completed + r.failed);
      multiset(st.completed) + multiset(st.failed) + multiset(PopOrder(st.pending));
      multiset(st.pending + st.completed + st.failed);
    }
  }

  /**
   * Once `run` has assigned the pending list, the aggregate's `cancel`
   * cancels every pending child, last first, records it as failed, and ends
   * "canceled" having broadcast neither "complete" nor "failed". This holds
   * whatever state the aggregate was in, settled or not.
   */
  lemma CancelEndsCanceled(st: AggState)
    requires st.pendingAssigned
    ensures Cancel(st).thrown == None
    ensures Cancel(st).state.base.status == Canceled && Cancel(st).state.pending == []
    ensures Cancel(st).state.completed == st.completed
    ensures Cancel(st).state.failed == st.failed + PopOrder(st.pending)
    ensures Cancel(st).state.base.callbacks == []
    ensures Cancel(st).state.base.trace
         == st.base.trace + Cancellations(PopOrder(st.pending)) + [Dispatched(DoneEvent)]
            + Invocations(st.base.callbacks)
  {
    ResolveNotifiesInOrder(CancelTasks(st).base, ByCancel);
  }

  /** `cancel` keeps every child in exactly one of the three lists. */
  lemma CancelKeepsPartition(st: AggState)
    requires Partitioned(st) && st.pendingAssigned
    ensures Partitioned(Cancel(st).state)
  {
    CancelTasksKeepsPartition(st);
  }

  /**
   * `cancel` on an aggregate that was never run throws on the unassigned
   * pending list: no child is canceled and the aggregate itself stays
   * uncanceled, its callbacks unfired.
   */
  lemma CancelBeforeRunThrows(tasks: Option<seq<TaskId>>)
    ensures var st := NewAggregate(tasks);
      && Cancel(st) == Handled(st, Some(PendingListUndefined))
      && Cancel(st).state.base.status == Initialized
  {
  }

  /** Every `run` assigns the pending list, so `cancel` afterwards never throws. */
  lemma CancelAfterRunSucceeds(st: AggState)
    requires st.base.status != Pending
    ensures Run(st).pendingAssigned && Cancel(Run(st)).thrown == None
  {
  }


  /**
   * `handleDone` for a pending child: throws exactly when the child reports
   * neither a terminal nor a failing status, and otherwise keeps the split.
   */
  lemma HandleDoneKeepsPartition(st: AggState, child: TaskId, status: Status)
    requires Partitioned(st) && st.base.status == Pending && child in st.pending
    ensures HandleDone(st, child, status).thrown.None? <==> (status == Complete || CountsAsFailure(status))
    ensures HandleDone(st, child, status).thrown.None? ==> Partitioned(HandleDone(st, child, status).state)
  {
    if status == Complete {
      CompletionKeepsPartition(st, child);
    } else if CountsAsFailure(status) {
      FailureKeepsPartition(st, child, status);
    } else {
      var s1 := st.(pending := SpliceOne(st.pending, IndexOf(st.pending, child)));
      assert HandleDone(st, child, status) == Handled(s1, Some(UnknownTaskStatus));
    }
  }

  lemma CompletionKeepsPartition(st: AggState, child: TaskId)
    requires Partitioned(st) && st.base.status == Pending && child in st.pending
    ensures HandleDone(st, child, Complete).thrown.None? && Partitioned(HandleDone(st, child, Complete).state)
  {
    var s1 := st.(pending := SpliceOne(st.pending, IndexOf(st.pending, child)));
    SplicedPartition(st, child);
    var s2 := s1.(completed := s1.completed + [child]);
    assert HandleDone(st, child, Complete) == Handled(SettleIfDrained(s2), None);
    assert multiset(s2.pending + s2.completed + s2.failed)
        == multiset(s1.pending) + multiset(s1.completed) + multiset{child} + multiset(s1.failed);
    SettleKeepsPartition(s2);
  }

  lemma FailureKeepsPartition(st: AggState, child: TaskId, status: Status)
    requires Partitioned(st) && st.base.status == Pending && child in st.pending && CountsAsFailure(status)
    ensures HandleDone(st, child, status).thrown.None? && Partitioned(HandleDone(st, child, status).state)
  {
    var s1 := st.(pending := SpliceOne(st.pending, IndexOf(st.pending, child)));
    SplicedPartition(st, child);
    var s2 := s1.(failed := s1.failed + [child]);
    assert multiset(s2.pending + s2.completed + s2.failed)
        == multiset(s1.pending) + multiset(s1.completed) + multiset(s1.failed) + multiset{child};
    if s2.failEarly {
      var f := s2.(base := FailTask(s2.base));
      assert HandleDone(st, child, status) == Handled(CancelTasks(f), None);
      CancelTasksKeepsPartition(f);
    } else {
      assert HandleDone(st, child, status) == Handled(SettleIfDrained(s2), None);
      SettleKeepsPartition(s2);
    }
  }

  /** Splicing a pending child out leaves the split short of exactly that child. */
  lemma SplicedPartition(st: AggState, child: TaskId)
    requires Partitioned(st) && child in st.pending
    ensures var s1 := st.(pending := SpliceOne(st.pending, IndexOf(st.pending, child)));
      multiset(s1.pending) + multiset(s1.completed) + multiset(s1.failed) + multiset{child} == multiset(st.tasks)
  {
    SpliceFound(st.pending, child);
  }

  /** Settling (or not) leaves the outcome lists, and so the split, alone. */
  lemma SettleKeepsPartition(st: AggState)
    requires Partitioned(st)
    ensures Partitioned(SettleIfDrained(st))
  {
    SetFinalStatusSettles(st);
  }


  /** Once the aggregate has left "pending", later child reports change nothing. */
  lemma {:induction false} IgnoredOnceSettled(st: AggState, rs: seq<Report>)
    requires st.base.status != Pending
    ensures Drive(st, rs) == st
    decreases |rs|
  {
    if rs != [] {
      IgnoredOnceSettled(st, rs[1..]);
    }
  }

  /**
   * Fail-early: the first failing child fails the aggregate (its callbacks fire
   * right then), and only afterwards is every child still pending canceled, last
   * first, and recorded as failed.
   */
  lemma FailEarlyCancelsRest(st: AggState, child: TaskId, status: Status)
    requires st.base.status == Pending && st.failEarly && child in st.pending && CountsAsFailure(status)
    ensures var h := HandleDone(st, child, status);
      var rest := SpliceOne(st.pending, IndexOf(st.pending, child));
      && multiset(rest) + multiset{child} == multiset(st.pending)
      && h.thrown == None
      && h.state.base.status == Failed
      && h.state.pending == []
      && h.state.completed == st.completed
      && h.state.failed == st.failed + [child] + PopOrder(rest)
      && h.state.base.trace
         == st.base.trace + [Dispatched(FailedEvent), Dispatched(DoneEvent)]
            + Invocations(st.base.callbacks) + Cancellations(PopOrder(rest))
  {
    SpliceFound(st.pending, child);
    var rest := SpliceOne(st.pending, IndexOf(st.pending, child));
    var filed := st.(pending := rest, failed := st.failed + [child]);
    FailEarlyStep(st, child, status);
    FailThenCancel(filed);
  }

  /** The fail-early branch is `fail` on the filed state, then `cancelTasks`. */
  lemma FailEarlyStep(st: AggState, child: TaskId, status: Status)
    requires st.base.status == Pending && st.failEarly && CountsAsFailure(status)
    ensures var filed := st.(pending := SpliceOne(st.pending, IndexOf(st.pending, child)),
                             failed := st.failed + [child]);
      HandleDone(st, child, status) == Handled(CancelTasks(filed.(base := FailTask(filed.base))), None)
  {
  }

  /** `fail` and then `cancelTasks`: the aggregate's own notices come before any child is canceled. */
  lemma FailThenCancel(st: AggState)
    ensures var r := CancelTasks(st.(base := FailTask(st.base)));
      && r.base.status == Failed
      && r.pending == []
      && r.completed == st.completed
      && r.failed == st.failed + PopOrder(st.pending)
      && r.base.trace
         == st.base.trace + [Dispatched(FailedEvent), Dispatched(DoneEvent)]
            + Invocations(st.base.callbacks) + Cancellations(PopOrder(st.pending))
  {
  }

  /**
   * An unknown child status (initialized or pending) throws after the child was
   * already spliced out of `pending` and before it is recorded anywhere.
   */
  lemma UnknownStatusThrows(st: AggState, child: TaskId, status: Status)
    requires st.base.status == Pending && (status == Initialized || status == Pending)
    ensures HandleDone(st, child, status).thrown == Some(UnknownTaskStatus)
    ensures HandleDone(st, child, status).state
         == st.(pending := SpliceOne(st.pending, IndexOf(st.pending, child)))
  {
  }

  /** A child that is not pending makes `indexOf` give -1, and `splice(-1, 1)` drops the last pending child. */
  lemma AbsentChildDropsLastPending(st: AggState, child: TaskId)
    requires st.base.status == Pending && child !in st.pending && st.pending != []
    ensures HandleDone(st, child, Complete).state.pending == st.pending[..|st.pending| - 1]
    ensures HandleDone(st, child, Complete).state.completed == st.completed + [child]
  {
    SpliceMissing(st.pending, child);
    SetFinalStatusSettles(st.(pending := [], completed := st.completed + [child]));
  }

  /** The lists after a pending child with a terminal status was spliced out and recorded. */
  function Recorded(st: AggState, r: Report): AggState
  {
    var s1 := st.(pending := SpliceOne(st.pending, IndexOf(st.pending, r.child)));
    if r.status == Complete then s1.(completed := s1.completed + [r.child])
    else s1.(failed := s1.failed + [r.child])
  }

  lemma MultisetCancel(a: multiset<TaskId>, b: multiset<TaskId>, c: TaskId)
    requires a + multiset{c} == b + multiset{c}
    ensures a == b
  {
    forall x ensures a[x] == b[x] {
      assert (a + multiset{c})[x] == (b + multiset{c})[x];
    }
  }

  /** One step of Drive when the report is no failure that meets failEarly. */
  lemma DriveStep(st: AggState, rs: seq<Report>)
    requires st.base.status == Pending && rs != []
    requires rs[0].status == Complete || (CountsAsFailure(rs[0].status) && !st.failEarly)
    ensures Drive(st, rs) == if Recorded(st, rs[0]).pending == [] then Drive(SetFinalStatus(Recorded(st, rs[0])), rs[1..])
                             else Drive(Recorded(st, rs[0]), rs[1..])
  {
  }

  /**
   * Every pending child reports once, in any order, and no failure meets
   * failEarly: the aggregate drains `pending`, sorts the children by their
   * reports (in report order), settles on the decision table's status and
   * fires its registered callbacks exactly once, in order.
   */
  lemma {:induction false} DriveToSettlement(st: AggState, rs: seq<Report>)
    requires st.base.status == Pending && rs != []
    requires multiset(Children(rs)) == multiset(st.pending)
    requires forall i :: 0 <= i < |rs| ==>
               rs[i].status == Complete || (CountsAsFailure(rs[i].status) && !st.failEarly)
    ensures SettledBy(st, rs, Drive(st, rs))
    decreases |rs|
  {
    var s2 := Recorded(st, rs[0]);
    RecordedLeavesRest(st, rs);
    RecordedFiles(st, rs);
    DriveStep(st, rs);
    if s2.pending == [] {
      SettledByLast(st, rs);
    } else {
      assert rs[1..] != [];
      ResolvedReportsTail(rs, s2.failEarly);
      DriveToSettlement(s2, rs[1..]);
    }
  }

  /**
   * The outcome of driving `st` with the reports `rs` to the end: nothing
   * pending, each reporter filed by its status in report order, the status
   * from the final-status table, every callback fired once.
   */
  ghost predicate SettledBy(st: AggState, rs: seq<Report>, r: AggState)
  {
    && r.pending == [] && r.tasks == st.tasks
    && r.completed == st.completed + CompletedChildren(rs)
    && r.failed == st.failed + FailedChildren(rs)
    && r.base.status == FinalStatus(r.completed, r.failed)
    && r.base.callbacks == []
    && InvokedCallbacks(r.base.trace) == InvokedCallbacks(st.base.trace) + st.base.callbacks
  }

  /**
   * The report that empties `pending` settles the aggregate on the spot, and
   * whatever reports follow it are ignored.
   */
  lemma DriveLastReport(st: AggState, rs: seq<Report>)
    requires st.base.status == Pending && rs != []
    requires rs[0].status == Complete || (CountsAsFailure(rs[0].status) && !st.failEarly)
    requires Recorded(st, rs[0]).pending == []
    ensures Drive(st, rs) == SetFinalStatus(Recorded(st, rs[0]))
  {
    var s2 := Recorded(st, rs[0]);
    DriveStep(st, rs);
    SetFinalStatusSettles(s2);
    FinalStatusTable(s2.completed, s2.failed);
    IgnoredOnceSettled(SetFinalStatus(s2), rs[1..]);
  }

  /** When the first report is the last one owed, the drive ends settled. */
  lemma SettledByLast(st: AggState, rs: seq<Report>)
    requires st.base.status == Pending && rs != []
    requires multiset(Children(rs)) == multiset(st.pending)
    requires rs[0].status == Complete || (CountsAsFailure(rs[0].status) && !st.failEarly)
    requires Recorded(st, rs[0]).pending == []
    ensures SettledBy(st, rs, Drive(st, rs))
  {
    var s2 := Recorded(st, rs[0]);
    RecordedLeavesRest(st, rs);
    RecordedFiles(st, rs);
    NoReportersLeft(rs[1..]);
    DriveLastReport(st, rs);
    SetFinalStatusSettles(s2);
  }

  lemma NoReportersLeft(rs: seq<Report>)
    requires multiset(Children(rs)) == multiset([])
    ensures rs == []
  {
    assert |rs| == |Children(rs)| == |multiset(Children(rs))| == 0;
  }

  lemma ResolvedReportsTail(rs: seq<Report>, failEarly: bool)
    requires rs != []
    requires forall i :: 0 <= i < |rs| ==> rs[i].status == Complete || (CountsAsFailure(rs[i].status) && !failEarly)
    ensures forall i :: 0 <= i < |rs[1..]| ==>
              rs[1..][i].status == Complete || (CountsAsFailure(rs[1..][i].status) && !failEarly)
  {
    forall i | 0 <= i < |rs[1..]|
      ensures rs[1..][i].status == Complete || (CountsAsFailure(rs[1..][i].status) && !failEarly)
    {
      assert rs[1..][i] == rs[i + 1];
    }
  }

  /** Recording the first report leaves exactly the other reporters pending. */
  lemma RecordedLeavesRest(st: AggState, rs: seq<Report>)
    requires rs != [] && multiset(Children(rs)) == multiset(st.pending)
    ensures multiset(Recorded(st, rs[0]).pending) == multiset(Children(rs[1..]))
  {
    var c := rs[0].child;
    assert Children(rs) == [c] + Children(rs[1..]);
    SpliceReporter(st.pending, Children(rs[1..]), c);
  }

  /** Recording the first report files its child in report order and touches nothing else. */
  lemma RecordedFiles(st: AggState, rs: seq<Report>)
    requires rs != []
    requires rs[0].status == Complete || CountsAsFailure(rs[0].status)
    ensures var s2 := Recorded(st, rs[0]);
      && s2.base == st.base && s2.tasks == st.tasks && s2.failEarly == st.failEarly
      && s2.completed + CompletedChildren(rs[1..]) == st.completed + CompletedChildren(rs)
      && s2.failed + FailedChildren(rs[1..]) == st.failed + FailedChildren(rs)
  {
    if rs[0].status == Complete {
      RecordedCompletion(st, rs);
    } else {
      RecordedFailure(st, rs);
    }
  }

  lemma RecordedCompletion(st: AggState, rs: seq<Report>)
    requires rs != [] && rs[0].status == Complete
    ensures var s2 := Recorded(st, rs[0]);
      && s2.base == st.base && s2.tasks == st.tasks && s2.failEarly == st.failEarly
      && s2.completed + CompletedChildren(rs[1..]) == st.completed + CompletedChildren(rs)
      && s2.failed + FailedChildren(rs[1..]) == st.failed + FailedChildren(rs)
  {
    CompletedHead(rs);
    FileFirst(st.completed, rs[0].child, CompletedChildren(rs[1..]));
  }

  lemma RecordedFailure(st: AggState, rs: seq<Report>)
    requires rs != [] && CountsAsFailure(rs[0].status)
    ensures var s2 := Recorded(st, rs[0]);
      && s2.base == st.base && s2.tasks == st.tasks && s2.failEarly == st.failEarly
      && s2.completed + CompletedChildren(rs[1..]) == st.completed + CompletedChildren(rs)
      && s2.failed + FailedChildren(rs[1..]) == st.failed + FailedChildren(rs)
  {
    FailedHead(rs);
    FileFirst(st.failed, rs[0].child, FailedChildren(rs[1..]));
  }

  lemma CompletedHead(rs: seq<Report>)
    requires rs != [] && rs[0].status == Complete
    ensures CompletedChildren(rs) == [rs[0].child] + CompletedChildren(rs[1..])
    ensures FailedChildren(rs) == FailedChildren(rs[1..])
  {
    assert !CountsAsFailure(rs[0].status);
  }

  lemma FailedHead(rs: seq<Report>)
    requires rs != [] && CountsAsFailure(rs[0].status)
    ensures CompletedChildren(rs) == CompletedChildren(rs[1..])
    ensures FailedChildren(rs) == [rs[0].child] + FailedChildren(rs[1..])
  {
  }

  lemma FileFirst(filed: seq<TaskId>, c: TaskId, rest: seq<TaskId>)
    ensures filed + [c] + rest == filed + ([c] + rest)
  {
  }

  lemma SpliceReporter(pending: seq<TaskId>, others: seq<TaskId>, c: TaskId)
    requires multiset([c] + others) == multiset(pending)
    ensures multiset(SpliceOne(pending, IndexOf(pending, c))) == multiset(others)
  {
    assert multiset([c] + others) == multiset{c} + multiset(others);
    assert c in multiset(pending);
    SpliceFound(pending, c);
    MultisetCancel(multiset(SpliceOne(pending, IndexOf(pending, c))), multiset(others), c);
  }

  lemma {:induction false} AllCompleteChildren(rs: seq<Report>)
    requires forall i :: 0 <= i < |rs| ==> rs[i].status == Complete
    ensures CompletedChildren(rs) == Children(rs) && FailedChildren(rs) == []
  {
    if rs != [] {
      AllCompleteChildren(rs[1..]);
    }
  }

  lemma {:induction false} AllFailedChildren(rs: seq<Report>)
    requires forall i :: 0 <= i < |rs| ==> CountsAsFailure(rs[i].status)
    ensures FailedChildren(rs) == Children(rs) && CompletedChildren(rs) == []
  {
    if rs != [] {
      AllFailedChildren(rs[1..]);
    }
  }

  /** Starting children invokes none of the aggregate's own callbacks. */
  lemma {:induction false} StartAllInvokesNothing(children: seq<TaskId>)
    ensures InvokedCallbacks(StartAll(children)) == []
  {
    if children != [] {
      var head := [Registered(children[0]), Started(children[0], None)];
      assert head[1..][1..] == [];
      assert InvokedCallbacks(head[1..]) == [];
      assert InvokedCallbacks(head) == [];
      StartAllInvokesNothing(children[1..]);
      InvokedCallbacksAppend(head, StartAll(children[1..]));
    }
  }

  /** `execute` leaves the aggregate pending, every child pending and the one callback registered. */
  lemma ExecuteStarts(tasks: seq<TaskId>, cb: CallbackId, failEarly: bool)
    ensures var st := Execute(Some(tasks), cb, failEarly);
      && st.base.status == Pending && st.base.callbacks == [cb]
      && st.pending == tasks && st.completed == [] && st.failed == [] && st.failEarly == failEarly
      && st.base.trace == StartAll(tasks) && InvokedCallbacks(st.base.trace) == []
      && Partitioned(st)
  {
    StartAllInvokesNothing(tasks);
    ExecuteState(tasks, cb, failEarly);
    StartedPartition(tasks, cb, failEarly);
  }

  lemma ExecuteState(tasks: seq<TaskId>, cb: CallbackId, failEarly: bool)
    ensures Execute(Some(tasks), cb, failEarly)
         == AggState(TaskState(Pending, [cb], StartAll(tasks)), tasks, tasks, [], [], failEarly, true)
  {
  }

  lemma StartedPartition(tasks: seq<TaskId>, cb: CallbackId, failEarly: bool)
    ensures Partitioned(AggState(TaskState(Pending, [cb], StartAll(tasks)), tasks, tasks, [], [], failEarly, true))
  {
    assert tasks + [] + [] == tasks;
  }

  /**
   * `execute(tasks, cb)` with k > 0 children that all report once: the
   * callback fires exactly once; if all complete the aggregate is "complete"
   * with all k children in `completedTasks` (in report order); if all fail it
   * is "failed" with all k in `failedTasks`; a mix ends "mixed".
   */
  lemma ExecuteSettles(tasks: seq<TaskId>, cb: CallbackId, rs: seq<Report>)
    requires tasks != [] && multiset(Children(rs)) == multiset(tasks)
    requires forall i :: 0 <= i < |rs| ==> rs[i].status == Complete || CountsAsFailure(rs[i].status)
    ensures var r := Drive(Execute(Some(tasks), cb, false), rs);
      && InvokedCallbacks(r.base.trace) == [cb]
      && r.completed == CompletedChildren(rs) && r.failed == FailedChildren(rs)
      && ((forall i :: 0 <= i < |rs| ==> rs[i].status == Complete) ==>
            r.base.status == Complete && r.completed == Children(rs) && |r.completed| == |tasks|)
      && ((forall i :: 0 <= i < |rs| ==> CountsAsFailure(rs[i].status)) ==>
            r.base.status == Failed && r.failed == Children(rs) && |r.failed| == |tasks|)
      && (r.completed != [] && r.failed != [] ==> r.base.status == Mixed)
  {
    var st := Execute(Some(tasks), cb, false);
    assert |rs| == |Children(rs)| == |multiset(Children(rs))| == |multiset(tasks)| == |tasks| > 0;
    ExecuteStarts(tasks, cb, false);
    DriveToSettlement(st, rs);
    var r := Drive(st, rs);
    if forall i :: 0 <= i < |rs| ==> rs[i].status == Complete {
      AllCompleteChildren(rs);
      assert |multiset(Children(rs))| == |multiset(tasks)|;
    }
    if forall i :: 0 <= i < |rs| ==> CountsAsFailure(rs[i].status) {
      AllFailedChildren(rs);
      assert |multiset(Children(rs))| == |multiset(tasks)|;
    }
  }
}
