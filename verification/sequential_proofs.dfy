/**
 * Properties of the sequential aggregate: children run one at a time in list
 * order, each with its predecessor as input; the outcome lists split the
 * children in report order; fail-early cancels what is left before failing.
 */
module SequentialProofs {
  import opened Wrappers
  import opened TaskSpec
  import opened JsArray
  import opened CompoundSpec
  import SequentialSpec
  import CompoundProofs

  /** The launches of `ts` in order, each child run with the one before it (the first with `prev`). */
  function Chain(prev: Option<TaskId>, ts: seq<TaskId>): (r: seq<Effect>)
    ensures |r| == 2 * |ts|
    decreases |ts|
  {
    if ts == [] then [] else SequentialSpec.Launch(ts[0], prev) + Chain(Some(ts[0]), ts[1..])
  }

  /** The children of `run` whose reported status is "complete". */
  function CompletedOf(run: seq<TaskId>, rs: seq<Status>): seq<TaskId>
  {
    if run == [] || rs == [] then []
    else (if rs[0] == Complete then [run[0]] else []) + CompletedOf(run[1..], rs[1..])
  }

  /** The children of `run` whose reported status counts as a failure. */
  function FailedOf(run: seq<TaskId>, rs: seq<Status>): seq<TaskId>
  {
    if run == [] || rs == [] then []
    else (if CountsAsFailure(rs[0]) then [run[0]] else []) + FailedOf(run[1..], rs[1..])
  }

  predicate Resolved(s: Status)
  {
    s == Complete || CountsAsFailure(s)
  }

  /** A report the handler files and moves past: a completion, or a failure while failEarly is off. */
  predicate Proceeds(failEarly: bool, s: Status)
  {
    s == Complete || (CountsAsFailure(s) && !failEarly)
  }

  /**
   * The in-flight child `cur` and then each next child report the statuses
   * `rs` in turn; processing stops at a throw, once the aggregate is no longer
   * pending, or when no child is left to report.
   */
  function Feed(st: AggState, cur: TaskId, rs: seq<Status>): Handled
    decreases |rs|
  {
    if rs == [] then Handled(st, None)
    else
      var h := SequentialSpec.HandleDone(st, cur, rs[0]);
      if h.thrown.Some? || h.state.base.status != Pending || st.pending == [] then h
      else Feed(h.state, st.pending[0], rs[1..])
  }

  /** Launch `i` of a chain is child `i`, run with child `i - 1` (or `prev` for the first). */
  lemma {:induction false} ChainAt(prev: Option<TaskId>, ts: seq<TaskId>, i: nat)
    requires i < |ts|
    ensures Chain(prev, ts)[2 * i] == Registered(ts[i])
    ensures Chain(prev, ts)[2 * i + 1] == Started(ts[i], if i == 0 then prev else Some(ts[i - 1]))
    decreases i
  {
    if i > 0 {
      ChainAt(Some(ts[0]), ts[1..], i - 1);
      assert Chain(prev, ts) == SequentialSpec.Launch(ts[0], prev) + Chain(Some(ts[0]), ts[1..]);
    }
  }

  /** Every child lands in exactly one outcome list when every report is resolved. */
  lemma {:induction false} OutcomesSplitRun(run: seq<TaskId>, rs: seq<Status>)
    requires |rs| == |run| && forall i :: 0 <= i < |rs| ==> Resolved(rs[i])
    ensures multiset(CompletedOf(run, rs)) + multiset(FailedOf(run, rs)) == multiset(run)
  {
    if run != [] {
      ResolvedTail(rs);
      OutcomesSplitRun(run[1..], rs[1..]);
      OutcomesHead(run, rs);
    }
  }

  /** The head child goes to exactly one list, in front of the tail's outcomes. */
  lemma OutcomesHead(run: seq<TaskId>, rs: seq<Status>)
    requires run != [] && rs != [] && Resolved(rs[0])
    requires multiset(CompletedOf(run[1..], rs[1..])) + multiset(FailedOf(run[1..], rs[1..])) == multiset(run[1..])
    ensures multiset(CompletedOf(run, rs)) + multiset(FailedOf(run, rs)) == multiset(run)
  {
    var c, f := CompletedOf(run[1..], rs[1..]), FailedOf(run[1..], rs[1..]);
    assert run == [run[0]] + run[1..];
    if rs[0] == Complete {
      HeadCompleted(run, rs);
      JoinHead(run[0], c, f, run[1..]);
    } else {
      HeadFailed(run, rs);
      JoinHead(run[0], f, c, run[1..]);
    }
  }

  lemma JoinHead(x: TaskId, a: seq<TaskId>, b: seq<TaskId>, rest: seq<TaskId>)
    requires multiset(a) + multiset(b) == multiset(rest)
    ensures multiset([x] + a) + multiset(b) == multiset([x] + rest)
    ensures multiset(b) + multiset([x] + a) == multiset([x] + rest)
  {
  }

  lemma HeadCompleted(run: seq<TaskId>, rs: seq<Status>)
    requires run != [] && rs != [] && rs[0] == Complete
    ensures CompletedOf(run, rs) == [run[0]] + CompletedOf(run[1..], rs[1..])
    ensures FailedOf(run, rs) == FailedOf(run[1..], rs[1..])
  {
  }

  lemma HeadFailed(run: seq<TaskId>, rs: seq<Status>)
    requires run != [] && rs != [] && CountsAsFailure(rs[0])
    ensures CompletedOf(run, rs) == CompletedOf(run[1..], rs[1..])
    ensures FailedOf(run, rs) == [run[0]] + FailedOf(run[1..], rs[1..])
  {
  }

  lemma ProceedsTail(rs: seq<Status>, failEarly: bool)
    requires rs != [] && forall i :: 0 <= i < |rs| ==> Proceeds(failEarly, rs[i])
    ensures forall i :: 0 <= i < |rs[1..]| ==> Proceeds(failEarly, rs[1..][i])
  {
    forall i | 0 <= i < |rs[1..]| ensures Proceeds(failEarly, rs[1..][i]) {
      assert rs[1..][i] == rs[i + 1];
    }
  }

  /** Only the first |rs| children of a run are filed by |rs| reports. */
  lemma {:induction false} OutcomesOfPrefix(run: seq<TaskId>, rs: seq<Status>)
    requires |rs| <= |run|
    ensures CompletedOf(run[..|rs|], rs) == CompletedOf(run, rs)
    ensures FailedOf(run[..|rs|], rs) == FailedOf(run, rs)
  {
    if rs != [] {
      OutcomesOfPrefix(run[1..], rs[1..]);
      assert run[..|rs|][0] == run[0] && run[..|rs|][1..] == run[1..][..|rs| - 1];
    }
  }

  lemma ResolvedTail(rs: seq<Status>)
    requires rs != [] && forall i :: 0 <= i < |rs| ==> Resolved(rs[i])
    ensures forall i :: 0 <= i < |rs[1..]| ==> Resolved(rs[1..][i])
  {
    forall i | 0 <= i < |rs[1..]| ensures Resolved(rs[1..][i]) {
      assert rs[1..][i] == rs[i + 1];
    }
  }

  /** When every child completes, the completed list is the run itself, in order. */
  lemma {:induction false} AllCompleteOutcomes(run: seq<TaskId>, rs: seq<Status>)
    requires |rs| == |run| && forall i :: 0 <= i < |rs| ==> rs[i] == Complete
    ensures CompletedOf(run, rs) == run && FailedOf(run, rs) == []
  {
    if run != [] {
      assert forall i :: 0 <= i < |rs[1..]| ==> rs[1..][i] == Complete by {
        forall i | 0 <= i < |rs[1..]| ensures rs[1..][i] == Complete {
          assert rs[1..][i] == rs[i + 1];
        }
      }
      AllCompleteOutcomes(run[1..], rs[1..]);
      assert run == [run[0]] + run[1..];
    }
  }

  /** `run` with children: the first is launched with no input, the rest wait. */
  lemma RunLaunchesFirst(st: AggState)
    requires st.tasks != []
    ensures var h := SequentialSpec.Run(st);
      && h.thrown == None
      && h.state.base.status == Pending
      && h.state.pending == st.tasks[1..]
      && h.state.base.trace == st.base.trace + Chain(None, st.tasks[..1])
      && h.state.completed == st.completed && h.state.failed == st.failed
      && h.state.base.callbacks == st.base.callbacks
  {
    assert st.tasks[..1][1..] == [];
  }

  /** `run` without children throws, leaving the aggregate pending forever. */
  lemma RunWithoutChildrenThrows(st: AggState)
    requires st.tasks == []
    ensures var h := SequentialSpec.Run(st);
      && h.thrown == Some(NoTaskToRun)
      && h.state.base.status == Pending
      && h.state.base.trace == st.base.trace
  {
  }

  /**
   * Unlike the parallel `run`, the sequential `run` is not guarded: on a
   * pending aggregate with children it starts the chain over, while the
   * parallel one leaves the state alone.
   */
  lemma SequentialRunHasNoGuard(st: AggState)
    requires st.base.status == Pending && st.tasks != []
    ensures CompoundSpec.Run(st) == st
    ensures SequentialSpec.Run(st).state.pending == st.tasks[1..]
    ensures SequentialSpec.Run(st).state.base.trace == st.base.trace + [Registered(st.tasks[0]), Started(st.tasks[0], None)]
  {
  }

  /** An unknown status throws and, unlike the parallel handler, leaves `pending` alone. */
  lemma UnknownStatusLeavesPending(st: AggState, child: TaskId, status: Status)
    requires st.base.status == Pending && !Resolved(status)
    ensures SequentialSpec.HandleDone(st, child, status) == Handled(st, Some(UnknownTaskStatus))
  {
  }

  /** Reports after the aggregate settled change nothing. */
  lemma IgnoredOnceSettled(st: AggState, child: TaskId, status: Status)
    requires st.base.status != Pending
    ensures SequentialSpec.HandleDone(st, child, status) == Handled(st, None)
  {
  }

  /** The state after the in-flight child is filed under its resolved status. */
  function Filed(st: AggState, cur: TaskId, status: Status): AggState
  {
    if status == Complete then st.(completed := st.completed + [cur]) else st.(failed := st.failed + [cur])
  }

  /** `cancelTasks` then `fail`, as the fail-early branch does. */
  function Aborted(st: AggState): AggState
  {
    var canceled := CancelTasks(st);
    canceled.(base := FailTask(canceled.base))
  }

  /**
   * Where a drive without fail-early ends just before settling: every child of
   * the run filed by its report, every waiting child launched in turn.
   */
  function SettlePoint(st: AggState, cur: TaskId, rs: seq<Status>): AggState
  {
    var run := [cur] + st.pending;
    st.(pending := [],
        completed := st.completed + CompletedOf(run, rs),
        failed := st.failed + FailedOf(run, rs),
        base := st.base.(trace := st.base.trace + Chain(Some(cur), st.pending)))
  }

  /**
   * Where a fail-early drive stands when child `j` of the run fails: the `j`
   * children before it completed (each after launching the next), child `j`
   * filed as failed, the rest still waiting.
   */
  function AbortPoint(st: AggState, cur: TaskId, j: nat): AggState
    requires j <= |st.pending|
  {
    var run := [cur] + st.pending;
    st.(pending := run[j + 1..],
        completed := st.completed + run[..j],
        failed := st.failed + [run[j]],
        base := st.base.(trace := st.base.trace + Chain(Some(cur), st.pending[..j])))
  }

  /** A resolved report with children waiting (and no abort) launches the next child. */
  lemma FeedAdvances(st: AggState, cur: TaskId, rs: seq<Status>)
    requires st.base.status == Pending && rs != [] && st.pending != []
    requires rs[0] == Complete || (CountsAsFailure(rs[0]) && !st.failEarly)
    ensures Feed(st, cur, rs) == Feed(SequentialSpec.Advance(Filed(st, cur, rs[0]), cur), st.pending[0], rs[1..])
  {
    var s2 := SequentialSpec.Advance(Filed(st, cur, rs[0]), cur);
    assert SequentialSpec.HandleDone(st, cur, rs[0]) == Handled(s2, None);
    assert s2.base.status == Pending;
  }

  /** A resolved report with no child waiting (and no abort) settles. */
  lemma FeedSettles(st: AggState, cur: TaskId, rs: seq<Status>)
    requires st.base.status == Pending && rs != [] && st.pending == []
    requires rs[0] == Complete || (CountsAsFailure(rs[0]) && !st.failEarly)
    ensures Feed(st, cur, rs) == Handled(SetFinalStatus(Filed(st, cur, rs[0])), None)
  {
    assert SequentialSpec.HandleDone(st, cur, rs[0]) == Handled(SetFinalStatus(Filed(st, cur, rs[0])), None);
  }

  /** With fail-early, a failure report aborts. */
  lemma FeedAborts(st: AggState, cur: TaskId, rs: seq<Status>)
    requires st.base.status == Pending && st.failEarly && rs != [] && CountsAsFailure(rs[0])
    ensures Feed(st, cur, rs) == Handled(Aborted(Filed(st, cur, rs[0])), None)
  {
    assert SequentialSpec.HandleDone(st, cur, rs[0]) == Handled(Aborted(Filed(st, cur, rs[0])), None);
    assert Aborted(Filed(st, cur, rs[0])).base.status == Failed;
  }

  /**
   * Once `cur` and every waiting child have reported, none of them a failure
   * that meets failEarly, the aggregate has launched the waiting children in
   * order (each with its predecessor as input), filed each child by its status
   * in report order, and then settled exactly as `setFinalStatus` does.
   */
  lemma {:induction false} FeedToSettlement(st: AggState, cur: TaskId, rs: seq<Status>)
    requires st.base.status == Pending
    requires |rs| == 1 + |st.pending| && forall i :: 0 <= i < |rs| ==> Proceeds(st.failEarly, rs[i])
    ensures Feed(st, cur, rs) == Handled(SetFinalStatus(SettlePoint(st, cur, rs)), None)
    decreases |rs|
  {
    assert Proceeds(st.failEarly, rs[0]);
    if st.pending == [] {
      FeedSettles(st, cur, rs);
      SettlePointLast(st, cur, rs);
    } else {
      FeedAdvances(st, cur, rs);
      FiledKeeps(st, cur, rs[0]);
      AdvanceLaunches(Filed(st, cur, rs[0]), cur);
      ProceedsTail(rs, st.failEarly);
      FeedToSettlement(SequentialSpec.Advance(Filed(st, cur, rs[0]), cur), st.pending[0], rs[1..]);
      SettlePointShift(st, cur, rs);
    }
  }

  /**
   * Where a drive stands after the reports `rs` while children still wait:
   * the first |rs| children of the run filed by their reports, the first |rs|
   * waiting children launched in turn, the others still waiting.
   */
  function Midway(st: AggState, cur: TaskId, rs: seq<Status>): AggState
    requires |rs| <= |st.pending|
  {
    var run := [cur] + st.pending;
    st.(pending := st.pending[|rs|..],
        completed := st.completed + CompletedOf(run, rs),
        failed := st.failed + FailedOf(run, rs),
        base := st.base.(trace := st.base.trace + Chain(Some(cur), st.pending[..|rs|])))
  }

  /** Reports that leave children waiting keep the drive at Midway. */
  lemma {:induction false} FeedMidway(st: AggState, cur: TaskId, rs: seq<Status>)
    requires st.base.status == Pending && |rs| <= |st.pending|
    requires forall i :: 0 <= i < |rs| ==> Proceeds(st.failEarly, rs[i])
    ensures Feed(st, cur, rs) == Handled(Midway(st, cur, rs), None)
    decreases |rs|
  {
    if rs == [] {
      MidwayStart(st, cur);
    } else {
      assert Proceeds(st.failEarly, rs[0]);
      FeedAdvances(st, cur, rs);
      FiledKeeps(st, cur, rs[0]);
      AdvanceLaunches(Filed(st, cur, rs[0]), cur);
      ProceedsTail(rs, st.failEarly);
      FeedMidway(SequentialSpec.Advance(Filed(st, cur, rs[0]), cur), st.pending[0], rs[1..]);
      MidwayShift(st, cur, rs);
    }
  }

  lemma MidwayStart(st: AggState, cur: TaskId)
    ensures Midway(st, cur, []) == st
  {
    var run := [cur] + st.pending;
    assert CompletedOf(run, []) == [] && FailedOf(run, []) == [];
    assert st.pending[0..] == st.pending && st.pending[..0] == [];
    assert st.base.trace + Chain(Some(cur), []) == st.base.trace;
    assert st.completed + [] == st.completed && st.failed + [] == st.failed;
  }

  lemma MidwayShift(st: AggState, cur: TaskId, rs: seq<Status>)
    requires 0 < |rs| <= |st.pending| && Resolved(rs[0])
    ensures var s2 := SequentialSpec.Advance(Filed(st, cur, rs[0]), cur);
      |rs[1..]| <= |s2.pending| && Midway(s2, st.pending[0], rs[1..]) == Midway(st, cur, rs)
  {
    var k := |rs|;
    var s1 := Filed(st, cur, rs[0]);
    FiledKeeps(st, cur, rs[0]);
    AdvanceLaunches(s1, cur);
    FiledSplits(st, cur, rs);
    var ts := st.pending[..k];
    assert ts[0] == st.pending[0] && ts[1..] == st.pending[1..][..k - 1];
    ChainShift(st.base.trace, cur, ts);
    assert [st.pending[0]] + st.pending[1..] == st.pending;
    assert st.pending[1..][k - 1..] == st.pending[k..];
  }

  /**
   * After k reports, none of them a failure that meets failEarly, while
   * children still wait: the finished children are exactly the first k of
   * the run, filed by status in run order; the first k waiting children have
   * been launched in order, each with its predecessor as input; the rest
   * still wait in order; the aggregate is still pending and no callback has
   * fired.
   */
  lemma FeedPrefix(st: AggState, cur: TaskId, rs: seq<Status>)
    requires st.base.status == Pending && |rs| <= |st.pending|
    requires forall i :: 0 <= i < |rs| ==> Proceeds(st.failEarly, rs[i])
    ensures var h := Feed(st, cur, rs);
      var k := |rs|;
      var run := [cur] + st.pending;
      && h.thrown == None
      && h.state.base.status == Pending
      && h.state.pending == st.pending[k..]
      && h.state.completed == st.completed + CompletedOf(run[..k], rs)
      && h.state.failed == st.failed + FailedOf(run[..k], rs)
      && h.state.base.trace == st.base.trace + Chain(Some(cur), st.pending[..k])
      && h.state.base.callbacks == st.base.callbacks
      && h.state.tasks == st.tasks
  {
    FeedMidway(st, cur, rs);
    OutcomesOfPrefix([cur] + st.pending, rs);
  }

  lemma SettlePointLast(st: AggState, cur: TaskId, rs: seq<Status>)
    requires |rs| == 1 && st.pending == [] && Resolved(rs[0])
    ensures SettlePoint(st, cur, rs) == Filed(st, cur, rs[0])
  {
    FiledSplits(st, cur, rs);
    assert CompletedOf(st.pending, rs[1..]) == [] && FailedOf(st.pending, rs[1..]) == [];
    assert st.base.trace + Chain(Some(cur), st.pending) == st.base.trace;
  }

  lemma SettlePointShift(st: AggState, cur: TaskId, rs: seq<Status>)
    requires st.pending != [] && rs != [] && Resolved(rs[0])
    ensures SettlePoint(SequentialSpec.Advance(Filed(st, cur, rs[0]), cur), st.pending[0], rs[1..])
         == SettlePoint(st, cur, rs)
  {
    var next := st.pending[0];
    var s1 := Filed(st, cur, rs[0]);
    var s2 := SequentialSpec.Advance(s1, cur);
    FiledKeeps(st, cur, rs[0]);
    AdvanceLaunches(s1, cur);
    FiledSplits(st, cur, rs);
    ChainShift(st.base.trace, cur, st.pending);
    assert [next] + st.pending[1..] == st.pending;
  }

  /** Filing touches only the outcome lists. */
  lemma FiledKeeps(st: AggState, cur: TaskId, status: Status)
    ensures var s1 := Filed(st, cur, status);
      && s1.base == st.base && s1.pending == st.pending && s1.tasks == st.tasks
      && s1.failEarly == st.failEarly && s1.pendingAssigned == st.pendingAssigned
  {
  }

  /** Launching the head of a chain and then the rest is the whole chain. */
  lemma ChainShift(trace: seq<Effect>, cur: TaskId, ts: seq<TaskId>)
    requires ts != []
    ensures trace + SequentialSpec.Launch(ts[0], Some(cur)) + Chain(Some(ts[0]), ts[1..]) == trace + Chain(Some(cur), ts)
  {
    ChainUnfold(Some(cur), ts);
  }

  /** With children waiting, advancing shifts off the next one and launches it. */
  lemma AdvanceLaunches(st: AggState, finished: TaskId)
    requires st.pending != []
    ensures var s2 := SequentialSpec.Advance(st, finished);
      && s2.pending == st.pending[1..]
      && s2.base == st.base.(trace := st.base.trace + SequentialSpec.Launch(st.pending[0], Some(finished)))
      && s2.completed == st.completed && s2.failed == st.failed && s2.tasks == st.tasks
      && s2.failEarly == st.failEarly && s2.pendingAssigned == st.pendingAssigned
  {
  }

  /** Filing the head report and then the rest files the whole run in order. */
  lemma FiledSplits(st: AggState, cur: TaskId, rs: seq<Status>)
    requires rs != [] && Resolved(rs[0])
    ensures var s1 := Filed(st, cur, rs[0]);
      var run := [cur] + st.pending;
      && s1.completed + CompletedOf(st.pending, rs[1..]) == st.completed + CompletedOf(run, rs)
      && s1.failed + FailedOf(st.pending, rs[1..]) == st.failed + FailedOf(run, rs)
  {
    var run := [cur] + st.pending;
    assert run[0] == cur && run[1..] == st.pending;
    var c, f := CompletedOf(st.pending, rs[1..]), FailedOf(st.pending, rs[1..]);
    if rs[0] == Complete {
      assert CompletedOf(run, rs) == [cur] + c;
      assert FailedOf(run, rs) == f;
      assert st.completed + [cur] + c == st.completed + ([cur] + c);
    } else {
      assert CompletedOf(run, rs) == c;
      assert FailedOf(run, rs) == [cur] + f;
      assert st.failed + [cur] + f == st.failed + ([cur] + f);
    }
  }

  lemma ChainUnfold(prev: Option<TaskId>, ts: seq<TaskId>)
    requires ts != []
    ensures Chain(prev, ts) == SequentialSpec.Launch(ts[0], prev) + Chain(Some(ts[0]), ts[1..])
  {
  }

  /**
   * With fail-early, when `cur` and the next `j - 1` children complete and the
   * following one fails: the completed children are recorded in order, the
   * failing one is recorded as failed, every child still waiting is canceled
   * (last first) and recorded as failed, and only then does the aggregate fail.
   * No waiting child is ever launched.
   */
  lemma {:induction false} FeedFailEarly(st: AggState, cur: TaskId, rs: seq<Status>, j: nat)
    requires st.base.status == Pending && st.failEarly
    requires j < |rs| && j <= |st.pending|
    requires forall i :: 0 <= i < j ==> rs[i] == Complete
    requires CountsAsFailure(rs[j])
    ensures Feed(st, cur, rs) == Handled(Aborted(AbortPoint(st, cur, j)), None)
    decreases j
  {
    if j == 0 {
      FeedAborts(st, cur, rs);
      AbortPointFirst(st, cur);
    } else {
      CompleteTail(rs, j);
      FeedAdvances(st, cur, rs);
      FeedFailEarly(SequentialSpec.Advance(Filed(st, cur, Complete), cur), st.pending[0], rs[1..], j - 1);
      AbortPointShift(st, cur, j);
    }
  }

  lemma AbortPointFirst(st: AggState, cur: TaskId)
    ensures AbortPoint(st, cur, 0) == Filed(st, cur, Failed)
  {
    var run := [cur] + st.pending;
    assert run[0] == cur && run[1..] == st.pending && run[..0] == [];
    assert st.base.trace + Chain(Some(cur), st.pending[..0]) == st.base.trace;
  }

  lemma AbortPointShift(st: AggState, cur: TaskId, j: nat)
    requires 0 < j <= |st.pending|
    ensures AbortPoint(SequentialSpec.Advance(Filed(st, cur, Complete), cur), st.pending[0], j - 1)
         == AbortPoint(st, cur, j)
  {
    var next := st.pending[0];
    var tail := st.pending[1..];
    var s1 := Filed(st, cur, Complete);
    var s2 := SequentialSpec.Advance(s1, cur);
    AdvanceLaunches(s1, cur);
    assert [next] + tail == st.pending;
    RunShift(cur, st.pending, j);
    ChainUnfold(Some(cur), st.pending[..j]);
    assert st.pending[..j][0] == next && st.pending[..j][1..] == tail[..j - 1];
    var u := AbortPoint(s2, next, j - 1);
    var t := AbortPoint(st, cur, j);
    assert u.completed == t.completed && u.failed == t.failed && u.pending == t.pending;
    assert u.base.trace == t.base.trace;
    assert u.base == t.base;
  }

  /** The reports after the first: still completions up to the failing one. */
  lemma CompleteTail(rs: seq<Status>, j: nat)
    requires 0 < j < |rs| && forall i :: 0 <= i < j ==> rs[i] == Complete
    ensures rs[0] == Complete && forall i :: 0 <= i < j - 1 ==> rs[1..][i] == Complete
  {
    forall i | 0 <= i < j - 1 ensures rs[1..][i] == Complete {
      assert rs[1..][i] == rs[i + 1];
    }
  }

  /** Slices of a run relative to its tail, one child on. */
  lemma RunShift(cur: TaskId, pending: seq<TaskId>, j: nat)
    requires 0 < j <= |pending|
    ensures var run := [cur] + pending;
      && pending[j..] == run[j + 1..]
      && [cur] + pending[..j - 1] == run[..j]
      && pending[j - 1] == run[j]
  {
  }

  /**
   * `execute` with every child reporting once, none of them a failure that
   * meets failEarly: children are launched one after another in list order,
   * each with its predecessor as input; each child is filed under its own
   * status in list order, every child exactly once; the aggregate settles on
   * the final-status table and the caller's callback fires exactly once.
   */
  lemma ExecuteSettles(tasks: seq<TaskId>, cb: CallbackId, failEarly: bool, rs: seq<Status>)
    requires tasks != [] && |rs| == |tasks| && forall i :: 0 <= i < |rs| ==> Proceeds(failEarly, rs[i])
    ensures var h := SequentialSpec.Execute(Some(tasks), cb, failEarly);
      var r := Feed(h.state, tasks[0], rs);
      && h.thrown == None
      && r.thrown == None
      && r.state.completed == CompletedOf(tasks, rs) && r.state.failed == FailedOf(tasks, rs)
      && r.state.pending == []
      && multiset(r.state.completed) + multiset(r.state.failed) == multiset(tasks)
      && r.state.base.status == FinalStatus(r.state.completed, r.state.failed)
      && InvokedCallbacks(r.state.base.trace) == [cb]
      && Chain(None, tasks) <= r.state.base.trace
  {
    var pre := AggState(TaskState(Pending, [cb], Chain(None, tasks)), tasks, [], CompletedOf(tasks, rs), FailedOf(tasks, rs), failEarly, true);
    ExecuteReachesSettlement(tasks, cb, failEarly, rs);
    ProceedingSplitsRun(tasks, rs, failEarly);
    ChainInvokesNothing(None, tasks);
    CompoundProofs.SetFinalStatusSettles(pre);
    SettleExtendsTrace(pre);
  }

  /** The state a full `execute` drive settles from, written out. */
  lemma ExecuteReachesSettlement(tasks: seq<TaskId>, cb: CallbackId, failEarly: bool, rs: seq<Status>)
    requires tasks != [] && |rs| == |tasks| && forall i :: 0 <= i < |rs| ==> Proceeds(failEarly, rs[i])
    ensures var h := SequentialSpec.Execute(Some(tasks), cb, failEarly);
      var pre := AggState(TaskState(Pending, [cb], Chain(None, tasks)), tasks, [], CompletedOf(tasks, rs), FailedOf(tasks, rs), failEarly, true);
      h.thrown == None && Feed(h.state, tasks[0], rs) == Handled(SetFinalStatus(pre), None)
  {
    var launched := ExecuteLaunchesFirst(tasks, cb, failEarly);
    assert launched.pending == tasks[1..] && [tasks[0]] + tasks[1..] == tasks;
    FeedToSettlement(launched, tasks[0], rs);
    ChainUnfold(None, tasks);
    var pre := AggState(TaskState(Pending, [cb], Chain(None, tasks)), tasks, [], CompletedOf(tasks, rs), FailedOf(tasks, rs), failEarly, true);
    assert SettlePoint(launched, tasks[0], rs) == pre;
  }

  lemma ProceedingSplitsRun(run: seq<TaskId>, rs: seq<Status>, failEarly: bool)
    requires |rs| == |run| && forall i :: 0 <= i < |rs| ==> Proceeds(failEarly, rs[i])
    ensures multiset(CompletedOf(run, rs)) + multiset(FailedOf(run, rs)) == multiset(run)
  {
    assert forall i :: 0 <= i < |rs| ==> Resolved(rs[i]);
    OutcomesSplitRun(run, rs);
  }

  /**
   * `execute` with every child completing, with or without failEarly: all of
   * them end up in the completed list in list order and the aggregate
   * completes.
   */
  lemma ExecuteAllComplete(tasks: seq<TaskId>, cb: CallbackId, failEarly: bool, rs: seq<Status>)
    requires tasks != [] && |rs| == |tasks| && forall i :: 0 <= i < |rs| ==> rs[i] == Complete
    ensures var h := SequentialSpec.Execute(Some(tasks), cb, failEarly);
      var r := Feed(h.state, tasks[0], rs);
      && r.thrown == None
      && r.state.base.status == Complete
      && r.state.completed == tasks && r.state.failed == []
  {
    assert forall i :: 0 <= i < |rs| ==> Proceeds(failEarly, rs[i]);
    ExecuteSettles(tasks, cb, failEarly, rs);
    AllCompleteOutcomes(tasks, rs);
  }

  /**
   * `execute` followed by k reports while children still wait (k < |tasks|),
   * none of them a failure that meets failEarly: the finished children are
   * the first k of the list, each filed once under its own status; the first
   * k + 1 children have been launched in list order, each with its
   * predecessor as input; the rest wait in list order; the aggregate is still
   * pending and the caller's callback has not fired.
   */
  lemma ExecuteMidway(tasks: seq<TaskId>, cb: CallbackId, failEarly: bool, rs: seq<Status>)
    requires |rs| < |tasks| && forall i :: 0 <= i < |rs| ==> Proceeds(failEarly, rs[i])
    ensures var h := SequentialSpec.Execute(Some(tasks), cb, failEarly);
      var r := Feed(h.state, tasks[0], rs);
      var k := |rs|;
      && h.thrown == None && r.thrown == None
      && r.state.base.status == Pending
      && r.state.pending == tasks[k + 1..]
      && r.state.completed == CompletedOf(tasks[..k], rs) && r.state.failed == FailedOf(tasks[..k], rs)
      && multiset(r.state.completed) + multiset(r.state.failed) == multiset(tasks[..k])
      && r.state.base.trace == Chain(None, tasks[..k + 1])
      && r.state.base.callbacks == [cb] && InvokedCallbacks(r.state.base.trace) == []
  {
    var k := |rs|;
    ExecuteReachesMidway(tasks, cb, failEarly, rs);
    ProceedingSplitsRun(tasks[..k], rs, failEarly);
    ChainInvokesNothing(None, tasks[..k + 1]);
  }

  /** The state `execute` and k reports leave while children still wait, written out. */
  lemma ExecuteReachesMidway(tasks: seq<TaskId>, cb: CallbackId, failEarly: bool, rs: seq<Status>)
    requires |rs| < |tasks| && forall i :: 0 <= i < |rs| ==> Proceeds(failEarly, rs[i])
    ensures var h := SequentialSpec.Execute(Some(tasks), cb, failEarly);
      var k := |rs|;
      && h.thrown == None
      && Feed(h.state, tasks[0], rs)
         == Handled(AggState(TaskState(Pending, [cb], Chain(None, tasks[..k + 1])), tasks, tasks[k + 1..],
                             CompletedOf(tasks[..k], rs), FailedOf(tasks[..k], rs), failEarly, true), None)
  {
    var launched := ExecuteLaunchesFirst(tasks, cb, failEarly);
    FeedMidway(launched, tasks[0], rs);
    MidwayAfterLaunch(tasks, cb, failEarly, rs);
  }

  lemma MidwayAfterLaunch(tasks: seq<TaskId>, cb: CallbackId, failEarly: bool, rs: seq<Status>)
    requires |rs| < |tasks|
    ensures var k := |rs|;
      Midway(AggState(TaskState(Pending, [cb], SequentialSpec.Launch(tasks[0], None)), tasks, tasks[1..], [], [], failEarly, true),
             tasks[0], rs)
      == AggState(TaskState(Pending, [cb], Chain(None, tasks[..k + 1])), tasks, tasks[k + 1..],
                  CompletedOf(tasks[..k], rs), FailedOf(tasks[..k], rs), failEarly, true)
  {
    var k := |rs|;
    var launched := AggState(TaskState(Pending, [cb], SequentialSpec.Launch(tasks[0], None)), tasks, tasks[1..], [], [], failEarly, true);
    var m := Midway(launched, tasks[0], rs);
    LaunchedOutcomes(tasks, rs);
    assert m.completed == CompletedOf(tasks[..k], rs) && m.failed == FailedOf(tasks[..k], rs);
    assert tasks[1..][k..] == tasks[k + 1..];
    LaunchedChain(tasks, k);
  }

  /** After the first launch the run is the whole list, and k reports file only its first k children. */
  lemma LaunchedOutcomes(tasks: seq<TaskId>, rs: seq<Status>)
    requires |rs| < |tasks|
    ensures [] + CompletedOf([tasks[0]] + tasks[1..], rs) == CompletedOf(tasks[..|rs|], rs)
    ensures [] + FailedOf([tasks[0]] + tasks[1..], rs) == FailedOf(tasks[..|rs|], rs)
  {
    assert [tasks[0]] + tasks[1..] == tasks;
    OutcomesOfPrefix(tasks, rs);
  }

  /** The first launch followed by the next k is the chain of the first k + 1 children. */
  lemma LaunchedChain(tasks: seq<TaskId>, k: nat)
    requires k < |tasks|
    ensures SequentialSpec.Launch(tasks[0], None) + Chain(Some(tasks[0]), tasks[1..][..k]) == Chain(None, tasks[..k + 1])
  {
    ChainUnfold(None, tasks[..k + 1]);
    assert tasks[..k + 1][0] == tasks[0] && tasks[..k + 1][1..] == tasks[1..][..k];
  }

  /** `execute` with children: the callback is registered and the first child launched. */
  lemma ExecuteLaunchesFirst(tasks: seq<TaskId>, cb: CallbackId, failEarly: bool) returns (launched: AggState)
    requires tasks != []
    ensures launched == AggState(TaskState(Pending, [cb], SequentialSpec.Launch(tasks[0], None)),
                                 tasks, tasks[1..], [], [], failEarly, true)
    ensures SequentialSpec.Execute(Some(tasks), cb, failEarly) == Handled(launched, None)
  {
    launched := AggState(TaskState(Pending, [cb], SequentialSpec.Launch(tasks[0], None)), tasks, tasks[1..], [], [], failEarly, true);
  }

  /** Settling only appends to the trace. */
  lemma SettleExtendsTrace(pre: AggState)
    ensures pre.base.trace <= SetFinalStatus(pre).base.trace
  {
    var r := SetFinalStatus(pre);
    if |pre.failed| == 0 {
      assert r.base.trace == pre.base.trace + [Dispatched(CompleteEvent), Dispatched(DoneEvent)] + Invocations(pre.base.callbacks);
    } else if |pre.completed| == 0 {
      assert r.base.trace == pre.base.trace + [Dispatched(FailedEvent), Dispatched(DoneEvent)] + Invocations(pre.base.callbacks);
    } else {
      assert r.base.trace == pre.base.trace + [Dispatched(FailedEvent), Dispatched(CompleteEvent), Dispatched(DoneEvent)] + Invocations(pre.base.callbacks);
    }
  }

  /**
   * Sequential fail-early: every waiting child is canceled (last first) and
   * recorded as failed BEFORE the aggregate broadcasts "failed" and fires its
   * callbacks; the parallel handler does these in the opposite order.
   */
  lemma FailEarlyCancelsFirst(st: AggState, child: TaskId, status: Status)
    requires st.base.status == Pending && st.failEarly && CountsAsFailure(status)
    ensures var h := SequentialSpec.HandleDone(st, child, status);
      && h.thrown == None
      && h.state.base.status == Failed
      && h.state.pending == []
      && h.state.completed == st.completed
      && h.state.failed == st.failed + [child] + PopOrder(st.pending)
      && h.state.base.callbacks == []
      && h.state.base.trace
         == st.base.trace + Cancellations(PopOrder(st.pending))
            + [Dispatched(FailedEvent), Dispatched(DoneEvent)] + Invocations(st.base.callbacks)
  {
  }

  lemma {:induction false} ChainInvokesNothing(prev: Option<TaskId>, ts: seq<TaskId>)
    ensures InvokedCallbacks(Chain(prev, ts)) == []
    decreases |ts|
  {
    if ts != [] {
      ChainInvokesNothing(Some(ts[0]), ts[1..]);
      var launch := SequentialSpec.Launch(ts[0], prev);
      InvokedCallbacksAppend(launch, Chain(Some(ts[0]), ts[1..]));
      assert launch[1..][1..] == [];
    }
  }
}
