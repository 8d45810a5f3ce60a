/** Termination of the pool: it ends, and then every submission is settled. */
module SchedulerEnd {
  import opened JobQueue
  import opened Scheduler
  import opened SchedulerSafety
  import opened SchedulerTheorems

  // ----- stop requests

  /** Once termination began every thread is requested to stop. */
  ghost predicate Requested(s: State) {
    s.stopping ==> forall t :: 0 <= t < |s.threads| ==> s.threads[t].stop
  }

  lemma RequestedStep(s: State, a: Action)
    requires Requested(s) && Enabled(s, a)
    ensures Requested(Do(s, a)) && (s.stopping ==> Do(s, a).stopping)
  {
  }

  lemma {:induction false} RequestedRun(allowed: nat, up: nat, waiters: int, run: seq<Action>)
    ensures var r := Exec(Init(allowed, up, waiters), run); r.At? ==> Requested(r.state)
  {
    if run != [] {
      var prev, a := run[..|run| - 1], run[|run| - 1];
      RequestedRun(allowed, up, waiters, prev);
      var r := Exec(Init(allowed, up, waiters), prev);
      if r.At? && Enabled(r.state, a) {
        RequestedStep(r.state, a);
      }
    }
  }

  // ----- what is left to do

  /** How far a thread is from being joined. */
  function Way(t: Thread): multiset<nat> {
    match t.pc
    case Waiting => multiset{0, 0, 0}
    case Ready => multiset{0, 0}
    case Working(_) => multiset{0, 0}
    case Ended => multiset{0}
    case Joined => multiset{}
  }

  function Left(s: State): nat {
    |s.jobs| + s.signals + |Tally(s.threads, Way)|
  }

  /** A broadcast that wakes nobody. */
  ghost predicate Idle(s: State, a: Action) {
    a == Broadcast && !SomeWaiting(s.threads)
  }

  function Woken(ts: seq<Thread>): seq<Thread> {
    seq(|ts|, i requires 0 <= i < |ts| => Wake(ts[i]))
  }

  lemma WakingOne(t: Thread)
    ensures |Way(Wake(t))| + (if t.pc == Waiting then 1 else 0) == |Way(t)|
  {
  }

  predicate SomeWaiting(ts: seq<Thread>) {
    exists t :: 0 <= t < |ts| && ts[t].pc == Waiting
  }

  lemma {:induction false} WakingShortens(ts: seq<Thread>)
    ensures |Tally(Woken(ts), Way)| + (if SomeWaiting(ts) then 1 else 0) <= |Tally(ts, Way)|
  {
    if ts != [] {
      var n := |ts| - 1;
      WakingShortens(ts[..n]);
      WakingOne(ts[n]);
      WaitingSplit(ts, n);
      TallyLast(ts, n, ts[..n]);
      WokenLast(ts, n);
      TallyLast(Woken(ts), n, Woken(ts[..n]));
    }
  }

  lemma TallyLast(ts: seq<Thread>, n: nat, before: seq<Thread>)
    requires |ts| == n + 1 && before == ts[..n]
    ensures |Tally(ts, Way)| == |Tally(before, Way)| + |Way(ts[n])|
  {
  }

  lemma WokenLast(ts: seq<Thread>, n: nat)
    requires |ts| == n + 1
    ensures Woken(ts[..n]) == Woken(ts)[..n] && Woken(ts)[n] == Wake(ts[n])
  {
  }

  lemma WaitingSplit(ts: seq<Thread>, n: nat)
    requires |ts| == n + 1
    ensures SomeWaiting(ts) ==> SomeWaiting(ts[..n]) || ts[n].pc == Waiting
  {
    if SomeWaiting(ts) {
      var t :| 0 <= t < |ts| && ts[t].pc == Waiting;
      assert t < n ==> ts[..n][t].pc == Waiting;
    }
  }

  lemma BroadcastShortens(s: State)
    requires Enabled(s, Broadcast)
    ensures Left(Do(s, Broadcast)) + (if Idle(s, Broadcast) then 0 else 1) <= Left(s)
  {
    assert Do(s, Broadcast) == s.(threads := Woken(s.threads));
    WakingShortens(s.threads);
  }

  lemma LoopShortens(s: State, t: nat)
    requires s.stopping && Requested(s) && Is(s, t, Ready)
    ensures Left(Head(s, t)) < Left(s)
  {
    Moves(s.threads, t, Ended, Way);
  }

  lemma FinishShortens(s: State, t: nat)
    requires s.stopping && Requested(s) && t < |s.threads| && s.threads[t].pc.Working?
    ensures Left(Head(Release(s, t), t)) < Left(s)
  {
    var r := Release(s, t);
    Moves(s.threads, t, Ready, Way);
    Moves(r.threads, t, Ended, Way);
    assert |r.jobs| == |s.jobs|;
  }

  lemma WakeShortens(s: State, t: nat, signals: nat)
    requires Is(s, t, Waiting) && signals <= s.signals
    ensures Left(s.(signals := signals, threads := SetPc(s.threads, t, Ready))) < Left(s)
  {
    Moves(s.threads, t, Ready, Way);
  }

  lemma JoinShortens(s: State, t: nat)
    requires Is(s, t, Ended)
    ensures Left(s.(started := s.started - 1, threads := SetPc(s.threads, t, Joined))) < Left(s)
  {
    Moves(s.threads, t, Joined, Way);
  }

  lemma AbortShortens(s: State)
    requires Enabled(s, Abort)
    ensures Left(Do(s, Abort)) < Left(s)
  {
  }

  /** Every step after termination began leaves less to do, but for idle broadcasts. */
  lemma StepShortens(s: State, a: Action)
    requires s.stopping && Requested(s) && Enabled(s, a)
    ensures Left(Do(s, a)) + (if Idle(s, a) then 0 else 1) <= Left(s)
  {
    match a
    case Signal(t) => WakeShortens(s, t, s.signals - 1);
    case SignalNobody =>
    case Spurious(t) =>
      WakeShortens(s, t, s.signals);
      assert s.(signals := s.signals) == s;
    case Loop(t) => LoopShortens(s, t);
    case Finish(t) => FinishShortens(s, t);
    case Broadcast => BroadcastShortens(s);
    case Join(t) => JoinShortens(s, t);
    case Abort => AbortShortens(s);
  }

  /** Idle broadcasts in a run. */
  ghost function Idles(s: State, run: seq<Action>): nat {
    if run == [] then 0
    else
      var prev := run[..|run| - 1];
      var r := Exec(s, prev);
      Idles(s, prev) + if r.At? && Idle(r.state, run[|run| - 1]) then 1 else 0
  }

  /** After termination began a run has at most `Left` steps besides idle broadcasts. */
  lemma {:induction false} EndingRunsEnd(s: State, run: seq<Action>)
    requires s.stopping && Requested(s)
    ensures var r := Exec(s, run);
            r.At? ==> r.state.stopping && Requested(r.state) && |run| + Left(r.state) <= Left(s) + Idles(s, run)
  {
    if run != [] {
      var prev, a := run[..|run| - 1], run[|run| - 1];
      EndingRunsEnd(s, prev);
      var r := Exec(s, prev);
      if r.At? && Enabled(r.state, a) {
        RequestedStep(r.state, a);
        StepShortens(r.state, a);
      }
    }
  }

  // ----- the end

  /** Nothing is left that the workers or the terminating thread can do. */
  ghost predicate Over(s: State) {
    forall a :: Ending(a) ==> !Enabled(s, a) || Idle(s, a)
  }

  predicate Ending(a: Action) {
    a.Loop? || a.Finish? || a.Join? || a.Abort? || a.Broadcast?
  }

  lemma WaitingCounts(ts: seq<Thread>)
    ensures SomeWaiting(ts) ==> |Tally(ts, Live)| > 0
  {
    if SomeWaiting(ts) {
      var t :| 0 <= t < |ts| && ts[t].pc == Waiting;
      TallyMember(ts, Live, t);
      assert 0 in Tally(ts, Live);
    }
  }

  lemma OverThread(s: State, t: nat)
    requires s.stopping && Over(s) && t < |s.threads|
    ensures s.threads[t].pc == Joined || s.threads[t].pc == Waiting
  {
    assert Ending(Loop(t)) && Ending(Finish(t)) && Ending(Join(t));
    assert !Enabled(s, Loop(t)) && !Enabled(s, Finish(t)) && !Enabled(s, Join(t));
  }

  /** A state with nothing left to do has joined all threads and emptied the queue. */
  lemma OverIsEnd(s: State)
    requires s.started == |Tally(s.threads, Live)| && s.stopping && Over(s)
    ensures s.started == 0 && s.jobs == []
  {
    assert Ending(Broadcast) && Ending(Abort);
    WaitingCounts(s.threads);
    assert !SomeWaiting(s.threads);
    forall t | 0 <= t < |s.threads|
      ensures Live(s.threads[t]) == multiset{}
    {
      OverThread(s, t);
    }
    TallyEmpty(s.threads, Live);
    assert !Enabled(s, Abort);
  }

  /** From every reachable state in which termination began: every continuation has a
      bounded number of steps besides idle broadcasts, and where nothing is left to do
      all threads are joined, the queue is empty, and each submission was refused, run or
      aborted, exactly one of these exactly once, with no reference left. */
  lemma TerminationSettles(allowed: nat, up: nat, waiters: int, run: seq<Action>, more: seq<Action>, id: nat)
    requires up <= allowed
    ensures var r := Exec(Init(allowed, up, waiters), run);
            r.At? && r.state.stopping ==>
              var q := Exec(r.state, more);
              q.At? ==>
                && |more| + Left(q.state) <= Left(r.state) + Idles(r.state, more)
                && (Over(q.state) ==>
                      && q.state.started == 0 && q.state.jobs == []
                      && q.state.log.refs == multiset{}
                      && q.state.log.refused[id] + q.state.log.ran[id] + q.state.log.aborted[id]
                         == (if id < q.state.log.calls then 1 else 0))
  {
    RequestedRun(allowed, up, waiters, run);
    var r := Exec(Init(allowed, up, waiters), run);
    if r.At? && r.state.stopping {
      EndingRunsEnd(r.state, more);
      ExecConcat(Init(allowed, up, waiters), run, more);
      var q := Exec(r.state, more);
      if q.At? && Over(q.state) {
        RunKeeps(allowed, up, waiters, run + more);
        OverIsEnd(q.state);
        EverySubmissionSettled(allowed, up, waiters, run + more, id);
      }
    }
  }

  lemma {:induction false} ExecConcat(s: State, run: seq<Action>, more: seq<Action>)
    requires Exec(s, run).At?
    ensures Exec(s, run + more) == Exec(Exec(s, run).state, more)
    decreases |more|
  {
    if more == [] {
      assert run + more == run;
    } else {
      var n := |more| - 1;
      assert (run + more)[..|run + more| - 1] == run + more[..n] && (run + more)[|run + more| - 1] == more[n];
      ExecConcat(s, run, more[..n]);
    }
  }
}
