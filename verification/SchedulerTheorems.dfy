/** What the thread pool guarantees, over every run. */
module SchedulerTheorems {
  import opened JobQueue
  import opened Scheduler
  import opened SchedulerSafety

  /** Some queued job could run now. */
  ghost predicate Runnable(s: State) {
    exists i :: 0 <= i < |s.jobs| && !s.jobs[i].blocked
  }

  /** In every interleaving before termination, a job that could run is known to
      someone: a thread that is not waiting, or a submitter about to signal. */
  lemma NoLostWakeUp(allowed: nat, up: nat, waiters: int, run: seq<Action>)
    requires 0 < allowed && up <= allowed
    ensures var r := Exec(Init(allowed, up, waiters), run);
            r.At? && !r.state.stopping && Runnable(r.state) ==> Awake(r.state)
  {
    RunKeeps(allowed, up, waiters, run);
    var r := Exec(Init(allowed, up, waiters), run);
    if r.At? && Runnable(r.state) {
      var i :| 0 <= i < |r.state.jobs| && !r.state.jobs[i].blocked;
      assert FirstFree(r.state.jobs) <= i;
    }
  }

  /** With no thread allowed the code still accepts a job, and nobody will run it. */
  lemma StuckWithoutThreads(waiters: int)
    requires waiters != 0
    ensures var r := Exec(Init(0, 0, waiters), [Call(NoGroup, true), SignalNobody]);
            r.At? && !r.state.stopping && Runnable(r.state) && !Awake(r.state)
  {
    var s := Init(0, 0, waiters);
    var a, b := Call(NoGroup, true), SignalNobody;
    assert [a, b][..1] == [a] && [a][..0] == [];
    assert Exec(s, []) == At(s);
    var u := Do(s, a);
    assert Exec(s, [a]) == At(u);
    var v := Do(u, b);
    assert Exec(s, [a, b]) == At(v);
    assert v.jobs == [Job(0, NoGroup, false)];
    assert !v.jobs[0].blocked;
  }

  ghost predicate NeverLoses(allowed: nat, waiters: int) {
    forall up, run :: 0 <= up <= allowed ==>
      var r := Exec(Init(allowed, up, waiters), run);
      r.At? && !r.state.stopping && Runnable(r.state) ==> Awake(r.state)
  }

  /** Wake-ups are never lost exactly when at least one thread is allowed. */
  lemma WakeUpsIffThreads(allowed: nat, waiters: int)
    requires waiters != 0
    ensures NeverLoses(allowed, waiters) <==> 0 < allowed
  {
    if 0 < allowed {
      forall up: nat, run | up <= allowed
        ensures var r := Exec(Init(allowed, up, waiters), run);
                r.At? && !r.state.stopping && Runnable(r.state) ==> Awake(r.state)
      {
        NoLostWakeUp(allowed, up, waiters, run);
      }
    } else {
      StuckWithoutThreads(waiters);
      assert !Awake(Exec(Init(0, 0, waiters), [Call(NoGroup, true), SignalNobody]).state);
    }
  }

  /** Only the first queued job of a group can be unblocked; when it is blocked a
      job of its group runs; so the jobs of a group begin in acceptance order. */
  lemma GroupsInOrder(allowed: nat, up: nat, waiters: int, run: seq<Action>, g: Group)
    requires up <= allowed
    ensures var r := Exec(Init(allowed, up, waiters), run);
            r.At? && r.state.log.aborted == multiset{} ==>
              var s := r.state;
              && Of(s.log.accepted, g) == Of(s.log.begun, g) + Of(s.jobs, g)
              && (forall i :: First(s.jobs, g) < i < |s.jobs| && s.jobs[i].group == g && g != NoGroup ==>
                  s.jobs[i].blocked)
              && (First(s.jobs, g) < |s.jobs| && s.jobs[First(s.jobs, g)].blocked ==> Busy(s.threads, g))
  {
    RunKeeps(allowed, up, waiters, run);
  }

  lemma FinishNotBlocked(s: State, t: nat, allowed: nat, waiters: int)
    requires Inv(s, allowed, waiters) && Enabled(s, Finish(t))
    ensures !Blocked(Release(s, t))
  {
    LiveStarted(s, t);
    ReleaseKeeps(s, t, allowed, waiters);
    NeverBlocked(Release(s, t));
  }

  /** Neither of the two places where a worker looks for a job meets the
      "threads are blocked!" situation. */
  lemma NeverReportsBlocked(allowed: nat, up: nat, waiters: int, run: seq<Action>, t: nat)
    requires up <= allowed
    ensures var r := Exec(Init(allowed, up, waiters), run);
            && (r.At? && Enabled(r.state, Loop(t)) ==> !Blocked(r.state))
            && (r.At? && Enabled(r.state, Finish(t)) ==> !Blocked(Release(r.state, t)))
  {
    RunKeeps(allowed, up, waiters, run);
    var r := Exec(Init(allowed, up, waiters), run);
    if r.At? && Enabled(r.state, Loop(t)) {
      LiveStarted(r.state, t);
      NeverBlocked(r.state);
    }
    if r.At? && Enabled(r.state, Finish(t)) {
      FinishNotBlocked(r.state, t, allowed, waiters);
    }
  }

  /** The identifiers of the jobs being run, with multiplicity. */
  ghost function Running(s: State): multiset<nat> {
    Tally(s.threads, Work)
  }

  lemma Conservation(allowed: nat, up: nat, waiters: int, run: seq<Action>)
    requires up <= allowed
    ensures var r := Exec(Init(allowed, up, waiters), run);
            r.At? && !r.state.stopping ==>
              && r.state.remains + |r.state.jobs| == waiters
              && r.state.running == |Running(r.state)| <= r.state.started <= allowed
              && r.state.started == |r.state.threads|
              && r.state.log.refs == Bag(r.state.jobs) + Running(r.state)
  {
    RunKeeps(allowed, up, waiters, run);
    var r := Exec(Init(allowed, up, waiters), run);
    if r.At? {
      WorkBounded(r.state.threads);
    }
  }

  lemma {:induction false} WorkBounded(ts: seq<Thread>)
    ensures |Tally(ts, Work)| <= |ts|
  {
    if ts != [] {
      WorkBounded(ts[..|ts| - 1]);
    }
  }

  lemma {:induction false} EachOnce(n: nat, id: nat)
    ensures Submissions(n)[id] == if id < n then 1 else 0
  {
    if n > 0 {
      EachOnce(n - 1, id);
    }
  }

  lemma {:induction false} NobodyWorks(ts: seq<Thread>)
    requires |Tally(ts, Live)| == 0
    ensures Tally(ts, Work) == multiset{}
  {
    if ts != [] {
      NobodyWorks(ts[..|ts| - 1]);
    }
  }

  /** When termination is complete every submission was refused, run or aborted,
      exactly one of them exactly once, and no reference is left. */
  lemma EverySubmissionSettled(allowed: nat, up: nat, waiters: int, run: seq<Action>, id: nat)
    requires up <= allowed
    ensures var r := Exec(Init(allowed, up, waiters), run);
            r.At? && r.state.stopping && r.state.started == 0 && r.state.jobs == [] ==>
              var l := r.state.log;
              && l.refused[id] + l.ran[id] + l.aborted[id] == (if id < l.calls then 1 else 0)
              && l.refs == multiset{}
  {
    RunKeeps(allowed, up, waiters, run);
    var r := Exec(Init(allowed, up, waiters), run);
    if r.At? && r.state.stopping && r.state.started == 0 && r.state.jobs == [] {
      NobodyWorks(r.state.threads);
      assert Bag([]) == multiset{};
      EachOnce(r.state.log.calls, id);
    }
  }

  // ----- progress

  /** Steps of the pool itself, without new submissions and spurious wake-ups. */
  predicate Internal(a: Action) {
    a.Signal? || a.SignalNobody? || a.Loop? || a.Finish?
  }

  function Active(t: Thread): multiset<nat> {
    if t.pc.Ready? || t.pc.Working? then multiset{0} else multiset{}
  }

  function Measure(s: State): nat {
    |s.jobs| + 2 * s.signals + |Tally(s.threads, Active)|
  }

  lemma HeadProgress(s: State, t: nat)
    requires Is(s, t, Ready) && !s.threads[t].stop && !Blocked(s)
    ensures Measure(Head(s, t)) < Measure(s)
    ensures Head(s, t).stopping == s.stopping
  {
    var k := FirstFree(s.jobs);
    Moves(s.threads, t, if k == |s.jobs| then Waiting else Working(s.jobs[k]), Active);
  }

  lemma ReleaseKeepsMeasure(s: State, t: nat)
    requires t < |s.threads| && s.threads[t].pc.Working?
    ensures Measure(Release(s, t)) == Measure(s)
  {
    Moves(s.threads, t, Ready, Active);
  }

  lemma InternalProgress(s: State, a: Action, allowed: nat, waiters: int)
    requires Inv(s, allowed, waiters) && !s.stopping && Internal(a) && Enabled(s, a)
    ensures Measure(Do(s, a)) < Measure(s) && !Do(s, a).stopping
  {
    match a
    case Signal(t) => Moves(s.threads, t, Ready, Active);
    case SignalNobody =>
    case Loop(t) =>
      NeverBlocked(s);
      HeadProgress(s, t);
    case Finish(t) => FinishProgress(s, t, allowed, waiters);
  }

  lemma FinishProgress(s: State, t: nat, allowed: nat, waiters: int)
    requires Inv(s, allowed, waiters) && !s.stopping && t < |s.threads| && s.threads[t].pc.Working?
    ensures var r := Head(Release(s, t), t); Measure(r) < Measure(s) && !r.stopping
  {
    ReleaseKeeps(s, t, allowed, waiters);
    ReleaseKeepsMeasure(s, t);
    NeverBlocked(Release(s, t));
    HeadProgress(Release(s, t), t);
  }

  /** Left alone, the pool makes at most Measure(s) steps. */
  lemma {:induction false} InternalRunsEnd(s: State, run: seq<Action>, allowed: nat, waiters: int)
    requires Inv(s, allowed, waiters) && !s.stopping
    requires forall i :: 0 <= i < |run| ==> Internal(run[i])
    ensures var r := Exec(s, run);
            r.At? ==> |run| + Measure(r.state) <= Measure(s) && Inv(r.state, allowed, waiters) && !r.state.stopping
  {
    if run != [] {
      var prev, a := run[..|run| - 1], run[|run| - 1];
      InternalRunsEnd(s, prev, allowed, waiters);
      var r := Exec(s, prev);
      if r.At? && Enabled(r.state, a) {
        InternalProgress(r.state, a, allowed, waiters);
        StepKeeps(r.state, a, allowed, waiters);
      }
    }
  }

  ghost predicate AtRest(s: State) {
    forall a :: Internal(a) ==> !Enabled(s, a)
  }

  lemma RestIsWaiting(s: State)
    requires AtRest(s) && Serving(s.threads)
    ensures s.signals == 0 && forall t :: 0 <= t < |s.threads| ==> s.threads[t].pc == Waiting
  {
    forall t | 0 <= t < |s.threads|
      ensures s.threads[t].pc == Waiting
    {
      assert !Enabled(s, Loop(t)) && !Enabled(s, Finish(t));
    }
    assert !Enabled(s, SignalNobody);
    if s.threads != [] {
      assert !Enabled(s, Signal(0));
    }
  }

  /** A pool that can do nothing more has run everything it accepted. */
  lemma RestMeansDone(s: State, allowed: nat, waiters: int)
    requires Inv(s, allowed, waiters) && !s.stopping && 0 < allowed && AtRest(s)
    ensures s.jobs == [] && Submissions(s.log.calls) == s.log.refused + s.log.ran
  {
    RestIsWaiting(s);
    TallyEmpty(s.threads, Work);
    NeverBlocked(s);
    assert Bag([]) == multiset{};
  }

  /** From every state of every run before termination, the pool left alone
      comes to rest within Measure steps and has then run all accepted jobs. */
  lemma AcceptedJobsGetRun(allowed: nat, up: nat, waiters: int, run: seq<Action>, more: seq<Action>)
    requires 0 < allowed && up <= allowed
    requires forall i :: 0 <= i < |more| ==> Internal(more[i])
    ensures var r := Exec(Init(allowed, up, waiters), run);
            r.At? && !r.state.stopping ==>
              var q := Exec(r.state, more);
              q.At? ==>
                && |more| <= Measure(r.state)
                && (AtRest(q.state) ==>
                      q.state.jobs == [] && Submissions(q.state.log.calls) == q.state.log.refused + q.state.log.ran)
  {
    RunKeeps(allowed, up, waiters, run);
    var r := Exec(Init(allowed, up, waiters), run);
    if r.At? && !r.state.stopping {
      InternalRunsEnd(r.state, more, allowed, waiters);
      var q := Exec(r.state, more);
      if q.At? && AtRest(q.state) {
        RestMeansDone(q.state, allowed, waiters);
      }
    }
  }
}
