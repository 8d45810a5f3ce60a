/** What a submission does to the pool: when it is refused, when it starts a
    thread and how its job enters the queue, over every run. */
module SchedulerCalls {
  import opened JobQueue
  import opened Scheduler
  import opened SchedulerSafety
  import opened SchedulerTheorems

  ghost predicate AllWorking(ts: seq<Thread>) {
    forall t :: 0 <= t < |ts| ==> ts[t].pc.Working?
  }

  /** The running threads are as many as the threads exactly when none is idle. */
  lemma {:induction false} WorkIsAll(ts: seq<Thread>)
    ensures |Tally(ts, Work)| <= |ts|
    ensures |Tally(ts, Work)| == |ts| <==> AllWorking(ts)
  {
    if ts != [] {
      var n := |ts| - 1;
      WorkIsAll(ts[..n]);
      WorkLast(ts, n, ts[..n]);
      AllLast(ts, n, ts[..n]);
    }
  }

  lemma WorkLast(ts: seq<Thread>, n: nat, before: seq<Thread>)
    requires |ts| == n + 1 && before == ts[..n]
    ensures |Tally(ts, Work)| == |Tally(before, Work)| + (if ts[n].pc.Working? then 1 else 0)
  {
  }

  lemma AllLast(ts: seq<Thread>, n: nat, before: seq<Thread>)
    requires |ts| == n + 1 && before == ts[..n]
    ensures AllWorking(ts) <==> AllWorking(before) && ts[n].pc.Working?
  {
  }

  /** Some job of group `g` is queued. */
  ghost predicate Queued(q: seq<Job>, g: Group) {
    exists i :: 0 <= i < |q| && q[i].group == g
  }

  /** A submission is refused: all places are taken, or the first thread cannot be started. */
  ghost predicate Refuses(s: State, spawns: bool, allowed: nat, waiters: int) {
    |s.jobs| == waiters || (s.threads == [] && 0 < allowed && !spawns)
  }

  /** A submission starts a thread: a place is left, no thread is idle, another is allowed. */
  ghost predicate Starts(s: State, spawns: bool, allowed: nat, waiters: int) {
    |s.jobs| != waiters && AllWorking(s.threads) && |s.threads| < allowed && spawns
  }

  /** The state `u` after a submission in `s`, told without the operations of the pool. */
  ghost predicate Answered(s: State, u: State, g: Group, spawns: bool, allowed: nat, waiters: int) {
    var id := s.log.calls;
    && u.log.calls == id + 1
    && (Refuses(s, spawns, allowed, waiters) ==>
          && u.threads == s.threads && u.jobs == s.jobs && u.signals == s.signals
          && u.log.accepted == s.log.accepted && u.log.refused == s.log.refused + multiset{id})
    && (!Refuses(s, spawns, allowed, waiters) ==>
          && u.threads == s.threads + (if Starts(s, spawns, allowed, waiters) then [Thread(Ready, false)] else [])
          && u.jobs == s.jobs + [Job(id, g, g != NoGroup && Queued(s.jobs, g))]
          && u.signals == s.signals + 1
          && u.log.accepted == s.log.accepted + [u.jobs[|s.jobs|]] && u.log.refused == s.log.refused)
  }

  lemma SpawnsWhenBusy(s: State, allowed: nat, waiters: int)
    requires Counts(s, allowed, waiters) && !s.stopping
    ensures Spawns(s) <==> AllWorking(s.threads) && |s.threads| < allowed
  {
    WorkIsAll(s.threads);
  }

  lemma EntersBlocked(q: seq<Job>, id: nat, g: Group)
    ensures Enter(q, id, g) == Job(id, g, g != NoGroup && Queued(q, g))
  {
    if Queued(q, g) {
      var i :| 0 <= i < |q| && q[i].group == g;
      assert First(q, g) <= i;
    }
  }

  lemma SubmitAnswers(s: State, g: Group, spawns: bool, allowed: nat, waiters: int)
    requires Counts(s, allowed, waiters) && !s.stopping
    ensures Answered(s, Submit(s, g, spawns), g, spawns, allowed, waiters)
  {
    SpawnsWhenBusy(s, allowed, waiters);
    EntersBlocked(s.jobs, s.log.calls, g);
    assert s.threads + [] == s.threads;
  }

  /** In every state of every run, what a submission does: refused exactly when no place is
      left or the first thread fails; a thread more exactly when it is accepted, no thread is
      idle, more are allowed and the system gives one; its job enters last, and blocked
      exactly when a job of its group is queued. */
  lemma CallAnswers(allowed: nat, up: nat, waiters: int, run: seq<Action>, g: Group, spawns: bool)
    requires up <= allowed
    ensures var r := Exec(Init(allowed, up, waiters), run);
            r.At? && !r.state.stopping ==>
              Answered(r.state, Do(r.state, Call(g, spawns)), g, spawns, allowed, waiters)
  {
    RunKeeps(allowed, up, waiters, run);
    var r := Exec(Init(allowed, up, waiters), run);
    if r.At? && !r.state.stopping {
      SubmitAnswers(r.state, g, spawns, allowed, waiters);
    }
  }

  /** After an accepted submission some thread is free for its job, or all the threads
      allowed are started, when the system gives threads. */
  lemma CallFindsThread(allowed: nat, up: nat, waiters: int, run: seq<Action>, g: Group)
    requires up <= allowed
    ensures var r := Exec(Init(allowed, up, waiters), run + [Call(g, true)]);
            r.At? && |r.state.log.accepted| > |Exec(Init(allowed, up, waiters), run).state.log.accepted| ==>
              |r.state.threads| == allowed || !AllWorking(r.state.threads)
  {
    assert (run + [Call(g, true)])[..|run|] == run;
    CallAnswers(allowed, up, waiters, run, g, true);
    RunKeeps(allowed, up, waiters, run);
    var r := Exec(Init(allowed, up, waiters), run);
    if r.At? && !r.state.stopping && Starts(r.state, true, allowed, waiters) {
      var u := Do(r.state, Call(g, true));
      assert !u.threads[|r.state.threads|].pc.Working?;
    }
  }

  /** Nothing but a submission that meets no idle thread starts one. */
  lemma ThreadsGrowWhenBusy(allowed: nat, up: nat, waiters: int, run: seq<Action>, a: Action)
    requires up <= allowed
    ensures var r := Exec(Init(allowed, up, waiters), run);
            r.At? && Enabled(r.state, a) ==>
              && |r.state.threads| <= |Do(r.state, a).threads| <= |r.state.threads| + 1
              && (|Do(r.state, a).threads| > |r.state.threads| <==>
                    a.Call? && Starts(r.state, a.spawns, allowed, waiters))
  {
    var r := Exec(Init(allowed, up, waiters), run);
    if r.At? && Enabled(r.state, a) {
      if a.Call? {
        CallAnswers(allowed, up, waiters, run, a.group, a.spawns);
        RunKeeps(allowed, up, waiters, run);
      } else {
        OthersStartNone(r.state, a);
      }
    }
  }

  lemma OthersStartNone(s: State, a: Action)
    requires Enabled(s, a) && !a.Call?
    ensures |Do(s, a).threads| == |s.threads|
  {
  }

  // ----- what a worker does

  /** The job at `k` is the oldest one that is not blocked. */
  ghost predicate Oldest(q: seq<Job>, k: nat) {
    k < |q| && !q[k].blocked && forall i :: 0 <= i < k ==> q[i].blocked
  }

  /** A worker at the head of its loop, over the queue `q`: it ends when it has to stop,
      waits when every job is blocked, and else takes the oldest free job. */
  ghost predicate Turned(q: seq<Job>, stop: bool, u: State, t: nat) {
    && t < |u.threads|
    && (stop ==> u.threads[t].pc == Ended && u.jobs == q)
    && (!stop && (forall i :: 0 <= i < |q| ==> q[i].blocked) ==> u.threads[t].pc == Waiting && u.jobs == q)
    && (forall k: nat :: !stop && Oldest(q, k) ==>
          u.threads[t].pc == Working(q[k]) && u.jobs == q[..k] + q[k + 1..])
  }

  lemma HeadTurns(s: State, t: nat)
    requires t < |s.threads| && !Blocked(s)
    ensures Turned(s.jobs, s.threads[t].stop, Head(s, t), t)
  {
    forall k: nat | Oldest(s.jobs, k)
      ensures k == FirstFree(s.jobs)
    {
      assert FirstFree(s.jobs) <= k;
    }
    assert FirstFree(s.jobs) < |s.jobs| ==> !s.jobs[FirstFree(s.jobs)].blocked;
  }

  /** The queue after the end of a job of group `g`: its first queued job is let go. */
  ghost predicate LetGo(q: seq<Job>, g: Group, r: seq<Job>) {
    && |r| == |q|
    && forall i :: 0 <= i < |q| ==>
         r[i] == if g != NoGroup && q[i].group == g && !Queued(q[..i], g) then q[i].(blocked := false) else q[i]
  }

  lemma ReleaseLetsGo(s: State, t: nat)
    requires t < |s.threads| && s.threads[t].pc.Working?
    ensures LetGo(s.jobs, s.threads[t].pc.job.group, Release(s, t).jobs)
  {
    var g, q := s.threads[t].pc.job.group, s.jobs;
    forall i | 0 <= i < |q|
      ensures (q[i].group == g && !Queued(q[..i], g)) <==> i == First(q, g)
    {
      assert forall j :: 0 <= j < i ==> q[..i][j] == q[j];
      if q[i].group == g && !Queued(q[..i], g) {
        assert forall j :: 0 <= j < i ==> q[..i][j].group != g;
      }
    }
  }

  lemma LoopTurns(s: State, t: nat, allowed: nat, waiters: int)
    requires Counts(s, allowed, waiters) && !s.stopping && Is(s, t, Ready) && !Blocked(s)
    ensures Turned(s.jobs, false, Do(s, Loop(t)), t)
  {
    HeadTurns(s, t);
  }

  lemma FinishTurns(s: State, t: nat, allowed: nat, waiters: int)
    requires Counts(s, allowed, waiters) && !s.stopping && t < |s.threads| && s.threads[t].pc.Working?
    requires !Blocked(Release(s, t))
    ensures LetGo(s.jobs, s.threads[t].pc.job.group, Release(s, t).jobs)
    ensures Turned(Release(s, t).jobs, false, Do(s, Finish(t)), t)
  {
    ReleaseLetsGo(s, t);
    HeadTurns(Release(s, t), t);
  }

  /** In every run before termination: a worker that is ready takes the oldest job that is
      not blocked, or waits when there is none. */
  lemma WorkersTakeOldest(allowed: nat, up: nat, waiters: int, run: seq<Action>, t: nat)
    requires up <= allowed
    ensures var r := Exec(Init(allowed, up, waiters), run);
            r.At? && !r.state.stopping && Is(r.state, t, Ready) ==>
              Turned(r.state.jobs, false, Do(r.state, Loop(t)), t)
  {
    NeverReportsBlocked(allowed, up, waiters, run, t);
    RunKeeps(allowed, up, waiters, run);
    var r := Exec(Init(allowed, up, waiters), run);
    if r.At? && !r.state.stopping && Is(r.state, t, Ready) {
      LoopTurns(r.state, t, allowed, waiters);
    }
  }

  /** And one that ends a job first lets go the first queued job of its group. */
  lemma WorkersLetGo(allowed: nat, up: nat, waiters: int, run: seq<Action>, t: nat)
    requires up <= allowed
    ensures var r := Exec(Init(allowed, up, waiters), run);
            r.At? && !r.state.stopping && t < |r.state.threads| && r.state.threads[t].pc.Working? ==>
              exists q :: LetGo(r.state.jobs, r.state.threads[t].pc.job.group, q)
                && Turned(q, false, Do(r.state, Finish(t)), t)
  {
    NeverReportsBlocked(allowed, up, waiters, run, t);
    RunKeeps(allowed, up, waiters, run);
    var r := Exec(Init(allowed, up, waiters), run);
    if r.At? && !r.state.stopping && t < |r.state.threads| && r.state.threads[t].pc.Working? {
      FinishTurns(r.state, t, allowed, waiters);
    }
  }
}
