/** The variables of src/afb-thread.c and its critical sections, in place.
    Each method is proved against the transition system. */
module ThreadPool {
  import opened JobQueue
  import opened Scheduler

  class Pool {
    var jobs: seq<Job>
    var remains: int
    var allowed: int
    var started: int
    var running: int
    var threads: seq<Thread>
    ghost var signals: nat
    ghost var stopping: bool
    ghost var log: History

    ghost function View(): State
      reads this
    {
      State(jobs, remains, allowed, started, running, threads, signals, stopping, log)
    }

    /** afb_thread_init; `creatable` threads can be created before pthread_create fails. */
    constructor (allowedCount: nat, startCount: nat, waiterCount: int, creatable: nat)
      requires startCount <= allowedCount
      ensures View() == Init(allowedCount, if creatable < startCount then creatable else startCount, waiterCount)
    {
      jobs, remains := [], waiterCount;
      allowed, started, running := allowedCount, 0, 0;
      threads := [];
      signals, stopping, log := 0, false, NO_HISTORY;
      new;
      while started < startCount && started < creatable
        invariant 0 <= started <= startCount && started <= creatable
        invariant threads == seq(started, i => Thread(Ready, false))
        invariant jobs == [] && remains == waiterCount && allowed == allowedCount && running == 0
        invariant signals == 0 && !stopping && log == NO_HISTORY
      {
        StartOneThread();
      }
    }

    method StartOneThread()
      requires started < allowed
      modifies this
      ensures View() == Spawn(old(View()))
    {
      started := started + 1;
      threads := threads + [Thread(Ready, false)];
    }

    /** Walks the whole queue to its end, blocking the job if its group is there. */
    method JobAdd(id: nat, group: Group)
      modifies `jobs, `remains
      ensures jobs == old(jobs) + [Enter(old(jobs), id, group)]
      ensures remains == old(remains) - 1
    {
      var blocked, i := false, 0;
      while i < |jobs|
        invariant 0 <= i <= |jobs|
        invariant jobs == old(jobs) && remains == old(remains)
        invariant blocked == (group != NoGroup && First(jobs, group) < i)
      {
        if group != NoGroup && jobs[i].group == group {
          blocked := true;
        }
        i := i + 1;
      }
      jobs := jobs + [Job(id, group, blocked)];
      remains := remains - 1;
    }

    method JobGet() returns (found: bool, job: Job)
      modifies `jobs, `remains
      ensures found == (FirstFree(old(jobs)) < |old(jobs)|)
      ensures found ==> job == old(jobs)[FirstFree(old(jobs))]
      ensures found ==> jobs == Without(old(jobs), FirstFree(old(jobs))) && remains == old(remains) + 1
      ensures !found ==> jobs == old(jobs) && remains == old(remains)
    {
      var i := 0;
      while i < |jobs| && jobs[i].blocked
        invariant 0 <= i <= FirstFree(jobs)
        invariant jobs == old(jobs) && remains == old(remains)
      {
        i := i + 1;
      }
      found := i < |jobs|;
      job := Job(0, NoGroup, false);
      if found {
        job := jobs[i];
        jobs := jobs[..i] + jobs[i + 1..];
        remains := remains + 1;
      }
    }

    method JobUnblock(group: Group)
      modifies `jobs
      ensures jobs == Unblock(old(jobs), group)
    {
      var i := 0;
      while i < |jobs|
        invariant 0 <= i <= First(jobs, group)
        invariant jobs == old(jobs)
      {
        if jobs[i].group == group {
          jobs := jobs[i := jobs[i].(blocked := false)];
          break;
        }
        i := i + 1;
      }
    }

    /** One turn of thread_main_loop, up to the point where the mutex is left. */
    method LoopHead(t: nat)
      requires t < |threads|
      modifies this
      ensures View() == Head(old(View()), t)
    {
      if threads[t].stop {
        threads := SetPc(threads, t, Ended);
        return;
      }
      var found, job := JobGet();
      if !found && jobs != [] && running == 0 {
        found, job := true, jobs[0];
        jobs := jobs[1..];
      }
      if !found {
        threads := SetPc(threads, t, Waiting);
      } else {
        running := running + 1;
        threads := SetPc(threads, t, Working(job));
        log := log.(begun := log.begun + [job]);
      }
    }

    method FinishJob(t: nat)
      requires t < |threads| && threads[t].pc.Working?
      modifies this
      ensures View() == Head(Release(old(View()), t), t)
    {
      ReleaseJob(t);
      LoopHead(t);
    }

    method ReleaseJob(t: nat)
      requires t < |threads| && threads[t].pc.Working?
      modifies this
      ensures View() == Release(old(View()), t)
    {
      var job := threads[t].pc.job;
      log := log.(ran := log.ran + multiset{job.id}, refs := log.refs - multiset{job.id});
      if job.group != NoGroup {
        JobUnblock(job.group);
      }
      threads := SetPc(threads, t, Ready);
      running := running - 1;
    }

    /** afb_thread_call, up to the signal.  False: the request was failed at once. */
    method CallJob(id: nat, group: Group, spawns: bool) returns (queued: bool)
      requires id == log.calls
      modifies this
      ensures View() == Submit(old(View()), group, spawns)
      ensures queued == (signals == old(signals) + 1)
    {
      if remains == 0 {
        log := log.(calls := log.calls + 1, refused := log.refused + multiset{id});
        return false;
      }
      if started == running && started < allowed {
        if spawns {
          StartOneThread();
        } else if started == 0 {
          log := log.(calls := log.calls + 1, refused := log.refused + multiset{id});
          return false;
        }
      }
      Queue(id, group);
      return true;
    }

    /** The request is referenced and its job queued; a signal is due. */
    method Queue(id: nat, group: Group)
      requires id == log.calls
      modifies this
      ensures View() == Enqueue(old(View()), group)
    {
      ghost var j := Enter(jobs, id, group);
      JobAdd(id, group);
      log := log.(calls := log.calls + 1, accepted := log.accepted + [j], refs := log.refs + multiset{id});
      signals := signals + 1;
    }

    /** The first part of afb_thread_terminate. */
    method RequestStop()
      requires !stopping
      modifies this
      ensures View() == Do(old(View()), Terminate)
    {
      allowed := 0;
      stopping := true;
      var i := 0;
      while i < |threads|
        invariant 0 <= i <= |threads| == |old(threads)|
        invariant forall k :: 0 <= k < i ==> threads[k] == old(threads)[k].(stop := true)
        invariant forall k :: i <= k < |threads| ==> threads[k] == old(threads)[k]
        invariant View() == old(View()).(stopping := true, allowed := 0, threads := threads)
      {
        threads := threads[i := threads[i].(stop := true)];
        i := i + 1;
      }
    }

    /** The last part of afb_thread_terminate, when every thread is joined. */
    method CancelPending()
      requires stopping && started == 0
      modifies this
      ensures View() == AbortAll(old(View()))
      ensures jobs == []
    {
      while jobs != []
        invariant stopping && started == 0
        invariant AbortAll(View()) == AbortAll(old(View()))
        decreases |jobs|
      {
        ghost var s := View();
        var job := jobs[0];
        jobs := jobs[1..];
        log := log.(aborted := log.aborted + multiset{job.id}, refs := log.refs - multiset{job.id});
        assert View() == Do(s, Abort);
      }
    }
  }
}
