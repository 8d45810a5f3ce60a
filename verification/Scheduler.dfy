/** The thread pool of src/afb-thread.c as a transition system.

    One action is one critical section of the mutex (or one signal, broadcast,
    wake-up or join); the loop head of a worker and the section in which it
    gives back a finished job are one section, as in the code.  Histories of
    submissions are recorded beside the program's own variables. */
module Scheduler {
  import opened JobQueue

  datatype Pc =
    | Ready               // created or woken, about to take the mutex
    | Waiting             // inside pthread_cond_wait
    | Working(job: Job)   // running a job, outside the mutex
    | Ended               // left the main loop
    | Joined

  datatype Thread = Thread(pc: Pc, stop: bool)

  /** What became of the submissions, in order of time. */
  datatype History = History(
    calls: nat,                // submissions so far; a submission is named by its rank
    refused: multiset<nat>,
    accepted: seq<Job>,
    begun: seq<Job>,
    ran: multiset<nat>,
    aborted: multiset<nat>,
    refs: multiset<nat>)       // references held on requests

  datatype State = State(
    jobs: seq<Job>,
    remains: int,
    allowed: int,
    started: int,
    running: int,
    threads: seq<Thread>,      // those ever started
    signals: nat,              // submitters that left the mutex and did not signal yet
    stopping: bool,
    log: History)

  datatype Action =
    | Call(group: Group, spawns: bool)   // `spawns`: would pthread_create succeed?
    | Signal(woken: nat)                 // a waiting thread is woken
    | SignalNobody
    | Spurious(t: nat)
    | Loop(t: nat)
    | Finish(t: nat)
    | Terminate
    | Broadcast
    | Join(t: nat)
    | Abort

  const NO_HISTORY := History(0, multiset{}, [], [], multiset{}, multiset{}, multiset{})

  /** afb_thread_init: `up` of the requested threads could be created. */
  function Init(allowed: nat, up: nat, waiters: int): State {
    State([], waiters, allowed, up, 0, seq(up, i => Thread(Ready, false)), 0, false, NO_HISTORY)
  }

  function SetPc(ts: seq<Thread>, t: nat, pc: Pc): seq<Thread>
    requires t < |ts|
  {
    ts[t := ts[t].(pc := pc)]
  }

  function Begin(s: State, t: nat, j: Job): State
    requires t < |s.threads|
  {
    s.(running := s.running + 1, threads := SetPc(s.threads, t, Working(j)), log := s.log.(begun := s.log.begun + [j]))
  }

  /** The situation the code reports with "threads are blocked!". */
  predicate Blocked(s: State) {
    FirstFree(s.jobs) == |s.jobs| && s.jobs != [] && s.running == 0
  }

  /** The head of the main loop, entered with the mutex held. */
  function Head(s: State, t: nat): State
    requires t < |s.threads|
  {
    var k := FirstFree(s.jobs);
    if s.threads[t].stop then s.(threads := SetPc(s.threads, t, Ended))
    else if Blocked(s) then Begin(s.(jobs := s.jobs[1..]), t, s.jobs[0])
    else if k == |s.jobs| then s.(threads := SetPc(s.threads, t, Waiting))
    else Begin(s.(jobs := Without(s.jobs, k), remains := s.remains + 1), t, s.jobs[k])
  }

  /** The end of a job: its request is released, its group unblocked. */
  function Release(s: State, t: nat): State
    requires t < |s.threads| && s.threads[t].pc.Working?
  {
    var j := s.threads[t].pc.job;
    s.(jobs := if j.group == NoGroup then s.jobs else Unblock(s.jobs, j.group),
       running := s.running - 1,
       threads := SetPc(s.threads, t, Ready),
       log := s.log.(ran := s.log.ran + multiset{j.id}, refs := s.log.refs - multiset{j.id}))
  }

  predicate Spawns(s: State) {
    s.started == s.running && s.started < s.allowed
  }

  function Refuse(s: State): State {
    s.(log := s.log.(calls := s.log.calls + 1, refused := s.log.refused + multiset{s.log.calls}))
  }

  function Enqueue(s: State, g: Group): State {
    var j := Enter(s.jobs, s.log.calls, g);
    s.(jobs := s.jobs + [j], remains := s.remains - 1, signals := s.signals + 1,
       log := s.log.(calls := s.log.calls + 1, accepted := s.log.accepted + [j], refs := s.log.refs + multiset{j.id}))
  }

  function Spawn(s: State): State {
    s.(started := s.started + 1, threads := s.threads + [Thread(Ready, false)])
  }

  function Submit(s: State, g: Group, spawns: bool): State {
    if s.remains == 0 then Refuse(s)
    else if Spawns(s) && !spawns && s.started == 0 then Refuse(s)
    else Enqueue(if Spawns(s) && spawns then Spawn(s) else s, g)
  }

  function Wake(t: Thread): Thread {
    if t.pc == Waiting then t.(pc := Ready) else t
  }

  predicate Is(s: State, t: nat, pc: Pc) {
    t < |s.threads| && s.threads[t].pc == pc
  }

  predicate Enabled(s: State, a: Action) {
    match a
    case Call(_, _) => !s.stopping
    case Signal(t) => s.signals > 0 && Is(s, t, Waiting)
    case SignalNobody => s.signals > 0 && forall t :: 0 <= t < |s.threads| ==> s.threads[t].pc != Waiting
    case Spurious(t) => Is(s, t, Waiting)
    case Loop(t) => Is(s, t, Ready)
    case Finish(t) => t < |s.threads| && s.threads[t].pc.Working?
    case Terminate => !s.stopping
    case Broadcast => s.stopping && s.started != 0
    case Join(t) => s.stopping && Is(s, t, Ended)
    case Abort => s.stopping && s.started == 0 && s.jobs != []
  }

  function Do(s: State, a: Action): State
    requires Enabled(s, a)
  {
    match a
    case Call(g, spawns) => Submit(s, g, spawns)
    case Signal(t) => s.(signals := s.signals - 1, threads := SetPc(s.threads, t, Ready))
    case SignalNobody => s.(signals := s.signals - 1)
    case Spurious(t) => s.(threads := SetPc(s.threads, t, Ready))
    case Loop(t) => Head(s, t)
    case Finish(t) => Head(Release(s, t), t)
    case Terminate => s.(stopping := true, allowed := 0,
                         threads := seq(|s.threads|, i requires 0 <= i < |s.threads| => s.threads[i].(stop := true)))
    case Broadcast => s.(threads := seq(|s.threads|, i requires 0 <= i < |s.threads| => Wake(s.threads[i])))
    case Join(t) => s.(started := s.started - 1, threads := SetPc(s.threads, t, Joined))
    case Abort =>
      var j := s.jobs[0];
      s.(jobs := s.jobs[1..],
         log := s.log.(aborted := s.log.aborted + multiset{j.id}, refs := s.log.refs - multiset{j.id}))
  }

  /** The state after the actions `run`, if each was enabled in its turn. */
  datatype Outcome = Refused | At(state: State)

  function Exec(s: State, run: seq<Action>): Outcome {
    if run == [] then At(s)
    else
      var r := Exec(s, run[..|run| - 1]);
      if r.At? && Enabled(r.state, run[|run| - 1]) then At(Do(r.state, run[|run| - 1])) else Refused
  }

  /** Every pending job is aborted, from the first one. */
  function AbortAll(s: State): State
    requires s.stopping && s.started == 0
    decreases |s.jobs|
  {
    if s.jobs == [] then s else AbortAll(Do(s, Abort))
  }

  // ----- tallies over the threads

  function Tally(ts: seq<Thread>, f: Thread -> multiset<nat>): multiset<nat> {
    if ts == [] then multiset{} else Tally(ts[..|ts| - 1], f) + f(ts[|ts| - 1])
  }

  function Work(t: Thread): multiset<nat> {
    if t.pc.Working? then multiset{t.pc.job.id} else multiset{}
  }

  function Live(t: Thread): multiset<nat> {
    if t.pc == Joined then multiset{} else multiset{0}
  }

  lemma {:induction false} TallyUpdate(ts: seq<Thread>, f: Thread -> multiset<nat>, i: nat, t: Thread)
    requires i < |ts|
    ensures Tally(ts[i := t], f) + f(ts[i]) == Tally(ts, f) + f(t)
  {
    var n := |ts| - 1;
    if i == n {
      assert ts[i := t][..n] == ts[..n];
    } else {
      assert ts[i := t][..n] == ts[..n][i := t];
      TallyUpdate(ts[..n], f, i, t);
      var a, b, c := Tally(ts[..n], f), Tally(ts[..n][i := t], f), f(ts[n]);
      assert b + c + f(ts[i]) == (b + f(ts[i])) + c;
      assert a + c + f(t) == (a + f(t)) + c;
    }
  }

  lemma {:induction false} TallySame(ts: seq<Thread>, us: seq<Thread>, f: Thread -> multiset<nat>)
    requires |ts| == |us| && forall i :: 0 <= i < |ts| ==> f(ts[i]) == f(us[i])
    ensures Tally(ts, f) == Tally(us, f)
  {
    if ts != [] {
      TallySame(ts[..|ts| - 1], us[..|us| - 1], f);
    }
  }

  lemma {:induction false} TallyMember(ts: seq<Thread>, f: Thread -> multiset<nat>, i: nat)
    requires i < |ts|
    ensures f(ts[i]) <= Tally(ts, f)
  {
    if i < |ts| - 1 {
      TallyMember(ts[..|ts| - 1], f, i);
    }
  }

  lemma {:induction false} TallyEmpty(ts: seq<Thread>, f: Thread -> multiset<nat>)
    requires forall i :: 0 <= i < |ts| ==> f(ts[i]) == multiset{}
    ensures Tally(ts, f) == multiset{}
  {
    if ts != [] {
      TallyEmpty(ts[..|ts| - 1], f);
    }
  }

  lemma {:induction false} TallyLive(ts: seq<Thread>)
    requires forall i :: 0 <= i < |ts| ==> ts[i].pc != Joined
    ensures |Tally(ts, Live)| == |ts|
  {
    if ts != [] {
      TallyLive(ts[..|ts| - 1]);
    }
  }
}
