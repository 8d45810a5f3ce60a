/** Invariants of the thread pool over every interleaving. */
module SchedulerSafety {
  import opened JobQueue
  import opened Scheduler

  /** Some thread runs a job of group `g`. */
  ghost predicate Busy(ts: seq<Thread>, g: Group) {
    exists t :: 0 <= t < |ts| && ts[t].pc.Working? && ts[t].pc.job.group == g
  }

  /** A blocked job that is the first of its group waits for a running job of that group. */
  ghost predicate Backed(q: seq<Job>, ts: seq<Thread>) {
    forall i :: 0 <= i < |q| && q[i].blocked && First(q, q[i].group) == i ==> Busy(ts, q[i].group)
  }

  ghost predicate Groups(s: State) {
    && Ordered(s.jobs)
    && (s.log.aborted == multiset{} ==> Backed(s.jobs, s.threads))
  }

  /** Before termination the pool has no stop request and no ended thread. */
  ghost predicate Serving(ts: seq<Thread>) {
    forall t :: 0 <= t < |ts| ==> !ts[t].stop && (ts[t].pc.Ready? || ts[t].pc.Waiting? || ts[t].pc.Working?)
  }

  ghost predicate Counts(s: State, allowed: nat, waiters: int) {
    && s.running == |Tally(s.threads, Work)|
    && s.started == |Tally(s.threads, Live)|
    && (!s.stopping ==> s.allowed == allowed && s.started <= allowed && s.log.aborted == multiset{})
    && (!s.stopping ==> Serving(s.threads) && s.started == |s.threads|)
    && (s.log.aborted == multiset{} ==> s.remains + |s.jobs| == waiters)
    && (s.log.aborted != multiset{} ==> s.started == 0)
  }

  /** No lost wake-up. */
  ghost predicate Awake(s: State) {
    s.signals > 0 || exists t :: 0 <= t < |s.threads| && s.threads[t].pc != Waiting
  }

  ghost predicate WakeUps(s: State) {
    && (s.jobs != [] ==> s.threads != [])
    && (FirstFree(s.jobs) < |s.jobs| ==> Awake(s))
  }

  function Submissions(n: nat): multiset<nat> {
    if n == 0 then multiset{} else Submissions(n - 1) + multiset{n - 1}
  }

  ghost predicate Accounts(s: State) {
    var open := Bag(s.jobs) + Tally(s.threads, Work);
    && Submissions(s.log.calls) == s.log.refused + s.log.ran + s.log.aborted + open
    && s.log.refs == open
  }

  /** In every group, jobs begin in the order of their acceptance. */
  ghost predicate InOrder(s: State) {
    s.log.aborted == multiset{} ==>
      forall g :: Of(s.log.accepted, g) == Of(s.log.begun, g) + Of(s.jobs, g)
  }

  ghost predicate Inv(s: State, allowed: nat, waiters: int) {
    && Groups(s)
    && Counts(s, allowed, waiters)
    && Accounts(s)
    && InOrder(s)
    && (!s.stopping && allowed > 0 ==> WakeUps(s))
  }

  // ----- changes of threads that neither begin, end nor join anything

  ghost predicate SameWork(ts: seq<Thread>, us: seq<Thread>) {
    |ts| == |us| && forall i :: 0 <= i < |ts| ==>
      && (ts[i].pc.Working? || us[i].pc.Working? ==> ts[i].pc == us[i].pc)
      && (ts[i].pc == Joined <==> us[i].pc == Joined)
  }

  lemma SameWorkKeeps(s: State, ts: seq<Thread>)
    requires SameWork(s.threads, ts)
    ensures Tally(ts, Work) == Tally(s.threads, Work)
    ensures Tally(ts, Live) == Tally(s.threads, Live)
    ensures Backed(s.jobs, s.threads) ==> Backed(s.jobs, ts)
  {
    TallySame(ts, s.threads, Work);
    TallySame(ts, s.threads, Live);
    if Backed(s.jobs, s.threads) {
      forall i | 0 <= i < |s.jobs| && s.jobs[i].blocked && First(s.jobs, s.jobs[i].group) == i
        ensures Busy(ts, s.jobs[i].group)
      {
        var t :| 0 <= t < |s.threads| && s.threads[t].pc.Working? && s.threads[t].pc.job.group == s.jobs[i].group;
        assert ts[t].pc == s.threads[t].pc;
      }
    }
  }

  /** One thread moves; `f` is one of the two tallies. */
  lemma Moves(ts: seq<Thread>, t: nat, pc: Pc, f: Thread -> multiset<nat>)
    requires t < |ts|
    ensures Tally(SetPc(ts, t, pc), f) + f(ts[t]) == Tally(ts, f) + f(ts[t].(pc := pc))
    ensures |Tally(SetPc(ts, t, pc), f)| + |f(ts[t])| == |Tally(ts, f)| + |f(ts[t].(pc := pc))|
  {
    TallyUpdate(ts, f, t, ts[t].(pc := pc));
  }

  /** The two head counts after one thread moves. */
  lemma Headcount(ts: seq<Thread>, t: nat, pc: Pc)
    requires t < |ts|
    ensures |Tally(SetPc(ts, t, pc), Work)| ==
            |Tally(ts, Work)| + (if pc.Working? then 1 else 0) - (if ts[t].pc.Working? then 1 else 0)
    ensures |Tally(SetPc(ts, t, pc), Live)| ==
            |Tally(ts, Live)| + (if pc == Joined then 0 else 1) - (if ts[t].pc == Joined then 0 else 1)
  {
    Moves(ts, t, pc, Work);
    Moves(ts, t, pc, Live);
  }

  lemma Assoc(a: seq<nat>, b: seq<nat>, c: seq<nat>)
    ensures (a + b) + c == a + (b + c)
  {
  }

  // ----- groups

  lemma BeginKeepsGroups(q: seq<Job>, ts: seq<Thread>, t: nat, k: nat)
    requires t < |ts| && k < |q| && First(q, q[k].group) == k
    requires Ordered(q) && Backed(q, ts) && !ts[t].pc.Working?
    ensures Ordered(Without(q, k))
    ensures Backed(Without(q, k), SetPc(ts, t, Working(q[k])))
  {
    var r, us := Without(q, k), SetPc(ts, t, Working(q[k]));
    OrderedWithout(q, k);
    forall i | 0 <= i < |r| && r[i].blocked && First(r, r[i].group) == i
      ensures Busy(us, r[i].group)
    {
      var g := r[i].group;
      if g == q[k].group {
        assert us[t].pc.job.group == g;
      } else {
        FirstWithout(q, k, i);
        assert r[i] == q[First(q, g)];
        var u :| 0 <= u < |ts| && ts[u].pc.Working? && ts[u].pc.job.group == g;
        assert us[u] == ts[u];
      }
    }
  }

  lemma UnblockKeepsGroups(q: seq<Job>, ts: seq<Thread>, t: nat)
    requires t < |ts| && ts[t].pc.Working?
    requires Ordered(q) && Backed(q, ts)
    ensures var g := ts[t].pc.job.group;
            var r := if g == NoGroup then q else Unblock(q, g);
            Ordered(r) && Backed(r, SetPc(ts, t, Ready))
  {
    var g := ts[t].pc.job.group;
    var r := if g == NoGroup then q else Unblock(q, g);
    var us := SetPc(ts, t, Ready);
    assert Ordered(r);
    forall i | 0 <= i < |r| && r[i].blocked && First(r, r[i].group) == i
      ensures Busy(us, r[i].group)
    {
      var h := r[i].group;
      FirstUnique(q, h, i);
      assert h != g;
      var u :| 0 <= u < |ts| && ts[u].pc.Working? && ts[u].pc.job.group == h;
      assert us[u] == ts[u];
    }
  }

  lemma EnterKeepsGroups(q: seq<Job>, ts: seq<Thread>, id: nat, g: Group)
    requires Ordered(q)
    ensures Ordered(q + [Enter(q, id, g)])
    ensures Backed(q, ts) ==> Backed(q + [Enter(q, id, g)], ts)
  {
    var j := Enter(q, id, g);
    var r := q + [j];
    if Backed(q, ts) {
      forall i | 0 <= i < |r| && r[i].blocked && First(r, r[i].group) == i
        ensures Busy(ts, r[i].group)
      {
        FirstAppend(q, j, i);
        assert r[i].group == g ==> First(q, g) == i;
        assert i < |q| && r[i] == q[i];
      }
    }
  }

  /** Wherever a worker finds only blocked jobs, some job runs: the "threads are
      blocked!" branch is not taken. */
  lemma NeverBlocked(s: State)
    requires Groups(s) && s.log.aborted == multiset{}
    requires s.running == |Tally(s.threads, Work)|
    ensures !Blocked(s)
  {
    if s.jobs != [] && FirstFree(s.jobs) == |s.jobs| {
      assert s.jobs[0].blocked;
      FirstUnique(s.jobs, s.jobs[0].group, 0);
      var t :| 0 <= t < |s.threads| && s.threads[t].pc.Working? && s.threads[t].pc.job.group == s.jobs[0].group;
      TallyMember(s.threads, Work, t);
      assert s.threads[t].pc.job.id in Tally(s.threads, Work);
    }
  }

  lemma LiveStarted(s: State, t: nat)
    requires s.started == |Tally(s.threads, Live)|
    requires t < |s.threads| && s.threads[t].pc != Joined
    ensures s.started > 0
  {
    TallyMember(s.threads, Live, t);
    assert 0 in Tally(s.threads, Live);
  }

  // ----- a worker takes a job

  /** The state after a worker found and took the job at FirstFree. */
  function Took(s: State, t: nat): State
    requires t < |s.threads| && FirstFree(s.jobs) < |s.jobs|
  {
    var k := FirstFree(s.jobs);
    Begin(s.(jobs := Without(s.jobs, k), remains := s.remains + 1), t, s.jobs[k])
  }

  lemma TookKeepsAccounts(s: State, t: nat)
    requires Accounts(s) && Is(s, t, Ready) && FirstFree(s.jobs) < |s.jobs|
    ensures Accounts(Took(s, t))
  {
    var k := FirstFree(s.jobs);
    var j := s.jobs[k];
    BagWithout(s.jobs, k);
    Moves(s.threads, t, Working(j), Work);
    assert Work(s.threads[t].(pc := Working(j))) == multiset{j.id};
    var w, w' := Tally(s.threads, Work), Tally(Took(s, t).threads, Work);
    assert w' == w + multiset{j.id};
    assert Bag(Without(s.jobs, k)) + (w + multiset{j.id}) == Bag(s.jobs) + w;
  }

  lemma TookKeepsOrder(s: State, t: nat)
    requires InOrder(s) && Ordered(s.jobs) && t < |s.threads| && FirstFree(s.jobs) < |s.jobs|
    ensures InOrder(Took(s, t))
  {
    var k := FirstFree(s.jobs);
    var j := s.jobs[k];
    FreeIsFirst(s.jobs);
    var u := Took(s, t);
    if s.log.aborted == multiset{} {
      forall g
        ensures Of(u.log.accepted, g) == Of(u.log.begun, g) + Of(u.jobs, g)
      {
        OfWithout(s.jobs, k, g);
        OfConcat(s.log.begun, [j], g);
        OfOne(j, g);
        Assoc(Of(s.log.begun, g), Of([j], g), Of(u.jobs, g));
      }
    }
  }

  lemma TookKeepsCounts(s: State, t: nat, allowed: nat, waiters: int)
    requires Counts(s, allowed, waiters) && Is(s, t, Ready) && FirstFree(s.jobs) < |s.jobs|
    ensures Counts(Took(s, t), allowed, waiters)
  {
    Headcount(s.threads, t, Working(s.jobs[FirstFree(s.jobs)]));
  }

  lemma TookKeepsGroups(s: State, t: nat)
    requires Groups(s) && Is(s, t, Ready) && FirstFree(s.jobs) < |s.jobs| && s.log.aborted == multiset{}
    ensures Groups(Took(s, t))
  {
    FreeIsFirst(s.jobs);
    BeginKeepsGroups(s.jobs, s.threads, t, FirstFree(s.jobs));
  }

  lemma TookKeeps(s: State, t: nat, allowed: nat, waiters: int)
    requires Inv(s, allowed, waiters) && Is(s, t, Ready) && FirstFree(s.jobs) < |s.jobs|
    ensures Inv(Took(s, t), allowed, waiters)
  {
    LiveStarted(s, t);
    TookKeepsGroups(s, t);
    TookKeepsCounts(s, t, allowed, waiters);
    TookKeepsAccounts(s, t);
    TookKeepsOrder(s, t);
    assert Took(s, t).threads[t].pc != Waiting;
  }

  /** A thread that neither works nor joins: to Ready, Waiting or Ended. */
  lemma IdleKeeps(s: State, t: nat, pc: Pc, allowed: nat, waiters: int)
    requires Inv(s, allowed, waiters)
    requires t < |s.threads| && !s.threads[t].pc.Working? && s.threads[t].pc != Joined
    requires pc == Ready || (pc == Waiting && FirstFree(s.jobs) == |s.jobs|) || (pc == Ended && s.threads[t].stop)
    ensures Inv(s.(threads := SetPc(s.threads, t, pc)), allowed, waiters)
  {
    var ts := SetPc(s.threads, t, pc);
    SameWorkKeeps(s, ts);
    if pc == Ready {
      assert ts[t].pc != Waiting;
    }
  }

  lemma HeadKeeps(s: State, t: nat, allowed: nat, waiters: int)
    requires Inv(s, allowed, waiters) && Is(s, t, Ready)
    ensures Inv(Head(s, t), allowed, waiters)
  {
    LiveStarted(s, t);
    NeverBlocked(s);
    if s.threads[t].stop {
      IdleKeeps(s, t, Ended, allowed, waiters);
    } else if FirstFree(s.jobs) == |s.jobs| {
      IdleKeeps(s, t, Waiting, allowed, waiters);
    } else {
      TookKeeps(s, t, allowed, waiters);
    }
  }

  lemma Exchange(b: multiset<nat>, w: multiset<nat>, w': multiset<nat>, x: multiset<nat>)
    requires w == w' + x
    ensures b + w == (b + w') + x && (b + w) - x == b + w'
  {
  }

  lemma Regroup(a: multiset<nat>, b: multiset<nat>, c: multiset<nat>, d: multiset<nat>, x: multiset<nat>)
    ensures a + b + c + (d + x) == a + (b + x) + c + d
    ensures a + b + c + (d + x) == a + b + (c + x) + d
    ensures a + b + c + (d + x) == a + b + c + d + x
    ensures a + b + c + d + x == (a + x) + b + c + d
  {
  }

  lemma ReleaseKeepsAccounts(s: State, t: nat)
    requires Accounts(s) && t < |s.threads| && s.threads[t].pc.Working?
    ensures Accounts(Release(s, t))
  {
    var j := s.threads[t].pc.job;
    var u := Release(s, t);
    OfSame(s.jobs, u.jobs, NoGroup);
    Moves(s.threads, t, Ready, Work);
    var w, w', b, x := Tally(s.threads, Work), Tally(u.threads, Work), Bag(s.jobs), multiset{j.id};
    assert w == w' + x;
    Exchange(b, w, w', x);
    var l := s.log;
    Regroup(l.refused, l.ran, l.aborted, b + w', x);
  }

  lemma ReleaseKeepsCounts(s: State, t: nat, allowed: nat, waiters: int)
    requires Counts(s, allowed, waiters) && t < |s.threads| && s.threads[t].pc.Working?
    ensures Counts(Release(s, t), allowed, waiters)
  {
    Headcount(s.threads, t, Ready);
  }

  lemma ReleaseKeepsOrder(s: State, t: nat)
    requires InOrder(s) && t < |s.threads| && s.threads[t].pc.Working?
    ensures InOrder(Release(s, t))
  {
    var u := Release(s, t);
    forall g
      ensures Of(u.jobs, g) == Of(s.jobs, g)
    {
      OfSame(s.jobs, u.jobs, g);
    }
  }

  lemma ReleaseKeeps(s: State, t: nat, allowed: nat, waiters: int)
    requires Inv(s, allowed, waiters) && t < |s.threads| && s.threads[t].pc.Working?
    ensures Inv(Release(s, t), allowed, waiters)
  {
    LiveStarted(s, t);
    UnblockKeepsGroups(s.jobs, s.threads, t);
    ReleaseKeepsCounts(s, t, allowed, waiters);
    ReleaseKeepsAccounts(s, t);
    ReleaseKeepsOrder(s, t);
    assert Release(s, t).threads[t].pc != Waiting;
  }

  // ----- submissions

  lemma SpawnKeepsBacked(s: State)
    requires Backed(s.jobs, s.threads)
    ensures Backed(s.jobs, Spawn(s).threads)
  {
    var u := Spawn(s);
    forall g | Busy(s.threads, g)
      ensures Busy(u.threads, g)
    {
      var t :| 0 <= t < |s.threads| && s.threads[t].pc.Working? && s.threads[t].pc.job.group == g;
      assert u.threads[t] == s.threads[t];
    }
  }

  lemma SpawnTallies(ts: seq<Thread>)
    ensures Tally(ts + [Thread(Ready, false)], Work) == Tally(ts, Work)
    ensures |Tally(ts + [Thread(Ready, false)], Live)| == |Tally(ts, Live)| + 1
  {
    assert (ts + [Thread(Ready, false)])[..|ts|] == ts;
  }

  lemma SpawnKeeps(s: State, allowed: nat, waiters: int)
    requires Inv(s, allowed, waiters) && !s.stopping && Spawns(s)
    ensures Inv(Spawn(s), allowed, waiters)
  {
    SpawnKeepsBacked(s);
    SpawnTallies(s.threads);
    assert Spawn(s).threads[|s.threads|].pc != Waiting;
  }

  lemma RefuseKeepsAccounts(s: State)
    requires Accounts(s)
    ensures Accounts(Refuse(s))
  {
    var l, open := s.log, Bag(s.jobs) + Tally(s.threads, Work);
    Regroup(l.refused, l.ran, l.aborted, open, multiset{l.calls});
    assert Submissions(l.calls + 1) == Submissions(l.calls) + multiset{l.calls};
  }

  lemma RefuseKeeps(s: State, allowed: nat, waiters: int)
    requires Inv(s, allowed, waiters) && !s.stopping
    ensures Inv(Refuse(s), allowed, waiters)
  {
    RefuseKeepsAccounts(s);
  }

  lemma EnqueueKeepsAccounts(s: State, g: Group)
    requires Accounts(s)
    ensures Accounts(Enqueue(s, g))
  {
    var j := Enter(s.jobs, s.log.calls, g);
    BagConcat(s.jobs, [j]);
    OfOne(j, g);
    var l, w, b, x := s.log, Tally(s.threads, Work), Bag(s.jobs), multiset{j.id};
    assert (b + x) + w == (b + w) + x;
    Regroup(l.refused, l.ran, l.aborted, b + w, x);
  }

  lemma EnqueueKeepsOrder(s: State, g: Group)
    requires InOrder(s)
    ensures InOrder(Enqueue(s, g))
  {
    var u := Enqueue(s, g);
    var j := Enter(s.jobs, s.log.calls, g);
    if s.log.aborted == multiset{} {
      forall h
        ensures Of(u.log.accepted, h) == Of(u.log.begun, h) + Of(u.jobs, h)
      {
        OfConcat(s.jobs, [j], h);
        OfConcat(s.log.accepted, [j], h);
        Assoc(Of(s.log.begun, h), Of(s.jobs, h), Of([j], h));
      }
    }
  }

  lemma EnqueueKeeps(s: State, g: Group, allowed: nat, waiters: int)
    requires Inv(s, allowed, waiters) && !s.stopping
    requires allowed > 0 ==> s.threads != []
    ensures Inv(Enqueue(s, g), allowed, waiters)
  {
    EnterKeepsGroups(s.jobs, s.threads, s.log.calls, g);
    EnqueueKeepsAccounts(s, g);
    EnqueueKeepsOrder(s, g);
  }

  lemma NobodyToServe(s: State)
    requires s.threads == [] && s.running == |Tally(s.threads, Work)| && s.started == |s.threads|
    requires s.allowed > 0
    ensures Spawns(s)
  {
    assert Tally(s.threads, Work) == multiset{};
  }

  lemma SubmitKeeps(s: State, g: Group, spawns: bool, allowed: nat, waiters: int)
    requires Inv(s, allowed, waiters) && !s.stopping
    ensures Inv(Submit(s, g, spawns), allowed, waiters)
  {
    if s.remains == 0 || (Spawns(s) && !spawns && s.started == 0) {
      RefuseKeeps(s, allowed, waiters);
    } else if Spawns(s) && spawns {
      SpawnKeeps(s, allowed, waiters);
      EnqueueKeeps(Spawn(s), g, allowed, waiters);
    } else {
      if s.threads == [] && allowed > 0 {
        NobodyToServe(s);
      }
      EnqueueKeeps(s, g, allowed, waiters);
    }
  }

  // ----- termination

  lemma TerminateKeeps(s: State, allowed: nat, waiters: int)
    requires Inv(s, allowed, waiters) && Enabled(s, Terminate)
    ensures Inv(Do(s, Terminate), allowed, waiters)
  {
    SameWorkKeeps(s, Do(s, Terminate).threads);
  }

  lemma BroadcastKeeps(s: State, allowed: nat, waiters: int)
    requires Inv(s, allowed, waiters) && Enabled(s, Broadcast)
    ensures Inv(Do(s, Broadcast), allowed, waiters)
  {
    SameWorkKeeps(s, Do(s, Broadcast).threads);
  }

  lemma JoinKeepsBacked(s: State, t: nat)
    requires Backed(s.jobs, s.threads) && Is(s, t, Ended)
    ensures Backed(s.jobs, SetPc(s.threads, t, Joined))
  {
    var ts := SetPc(s.threads, t, Joined);
    forall g | Busy(s.threads, g)
      ensures Busy(ts, g)
    {
      var k :| 0 <= k < |s.threads| && s.threads[k].pc.Working? && s.threads[k].pc.job.group == g;
      assert ts[k] == s.threads[k];
    }
  }

  lemma JoinKeepsCounts(s: State, t: nat, allowed: nat, waiters: int)
    requires Counts(s, allowed, waiters) && s.stopping && Is(s, t, Ended) && s.log.aborted == multiset{}
    ensures Counts(s.(started := s.started - 1, threads := SetPc(s.threads, t, Joined)), allowed, waiters)
  {
    Headcount(s.threads, t, Joined);
  }

  lemma JoinKeepsWork(ts: seq<Thread>, t: nat)
    requires t < |ts| && ts[t].pc == Ended
    ensures Tally(SetPc(ts, t, Joined), Work) == Tally(ts, Work)
  {
    Moves(ts, t, Joined, Work);
  }

  lemma JoinKeeps(s: State, t: nat, allowed: nat, waiters: int)
    requires Inv(s, allowed, waiters) && Enabled(s, Join(t))
    ensures Inv(Do(s, Join(t)), allowed, waiters)
  {
    LiveStarted(s, t);
    JoinKeepsBacked(s, t);
    JoinKeepsCounts(s, t, allowed, waiters);
    JoinKeepsWork(s.threads, t);
  }

  lemma AbortKeepsAccounts(s: State)
    requires Accounts(s) && Enabled(s, Abort)
    ensures Accounts(Do(s, Abort))
  {
    var l, x, w, b' := s.log, multiset{s.jobs[0].id}, Tally(s.threads, Work), Bag(s.jobs[1..]);
    BagWithout(s.jobs, 0);
    assert Without(s.jobs, 0) == s.jobs[1..];
    Exchange(w, Bag(s.jobs), b', x);
    assert w + b' == b' + w;
    Regroup(l.refused, l.ran, l.aborted, b' + w, x);
  }

  lemma AbortKeeps(s: State, allowed: nat, waiters: int)
    requires Inv(s, allowed, waiters) && Enabled(s, Abort)
    ensures Inv(Do(s, Abort), allowed, waiters)
  {
    OrderedWithout(s.jobs, 0);
    assert Without(s.jobs, 0) == s.jobs[1..];
    AbortKeepsAccounts(s);
    assert s.jobs[0].id in Do(s, Abort).log.aborted;
  }

  lemma SignalKeeps(s: State, a: Action, allowed: nat, waiters: int)
    requires Inv(s, allowed, waiters) && Enabled(s, a) && (a.Signal? || a.SignalNobody?)
    ensures Inv(Do(s, a), allowed, waiters)
  {
    if a.Signal? {
      IdleKeeps(s, a.woken, Ready, allowed, waiters);
      assert Do(s, a).threads[a.woken].pc != Waiting;
    } else if s.threads != [] {
      assert s.threads[0].pc != Waiting;
    }
  }

  lemma StepKeeps(s: State, a: Action, allowed: nat, waiters: int)
    requires Inv(s, allowed, waiters) && Enabled(s, a)
    ensures Inv(Do(s, a), allowed, waiters)
  {
    match a
    case Call(g, spawns) => SubmitKeeps(s, g, spawns, allowed, waiters);
    case Signal(_) => SignalKeeps(s, a, allowed, waiters);
    case SignalNobody => SignalKeeps(s, a, allowed, waiters);
    case Spurious(t) => IdleKeeps(s, t, Ready, allowed, waiters);
    case Loop(t) => HeadKeeps(s, t, allowed, waiters);
    case Finish(t) =>
      ReleaseKeeps(s, t, allowed, waiters);
      HeadKeeps(Release(s, t), t, allowed, waiters);
    case Terminate => TerminateKeeps(s, allowed, waiters);
    case Broadcast => BroadcastKeeps(s, allowed, waiters);
    case Join(t) => JoinKeeps(s, t, allowed, waiters);
    case Abort => AbortKeeps(s, allowed, waiters);
  }

  lemma InitHolds(allowed: nat, up: nat, waiters: int)
    requires up <= allowed
    ensures Inv(Init(allowed, up, waiters), allowed, waiters)
  {
    var s := Init(allowed, up, waiters);
    TallyEmpty(s.threads, Work);
    TallyLive(s.threads);
  }

  /** The invariant holds after every run, whatever the interleaving. */
  lemma {:induction false} RunKeeps(allowed: nat, up: nat, waiters: int, run: seq<Action>)
    requires up <= allowed
    ensures var r := Exec(Init(allowed, up, waiters), run);
            r.At? ==> Inv(r.state, allowed, waiters)
  {
    if run == [] {
      InitHolds(allowed, up, waiters);
    } else {
      var prev := run[..|run| - 1];
      RunKeeps(allowed, up, waiters, prev);
      var r := Exec(Init(allowed, up, waiters), prev);
      if r.At? && Enabled(r.state, run[|run| - 1]) {
        StepKeeps(r.state, run[|run| - 1], allowed, waiters);
      }
    }
  }
}
