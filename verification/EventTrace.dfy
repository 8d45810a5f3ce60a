/** What the listeners of a hub see, over every run of operations. */
module EventTrace {
  import opened EventHub
  import opened EventOps

  type Pair = (Ref, Ref)

  /** The listener's interface has both callbacks and its watch is active. */
  predicate Hot(h: Hub, w: Ref) {
    && w in h.wat && h.wat[w].activity != 0
    && h.wat[w].listener in h.lst && Full(h.lst[h.wat[w].listener].itf)
  }

  function PairOf(w: Watch): Pair {
    (w.listener, w.event)
  }

  /** The pairs (listener, event) with an active watch. */
  function Active(h: Hub): set<Pair> {
    set w | w in h.wat && Hot(h, w) :: PairOf(h.wat[w])
  }

  datatype View = Broken | Open(pairs: set<Pair>)

  /** What an observer concludes from one callback: an event may only be added
      when it is not open, and removed or pushed only when it is. */
  function See(pairs: set<Pair>, c: Callback): View {
    var p := (c.listener, c.event);
    if !c.full then Open(pairs)
    else match c.kind
      case Added => if p in pairs then Broken else Open(pairs + {p})
      case Removed => if p in pairs then Open(pairs - {p}) else Broken
      case Pushed => if p in pairs then Open(pairs) else Broken
  }

  function Replay(pairs: set<Pair>, cs: seq<Callback>): View
    decreases |cs|
  {
    if cs == [] then Open(pairs)
    else
      var v := See(pairs, cs[0]);
      if v.Broken? then Broken else Replay(v.pairs, cs[1..])
  }

  lemma {:induction false} ReplayConcat(pairs: set<Pair>, a: seq<Callback>, b: seq<Callback>)
    ensures var v := Replay(pairs, a);
            Replay(pairs, a + b) == if v.Broken? then Broken else Replay(v.pairs, b)
    decreases |a|
  {
    if a == [] {
      assert a + b == b;
    } else {
      assert (a + b)[1..] == a[1..] + b;
      var v := See(pairs, a[0]);
      if v.Open? {
        ReplayConcat(v.pairs, a[1..], b);
      }
    }
  }

  // ----- each operation

  lemma ActiveHas(h: Hub, w: Ref)
    ensures Hot(h, w) ==> PairOf(h.wat[w]) in Active(h)
  {
  }

  lemma ActiveOnly(h: Hub, w: Ref)
    requires OnePerPair(h.wat) && w in h.wat && !Hot(h, w)
    ensures PairOf(h.wat[w]) !in Active(h)
  {
  }

  lemma UnlinkActive(h: Hub, w: Ref)
    requires Wired(h) && w in h.wat
    ensures Known(h, w) && Active(Unlink(h, w)) == Active(h) - {PairOf(h.wat[w])}
  {
    var u := Unlink(h, w);
    forall p
      ensures p in Active(u) <==> p in Active(h) && p != PairOf(h.wat[w])
    {
      if p in Active(u) {
        var v :| v in u.wat && Hot(u, v) && PairOf(u.wat[v]) == p;
        assert Hot(h, v);
        assert v != w;
      }
      if p in Active(h) && p != PairOf(h.wat[w]) {
        var v :| v in h.wat && Hot(h, v) && PairOf(h.wat[v]) == p;
        assert Hot(u, v);
      }
    }
  }

  lemma UnlinkReplay(h: Hub, w: Ref)
    requires Wired(h) && w in h.wat
    ensures Known(h, w) && Replay(Active(h), UnlinkCalls(h, w)) == Open(Active(Unlink(h, w)))
  {
    UnlinkActive(h, w);
    ActiveHas(h, w);
    if !Hot(h, w) {
      ActiveOnly(h, w);
    }
  }

  lemma {:induction false} UnlinkAllReplay(h: Hub, ws: seq<Ref>)
    requires Removable(h, ws)
    ensures Replay(Active(h), UnlinkAllCalls(h, ws)) == Open(Active(UnlinkAll(h, ws)))
    decreases |ws|
  {
    if ws != [] {
      UnlinkFirst(h, ws);
      UnlinkReplay(h, ws[0]);
      var u := Unlink(h, ws[0]);
      UnlinkAllReplay(u, ws[1..]);
      ReplayConcat(Active(h), UnlinkCalls(h, ws[0]), UnlinkAllCalls(u, ws[1..]));
    }
  }

  lemma {:induction false} PushReplay(h: Hub, ws: seq<Ref>)
    requires Wired(h) && forall w :: w in ws ==> w in h.wat
    ensures Replay(Active(h), PushCalls(h, ws)) == Open(Active(h))
  {
    if ws != [] {
      var w := ws[0];
      assert w in ws;
      PushReplay(h, ws[1..]);
      ActiveHas(h, w);
      if h.wat[w].activity != 0 {
        var c := Call(h, Pushed, h.wat[w].listener, h.wat[w].event);
        assert PushCalls(h, ws) == [c] + PushCalls(h, ws[1..]);
        ReplayConcat(Active(h), [c], PushCalls(h, ws[1..]));
      } else {
        assert PushCalls(h, ws) == PushCalls(h, ws[1..]);
      }
    }
  }

  /** The active pairs when one watch gets a new activity. */
  lemma ActivityActive(h: Hub, w: Ref, activity: nat)
    requires Wired(h) && w in h.wat
    ensures var p := PairOf(h.wat[w]);
            Active(Activity(h, w, activity)) ==
              if activity != 0 && Full(h.lst[h.wat[w].listener].itf) then Active(h) + {p} else Active(h) - {p}
  {
    var u := Activity(h, w, activity);
    var p := PairOf(h.wat[w]);
    forall q | q != p
      ensures q in Active(u) <==> q in Active(h)
    {
      if q in Active(u) {
        var v :| v in u.wat && Hot(u, v) && PairOf(u.wat[v]) == q;
        assert Hot(h, v);
      }
      if q in Active(h) {
        var v :| v in h.wat && Hot(h, v) && PairOf(h.wat[v]) == q;
        assert Hot(u, v);
      }
    }
    ActiveHas(u, w);
    PairUpdate(h.wat, w, activity);
    if !Hot(u, w) {
      ActiveOnly(u, w);
    }
  }

  lemma NewWatchActive(h: Hub, l: Ref, e: Ref)
    requires Wired(h) && l in h.lst && e in h.evt && !Watches(h, l, e)
    ensures Active(NewWatch(h, l, e)) == Active(h) + (if Full(h.lst[l].itf) then {(l, e)} else {})
    ensures (l, e) !in Active(h)
  {
    var u := NewWatch(h, l, e);
    forall q | q in Active(u)
      ensures q in Active(h) || (q == (l, e) && Full(h.lst[l].itf))
    {
      var v :| v in u.wat && Hot(u, v) && PairOf(u.wat[v]) == q;
      NewWatchHot(h, l, e, v);
    }
    forall q | q in Active(h)
      ensures q in Active(u)
    {
      var v :| v in h.wat && Hot(h, v) && PairOf(h.wat[v]) == q;
      NewWatchHot(h, l, e, v);
    }
    NewWatchHot(h, l, e, h.next);
    ActiveHas(u, h.next);
  }

  /** The watches that are active with a new one. */
  lemma NewWatchHot(h: Hub, l: Ref, e: Ref, v: Ref)
    requires Wired(h) && l in h.lst && e in h.evt && !Watches(h, l, e)
    ensures var u := NewWatch(h, l, e);
            && (v in u.wat <==> v in h.wat || v == h.next)
            && (v in h.wat ==> v != h.next && u.wat[v] == h.wat[v] && Hot(u, v) == Hot(h, v))
            && (v == h.next ==> u.wat[v] == Watch(e, l, 1) && Hot(u, v) == Full(h.lst[l].itf))
  {
  }

  /** A change of the hub that touches no watch and no interface of a watching listener. */
  lemma SameActive(h: Hub, u: Hub)
    requires u.wat == h.wat
    requires forall w :: w in h.wat ==> h.wat[w].listener in h.lst && h.wat[w].listener in u.lst
    requires forall w :: w in h.wat ==> u.lst[h.wat[w].listener].itf == h.lst[h.wat[w].listener].itf
    ensures Active(u) == Active(h)
  {
    assert forall w :: w in h.wat ==> Hot(h, w) == Hot(u, w);
  }

  lemma AddReplay(h: Hub, l: Ref, e: Ref)
    requires Wired(h) && l in h.lst && e in h.evt
    ensures Replay(Active(h), AddCalls(h, l, e)) == Open(Active(AfterAdd(h, l, e)))
  {
    if !h.lst[l].itf.push {
      assert AfterAdd(h, l, e) == h && AddCalls(h, l, e) == [];
    } else if WatchOf(h, l, e).Absent? {
      AddNewReplay(h, l, e);
    } else {
      AddMoreReplay(h, l, e, WatchOf(h, l, e).w);
    }
  }

  lemma AddNewReplay(h: Hub, l: Ref, e: Ref)
    requires Wired(h) && l in h.lst && e in h.evt && h.lst[l].itf.push && WatchOf(h, l, e) == Absent
    ensures Replay(Active(h), AddCalls(h, l, e)) == Open(Active(AfterAdd(h, l, e)))
  {
    assert AfterAdd(h, l, e) == NewWatch(h, l, e);
    NewWatchActive(h, l, e);
  }

  lemma AddMoreReplay(h: Hub, l: Ref, e: Ref, w: Ref)
    requires Wired(h) && l in h.lst && e in h.evt && h.lst[l].itf.push && WatchOf(h, l, e) == Present(w)
    ensures Replay(Active(h), AddCalls(h, l, e)) == Open(Active(AfterAdd(h, l, e)))
  {
    assert AfterAdd(h, l, e) == Activity(h, w, h.wat[w].activity + 1);
    ActivityActive(h, w, h.wat[w].activity + 1);
    ActiveHas(h, w);
    if !Hot(h, w) {
      ActiveOnly(h, w);
    }
  }

  lemma RemoveReplay(h: Hub, l: Ref, e: Ref)
    requires Wired(h) && l in h.lst && e in h.evt
    ensures Replay(Active(h), RemoveCalls(h, l, e)) == Open(Active(AfterRemove(h, l, e)))
  {
    var r := WatchOf(h, l, e);
    if r.Present? && h.wat[r.w].activity != 0 {
      var activity: nat := h.wat[r.w].activity - 1;
      assert AfterRemove(h, l, e) == Activity(h, r.w, activity);
      ActivityActive(h, r.w, activity);
      ActiveHas(h, r.w);
      if !Hot(h, r.w) {
        ActiveOnly(h, r.w);
      }
    }
  }

  lemma DestroyReplay(h: Hub, e: Ref)
    requires Wired(h) && e in h.evt
    ensures Replay(Active(h), UnlinkAllCalls(h, h.byEvent[e])) == Open(Active(Without(h, e)))
  {
    UnlinkAllReplay(h, h.byEvent[e]);
    SameActive(UnlinkAll(h, h.byEvent[e]), Without(h, e));
  }

  lemma UnrefReplay(h: Hub, l: Ref)
    requires Wired(h) && l in h.lst
    ensures Replay(Active(h), UnlinkAllCalls(h, h.byListener[l])) == Open(Active(WithoutListener(h, l)))
  {
    UnlinkAllReplay(h, h.byListener[l]);
    UnlinkAllWatches(h, h.byListener[l]);
    SameActive(UnlinkAll(h, h.byListener[l]), WithoutListener(h, l));
  }

  lemma ListenerReplay(h: Hub, itf: Itf, closure: nat)
    requires Wired(h) && Chains(h)
    ensures Active(AfterListener(h, itf, closure)) == Active(h)
  {
    var k := FindListener(h.lst, h.listeners, itf, closure);
    if k < |h.listeners| {
      assert h.listeners[k] in h.listeners;
      RefcountReplay(h, h.listeners[k], 1);
    } else {
      SameActive(h, NewListener(h, itf, closure));
    }
  }

  lemma RefcountReplay(h: Hub, l: Ref, delta: int)
    requires Wired(h) && l in h.lst
    ensures Active(Refcount(h, l, delta)) == Active(h)
  {
    SameActive(h, Refcount(h, l, delta));
  }

  /** Replaying the callbacks of an operation on the active pairs before it gives
      exactly the active pairs after it. */
  lemma StepReplay(h: Hub, op: Op)
    requires Valid(h) && Enabled(h, op)
    ensures Replay(Active(h), Calls(h, op)) == Open(Active(After(h, op)))
  {
    match op
    case CreateEvent(name, id, wraps) => SameActive(h, NewEvent(h, name, id, wraps));
    case DestroyEvent(e) => if e in h.events { DestroyReplay(h, e); }
    case Push(e) => PushReplay(h, h.byEvent[e]);
    case CreateListener(itf, closure) => ListenerReplay(h, itf, closure);
    case Addref(l) => RefcountReplay(h, l, 1);
    case Unref(l) => if h.lst[l].refcount == 1 { UnrefReplay(h, l); } else { RefcountReplay(h, l, -1); }
    case AddWatch(l, e) => AddReplay(h, l, e);
    case RemoveWatch(l, e) => RemoveReplay(h, l, e);
  }

  // ----- runs

  /** A hub with all callbacks it made so far, or nothing if some operation was
      called on a dead handle. */
  datatype Run = Illegal | Run(hub: Hub, trace: seq<Callback>)

  ghost function Exec(ops: seq<Op>): (r: Run)
    ensures r.Run? ==> Valid(r.hub)
  {
    if ops == [] then Run(Empty(), [])
    else
      var r, op := Exec(ops[..|ops| - 1]), ops[|ops| - 1];
      if r.Run? && Enabled(r.hub, op) then
        StepKeeps(r.hub, op);
        Run(After(r.hub, op), r.trace + Calls(r.hub, op))
      else Illegal
  }

  /** Over any run on live handles the callbacks of every listener with both
      callbacks are consistent from the start, and leave open exactly what is
      actively watched. */
  lemma {:induction false} TraceTellsActive(ops: seq<Op>)
    ensures var r := Exec(ops);
            r.Run? ==> Replay({}, r.trace) == Open(Active(r.hub))
  {
    if ops != [] {
      var prev, op := ops[..|ops| - 1], ops[|ops| - 1];
      TraceTellsActive(prev);
      var r := Exec(prev);
      if r.Run? && Enabled(r.hub, op) {
        StepReplay(r.hub, op);
        ReplayConcat({}, r.trace, Calls(r.hub, op));
      }
    }
  }

  /** The additions (true) and removals (false) one listener saw of one event. */
  function Hooks(cs: seq<Callback>, l: Ref, e: Ref): seq<bool> {
    if cs == [] then []
    else
      var c := cs[|cs| - 1];
      Hooks(cs[..|cs| - 1], l, e) +
      if c.full && c.listener == l && c.event == e && c.kind != Pushed then [c.kind == Added] else []
  }

  lemma {:induction false} HooksAlternate(cs: seq<Callback>, l: Ref, e: Ref)
    requires Replay({}, cs).Open?
    ensures var b := Hooks(cs, l, e);
            && (forall i :: 0 <= i < |b| ==> b[i] == (i % 2 == 0))
            && ((l, e) in Replay({}, cs).pairs <==> |b| % 2 == 1)
  {
    if cs != [] {
      var prev, c := cs[..|cs| - 1], cs[|cs| - 1];
      assert cs == prev + [c];
      ReplayConcat({}, prev, [c]);
      HooksAlternate(prev, l, e);
      assert Replay(Replay({}, prev).pairs, [c]) == See(Replay({}, prev).pairs, c);
    }
  }

  /** Additions and removals strictly alternate for each listener and event,
      beginning with an addition; the last one is an addition exactly when the
      listener actively watches the event. */
  lemma CallbacksAlternate(ops: seq<Op>, l: Ref, e: Ref)
    ensures var r := Exec(ops);
            r.Run? ==>
              var b := Hooks(r.trace, l, e);
              && (forall i :: 0 <= i < |b| ==> b[i] == (i % 2 == 0))
              && ((l, e) in Active(r.hub) <==> |b| % 2 == 1)
  {
    TraceTellsActive(ops);
    var r := Exec(ops);
    if r.Run? {
      HooksAlternate(r.trace, l, e);
    }
  }

  ghost predicate OnlyIn(lists: Lists, owner: Watch -> Ref, wat: map<Ref, Watch>) {
    forall x, w :: x in lists ==> (w in lists[x] <==> w in wat && owner(wat[w]) == x)
  }

  lemma LinkedOnlyIn(lists: Lists, owner: Watch -> Ref, wat: map<Ref, Watch>)
    requires Linked(lists, owner, wat)
    ensures OnlyIn(lists, owner, wat)
  {
  }

  /** In every reachable hub each watch is in the list of its event and in that of
      its listener, once, and in no other; there is one per pair at most; and
      live events have distinct identifiers. */
  lemma WatchesLinkedOnce(ops: seq<Op>)
    ensures var r := Exec(ops);
            r.Run? ==>
              var h := r.hub;
              && OnlyIn(h.byEvent, EventOf, h.wat) && OnlyIn(h.byListener, ListenerOf, h.wat)
              && (forall e :: e in h.byEvent ==> NoDup(h.byEvent[e]))
              && (forall l :: l in h.byListener ==> NoDup(h.byListener[l]))
              && OnePerPair(h.wat)
              && (forall d, e :: d in h.evt && e in h.evt && h.evt[d].id == h.evt[e].id ==> d == e)
  {
    var r := Exec(ops);
    if r.Run? {
      var h := r.hub;
      LinkedOnlyIn(h.byEvent, EventOf, h.wat);
      LinkedOnlyIn(h.byListener, ListenerOf, h.wat);
    }
  }

  // ----- what a push counts

  /** In every reachable hub the count that a push gives is that of the watches of the
      event; it is that of the listeners reached if and only if all these are active. */
  lemma PushCounts(ops: seq<Op>, e: Ref)
    ensures var r := Exec(ops);
            r.Run? && Enabled(r.hub, Push(e)) ==>
              && e in r.hub.byEvent
              && (forall w :: w in r.hub.byEvent[e] ==> w in r.hub.wat)
              && (|Calls(r.hub, Push(e))| == |r.hub.byEvent[e]| <==>
                    forall w :: w in r.hub.byEvent[e] ==> r.hub.wat[w].activity != 0)
  {
    var r := Exec(ops);
    if r.Run? && Enabled(r.hub, Push(e)) {
      PushOn(r.hub, e);
    }
  }

  lemma PushOn(h: Hub, e: Ref)
    requires Valid(h) && Enabled(h, Push(e))
    ensures e in h.byEvent && forall w :: w in h.byEvent[e] ==> w in h.wat
    ensures |Calls(h, Push(e))| == |h.byEvent[e]| <==> forall w :: w in h.byEvent[e] ==> h.wat[w].activity != 0
  {
    PushReaches(h, h.byEvent[e]);
  }

  lemma ExecMore(ops: seq<Op>, op: Op, h: Hub, trace: seq<Callback>, u: Hub, cs: seq<Callback>)
    requires Exec(ops) == Run(h, trace) && Enabled(h, op) && u == After(h, op) && cs == Calls(h, op)
    ensures Exec(ops + [op]) == Run(u, trace + cs)
  {
    assert (ops + [op])[..|ops|] == ops && (ops + [op])[|ops|] == op;
  }

  const TESTER := Itf(0, true, true, true)
  const WITNESS: seq<Op> :=
    ([CreateEvent("e", 1, false)] + [CreateListener(TESTER, 0)]) + [AddWatch(1, 0)] + [RemoveWatch(1, 0)]

  /** One listener that watched the event once and no longer does: the push counts one
      watch and reaches nobody. */
  lemma PushMiscounts()
    ensures var r := Exec(WITNESS);
            r.Run? && Enabled(r.hub, Push(0)) && 0 in r.hub.byEvent
            && |r.hub.byEvent[0]| == 1 && Calls(r.hub, Push(0)) == []
  {
    var h2 := TwoMade();
    var trace: seq<Callback> := [] + [];
    var h3 := NewWatch(h2, 1, 0);
    FirstWatch(h2);
    ExecMore([CreateEvent("e", 1, false)] + [CreateListener(TESTER, 0)], AddWatch(1, 0), h2, trace, h3,
        Calls(h2, AddWatch(1, 0)));
    LastWatch(h3);
    var h4 := Activity(h3, 2, 0);
    ExecMore(([CreateEvent("e", 1, false)] + [CreateListener(TESTER, 0)]) + [AddWatch(1, 0)], RemoveWatch(1, 0),
             h3, trace + Calls(h2, AddWatch(1, 0)), h4, Calls(h3, RemoveWatch(1, 0)));
    NobodyReached(h4);
  }

  function MadeHub(): Hub {
    NewListener(NewEvent(Empty(), "e", 1, false), TESTER, 0)
  }

  lemma TwoMade() returns (h: Hub)
    ensures h == MadeHub() && Exec([CreateEvent("e", 1, false)] + [CreateListener(TESTER, 0)]) == Run(h, [] + [])
    ensures 0 in h.evt && 1 in h.lst && h.lst[1].itf == TESTER && h.wat == map[] && h.next == 2
    ensures h.byEvent == map[0 := []] && h.byListener == map[1 := []]
  {
    h := MadeHub();
    var o1, o2 := CreateEvent("e", 1, false), CreateListener(TESTER, 0);
    var h1 := NewEvent(Empty(), "e", 1, false);
    assert Exec([]) == Run(Empty(), []);
    ExecMore([], o1, Empty(), [], h1, []);
    assert [] + [o1] == [o1];
    assert After(h1, o2) == h;
    ExecMore([o1], o2, h1, [] + [], h, []);
    var none: seq<Callback> := [];
    assert (none + none) + none == none + none;
  }

  lemma NobodyReached(h: Hub)
    requires Valid(h) && 0 in h.byEvent && h.byEvent[0] == [2] && 2 in h.wat && h.wat[2].activity == 0 && 0 in h.evt
    ensures Calls(h, Push(0)) == []
  {
    assert 2 in h.byEvent[0];
    PushReaches(h, [2]);
  }

  lemma FirstWatch(h: Hub)
    requires Valid(h) && h.wat == map[] && 1 in h.lst && h.lst[1].itf == TESTER && 0 in h.evt
    ensures After(h, AddWatch(1, 0)) == NewWatch(h, 1, 0)
  {
  }

  lemma LastWatch(h: Hub)
    requires Valid(h) && 1 in h.lst && 0 in h.evt && h.wat == map[2 := Watch(0, 1, 1)]
    ensures After(h, RemoveWatch(1, 0)) == Activity(h, 2, 0)
  {
    assert h.wat[2].listener == 1 && h.wat[2].event == 0;
    assert Watches(h, 1, 0);
  }
}
