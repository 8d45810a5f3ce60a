/** The operations of src/afb-evt.c on a hub, with the callbacks they make. */
module EventOps {
  import opened EventHub

  datatype Op =
    | CreateEvent(name: string, id: int, wraps: bool)   // `id`: the identifier allocated
    | DestroyEvent(e: Ref)
    | Push(e: Ref)
    | CreateListener(itf: Itf, closure: nat)
    | Addref(l: Ref)
    | Unref(l: Ref)
    | AddWatch(l: Ref, e: Ref)
    | RemoveWatch(l: Ref, e: Ref)

  // ----- allocation of identifiers

  function Succ(c: int): int {
    if c >= INT_MAX then FIRST_REUSED else c + 1
  }

  function Iter(c: int, k: nat): int {
    if k == 0 then c else Succ(Iter(c, k - 1))
  }

  function LiveIds(h: Hub): set<int> {
    set e | e in h.evt :: h.evt[e].id
  }

  /** `id` is what the allocation loop gives: before the counter ever wrapped, the
      next number; afterwards, the first free one in cyclic order. */
  ghost predicate Allocates(live: set<int>, counter: int, wrapped: bool, id: int, wraps: bool) {
    && wraps == (wrapped || counter >= INT_MAX)
    && (!wraps ==> id == counter + 1)
    && (wraps ==> id !in live && exists k: nat :: id == Iter(Succ(counter), k)
                                  && forall i :: 0 <= i < k ==> Iter(Succ(counter), i) in live)
  }

  lemma {:induction false} IterRange(c: int, k: nat)
    requires FIRST_REUSED <= c <= INT_MAX
    ensures FIRST_REUSED <= Iter(c, k) <= INT_MAX
  {
    if k > 0 {
      IterRange(c, k - 1);
    }
  }

  // ----- searching

  /** The first listener of the chain with that interface and closure, or `|ls|`. */
  function FindListener(lst: map<Ref, Listener>, ls: seq<Ref>, itf: Itf, closure: nat): (k: nat)
    requires forall l :: l in ls ==> l in lst
    ensures k <= |ls|
    ensures k < |ls| ==> lst[ls[k]].itf == itf && lst[ls[k]].closure == closure
    ensures forall i :: 0 <= i < k ==> !(lst[ls[i]].itf == itf && lst[ls[i]].closure == closure)
  {
    if ls == [] then 0
    else
      assert ls[0] in ls;
      if lst[ls[0]].itf == itf && lst[ls[0]].closure == closure then 0
      else 1 + FindListener(lst, ls[1..], itf, closure)
  }

  ghost predicate Watches(h: Hub, l: Ref, e: Ref) {
    exists w :: w in h.wat && h.wat[w].listener == l && h.wat[w].event == e
  }

  // ----- the operations

  ghost predicate Enabled(h: Hub, op: Op) {
    match op
    case CreateEvent(_, id, wraps) => Allocates(LiveIds(h), h.counter, h.wrapped, id, wraps)
    case DestroyEvent(_) => true
    case Push(e) => e in h.evt
    case CreateListener(_, _) => true
    case Addref(l) => l in h.lst
    case Unref(l) => l in h.lst
    case AddWatch(l, e) => l in h.lst && e in h.evt
    case RemoveWatch(l, e) => l in h.lst && e in h.evt
  }

  function NewEvent(h: Hub, name: string, id: int, wraps: bool): Hub {
    h.(events := [h.next] + h.events, evt := h.evt[h.next := Event(id, name)], byEvent := h.byEvent[h.next := []],
       next := h.next + 1, counter := id, wrapped := wraps)
  }

  function NewListener(h: Hub, itf: Itf, closure: nat): Hub {
    h.(listeners := [h.next] + h.listeners, lst := h.lst[h.next := Listener(itf, closure, 1)],
       byListener := h.byListener[h.next := []], next := h.next + 1)
  }

  function Refcount(h: Hub, l: Ref, delta: int): Hub
    requires l in h.lst
  {
    h.(lst := h.lst[l := h.lst[l].(refcount := h.lst[l].refcount + delta)])
  }

  function Activity(h: Hub, w: Ref, activity: nat): Hub
    requires w in h.wat
  {
    h.(wat := h.wat[w := h.wat[w].(activity := activity)])
  }

  function NewWatch(h: Hub, l: Ref, e: Ref): Hub
    requires l in h.byListener && e in h.byEvent
  {
    h.(wat := h.wat[h.next := Watch(e, l, 1)],
       byEvent := h.byEvent[e := [h.next] + h.byEvent[e]],
       byListener := h.byListener[l := [h.next] + h.byListener[l]],
       next := h.next + 1)
  }

  ghost function Without(h: Hub, e: Ref): Hub
    requires Wired(h) && e in h.evt
  {
    var r := UnlinkAll(h, h.byEvent[e]);
    r.(events := Drop(r.events, e), evt := r.evt - {e}, byEvent := r.byEvent - {e})
  }

  ghost function WithoutListener(h: Hub, l: Ref): Hub
    requires Wired(h) && l in h.lst
  {
    var r := UnlinkAll(h, h.byListener[l]);
    r.(listeners := Drop(r.listeners, l), lst := r.lst - {l}, byListener := r.byListener - {l})
  }

  /** The watch of `l` on `e`, if there is one. */
  datatype Found = Absent | Present(w: Ref)

  ghost function WatchOf(h: Hub, l: Ref, e: Ref): Found {
    if Watches(h, l, e) then
      var w :| w in h.wat && h.wat[w].listener == l && h.wat[w].event == e;
      Present(w)
    else Absent
  }

  ghost function AfterAdd(h: Hub, l: Ref, e: Ref): Hub
    requires Wired(h) && l in h.lst && e in h.evt
  {
    if !h.lst[l].itf.push then h
    else
      match WatchOf(h, l, e)
      case Absent => NewWatch(h, l, e)
      case Present(w) => Activity(h, w, h.wat[w].activity + 1)
  }

  ghost function AddCalls(h: Hub, l: Ref, e: Ref): seq<Callback>
    requires Wired(h) && l in h.lst && e in h.evt
  {
    var r := WatchOf(h, l, e);
    if h.lst[l].itf.push && h.lst[l].itf.add &&
        (r.Absent? || h.wat[r.w].activity == 0) then [Call(h, Added, l, e)] else []
  }

  ghost function AfterRemove(h: Hub, l: Ref, e: Ref): Hub
    requires Wired(h) && l in h.lst
  {
    match WatchOf(h, l, e)
    case Absent => h
    case Present(w) => if h.wat[w].activity == 0 then h else Activity(h, w, h.wat[w].activity - 1)
  }

  ghost function RemoveCalls(h: Hub, l: Ref, e: Ref): seq<Callback>
    requires Wired(h) && l in h.lst && e in h.evt
  {
    var r := WatchOf(h, l, e);
    if r.Present? && h.wat[r.w].activity == 1 && h.lst[l].itf.remove then [Call(h, Removed, l, e)] else []
  }

  ghost function AfterListener(h: Hub, itf: Itf, closure: nat): Hub
    requires Chains(h)
  {
    var k := FindListener(h.lst, h.listeners, itf, closure);
    if k < |h.listeners| then assert h.listeners[k] in h.listeners; Refcount(h, h.listeners[k], 1)
    else NewListener(h, itf, closure)
  }

  ghost function After(h: Hub, op: Op): Hub
    requires Valid(h) && Enabled(h, op)
  {
    match op
    case CreateEvent(name, id, wraps) => NewEvent(h, name, id, wraps)
    case DestroyEvent(e) => if e in h.events then Without(h, e) else h
    case Push(_) => h
    case CreateListener(itf, closure) => AfterListener(h, itf, closure)
    case Addref(l) => Refcount(h, l, 1)
    case Unref(l) => if h.lst[l].refcount == 1 then WithoutListener(h, l) else Refcount(h, l, -1)
    case AddWatch(l, e) => AfterAdd(h, l, e)
    case RemoveWatch(l, e) => AfterRemove(h, l, e)
  }

  ghost function PushCalls(h: Hub, ws: seq<Ref>): seq<Callback>
    requires Wired(h) && forall w :: w in ws ==> w in h.wat
  {
    if ws == [] then []
    else
      var w := ws[0];
      assert w in ws;
      assert EventOf(h.wat[w]) in h.byEvent && ListenerOf(h.wat[w]) in h.byListener;
      PushCall(h, w) + PushCalls(h, ws[1..])
  }

  function PushCall(h: Hub, w: Ref): seq<Callback>
    requires w in h.wat && h.wat[w].event in h.evt && h.wat[w].listener in h.lst
  {
    if h.wat[w].activity != 0 then [Call(h, Pushed, h.wat[w].listener, h.wat[w].event)] else []
  }

  ghost function Calls(h: Hub, op: Op): seq<Callback>
    requires Valid(h) && Enabled(h, op)
  {
    match op
    case CreateEvent(_, _, _) => []
    case DestroyEvent(e) => if e in h.events then UnlinkAllCalls(h, h.byEvent[e]) else []
    case Push(e) => PushCalls(h, h.byEvent[e])
    case CreateListener(_, _) => []
    case Addref(_) => []
    case Unref(l) => if h.lst[l].refcount == 1 then UnlinkAllCalls(h, h.byListener[l]) else []
    case AddWatch(l, e) => AddCalls(h, l, e)
    case RemoveWatch(l, e) => RemoveCalls(h, l, e)
  }

  // ----- every operation keeps the invariant

  lemma AllocatedIsFree(evt: map<Ref, Event>, counter: int, wrapped: bool, id: int, wraps: bool)
    requires Ids(evt, counter, wrapped)
    requires Allocates(set e | e in evt :: evt[e].id, counter, wrapped, id, wraps)
    ensures 0 < id <= 0x7fff_ffff && (wraps ==> 1024 <= id)
    ensures forall e :: e in evt ==> evt[e].id != id
  {
    var live := set e | e in evt :: evt[e].id;
    assert forall e :: e in evt ==> evt[e].id in live;
    if wraps {
      var k: nat :| id == Iter(Succ(counter), k) && forall i :: 0 <= i < k ==> Iter(Succ(counter), i) in live;
      IterRange(Succ(counter), k);
    }
  }

  /** Fewer numbers than places leave a place free. */
  lemma {:induction false} PlaceFree(live: set<int>, low: int, n: nat)
    requires |live| < n
    ensures exists x :: low <= x < low + n && x !in live
  {
    var last := low + n - 1;
    if last in live {
      var rest := live - {last};
      PlaceFree(rest, low, n - 1);
      var x: int :| low <= x < low + (n - 1) && x !in rest;
      assert x != last;
      assert x in live ==> x in rest;
      assert x !in live;
    } else {
      assert last !in live;
    }
  }

  lemma {:induction false} IdsAtMost(evt: map<Ref, Event>, live: set<int>)
    requires live == set e | e in evt :: evt[e].id
    ensures |live| <= |evt|
    decreases |evt|
  {
    if evt != map[] {
      var x :| x in evt;
      var rest := evt - {x};
      var ids := set e | e in rest :: rest[e].id;
      assert rest.Keys == evt.Keys - {x};
      IdsAtMost(rest, ids);
      forall i | i in live
        ensures i in ids + {evt[x].id}
      {
        var e :| e in evt && evt[e].id == i;
        assert e != x ==> e in rest && rest[e].id == i;
      }
      assert live <= ids + {evt[x].id};
      Subset(live, ids + {evt[x].id});
    } else {
      assert live == {};
    }
  }

  lemma {:induction false} Subset(a: set<int>, b: set<int>)
    requires a <= b
    ensures |a| <= |b|
  {
    assert b == a + (b - a);
  }

  /** While fewer events live than there are reused identifiers, one of these is free; so
      the search for an identifier ends. */
  lemma SomeIdFree(h: Hub)
    requires |h.evt| < 0x7fff_ffff - 1024 + 1
    ensures exists id :: 1024 <= id <= 0x7fff_ffff && id !in LiveIds(h)
  {
    IdsAtMost(h.evt, LiveIds(h));
    PlaceFree(LiveIds(h), FIRST_REUSED, INT_MAX - FIRST_REUSED + 1);
    var id :| FIRST_REUSED <= id < FIRST_REUSED + (INT_MAX - FIRST_REUSED + 1) && id !in LiveIds(h);
  }

  lemma IdsNew(evt: map<Ref, Event>, counter: int, wrapped: bool, x: Ref, v: Event, wraps: bool)
    requires Ids(evt, counter, wrapped) && x !in evt
    requires 0 < v.id <= INT_MAX && (wraps ==> FIRST_REUSED <= v.id) && (!wraps ==> !wrapped && counter < v.id)
    requires forall e :: e in evt ==> evt[e].id != v.id
    ensures Ids(evt[x := v], v.id, wraps)
  {
  }

  lemma NewEventKeeps(h: Hub, name: string, id: int, wraps: bool)
    requires Valid(h) && Allocates(LiveIds(h), h.counter, h.wrapped, id, wraps)
    ensures Valid(NewEvent(h, name, id, wraps))
  {
    AllocatedIsFree(h.evt, h.counter, h.wrapped, id, wraps);
    IdsNew(h.evt, h.counter, h.wrapped, h.next, Event(id, name), wraps);
    ChainPush(h.events, h.evt, h.next, Event(id, name));
    LinkedNew(h.byEvent, EventOf, h.wat, h.next);
  }

  lemma NewListenerKeeps(h: Hub, itf: Itf, closure: nat)
    requires Valid(h)
    ensures Valid(NewListener(h, itf, closure))
  {
    ChainPush(h.listeners, h.lst, h.next, Listener(itf, closure, 1));
    LinkedNew(h.byListener, ListenerOf, h.wat, h.next);
  }

  lemma PairUpdate(wat: map<Ref, Watch>, w: Ref, activity: nat)
    requires OnePerPair(wat) && w in wat
    ensures OnePerPair(wat[w := wat[w].(activity := activity)])
  {
  }

  lemma PushableUpdate(lst: map<Ref, Listener>, wat: map<Ref, Watch>, w: Ref, watch: Watch)
    requires Pushable(lst, wat) && watch.listener in lst && lst[watch.listener].itf.push
    ensures Pushable(lst, wat[w := watch])
  {
  }

  lemma SameKeys<T>(m: map<Ref, T>, x: Ref, v: T)
    requires x in m
    ensures m[x := v].Keys == m.Keys
  {
  }

  lemma BelowNext<T>(m: map<Ref, T>, next: Ref)
    requires Below(m, next)
    ensures Below(m, next + 1)
  {
  }

  lemma ActivityKeeps(h: Hub, w: Ref, activity: nat)
    requires Valid(h) && w in h.wat
    ensures Valid(Activity(h, w, activity))
  {
    LinkedUpdate(h.byEvent, EventOf, h.wat, w, h.wat[w].(activity := activity));
    LinkedUpdate(h.byListener, ListenerOf, h.wat, w, h.wat[w].(activity := activity));
    PairUpdate(h.wat, w, activity);
    PushableUpdate(h.lst, h.wat, w, h.wat[w].(activity := activity));
    assert Below(h.wat[w := h.wat[w].(activity := activity)], h.next);
  }

  lemma PairNew(wat: map<Ref, Watch>, w: Ref, watch: Watch)
    requires OnePerPair(wat) && w !in wat
    requires forall v :: v in wat ==> !(wat[v].event == watch.event && wat[v].listener == watch.listener)
    ensures OnePerPair(wat[w := watch])
  {
  }

  lemma NewWatchKeeps(h: Hub, l: Ref, e: Ref)
    requires Valid(h) && l in h.lst && e in h.evt && h.lst[l].itf.push && !Watches(h, l, e)
    ensures Valid(NewWatch(h, l, e))
  {
    LinkedPush(h.byEvent, EventOf, h.wat, h.next, Watch(e, l, 1));
    LinkedPush(h.byListener, ListenerOf, h.wat, h.next, Watch(e, l, 1));
    PairNew(h.wat, h.next, Watch(e, l, 1));
    PushableUpdate(h.lst, h.wat, h.next, Watch(e, l, 1));
    SameKeys(h.byEvent, e, [h.next] + h.byEvent[e]);
    SameKeys(h.byListener, l, [h.next] + h.byListener[l]);
    BelowNext(h.evt, h.next);
    BelowNext(h.lst, h.next);
    assert Below(h.wat[h.next := Watch(e, l, 1)], h.next + 1);
  }

  lemma WithoutKeeps(h: Hub, e: Ref)
    requires Valid(h) && e in h.evt
    ensures Valid(Without(h, e))
    ensures forall w :: w in Without(h, e).wat <==> w in h.wat && h.wat[w].event != e
  {
    var ws := h.byEvent[e];
    assert Removable(h, ws);
    UnlinkAllWatches(h, ws);
    ChainDrop(h.events, h.evt, e);
    var r := UnlinkAll(h, ws);
    LinkedGone(r.byEvent, EventOf, r.wat, e);
  }

  lemma WithoutListenerKeeps(h: Hub, l: Ref)
    requires Valid(h) && l in h.lst
    ensures Valid(WithoutListener(h, l))
    ensures forall w :: w in WithoutListener(h, l).wat <==> w in h.wat && h.wat[w].listener != l
  {
    var ws := h.byListener[l];
    assert Removable(h, ws);
    UnlinkAllWatches(h, ws);
    ChainDrop(h.listeners, h.lst, l);
    var r := UnlinkAll(h, ws);
    LinkedGone(r.byListener, ListenerOf, r.wat, l);
  }

  lemma RefcountKeeps(h: Hub, l: Ref, delta: int)
    requires Valid(h) && l in h.lst && h.lst[l].refcount + delta > 0
    ensures Valid(Refcount(h, l, delta))
  {
    assert Chain(h.listeners, Refcount(h, l, delta).lst);
  }

  lemma ListenerKeeps(h: Hub, itf: Itf, closure: nat)
    requires Valid(h)
    ensures Valid(AfterListener(h, itf, closure))
  {
    var k := FindListener(h.lst, h.listeners, itf, closure);
    if k < |h.listeners| {
      assert h.listeners[k] in h.listeners;
      RefcountKeeps(h, h.listeners[k], 1);
    } else {
      NewListenerKeeps(h, itf, closure);
    }
  }

  lemma AddKeeps(h: Hub, l: Ref, e: Ref)
    requires Valid(h) && l in h.lst && e in h.evt
    ensures Valid(AfterAdd(h, l, e))
  {
    if !h.lst[l].itf.push {
      assert AfterAdd(h, l, e) == h;
    } else if WatchOf(h, l, e).Absent? {
      AddNewKeeps(h, l, e);
    } else {
      AddMoreKeeps(h, l, e, WatchOf(h, l, e).w);
    }
  }

  lemma AddNewKeeps(h: Hub, l: Ref, e: Ref)
    requires Valid(h) && l in h.lst && e in h.evt && h.lst[l].itf.push && WatchOf(h, l, e) == Absent
    ensures Valid(AfterAdd(h, l, e))
  {
    assert AfterAdd(h, l, e) == NewWatch(h, l, e);
    NewWatchKeeps(h, l, e);
  }

  lemma AddMoreKeeps(h: Hub, l: Ref, e: Ref, w: Ref)
    requires Valid(h) && l in h.lst && e in h.evt && h.lst[l].itf.push && WatchOf(h, l, e) == Present(w)
    ensures Valid(AfterAdd(h, l, e))
  {
    assert AfterAdd(h, l, e) == Activity(h, w, h.wat[w].activity + 1);
    ActivityKeeps(h, w, h.wat[w].activity + 1);
  }

  lemma RemoveKeeps(h: Hub, l: Ref, e: Ref)
    requires Valid(h) && l in h.lst
    ensures Valid(AfterRemove(h, l, e))
  {
    var r := WatchOf(h, l, e);
    if r.Present? && h.wat[r.w].activity != 0 {
      var activity: nat := h.wat[r.w].activity - 1;
      assert AfterRemove(h, l, e) == Activity(h, r.w, activity);
      ActivityKeeps(h, r.w, activity);
    } else {
      assert AfterRemove(h, l, e) == h;
    }
  }

  lemma StepKeeps(h: Hub, op: Op)
    requires Valid(h) && Enabled(h, op)
    ensures Valid(After(h, op))
  {
    match op
    case CreateEvent(name, id, wraps) => NewEventKeeps(h, name, id, wraps);
    case DestroyEvent(e) => if e in h.events { WithoutKeeps(h, e); }
    case Push(_) =>
    case CreateListener(itf, closure) => ListenerKeeps(h, itf, closure);
    case Addref(l) => RefcountKeeps(h, l, 1);
    case Unref(l) => if h.lst[l].refcount == 1 { WithoutListenerKeeps(h, l); } else { RefcountKeeps(h, l, -1); }
    case AddWatch(l, e) => AddKeeps(h, l, e);
    case RemoveWatch(l, e) => RemoveKeeps(h, l, e);
  }

  /** A push reaches as many listeners as it counts watches if and only if all the
      watches of the event are active. */
  lemma {:induction false} PushReaches(h: Hub, ws: seq<Ref>)
    requires Wired(h) && forall w :: w in ws ==> w in h.wat
    ensures |PushCalls(h, ws)| <= |ws|
    ensures |PushCalls(h, ws)| == |ws| <==> forall w :: w in ws ==> h.wat[w].activity != 0
  {
    if ws != [] {
      assert ws[0] in ws && forall w :: w in ws <==> w == ws[0] || w in ws[1..];
      PushReaches(h, ws[1..]);
    }
  }
}
