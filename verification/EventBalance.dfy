/** What the callers of an event hub get for what they asked: watches by the balance
    of additions and removals, listeners by the balance of references, over every run. */
module EventBalance {
  import opened EventHub
  import opened EventOps
  import opened EventTrace

  // ----- handles

  /** The events after an operation: one is new, or one is gone, the others are as made. */
  ghost predicate EventsMove(evt: map<Ref, Event>, op: Op, next: Ref, evt': map<Ref, Event>) {
    && (forall e :: e in evt' <==> (e in evt && op != DestroyEvent(e)) || (op.CreateEvent? && e == next))
    && (forall e :: e in evt' ==> evt'[e] == if e in evt then evt[e] else Event(op.id, op.name))
  }

  /** A live listener has that interface and closure. */
  ghost predicate Serves(lst: map<Ref, Listener>, itf: Itf, closure: nat) {
    exists l :: l in lst && Is(lst, l, itf, closure)
  }

  predicate Is(lst: map<Ref, Listener>, l: Ref, itf: Itf, closure: nat) {
    l in lst && lst[l].itf == itf && lst[l].closure == closure
  }

  /** A request for a listener gives `l`: the live one with that interface and closure, or
      a new one. */
  ghost predicate Gives(lst: map<Ref, Listener>, op: Op, next: Ref, l: Ref) {
    && op.CreateListener?
    && (Is(lst, l, op.itf, op.closure) || (l == next && !Serves(lst, op.itf, op.closure)))
  }

  /** References to `l` given by the operation, less those taken back. */
  ghost function Change(lst: map<Ref, Listener>, op: Op, next: Ref, l: Ref): int {
    if Gives(lst, op, next, l) || op == Addref(l) then 1 else if op == Unref(l) then -1 else 0
  }

  function References(lst: map<Ref, Listener>, l: Ref): int {
    if l in lst then lst[l].refcount else 0
  }

  /** One listener over an operation: its references move, it lives while it has some, and
      keeps interface and closure. */
  ghost predicate ListenerMoves(lst: map<Ref, Listener>, op: Op, next: Ref, lst': map<Ref, Listener>, l: Ref) {
    && References(lst', l) == References(lst, l) + Change(lst, op, next, l)
    && (l in lst' <==> References(lst', l) > 0)
    && (l in lst && l in lst' ==> lst'[l].itf == lst[l].itf && lst'[l].closure == lst[l].closure)
    && (l !in lst && l in lst' ==> op.CreateListener? && lst'[l].itf == op.itf && lst'[l].closure == op.closure)
  }

  /** Live listeners differ in interface or closure. */
  ghost predicate Distinct(lst: map<Ref, Listener>) {
    forall k, l :: k in lst && l in lst && lst[k].itf == lst[l].itf && lst[k].closure == lst[l].closure ==> k == l
  }

  lemma AddFrame(h: Hub, l: Ref, e: Ref, u: Hub)
    requires Wired(h) && l in h.lst && e in h.evt && u == AfterAdd(h, l, e)
    ensures u.evt == h.evt && u.lst == h.lst && u.next >= h.next
  {
  }

  lemma RemoveFrame(h: Hub, l: Ref, e: Ref, u: Hub)
    requires Wired(h) && l in h.lst && u == AfterRemove(h, l, e)
    ensures u.evt == h.evt && u.lst == h.lst && u.next >= h.next
  {
  }

  lemma ListenerFrame(h: Hub, itf: Itf, closure: nat, u: Hub)
    requires Chains(h) && u == AfterListener(h, itf, closure)
    ensures u.evt == h.evt && u.wat == h.wat && u.next >= h.next
  {
  }

  /** Operations that neither make nor destroy an event. */
  lemma EventsStay(h: Hub, op: Op, u: Hub)
    requires Valid(h) && Enabled(h, op) && u == After(h, op)
    requires !op.CreateEvent? && !op.DestroyEvent?
    ensures u.evt == h.evt && u.next >= h.next
  {
    match op
    case CreateListener(itf, closure) => ListenerFrame(h, itf, closure, u);
    case AddWatch(l, e) => AddFrame(h, l, e, u);
    case RemoveWatch(l, e) => RemoveFrame(h, l, e, u);
    case _ =>
  }

  lemma EventsStep(h: Hub, op: Op, u: Hub)
    requires Valid(h) && Enabled(h, op) && u == After(h, op)
    ensures EventsMove(h.evt, op, h.next, u.evt) && u.next >= h.next
  {
    match op
    case CreateEvent(name, id, wraps) => EventMade(h.evt, op, h.next);
    case DestroyEvent(e) => EventGone(h, e, u);
    case _ => EventsStay(h, op, u);
  }

  lemma EventMade(evt: map<Ref, Event>, op: Op, next: Ref)
    requires op.CreateEvent? && next !in evt
    ensures EventsMove(evt, op, next, evt[next := Event(op.id, op.name)])
  {
  }

  lemma EventGone(h: Hub, e: Ref, u: Hub)
    requires Valid(h) && u == After(h, DestroyEvent(e))
    ensures EventsMove(h.evt, DestroyEvent(e), h.next, u.evt) && u.next >= h.next
  {
    assert e in h.events <==> e in h.evt;
    assert u.evt == h.evt - {e};
  }

  /** Operations that touch no listener. */
  lemma ListenersStay(h: Hub, op: Op, u: Hub)
    requires Valid(h) && Enabled(h, op) && u == After(h, op)
    requires !op.CreateListener? && !op.Addref? && !op.Unref?
    ensures u.lst == h.lst
  {
    match op
    case AddWatch(l, e) => AddFrame(h, l, e, u);
    case RemoveWatch(l, e) => RemoveFrame(h, l, e, u);
    case _ =>
  }

  lemma GivenMoves(lst: map<Ref, Listener>, op: Op, next: Ref, f: Ref, l: Ref)
    requires op.CreateListener? && Distinct(lst) && Is(lst, f, op.itf, op.closure) && Counted(lst)
    ensures ListenerMoves(lst, op, next, lst[f := lst[f].(refcount := lst[f].refcount + 1)], l)
  {
    assert Gives(lst, op, next, l) <==> l == f;
  }

  lemma MadeMoves(lst: map<Ref, Listener>, op: Op, next: Ref, l: Ref)
    requires op.CreateListener? && !Serves(lst, op.itf, op.closure) && next !in lst && Counted(lst)
    ensures ListenerMoves(lst, op, next, lst[next := Listener(op.itf, op.closure, 1)], l)
  {
    assert Gives(lst, op, next, l) <==> l == next;
  }

  lemma NoneServes(h: Hub, itf: Itf, closure: nat)
    requires Chains(h) && FindListener(h.lst, h.listeners, itf, closure) == |h.listeners|
    ensures !Serves(h.lst, itf, closure)
  {
    forall l | l in h.lst
      ensures !Is(h.lst, l, itf, closure)
    {
      assert l in h.listeners;
    }
  }

  lemma ListenerOfCreate(h: Hub, op: Op, u: Hub, l: Ref)
    requires Chains(h) && h.next !in h.lst && Distinct(h.lst) && op.CreateListener?
    requires u == AfterListener(h, op.itf, op.closure)
    ensures ListenerMoves(h.lst, op, h.next, u.lst, l)
  {
    var k := FindListener(h.lst, h.listeners, op.itf, op.closure);
    if k < |h.listeners| {
      assert h.listeners[k] in h.listeners;
      GivenMoves(h.lst, op, h.next, h.listeners[k], l);
    } else {
      NoneServes(h, op.itf, op.closure);
      MadeMoves(h.lst, op, h.next, l);
    }
  }

  lemma DistinctNew(lst: map<Ref, Listener>, next: Ref, v: Listener)
    requires Distinct(lst) && !Serves(lst, v.itf, v.closure)
    ensures Distinct(lst[next := v])
  {
    assert forall l :: l in lst ==> !Is(lst, l, v.itf, v.closure);
  }

  lemma DistinctUpdate(lst: map<Ref, Listener>, f: Ref, refcount: int)
    requires Distinct(lst) && f in lst
    ensures Distinct(lst[f := lst[f].(refcount := refcount)])
  {
  }

  lemma DistinctCreate(h: Hub, op: Op, u: Hub)
    requires Chains(h) && h.next !in h.lst && Distinct(h.lst) && op.CreateListener?
    requires u == AfterListener(h, op.itf, op.closure)
    ensures Distinct(u.lst)
  {
    var k := FindListener(h.lst, h.listeners, op.itf, op.closure);
    if k == |h.listeners| {
      NoneServes(h, op.itf, op.closure);
      DistinctNew(h.lst, h.next, Listener(op.itf, op.closure, 1));
    } else {
      assert h.listeners[k] in h.listeners;
      DistinctUpdate(h.lst, h.listeners[k], h.lst[h.listeners[k]].refcount + 1);
    }
  }

  lemma ListenerStays(lst: map<Ref, Listener>, op: Op, next: Ref, l: Ref)
    requires !op.CreateListener? && !op.Addref? && !op.Unref? && Counted(lst)
    ensures ListenerMoves(lst, op, next, lst, l)
  {
  }

  lemma CountMoves(lst: map<Ref, Listener>, op: Op, next: Ref, k: Ref, delta: int, l: Ref)
    requires k in lst && Counted(lst) && Distinct(lst) && lst[k].refcount + delta > 0
    requires (op == Addref(k) && delta == 1) || (op == Unref(k) && delta == -1)
    ensures ListenerMoves(lst, op, next, lst[k := lst[k].(refcount := lst[k].refcount + delta)], l)
    ensures Distinct(lst[k := lst[k].(refcount := lst[k].refcount + delta)])
  {
  }

  lemma LastMoves(lst: map<Ref, Listener>, op: Op, next: Ref, k: Ref, l: Ref)
    requires k in lst && Counted(lst) && Distinct(lst) && lst[k].refcount == 1 && op == Unref(k)
    ensures ListenerMoves(lst, op, next, lst - {k}, l) && Distinct(lst - {k})
  {
  }

  lemma UnrefOf(h: Hub, k: Ref, u: Hub)
    requires Valid(h) && k in h.lst && u == After(h, Unref(k))
    ensures u.lst == if h.lst[k].refcount == 1 then h.lst - {k}
                     else h.lst[k := h.lst[k].(refcount := h.lst[k].refcount - 1)]
  {
  }

  /** Over an operation every listener moves by the references given and taken back. */
  lemma ListenerStep(h: Hub, op: Op, u: Hub, l: Ref)
    requires Valid(h) && Distinct(h.lst) && Enabled(h, op) && u == After(h, op)
    ensures ListenerMoves(h.lst, op, h.next, u.lst, l) && Distinct(u.lst)
  {
    match op
    case CreateListener(_, _) =>
      ListenerOfCreate(h, op, u, l);
      DistinctCreate(h, op, u);
    case Addref(k) => CountMoves(h.lst, op, h.next, k, 1, l);
    case Unref(k) =>
      UnrefOf(h, k, u);
      if h.lst[k].refcount == 1 {
        LastMoves(h.lst, op, h.next, k, l);
      } else {
        CountMoves(h.lst, op, h.next, k, -1, l);
      }
    case _ =>
      ListenersStay(h, op, u);
      ListenerStays(h.lst, op, h.next, l);
  }

  /** References to `l` that a run gave, less those it took back. */
  ghost function Held(ops: seq<Op>, l: Ref): int {
    if ops == [] then 0
    else
      var prev, op := ops[..|ops| - 1], ops[|ops| - 1];
      var r := Exec(prev);
      Held(prev, l) + if r.Run? then Change(r.hub.lst, op, r.hub.next, l) else 0
  }

  /** Over any run on live handles the reference count of a listener is the number of
      references given less those taken back; it lives exactly while that is positive; and
      no two live listeners have the same interface and closure. */
  lemma {:induction false} ReferencesAreHeld(ops: seq<Op>, l: Ref)
    ensures var r := Exec(ops);
            r.Run? ==>
              && (l in r.hub.lst ==> r.hub.lst[l].refcount == Held(ops, l))
              && (l in r.hub.lst <==> Held(ops, l) > 0) && (l !in r.hub.lst ==> Held(ops, l) == 0)
              && Distinct(r.hub.lst)
  {
    if ops != [] {
      var prev, op := ops[..|ops| - 1], ops[|ops| - 1];
      ReferencesAreHeld(prev, l);
      var r := Exec(prev);
      if r.Run? && Enabled(r.hub, op) {
        ListenerStep(r.hub, op, After(r.hub, op), l);
      }
    }
  }

  /** Over any run an event lives from its creation to its destruction, with the name and
      the identifier it was made with; a listener keeps its interface and closure. */
  lemma HandlesLast(ops: seq<Op>, op: Op, l: Ref)
    ensures var r := Exec(ops);
            r.Run? && Enabled(r.hub, op) ==>
              var u := After(r.hub, op);
              && EventsMove(r.hub.evt, op, r.hub.next, u.evt)
              && ListenerMoves(r.hub.lst, op, r.hub.next, u.lst, l)
  {
    ReferencesAreHeld(ops, l);
    var r := Exec(ops);
    if r.Run? && Enabled(r.hub, op) {
      EventsStep(r.hub, op, After(r.hub, op));
      ListenerStep(r.hub, op, After(r.hub, op), l);
    }
  }

  // ----- watches

  /** How often the run let `l` watch `e`, less how often it took that back while it had it. */
  function Balance(ops: seq<Op>, l: Ref, e: Ref): nat {
    if ops == [] then 0
    else
      var before := Balance(ops[..|ops| - 1], l, e);
      Moved(before, ops[|ops| - 1], l, e)
  }

  function Moved(n: nat, op: Op, l: Ref, e: Ref): nat {
    if op == AddWatch(l, e) then n + 1
    else if op == RemoveWatch(l, e) && n > 0 then n - 1
    else n
  }

  predicate Of(wat: map<Ref, Watch>, w: Ref, l: Ref, e: Ref) {
    w in wat && wat[w].listener == l && wat[w].event == e
  }

  /** The watch of `l` on `e` has activity `n`; without one `n` is zero. */
  ghost predicate Balanced(wat: map<Ref, Watch>, l: Ref, e: Ref, n: nat) {
    && (forall w :: Of(wat, w, l, e) ==> wat[w].activity == n)
    && (n > 0 ==> exists w :: Of(wat, w, l, e))
  }

  lemma ActivityBalance(wat: map<Ref, Watch>, w: Ref, activity: nat, l: Ref, e: Ref, n: nat)
    requires OnePerPair(wat) && w in wat && Balanced(wat, l, e, n)
    ensures Balanced(wat[w := wat[w].(activity := activity)], l, e, if Of(wat, w, l, e) then activity else n)
  {
    var u := wat[w := wat[w].(activity := activity)];
    assert forall v :: Of(u, v, l, e) <==> Of(wat, v, l, e);
  }

  lemma NewBalance(wat: map<Ref, Watch>, next: Ref, l0: Ref, e0: Ref, l: Ref, e: Ref, n: nat)
    requires next !in wat && Balanced(wat, l, e, n)
    requires forall w :: !Of(wat, w, l0, e0)
    ensures Balanced(wat[next := Watch(e0, l0, 1)], l, e, if l == l0 && e == e0 then 1 else n)
    ensures l == l0 && e == e0 ==> n == 0
  {
    var u := wat[next := Watch(e0, l0, 1)];
    assert Of(u, next, l0, e0);
    assert forall v :: v != next ==> (Of(u, v, l, e) <==> Of(wat, v, l, e));
  }

  lemma FewerBalance(wat: map<Ref, Watch>, fewer: map<Ref, Watch>, l: Ref, e: Ref, n: nat)
    requires Balanced(wat, l, e, n)
    requires forall w :: w in fewer ==> w in wat && fewer[w] == wat[w]
    requires forall w :: Of(wat, w, l, e) ==> w in fewer
    ensures Balanced(fewer, l, e, n)
  {
    assert forall v :: Of(fewer, v, l, e) <==> Of(wat, v, l, e);
  }

  lemma AddNewBalance(h: Hub, l0: Ref, e0: Ref, l: Ref, e: Ref, n: nat)
    requires Wired(h) && l0 in h.lst && e0 in h.evt && h.lst[l0].itf.push && WatchOf(h, l0, e0) == Absent
    requires Balanced(h.wat, l, e, n)
    ensures Balanced(AfterAdd(h, l0, e0).wat, l, e, Moved(n, AddWatch(l0, e0), l, e))
  {
    assert forall w :: !Of(h.wat, w, l0, e0);
    NewBalance(h.wat, h.next, l0, e0, l, e, n);
  }

  lemma AddMoreBalance(h: Hub, l0: Ref, e0: Ref, w: Ref, l: Ref, e: Ref, n: nat)
    requires Wired(h) && l0 in h.lst && e0 in h.evt && h.lst[l0].itf.push && WatchOf(h, l0, e0) == Present(w)
    requires Balanced(h.wat, l, e, n)
    ensures Balanced(AfterAdd(h, l0, e0).wat, l, e, Moved(n, AddWatch(l0, e0), l, e))
  {
    assert Of(h.wat, w, l0, e0);
    ActivityBalance(h.wat, w, h.wat[w].activity + 1, l, e, n);
  }

  lemma AddBalance(h: Hub, l0: Ref, e0: Ref, l: Ref, e: Ref, n: nat)
    requires Wired(h) && l0 in h.lst && e0 in h.evt && Balanced(h.wat, l, e, n)
    ensures Balanced(AfterAdd(h, l0, e0).wat, l, e,
                     if h.lst[l0].itf.push then Moved(n, AddWatch(l0, e0), l, e) else n)
  {
    if !h.lst[l0].itf.push {
      assert AfterAdd(h, l0, e0) == h;
    } else if WatchOf(h, l0, e0).Absent? {
      AddNewBalance(h, l0, e0, l, e, n);
    } else {
      AddMoreBalance(h, l0, e0, WatchOf(h, l0, e0).w, l, e, n);
    }
  }

  lemma RemoveBalance(h: Hub, l0: Ref, e0: Ref, l: Ref, e: Ref, n: nat)
    requires Wired(h) && l0 in h.lst && e0 in h.evt && Balanced(h.wat, l, e, n)
    ensures Balanced(AfterRemove(h, l0, e0).wat, l, e, Moved(n, RemoveWatch(l0, e0), l, e))
  {
    var r := WatchOf(h, l0, e0);
    if r.Absent? {
      assert forall w :: !Of(h.wat, w, l0, e0);
    } else {
      assert Of(h.wat, r.w, l0, e0);
      if h.wat[r.w].activity != 0 {
        ActivityBalance(h.wat, r.w, h.wat[r.w].activity - 1, l, e, n);
      }
    }
  }

  lemma UnlinkBalance(h: Hub, ws: seq<Ref>, l: Ref, e: Ref, n: nat)
    requires Removable(h, ws) && Balanced(h.wat, l, e, n)
    requires forall w :: Of(h.wat, w, l, e) ==> w !in ws
    ensures Balanced(UnlinkAll(h, ws).wat, l, e, n)
  {
    UnlinkAllWatches(h, ws);
    FewerBalance(h.wat, UnlinkAll(h, ws).wat, l, e, n);
  }

  /** The balance that counts: a listener without a push callback watches nothing. */
  ghost function Effective(h: Hub, l: Ref, n: nat): nat {
    if l in h.lst && h.lst[l].itf.push then n else 0
  }

  lemma DestroyBalance(h: Hub, e0: Ref, l: Ref, e: Ref, n: nat)
    requires Valid(h) && e != e0 && Balanced(h.wat, l, e, n)
    ensures Balanced(After(h, DestroyEvent(e0)).wat, l, e, n)
  {
    if e0 in h.events {
      UnlinkBalance(h, h.byEvent[e0], l, e, n);
    }
  }

  lemma UnrefBalance(h: Hub, l0: Ref, l: Ref, e: Ref, n: nat)
    requires Valid(h) && l0 in h.lst && Balanced(h.wat, l, e, n)
    requires h.lst[l0].refcount == 1 ==> l != l0
    ensures Balanced(After(h, Unref(l0)).wat, l, e, n)
  {
    if h.lst[l0].refcount == 1 {
      UnlinkBalance(h, h.byListener[l0], l, e, n);
    }
  }

  lemma AddMoves(h: Hub, l0: Ref, e0: Ref, l: Ref, e: Ref, n: nat)
    requires Wired(h) && l0 in h.lst && e0 in h.evt && Balanced(h.wat, l, e, Effective(h, l, n))
    ensures Balanced(AfterAdd(h, l0, e0).wat, l, e, Effective(h, l, Moved(n, AddWatch(l0, e0), l, e)))
  {
    AddBalance(h, l0, e0, l, e, Effective(h, l, n));
  }

  lemma RemoveMoves(h: Hub, l0: Ref, e0: Ref, l: Ref, e: Ref, n: nat)
    requires Wired(h) && l0 in h.lst && e0 in h.evt && Balanced(h.wat, l, e, Effective(h, l, n))
    ensures Balanced(AfterRemove(h, l0, e0).wat, l, e, Effective(h, l, Moved(n, RemoveWatch(l0, e0), l, e)))
  {
    RemoveBalance(h, l0, e0, l, e, Effective(h, l, n));
  }

  lemma OthersBalance(h: Hub, op: Op, u: Hub)
    requires Valid(h) && Enabled(h, op) && u == After(h, op)
    requires op.CreateEvent? || op.Push? || op.CreateListener? || op.Addref?
    ensures u.wat == h.wat
  {
    if op.CreateListener? {
      ListenerFrame(h, op.itf, op.closure, u);
    }
  }

  lemma WatchStep(h: Hub, op: Op, l: Ref, e: Ref, n: nat, u: Hub)
    requires Valid(h) && Enabled(h, op) && l in h.lst && e in h.evt && u == After(h, op)
    requires op.AddWatch? || op.RemoveWatch?
    requires Balanced(h.wat, l, e, Effective(h, l, n))
    ensures Balanced(u.wat, l, e, Effective(h, l, Moved(n, op, l, e)))
  {
    if op.AddWatch? {
      AddMoves(h, op.l, op.e, l, e, n);
    } else {
      RemoveMoves(h, op.l, op.e, l, e, n);
    }
  }

  lemma GoneStep(h: Hub, op: Op, l: Ref, e: Ref, n: nat, u: Hub)
    requires Valid(h) && Enabled(h, op) && l in h.lst && e in h.evt && u == After(h, op)
    requires op.DestroyEvent? || op.Unref?
    requires op != DestroyEvent(e) && (op == Unref(l) ==> h.lst[l].refcount != 1)
    requires Balanced(h.wat, l, e, n)
    ensures Balanced(u.wat, l, e, n)
  {
    if op.DestroyEvent? {
      DestroyBalance(h, op.e, l, e, n);
    } else {
      UnrefBalance(h, op.l, l, e, n);
    }
  }

  /** An operation moves the activity of a live pair as it moves the balance. */
  lemma StepBalance(h: Hub, op: Op, l: Ref, e: Ref, n: nat, u: Hub)
    requires Valid(h) && Enabled(h, op) && l in h.lst && e in h.evt && u == After(h, op)
    requires op != DestroyEvent(e) && (op == Unref(l) ==> h.lst[l].refcount != 1)
    requires Balanced(h.wat, l, e, Effective(h, l, n))
    ensures Balanced(u.wat, l, e, Effective(h, l, Moved(n, op, l, e)))
  {
    if op.AddWatch? || op.RemoveWatch? {
      WatchStep(h, op, l, e, n, u);
    } else {
      var k := Effective(h, l, n);
      assert Effective(h, l, Moved(n, op, l, e)) == k;
      if op.DestroyEvent? || op.Unref? {
        GoneStep(h, op, l, e, k, u);
      } else {
        OthersBalance(h, op, u);
      }
    }
  }

  /** A pair with a new event or listener has no watch. */
  lemma NewPairBalance(h: Hub, op: Op, l: Ref, e: Ref, u: Hub)
    requires Valid(h) && Enabled(h, op) && u == After(h, op) && (op.CreateEvent? || op.CreateListener?)
    requires l !in h.lst || e !in h.evt
    ensures Balanced(u.wat, l, e, 0)
  {
    OthersBalance(h, op, u);
    assert forall w :: w in h.wat ==> ListenerOf(h.wat[w]) in h.byListener && EventOf(h.wat[w]) in h.byEvent;
  }

  /** Nobody asked for a watch with a handle that is not given yet. */
  lemma {:induction false} NotYetAsked(ops: seq<Op>, l: Ref, e: Ref)
    ensures var r := Exec(ops);
            r.Run? && (l >= r.hub.next || e >= r.hub.next) ==> Balance(ops, l, e) == 0
  {
    if ops != [] {
      var prev, op := ops[..|ops| - 1], ops[|ops| - 1];
      NotYetAsked(prev, l, e);
      var r := Exec(prev);
      if r.Run? && Enabled(r.hub, op) {
        EventsStep(r.hub, op, After(r.hub, op));
      }
    }
  }

  lemma NewHandle(ops: seq<Op>, h: Hub, op: Op, l: Ref, e: Ref, u: Hub)
    requires Exec(ops).Run? && Exec(ops).hub == h && Enabled(h, op) && u == After(h, op)
    requires l in u.lst && e in u.evt && (l !in h.lst || e !in h.evt)
    ensures (op.CreateEvent? && e == h.next) || (op.CreateListener? && l == h.next)
  {
    HandlesLast(ops, op, l);
    if l !in h.lst {
      NewListenerHandle(h.lst, op, h.next, u.lst, l);
    }
  }

  lemma NewListenerHandle(lst: map<Ref, Listener>, op: Op, next: Ref, lst': map<Ref, Listener>, l: Ref)
    requires ListenerMoves(lst, op, next, lst', l) && l !in lst && l in lst'
    ensures op.CreateListener? && l == next
  {
  }

  lemma NewPair(ops: seq<Op>, h: Hub, op: Op, l: Ref, e: Ref, u: Hub)
    requires Exec(ops).Run? && Exec(ops).hub == h && Enabled(h, op) && u == After(h, op)
    requires l in u.lst && e in u.evt && (l !in h.lst || e !in h.evt)
    ensures Balanced(u.wat, l, e, 0) && Moved(Balance(ops, l, e), op, l, e) == 0
  {
    NewHandle(ops, h, op, l, e, u);
    NewPairBalance(h, op, l, e, u);
    NotYetAsked(ops, l, e);
  }

  lemma SamePush(ops: seq<Op>, h: Hub, op: Op, l: Ref, e: Ref, u: Hub)
    requires Exec(ops).Run? && Exec(ops).hub == h && Enabled(h, op) && u == After(h, op)
    requires l in u.lst && e in u.evt && l in h.lst && e in h.evt
    ensures u.lst[l].itf == h.lst[l].itf && op != DestroyEvent(e) && (op == Unref(l) ==> h.lst[l].refcount != 1)
  {
    HandlesLast(ops, op, l);
  }

  lemma NextBalance(ops: seq<Op>, h: Hub, op: Op, l: Ref, e: Ref, u: Hub)
    requires Exec(ops).Run? && Exec(ops).hub == h && Enabled(h, op) && u == After(h, op)
    requires l in h.lst && e in h.evt ==> Balanced(h.wat, l, e, Effective(h, l, Balance(ops, l, e)))
    requires l in u.lst && e in u.evt
    ensures Balanced(u.wat, l, e, Effective(u, l, Moved(Balance(ops, l, e), op, l, e)))
  {
    if l in h.lst && e in h.evt {
      SamePush(ops, h, op, l, e, u);
      StepBalance(h, op, l, e, Balance(ops, l, e), u);
    } else {
      NewPair(ops, h, op, l, e, u);
    }
  }

  /** Over any run, while a listener that can be pushed to and an event live, the activity
      of the pair is the balance of what was asked; without a push callback there is none. */
  lemma {:induction false} ActivityIsBalance(ops: seq<Op>, l: Ref, e: Ref)
    ensures var r := Exec(ops);
            r.Run? && l in r.hub.lst && e in r.hub.evt ==>
              Balanced(r.hub.wat, l, e, if r.hub.lst[l].itf.push then Balance(ops, l, e) else 0)
  {
    if ops != [] {
      var prev, op := ops[..|ops| - 1], ops[|ops| - 1];
      ActivityIsBalance(prev, l, e);
      var r := Exec(prev);
      if r.Run? && Enabled(r.hub, op) && l in After(r.hub, op).lst && e in After(r.hub, op).evt {
        NextBalance(prev, r.hub, op, l, e, After(r.hub, op));
      }
    }
  }

  // ----- callbacks

  predicate Tells(c: Callback, k: Kind, l: Ref, e: Ref) {
    c.kind == k && c.listener == l && c.event == e
  }

  /** How many callbacks of kind `k` are for `l` on `e`. */
  function Count(cs: seq<Callback>, k: Kind, l: Ref, e: Ref): nat {
    if cs == [] then 0 else (if Tells(cs[0], k, l, e) then 1 else 0) + Count(cs[1..], k, l, e)
  }

  lemma {:induction false} CountConcat(a: seq<Callback>, b: seq<Callback>, k: Kind, l: Ref, e: Ref)
    ensures Count(a + b, k, l, e) == Count(a, k, l, e) + Count(b, k, l, e)
    decreases |a|
  {
    if a == [] {
      assert a + b == b;
    } else {
      assert (a + b)[1..] == a[1..] + b;
      CountConcat(a[1..], b, k, l, e);
    }
  }

  /** One of the watches `ws` is that of `l` on `e`, and active. */
  ghost predicate ActiveIn(wat: map<Ref, Watch>, ws: seq<Ref>, l: Ref, e: Ref) {
    exists w :: w in ws && Of(wat, w, l, e) && wat[w].activity != 0
  }

  lemma ActiveSplit(wat: map<Ref, Watch>, ws: seq<Ref>, l: Ref, e: Ref)
    requires ws != [] && NoDup(ws) && OnePerPair(wat)
    ensures ActiveIn(wat, ws, l, e) <==>
            (Of(wat, ws[0], l, e) && wat[ws[0]].activity != 0) || ActiveIn(wat, ws[1..], l, e)
    ensures Of(wat, ws[0], l, e) ==> !ActiveIn(wat, ws[1..], l, e)
  {
    assert forall w :: w in ws <==> w == ws[0] || w in ws[1..];
  }

  lemma ActiveFewer(wat: map<Ref, Watch>, w: Ref, ws: seq<Ref>, l: Ref, e: Ref)
    requires w !in ws
    ensures ActiveIn(wat - {w}, ws, l, e) <==> ActiveIn(wat, ws, l, e)
  {
    assert forall v :: v in ws ==> (Of(wat - {w}, v, l, e) <==> Of(wat, v, l, e));
  }

  /** What the interface of `l` has of the callbacks. */
  predicate Has(h: Hub, k: Kind, l: Ref) {
    l in h.lst && match k
                  case Added => h.lst[l].itf.add
                  case Removed => h.lst[l].itf.remove
                  case Pushed => h.lst[l].itf.push
  }

  lemma {:induction false} PushCount(h: Hub, ws: seq<Ref>, k: Kind, l: Ref, e: Ref)
    requires Wired(h) && NoDup(ws) && forall w :: w in ws ==> w in h.wat
    ensures Count(PushCalls(h, ws), k, l, e) == if k == Pushed && ActiveIn(h.wat, ws, l, e) then 1 else 0
  {
    if ws != [] {
      assert ws[0] in ws;
      PushCount(h, ws[1..], k, l, e);
      ActiveSplit(h.wat, ws, l, e);
      CountConcat(PushCall(h, ws[0]), PushCalls(h, ws[1..]), k, l, e);
    }
  }

  lemma {:induction false} UnlinkCount(h: Hub, ws: seq<Ref>, k: Kind, l: Ref, e: Ref)
    requires Removable(h, ws)
    ensures Count(UnlinkAllCalls(h, ws), k, l, e) ==
            if k == Removed && Has(h, Removed, l) && ActiveIn(h.wat, ws, l, e) then 1 else 0
    decreases |ws|
  {
    if ws != [] {
      UnlinkFirst(h, ws);
      var u := Unlink(h, ws[0]);
      UnlinkCount(u, ws[1..], k, l, e);
      ActiveSplit(h.wat, ws, l, e);
      ActiveFewer(h.wat, ws[0], ws[1..], l, e);
      CountConcat(UnlinkCalls(h, ws[0]), UnlinkAllCalls(u, ws[1..]), k, l, e);
    }
  }

  /** Whether the operation has a callback of kind `k` for `l` on `e`, from the balance `n`
      before it. */
  ghost predicate Expected(h: Hub, op: Op, k: Kind, l: Ref, e: Ref, n: nat) {
    && Has(h, k, l) && h.lst[l].itf.push
    && match k
       case Added => op == AddWatch(l, e) && n == 0
       case Removed => n > 0 && (op == DestroyEvent(e) || (op == Unref(l) && h.lst[l].refcount == 1)
                                 || (op == RemoveWatch(l, e) && n == 1))
       case Pushed => op == Push(e) && n > 0
  }

  lemma ActiveInEvent(h: Hub, x: Ref, l: Ref, e: Ref, n: nat)
    requires Wired(h) && x in h.byEvent && Balanced(h.wat, l, e, n)
    ensures ActiveIn(h.wat, h.byEvent[x], l, e) <==> n > 0 && x == e
  {
    assert forall w :: Of(h.wat, w, l, e) ==> EventOf(h.wat[w]) == e && w in h.byEvent[e];
  }

  lemma ActiveInListener(h: Hub, x: Ref, l: Ref, e: Ref, n: nat)
    requires Wired(h) && x in h.byListener && Balanced(h.wat, l, e, n)
    ensures ActiveIn(h.wat, h.byListener[x], l, e) <==> n > 0 && x == l
  {
    assert forall w :: Of(h.wat, w, l, e) ==> ListenerOf(h.wat[w]) == l && w in h.byListener[l];
  }

  lemma PushTells(h: Hub, e0: Ref, k: Kind, l: Ref, e: Ref, n: nat)
    requires Valid(h) && e0 in h.evt && l in h.lst && e in h.evt
    requires Balanced(h.wat, l, e, Effective(h, l, n))
    ensures Count(PushCalls(h, h.byEvent[e0]), k, l, e) == if Expected(h, Push(e0), k, l, e, n) then 1 else 0
  {
    PushCount(h, h.byEvent[e0], k, l, e);
    ActiveInEvent(h, e0, l, e, Effective(h, l, n));
  }

  lemma DestroyTells(h: Hub, e0: Ref, k: Kind, l: Ref, e: Ref, n: nat)
    requires Valid(h) && e0 in h.evt && l in h.lst && e in h.evt
    requires Balanced(h.wat, l, e, Effective(h, l, n))
    ensures Count(UnlinkAllCalls(h, h.byEvent[e0]), k, l, e) ==
            if Expected(h, DestroyEvent(e0), k, l, e, n) then 1 else 0
  {
    UnlinkCount(h, h.byEvent[e0], k, l, e);
    ActiveInEvent(h, e0, l, e, Effective(h, l, n));
  }

  lemma UnrefTells(h: Hub, l0: Ref, k: Kind, l: Ref, e: Ref, n: nat)
    requires Valid(h) && l0 in h.lst && l in h.lst && e in h.evt && h.lst[l0].refcount == 1
    requires Balanced(h.wat, l, e, Effective(h, l, n))
    ensures Count(UnlinkAllCalls(h, h.byListener[l0]), k, l, e) ==
            if Expected(h, Unref(l0), k, l, e, n) then 1 else 0
  {
    UnlinkCount(h, h.byListener[l0], k, l, e);
    ActiveInListener(h, l0, l, e, Effective(h, l, n));
  }

  lemma RemoveTellsOwn(h: Hub, k: Kind, l: Ref, e: Ref, n: nat)
    requires Valid(h) && l in h.lst && e in h.evt
    requires Balanced(h.wat, l, e, Effective(h, l, n))
    ensures Count(RemoveCalls(h, l, e), k, l, e) == if Expected(h, RemoveWatch(l, e), k, l, e, n) then 1 else 0
  {
    FoundBalance(h, l, e, Effective(h, l, n));
  }

  lemma OtherPair(h: Hub, l0: Ref, e0: Ref, k: Kind, l: Ref, e: Ref)
    requires Wired(h) && l0 in h.lst && e0 in h.evt && (l0 != l || e0 != e)
    ensures Count(AddCalls(h, l0, e0), k, l, e) == 0 && Count(RemoveCalls(h, l0, e0), k, l, e) == 0
  {
  }

  lemma AddTellsOwn(h: Hub, k: Kind, l: Ref, e: Ref, n: nat)
    requires Valid(h) && l in h.lst && e in h.evt
    requires Balanced(h.wat, l, e, Effective(h, l, n))
    ensures Count(AddCalls(h, l, e), k, l, e) == if Expected(h, AddWatch(l, e), k, l, e, n) then 1 else 0
  {
    FoundBalance(h, l, e, Effective(h, l, n));
  }

  lemma AddTells(h: Hub, l0: Ref, e0: Ref, k: Kind, l: Ref, e: Ref, n: nat)
    requires Valid(h) && l0 in h.lst && e0 in h.evt && l in h.lst && e in h.evt
    requires Balanced(h.wat, l, e, Effective(h, l, n))
    ensures Count(AddCalls(h, l0, e0), k, l, e) == if Expected(h, AddWatch(l0, e0), k, l, e, n) then 1 else 0
  {
    if l0 != l || e0 != e {
      OtherPair(h, l0, e0, k, l, e);
    } else {
      AddTellsOwn(h, k, l, e, n);
    }
  }

  lemma RemoveTells(h: Hub, l0: Ref, e0: Ref, k: Kind, l: Ref, e: Ref, n: nat)
    requires Valid(h) && l0 in h.lst && e0 in h.evt && l in h.lst && e in h.evt
    requires Balanced(h.wat, l, e, Effective(h, l, n))
    ensures Count(RemoveCalls(h, l0, e0), k, l, e) == if Expected(h, RemoveWatch(l0, e0), k, l, e, n) then 1 else 0
  {
    if l0 != l || e0 != e {
      OtherPair(h, l0, e0, k, l, e);
    } else {
      RemoveTellsOwn(h, k, l, e, n);
    }
  }

  lemma FoundBalance(h: Hub, l: Ref, e: Ref, n: nat)
    requires Balanced(h.wat, l, e, n)
    ensures match WatchOf(h, l, e)
            case Absent => n == 0
            case Present(w) => w in h.wat && h.wat[w].activity == n
  {
    var r := WatchOf(h, l, e);
    if r.Present? {
      assert Of(h.wat, r.w, l, e);
    }
  }

  lemma StepTells(h: Hub, op: Op, k: Kind, l: Ref, e: Ref, n: nat)
    requires Valid(h) && Enabled(h, op) && l in h.lst && e in h.evt
    requires Balanced(h.wat, l, e, Effective(h, l, n))
    ensures Count(Calls(h, op), k, l, e) == if Expected(h, op, k, l, e, n) then 1 else 0
  {
    match op
    case Push(e0) => PushTells(h, e0, k, l, e, n);
    case DestroyEvent(e0) => if e0 in h.events { DestroyTells(h, e0, k, l, e, n); }
    case Unref(l0) => if h.lst[l0].refcount == 1 { UnrefTells(h, l0, k, l, e, n); }
    case AddWatch(l0, e0) => AddTells(h, l0, e0, k, l, e, n);
    case RemoveWatch(l0, e0) => RemoveTells(h, l0, e0, k, l, e, n);
    case _ =>
  }

  /** Over any run the balance of what was asked decides the callbacks of every operation:
      a watch is told added when it is added at balance zero, removed when the balance comes
      back to zero or one of its ends dies, and a push reaches exactly the listeners with a
      positive balance, each once. */
  lemma CallsByBalance(ops: seq<Op>, op: Op, k: Kind, l: Ref, e: Ref)
    ensures var r := Exec(ops);
            r.Run? && Enabled(r.hub, op) && l in r.hub.lst && e in r.hub.evt ==>
              Count(Calls(r.hub, op), k, l, e) ==
              if Expected(r.hub, op, k, l, e, Balance(ops, l, e)) then 1 else 0
  {
    ActivityIsBalance(ops, l, e);
    var r := Exec(ops);
    if r.Run? && Enabled(r.hub, op) && l in r.hub.lst && e in r.hub.evt {
      StepTells(r.hub, op, k, l, e, Balance(ops, l, e));
    }
  }

  /** The callback is one of a live listener, with the name and the identifier of a live event. */
  predicate Names(h: Hub, c: Callback) {
    && c.listener in h.lst && c.event in h.evt
    && c.id == h.evt[c.event].id && c.name == h.evt[c.event].name
    && c.full == (h.lst[c.listener].itf.add && h.lst[c.listener].itf.remove)
  }

  lemma {:induction false} PushNames(h: Hub, ws: seq<Ref>)
    requires Wired(h) && forall w :: w in ws ==> w in h.wat
    ensures forall c :: c in PushCalls(h, ws) ==> Names(h, c)
  {
    if ws != [] {
      assert ws[0] in ws;
      PushNames(h, ws[1..]);
      assert PushCalls(h, ws) == PushCall(h, ws[0]) + PushCalls(h, ws[1..]);
    }
  }

  lemma {:induction false} UnlinkNames(h: Hub, ws: seq<Ref>)
    requires Removable(h, ws)
    ensures forall c :: c in UnlinkAllCalls(h, ws) ==> Names(h, c)
    decreases |ws|
  {
    if ws != [] {
      UnlinkFirst(h, ws);
      var u := Unlink(h, ws[0]);
      UnlinkNames(u, ws[1..]);
      assert UnlinkAllCalls(h, ws) == UnlinkCalls(h, ws[0]) + UnlinkAllCalls(u, ws[1..]);
      assert forall c :: Names(u, c) ==> Names(h, c);
    }
  }

  /** Every callback of a run is to a live listener and names its event as that was made. */
  lemma CallsName(ops: seq<Op>, op: Op)
    ensures var r := Exec(ops);
            r.Run? && Enabled(r.hub, op) ==> forall c :: c in Calls(r.hub, op) ==> Names(r.hub, c)
  {
    var r := Exec(ops);
    if r.Run? && Enabled(r.hub, op) {
      StepNames(r.hub, op);
    }
  }

  lemma StepNames(h: Hub, op: Op)
    requires Valid(h) && Enabled(h, op)
    ensures forall c :: c in Calls(h, op) ==> Names(h, c)
  {
    match op
    case Push(e) => PushNames(h, h.byEvent[e]);
    case DestroyEvent(e) => if e in h.events { UnlinkNames(h, h.byEvent[e]); }
    case Unref(l) => if h.lst[l].refcount == 1 { UnlinkNames(h, h.byListener[l]); }
    case _ =>
  }
}
