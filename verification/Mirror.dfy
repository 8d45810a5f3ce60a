/** The remote mirror of events (src/afb-api-ws.c): a server listener sends a
    message for each callback it gets, a client rebuilds its event table from the
    messages, and a reliable first-in first-out link lies between them. */
module Mirror {
  import opened EventHub
  import opened EventOps
  import opened EventTrace
  import opened EventTable

  function KeyOf(c: Callback): Key {
    Key(c.id, c.name)
  }

  /** The messages that the listener `me` sends for the callbacks it gets. */
  function Sent(cs: seq<Callback>, me: Ref): seq<Msg> {
    if cs == [] then []
    else
      var c := cs[0];
      (if c.listener != me then []
       else match c.kind
         case Added => [Plus(KeyOf(c))]
         case Removed => [Minus(KeyOf(c))]
         case Pushed => [Bang(KeyOf(c))]) + Sent(cs[1..], me)
  }

  // ----- one batch of callbacks

  /** The callback is about a live event, under its identifier and name. */
  ghost predicate Faithful(evt: map<Ref, Event>, lst: map<Ref, Listener>, c: Callback) {
    && c.event in evt && evt[c.event] == Event(c.id, c.name)
    && c.listener in lst && c.full == Full(lst[c.listener].itf)
  }

  ghost predicate AllFaithful(evt: map<Ref, Event>, lst: map<Ref, Listener>, cs: seq<Callback>) {
    forall i :: 0 <= i < |cs| ==> Faithful(evt, lst, cs[i])
  }

  lemma {:induction false} UnlinkAllFaithful(h: Hub, ws: seq<Ref>)
    requires Removable(h, ws)
    ensures AllFaithful(h.evt, h.lst, UnlinkAllCalls(h, ws))
    decreases |ws|
  {
    if ws != [] {
      UnlinkFirst(h, ws);
      UnlinkAllFaithful(Unlink(h, ws[0]), ws[1..]);
    }
  }

  lemma {:induction false} PushFaithful(h: Hub, ws: seq<Ref>)
    requires Wired(h) && forall w :: w in ws ==> w in h.wat
    ensures AllFaithful(h.evt, h.lst, PushCalls(h, ws))
  {
    if ws != [] {
      assert ws[0] in ws;
      PushFaithful(h, ws[1..]);
    }
  }

  lemma CallsFaithful(h: Hub, op: Op)
    requires Valid(h) && Enabled(h, op)
    ensures AllFaithful(h.evt, h.lst, Calls(h, op))
  {
    match op
    case DestroyEvent(e) => if e in h.events { UnlinkAllFaithful(h, h.byEvent[e]); }
    case Unref(l) => if h.lst[l].refcount == 1 { UnlinkAllFaithful(h, h.byListener[l]); }
    case Push(e) => PushFaithful(h, h.byEvent[e]);
    case _ =>
  }

  /** The keys of the events `me` actively watches. */
  ghost function Watched(pairs: set<Pair>, me: Ref, evt: map<Ref, Event>): set<Key> {
    set p | p in pairs && p.0 == me && p.1 in evt :: Key(evt[p.1].id, evt[p.1].name)
  }

  ghost predicate Injective(evt: map<Ref, Event>) {
    forall d, e :: d in evt && e in evt && evt[d].id == evt[e].id ==> d == e
  }

  lemma WatchedHas(pairs: set<Pair>, me: Ref, evt: map<Ref, Event>, e: Ref)
    requires Injective(evt) && e in evt
    ensures (me, e) in pairs <==> Key(evt[e].id, evt[e].name) in Watched(pairs, me, evt)
  {
    var k := Key(evt[e].id, evt[e].name);
    if k in Watched(pairs, me, evt) {
      var p :| p in pairs && p.0 == me && p.1 in evt && Key(evt[p.1].id, evt[p.1].name) == k;
      assert p == (me, e);
    }
    if (me, e) in pairs {
      assert (me, e).1 in evt;
    }
  }

  lemma WatchedMore(pairs: set<Pair>, me: Ref, evt: map<Ref, Event>, e: Ref)
    requires e in evt
    ensures Watched(pairs + {(me, e)}, me, evt) == Watched(pairs, me, evt) + {Key(evt[e].id, evt[e].name)}
  {
    var p := (me, e);
    assert p in pairs + {p} && p.0 == me && p.1 in evt;
  }

  lemma WatchedLess(pairs: set<Pair>, me: Ref, evt: map<Ref, Event>, e: Ref)
    requires Injective(evt) && e in evt
    ensures Watched(pairs - {(me, e)}, me, evt) == Watched(pairs, me, evt) - {Key(evt[e].id, evt[e].name)}
  {
    var k := Key(evt[e].id, evt[e].name);
    WatchedHas(pairs - {(me, e)}, me, evt, e);
    forall x | x in Watched(pairs, me, evt) && x != k
      ensures x in Watched(pairs - {(me, e)}, me, evt)
    {
      var p :| p in pairs && p.0 == me && p.1 in evt && Key(evt[p.1].id, evt[p.1].name) == x;
      assert p in pairs - {(me, e)};
    }
  }

  lemma WatchedOther(pairs: set<Pair>, me: Ref, evt: map<Ref, Event>, p: Pair)
    requires p.0 != me
    ensures Watched(pairs + {p}, me, evt) == Watched(pairs, me, evt)
    ensures Watched(pairs - {p}, me, evt) == Watched(pairs, me, evt)
  {
    forall x | x in Watched(pairs, me, evt)
      ensures x in Watched(pairs - {p}, me, evt)
    {
      var q :| q in pairs && q.0 == me && q.1 in evt && Key(evt[q.1].id, evt[q.1].name) == x;
      assert q in pairs - {p};
    }
  }

  /** One callback and its message, if any. */
  lemma OneMirrored(pairs: set<Pair>, c: Callback, me: Ref, evt: map<Ref, Event>, lst: map<Ref, Listener>,
      t: seq<Entry>)
    requires Injective(evt) && Faithful(evt, lst, c) && (me in lst ==> Full(lst[me].itf))
    requires See(pairs, c).Open? && Holds(t, Watched(pairs, me, evt))
    ensures AllUnderstood(t, Sent([c], me))
    ensures Holds(Drain(t, Sent([c], me)), Watched(See(pairs, c).pairs, me, evt))
  {
    var keys := Watched(pairs, me, evt);
    if c.listener != me {
      WatchedOther(pairs, me, evt, (c.listener, c.event));
    } else {
      WatchedHas(pairs, me, evt, c.event);
      SearchHolds(t, keys, KeyOf(c));
      match c.kind
      case Added =>
        PlusHolds(t, keys, KeyOf(c));
        WatchedMore(pairs, me, evt, c.event);
      case Removed =>
        MinusHolds(t, keys, KeyOf(c));
        WatchedLess(pairs, me, evt, c.event);
      case Pushed =>
    }
  }

  lemma {:induction false} SentConcat(a: seq<Callback>, b: seq<Callback>, me: Ref)
    ensures Sent(a + b, me) == Sent(a, me) + Sent(b, me)
  {
    if a == [] {
      assert a + b == b;
    } else {
      assert (a + b)[1..] == a[1..] + b;
      SentConcat(a[1..], b, me);
    }
  }

  /** A consistent batch of callbacks keeps the table in step with the active pairs. */
  lemma {:induction false} BatchMirrored(pairs: set<Pair>, cs: seq<Callback>, me: Ref, evt: map<Ref, Event>,
      lst: map<Ref, Listener>, t: seq<Entry>)
    requires Injective(evt) && AllFaithful(evt, lst, cs) && (me in lst ==> Full(lst[me].itf))
    requires Replay(pairs, cs).Open? && Holds(t, Watched(pairs, me, evt))
    ensures AllUnderstood(t, Sent(cs, me))
    ensures Holds(Drain(t, Sent(cs, me)), Watched(Replay(pairs, cs).pairs, me, evt))
    decreases |cs|
  {
    if cs != [] {
      var c, rest := cs[0], cs[1..];
      assert cs == [c] + rest;
      OneMirrored(pairs, c, me, evt, lst, t);
      SentConcat([c], rest, me);
      DrainConcat(t, Sent([c], me), Sent(rest, me));
      assert AllFaithful(evt, lst, rest);
      BatchMirrored(See(pairs, c).pairs, rest, me, evt, lst, Drain(t, Sent([c], me)));
    }
  }

  // ----- the whole system

  datatype System = System(hub: Hub, me: Ref, link: seq<Msg>, table: seq<Entry>)

  datatype Step =
    | Operate(op: Op)
    | Subscribe(msgid: nat, e: Ref)
    | Unsubscribe(msgid: nat, e: Ref)
    | Deliver

  ghost predicate Possible(s: System, step: Step) {
    match step
    case Operate(op) => Enabled(s.hub, op)
    case Subscribe(_, e) => s.me in s.hub.lst && e in s.hub.evt
    case Unsubscribe(_, e) => s.me in s.hub.lst && e in s.hub.evt
    case Deliver => s.link != []
  }

  ghost function Operated(s: System, op: Op): System
    requires Valid(s.hub) && Enabled(s.hub, op)
  {
    s.(hub := After(s.hub, op), link := s.link + Sent(Calls(s.hub, op), s.me))
  }

  /** Subscribing watches first, then tells the client; unsubscribing tells first. */
  ghost function Perform(s: System, step: Step): System
    requires Valid(s.hub) && Possible(s, step)
  {
    match step
    case Operate(op) => Operated(s, op)
    case Subscribe(msgid, e) =>
      var u := Operated(s, AddWatch(s.me, e));
      if s.hub.lst[s.me].itf.push then u.(link := u.link + [Sub(msgid, Key(s.hub.evt[e].id, s.hub.evt[e].name))]) else u
    case Unsubscribe(msgid, e) =>
      Operated(s.(link := s.link + [Unsub(msgid, Key(s.hub.evt[e].id, s.hub.evt[e].name))]), RemoveWatch(s.me, e))
    case Deliver => s.(table := Receive(s.table, s.link[0]), link := s.link[1..])
  }

  /** What the server listener actively watches, as keys. */
  ghost function Mine(s: System): set<Key> {
    Watched(Active(s.hub), s.me, s.hub.evt)
  }

  ghost predicate InStep(s: System) {
    && Valid(s.hub)
    && s.me < s.hub.next
    && (s.me in s.hub.lst ==> Full(s.hub.lst[s.me].itf))
    && AllUnderstood(s.table, s.link)
    && Holds(Drain(s.table, s.link), Mine(s))
    && Ones(s.table)
  }

  /** Neither renames an event nor revives a dead handle. */
  ghost predicate Stable(h: Hub, u: Hub) {
    && h.next <= u.next
    && (forall e :: e in h.evt && e in u.evt ==> u.evt[e] == h.evt[e])
    && (forall l :: l in u.lst && l < h.next ==> l in h.lst && u.lst[l].itf == h.lst[l].itf)
  }

  lemma ListenerStable(h: Hub, itf: Itf, closure: nat)
    requires Chains(h)
    ensures Stable(h, AfterListener(h, itf, closure))
  {
  }

  lemma WatchStable(h: Hub, l: Ref, e: Ref)
    requires Wired(h) && l in h.lst && e in h.evt
    ensures Stable(h, AfterAdd(h, l, e)) && Stable(h, AfterRemove(h, l, e))
  {
  }

  lemma GoneStable(h: Hub, e: Ref)
    requires Wired(h) && e in h.evt
    ensures Stable(h, Without(h, e))
  {
  }

  lemma ListenerGoneStable(h: Hub, l: Ref)
    requires Wired(h) && l in h.lst
    ensures Stable(h, WithoutListener(h, l))
  {
  }

  lemma RefcountStable(h: Hub, l: Ref, delta: int)
    requires l in h.lst
    ensures Stable(h, Refcount(h, l, delta))
  {
  }

  lemma NewEventStable(h: Hub, name: string, id: int, wraps: bool)
    requires Valid(h)
    ensures Stable(h, NewEvent(h, name, id, wraps))
  {
  }

  lemma AfterStable(h: Hub, op: Op)
    requires Valid(h) && Enabled(h, op)
    ensures Stable(h, After(h, op))
  {
    match op
    case DestroyEvent(e) => if e in h.events { GoneStable(h, e); }
    case Unref(l) => if h.lst[l].refcount == 1 { ListenerGoneStable(h, l); } else { RefcountStable(h, l, -1); }
    case AddWatch(l, e) => WatchStable(h, l, e);
    case RemoveWatch(l, e) => WatchStable(h, l, e);
    case CreateListener(itf, closure) => ListenerStable(h, itf, closure);
    case CreateEvent(name, id, wraps) => NewEventStable(h, name, id, wraps);
    case Addref(l) => RefcountStable(h, l, 1);
    case Push(_) =>
  }

  lemma ActiveLive(h: Hub, p: Pair)
    requires Wired(h) && p in Active(h)
    ensures p.1 in h.evt
  {
    var w :| w in h.wat && Hot(h, w) && PairOf(h.wat[w]) == p;
    assert EventOf(h.wat[w]) in h.byEvent;
  }

  lemma WatchedSame(pairs: set<Pair>, me: Ref, a: map<Ref, Event>, b: map<Ref, Event>)
    requires forall p :: p in pairs ==> p.1 in a && p.1 in b && a[p.1] == b[p.1]
    ensures Watched(pairs, me, a) == Watched(pairs, me, b)
  {
  }

  /** The keys watched after an operation may be read in the events before it. */
  lemma WatchedAcross(h: Hub, u: Hub, me: Ref)
    requires Stable(h, u) && Wired(u)
    requires forall p :: p in Active(u) ==> p.1 in h.evt
    ensures Watched(Active(u), me, u.evt) == Watched(Active(u), me, h.evt)
  {
    forall p | p in Active(u)
      ensures p.1 in u.evt
    {
      ActiveLive(u, p);
    }
    WatchedSame(Active(u), me, u.evt, h.evt);
  }

  lemma {:induction false} ReplayLive(pairs: set<Pair>, cs: seq<Callback>, evt: map<Ref, Event>,
      lst: map<Ref, Listener>)
    requires AllFaithful(evt, lst, cs) && Replay(pairs, cs).Open?
    requires forall p :: p in pairs ==> p.1 in evt
    ensures forall p :: p in Replay(pairs, cs).pairs ==> p.1 in evt
    decreases |cs|
  {
    if cs != [] {
      assert AllFaithful(evt, lst, cs[1..]);
      ReplayLive(See(pairs, cs[0]).pairs, cs[1..], evt, lst);
    }
  }

  lemma OperateKeeps(s: System, op: Op)
    requires InStep(s) && Enabled(s.hub, op)
    ensures InStep(Operated(s, op))
  {
    var h := s.hub;
    var cs := Calls(h, op);
    var t := Drain(s.table, s.link);
    StepKeeps(h, op);
    StepReplay(h, op);
    CallsFaithful(h, op);
    forall p | p in Active(h)
      ensures p.1 in h.evt
    {
      ActiveLive(h, p);
    }
    ReplayLive(Active(h), cs, h.evt, h.lst);
    AfterStable(h, op);
    WatchedAcross(h, After(h, op), s.me);
    BatchMirrored(Active(h), cs, s.me, h.evt, h.lst, t);
    DrainConcat(s.table, s.link, Sent(cs, s.me));
  }

  /** A message that changes no table and is understood now may be appended. */
  lemma AppendKeeps(s: System, m: Msg)
    requires InStep(s) && (m.Sub? || m.Unsub?) && (m.Sub? ==> m.key in Mine(s))
    ensures InStep(s.(link := s.link + [m]))
  {
    SearchHolds(Drain(s.table, s.link), Mine(s), m.key);
    DrainConcat(s.table, s.link, [m]);
  }

  lemma SubscribedIsMine(h: Hub, l: Ref, e: Ref)
    requires Valid(h) && l in h.lst && e in h.evt && Full(h.lst[l].itf) && h.lst[l].itf.push
    ensures Key(h.evt[e].id, h.evt[e].name) in Watched(Active(AfterAdd(h, l, e)), l, AfterAdd(h, l, e).evt)
  {
    var r := WatchOf(h, l, e);
    if r.Absent? {
      NewWatchActive(h, l, e);
    } else {
      ActivityActive(h, r.w, h.wat[r.w].activity + 1);
    }
    var u := AfterAdd(h, l, e);
    assert u.evt == h.evt;
    WatchedHas(Active(u), l, u.evt, e);
  }

  lemma StepMirrors(s: System, step: Step)
    requires InStep(s) && Possible(s, step)
    ensures InStep(Perform(s, step))
  {
    match step
    case Operate(op) => OperateKeeps(s, op);
    case Subscribe(msgid, e) =>
      OperateKeeps(s, AddWatch(s.me, e));
      var u := Operated(s, AddWatch(s.me, e));
      if s.hub.lst[s.me].itf.push {
        SubscribedIsMine(s.hub, s.me, e);
        AppendKeeps(u, Sub(msgid, Key(s.hub.evt[e].id, s.hub.evt[e].name)));
      }
    case Unsubscribe(msgid, e) =>
      var m := Unsub(msgid, Key(s.hub.evt[e].id, s.hub.evt[e].name));
      AppendKeeps(s, m);
      OperateKeeps(s.(link := s.link + [m]), RemoveWatch(s.me, e));
    case Deliver => ReceiveOnes(s.table, s.link[0]);
  }

  /** A connection starts when the server has just created its listener. */
  ghost predicate Connected(s: System) {
    && Valid(s.hub) && s.me in s.hub.lst && Full(s.hub.lst[s.me].itf) && s.hub.byListener[s.me] == []
    && s.link == [] && s.table == []
  }

  lemma ConnectedInStep(s: System)
    requires Connected(s)
    ensures InStep(s)
  {
    forall p | p in Active(s.hub)
      ensures p.0 != s.me
    {
      var w :| w in s.hub.wat && Hot(s.hub, w) && PairOf(s.hub.wat[w]) == p;
      assert ListenerOf(s.hub.wat[w]) in s.hub.byListener;
    }
    assert Mine(s) == {};
  }

  datatype Reached = Nowhere | Reached(system: System)

  ghost function Steps(s: System, steps: seq<Step>): (r: Reached)
    requires InStep(s)
    ensures r.Reached? ==> InStep(r.system)
  {
    if steps == [] then Reached(s)
    else
      var r, step := Steps(s, steps[..|steps| - 1]), steps[|steps| - 1];
      if r.Reached? && Possible(r.system, step) then
        StepMirrors(r.system, step);
        Reached(Perform(r.system, step))
      else Nowhere
  }

  /** After any steps of server and client, receiving what is still on the link
      gives a table with exactly the events the server listener actively watches,
      each referenced once; every message on the link will be understood, and the
      table of the moment has no entry referenced twice. */
  lemma MirrorAgrees(s: System, steps: seq<Step>, key: Key)
    requires Connected(s)
    ensures InStep(s)
    ensures var r := Steps(s, steps);
            r.Reached? ==>
              var t := Drain(r.system.table, r.system.link);
              && (Search(t, key) < |t| <==> key in Mine(r.system))
              && (Search(t, key) < |t| ==> t[Search(t, key)].refcount == 1)
              && AllUnderstood(r.system.table, r.system.link)
              && Ones(r.system.table)
  {
    ConnectedInStep(s);
    var r := Steps(s, steps);
    if r.Reached? {
      SearchHolds(Drain(r.system.table, r.system.link), Mine(r.system), key);
    }
  }
}
