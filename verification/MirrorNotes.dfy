/** What reaches the client of a mirror: everything its server listener is told, and
    every subscription of its requests, once and in order. */
module MirrorNotes {
  import opened EventHub
  import opened EventOps
  import opened EventTrace
  import opened EventTable
  import opened Mirror

  /** That an event is added, removed or pushed. */
  datatype Note = Note(kind: Kind, key: Key)

  /** What the listener `me` is told, in order. */
  function Told(cs: seq<Callback>, me: Ref): seq<Note> {
    if cs == [] then []
    else
      var c := cs[|cs| - 1];
      Told(cs[..|cs| - 1], me) + if c.listener == me then [Note(c.kind, Key(c.id, c.name))] else []
  }

  /** What the messages tell of events. */
  function Read(ms: seq<Msg>): seq<Note> {
    if ms == [] then []
    else Read(ms[..|ms| - 1]) + ReadOne(ms[|ms| - 1])
  }

  function ReadOne(m: Msg): seq<Note> {
    match m
    case Plus(key) => [Note(Added, key)]
    case Minus(key) => [Note(Removed, key)]
    case Bang(key) => [Note(Pushed, key)]
    case Sub(_, _) => []
    case Unsub(_, _) => []
  }

  /** A subscription or an unsubscription of the request `msgid`. */
  datatype Request = Request(on: bool, msgid: nat, key: Key)

  function Requests(ms: seq<Msg>): seq<Request> {
    if ms == [] then []
    else Requests(ms[..|ms| - 1]) + RequestOf(ms[|ms| - 1])
  }

  function RequestOf(m: Msg): seq<Request> {
    match m
    case Sub(msgid, key) => [Request(true, msgid, key)]
    case Unsub(msgid, key) => [Request(false, msgid, key)]
    case _ => []
  }

  lemma {:induction false} ToldConcat(a: seq<Callback>, b: seq<Callback>, me: Ref)
    ensures Told(a + b, me) == Told(a, me) + Told(b, me)
    decreases |b|
  {
    if b == [] {
      assert a + b == a;
    } else {
      var n := |b| - 1;
      assert (a + b)[..|a + b| - 1] == a + b[..n] && (a + b)[|a + b| - 1] == b[n];
      ToldConcat(a, b[..n], me);
      var last := if b[n].listener == me then [Note(b[n].kind, Key(b[n].id, b[n].name))] else [];
      assert (Told(a, me) + Told(b[..n], me)) + last == Told(a, me) + (Told(b[..n], me) + last);
    }
  }

  lemma Assoc<T>(a: seq<T>, b: seq<T>, c: seq<T>)
    ensures (a + b) + c == a + (b + c)
  {
  }

  lemma LastOfSum<T>(a: seq<T>, b: seq<T>, n: nat)
    requires |b| == n + 1
    ensures (a + b)[..|a + b| - 1] == a + b[..n] && (a + b)[|a + b| - 1] == b[n]
  {
  }

  lemma {:induction false} ReadConcat(a: seq<Msg>, b: seq<Msg>)
    ensures Read(a + b) == Read(a) + Read(b)
    decreases |b|
  {
    if b == [] {
      assert a + b == a;
    } else {
      var n := |b| - 1;
      LastOfSum(a, b, n);
      ReadConcat(a, b[..n]);
      Assoc(Read(a), Read(b[..n]), ReadOne(b[n]));
    }
  }

  lemma {:induction false} RequestsConcat(a: seq<Msg>, b: seq<Msg>)
    ensures Requests(a + b) == Requests(a) + Requests(b)
    decreases |b|
  {
    if b == [] {
      assert a + b == a;
    } else {
      var n := |b| - 1;
      LastOfSum(a, b, n);
      RequestsConcat(a, b[..n]);
      Assoc(Requests(a), Requests(b[..n]), RequestOf(b[n]));
    }
  }

  lemma ReadSingle(m: Msg)
    ensures Read([m]) == ReadOne(m) && Requests([m]) == RequestOf(m)
  {
    assert [m][..0] == [];
  }

  lemma ToldSingle(c: Callback, me: Ref)
    ensures Told([c], me) == if c.listener == me then [Note(c.kind, Key(c.id, c.name))] else []
  {
    assert [c][..0] == [];
  }

  /** The messages sent for callbacks tell what the callbacks told. */
  lemma {:induction false} SentTells(cs: seq<Callback>, me: Ref)
    ensures Read(Sent(cs, me)) == Told(cs, me)
    ensures Requests(Sent(cs, me)) == []
  {
    if cs != [] {
      var c, rest := cs[0], cs[1..];
      SentTells(rest, me);
      assert [c] + rest == cs;
      ToldConcat([c], rest, me);
      ToldSingle(c, me);
      SentConcat([c], rest, me);
      SentSingle(c, me);
      ReadConcat(Sent([c], me), Sent(rest, me));
      RequestsConcat(Sent([c], me), Sent(rest, me));
    }
  }

  lemma SentSingle(c: Callback, me: Ref)
    ensures Read(Sent([c], me)) == Told([c], me) && Requests(Sent([c], me)) == []
  {
    ToldSingle(c, me);
    assert Sent([c][1..], me) == [];
    if c.listener == me {
      var m := match c.kind case Added => Plus(KeyOf(c)) case Removed => Minus(KeyOf(c)) case Pushed => Bang(KeyOf(c));
      assert Sent([c], me) == [m];
      ReadSingle(m);
    }
  }

  // ----- over a run

  /** The callbacks that the hub makes in a step. */
  ghost function CallsOf(s: System, step: Step): seq<Callback>
    requires Valid(s.hub) && Possible(s, step)
  {
    match step
    case Operate(op) => Calls(s.hub, op)
    case Subscribe(_, e) => Calls(s.hub, AddWatch(s.me, e))
    case Unsubscribe(_, e) => Calls(s.hub, RemoveWatch(s.me, e))
    case Deliver => []
  }

  /** What a request asks for in a step; a listener without push cannot subscribe. */
  ghost function AskedBy(s: System, step: Step): seq<Request>
    requires Possible(s, step)
  {
    match step
    case Subscribe(msgid, e) =>
      if s.hub.lst[s.me].itf.push then [Request(true, msgid, Key(s.hub.evt[e].id, s.hub.evt[e].name))] else []
    case Unsubscribe(msgid, e) => [Request(false, msgid, Key(s.hub.evt[e].id, s.hub.evt[e].name))]
    case _ => []
  }

  /** What happened in a run: the callbacks made, the requests asked, the messages delivered. */
  datatype Record = Record(calls: seq<Callback>, asked: seq<Request>, delivered: seq<Msg>)

  ghost function Recorded(c: Record, s: System, step: Step): Record
    requires Valid(s.hub) && Possible(s, step)
  {
    Record(c.calls + CallsOf(s, step), c.asked + AskedBy(s, step),
           if step.Deliver? then c.delivered + [s.link[0]] else c.delivered)
  }

  ghost function RecordOf(s: System, steps: seq<Step>): Record
    requires InStep(s)
  {
    if steps == [] then Record([], [], [])
    else
      var prev, step := steps[..|steps| - 1], steps[|steps| - 1];
      var r, c := Steps(s, prev), RecordOf(s, prev);
      if r.Reached? && Possible(r.system, step) then Recorded(c, r.system, step) else c
  }

  /** The messages delivered and those on the link tell all that was called and asked. */
  ghost predicate Complete(c: Record, s: System) {
    var ms := c.delivered + s.link;
    Read(ms) == Told(c.calls, s.me) && Requests(ms) == c.asked
  }

  lemma ReadMore(d: seq<Msg>, link: seq<Msg>, more: seq<Msg>)
    ensures Read(d + (link + more)) == Read(d + link) + Read(more)
    ensures Requests(d + (link + more)) == Requests(d + link) + Requests(more)
  {
    Assoc(d, link, more);
    ReadConcat(d + link, more);
    RequestsConcat(d + link, more);
  }

  /** More messages on the link. */
  lemma MoreTold(c: Record, s: System, more: seq<Msg>, calls: seq<Callback>, asked: seq<Request>, u: System)
    requires Complete(c, s) && Read(more) == Told(calls, s.me) && Requests(more) == asked
    requires u.link == s.link + more && u.me == s.me
    ensures Complete(Record(c.calls + calls, c.asked + asked, c.delivered), u)
  {
    ReadMore(c.delivered, s.link, more);
    ToldConcat(c.calls, calls, s.me);
  }

  lemma DeliveredTold(c: Record, s: System)
    requires Complete(c, s) && s.link != []
    ensures Complete(c.(delivered := c.delivered + [s.link[0]]), s.(link := s.link[1..]))
  {
    assert (c.delivered + [s.link[0]]) + s.link[1..] == c.delivered + s.link;
  }

  lemma SubscribeTold(s: System, msgid: nat, e: Ref, more: seq<Msg>)
    requires Valid(s.hub) && s.me in s.hub.lst && e in s.hub.evt
    requires var sent := Sent(Calls(s.hub, AddWatch(s.me, e)), s.me);
             more == if s.hub.lst[s.me].itf.push
                     then sent + [Sub(msgid, Key(s.hub.evt[e].id, s.hub.evt[e].name))] else sent
    ensures Read(more) == Told(Calls(s.hub, AddWatch(s.me, e)), s.me)
    ensures Requests(more) == AskedBy(s, Subscribe(msgid, e))
  {
    var sent, m := Sent(Calls(s.hub, AddWatch(s.me, e)), s.me), Sub(msgid, Key(s.hub.evt[e].id, s.hub.evt[e].name));
    SentTells(Calls(s.hub, AddWatch(s.me, e)), s.me);
    ReadConcat(sent, [m]);
    RequestsConcat(sent, [m]);
    ReadSingle(m);
  }

  lemma UnsubscribeTold(s: System, msgid: nat, e: Ref, more: seq<Msg>)
    requires Valid(s.hub) && s.me in s.hub.lst && e in s.hub.evt
    requires more == [Unsub(msgid, Key(s.hub.evt[e].id, s.hub.evt[e].name))]
                     + Sent(Calls(s.hub, RemoveWatch(s.me, e)), s.me)
    ensures Read(more) == Told(Calls(s.hub, RemoveWatch(s.me, e)), s.me)
    ensures Requests(more) == AskedBy(s, Unsubscribe(msgid, e))
  {
    var m := Unsub(msgid, Key(s.hub.evt[e].id, s.hub.evt[e].name));
    SentTells(Calls(s.hub, RemoveWatch(s.me, e)), s.me);
    ReadConcat([m], Sent(Calls(s.hub, RemoveWatch(s.me, e)), s.me));
    RequestsConcat([m], Sent(Calls(s.hub, RemoveWatch(s.me, e)), s.me));
    ReadSingle(m);
  }

  /** What a step of the server puts on the link tells what it called and asked. */
  lemma StepTold(s: System, step: Step) returns (more: seq<Msg>)
    requires Valid(s.hub) && Possible(s, step) && !step.Deliver?
    ensures Perform(s, step).link == s.link + more && Perform(s, step).me == s.me
    ensures Read(more) == Told(CallsOf(s, step), s.me) && Requests(more) == AskedBy(s, step)
  {
    var sent := Sent(CallsOf(s, step), s.me);
    match step
    case Operate(op) =>
      more := sent;
      SentTells(CallsOf(s, step), s.me);
    case Subscribe(msgid, e) =>
      var m := Sub(msgid, Key(s.hub.evt[e].id, s.hub.evt[e].name));
      more := if s.hub.lst[s.me].itf.push then sent + [m] else sent;
      assert (s.link + sent) + [m] == s.link + (sent + [m]);
      SubscribeTold(s, msgid, e, more);
    case Unsubscribe(msgid, e) =>
      var m := Unsub(msgid, Key(s.hub.evt[e].id, s.hub.evt[e].name));
      more := [m] + sent;
      assert (s.link + [m]) + sent == s.link + ([m] + sent);
      UnsubscribeTold(s, msgid, e, more);
  }

  lemma StepComplete(c: Record, s: System, step: Step)
    requires Valid(s.hub) && Possible(s, step) && Complete(c, s)
    ensures Complete(Recorded(c, s, step), Perform(s, step))
  {
    if step.Deliver? {
      DeliveredTold(c, s);
      assert c.calls + [] == c.calls && c.asked + [] == c.asked;
    } else {
      var more := StepTold(s, step);
      MoreTold(c, s, more, CallsOf(s, step), AskedBy(s, step), Perform(s, step));
    }
  }

  /** After any steps of server and client, the messages delivered so far followed by those
      on the link tell in order exactly the additions, removals and pushes that the server
      listener was called for, and the subscriptions that were asked. */
  lemma {:induction false} NotesArrive(s: System, steps: seq<Step>)
    requires Connected(s)
    ensures InStep(s)
    ensures var r, c := Steps(s, steps), RecordOf(s, steps);
            r.Reached? ==>
              && Read(c.delivered + r.system.link) == Told(c.calls, r.system.me)
              && Requests(c.delivered + r.system.link) == c.asked
  {
    ConnectedInStep(s);
    if steps != [] {
      var prev, step := steps[..|steps| - 1], steps[|steps| - 1];
      NotesArrive(s, prev);
      var r := Steps(s, prev);
      if r.Reached? && Possible(r.system, step) {
        StepComplete(RecordOf(s, prev), r.system, step);
      }
    }
  }

  /** An unsubscription is told while the client still has the event: it finds the event
      exactly when the listener actively watched it. */
  lemma UnsubscribedIsFound(s: System, msgid: nat, e: Ref)
    requires InStep(s) && Possible(s, Unsubscribe(msgid, e))
    ensures var key := Key(s.hub.evt[e].id, s.hub.evt[e].name);
            && s.link + [Unsub(msgid, key)] <= Perform(s, Unsubscribe(msgid, e)).link
            && var t := Drain(s.table, s.link);
               Search(t, key) < |t| <==> (s.me, e) in Active(s.hub)
  {
    var key := Key(s.hub.evt[e].id, s.hub.evt[e].name);
    SearchHolds(Drain(s.table, s.link), Mine(s), key);
    WatchedHas(Active(s.hub), s.me, s.hub.evt, e);
  }
}
