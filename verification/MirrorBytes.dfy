/** The mirror of events over the bytes that src/afb-api-ws.c sends. */
module MirrorBytes {
  import opened Options
  import opened Bytes
  import opened ApiCodec
  import ApiMessages
  import opened EventHub
  import EventOps
  import opened EventTrace
  import opened EventTable
  import opened Mirror

  // ----- names

  /** A name that is a C string of bytes, short enough to be sent. */
  predicate Plain(name: string) {
    |name| + 1 < WORD && forall i :: 0 <= i < |name| ==> 0 < name[i] as int < 256
  }

  function NameBytes(name: string): (r: cstring)
    requires Plain(name)
    ensures |r| == |name|
  {
    seq(|name|, i requires 0 <= i < |name| => name[i] as int)
  }

  function NameOf(s: seq<byte>): string {
    seq(|s|, i requires 0 <= i < |s| => s[i] as char)
  }

  lemma NameBack(name: string)
    requires Plain(name)
    ensures NameOf(NameBytes(name)) == name
  {
  }

  // ----- messages

  predicate Carried(m: Msg) {
    Plain(m.key.name) && 0 <= m.key.id < WORD && (m.Sub? || m.Unsub? ==> m.msgid < WORD)
  }

  /** What the server sends for a message of the mirror; `json` is the object pushed. */
  function ServerOf(m: Msg, json: cstring): ApiMessages.ServerMsg
    requires Carried(m)
  {
    var id, name := m.key.id, NameBytes(m.key.name);
    match m
    case Plus(_) => ApiMessages.Create(id, name)
    case Minus(_) => ApiMessages.Drop(id, name)
    case Bang(_) => ApiMessages.Push(id, name, json)
    case Sub(msgid, _) => ApiMessages.Subscribe(msgid, id, name)
    case Unsub(msgid, _) => ApiMessages.Unsubscribe(msgid, id, name)
  }

  /** What the client makes of a message for its table. */
  function MsgOf(m: ApiMessages.ServerMsg): Option<Msg> {
    match m
    case Create(id, name) => Some(Plus(Key(id, NameOf(name))))
    case Drop(id, name) => Some(Minus(Key(id, NameOf(name))))
    case Push(id, name, _) => Some(Bang(Key(id, NameOf(name))))
    case Subscribe(msgid, id, name) => Some(Sub(msgid, Key(id, NameOf(name))))
    case Unsubscribe(msgid, id, name) => Some(Unsub(msgid, Key(id, NameOf(name))))
    case _ => None
  }

  /** A message of the client's table, from the bytes received. */
  function ReceiveBytes(t: seq<Entry>, data: seq<byte>): seq<Entry> {
    var r := ApiMessages.Decode(data);
    if r.NoRead? then t
    else
      var m := MsgOf(r.value);
      if m.None? then t else Receive(t, m.value)
  }

  function DrainBytes(t: seq<Entry>, packets: seq<seq<byte>>): seq<Entry>
    decreases |packets|
  {
    if packets == [] then t else DrainBytes(ReceiveBytes(t, packets[0]), packets[1..])
  }

  /** The packet of a message, with the object `json` if it is a push. */
  predicate PacketWith(data: seq<byte>, m: Msg, json: cstring) {
    Carried(m) && |json| + 1 < WORD && ApiMessages.Encode(ServerOf(m, json)) == Some(data)
  }

  /** The packet of a message, whatever object it pushes. */
  ghost predicate PacketOf(data: seq<byte>, m: Msg) {
    exists json: cstring :: PacketWith(data, m, json)
  }

  lemma Sent(m: Msg, json: cstring)
    requires Carried(m) && |json| + 1 < WORD
    ensures ApiMessages.Encode(ServerOf(m, json)).Some?
    ensures MsgOf(ServerOf(m, json)) == Some(m)
  {
    NameBack(m.key.name);
    ApiMessages.SentIffShort(ServerOf(m, json));
  }

  /** Receiving the bytes of a message is receiving the message. */
  lemma ReceiveSent(t: seq<Entry>, data: seq<byte>, m: Msg)
    requires PacketOf(data, m)
    ensures ReceiveBytes(t, data) == Receive(t, m)
  {
    var json: cstring :| PacketWith(data, m, json);
    Sent(m, json);
    ApiMessages.ServerRoundTrip(ServerOf(m, json));
  }

  lemma {:induction false} DrainSent(t: seq<Entry>, packets: seq<seq<byte>>, ms: seq<Msg>)
    requires |packets| == |ms| && forall i :: 0 <= i < |ms| ==> PacketOf(packets[i], ms[i])
    ensures DrainBytes(t, packets) == Drain(t, ms)
    decreases |ms|
  {
    if ms != [] {
      ReceiveSent(t, packets[0], ms[0]);
      DrainSent(Receive(t, ms[0]), packets[1..], ms[1..]);
    }
  }

  // ----- the whole system over packets

  /** The server, the packets on the link and the table of the client. */
  datatype ByteSystem = ByteSystem(hub: Hub, me: Ref, link: seq<seq<byte>>, table: seq<Entry>)

  /** A step, with the object that it pushes, if any, and the packets that the server then sends. */
  datatype Move = Move(step: Step, json: cstring, sent: seq<seq<byte>>)

  ghost predicate Paired<A, B>(a: seq<A>, b: seq<B>, p: (A, B) -> bool) {
    |a| == |b| && forall i :: 0 <= i < |a| ==> p(a[i], b[i])
  }

  lemma PairedJoin<A, B>(a: seq<A>, b: seq<B>, c: seq<A>, d: seq<B>, p: (A, B) -> bool)
    requires Paired(a, b, p) && Paired(c, d, p)
    ensures Paired(a + c, b + d, p)
  {
  }

  ghost predicate Packets(packets: seq<seq<byte>>, ms: seq<Msg>) {
    Paired(packets, ms, (d: seq<byte>, m: Msg) => PacketOf(d, m))
  }

  ghost predicate PacketsWith(packets: seq<seq<byte>>, ms: seq<Msg>, json: cstring) {
    Paired(packets, ms, (d: seq<byte>, m: Msg) => PacketWith(d, m, json))
  }

  lemma WithObject(packets: seq<seq<byte>>, ms: seq<Msg>, json: cstring)
    requires PacketsWith(packets, ms, json)
    ensures Packets(packets, ms)
  {
    forall i | 0 <= i < |ms|
      ensures PacketOf(packets[i], ms[i])
    {
      assert PacketWith(packets[i], ms[i], json);
    }
  }

  /** The server alone: the hub after a step of its own, and what it has to send. */
  ghost function Served(h: Hub, me: Ref, step: Step): System
    requires Valid(h) && !step.Deliver? && Possible(System(h, me, [], []), step)
  {
    Perform(System(h, me, [], []), step)
  }

  lemma ServedValid(h: Hub, me: Ref, step: Step)
    requires Valid(h) && !step.Deliver? && Possible(System(h, me, [], []), step)
    ensures Valid(Served(h, me, step).hub)
  {
    match step
    case Operate(op) => EventOps.StepKeeps(h, op);
    case Subscribe(_, e) => EventOps.StepKeeps(h, EventOps.AddWatch(me, e));
    case Unsubscribe(_, e) => EventOps.StepKeeps(h, EventOps.RemoveWatch(me, e));
  }

  /** What a step of the server does does not depend on the link and on the table. */
  lemma ServedApart(s: System, step: Step)
    requires Valid(s.hub) && !step.Deliver? && Possible(s, step)
    ensures var e := Served(s.hub, s.me, step);
            Perform(s, step) == System(e.hub, s.me, s.link + e.link, s.table)
  {
    match step
    case Operate(op) => Associative(s.link, Mirror.Sent(EventOps.Calls(s.hub, op), s.me));
    case Subscribe(msgid, e) => SubscribeApart(s, msgid, e);
    case Unsubscribe(msgid, e) => UnsubscribeApart(s, msgid, e);
  }

  lemma SubscribeApart(s: System, msgid: nat, e: Ref)
    requires Valid(s.hub) && Possible(s, Subscribe(msgid, e))
    ensures var x := Served(s.hub, s.me, Subscribe(msgid, e));
            Perform(s, Subscribe(msgid, e)) == System(x.hub, s.me, s.link + x.link, s.table)
  {
    Associative(s.link, Mirror.Sent(EventOps.Calls(s.hub, EventOps.AddWatch(s.me, e)), s.me));
  }

  lemma UnsubscribeApart(s: System, msgid: nat, e: Ref)
    requires Valid(s.hub) && Possible(s, Unsubscribe(msgid, e))
    ensures var x := Served(s.hub, s.me, Unsubscribe(msgid, e));
            Perform(s, Unsubscribe(msgid, e)) == System(x.hub, s.me, s.link + x.link, s.table)
  {
    Associative(s.link, Mirror.Sent(EventOps.Calls(s.hub, EventOps.RemoveWatch(s.me, e)), s.me));
  }

  lemma Associative(a: seq<Msg>, b: seq<Msg>)
    ensures [] + b == b && a + ([] + b) == a + b
    ensures forall c :: (a + b) + [c] == a + (b + [c]) && (a + [c]) + b == a + (([] + [c]) + b)
  {
  }

  ghost predicate Allowed(b: ByteSystem, m: Move)
    requires Valid(b.hub)
  {
    if m.step.Deliver? then b.link != [] && m.sent == []
    else
      && Possible(System(b.hub, b.me, [], []), m.step)
      && PacketsWith(m.sent, Served(b.hub, b.me, m.step).link, m.json)
  }

  /** The client decodes each packet that it receives. */
  ghost function Moved(b: ByteSystem, m: Move): (r: ByteSystem)
    requires Valid(b.hub) && Allowed(b, m)
    ensures Valid(r.hub)
  {
    if m.step.Deliver? then b.(table := ReceiveBytes(b.table, b.link[0]), link := b.link[1..])
    else
      ServedValid(b.hub, b.me, m.step);
      b.(hub := Served(b.hub, b.me, m.step).hub, link := b.link + m.sent)
  }

  datatype Got = Nothing | Got(system: ByteSystem)

  ghost function Moves(b: ByteSystem, moves: seq<Move>): (r: Got)
    requires Valid(b.hub)
    ensures r.Got? ==> Valid(r.system.hub)
  {
    if moves == [] then Got(b)
    else
      var r, m := Moves(b, moves[..|moves| - 1]), moves[|moves| - 1];
      if r.Got? && Allowed(r.system, m) then Got(Moved(r.system, m)) else Nothing
  }

  /** The same server, the same table, and packets for the messages. */
  ghost predicate Carries(b: ByteSystem, s: System) {
    b.hub == s.hub && b.me == s.me && b.table == s.table && Packets(b.link, s.link)
  }

  lemma MoveCarries(b: ByteSystem, s: System, m: Move)
    requires Valid(s.hub) && Carries(b, s) && Allowed(b, m)
    ensures Possible(s, m.step) && Carries(Moved(b, m), Perform(s, m.step))
  {
    if m.step.Deliver? {
      DeliveryCarries(b, s);
    } else {
      ServedApart(s, m.step);
      WithObject(m.sent, Served(s.hub, s.me, m.step).link, m.json);
      PacketsJoin(b.link, s.link, m.sent, Served(s.hub, s.me, m.step).link);
    }
  }

  lemma DeliveryCarries(b: ByteSystem, s: System)
    requires Valid(s.hub) && Carries(b, s) && b.link != []
    ensures Carries(b.(table := ReceiveBytes(b.table, b.link[0]), link := b.link[1..]), Perform(s, Deliver))
  {
    ReceiveSent(b.table, b.link[0], s.link[0]);
  }

  lemma PacketsJoin(a: seq<seq<byte>>, ms: seq<Msg>, b: seq<seq<byte>>, ns: seq<Msg>)
    requires Packets(a, ms) && Packets(b, ns)
    ensures Packets(a + b, ms + ns)
  {
    PairedJoin(a, ms, b, ns, (d: seq<byte>, m: Msg) => PacketOf(d, m));
  }

  function StepsOf(moves: seq<Move>): seq<Step> {
    seq(|moves|, i requires 0 <= i < |moves| => moves[i].step)
  }

  /** Every run over packets is a run over messages, with the same table at every moment. */
  lemma {:induction false} RunCarries(s: System, moves: seq<Move>)
    requires Connected(s)
    ensures InStep(s)
    ensures var b, r := Moves(ByteSystem(s.hub, s.me, [], []), moves), Steps(s, StepsOf(moves));
            b.Got? ==> r.Reached? && Carries(b.system, r.system)
  {
    ConnectedInStep(s);
    if moves != [] {
      var prev, m := moves[..|moves| - 1], moves[|moves| - 1];
      RunCarries(s, prev);
      assert StepsOf(moves)[..|moves| - 1] == StepsOf(prev);
      var b, r := Moves(ByteSystem(s.hub, s.me, [], []), prev), Steps(s, StepsOf(prev));
      if b.Got? && Allowed(b.system, m) {
        MoveCarries(b.system, r.system, m);
      }
    }
  }

  /** After any run in which everything between server and client is packets, decoding the
      packets still on the link gives a table with exactly the events that the server
      listener actively watches, each referenced once. */
  lemma MirrorOverBytes(s: System, moves: seq<Move>, key: Key)
    requires Connected(s)
    ensures var b := Moves(ByteSystem(s.hub, s.me, [], []), moves);
            b.Got? ==>
              var t := DrainBytes(b.system.table, b.system.link);
              && (Search(t, key) < |t| <==> key in Watched(Active(b.system.hub), s.me, b.system.hub.evt))
              && (Search(t, key) < |t| ==> t[Search(t, key)].refcount == 1)
  {
    RunCarries(s, moves);
    MirrorAgrees(s, StepsOf(moves), key);
    var b, r := Moves(ByteSystem(s.hub, s.me, [], []), moves), Steps(s, StepsOf(moves));
    if b.Got? {
      DrainSent(b.system.table, b.system.link, r.system.link);
      MeKept(s, StepsOf(moves));
    }
  }

  lemma {:induction false} MeKept(s: System, steps: seq<Step>)
    requires InStep(s)
    ensures Steps(s, steps).Reached? ==> Steps(s, steps).system.me == s.me
  {
    if steps != [] {
      MeKept(s, steps[..|steps| - 1]);
    }
  }
}
