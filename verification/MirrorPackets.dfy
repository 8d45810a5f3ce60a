/** What reaches the client of a mirror in packets: the same notes, and with each push
    the object that was pushed. */
module MirrorPackets {
  import opened Options
  import opened Bytes
  import ApiMessages
  import opened EventHub
  import opened EventTable
  import opened Mirror
  import opened MirrorBytes
  import N = MirrorNotes

  /** A note with the object that it carries. */
  datatype Said = Said(note: N.Note, object: Option<cstring>)

  /** Notes about one operation: its pushes carry the object. */
  function With(ns: seq<N.Note>, json: cstring): seq<Said> {
    seq(|ns|, i requires 0 <= i < |ns| => Said(ns[i], if ns[i].kind == Pushed then Some(json) else None))
  }

  /** What the client reads from a packet about events. */
  function ReadPacket(data: seq<byte>): seq<Said> {
    var r := ApiMessages.Decode(data);
    if r.NoRead? then []
    else match r.value
      case Create(id, name) => [Said(N.Note(Added, Key(id, NameOf(name))), None)]
      case Drop(id, name) => [Said(N.Note(Removed, Key(id, NameOf(name))), None)]
      case Push(id, name, json) => [Said(N.Note(Pushed, Key(id, NameOf(name))), Some(json))]
      case _ => []
  }

  /** What the client reads from a packet about subscriptions. */
  function RequestPacket(data: seq<byte>): seq<N.Request> {
    var r := ApiMessages.Decode(data);
    if r.NoRead? then []
    else match r.value
      case Subscribe(msgid, id, name) => [N.Request(true, msgid, Key(id, NameOf(name)))]
      case Unsubscribe(msgid, id, name) => [N.Request(false, msgid, Key(id, NameOf(name)))]
      case _ => []
  }

  function ReadPackets(packets: seq<seq<byte>>): seq<Said> {
    if packets == [] then []
    else ReadPackets(packets[..|packets| - 1]) + ReadPacket(packets[|packets| - 1])
  }

  function RequestPackets(packets: seq<seq<byte>>): seq<N.Request> {
    if packets == [] then []
    else RequestPackets(packets[..|packets| - 1]) + RequestPacket(packets[|packets| - 1])
  }

  lemma {:induction false} PacketsConcat(a: seq<seq<byte>>, b: seq<seq<byte>>)
    ensures ReadPackets(a + b) == ReadPackets(a) + ReadPackets(b)
    decreases |b|
  {
    if b == [] {
      assert a + b == a;
    } else {
      var n := |b| - 1;
      N.LastOfSum(a, b, n);
      PacketsConcat(a, b[..n]);
      N.Assoc(ReadPackets(a), ReadPackets(b[..n]), ReadPacket(b[n]));
    }
  }

  lemma {:induction false} RequestsConcat(a: seq<seq<byte>>, b: seq<seq<byte>>)
    ensures RequestPackets(a + b) == RequestPackets(a) + RequestPackets(b)
    decreases |b|
  {
    if b == [] {
      assert a + b == a;
    } else {
      var n := |b| - 1;
      N.LastOfSum(a, b, n);
      RequestsConcat(a, b[..n]);
      N.Assoc(RequestPackets(a), RequestPackets(b[..n]), RequestPacket(b[n]));
    }
  }

  /** The packet of a message tells what the message tells, and carries its object. */
  lemma PacketTells(data: seq<byte>, m: Msg, json: cstring)
    requires PacketWith(data, m, json)
    ensures ReadPacket(data) == With(N.ReadOne(m), json) && RequestPacket(data) == N.RequestOf(m)
  {
    ApiMessages.ServerRoundTrip(ServerOf(m, json));
    NameBack(m.key.name);
  }

  lemma WithConcat(a: seq<N.Note>, b: seq<N.Note>, json: cstring)
    ensures With(a + b, json) == With(a, json) + With(b, json)
  {
  }

  lemma LastPacket(packets: seq<seq<byte>>, ms: seq<Msg>, json: cstring, n: nat)
    requires PacketsWith(packets, ms, json) && |ms| == n + 1
    ensures PacketsWith(packets[..n], ms[..n], json) && PacketWith(packets[n], ms[n], json)
  {
  }

  lemma {:induction false} PacketsTell(packets: seq<seq<byte>>, ms: seq<Msg>, json: cstring)
    requires PacketsWith(packets, ms, json)
    ensures ReadPackets(packets) == With(N.Read(ms), json)
  {
    if ms != [] {
      var n := |ms| - 1;
      LastPacket(packets, ms, json, n);
      PacketsTell(packets[..n], ms[..n], json);
      PacketTells(packets[n], ms[n], json);
      WithConcat(N.Read(ms[..n]), N.ReadOne(ms[n]), json);
    }
  }

  lemma {:induction false} PacketsAsk(packets: seq<seq<byte>>, ms: seq<Msg>, json: cstring)
    requires PacketsWith(packets, ms, json)
    ensures RequestPackets(packets) == N.Requests(ms)
  {
    if ms != [] {
      var n := |ms| - 1;
      LastPacket(packets, ms, json, n);
      PacketsAsk(packets[..n], ms[..n], json);
      PacketTells(packets[n], ms[n], json);
    }
  }

  // ----- over a run

  /** What happened in a run over packets: what the server listener was told, with the
      objects pushed, the requests asked, the packets delivered. */
  datatype Record = Record(told: seq<Said>, asked: seq<N.Request>, delivered: seq<seq<byte>>)

  ghost function Recorded(c: Record, b: ByteSystem, m: Move): Record
    requires Valid(b.hub) && Allowed(b, m)
  {
    if m.step.Deliver? then c.(delivered := c.delivered + [b.link[0]])
    else
      var s := System(b.hub, b.me, [], []);
      Record(c.told + With(N.Told(N.CallsOf(s, m.step), b.me), m.json), c.asked + N.AskedBy(s, m.step), c.delivered)
  }

  ghost function RecordOf(b: ByteSystem, moves: seq<Move>): Record
    requires Valid(b.hub)
  {
    if moves == [] then Record([], [], [])
    else
      var prev, m := moves[..|moves| - 1], moves[|moves| - 1];
      var r, c := Moves(b, prev), RecordOf(b, prev);
      if r.Got? && Allowed(r.system, m) then Recorded(c, r.system, m) else c
  }

  ghost predicate Complete(c: Record, b: ByteSystem) {
    var packets := c.delivered + b.link;
    ReadPackets(packets) == c.told && RequestPackets(packets) == c.asked
  }

  lemma SentComplete(d: seq<seq<byte>>, link: seq<seq<byte>>, more: seq<seq<byte>>)
    ensures ReadPackets(d + (link + more)) == ReadPackets(d + link) + ReadPackets(more)
    ensures RequestPackets(d + (link + more)) == RequestPackets(d + link) + RequestPackets(more)
  {
    N.Assoc(d, link, more);
    PacketsConcat(d + link, more);
    RequestsConcat(d + link, more);
  }

  lemma DeliverComplete(d: seq<seq<byte>>, link: seq<seq<byte>>)
    requires link != []
    ensures (d + [link[0]]) + link[1..] == d + link
  {
  }

  lemma MoveComplete(c: Record, b: ByteSystem, m: Move)
    requires Valid(b.hub) && Allowed(b, m) && Complete(c, b)
    ensures Complete(Recorded(c, b, m), Moved(b, m))
  {
    if m.step.Deliver? {
      DeliverComplete(c.delivered, b.link);
    } else {
      var s := System(b.hub, b.me, [], []);
      var more := N.StepTold(s, m.step);
      assert [] + more == more;
      PacketsTell(m.sent, more, m.json);
      PacketsAsk(m.sent, more, m.json);
      SentComplete(c.delivered, b.link, m.sent);
    }
  }

  /** After any run over packets, those delivered so far followed by those on the link read
      in order as exactly what the server listener was called for, each push with the object
      pushed, and as the subscriptions that were asked. */
  lemma {:induction false} PushesArrive(b: ByteSystem, moves: seq<Move>)
    requires Valid(b.hub) && b.link == []
    ensures var r, c := Moves(b, moves), RecordOf(b, moves);
            r.Got? ==>
              && ReadPackets(c.delivered + r.system.link) == c.told
              && RequestPackets(c.delivered + r.system.link) == c.asked
  {
    if moves != [] {
      var prev, m := moves[..|moves| - 1], moves[|moves| - 1];
      PushesArrive(b, prev);
      var r := Moves(b, prev);
      if r.Got? && Allowed(r.system, m) {
        MoveComplete(RecordOf(b, prev), r.system, m);
      }
    }
  }
}
