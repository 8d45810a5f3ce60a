/** What a connection meets: the bytes of the peer, and reads that would block. */
module WireTrace {
  import opened Bytes
  import opened Frames
  import opened Wire
  import opened WireBlocks

  /** A byte that arrives, or a read that finds none. */
  datatype Input = Got(b: byte) | Block

  function All(s: seq<byte>): (r: seq<Input>)
    ensures |r| == |s|
  {
    seq(|s|, i requires 0 <= i < |s| => Got(s[i]))
  }

  /** The bytes alone. */
  function BytesOf(tr: seq<Input>): seq<byte> {
    if tr == [] then [] else (if tr[0].Got? then [tr[0].b] else []) + BytesOf(tr[1..])
  }

  /** A would-block inside the payload of a ping or a pong: websock_drop gives up, and
      dispatch goes on as if the frame were over.  Anywhere else nothing changes. */
  function Blocked(c: Conn): Out {
    if c.phase.Skip? then BeginControl(c, c.phase.ping, 0) else Out(c, [])
  }

  function Take(cfg: Config, c: Conn, i: Input): Out
    requires Sound(c)
  {
    if i.Got? then Byte(cfg, c, i.b) else Blocked(c)
  }

  lemma TakeSound(cfg: Config, c: Conn, i: Input)
    requires Sound(c)
    ensures Sound(Take(cfg, c, i).conn)
  {
    if i.Got? {
      ByteSound(cfg, c, i.b);
    }
  }

  /** The machine on what it meets. */
  ghost function Play(cfg: Config, c: Conn, tr: seq<Input>): (r: Out)
    requires Sound(c)
    ensures Sound(r.conn)
    decreases |tr|
  {
    if tr == [] then Out(c, [])
    else
      TakeSound(cfg, c, tr[0]);
      var r := Take(cfg, c, tr[0]);
      var t := Play(cfg, r.conn, tr[1..]);
      Out(t.conn, r.events + t.events)
  }

  ghost function PlayThen(cfg: Config, r: Out, tr: seq<Input>): Out
    requires Sound(r.conn)
  {
    var t := Play(cfg, r.conn, tr);
    Out(t.conn, r.events + t.events)
  }

  lemma {:induction false} PlayConcat(cfg: Config, c: Conn, a: seq<Input>, b: seq<Input>)
    requires Sound(c)
    ensures Play(cfg, c, a + b) == PlayThen(cfg, Play(cfg, c, a), b)
    decreases |a|
  {
    if a == [] {
      assert a + b == b;
    } else {
      assert (a + b)[1..] == a[1..] + b;
      TakeSound(cfg, c, a[0]);
      var r := Take(cfg, c, a[0]);
      PlayConcat(cfg, r.conn, a[1..], b);
      var x := Play(cfg, r.conn, a[1..]);
      EventsAssoc(r.events, x.events, Play(cfg, x.conn, b).events);
    }
  }

  lemma EventsAssoc(a: seq<Event>, b: seq<Event>, c: seq<Event>)
    ensures (a + b) + c == a + (b + c)
  {
  }

  lemma AllConcat(a: seq<byte>, b: seq<byte>)
    ensures All(a + b) == All(a) + All(b)
  {
  }

  lemma {:induction false} BytesOfConcat(a: seq<Input>, b: seq<Input>)
    ensures BytesOf(a + b) == BytesOf(a) + BytesOf(b)
  {
    if a == [] {
      assert a + b == b;
    } else {
      assert (a + b)[0] == a[0] && (a + b)[1..] == a[1..] + b;
      BytesOfConcat(a[1..], b);
      var x: seq<byte> := if a[0].Got? then [a[0].b] else [];
      assert BytesOf(a + b) == x + (BytesOf(a[1..]) + BytesOf(b));
      assert BytesOf(a) == x + BytesOf(a[1..]);
    }
  }

  lemma {:induction false} BytesOfAll(s: seq<byte>)
    ensures BytesOf(All(s)) == s
  {
    if s != [] {
      assert All(s)[1..] == All(s[1..]);
      BytesOfAll(s[1..]);
    }
  }

  /** Without would-blocks it is the machine on bytes. */
  lemma {:induction false} PlayAll(cfg: Config, c: Conn, s: seq<byte>)
    requires Sound(c)
    ensures Play(cfg, c, All(s)) == Feed(cfg, c, s)
    decreases |s|
  {
    if s != [] {
      assert All(s)[1..] == All(s[1..]);
      ByteSound(cfg, c, s[0]);
      PlayAll(cfg, Byte(cfg, c, s[0]).conn, s[1..]);
    }
  }

  /** All the events of a connection that meets `tr` and then the end. */
  ghost function Behaviour(cfg: Config, tr: seq<Input>): seq<Event> {
    var r := Play(cfg, Init(), tr);
    r.events + AtEnd(r.conn)
  }

  // ----- where a would-block matters

  /** No would-block comes inside the payload of a ping or a pong. */
  ghost predicate Spared(cfg: Config, c: Conn, tr: seq<Input>)
    requires Sound(c)
  {
    forall k :: 0 <= k < |tr| && tr[k] == Block ==> !Feed(cfg, c, BytesOf(tr[..k])).conn.phase.Skip?
  }

  /** Then only the bytes count. */
  lemma {:induction false} SparedPlay(cfg: Config, c: Conn, tr: seq<Input>)
    requires Sound(c) && Spared(cfg, c, tr)
    ensures Play(cfg, c, tr) == Feed(cfg, c, BytesOf(tr))
    decreases |tr|
  {
    if tr != [] {
      TakeSound(cfg, c, tr[0]);
      var r := Take(cfg, c, tr[0]);
      SparedTail(cfg, c, tr);
      SparedPlay(cfg, r.conn, tr[1..]);
      if tr[0].Got? {
        assert BytesOf(tr)[1..] == BytesOf(tr[1..]);
      } else {
        assert BytesOf(tr) == BytesOf(tr[1..]);
        var t := Play(cfg, c, tr[1..]);
        assert [] + t.events == t.events;
      }
    }
  }

  lemma SparedTail(cfg: Config, c: Conn, tr: seq<Input>)
    requires Sound(c) && Spared(cfg, c, tr) && tr != []
    ensures Sound(Take(cfg, c, tr[0]).conn) && Spared(cfg, Take(cfg, c, tr[0]).conn, tr[1..])
    ensures tr[0] == Block ==> Take(cfg, c, tr[0]) == Out(c, [])
  {
    TakeSound(cfg, c, tr[0]);
    var d := Take(cfg, c, tr[0]).conn;
    if tr[0] == Block {
      assert tr[..0] == [] && BytesOf(tr[..0]) == [];
    }
    forall k | 0 <= k < |tr[1..]| && tr[1..][k] == Block
      ensures !Feed(cfg, d, BytesOf(tr[1..][..k])).conn.phase.Skip?
    {
      var a, b := tr[..k + 1], tr[1..][..k];
      assert a[0] == tr[0] && a[1..] == b;
      assert tr[k + 1] == Block;
      if tr[0].Got? {
        assert BytesOf(a)[1..] == BytesOf(b) && BytesOf(a)[0] == tr[0].b;
      } else {
        assert BytesOf(a) == BytesOf(b);
      }
    }
  }

  /** After `before`, a would-block makes no difference to any bytes that follow if and
      only if it is not inside the payload of a ping or a pong. */
  lemma BlockHarmlessIff(cfg: Config, before: seq<Input>)
    ensures (forall s: seq<byte> :: Behaviour(cfg, before + [Block] + All(s)) == Behaviour(cfg, before + All(s)))
            <==> !Play(cfg, Init(), before).conn.phase.Skip?
  {
    var c := Play(cfg, Init(), before).conn;
    forall s: seq<byte>
      ensures Behaviour(cfg, before + [Block] + All(s)) ==
              Play(cfg, Init(), before).events + (Blocked(c).events + Ending(cfg, Blocked(c).conn, s))
      ensures Behaviour(cfg, before + All(s)) == Play(cfg, Init(), before).events + Ending(cfg, c, s)
    {
      TakeSound(cfg, c, Block);
      PlayBlock(cfg, c);
      PlayConcat(cfg, Init(), before, [Block]);
      PlayConcat(cfg, Init(), before + [Block], All(s));
      PlayConcat(cfg, Init(), before, All(s));
      PlayAll(cfg, c, s);
      PlayAll(cfg, Blocked(c).conn, s);
      var e := Play(cfg, Init(), before).events;
      var f, g := Feed(cfg, Blocked(c).conn, s), Feed(cfg, c, s);
      EventsAssoc(e, g.events, AtEnd(g.conn));
      EventsAssoc(e, Blocked(c).events, f.events);
      EventsAssoc(e, Blocked(c).events + f.events, AtEnd(f.conn));
      EventsAssoc(Blocked(c).events, f.events, AtEnd(f.conn));
    }
    if c.phase.Skip? {
      var s: seq<byte> := [0x83, 0];
      BadHeader(cfg, Blocked(c).conn);
      Swallowed(cfg, c);
      var e := Play(cfg, Init(), before).events;
      var x, y := Blocked(c).events + Ending(cfg, Blocked(c).conn, s), Ending(cfg, c, s);
      assert Error(PROTOCOL_ERROR) in x && Error(PROTOCOL_ERROR) !in y;
      assert (e + x)[|e|..] == x && (e + y)[|e|..] == y;
      assert Behaviour(cfg, before + [Block] + All(s)) != Behaviour(cfg, before + All(s));
    } else {
      forall s: seq<byte>
        ensures Behaviour(cfg, before + [Block] + All(s)) == Behaviour(cfg, before + All(s))
      {
        assert [] + Ending(cfg, c, s) == Ending(cfg, c, s);
      }
    }
  }

  /** The events of the bytes `s` and of the end. */
  ghost function Ending(cfg: Config, c: Conn, s: seq<byte>): seq<Event>
    requires Sound(c)
  {
    var r := Feed(cfg, c, s);
    r.events + AtEnd(r.conn)
  }

  lemma PlayBlock(cfg: Config, c: Conn)
    requires Sound(c)
    ensures Play(cfg, c, [Block]) == Blocked(c)
  {
    TakeSound(cfg, c, Block);
    var r := Blocked(c);
    assert [Block][1..] == [] && r.events + [] == r.events;
  }

  /** A frame of an unknown kind. */
  lemma BadHeader(cfg: Config, c: Conn)
    requires c.phase == IDLE
    ensures Sound(c) && Ending(cfg, c, [0x83, 0]) == [Error(PROTOCOL_ERROR), Hangup]
  {
    var h: seq<byte> := [0x83, 0];
    FeedHead(cfg, c, h);
    assert [] + h == h;
    assert Feed(cfg, c, h) == Abort(PROTOCOL_ERROR);
  }

  /** The same bytes inside a control payload, or at its end. */
  lemma Swallowed(cfg: Config, c: Conn)
    requires Sound(c) && c.phase.Skip?
    ensures Error(PROTOCOL_ERROR) !in Ending(cfg, c, [0x83, 0])
  {
    var s: seq<byte> := [0x83, 0];
    if c.phase.left == 1 {
      var d := c.(phase := IDLE);
      assert s == s[..1] + s[1..];
      FeedConcat(cfg, c, s[..1], s[1..]);
      FeedSkip(cfg, c, s[..1]);
      FeedHead(cfg, d, s[1..]);
    } else {
      FeedSkip(cfg, c, s);
    }
  }

  /** A ping of two bytes, cut behind its header: its payload is taken for an empty
      text message. */
  lemma CutPing()
    ensures var cfg, head, body := Config(true, true), All([0x89, 2]), All([0x81, 0]);
            && Behaviour(cfg, head + body) == [SentPong, Hangup]
            && Behaviour(cfg, head + [Block] + body) == [SentPong, Crash]
  {
    var cfg := Config(true, true);
    var c := Conn(Skip(2, true), Waiting, Null);
    TwoBytes(cfg, Init(), [0x89, 2], Out(c, []));
    TwoBytes(cfg, Init(), [0x81, 0], Out(GONE, [Crash]));
    FeedSkip(cfg, c, [0x81, 0]);
    assert Feed(cfg, c, [0x81, 0]) == Out(Init(), [SentPong]);
    TwoParts(cfg, [0x89, 2], [0x81, 0], c);
  }

  lemma TwoBytes(cfg: Config, c: Conn, h: seq<byte>, x: Out)
    requires c.phase == IDLE && |h| == 2 && Started(cfg, c, h) == x
    ensures Sound(c) && Feed(cfg, c, h) == x
  {
    FeedHead(cfg, c, h);
    assert [] + h == h;
  }

  /** A stream in two parts, with and without a would-block between them. */
  lemma TwoParts(cfg: Config, h: seq<byte>, b: seq<byte>, c: Conn)
    requires Feed(cfg, Init(), h) == Out(c, [])
    ensures Sound(c) && Sound(Blocked(c).conn)
    ensures Behaviour(cfg, All(h) + All(b)) == Ending(cfg, c, b)
    ensures Behaviour(cfg, All(h) + [Block] + All(b)) == Blocked(c).events + Ending(cfg, Blocked(c).conn, b)
  {
    TakeSound(cfg, c, Block);
    PlayAll(cfg, Init(), h);
    PlayBlock(cfg, c);
    PlayConcat(cfg, Init(), All(h), [Block]);
    PlayConcat(cfg, Init(), All(h), All(b));
    PlayConcat(cfg, Init(), All(h) + [Block], All(b));
    PlayAll(cfg, c, b);
    PlayAll(cfg, Blocked(c).conn, b);
    var f, g, e := Feed(cfg, c, b), Feed(cfg, Blocked(c).conn, b), Blocked(c).events;
    assert [] + f.events == f.events && [] + e == e;
    EventsAssoc(e, g.events, AtEnd(g.conn));
  }

  // ----- from what was met to what is met next

  lemma PlayReach(cfg: Config, fed: seq<Input>, tr: seq<Input>, log: seq<Event>, x: Out)
    requires Play(cfg, Init(), fed) == Out(x.conn, log + x.events)
    ensures Sound(x.conn)
    ensures Play(cfg, Init(), fed + tr) == Out(PlayThen(cfg, x, tr).conn, log + PlayThen(cfg, x, tr).events)
  {
    PlayConcat(cfg, Init(), fed, tr);
    EventsAssoc(log, x.events, Play(cfg, x.conn, tr).events);
  }

  lemma PlayThenAll(cfg: Config, x: Out, s: seq<byte>)
    requires Sound(x.conn)
    ensures PlayThen(cfg, x, All(s)) == Then(cfg, x, s)
  {
    PlayAll(cfg, x.conn, s);
  }

  lemma PlayQuiet(cfg: Config, c: Conn, tr: seq<Input>)
    requires Sound(c)
    ensures PlayThen(cfg, Out(c, []), tr) == Play(cfg, c, tr)
  {
    var t := Play(cfg, c, tr);
    assert [] + t.events == t.events;
  }

  lemma PlayNothing(cfg: Config, x: Out)
    requires Sound(x.conn)
    ensures PlayThen(cfg, x, []) == x
  {
    assert x.events + [] == x.events;
  }

  lemma {:induction false} PlayDead(cfg: Config, tr: seq<Input>)
    ensures Play(cfg, GONE, tr) == Out(GONE, [])
  {
    if tr != [] {
      PlayDead(cfg, tr[1..]);
    }
  }

  /** The payload of a data frame, or part of it, with would-blocks anywhere. */
  lemma PlayPayload(cfg: Config, c: Conn, tr: seq<Input>)
    requires Sound(c) && c.phase.Payload? && |BytesOf(tr)| <= c.phase.left
    ensures Play(cfg, c, tr) == Feed(cfg, c, BytesOf(tr))
  {
    forall k | 0 <= k < |tr| && tr[k] == Block
      ensures !Feed(cfg, c, BytesOf(tr[..k])).conn.phase.Skip?
    {
      assert tr == tr[..k] + tr[k..];
      BytesOfConcat(tr[..k], tr[k..]);
      if BytesOf(tr[..k]) != [] {
        FeedPayload(cfg, c, BytesOf(tr[..k]));
      }
    }
    SparedPlay(cfg, c, tr);
  }

  lemma PlayThenPayload(cfg: Config, x: Out, tr: seq<Input>)
    requires Sound(x.conn) && (tr == [] || (x.conn.phase.Payload? && |BytesOf(tr)| <= x.conn.phase.left))
    ensures PlayThen(cfg, x, tr) == Then(cfg, x, BytesOf(tr))
  {
    if tr != [] {
      PlayPayload(cfg, x.conn, tr);
    }
  }

  /** The payload of a ping or a pong: whole, cut by a would-block, or cut by the end. */
  lemma PlayControl(cfg: Config, c: Conn, ping: bool, len: nat, raw: seq<byte>, blocked: bool)
    requires |raw| <= len && (blocked ==> |raw| < len)
    ensures var x, tr := BeginControl(c, ping, len), All(raw) + (if blocked then [Block] else []);
            && Sound(x.conn)
            && PlayThen(cfg, x, tr) == BeginControl(c, ping, if blocked then 0 else len - |raw|)
  {
    var x := BeginControl(c, ping, len);
    FeedControl(cfg, c, ping, len, raw);
    PlayThenAll(cfg, x, raw);
    if blocked {
      var y := PlayThen(cfg, x, All(raw));
      assert y == BeginControl(c, ping, len - |raw|);
      PlayBlock(cfg, y.conn);
      PlayConcat(cfg, x.conn, All(raw), [Block]);
      var t := Play(cfg, x.conn, All(raw));
      assert x.events == [] && t.events == [];
      var r := Blocked(y.conn);
      assert [] + r.events == r.events;
    } else {
      assert All(raw) + [] == All(raw);
    }
  }

  /** What a dead connection does not meet changes nothing. */
  lemma AfterDeath(cfg: Config, tr: seq<Input>, k: nat)
    requires k <= |tr|
    ensures k == |tr| || Play(cfg, Init(), tr[..k]).conn == GONE ==> Behaviour(cfg, tr) == Behaviour(cfg, tr[..k])
  {
    if k == |tr| {
      assert tr[..k] == tr;
    } else if Play(cfg, Init(), tr[..k]).conn == GONE {
      assert tr == tr[..k] + tr[k..];
      PlayConcat(cfg, Init(), tr[..k], tr[k..]);
      PlayDead(cfg, tr[k..]);
      var e := Play(cfg, Init(), tr[..k]).events;
      assert e + [] == e;
    }
  }
}
