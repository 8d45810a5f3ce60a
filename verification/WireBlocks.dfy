/** The byte machine on blocks: parts of a header and parts of a payload. */
module WireBlocks {
  import opened Bytes
  import opened Frames
  import opened Wire

  /** A header that becomes complete. */
  function Finished(cfg: Config, c: Conn, g: seq<byte>): Out
    requires |g| >= 2 && (|g| > 2 ==> |g| >= HeadSize(g[0], g[1]))
  {
    if |g| == 2 then Started(cfg, c, g) else Complete(cfg, c, g)
  }

  lemma FeedOne(cfg: Config, c: Conn, s: seq<byte>)
    requires Sound(c) && |s| == 1
    ensures Feed(cfg, c, s) == Byte(cfg, c, s[0])
  {
    ByteSound(cfg, c, s[0]);
    var r := Byte(cfg, c, s[0]);
    assert s[1..] == [] && r.events + [] == r.events;
  }

  /** A first byte without events. */
  lemma FeedQuiet(cfg: Config, c: Conn, s: seq<byte>, d: Conn)
    requires Sound(c) && s != [] && Byte(cfg, c, s[0]) == Out(d, [])
    ensures Sound(d) && Feed(cfg, c, s) == Feed(cfg, d, s[1..])
  {
    ByteSound(cfg, c, s[0]);
    var t := Feed(cfg, d, s[1..]);
    assert [] + t.events == t.events;
  }

  /** What a complete header does does not depend on the phase it was read in. */
  lemma FinishedAnyPhase(cfg: Config, c: Conn, d: Conn, g: seq<byte>)
    requires |g| >= 2 && (|g| > 2 ==> |g| >= HeadSize(g[0], g[1]))
    requires d == c.(phase := d.phase)
    ensures Finished(cfg, d, g) == Finished(cfg, c, g)
  {
  }

  lemma {:induction false} FeedHead(cfg: Config, c: Conn, s: seq<byte>)
    requires Sound(c) && c.phase.Head? && s != [] && |c.phase.h| + |s| <= c.phase.sz
    ensures var g := c.phase.h + s;
            Feed(cfg, c, s) == if |g| < c.phase.sz then Out(c.(phase := Head(g, c.phase.sz)), [])
                else Finished(cfg, c, g)
    decreases |s|
  {
    var Head(h, sz) := c.phase;
    if |s| == 1 {
      FeedOne(cfg, c, s);
      assert h + s == h + [s[0]];
    } else {
      var d := c.(phase := Head(h + [s[0]], sz));
      FeedQuiet(cfg, c, s, d);
      FeedHead(cfg, d, s[1..]);
      assert h + [s[0]] + s[1..] == h + s;
      if |h + s| == sz {
        FinishedAnyPhase(cfg, c, d, h + s);
      }
    }
  }

  /** The connection after `s` more bytes of payload were put in its buffer. */
  function Filled(c: Conn, s: seq<byte>): Conn
    requires c.phase.Payload? && |c.phase.mask| == 4 && c.buf.Buf?
  {
    c.(buf := Buf(c.buf.data + Unmask(s, c.phase.mask)))
  }

  function Filling(c: Conn, s: seq<byte>): Conn
    requires c.phase.Payload? && |c.phase.mask| == 4 && c.buf.Buf? && |s| < c.phase.left
  {
    Filled(c, s).(phase := Payload(c.phase.left - |s|, RotateBy(c.phase.mask, |s|), c.phase.fin))
  }

  lemma UnmaskFirst(s: seq<byte>, mask: seq<byte>)
    requires s != [] && |mask| == 4
    ensures Unmask(s, mask) == [Xor(s[0], mask[0])] + Unmask(s[1..], Rotate(mask))
    ensures RotateBy(mask, |s|) == RotateBy(Rotate(mask), |s| - 1)
  {
    var one := [s[0]];
    assert s == one + s[1..];
    UnmaskOne(one, mask);
    UnmaskConcat(one, s[1..], mask);
    RotateTwice(mask, 1, |s| - 1);
  }

  lemma {:induction false} FeedPayload(cfg: Config, c: Conn, s: seq<byte>)
    requires Sound(c) && c.phase.Payload? && s != [] && |s| <= c.phase.left
    ensures Feed(cfg, c, s) ==
            if |s| < c.phase.left then Out(Filling(c, s), []) else EndFrame(Filled(c, s), c.phase.fin)
    decreases |s|
  {
    var Payload(left, mask, fin) := c.phase;
    var one := Xor(s[0], mask[0]);
    if |s| == 1 {
      FeedOne(cfg, c, s);
      UnmaskOne(s, mask);
    } else {
      var d := c.(phase := Payload(left - 1, Rotate(mask), fin), buf := Buf(c.buf.data + [one]));
      FeedQuiet(cfg, c, s, d);
      FeedPayload(cfg, d, s[1..]);
      FilledFirst(c, s, d);
    }
  }

  lemma UnmaskOne(s: seq<byte>, mask: seq<byte>)
    requires |s| == 1 && |mask| == 4
    ensures Unmask(s, mask) == [Xor(s[0], mask[0])] && RotateBy(mask, 1) == Rotate(mask)
  {
    RotateStep(mask, 0);
    RotateWord(mask, 0);
  }

  /** Putting the first byte, then the others. */
  lemma FilledFirst(c: Conn, s: seq<byte>, d: Conn)
    requires c.phase.Payload? && |c.phase.mask| == 4 && c.buf.Buf? && 1 < |s| <= c.phase.left
    requires d == c.(phase := Payload(c.phase.left - 1, Rotate(c.phase.mask), c.phase.fin),
                     buf := Buf(c.buf.data + [Xor(s[0], c.phase.mask[0])]))
    ensures Filled(d, s[1..]).buf == Filled(c, s).buf && Filled(d, s[1..]).asm == c.asm
    ensures |s| < c.phase.left ==> Filling(d, s[1..]) == Filling(c, s)
  {
    var mask := c.phase.mask;
    UnmaskFirst(s, mask);
    assert c.buf.data + [Xor(s[0], mask[0])] + Unmask(s[1..], Rotate(mask)) == c.buf.data + Unmask(s, mask);
  }

  lemma {:induction false} FeedSkip(cfg: Config, c: Conn, s: seq<byte>)
    requires Sound(c) && c.phase.Skip? && s != [] && |s| <= c.phase.left
    ensures Feed(cfg, c, s) ==
            if |s| < c.phase.left then Out(c.(phase := Skip(c.phase.left - |s|, c.phase.ping)), [])
            else BeginControl(c, c.phase.ping, 0)
    decreases |s|
  {
    if |s| == 1 {
      FeedOne(cfg, c, s);
    } else {
      var d := c.(phase := Skip(c.phase.left - 1, c.phase.ping));
      FeedQuiet(cfg, c, s, d);
      FeedSkip(cfg, d, s[1..]);
    }
  }

  lemma {:induction false} FeedDead(cfg: Config, s: seq<byte>)
    ensures Feed(cfg, GONE, s) == Out(GONE, [])
    decreases |s|
  {
    if s != [] {
      FeedDead(cfg, s[1..]);
    }
  }

  /** Adding a payload to the message being collected. */
  function Collect(b: Buf, payload: seq<byte>): Buf {
    if payload == [] then b else Buf((if b.Null? then [] else b.data) + payload)
  }

  /** The payload of a data frame, as it came, read whole. */
  lemma FeedData(cfg: Config, c: Conn, fin: bool, mask: seq<byte>, raw: seq<byte>)
    requires |mask| == 4 && c.asm != Waiting
    ensures var r := BeginData(c, fin, |raw|, mask);
            && Sound(r.conn)
            && Then(cfg, r, raw) == EndFrame(c.(buf := Collect(c.buf, Unmask(raw, mask))), fin)
  {
    var r := BeginData(c, fin, |raw|, mask);
    if raw == [] {
      assert Unmask(raw, mask) == [];
      assert r.events + [] == r.events;
    } else {
      FeedPayload(cfg, r.conn, raw);
      var t := Feed(cfg, r.conn, raw);
      assert r.events + t.events == t.events;
    }
  }

  /** The payload of a data frame cut short. */
  lemma FeedDataPart(cfg: Config, c: Conn, fin: bool, mask: seq<byte>, len: nat, raw: seq<byte>)
    requires |mask| == 4 && c.asm != Waiting && |raw| < len
    ensures var r := BeginData(c, fin, len, mask);
            && Sound(r.conn)
            && Then(cfg, r, raw).conn.phase.Payload? && Then(cfg, r, raw).events == []
  {
    var r := BeginData(c, fin, len, mask);
    if raw != [] {
      FeedPayload(cfg, r.conn, raw);
    }
  }

  /** The payload of a ping or a pong, whole or not. */
  lemma FeedControl(cfg: Config, c: Conn, ping: bool, len: nat, raw: seq<byte>)
    requires |raw| <= len
    ensures var r := BeginControl(c, ping, len);
            && Sound(r.conn)
            && (|raw| == len ==> Then(cfg, r, raw) == BeginControl(c, ping, 0))
            && (|raw| < len ==> Then(cfg, r, raw) == BeginControl(c, ping, len - |raw|))
  {
    var r := BeginControl(c, ping, len);
    if raw == [] {
      assert r.events + [] == r.events;
    } else {
      FeedSkip(cfg, r.conn, raw);
      var t := Feed(cfg, r.conn, raw);
      assert r.events + t.events == t.events;
    }
  }

  /** One more read of a payload. */
  lemma FillStep(got: seq<byte>, raw: seq<byte>, more: seq<byte>, mask: seq<byte>)
    requires |mask| == 4
    ensures got + Unmask(raw, mask) + Unmask(more, RotateBy(mask, |raw|)) == got + Unmask(raw + more, mask)
    ensures RotateBy(RotateBy(mask, |raw|), |more|) == RotateBy(mask, |raw + more|)
  {
    UnmaskConcat(raw, more, mask);
    RotateTwice(mask, |raw|, |more|);
  }

  lemma Assoc(a: seq<byte>, b: seq<byte>, c: seq<byte>)
    ensures (a + b) + c == a + (b + c)
  {
  }
}
