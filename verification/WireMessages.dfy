/** From frames on the wire to messages (section 5.4 of RFC 6455). */
module WireMessages {
  import opened Bytes
  import opened Frames
  import opened Wire
  import opened WireBlocks

  /** A frame as the peer sends it; `key` is empty when it is not masked. */
  datatype Frame = Frame(fin: bool, op: byte, payload: seq<byte>, key: seq<byte>)

  /** What this receiver accepts: no close frame, lengths within bounds. */
  predicate Sendable(f: Frame) {
    && f.op < 16 && f.op != CLOSE
    && (|f.key| == 0 || |f.key| == 4)
    && |f.payload| <= MAX_LENGTH
    && (Control(f.op) ==> |f.payload| <= 125)
  }

  function Key(f: Frame): (r: seq<byte>)
    requires |f.key| == 0 || |f.key| == 4
    ensures |r| == 4
  {
    if f.key == [] then NO_MASK else f.key
  }

  function HeaderOf(f: Frame): seq<byte>
    requires Sendable(f)
  {
    Header(FirstByte(f.fin, f.op), |f.payload|, f.key)
  }

  /** The bytes of a frame: its header, then its payload under the mask. */
  function OnWire(f: Frame): seq<byte>
    requires Sendable(f)
  {
    HeaderOf(f) + Unmask(f.payload, Key(f))
  }

  // ----- one frame

  lemma FeedHeader(cfg: Config, c: Conn, h: seq<byte>)
    requires c.phase == IDLE && |h| >= 2 && HeadSize(h[0], h[1]) == |h| <= MAX_HEAD && Headed(h[0], h[1])
    ensures Sound(c) && Feed(cfg, c, h) == Complete(cfg, c, h)
  {
    var two := h[..2];
    FeedHead(cfg, c, two);
    assert [] + two == two;
    if |h| == 2 {
      assert two == h;
    } else {
      var d := c.(phase := Head(two, |h|));
      assert Feed(cfg, c, two) == Out(d, []);
      assert h == two + h[2..];
      FeedConcat(cfg, c, two, h[2..]);
      FeedHead(cfg, d, h[2..]);
      FinishedAnyPhase(cfg, c, d, h);
      var t := Feed(cfg, d, h[2..]);
      assert [] + t.events == t.events;
    }
  }

  lemma {:induction false} Pow2Grows(m: nat, n: nat)
    requires m <= n
    ensures Pow2(m) <= Pow2(n)
  {
    if m < n {
      Pow2Grows(m, n - 1);
    }
  }

  lemma SmallSize()
    ensures MAX_LENGTH < Pow2(64)
  {
    Pow2Step(0);
    Pow2Step(8);
    Pow2Grows(16, 64);
  }

  lemma HeaderFits(f: Frame)
    requires Sendable(f)
    ensures var h := HeaderOf(f);
            && |h| >= 2 && HeadSize(h[0], h[1]) == |h| <= MAX_HEAD && Headed(h[0], h[1])
            && Fin(h[0]) == f.fin && Opcode(h[0]) == f.op && Rsv(h[0]) == 0
            && LengthField(h) == |f.payload| && MaskOf(h) == Key(f)
  {
    SmallSize();
    HeaderRoundTrip(f.fin, f.op, |f.payload|, f.key);
    if Control(f.op) {
      assert HeaderOf(f)[1] == Lengths(|f.payload|, f.key != [])[0];
    }
  }

  lemma HeaderRead(cfg: Config, c: Conn, f: Frame)
    requires c.phase == IDLE && Sendable(f)
    ensures Sound(c) && Feed(cfg, c, HeaderOf(f)) == BeginFrame(cfg, c, f.fin, f.op, |f.payload|, Key(f))
  {
    HeaderFits(f);
    FeedHeader(cfg, c, HeaderOf(f));
  }

  /** What a whole frame does to an idle connection. */
  function TakeFrame(cfg: Config, c: Conn, f: Frame): Out {
    if f.op == PING || f.op == PONG then Out(c.(phase := IDLE), if f.op == PING then [SentPong] else [])
    else if f.op == CONTINUATION && c.asm != Waiting then
      EndFrame(c.(buf := Collect(c.buf, f.payload)), f.fin)
    else if f.op == TEXT && c.asm == Waiting && cfg.text then
      EndFrame(c.(asm := ReadingText, buf := Collect(c.buf, f.payload)), f.fin)
    else if f.op == BINARY && c.asm == Waiting && cfg.binary then
      EndFrame(c.(asm := ReadingBinary, buf := Collect(c.buf, f.payload)), f.fin)
    else if (f.op == TEXT || f.op == BINARY) && c.asm == Waiting then Refuse(CANT_ACCEPT)
    else if f.op == TEXT || f.op == BINARY || f.op == CONTINUATION then Refuse(PROTOCOL_ERROR)
    else Abort(PROTOCOL_ERROR)
  }

  /** The payload of a data frame that was accepted. */
  lemma FeedBody(cfg: Config, c: Conn, fin: bool, body: seq<byte>, mask: seq<byte>)
    requires |mask| == 4 && c.asm != Waiting && body != []
    ensures var r := BeginData(c, fin, |body|, mask);
            && Sound(r.conn)
            && Then(cfg, r, Unmask(body, mask)) == EndFrame(c.(buf := Collect(c.buf, body)), fin)
  {
    var r := BeginData(c, fin, |body|, mask);
    FeedPayload(cfg, r.conn, Unmask(body, mask));
    UnmaskTwice(body, mask);
    var t := Feed(cfg, r.conn, Unmask(body, mask));
    assert r.events + t.events == t.events;
    if c.buf.Null? {
      assert [] + body == body;
    }
  }

  lemma FeedFrame(cfg: Config, c: Conn, f: Frame)
    requires c.phase == IDLE && Sendable(f)
    ensures Sound(c) && Feed(cfg, c, OnWire(f)) == TakeFrame(cfg, c, f)
  {
    var h, body := HeaderOf(f), Unmask(f.payload, Key(f));
    HeaderRead(cfg, c, f);
    FeedConcat(cfg, c, h, body);
    var r := BeginFrame(cfg, c, f.fin, f.op, |f.payload|, Key(f));
    if f.payload == [] {
      assert body == [] && r.events + [] == r.events;
    } else if r.conn == GONE {
      FeedDead(cfg, body);
      assert r.events + [] == r.events;
    } else if f.op == PING || f.op == PONG {
      FeedSkip(cfg, r.conn, body);
      var t := Feed(cfg, r.conn, body);
      assert r.events + t.events == t.events;
    } else {
      var d := if f.op == TEXT then c.(asm := ReadingText) else if f.op == BINARY then c.(asm := ReadingBinary) else c;
      assert r == BeginData(d, f.fin, |f.payload|, Key(f));
      FeedBody(cfg, d, f.fin, f.payload, Key(f));
    }
  }

  /** Data frames out of order are a protocol error, reported from a callback. */
  lemma OutOfOrder(cfg: Config, c: Conn, f: Frame)
    requires c.phase == IDLE && Sendable(f)
    requires (f.op == CONTINUATION && c.asm == Waiting) || ((f.op == TEXT || f.op == BINARY) && c.asm != Waiting)
    ensures Sound(c) && Feed(cfg, c, OnWire(f)) == Out(GONE, [Error(PROTOCOL_ERROR), Hangup, Dangling])
  {
    FeedFrame(cfg, c, f);
  }
}
