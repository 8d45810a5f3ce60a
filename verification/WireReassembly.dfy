/** Whole messages over any number of fragments, with control frames in between. */
module WireReassembly {
  import opened Bytes
  import opened Frames
  import opened Wire
  import opened WireBlocks
  import opened WireMessages

  /** A message and the fragments it is cut in. */
  datatype Message = Message(text: bool, parts: seq<seq<byte>>)

  /** A data frame without its mask. */
  datatype Piece = Piece(fin: bool, op: byte, payload: seq<byte>)

  function Kind(text: bool): byte {
    if text then TEXT else BINARY
  }

  /** The frames of the fragments `ps`, the first one with the opcode `op`. */
  function Pieces(op: byte, ps: seq<seq<byte>>): seq<Piece> {
    if ps == [] then [] else [Piece(|ps| == 1, op, ps[0])] + Pieces(CONTINUATION, ps[1..])
  }

  function AllPieces(ms: seq<Message>): seq<Piece> {
    if ms == [] then [] else Pieces(Kind(ms[0].text), ms[0].parts) + AllPieces(ms[1..])
  }

  /** The data frames among the frames received. */
  function DataOf(fs: seq<Frame>): seq<Piece> {
    if fs == [] then []
    else (if Control(fs[0].op) then [] else [Piece(fs[0].fin, fs[0].op, fs[0].payload)]) + DataOf(fs[1..])
  }

  function Flatten(ps: seq<seq<byte>>): seq<byte> {
    if ps == [] then [] else ps[0] + Flatten(ps[1..])
  }

  function Delivery(text: bool, data: seq<byte>): Event {
    if text then OnText(data) else OnBinary(data)
  }

  /** One callback per message, until a message without payload: the code then
      writes through a NULL pointer. */
  function Expected(ms: seq<Message>): seq<Event> {
    if ms == [] then []
    else if Flatten(ms[0].parts) == [] then [Crash]
    else [Delivery(ms[0].text, Flatten(ms[0].parts))] + Expected(ms[1..])
  }

  /** Every message has some payload. */
  predicate NoneEmpty(ms: seq<Message>) {
    ms == [] || (Flatten(ms[0].parts) != [] && NoneEmpty(ms[1..]))
  }

  /** The events other than the pongs sent back. */
  function NoPong(es: seq<Event>): seq<Event> {
    if es == [] then [] else (if es[0] == SentPong then [] else [es[0]]) + NoPong(es[1..])
  }

  lemma {:induction false} NoPongConcat(a: seq<Event>, b: seq<Event>)
    ensures NoPong(a + b) == NoPong(a) + NoPong(b)
  {
    if a == [] {
      assert a + b == b;
    } else {
      assert (a + b)[0] == a[0] && (a + b)[1..] == a[1..] + b;
      NoPongConcat(a[1..], b);
      var x := if a[0] == SentPong then [] else [a[0]];
      assert NoPong(a + b) == x + (NoPong(a[1..]) + NoPong(b));
      assert NoPong(a) == x + NoPong(a[1..]);
    }
  }

  function Stream(fs: seq<Frame>): seq<byte>
    requires forall f :: f in fs ==> Sendable(f)
  {
    if fs == [] then [] else OnWire(fs[0]) + Stream(fs[1..])
  }

  ghost predicate Wellformed(cfg: Config, ms: seq<Message>) {
    forall m :: m in ms ==> m.parts != [] && (if m.text then cfg.text else cfg.binary)
  }

  /** The connection in the middle of a message: `got` was received of it. */
  function Mid(text: bool, got: seq<byte>): Conn {
    Conn(IDLE, if text then ReadingText else ReadingBinary, if got == [] then Null else Buf(got))
  }

  /** One frame, then the rest of the stream. */
  lemma FirstFrame(cfg: Config, c: Conn, fs: seq<Frame>)
    requires c.phase == IDLE && fs != [] && forall f :: f in fs ==> Sendable(f)
    ensures Sound(c) && Sound(TakeFrame(cfg, c, fs[0]).conn)
    ensures Feed(cfg, c, Stream(fs)) == Then(cfg, TakeFrame(cfg, c, fs[0]), Stream(fs[1..]))
  {
    FeedFrame(cfg, c, fs[0]);
    FeedConcat(cfg, c, OnWire(fs[0]), Stream(fs[1..]));
  }

  /** A fragment of the message in progress, first or not. */
  lemma TakePiece(cfg: Config, text: bool, got: seq<byte>, f: Frame, c: Conn)
    requires if text then cfg.text else cfg.binary
    requires (f.op == CONTINUATION && c == Mid(text, got)) || (f.op == Kind(text) && c == Init() && got == [])
    ensures TakeFrame(cfg, c, f) ==
            if !f.fin then Out(Mid(text, got + f.payload), [])
            else if got + f.payload == [] then Out(GONE, [Crash])
            else Out(Init(), [Delivery(text, got + f.payload)])
  {
    assert got == [] ==> got + f.payload == f.payload;
    assert f.payload == [] ==> got + f.payload == got;
  }

  /** What the rest of a message in progress, then the messages `ms` give. */
  function Rest(text: bool, got: seq<byte>, ps: seq<seq<byte>>, ms: seq<Message>): seq<Event> {
    if got + Flatten(ps) == [] then [Crash] else [Delivery(text, got + Flatten(ps))] + Expected(ms)
  }

  lemma FlattenStep(got: seq<byte>, ps: seq<seq<byte>>)
    requires ps != []
    ensures got + Flatten(ps) == (got + ps[0]) + Flatten(ps[1..])
    ensures |ps| == 1 ==> got + Flatten(ps) == got + ps[0]
  {
    Assoc(got, ps[0], Flatten(ps[1..]));
    if |ps| == 1 {
      assert ps[1..] == [] && ps[0] + [] == ps[0];
    }
  }

  /** Between messages (`busy` false) or inside one, every stream of frames whose
      data frames are the remaining fragments gives exactly the expected events. */
  lemma {:induction false} Reassemble(cfg: Config, fs: seq<Frame>, busy: bool, text: bool, got: seq<byte>,
      ps: seq<seq<byte>>, ms: seq<Message>)
    requires forall f :: f in fs ==> Sendable(f)
    requires Wellformed(cfg, ms) && (busy ==> ps != [] && (if text then cfg.text else cfg.binary))
    requires DataOf(fs) == (if busy then Pieces(CONTINUATION, ps) else []) + AllPieces(ms)
    ensures var c := if busy then Mid(text, got) else Init();
            && Sound(c)
            && NoPong(Feed(cfg, c, Stream(fs)).events) == (if busy then Rest(text, got, ps, ms) else Expected(ms))
            && Feed(cfg, c, Stream(fs)).conn ==
                (if NoneEmpty(ms) && (busy ==> got + Flatten(ps) != []) then Init() else GONE)
    decreases |fs|, 1
  {
    var c := if busy then Mid(text, got) else Init();
    if fs == [] {
      NothingLeft(busy, ps, ms);
    } else if Control(fs[0].op) {
      ControlFrame(cfg, fs, c);
      Reassemble(cfg, fs[1..], busy, text, got, ps, ms);
    } else if busy {
      DataFrame(cfg, fs, text, got, ps, ms, c);
    } else {
      assert [] + AllPieces(ms) == AllPieces(ms);
      assert ms != [];
      var m := ms[0];
      assert m in ms;
      DataFrame(cfg, fs, m.text, [], m.parts, ms[1..], c);
      assert [] + Flatten(m.parts) == Flatten(m.parts);
    }
  }

  /** A ping or a pong leaves everything else as it is. */
  lemma ControlFrame(cfg: Config, fs: seq<Frame>, c: Conn)
    requires c.phase == IDLE && fs != [] && Control(fs[0].op) && forall f :: f in fs ==> Sendable(f)
    ensures Sound(c) && NoPong(Feed(cfg, c, Stream(fs)).events) == NoPong(Feed(cfg, c, Stream(fs[1..])).events)
    ensures Feed(cfg, c, Stream(fs)).conn == Feed(cfg, c, Stream(fs[1..])).conn
    ensures DataOf(fs) == DataOf(fs[1..])
  {
    assert fs[0] in fs;
    FirstFrame(cfg, c, fs);
    var r := TakeFrame(cfg, c, fs[0]);
    assert r.conn == c;
    var tail := Feed(cfg, c, Stream(fs[1..])).events;
    NoPongConcat(r.events, tail);
    assert [SentPong][1..] == [] && NoPong([SentPong]) == [];
    assert [] + NoPong(tail) == NoPong(tail);
    assert [] + DataOf(fs[1..]) == DataOf(fs[1..]);
  }

  lemma SomePieces(ms: seq<Message>)
    requires ms != [] && forall m :: m in ms ==> m.parts != []
    ensures AllPieces(ms) != []
  {
    assert ms[0] in ms;
    assert Pieces(Kind(ms[0].text), ms[0].parts) != [];
  }

  lemma NothingLeft(busy: bool, ps: seq<seq<byte>>, ms: seq<Message>)
    requires [] == (if busy then Pieces(CONTINUATION, ps) else []) + AllPieces(ms)
    requires busy ==> ps != []
    requires forall m :: m in ms ==> m.parts != []
    ensures !busy && ms == []
  {
    var all := AllPieces(ms);
    assert |all| == 0;
    if |ms| > 0 {
      SomePieces(ms);
    }
  }

  /** The first data frame is the first fragment; the others are the rest. */
  lemma PieceMatches(fs: seq<Frame>, op: byte, ps: seq<seq<byte>>, ms: seq<Message>)
    requires fs != [] && !Control(fs[0].op) && ps != []
    requires DataOf(fs) == Pieces(op, ps) + AllPieces(ms)
    ensures fs[0].op == op && fs[0].payload == ps[0] && fs[0].fin == (|ps| == 1)
    ensures DataOf(fs[1..]) == Pieces(CONTINUATION, ps[1..]) + AllPieces(ms)
  {
    var f, rest := fs[0], DataOf(fs[1..]);
    var p := Piece(|ps| == 1, op, ps[0]);
    assert DataOf(fs) == [Piece(f.fin, f.op, f.payload)] + rest;
    assert Pieces(op, ps) + AllPieces(ms) == [p] + (Pieces(CONTINUATION, ps[1..]) + AllPieces(ms));
    assert DataOf(fs)[0] == p;
    assert DataOf(fs)[1..] == rest;
  }

  /** A data frame: the next fragment of the message (`text`, `ps`). */
  lemma {:induction false} DataFrame(cfg: Config, fs: seq<Frame>, text: bool, got: seq<byte>, ps: seq<seq<byte>>,
      ms: seq<Message>, c: Conn)
    requires forall f :: f in fs ==> Sendable(f)
    requires fs != [] && !Control(fs[0].op) && ps != [] && (if text then cfg.text else cfg.binary) &&
             Wellformed(cfg, ms)
    requires c == Mid(text, got) || (c == Init() && got == [])
    requires DataOf(fs) == Pieces(if c == Init() then Kind(text) else CONTINUATION, ps) + AllPieces(ms)
    ensures Sound(c) && NoPong(Feed(cfg, c, Stream(fs)).events) == Rest(text, got, ps, ms)
    ensures Feed(cfg, c, Stream(fs)).conn == (if NoneEmpty(ms) && got + Flatten(ps) != [] then Init() else GONE)
    decreases |fs|, 0
  {
    var f := fs[0];
    FirstFrame(cfg, c, fs);
    PieceMatches(fs, if c == Init() then Kind(text) else CONTINUATION, ps, ms);
    TakePiece(cfg, text, got, f, c);
    FlattenStep(got, ps);
    var r := TakeFrame(cfg, c, f);
    NoPongConcat(r.events, Feed(cfg, r.conn, Stream(fs[1..])).events);
    NoPongOne(r.events);
    if !f.fin {
      Reassemble(cfg, fs[1..], true, text, got + f.payload, ps[1..], ms);
    } else if got + f.payload == [] {
      FeedDead(cfg, Stream(fs[1..]));
    } else {
      assert Pieces(CONTINUATION, ps[1..]) == [];
      Reassemble(cfg, fs[1..], false, text, [], [], ms);
    }
  }

  lemma NoPongOne(es: seq<Event>)
    requires |es| == 0 || (|es| == 1 && es[0] != SentPong)
    ensures NoPong(es) == es
  {
    if |es| == 1 {
      assert es[1..] == [] && es == [es[0]];
    }
  }

  /** Every legal sequence of fragmented messages, masked or not and interleaved
      with pings and pongs, gives exactly one callback per message with its whole
      payload; if and only if every message has some payload. */
  lemma MessagesDelivered(cfg: Config, fs: seq<Frame>, ms: seq<Message>)
    requires (forall f :: f in fs ==> Sendable(f)) && Wellformed(cfg, ms) && DataOf(fs) == AllPieces(ms)
    ensures NoPong(Feed(cfg, Init(), Stream(fs)).events) == Expected(ms)
    ensures Feed(cfg, Init(), Stream(fs)).conn == if NoneEmpty(ms) then Init() else GONE
    ensures (forall m :: m in ms ==> Flatten(m.parts) != []) <==>
              NoPong(Feed(cfg, Init(), Stream(fs)).events) ==
                  seq(|ms|, i requires 0 <= i < |ms| => Delivery(ms[i].text, Flatten(ms[i].parts)))
  {
    assert [] + AllPieces(ms) == AllPieces(ms);
    Reassemble(cfg, fs, false, true, [], [], ms);
    ExpectedAll(ms);
  }

  lemma {:induction false} ExpectedAll(ms: seq<Message>)
    ensures (forall m :: m in ms ==> Flatten(m.parts) != []) <==>
              Expected(ms) == seq(|ms|, i requires 0 <= i < |ms| => Delivery(ms[i].text, Flatten(ms[i].parts)))
  {
    if ms != [] {
      ExpectedAll(ms[1..]);
      var all := seq(|ms|, i requires 0 <= i < |ms| => Delivery(ms[i].text, Flatten(ms[i].parts)));
      var tail := seq(|ms[1..]|, i requires 0 <= i < |ms[1..]| => Delivery(ms[1..][i].text, Flatten(ms[1..][i].parts)));
      assert all == [all[0]] + tail;
      assert forall m :: m in ms <==> m == ms[0] || m in ms[1..];
      if Flatten(ms[0].parts) == [] {
        assert Expected(ms)[0] != all[0];
      } else {
        assert Expected(ms)[1..] == Expected(ms[1..]) && all[1..] == tail;
      }
    }
  }

  // ----- streams without control payloads

  /** No prefix leaves the connection inside the payload of a ping or a pong. */
  ghost predicate Smooth(cfg: Config, c: Conn, s: seq<byte>)
    requires Sound(c)
  {
    forall k :: 0 <= k <= |s| ==> !Feed(cfg, c, s[..k]).conn.phase.Skip?
  }

  lemma SmoothHead(cfg: Config, c: Conn, h: seq<byte>)
    requires c.phase == IDLE && |h| >= 2 && HeadSize(h[0], h[1]) == |h| <= MAX_HEAD && Headed(h[0], h[1])
    requires Sound(c) && !Complete(cfg, c, h).conn.phase.Skip?
    ensures Smooth(cfg, c, h)
  {
    forall k | 0 <= k <= |h|
      ensures !Feed(cfg, c, h[..k]).conn.phase.Skip?
    {
      if k == |h| {
        assert h[..k] == h;
        FeedHeader(cfg, c, h);
      } else if 0 < k < 2 {
        FeedHead(cfg, c, h[..k]);
      } else if k >= 2 {
        var two := h[..2];
        FeedHead(cfg, c, two);
        assert [] + two == two;
        var d := c.(phase := Head(two, |h|));
        assert h[..k] == two + h[2..k];
        FeedConcat(cfg, c, two, h[2..k]);
        if k > 2 {
          FeedHead(cfg, d, h[2..k]);
        }
      }
    }
  }

  lemma SmoothConcat(cfg: Config, c: Conn, a: seq<byte>, b: seq<byte>)
    requires Sound(c) && Smooth(cfg, c, a) && Smooth(cfg, Feed(cfg, c, a).conn, b)
    ensures Smooth(cfg, c, a + b)
  {
    forall k | 0 <= k <= |a + b|
      ensures !Feed(cfg, c, (a + b)[..k]).conn.phase.Skip?
    {
      if k <= |a| {
        assert (a + b)[..k] == a[..k];
      } else {
        assert (a + b)[..k] == a + b[..k - |a|];
        FeedConcat(cfg, c, a, b[..k - |a|]);
      }
    }
  }

  lemma SmoothBody(cfg: Config, c: Conn, s: seq<byte>)
    requires Sound(c) && (s == [] ==> !c.phase.Skip?)
    requires s != [] ==> c == GONE || (c.phase.Payload? && |s| == c.phase.left)
    ensures Smooth(cfg, c, s)
  {
    forall k | 0 <= k <= |s|
      ensures !Feed(cfg, c, s[..k]).conn.phase.Skip?
    {
      if c == GONE {
        FeedDead(cfg, s[..k]);
      } else if k > 0 {
        FeedPayload(cfg, c, s[..k]);
      }
    }
  }

  /** A frame that is not a control frame with payload. */
  lemma SmoothFrame(cfg: Config, c: Conn, f: Frame)
    requires c.phase == IDLE && Sendable(f) && (Control(f.op) ==> f.payload == [])
    ensures Sound(c) && Smooth(cfg, c, OnWire(f))
  {
    var h, body := HeaderOf(f), Unmask(f.payload, Key(f));
    var r := BeginFrame(cfg, c, f.fin, f.op, |f.payload|, Key(f));
    HeaderRead(cfg, c, f);
    HeaderFits(f);
    FeedHeader(cfg, c, h);
    SmoothHead(cfg, c, h);
    SmoothBody(cfg, r.conn, body);
    SmoothConcat(cfg, c, h, body);
  }

  lemma {:induction false} SmoothDead(cfg: Config, s: seq<byte>)
    ensures Smooth(cfg, GONE, s)
  {
    forall k | 0 <= k <= |s|
      ensures !Feed(cfg, GONE, s[..k]).conn.phase.Skip?
    {
      FeedDead(cfg, s[..k]);
    }
  }

  /** Data frames and empty control frames: no would-block can do harm. */
  lemma {:induction false} SmoothStream(cfg: Config, c: Conn, fs: seq<Frame>)
    requires c.phase == IDLE && forall f :: f in fs ==> Sendable(f) && (Control(f.op) ==> f.payload == [])
    ensures Sound(c) && Smooth(cfg, c, Stream(fs))
    decreases |fs|
  {
    if fs != [] {
      SmoothFrame(cfg, c, fs[0]);
      FeedFrame(cfg, c, fs[0]);
      var d := TakeFrame(cfg, c, fs[0]).conn;
      if d.phase == IDLE {
        SmoothStream(cfg, d, fs[1..]);
      } else {
        SmoothDead(cfg, Stream(fs[1..]));
      }
      SmoothConcat(cfg, c, OnWire(fs[0]), Stream(fs[1..]));
    }
  }
}
