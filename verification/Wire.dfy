/** A connection of src/websock.c used by src/afb-ws.c, as a machine that takes one
    byte at a time.  What a would-block does to it is in WireTrace; that the code does
    the same for every cut of the stream is proved in WireDispatch. */
module Wire {
  import opened Bytes
  import opened Frames

  /** Which message callbacks the user of the connection provides; it provides
      neither on_close nor on_error, like the two users in the repository. */
  datatype Config = Config(text: bool, binary: bool)

  datatype Event =
    | OnText(data: seq<byte>)
    | OnBinary(data: seq<byte>)
    | SentPong
    | Error(code: nat)
    | Hangup
    | Crash                     // write through the NULL buffer
    | Dangling                  // dispatch goes on with a websock that was freed

  const PROTOCOL_ERROR := 1002
  const CANT_ACCEPT := 1003
  const ABNORMAL := 1006
  const TOO_LARGE := 1009

  datatype Asm = Waiting | ReadingText | ReadingBinary

  /** The buffer is NULL until some payload is read. */
  datatype Buf = Null | Buf(data: seq<byte>)

  datatype Phase =
    | Head(h: seq<byte>, sz: nat)                          // sz is 2, then the whole header
    | Payload(left: nat, mask: seq<byte>, fin: bool)       // of a data frame
    | Skip(left: nat, ping: bool)                          // of a ping or a pong
    | Dead

  datatype Conn = Conn(phase: Phase, asm: Asm, buf: Buf)

  datatype Out = Out(conn: Conn, events: seq<Event>)

  const IDLE := Head([], 2)
  const GONE := Conn(Dead, Waiting, Null)

  function Init(): Conn {
    Conn(IDLE, Waiting, Null)
  }

  ghost predicate Sound(c: Conn) {
    match c.phase
    case Head(h, sz) => |h| < sz <= MAX_HEAD && (|h| < 2 ==> sz == 2) &&
        (|h| >= 2 ==> sz == HeadSize(h[0], h[1]) && Headed(h[0], h[1]))
    case Payload(left, mask, _) => 0 < left && |mask| == 4 && c.buf.Buf? && c.asm != Waiting
    case Skip(left, _) => 0 < left
    case Dead => c == GONE
  }

  /** The first two bytes passed the early check of control frames. */
  predicate Headed(h0: byte, h1: byte) {
    Control(Opcode(h0)) ==> ControlOk(h0, h1)
  }

  /** An error that websock_dispatch finds itself: it reports it and returns. */
  function Abort(code: nat): Out {
    Out(GONE, [Error(code), Hangup])
  }

  /** An error found in the callback of a data frame: the hang-up frees the websock,
      and websock_dispatch then goes on with its next turn. */
  function Refuse(code: nat): Out {
    Out(GONE, [Error(code), Hangup, Dangling])
  }

  /** The end of a data frame: a final one delivers the message. */
  function EndFrame(c: Conn, fin: bool): Out {
    if !fin then Out(c.(phase := IDLE), [])
    else if c.buf.Null? then Out(GONE, [Crash])
    else Out(Init(), [if c.asm == ReadingText then OnText(c.buf.data) else OnBinary(c.buf.data)])
  }

  /** A data frame of `len` bytes begins, the state being already that of its kind. */
  function BeginData(c: Conn, fin: bool, len: nat, mask: seq<byte>): Out {
    if len == 0 then EndFrame(c, fin)
    else Out(c.(phase := Payload(len, mask, fin), buf := if c.buf.Null? then Buf([]) else c.buf), [])
  }

  function BeginControl(c: Conn, ping: bool, len: nat): Out {
    if len == 0 then Out(c.(phase := IDLE), if ping then [SentPong] else [])
    else Out(c.(phase := Skip(len, ping)), [])
  }

  function BeginFrame(cfg: Config, c: Conn, fin: bool, op: byte, len: nat, mask: seq<byte>): Out {
    if op == CONTINUATION then
      if c.asm == Waiting then Refuse(PROTOCOL_ERROR) else BeginData(c, fin, len, mask)
    else if op == TEXT then
      if c.asm != Waiting then Refuse(PROTOCOL_ERROR)
      else if !cfg.text then Refuse(CANT_ACCEPT)
      else BeginData(c.(asm := ReadingText), fin, len, mask)
    else if op == BINARY then
      if c.asm != Waiting then Refuse(PROTOCOL_ERROR)
      else if !cfg.binary then Refuse(CANT_ACCEPT)
      else BeginData(c.(asm := ReadingBinary), fin, len, mask)
    else if op == CLOSE then Out(GONE, [Hangup])
    else if op == PING || op == PONG then BeginControl(c, op == PING, len)
    else Abort(PROTOCOL_ERROR)
  }

  /** The payload length proper: that of a close frame is counted without its code. */
  function FrameLength(h: seq<byte>): nat
    requires |h| >= 2 && |h| >= HeadSize(h[0], h[1])
  {
    var len := LengthField(h);
    if Opcode(h[0]) == CLOSE && len >= 2 then len - 2 else len
  }

  /** The header is complete. */
  function Complete(cfg: Config, c: Conn, h: seq<byte>): Out
    requires |h| >= 2 && |h| >= HeadSize(h[0], h[1])
  {
    if FrameLength(h) > MAX_LENGTH then Abort(TOO_LARGE)
    else if Rsv(h[0]) != 0 then Abort(PROTOCOL_ERROR)
    else BeginFrame(cfg, c, Fin(h[0]), Opcode(h[0]), FrameLength(h), MaskOf(h))
  }

  /** The first two bytes are there. */
  function Started(cfg: Config, c: Conn, h: seq<byte>): Out
    requires |h| == 2
  {
    if !Headed(h[0], h[1]) then Abort(PROTOCOL_ERROR)
    else if HeadSize(h[0], h[1]) == 2 then Complete(cfg, c, h)
    else Out(c.(phase := Head(h, HeadSize(h[0], h[1]))), [])
  }

  function Byte(cfg: Config, c: Conn, b: byte): Out
    requires Sound(c)
  {
    match c.phase
    case Head(h, sz) =>
      var g := h + [b];
      if |g| < sz then Out(c.(phase := Head(g, sz)), [])
      else if |g| == 2 then Started(cfg, c, g)
      else Complete(cfg, c, g)
    case Payload(left, mask, fin) =>
      var d := c.(buf := Buf(c.buf.data + [Xor(b, mask[0])]));
      if left == 1 then EndFrame(d, fin) else Out(d.(phase := Payload(left - 1, Rotate(mask), fin)), [])
    case Skip(left, ping) =>
      if left == 1 then BeginControl(c, ping, 0) else Out(c.(phase := Skip(left - 1, ping)), [])
    case Dead => Out(c, [])
  }

  lemma BeginFrameSound(cfg: Config, c: Conn, fin: bool, op: byte, len: nat, mask: seq<byte>)
    requires |mask| == 4
    ensures Sound(BeginFrame(cfg, c, fin, op, len, mask).conn)
  {
  }

  lemma CompleteSound(cfg: Config, c: Conn, h: seq<byte>)
    requires |h| >= 2 && |h| >= HeadSize(h[0], h[1])
    ensures Sound(Complete(cfg, c, h).conn)
  {
    BeginFrameSound(cfg, c, Fin(h[0]), Opcode(h[0]), FrameLength(h), MaskOf(h));
  }

  lemma StartedSound(cfg: Config, c: Conn, h: seq<byte>)
    requires |h| == 2
    ensures Sound(Started(cfg, c, h).conn)
  {
    if HeadSize(h[0], h[1]) == 2 {
      CompleteSound(cfg, c, h);
    }
  }

  lemma ByteSound(cfg: Config, c: Conn, b: byte)
    requires Sound(c)
    ensures Sound(Byte(cfg, c, b).conn)
  {
    if c.phase.Head? {
      var g := c.phase.h + [b];
      if |g| == c.phase.sz {
        if |g| == 2 {
          StartedSound(cfg, c, g);
        } else {
          CompleteSound(cfg, c, g);
        }
      }
    }
  }

  /** The machine on a whole stream. */
  ghost function Feed(cfg: Config, c: Conn, s: seq<byte>): (r: Out)
    requires Sound(c)
    ensures Sound(r.conn)
    decreases |s|
  {
    if s == [] then Out(c, [])
    else
      ByteSound(cfg, c, s[0]);
      var r := Byte(cfg, c, s[0]);
      var t := Feed(cfg, r.conn, s[1..]);
      Out(t.conn, r.events + t.events)
  }

  /** Feeding two pieces one after the other. */
  ghost function Then(cfg: Config, r: Out, s: seq<byte>): Out
    requires Sound(r.conn)
  {
    var t := Feed(cfg, r.conn, s);
    Out(t.conn, r.events + t.events)
  }

  /** How a stream is cut does not matter to the machine. */
  lemma {:induction false} FeedConcat(cfg: Config, c: Conn, a: seq<byte>, b: seq<byte>)
    requires Sound(c)
    ensures Feed(cfg, c, a + b) == Then(cfg, Feed(cfg, c, a), b)
    decreases |a|
  {
    if a == [] {
      assert a + b == b;
    } else {
      assert (a + b)[1..] == a[1..] + b;
      ByteSound(cfg, c, a[0]);
      var r := Byte(cfg, c, a[0]);
      FeedConcat(cfg, r.conn, a[1..], b);
      var x, y := Feed(cfg, r.conn, a[1..]), Then(cfg, Feed(cfg, r.conn, a[1..]), b);
      assert r.events + (x.events + Feed(cfg, x.conn, b).events) == (r.events + x.events) + Feed(cfg, x.conn, b).events;
    }
  }

  /** What happens when the peer has closed the stream. */
  function AtEnd(c: Conn): seq<Event> {
    match c.phase
    case Head(_, _) => [Hangup]
    case Payload(_, _, _) => Refuse(ABNORMAL).events
    case Skip(_, ping) => (if ping then [SentPong] else []) + [Hangup]
    case Dead => []
  }
}
