/** The bytes of frames written out (sections 5.2, 5.3 and 5.5 of RFC 6455), and what the
    reader answers to each kind of frame. */
module FrameFormat {
  import opened Bytes
  import opened Frames
  import opened Wire
  import opened WireBlocks
  import opened WireMessages

  // ----- exclusive or

  /** Bit `i` of a number. */
  function Bit(n: nat, i: nat): nat {
    if i == 0 then n % 2 else Bit(n / 2, i - 1)
  }

  lemma {:induction false} XorBitsAt(a: nat, b: nat, n: nat, i: nat)
    requires i < n
    ensures Bit(XorBits(a, b, n), i) == if Bit(a, i) == Bit(b, i) then 0 else 1
  {
    var rest := XorBits(a / 2, b / 2, n - 1);
    Doubled((a + b) % 2, rest, XorBits(a, b, n));
    Odd(a, b);
    if i > 0 {
      XorBitsAt(a / 2, b / 2, n - 1, i - 1);
    }
  }

  lemma Doubled(bit: nat, rest: nat, r: nat)
    requires bit < 2 && r == bit + 2 * rest
    ensures r % 2 == bit && r / 2 == rest
  {
  }

  lemma Odd(a: nat, b: nat)
    ensures (a + b) % 2 == if a % 2 == b % 2 then 0 else 1
  {
  }

  /** A bit of the result is set exactly when it differs in the two bytes. */
  lemma XorBit(a: byte, b: byte, i: nat)
    requires i < 8
    ensures Bit(Xor(a, b), i) == if Bit(a, i) == Bit(b, i) then 0 else 1
  {
    XorBitsAt(a, b, 8, i);
  }

  // ----- headers

  /** Two bytes, the higher one first, and eight. */
  lemma TwoBytes(b: seq<byte>)
    requires |b| == 2
    ensures FromBigEndian(b) == 0x100 * b[0] as int + b[1] as int
  {
    assert b[..1][..0] == [] && b[..1][0] == b[0];
    assert FromBigEndian(b[..1]) == b[0] as int;
  }

  lemma EightBytes(b: seq<byte>)
    requires |b| == 8
    ensures FromBigEndian(b) == 0x100_0000_0000_0000 * b[0] as int + 0x1_0000_0000_0000 * b[1] as int
                                + 0x100_0000_0000 * b[2] as int + 0x1_0000_0000 * b[3] as int
                                + 0x100_0000 * b[4] as int + 0x1_0000 * b[5] as int
                                + 0x100 * b[6] as int + b[7] as int
  {
    TwoBytes(b[..2]);
    OneMore(b, 2);
    OneMore(b, 3);
    OneMore(b, 4);
    OneMore(b, 5);
    OneMore(b, 6);
    OneMore(b, 7);
    assert b[..8] == b;
  }

  lemma OneMore(b: seq<byte>, k: nat)
    requires k < |b|
    ensures FromBigEndian(b[..k + 1]) == 256 * FromBigEndian(b[..k]) + b[k] as int
  {
    assert b[..k + 1][..k] == b[..k];
  }

  /** The header of a frame: FIN and opcode in the first byte, the mask bit and the length
      in the second, an extended length in two or eight bytes with the highest first, then
      the key. */
  ghost predicate Laid(h: seq<byte>, fin: bool, op: nat, size: nat, key: seq<byte>) {
    var mask := if key == [] then 0 else 128;
    && |h| >= 2
    && h[0] as int == (if fin then 128 else 0) + op
    && (size <= 125 ==> |h| == 2 + |key| && h[1] as int == mask + size)
    && (125 < size <= 65535 ==>
          |h| == 4 + |key| && h[1] as int == mask + 126 && 0x100 * h[2] as int + h[3] as int == size)
    && (65535 < size ==>
          && |h| == 10 + |key| && h[1] as int == mask + 127
          && 0x100_0000_0000_0000 * h[2] as int + 0x1_0000_0000_0000 * h[3] as int
             + 0x100_0000_0000 * h[4] as int + 0x1_0000_0000 * h[5] as int
             + 0x100_0000 * h[6] as int + 0x1_0000 * h[7] as int
             + 0x100 * h[8] as int + h[9] as int == size)
    && h[|h| - |key|..] == key
  }

  lemma HeaderLaid(fin: bool, op: byte, size: nat, key: seq<byte>)
    requires op < 16 && size < 0x1_0000_0000_0000_0000 && (|key| == 0 || |key| == 4)
    ensures Laid(Header(FirstByte(fin, op), size, key), fin, op, size, key)
  {
    var h, n := Header(FirstByte(fin, op), size, key), Width(size);
    HeaderSplit(fin, op, size, key, h, BigEndian(size, n));
    BigEndianFits(size, n);
    if n == 2 {
      TwoBytes(BigEndian(size, n));
    } else if n == 8 {
      EightBytes(BigEndian(size, n));
    }
  }

  lemma HeaderSplit(fin: bool, op: byte, size: nat, key: seq<byte>, h: seq<byte>, digits: seq<byte>)
    requires op < 16 && (|key| == 0 || |key| == 4)
    requires h == Header(FirstByte(fin, op), size, key) && digits == BigEndian(size, Width(size))
    ensures |h| == 2 + |digits| + |key| && h[0] == FirstByte(fin, op)
    ensures h[1] as int == (if key == [] then 0 else 128) + Code(size)
    ensures forall i :: 0 <= i < |digits| ==> h[2 + i] == digits[i]
    ensures h[|h| - |key|..] == key
  {
  }

  lemma BigEndianFits(size: nat, n: nat)
    requires n == Width(size) && size < 0x1_0000_0000_0000_0000
    ensures n > 0 ==> FromBigEndian(BigEndian(size, n)) == size
  {
    if n > 0 {
      PowersOf256();
      BigEndianInverse(size, n);
    }
  }

  lemma PowersOf256()
    ensures Pow2(16) == 0x1_0000 && Pow2(64) == 0x1_0000_0000_0000_0000
  {
    Pow2Step(0);
    Pow2Step(8);
    Pow2Step(16);
    Pow2Step(24);
    Pow2Step(32);
    Pow2Step(40);
    Pow2Step(48);
    Pow2Step(56);
  }

  /** A frame on the wire: its header, then the payload, byte i of it combined with byte
      i mod 4 of the key when there is one. */
  lemma FrameLaid(f: Frame, i: nat)
    requires Sendable(f)
    ensures var w, n := OnWire(f), |OnWire(f)| - |f.payload|;
            && n >= 2 && Laid(w[..n], f.fin, f.op, |f.payload|, f.key)
            && (i < |f.payload| ==>
                  w[n + i] == if f.key == [] then f.payload[i] else Xor(f.payload[i], f.key[i % 4]))
  {
    HeaderLaid(f.fin, f.op, |f.payload|, f.key);
    WireParts(HeaderOf(f), Unmask(f.payload, Key(f)), OnWire(f));
    if i < |f.payload| {
      Combined(f, i);
    }
  }

  lemma WireParts(h: seq<byte>, body: seq<byte>, w: seq<byte>)
    requires w == h + body
    ensures w[..|w| - |body|] == h && forall i :: 0 <= i < |body| ==> w[|w| - |body| + i] == body[i]
  {
  }

  lemma Combined(f: Frame, i: nat)
    requires Sendable(f) && i < |f.payload|
    ensures Unmask(f.payload, Key(f))[i] == if f.key == [] then f.payload[i] else Xor(f.payload[i], f.key[i % 4])
  {
    XorNeutral(f.payload[i]);
  }

  // ----- answers

  /** What the reader does between two frames when it gets one with the opcode `op`. */
  lemma ControlAnswered(cfg: Config, c: Conn, f: Frame)
    requires c.phase == IDLE && Sendable(f)
    ensures Sound(c)
    ensures f.op as int == 9 ==> Feed(cfg, c, OnWire(f)) == Out(c, [SentPong])
    ensures f.op as int == 10 ==> Feed(cfg, c, OnWire(f)) == Out(c, [])
    ensures 3 <= f.op as int <= 7 || 11 <= f.op as int ==>
              Feed(cfg, c, OnWire(f)) == Out(GONE, [Error(1002), Hangup])
  {
    FeedFrame(cfg, c, f);
  }

  /** And a data frame: its payload goes behind what is there, a final one is delivered. */
  lemma DataAnswered(cfg: Config, c: Conn, f: Frame)
    requires c.phase == IDLE && Sendable(f) && f.payload != []
    ensures Sound(c)
    ensures f.op as int == 1 && c == Init() && cfg.text ==>
              Feed(cfg, c, OnWire(f)) == if f.fin then Out(Init(), [OnText(f.payload)])
                                         else Out(Conn(IDLE, ReadingText, Buf(f.payload)), [])
    ensures f.op as int == 2 && c == Init() && cfg.binary ==>
              Feed(cfg, c, OnWire(f)) == if f.fin then Out(Init(), [OnBinary(f.payload)])
                                         else Out(Conn(IDLE, ReadingBinary, Buf(f.payload)), [])
    ensures f.op as int == 0 && c.asm == ReadingText && c.buf.Buf? ==>
              Feed(cfg, c, OnWire(f)) == if f.fin then Out(Init(), [OnText(c.buf.data + f.payload)])
                                         else Out(c.(buf := Buf(c.buf.data + f.payload)), [])
    ensures f.op as int == 0 && c.asm == ReadingBinary && c.buf.Buf? ==>
              Feed(cfg, c, OnWire(f)) == if f.fin then Out(Init(), [OnBinary(c.buf.data + f.payload)])
                                         else Out(c.(buf := Buf(c.buf.data + f.payload)), [])
    ensures c.asm == Waiting && ((f.op as int == 1 && !cfg.text) || (f.op as int == 2 && !cfg.binary)) ==>
              Feed(cfg, c, OnWire(f)) == Out(GONE, [Error(1003), Hangup, Dangling])
    ensures (f.op as int == 0 && c.asm == Waiting) || (1 <= f.op as int <= 2 && c.asm != Waiting) ==>
              Feed(cfg, c, OnWire(f)) == Out(GONE, [Error(1002), Hangup, Dangling])
  {
    FeedFrame(cfg, c, f);
    assert [] + f.payload == f.payload;
  }

  /** A header with a longer payload than 65000 bytes is refused as too large, one of at
      most that is not; for any opcode of data. */
  lemma TooLargeIff(cfg: Config, c: Conn, fin: bool, op: byte, size: nat, key: seq<byte>)
    requires c.phase == IDLE && op as int <= 2 && size < 0x1_0000_0000_0000_0000 && (|key| == 0 || |key| == 4)
    ensures Sound(c)
    ensures var r := Feed(cfg, c, Header(FirstByte(fin, op), size, key));
            && (size > 65000 ==> r == Out(GONE, [Error(1009), Hangup]))
            && (size <= 65000 ==> Error(1009) !in r.events)
  {
    var h := Header(FirstByte(fin, op), size, key);
    PowersOf256();
    HeaderRoundTrip(fin, op, size, key);
    FeedHeader(cfg, c, h);
    SizeDecides(cfg, c, h, size);
  }

  lemma SizeDecides(cfg: Config, c: Conn, h: seq<byte>, size: nat)
    requires |h| >= 2 && |h| >= HeadSize(h[0], h[1]) && LengthField(h) == size && Opcode(h[0]) as int <= 2
    ensures var r := Complete(cfg, c, h);
            && (size > 65000 ==> r == Out(GONE, [Error(1009), Hangup]))
            && (size <= 65000 ==> Error(1009) !in r.events)
  {
  }

  /** A control frame with more than 125 bytes is a protocol error as soon as its second
      byte is read, and so is one with a reserved bit. */
  lemma BadControl(cfg: Config, c: Conn, first: byte, second: byte)
    requires c.phase == IDLE && 8 <= first as int % 16 <= 10
    requires first as int / 16 % 8 != 0 || second as int % 128 > 125
    ensures Sound(c) && Feed(cfg, c, [first, second]) == Out(GONE, [Error(1002), Hangup])
  {
    FeedHead(cfg, c, [first, second]);
    assert [] + [first, second] == [first, second];
  }

  /** A close frame ends the connection: without payload at its second byte, unmasked and
      with a code and a reason when the code is read. */
  lemma CloseAnswered(cfg: Config, c: Conn, size: byte, high: byte, low: byte)
    requires c.phase == IDLE && 2 <= size as int <= 125
    ensures Sound(c)
    ensures Feed(cfg, c, [136, 0]) == Out(GONE, [Hangup])
    ensures Feed(cfg, c, [136, size, high, low]) == Out(GONE, [Hangup])
  {
    FeedHead(cfg, c, [136, 0]);
    assert [] + [136, 0] == [136, 0];
    FeedHeader(cfg, c, [136, size, high, low]);
  }

  // ----- connections that end

  lemma HeaderCut(cfg: Config, c: Conn, h: seq<byte>, k: nat)
    requires c.phase == IDLE && |h| >= 2 && HeadSize(h[0], h[1]) == |h| <= MAX_HEAD && Headed(h[0], h[1])
    requires k < |h|
    ensures Sound(c) && Feed(cfg, c, h[..k]).events == [] && AtEnd(Feed(cfg, c, h[..k]).conn) == [Hangup]
  {
    if k == 0 {
      assert h[..k] == [];
    } else if k < 2 {
      FeedHead(cfg, c, h[..k]);
    } else {
      var two := h[..2];
      FeedHead(cfg, c, two);
      assert [] + two == two;
      var d := c.(phase := Head(two, |h|));
      assert h[..k] == two + h[2..k];
      FeedConcat(cfg, c, two, h[2..k]);
      if k > 2 {
        FeedHead(cfg, d, h[2..k]);
      }
    }
  }

  /** The header of a data frame that the user takes, and some of its payload. */
  lemma PayloadCut(cfg: Config, c: Conn, f: Frame, k: nat)
    requires c.phase == IDLE && Sendable(f) && k < |f.payload|
    requires c.asm == Waiting && ((f.op as int == 1 && cfg.text) || (f.op as int == 2 && cfg.binary))
    ensures var r := Feed(cfg, c, HeaderOf(f) + Unmask(f.payload, Key(f))[..k]);
            Sound(c) && r.events == [] && AtEnd(r.conn) == [Error(1006), Hangup, Dangling]
  {
    HeaderRead(cfg, c, f);
    var some := Unmask(f.payload, Key(f))[..k];
    FeedConcat(cfg, c, HeaderOf(f), some);
    var d := Feed(cfg, c, HeaderOf(f)).conn;
    if k == 0 {
      assert some == [];
    } else {
      FeedPayload(cfg, d, some);
    }
  }

  /** When the peer closes the stream between the bytes of a data frame that the user takes:
      inside the header it is a hang-up, inside the payload the error 1006. */
  lemma StreamCut(cfg: Config, c: Conn, f: Frame, k: nat)
    requires c.phase == IDLE && Sendable(f) && k < |OnWire(f)|
    requires c.asm == Waiting && ((f.op as int == 1 && cfg.text) || (f.op as int == 2 && cfg.binary))
    ensures var r := Feed(cfg, c, OnWire(f)[..k]);
            && Sound(c) && r.events == []
            && AtEnd(r.conn) == if k < |OnWire(f)| - |f.payload| then [Hangup] else [Error(1006), Hangup, Dangling]
  {
    var h, body := HeaderOf(f), Unmask(f.payload, Key(f));
    HeaderFits(f);
    if k < |h| {
      HeaderCut(cfg, c, h, k);
      assert OnWire(f)[..k] == h[..k];
    } else {
      PayloadCut(cfg, c, f, k - |h|);
      assert OnWire(f)[..k] == h + body[..k - |h|];
    }
  }
}
