/** Which connections end with the dispatcher using a freed websock. */
module WireFaults {
  import opened Bytes
  import opened Frames
  import opened Wire
  import opened WireBlocks
  import opened WireTrace
  import opened WireMessages
  import opened WireReassembly

  /** A data frame that its callback refuses: a continuation of nothing, a new message
      inside another one, or a kind that the user does not take. */
  predicate Refused(cfg: Config, asm: Asm, op: byte) {
    || (op == CONTINUATION && asm == Waiting)
    || (op == TEXT && (asm != Waiting || !cfg.text))
    || (op == BINARY && (asm != Waiting || !cfg.binary))
  }

  /** The byte `b` completes a header that dispatch itself has nothing against. */
  predicate Completes(c: Conn, b: byte)
    requires Sound(c)
  {
    && c.phase.Head?
    && var g := c.phase.h + [b];
       && |g| == c.phase.sz
       && (|g| == 2 ==> Headed(g[0], g[1]) && HeadSize(g[0], g[1]) == 2)
       && FrameLength(g) <= MAX_LENGTH && Rsv(g[0]) == 0
  }

  predicate Misplaced(cfg: Config, c: Conn, i: Input)
    requires Sound(c)
  {
    i.Got? && Completes(c, i.b) && Refused(cfg, c.asm, Opcode((c.phase.h + [i.b])[0]))
  }

  lemma EndDangling(c: Conn, fin: bool)
    ensures Dangling !in EndFrame(c, fin).events
  {
  }

  lemma BeginDangling(cfg: Config, c: Conn, fin: bool, op: byte, len: nat, mask: seq<byte>)
    ensures Dangling in BeginFrame(cfg, c, fin, op, len, mask).events <==> Refused(cfg, c.asm, op)
  {
    EndDangling(c, fin);
    EndDangling(c.(asm := ReadingText), fin);
    EndDangling(c.(asm := ReadingBinary), fin);
    assert Refuse(PROTOCOL_ERROR).events[2] == Dangling && Refuse(CANT_ACCEPT).events[2] == Dangling;
  }

  lemma TakeDangling(cfg: Config, c: Conn, i: Input)
    requires Sound(c)
    ensures Dangling in Take(cfg, c, i).events <==> Misplaced(cfg, c, i)
  {
    if i.Got? && c.phase.Head? {
      var g := c.phase.h + [i.b];
      if |g| == c.phase.sz && (|g| == 2 ==> HeadSize(g[0], g[1]) == 2) {
        BeginDangling(cfg, c, Fin(g[0]), Opcode(g[0]), FrameLength(g), MaskOf(g));
      }
    } else if i.Got? && c.phase.Payload? {
      EndDangling(c.(buf := Buf(c.buf.data + [Xor(i.b, c.phase.mask[0])])), c.phase.fin);
    }
  }

  /** Some input, met after those before it, is a refused data frame. */
  ghost predicate Meets(cfg: Config, c: Conn, tr: seq<Input>)
    requires Sound(c)
  {
    exists k :: 0 <= k < |tr| && MeetsAt(cfg, c, tr, k)
  }

  ghost predicate MeetsAt(cfg: Config, c: Conn, tr: seq<Input>, k: nat)
    requires Sound(c) && k < |tr|
  {
    Misplaced(cfg, Play(cfg, c, tr[..k]).conn, tr[k])
  }

  lemma MeetsFirst(cfg: Config, c: Conn, tr: seq<Input>, d: Conn)
    requires Sound(c) && tr != [] && Sound(d) && d == Take(cfg, c, tr[0]).conn
    ensures Meets(cfg, c, tr) <==> Misplaced(cfg, c, tr[0]) || Meets(cfg, d, tr[1..])
  {
    assert tr[..0] == [];
    forall k | 0 < k < |tr|
      ensures MeetsAt(cfg, c, tr, k) <==> MeetsAt(cfg, d, tr[1..], k - 1)
    {
      assert tr[..k][1..] == tr[1..][..k - 1];
    }
    assert MeetsAt(cfg, c, tr, 0) <==> Misplaced(cfg, c, tr[0]);
    if Meets(cfg, d, tr[1..]) {
      var k :| 0 <= k < |tr[1..]| && MeetsAt(cfg, d, tr[1..], k);
      assert MeetsAt(cfg, c, tr, k + 1);
    }
  }

  lemma {:induction false} PlayDangling(cfg: Config, c: Conn, tr: seq<Input>)
    requires Sound(c)
    ensures Dangling in Play(cfg, c, tr).events <==> Meets(cfg, c, tr)
    decreases |tr|
  {
    if tr != [] {
      TakeSound(cfg, c, tr[0]);
      var d := Take(cfg, c, tr[0]).conn;
      TakeDangling(cfg, c, tr[0]);
      MeetsFirst(cfg, c, tr, d);
      PlayDangling(cfg, d, tr[1..]);
    }
  }

  /** The freed websock is used exactly when a refused data frame is met, or when the
      peer closes inside the payload of a data frame. */
  lemma DanglingExactly(cfg: Config, tr: seq<Input>)
    ensures Dangling in Behaviour(cfg, tr) <==>
              Meets(cfg, Init(), tr) || Play(cfg, Init(), tr).conn.phase.Payload?
  {
    PlayDangling(cfg, Init(), tr);
    assert Refuse(ABNORMAL).events[2] == Dangling;
  }

  // ----- on whole frames

  /** The connection after the frames `fs`. */
  function AfterFrames(cfg: Config, c: Conn, fs: seq<Frame>): Conn
    decreases |fs|
  {
    if fs == [] || c == GONE then c else AfterFrames(cfg, TakeFrame(cfg, c, fs[0]).conn, fs[1..])
  }

  /** Frame `k` comes to a living connection that refuses it. */
  predicate RefusesAt(cfg: Config, c: Conn, fs: seq<Frame>, k: nat)
    requires k < |fs|
  {
    var d := AfterFrames(cfg, c, fs[..k]);
    d != GONE && Refused(cfg, d.asm, fs[k].op)
  }

  lemma FrameDangling(cfg: Config, c: Conn, f: Frame)
    ensures Dangling in TakeFrame(cfg, c, f).events <==> Refused(cfg, c.asm, f.op)
  {
    assert Refuse(PROTOCOL_ERROR).events[2] == Dangling && Refuse(CANT_ACCEPT).events[2] == Dangling;
    EndDangling(c.(buf := Collect(c.buf, f.payload)), f.fin);
    EndDangling(c.(asm := ReadingText, buf := Collect(c.buf, f.payload)), f.fin);
    EndDangling(c.(asm := ReadingBinary, buf := Collect(c.buf, f.payload)), f.fin);
  }

  ghost predicate SomeRefused(cfg: Config, c: Conn, fs: seq<Frame>) {
    exists k :: 0 <= k < |fs| && RefusesAt(cfg, c, fs, k)
  }

  lemma RefusedFirst(cfg: Config, c: Conn, fs: seq<Frame>, d: Conn)
    requires fs != [] && c != GONE && d == TakeFrame(cfg, c, fs[0]).conn
    ensures SomeRefused(cfg, c, fs) <==> Refused(cfg, c.asm, fs[0].op) || SomeRefused(cfg, d, fs[1..])
  {
    assert fs[..0] == [] && AfterFrames(cfg, c, []) == c;
    assert RefusesAt(cfg, c, fs, 0) <==> Refused(cfg, c.asm, fs[0].op);
    forall k | 0 < k < |fs|
      ensures RefusesAt(cfg, c, fs, k) <==> RefusesAt(cfg, d, fs[1..], k - 1)
    {
      assert fs[..k][1..] == fs[1..][..k - 1];
    }
    if SomeRefused(cfg, d, fs[1..]) {
      var k :| 0 <= k < |fs[1..]| && RefusesAt(cfg, d, fs[1..], k);
      assert RefusesAt(cfg, c, fs, k + 1);
    }
  }

  lemma {:induction false} NoneAfterDeath(cfg: Config, fs: seq<Frame>)
    ensures !SomeRefused(cfg, GONE, fs)
  {
  }

  lemma TakenPhase(cfg: Config, c: Conn, f: Frame)
    requires c.phase == IDLE
    ensures TakeFrame(cfg, c, f).conn == GONE || TakeFrame(cfg, c, f).conn.phase == IDLE
  {
  }

  lemma {:induction false} FramesDangling(cfg: Config, c: Conn, fs: seq<Frame>)
    requires (c == GONE || c.phase == IDLE) && forall f :: f in fs ==> Sendable(f)
    ensures Sound(c) && (Dangling in Ending(cfg, c, Stream(fs)) <==> SomeRefused(cfg, c, fs))
    decreases |fs|
  {
    if c == GONE {
      FeedDead(cfg, Stream(fs));
      NoneAfterDeath(cfg, fs);
    } else if fs != [] {
      var r := TakeFrame(cfg, c, fs[0]);
      FirstFrame(cfg, c, fs);
      FrameDangling(cfg, c, fs[0]);
      RefusedFirst(cfg, c, fs, r.conn);
      TakenPhase(cfg, c, fs[0]);
      FramesDangling(cfg, r.conn, fs[1..]);
      EventsAssoc(r.events, Feed(cfg, r.conn, Stream(fs[1..])).events, AtEnd(Feed(cfg, r.conn, Stream(fs[1..])).conn));
    }
  }

  /** A stream of whole frames, its would-blocks outside control payloads, ends so if and
      only if some frame is refused when it comes. */
  lemma RefusedFrames(cfg: Config, fs: seq<Frame>, tr: seq<Input>)
    requires (forall f :: f in fs ==> Sendable(f)) && BytesOf(tr) == Stream(fs) && Spared(cfg, Init(), tr)
    ensures Dangling in Behaviour(cfg, tr) <==> exists k :: 0 <= k < |fs| && RefusesAt(cfg, Init(), fs, k)
  {
    SparedPlay(cfg, Init(), tr);
    FramesDangling(cfg, Init(), fs);
  }
}
