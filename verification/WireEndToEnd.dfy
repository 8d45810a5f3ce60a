/** From the sender of src/websock.c to its reader. */
module WireEndToEnd {
  import opened Bytes
  import opened Frames
  import opened FrameSender
  import opened Wire
  import opened WireTrace
  import opened WireBlocks
  import opened WireMessages
  import opened WireReassembly
  import opened WireDispatch

  /** A frame that is not masked is its header, then its payload. */
  lemma SentIsOnWire(f: Frame)
    requires Sendable(f) && f.key == []
    ensures OnWire(f) == Header(FirstByte(f.fin, f.op), |f.payload|, []) + f.payload
  {
    UnmaskNone(f.payload);
  }

  /** What the sender emits has at the reader the effect of its frame. */
  lemma SentIsTaken(cfg: Config, c: Conn, fin: bool, op: byte, payload: seq<byte>)
    requires c.phase == IDLE && Sendable(Frame(fin, op, payload, []))
    ensures Sound(c)
    ensures Feed(cfg, c, Header(FirstByte(fin, op), |payload|, []) + payload) ==
            TakeFrame(cfg, c, Frame(fin, op, payload, []))
  {
    SentIsOnWire(Frame(fin, op, payload, []));
    FeedFrame(cfg, c, Frame(fin, op, payload, []));
  }

  /** A message sent in any pieces and read in any cuts arrives whole, whatever blocks on
      the way. */
  method SendAndServe(cfg: Config, text: bool, pieces: seq<seq<byte>>, blocks: seq<nat>, cuts: seq<nat>)
    returns (ok: bool, log: seq<Event>)
    requires 0 < |Total(pieces)| <= MAX_LENGTH && (if text then cfg.text else cfg.binary)
    ensures ok == (|pieces| + 1 <= 32)
    ensures ok ==> log == [Delivery(text, Total(pieces)), Hangup]
  {
    var sent;
    ok, sent := SendV(FirstByte(true, Kind(text)), pieces);
    log := [];
    if ok {
      var trace := Blocking(sent, blocks);
      log := Serve(cfg, trace, cuts);
      ghost var f := Frame(true, Kind(text), Total(pieces), []);
      SentIsOnWire(f);
      SmoothSpared(cfg, [f], trace) by {
        assert [f][1..] == [] && OnWire(f) + [] == OnWire(f);
      }
      SparedPlay(cfg, Init(), trace);
      SentIsTaken(cfg, Init(), true, Kind(text), Total(pieces));
      assert [] + Total(pieces) == Total(pieces);
    }
  }

  /** The bytes, with a would-block before each of the given places. */
  function Blocking(s: seq<byte>, blocks: seq<nat>): (tr: seq<Input>)
    ensures BytesOf(tr) == s
  {
    BytesOfAll(s);
    if blocks == [] || blocks[0] > |s| then All(s)
    else
      var k := blocks[0];
      var rest := Blocking(s[k..], blocks[1..]);
      BlockBetween(s, s[..k], s[k..], rest);
      All(s[..k]) + ([Block] + rest)
  }

  lemma BlockBetween(s: seq<byte>, a: seq<byte>, b: seq<byte>, rest: seq<Input>)
    requires s == a + b && BytesOf(rest) == b
    ensures BytesOf(All(a) + ([Block] + rest)) == s
  {
    BytesOfConcat(All(a), [Block] + rest);
    BytesOfAll(a);
    assert ([Block] + rest)[1..] == rest;
  }
}
