/** The reading side of src/websock.c and src/afb-ws.c in place, over a transport
    that cuts the stream and makes reads block as it likes. */
module WireDispatch {
  import opened Bytes
  import opened Frames
  import opened Wire
  import opened WireBlocks
  import opened WireTrace
  import opened WireMessages
  import opened WireReassembly

  datatype State = INIT | START | LENGTH | DATA

  /** What one read of the transport gives. */
  datatype Received = Again | Closed | Data(bytes: seq<byte>)

  function Met(r: Received): seq<Input> {
    match r
    case Again => [Block]
    case Closed => []
    case Data(bytes) => All(bytes)
  }

  class Connection {
    const cfg: Config
    const trace: seq<Input>            // all that the reads meet before the peer closes

    // struct websock
    var state: State
    var lenhead: nat
    var szhead: nat
    const header: array<byte>
    var length: nat
    var mask: seq<byte>

    // struct afb_ws
    var alive: bool                    // ws->ws != NULL
    var asm: Asm
    var buffer: Buf

    // the transport: what is still to come, and the most that each read gives; once
    // `cuts` is over, a read gives all that is there
    var pending: seq<Input>
    var cuts: seq<nat>
    var eof: bool

    var log: seq<Event>

    ghost predicate Valid()
      reads this
    {
      && header.Length == MAX_HEAD
      && |mask| == 4
      && lenhead <= szhead <= MAX_HEAD
      && |pending| <= |trace| && pending == trace[|trace| - |pending|..]
      && (eof ==> pending == [])
    }

    /** What was met so far. */
    ghost function Fed(): seq<Input>
      requires Valid()
      reads this
    {
      trace[..|trace| - |pending|]
    }

    /** Between two calls of websock_dispatch. */
    ghost predicate AtRest()
      reads this, header
    {
      && Valid()
      && (alive ==> state != DATA)
      && (alive && state == START ==> szhead == 2 && lenhead < 2)
      && (alive && state == LENGTH ==>
            2 <= lenhead < szhead == HeadSize(header[0], header[1]) && Headed(header[0], header[1]))
      && (!alive ==> asm == Waiting && buffer == Null)
    }

    ghost function View(): (c: Conn)
      requires AtRest()
      reads this, header
      ensures Sound(c)
    {
      Conn(if !alive then Dead
           else if state == INIT then IDLE
           else Head(header[..lenhead], szhead),
           asm, buffer)
    }

    /** The machine, on what was met, is where `x` says and made the events
        of the log and of `x`. */
    ghost predicate Reaches(x: Out)
      requires Valid()
      reads this
    {
      Play(cfg, Init(), Fed()) == Out(x.conn, log + x.events)
    }

    ghost predicate Synced()
      requires AtRest()
      reads this, header
    {
      if !alive then log == Behaviour(cfg, Fed()) && (pending == [] || Play(cfg, Init(), Fed()).conn == GONE)
      else if eof then log + [Hangup] == Behaviour(cfg, Fed())
      else Reaches(Out(View(), []))
    }

    constructor (cfg: Config, trace: seq<Input>, cuts: seq<nat>)
      ensures AtRest() && alive && !eof && Synced()
      ensures this.cfg == cfg && this.trace == trace && pending == trace
      ensures fresh(header)
    {
      this.cfg, this.trace, this.cuts := cfg, trace, cuts;
      header := new byte[MAX_HEAD];
      state, lenhead, szhead, length, mask := INIT, 0, 0, 0, NO_MASK;
      alive, asm, buffer := true, Waiting, Null;
      pending, eof, log := trace, false, [];
      new;
      assert trace[..0] == [] && trace[0..] == trace;
    }

    /** One read of at most `n` bytes. */
    method Recv(n: nat) returns (r: Received)
      requires Valid() && n > 0
      modifies `pending, `cuts, `eof
      ensures Valid() && Fed() == old(Fed()) + Met(r) && |pending| == old(|pending|) - |Met(r)|
      ensures r.Data? ==> 0 < |r.bytes| <= n
      ensures !r.Closed? ==> eof == old(eof)
      ensures r.Closed? <==> eof
      ensures old(eof) ==> eof
    {
      if eof || pending == [] {
        eof := true;
        r := Closed;
      } else if pending[0] == Block {
        Moved(1);
        pending := pending[1..];
        r := Again;
      } else {
        var most := n;
        if cuts != [] {
          most := if cuts[0] == 0 then 1 else if cuts[0] < n then cuts[0] else n;
          cuts := cuts[1..];
        }
        var bytes := Arrived(pending, most);
        Moved(|bytes|);
        pending := pending[|bytes|..];
        r := Data(bytes);
      }
    }

    lemma Moved(k: nat)
      requires Valid() && k <= |pending|
      ensures trace[|trace| - |pending| + k..] == pending[k..]
      ensures trace[..|trace| - |pending| + k] == Fed() + pending[..k]
    {
    }

    /** read_header */
    method ReadHeader() returns (r: Received)
      requires Valid() && lenhead < szhead
      modifies `pending, `cuts, `eof, `lenhead, header
      ensures Valid() && (r.Closed? <==> eof)
      ensures Fed() == old(Fed()) + Met(r) && |pending| == old(|pending|) - |Met(r)|
      ensures !r.Data? ==> lenhead == old(lenhead) && header[..lenhead] == old(header[..lenhead])
      ensures r.Data? ==> r.bytes != [] && header[..lenhead] == old(header[..lenhead]) + r.bytes
      ensures old(lenhead) <= lenhead && header[..old(lenhead)] == old(header[..lenhead])
      ensures old(lenhead) >= 2 ==> header[0] == old(header[0]) && header[1] == old(header[1])
      ensures old(eof) ==> r.Closed?
    {
      ghost var g := header[..lenhead];
      r := Recv(szhead - lenhead);
      if r.Data? {
        var k := 0;
        while k < |r.bytes|
          modifies header
          invariant 0 <= k <= |r.bytes|
          invariant header[..lenhead + k] == old(header[..lenhead]) + r.bytes[..k]
        {
          header[lenhead + k] := r.bytes[k];
          k := k + 1;
        }
        lenhead := lenhead + |r.bytes|;
        assert header[..old(lenhead)] == header[..lenhead][..old(lenhead)] == g;
      }
      assert old(lenhead) >= 2 ==> header[0] == header[..old(lenhead)][0] == g[0];
      assert old(lenhead) >= 2 ==> header[1] == header[..old(lenhead)][1] == g[1];
    }

    /** websock_read: part of a payload, unmasked in the caller's buffer.  The
        bytes as they came are `raw`. */
    method WebsockRead(size: nat) returns (r: Received, ghost raw: seq<byte>)
      requires Valid() && size > 0 && length > 0
      modifies `pending, `cuts, `eof, `length, `mask
      ensures Valid() && (r.Closed? <==> eof) && (!r.Closed? ==> eof == old(eof)) && (old(eof) ==> eof)
      ensures Fed() == old(Fed()) + (if r.Again? then [Block] else All(raw))
      ensures |pending| == old(|pending|) - (if r.Again? then 1 else |raw|)
      ensures length == old(length) - |raw| && mask == RotateBy(old(mask), |raw|)
      ensures r.Data? ==> 0 < |raw| <= size && r.bytes == Unmask(raw, old(mask))
      ensures !r.Data? ==> raw == []
    {
      raw := [];
      RotateWord(mask, 0);
      r := Recv(if size < length then size else length);
      if r.Data? {
        raw := r.bytes;
        length := length - |r.bytes|;
        var bytes := Unmasked(r.bytes);
        r := Data(bytes);
      }
    }

    /** What was read, unmasked in place; a zero mask is passed over. */
    method Unmasked(raw: seq<byte>) returns (bytes: seq<byte>)
      requires |mask| == 4
      modifies `mask
      ensures |mask| == 4 && mask == RotateBy(old(mask), |raw|) && bytes == Unmask(raw, old(mask))
    {
      bytes := raw;
      if mask != NO_MASK {
        var a := new byte[|raw|](i requires 0 <= i < |raw| => raw[i]);
        assert a[..] == raw;
        var address: nat :| true;
        mask := UnmaskInPlace(a, address, mask);
        bytes := a[..];
      } else {
        UnmaskNone(raw);
      }
    }

    /** websock_drop: the rest of a payload is read and forgotten, up to a would-block. */
    method Drop() returns (ghost raw: seq<byte>, ghost blocked: bool)
      requires Valid()
      modifies `pending, `cuts, `eof, `length, `mask
      ensures Valid() && |pending| <= old(|pending|) && (old(eof) ==> eof)
      ensures Fed() == old(Fed()) + (All(raw) + if blocked then [Block] else [])
      ensures |raw| <= old(length) && (blocked ==> |raw| < old(length) && eof == old(eof))
      ensures !blocked ==> eof == (old(eof) || |raw| < old(length))
    {
      raw, blocked := [], false;
      while length != 0
        invariant Valid() && |pending| <= old(|pending|) && eof == old(eof) && !blocked
        invariant Fed() == old(Fed()) + All(raw) && length == old(length) - |raw|
        decreases |pending|
      {
        ghost var more;
        var r;
        r, more := WebsockRead(8000);
        AllConcat(raw, more);
        raw := raw + more;
        if !r.Data? {
          blocked := r.Again?;
          assert raw == raw + [];
          return;
        }
      }
      assert All(raw) + [] == All(raw);
    }

    /** One turn of aws_read: false at the end of the stream. */
    method ReadMore() returns (ok: bool, again: bool, ghost more: seq<byte>)
      requires Valid() && length > 0 && buffer.Buf?
      modifies `pending, `cuts, `eof, `length, `mask, `buffer
      ensures Valid()
      ensures if ok then eof == old(eof) && |pending| < old(|pending|) else eof && |pending| == old(|pending|)
      ensures Fed() == old(Fed()) + (if again then [Block] else All(more))
      ensures length == old(length) - |more| && mask == RotateBy(old(mask), |more|)
      ensures buffer == Buf(old(buffer).data + Unmask(more, old(mask)))
      ensures !ok || again ==> more == []
      ensures !ok ==> !again
    {
      var r;
      r, more := WebsockRead(length);
      ok, again := !r.Closed?, r.Again?;
      if r.Data? {
        buffer := Buf(buffer.data + r.bytes);
      } else {
        assert Unmask(more, old(mask)) == [] && buffer.data + [] == buffer.data;
      }
    }

    /** The loop of aws_read: reads until the payload is complete, waiting when it
        would block. */
    method ReadPayload() returns (ok: bool, ghost raw: seq<byte>, ghost tr: seq<Input>)
      requires Valid() && buffer.Buf?
      modifies `pending, `cuts, `eof, `length, `mask, `buffer
      ensures Valid() && |pending| <= old(|pending|) && Fed() == old(Fed()) + tr && BytesOf(tr) == raw
      ensures length == old(length) - |raw| && (if ok then length == 0 && eof == old(eof) else length != 0 && eof)
      ensures buffer == Buf(old(buffer).data + Unmask(raw, old(mask)))
    {
      raw, tr := [], [];
      RotateWord(mask, 0);
      assert buffer.data + Unmask([], mask) == buffer.data;
      while length != 0
        invariant Valid() && |pending| <= old(|pending|) && eof == old(eof)
        invariant Fed() == old(Fed()) + tr && BytesOf(tr) == raw && length == old(length) - |raw|
        invariant buffer == Buf(old(buffer).data + Unmask(raw, old(mask))) && mask == RotateBy(old(mask), |raw|)
        decreases |pending|
      {
        ghost var more;
        var again;
        ok, again, more := ReadMore();
        if !ok {
          return false, raw, tr;
        }
        assert buffer.data == old(buffer).data + Unmask(raw, old(mask)) + Unmask(more, RotateBy(old(mask), |raw|));
        FillStep(old(buffer).data, raw, more, old(mask));
        tr := MoreMet(tr, raw, more, again);
        assert |raw + more| == |raw| + |more|;
        raw := raw + more;
      }
      ok := true;
    }

    /** aws_read */
    method AwsRead(size: nat) returns (ok: bool, ghost raw: seq<byte>, ghost tr: seq<Input>)
      requires Valid() && length == size
      modifies `pending, `cuts, `eof, `length, `mask, `buffer
      ensures Valid() && |pending| <= old(|pending|) && (old(eof) ==> eof)
      ensures Fed() == old(Fed()) + tr && BytesOf(tr) == raw && (size == 0 ==> tr == [])
      ensures ok ==> eof == old(eof)
      ensures ok ==> |raw| == size && length == 0 && buffer == Collect(old(buffer), Unmask(raw, old(mask)))
      ensures !ok ==> |raw| < size && eof
    {
      if size == 0 {
        return true, [], [];
      }
      if buffer.Null? {
        buffer := Buf([]);
      }
      ok, raw, tr := ReadPayload();
    }

    /** The connection is hung up, after the events `es`. */
    method Die(es: seq<Event>)
      modifies `log, `alive, `asm, `buffer
      ensures log == old(log) + es && !alive && asm == Waiting && buffer == Null
    {
      log := log + es;
      alive := false;
      asm, buffer := Waiting, Null;
    }

    // ----- frames

    /** In step with the machine after a frame was processed. */
    ghost predicate Settled()
      requires Valid()
      reads this
    {
      if !alive then log == Behaviour(cfg, Fed()) && (pending == [] || Play(cfg, Init(), Fed()).conn == GONE)
      else if eof then log + [Hangup] == Behaviour(cfg, Fed())
      else Reaches(Out(Conn(IDLE, asm, buffer), []))
    }

    /** A dead connection, after the events of `x`. */
    lemma DeadSettled(log0: seq<Event>, es: seq<Event>)
      requires Valid() && !alive && log == log0 + es && Play(cfg, Init(), Fed()) == Out(GONE, log0 + es)
      ensures Settled()
    {
      assert log + [] == log;
    }

    /** aws_drop_error, from a callback of websock_dispatch. */
    method DropError(code: nat)
      requires Valid() && Reaches(Refuse(code))
      modifies `pending, `cuts, `eof, `length, `mask, `log, `alive, `asm, `buffer
      ensures Valid() && |pending| <= old(|pending|)
      ensures !alive && asm == Waiting && buffer == Null && Settled()
    {
      ghost var raw, blocked := Drop();
      ghost var tr := All(raw) + if blocked then [Block] else [];
      PlayReach(cfg, old(Fed()), tr, log, Refuse(code));
      PlayDead(cfg, tr);
      PlayNothing(cfg, Refuse(code));
      ghost var log0 := log;
      Die(Refuse(code).events);
      DeadSettled(log0, Refuse(code).events);
    }

    /** An error found by websock_dispatch itself: nothing is dropped, and it returns. */
    method DispatchError(code: nat)
      requires Valid() && Reaches(Abort(code))
      modifies `log, `alive, `asm, `buffer
      ensures Valid() && !alive && asm == Waiting && buffer == Null && Settled()
    {
      ghost var log0 := log;
      Die(Abort(code).events);
      DeadSettled(log0, Abort(code).events);
    }

    /** The end of a data frame in aws_continue. */
    method EndOfFrame(fin: bool)
      requires Valid() && alive && asm != Waiting && !eof
      requires Reaches(EndFrame(Conn(IDLE, asm, buffer), fin))
      modifies `log, `alive, `asm, `buffer
      ensures Valid() && (!alive ==> asm == Waiting && buffer == Null) && Settled()
    {
      if fin {
        if buffer.Null? {
          ghost var log0 := log;
          Die([Crash]);
          DeadSettled(log0, [Crash]);
        } else {
          log := log + [if asm == ReadingText then OnText(buffer.data) else OnBinary(buffer.data)];
          assert log + [] == log;
          asm, buffer := Waiting, Null;
        }
      }
    }

    /** aws_continue */
    method AwsContinue(fin: bool, size: nat)
      requires Valid() && alive && asm != Waiting && length == size && !eof
      requires Reaches(BeginData(Conn(IDLE, asm, buffer), fin, size, mask))
      modifies `pending, `cuts, `eof, `length, `mask, `log, `alive, `asm, `buffer
      ensures Valid() && |pending| <= old(|pending|) && (alive ==> !eof)
      ensures (!alive ==> asm == Waiting && buffer == Null) && Settled()
    {
      ghost var c, m := Conn(IDLE, asm, buffer), mask;
      ghost var x := BeginData(c, fin, size, m);
      ghost var raw, tr;
      var ok;
      ok, raw, tr := AwsRead(size);
      PlayReach(cfg, old(Fed()), tr, log, x);
      PlayThenPayload(cfg, x, tr);
      if ok {
        FeedData(cfg, c, fin, m, raw);
        assert c.(buf := buffer) == Conn(IDLE, asm, buffer);
        EndOfFrame(fin);
      } else {
        FeedDataPart(cfg, c, fin, m, size, raw);
        assert log + [] == log;
        Die(Refuse(ABNORMAL).events);
      }
    }

    /** A ping or a pong: its payload is dropped, then reading goes on as if all of
        it had been there, even when a would-block cut it. */
    method OnControl(ping: bool)
      requires Valid() && alive && !eof
      requires Reaches(BeginControl(Conn(IDLE, asm, buffer), ping, length))
      modifies `pending, `cuts, `eof, `length, `mask, `log
      ensures Valid() && |pending| <= old(|pending|) && Settled()
    {
      ghost var c, len, log0 := Conn(IDLE, asm, buffer), length, log;
      ghost var raw, blocked := Drop();
      PlayControl(cfg, c, ping, len, raw, blocked);
      PlayReach(cfg, old(Fed()), All(raw) + (if blocked then [Block] else []), log0, BeginControl(c, ping, len));
      if ping {
        log := log + [SentPong];
      }
      ControlSettled(c, ping, log0, if blocked then 0 else len - |raw|);
    }

    lemma ControlSettled(c: Conn, ping: bool, log0: seq<Event>, left: nat)
      requires Valid() && alive && c == Conn(IDLE, asm, buffer) && (eof <==> left != 0)
      requires log == log0 + (if ping then [SentPong] else [])
      requires Play(cfg, Init(), Fed()) == Out(BeginControl(c, ping, left).conn,
               log0 + BeginControl(c, ping, left).events)
      ensures Settled()
    {
      assert log0 + [] == log0 && log + [] == log;
      EventsAssoc(log0, if ping then [SentPong] else [], [Hangup]);
    }

    /** The switch on the opcode, with aws_on_text, aws_on_binary and aws_on_continue. */
    method OnFrame(fin: bool, op: byte)
      requires Valid() && alive && !eof
      requires Reaches(BeginFrame(cfg, Conn(IDLE, asm, buffer), fin, op, length, mask))
      modifies `pending, `cuts, `eof, `length, `mask, `log, `alive, `asm, `buffer
      ensures Valid() && |pending| <= old(|pending|)
      ensures (!alive ==> asm == Waiting && buffer == Null) && Settled()
    {
      if op == CONTINUATION {
        if asm == Waiting {
          DropError(PROTOCOL_ERROR);
        } else {
          AwsContinue(fin, length);
        }
      } else if op == TEXT || op == BINARY {
        if asm != Waiting {
          DropError(PROTOCOL_ERROR);
        } else if !(if op == TEXT then cfg.text else cfg.binary) {
          DropError(CANT_ACCEPT);
        } else {
          asm := if op == TEXT then ReadingText else ReadingBinary;
          AwsContinue(fin, length);
        }
      } else if op == CLOSE {
        OnClose();
      } else if op == PING || op == PONG {
        OnControl(op == PING);
      } else {
        DispatchError(PROTOCOL_ERROR);
      }
    }

    /** aws_on_close, for a user without on_close. */
    method OnClose()
      requires Valid() && Reaches(Out(GONE, [Hangup]))
      modifies `pending, `cuts, `eof, `length, `mask, `log, `alive, `asm, `buffer
      ensures Valid() && |pending| <= old(|pending|)
      ensures !alive && asm == Waiting && buffer == Null && Settled()
    {
      ghost var raw, blocked := Drop();
      ghost var tr := All(raw) + if blocked then [Block] else [];
      PlayReach(cfg, old(Fed()), tr, log, Out(GONE, [Hangup]));
      PlayDead(cfg, tr);
      PlayNothing(cfg, Out(GONE, [Hangup]));
      ghost var log0 := log;
      Die([Hangup]);
      DeadSettled(log0, [Hangup]);
    }

    /** The header is complete: its fields are known. */
    method FinishHeader()
      requires Valid() && alive && !eof && 2 <= lenhead == szhead == HeadSize(header[0], header[1])
      requires Reaches(Complete(cfg, Conn(IDLE, asm, buffer), header[..szhead]))
      modifies `pending, `cuts, `eof, `length, `mask, `log, `alive, `asm, `buffer, `state
      ensures AtRest() && |pending| <= old(|pending|) && (alive ==> state == INIT) && Settled()
    {
      var h := header[..szhead];
      TakeFields(h);
      OnHeader(h);
      state := INIT;
    }

    /** The checks on a complete header, and the frame it begins. */
    method OnHeader(h: seq<byte>)
      requires Valid() && alive && !eof && |h| >= 2 && |h| >= HeadSize(h[0], h[1])
      requires length == FrameLength(h) && mask == MaskOf(h)
      requires Reaches(Complete(cfg, Conn(IDLE, asm, buffer), h))
      modifies `pending, `cuts, `eof, `length, `mask, `log, `alive, `asm, `buffer
      ensures Valid() && |pending| <= old(|pending|)
      ensures (!alive ==> asm == Waiting && buffer == Null) && Settled()
    {
      ghost var c := Conn(IDLE, asm, buffer);
      if length > MAX_LENGTH {
        assert Complete(cfg, c, h) == Abort(TOO_LARGE);
        DispatchError(TOO_LARGE);
      } else if Rsv(h[0]) != 0 {
        assert Complete(cfg, c, h) == Abort(PROTOCOL_ERROR);
        DispatchError(PROTOCOL_ERROR);
      } else {
        assert Complete(cfg, c, h) == BeginFrame(cfg, c, Fin(h[0]), Opcode(h[0]), length, mask);
        OnFrame(Fin(h[0]), Opcode(h[0]));
      }
    }

    /** The length and the mask in the header. */
    method TakeFields(h: seq<byte>)
      requires |h| >= 2 && |h| >= HeadSize(h[0], h[1])
      modifies `length, `mask, `state
      ensures length == FrameLength(h) && mask == MaskOf(h)
    {
      state := DATA;
      length := LengthField(h);
      if Opcode(h[0]) == CLOSE && length >= 2 {
        length := length - 2;
      }
      mask := MaskOf(h);
    }

    /** More of the header; false when it must be waited for. */
    method HeaderSection() returns (done: bool, r: Received)
      requires AtRest() && alive && state != INIT && Synced()
      modifies `pending, `cuts, `eof, `lenhead, header
      ensures Valid() && (r.Closed? <==> eof) && |pending| <= old(|pending|) &&
              (!r.Closed? ==> |pending| < old(|pending|))
      ensures old(lenhead) >= 2 ==> header[0] == old(header[0]) && header[1] == old(header[1])
      ensures done ==> !eof && r.Data? && lenhead == szhead
      ensures done ==> Reaches(Finished(cfg, Conn(IDLE, asm, buffer), header[..szhead]))
      ensures !done ==> AtRest() && Synced()
    {
      ghost var c, fed, log0 := View(), Fed(), log;
      r := ReadHeader();
      done := lenhead == szhead;
      if old(eof) {
        assert Met(r) == [] && Fed() == fed;
      } else {
        HeadReached(cfg, fed, log0, c, r, Conn(IDLE, asm, buffer));
        HeadSynced(r, done);
      }
    }

    /** In step again when the header is not complete. */
    lemma HeadSynced(r: Received, done: bool)
      requires Valid() && alive && (r.Closed? <==> eof) && (state == START || state == LENGTH)
      requires state == START ==> szhead == 2
      requires state == LENGTH ==> 2 <= lenhead && szhead == HeadSize(header[0], header[1])
      requires state == LENGTH ==> Headed(header[0], header[1])
      requires done <==> lenhead == szhead
      requires !done ==> Reaches(Out(Conn(Head(header[..lenhead], szhead), asm, buffer), []))
      ensures !done ==> AtRest() && Synced()
    {
      assert log + [] == log;
    }

    /** STATE_INIT and STATE_START: the first two bytes and their early check. */
    method StartSection() returns (done: bool, r: Received)
      requires AtRest() && alive && state == START && Synced()
      modifies `pending, `cuts, `eof, `lenhead, header, `szhead, `state, `log, `alive, `asm, `buffer
      ensures Valid() && (r.Closed? <==> eof) && |pending| <= old(|pending|) &&
              (!r.Closed? ==> |pending| < old(|pending|))
      ensures done ==> alive && !eof && r.Data? && state == LENGTH
      ensures done ==> lenhead == 2 && szhead == HeadSize(header[0], header[1])
      ensures done ==> Headed(header[0], header[1])
      ensures done ==> Reaches(Started(cfg, Conn(IDLE, asm, buffer), header[..2]))
      ensures !done ==> AtRest() && Synced()
    {
      done, r := HeaderSection();
      if done {
        ghost var c, h := Conn(IDLE, asm, buffer), header[..2];
        assert Finished(cfg, c, h) == Started(cfg, c, h);
        if !Headed(header[0], header[1]) {
          assert Started(cfg, c, h) == Abort(PROTOCOL_ERROR);
          DispatchError(PROTOCOL_ERROR);
          done := false;
        } else {
          szhead := HeadSize(header[0], header[1]);
          state := LENGTH;
        }
      }
    }

    /** STATE_LENGTH: the rest of the header, if there is any. */
    method LengthSection() returns (done: bool, r: Received)
      requires AtRest() && alive && state == LENGTH && Synced()
      modifies `pending, `cuts, `eof, `lenhead, header
      ensures Valid() && (r.Closed? <==> eof) && |pending| <= old(|pending|) &&
              (!r.Closed? ==> |pending| < old(|pending|))
      ensures done ==> !eof && r.Data? && lenhead == szhead == HeadSize(header[0], header[1])
      ensures done ==> Reaches(Complete(cfg, Conn(IDLE, asm, buffer), header[..szhead]))
      ensures !done ==> AtRest() && Synced()
    {
      done, r := HeaderSection();
    }

    /** One turn of websock_dispatch: at most one frame. */
    method Turn() returns (go: bool, r: Received)
      requires AtRest() && alive && Synced()
      modifies this, header
      ensures AtRest() && Synced()
      ensures |pending| <= old(|pending|) && (!r.Closed? ==> |pending| < old(|pending|))
      ensures go ==> alive && r.Data?
      ensures r.Closed? && alive ==> eof
    {
      if state == INIT {
        lenhead, szhead, state := 0, 2, START;
        assert header[..0] == [];
      }
      go := true;
      if state == START {
        go, r := StartSection();
        if !go {
          return;
        }
      }
      if lenhead < szhead {
        go, r := LengthSection();
        if !go {
          return;
        }
      }
      FinishHeader();
      go := alive;
    }

    /** websock_dispatch, then the hang-up of aws_on_readable when the peer closed. */
    method OnReadable()
      requires AtRest() && alive && Synced()
      modifies this, header
      ensures AtRest() && Synced()
      ensures alive ==> |pending| < old(|pending|)
    {
      var go, r := true, Again;
      while go
        invariant AtRest() && Synced() && |pending| <= old(|pending|)
        invariant go ==> alive
        invariant !go ==> (!r.Closed? ==> |pending| < old(|pending|)) && (r.Closed? && alive ==> eof)
        decreases go, |pending|
      {
        go, r := Turn();
      }
      if r.Closed? && alive {
        Die([Hangup]);
      }
    }

    /** The event loop, until the connection is over. */
    method Run()
      requires AtRest() && Synced()
      modifies this, header
      ensures Valid() && log == Behaviour(cfg, trace)
    {
      while alive
        invariant AtRest() && Synced()
        decreases alive, |pending|
      {
        OnReadable();
      }
      AfterDeath(cfg, trace, |trace| - |pending|);
    }
  }

  lemma HeadReached(cfg: Config, fed: seq<Input>, log: seq<Event>, c: Conn, r: Received, d: Conn)
    requires Sound(c) && c.phase.Head? && (r.Data? ==> r.bytes != [] && |c.phase.h| + |r.bytes| <= c.phase.sz)
    requires Play(cfg, Init(), fed) == Out(c, log + []) && d == c.(phase := IDLE)
    ensures r.Data? ==>
              var g := c.phase.h + r.bytes;
              if |g| < c.phase.sz then Play(cfg, Init(), fed + Met(r)) ==
                  Out(c.(phase := Head(g, c.phase.sz)), log + [])
              else
                var x := Finished(cfg, d, g);
                Play(cfg, Init(), fed + Met(r)) == Out(x.conn, log + x.events)
    ensures !r.Data? ==> Play(cfg, Init(), fed + Met(r)) == Out(c, log + [])
  {
    PlayReach(cfg, fed, Met(r), log, Out(c, []));
    PlayQuiet(cfg, c, Met(r));
    HeadMet(cfg, c, r);
    if r.Data? && |c.phase.h + r.bytes| == c.phase.sz {
      FinishedAnyPhase(cfg, d, c, c.phase.h + r.bytes);
    }
  }

  /** Part of a header, or a would-block in it. */
  lemma HeadMet(cfg: Config, c: Conn, r: Received)
    requires Sound(c) && c.phase.Head? && (r.Data? ==> r.bytes != [] && |c.phase.h| + |r.bytes| <= c.phase.sz)
    ensures r.Data? ==>
              var g := c.phase.h + r.bytes;
              Play(cfg, c, Met(r)) == if |g| < c.phase.sz then Out(c.(phase := Head(g, c.phase.sz)), [])
                  else Finished(cfg, c, g)
    ensures !r.Data? ==> Play(cfg, c, Met(r)) == Out(c, [])
  {
    match r
    case Again => PlayBlock(cfg, c);
    case Closed =>
    case Data(bytes) =>
      PlayAll(cfg, c, bytes);
      FeedHead(cfg, c, bytes);
  }

  /** One more read of a payload: bytes, or a would-block. */
  function MoreMet(tr: seq<Input>, ghost raw: seq<byte>, more: seq<byte>, again: bool): (r: seq<Input>)
    requires BytesOf(tr) == raw && (again ==> more == [])
    ensures r == tr + (if again then [Block] else All(more)) && BytesOf(r) == raw + more
  {
    BytesOfConcat(tr, if again then [Block] else All(more));
    BytesOfAll(more);
    assert [Block][1..] == [];
    tr + if again then [Block] else All(more)
  }

  /** The bytes that a read gives, `most` at most. */
  method Arrived(pending: seq<Input>, most: nat) returns (bytes: seq<byte>)
    requires pending != [] && pending[0].Got? && most > 0
    ensures 0 < |bytes| <= most && |bytes| <= |pending| && pending[..|bytes|] == All(bytes)
  {
    bytes := [pending[0].b];
    while |bytes| < most && |bytes| < |pending| && pending[|bytes|].Got?
      invariant 0 < |bytes| <= most && |bytes| <= |pending| && pending[..|bytes|] == All(bytes)
    {
      bytes := bytes + [pending[|bytes|].b];
    }
  }

  /** A whole connection.  Whatever its reads meet, and however they are cut, its events
      are those of the machine. */
  method Serve(cfg: Config, trace: seq<Input>, cuts: seq<nat>) returns (log: seq<Event>)
    ensures log == Behaviour(cfg, trace)
  {
    var c := new Connection(cfg, trace, cuts);
    c.Run();
    log := c.log;
  }

  /** A stream that is cut in any way, and whose reads may block anywhere but inside the
      payload of a ping or a pong: only the bytes count. */
  method ServeBytes(cfg: Config, trace: seq<Input>, cuts: seq<nat>) returns (log: seq<Event>)
    requires Spared(cfg, Init(), trace)
    ensures log == Ending(cfg, Init(), BytesOf(trace))
  {
    log := Serve(cfg, trace, cuts);
    SparedPlay(cfg, Init(), trace);
  }

  /** End to end: the bytes of any legal sequence of fragmented messages, masked or
      not, with pings and pongs anywhere, cut in any way by the transport, give one
      callback per message with its whole payload, then the hang-up. */
  method ServeMessages(cfg: Config, fs: seq<Frame>, ms: seq<Message>, trace: seq<Input>, cuts: seq<nat>)
      returns (log: seq<Event>)
    requires forall f :: f in fs ==> Sendable(f)
    requires Wellformed(cfg, ms) && DataOf(fs) == AllPieces(ms)
    requires BytesOf(trace) == Stream(fs) && Spared(cfg, Init(), trace)
    ensures NoPong(log) == Expected(ms) + if NoneEmpty(ms) then [Hangup] else []
  {
    log := ServeBytes(cfg, trace, cuts);
    MessagesDelivered(cfg, fs, ms);
    ghost var r := Feed(cfg, Init(), Stream(fs));
    NoPongConcat(r.events, AtEnd(r.conn));
    NoPongOne(AtEnd(r.conn));
  }

  /** Would-blocks spare a stream when there are none of them, ... */
  lemma UnblockedSpared(cfg: Config, trace: seq<Input>)
    requires Block !in trace
    ensures Spared(cfg, Init(), trace)
  {
  }

  /** ... or when no ping or pong has a payload. */
  lemma SmoothSpared(cfg: Config, fs: seq<Frame>, trace: seq<Input>)
    requires forall f :: f in fs ==> Sendable(f) && (Control(f.op) ==> f.payload == [])
    requires BytesOf(trace) == Stream(fs)
    ensures Spared(cfg, Init(), trace)
  {
    SmoothStream(cfg, Init(), fs);
    forall k | 0 <= k < |trace| && trace[k] == Block
      ensures !Feed(cfg, Init(), BytesOf(trace[..k])).conn.phase.Skip?
    {
      assert trace == trace[..k] + trace[k..];
      BytesOfConcat(trace[..k], trace[k..]);
      var s := Stream(fs);
      assert BytesOf(trace[..k]) == s[..|BytesOf(trace[..k])|];
    }
  }
}
