/** The functions of src/afb-api-ws.c that put each message together and take it apart. */
module ApiHandlers {
  import opened Options
  import opened Bytes
  import opened ApiCodec
  import opened ApiMessages
  import opened ApiBuffers

  // ----- writing

  lemma {:induction false} WriteMore(fs: seq<Field>, f: Field)
    requires (forall g :: g in fs ==> Fits(g)) && Fits(f)
    ensures (forall g :: g in fs + [f] ==> Fits(g)) && WriteAll(fs + [f]) == WriteAll(fs) + Write(f)
  {
    if fs == [] {
      assert fs + [f] == [f] && [f][1..] == [];
      assert Write(f) + [] == Write(f) && [] + Write(f) == Write(f);
    } else {
      assert (fs + [f])[0] == fs[0] && (fs + [f])[1..] == fs[1..] + [f];
      WriteMore(fs[1..], f);
      Behind(Write(fs[0]), WriteAll(fs[1..]), Write(f));
    }
    AllThere(fs, f);
  }

  lemma AllThere(fs: seq<Field>, f: Field)
    ensures forall g :: g in fs + [f] <==> g in fs || g == f
  {
  }

  lemma Behind(a: seq<byte>, b: seq<byte>, c: seq<byte>)
    ensures a + b + c == a + (b + c)
  {
  }

  /** A message being written: `head` and the fields so far. */
  class Outgoing {
    const wb: WriteBuf
    ghost const head: seq<byte>
    ghost var fields: seq<Field>

    ghost predicate Valid()
      reads this, wb
    {
      && AllFit(fields) && Flat(wb.parts) == head + WriteAll(fields)
      && |wb.parts| <= 1 + 3 * |fields|
    }

    /** With the order of the message, if there is one. */
    constructor (order: Option<byte>)
      ensures Valid() && fields == [] && fresh(wb)
      ensures head == if order.Some? then [order.value] else []
    {
      var b := new WriteBuf();
      wb := b;
      fields := [];
      head := if order.Some? then [order.value] else [];
      new;
      if order.Some? {
        var ok := wb.Put([order.value]);
        FlatPush([], [order.value]);
        assert [] + [[order.value]] == [[order.value]];
      }
      assert head + [] == head;
    }

    method Word(n: nat)
      requires Valid() && n < WORD && |fields| < 9
      modifies this, wb
      ensures Valid() && fields == old(fields) + [U32(n)]
    {
      FlatPush(wb.parts, Write(U32(n)));
      Grown(wb.parts, fields, U32(n));
      var ok := wb.WriteUint32(n);
      fields := fields + [U32(n)];
    }

    method String(text: seq<byte>, nz: bool) returns (ok: bool)
      requires Valid() && |fields| < 9
      modifies this, wb
      ensures ok == Fits(Str(text))
      ensures ok ==> Valid() && fields == old(fields) + [Str(text)]
    {
      if nz {
        ok := wb.WriteStringNz(text);
      } else {
        ok := wb.WriteString(text);
      }
      if ok {
        Grown(old(wb.parts), fields, Str(text));
        fields := fields + [Str(text)];
      }
    }

    lemma Grown(parts: seq<seq<byte>>, fs: seq<Field>, f: Field)
      requires AllFit(fs) && Fits(f) && Flat(parts) == head + WriteAll(fs)
      ensures AllFit(fs + [f]) && Flat(parts) + Write(f) == head + WriteAll(fs + [f])
    {
      WriteMore(fs, f);
      Behind(head, WriteAll(fs), Write(f));
    }
  }

  /** A string that does not fit keeps the message from being sent. */
  lemma Unsent(m: ServerMsg, i: nat)
    requires i < |Fields(m)| && !Fits(Fields(m)[i])
    ensures Encode(m) == None
  {
    assert Fields(m)[i] in Fields(m);
  }

  /** api_ws_server_req_success_cb */
  method SendSuccess(msgid: word, flags: word, info: cstring, json: cstring) returns (r: Option<seq<byte>>)
    ensures r == Encode(Success(msgid, flags, info, json))
  {
    ghost var m := Success(msgid, flags, info, json);
    var o := new Outgoing(Some(84));
    o.Word(msgid);
    o.Word(flags);
    var ok := o.String(info, false);
    if !ok {
      Unsent(m, 2);
      return None;
    }
    ok := o.String(json, false);
    if !ok {
      Unsent(m, 3);
      return None;
    }
    assert o.fields == Fields(m);
    r := Some(Flat(o.wb.parts));
  }

  /** api_ws_server_req_fail_cb */
  method SendFail(msgid: word, flags: word, status: cstring, info: cstring) returns (r: Option<seq<byte>>)
    ensures r == Encode(Fail(msgid, flags, status, info))
  {
    ghost var m := Fail(msgid, flags, status, info);
    var o := new Outgoing(Some(70));
    o.Word(msgid);
    o.Word(flags);
    var ok := o.String(status, false);
    if !ok {
      Unsent(m, 2);
      return None;
    }
    ok := o.String(info, false);
    if !ok {
      Unsent(m, 3);
      return None;
    }
    assert o.fields == Fields(m);
    r := Some(Flat(o.wb.parts));
  }

  /** api_ws_server_req_send_cb; the buffer is followed by a NUL. */
  method SendRaw(msgid: word, flags: word, data: seq<byte>) returns (r: Option<seq<byte>>)
    ensures r == Encode(Send(msgid, flags, data))
  {
    ghost var m := Send(msgid, flags, data);
    var o := new Outgoing(Some(88));
    o.Word(msgid);
    o.Word(flags);
    var ok := o.String(data, false);
    if !ok {
      Unsent(m, 2);
      return None;
    }
    assert o.fields == Fields(m);
    r := Some(Flat(o.wb.parts));
  }

  /** api_ws_server_event_broadcast */
  method SendBroadcast(event: cstring, json: cstring) returns (r: Option<seq<byte>>)
    ensures r == Encode(Broadcast(event, json))
  {
    ghost var m := Broadcast(event, json);
    var o := new Outgoing(Some(42));
    var ok := o.String(event, false);
    if !ok {
      Unsent(m, 0);
      return None;
    }
    ok := o.String(json, false);
    if !ok {
      Unsent(m, 1);
      return None;
    }
    assert o.fields == Fields(m);
    r := Some(Flat(o.wb.parts));
  }

  /** The message of api_ws_server_event_send. */
  function EventMsg(order: byte, id: word, event: cstring, data: Option<cstring>): ServerMsg
    requires if data.Some? then order == 33 else order == 43 || order == 45
  {
    if data.Some? then Push(id, event, data.value) else if order == 43 then Create(id, event) else Drop(id, event)
  }

  /** api_ws_server_event_send */
  method SendEvent(order: byte, id: word, event: cstring, data: Option<cstring>) returns (r: Option<seq<byte>>)
    requires if data.Some? then order == 33 else order == 43 || order == 45
    ensures r == Encode(EventMsg(order, id, event, data))
  {
    ghost var m := EventMsg(order, id, event, data);
    var o := new Outgoing(Some(order));
    o.Word(id);
    var ok := o.String(event, false);
    if !ok {
      Unsent(m, 1);
      return None;
    }
    if data.Some? {
      ok := o.String(data.value, false);
      if !ok {
        Unsent(m, 2);
        return None;
      }
    }
    assert o.fields == Fields(m);
    r := Some(Flat(o.wb.parts));
  }

  /** The messages of api_ws_server_req_subscribe_cb and its contrary. */
  method SendSubscription(order: byte, msgid: word, id: word, event: cstring) returns (r: Option<seq<byte>>)
    requires order == 83 || order == 85
    ensures r == Encode(if order == 83 then Subscribe(msgid, id, event) else Unsubscribe(msgid, id, event))
  {
    ghost var m := if order == 83 then Subscribe(msgid, id, event) else Unsubscribe(msgid, id, event);
    var o := new Outgoing(Some(order));
    o.Word(msgid);
    o.Word(id);
    var ok := o.String(event, false);
    if !ok {
      Unsent(m, 2);
      return None;
    }
    assert o.fields == Fields(m);
    r := Some(Flat(o.wb.parts));
  }

  /** The message of api_ws_client_call_cb. */
  method SendCall(c: CallMsg) returns (r: Option<seq<byte>>)
    ensures r == EncodeCall(c)
  {
    var o := new Outgoing(None);
    o.Word(c.msgid);
    o.Word(c.flags);
    var ok := o.String(c.verb, true);
    if ok {
      ok := o.String(c.uuid, false);
      if ok {
        ok := o.String(c.request, false);
      }
    }
    CallFits(c);
    r := None;
    if ok {
      assert o.fields == CallFields(c);
      assert [] + WriteAll(o.fields) == WriteAll(o.fields);
      r := Some(Flat(o.wb.parts));
    }
  }

  lemma CallFits(c: CallMsg)
    ensures AllFit(CallFields(c)) <==> Fits(Str(c.verb)) && Fits(Str(c.uuid)) && Fits(Str(c.request))
  {
    var fs := CallFields(c);
    assert fs[2] in fs && fs[3] in fs && fs[4] in fs;
  }

  // ----- reading

  /** One more field behind those read. */
  lemma {:induction false} ReadMore(data: seq<byte>, pos: nat, kinds: seq<Kind>, k: Kind)
    requires pos <= |data|
    ensures var r := ReadAll(data, pos, kinds);
            var more := ReadAll(data, pos, kinds + [k]);
            if r.NoRead? then more.NoRead?
            else
              var x := ReadField(data, r.pos, k);
              more == if x.NoRead? then NoRead else Read(r.value + [x.value], x.pos)
    decreases |kinds|
  {
    if kinds == [] {
      assert kinds + [k] == [k] && [k][1..] == [];
      var x := ReadField(data, pos, k);
      if x.Read? {
        assert ReadAll(data, x.pos, []) == Read([], x.pos);
        assert [x.value] + [] == [] + [x.value];
      }
    } else {
      assert (kinds + [k])[0] == kinds[0] && (kinds + [k])[1..] == kinds[1..] + [k];
      var x := ReadField(data, pos, kinds[0]);
      if x.Read? {
        ReadMore(data, x.pos, kinds[1..], k);
        var xs := ReadAll(data, x.pos, kinds[1..]);
        if xs.Read? {
          var y := ReadField(data, xs.pos, k);
          if y.Read? {
            assert [x.value] + (xs.value + [y.value]) == ([x.value] + xs.value) + [y.value];
          }
        }
      }
    }
  }

  /** What cannot be read so far cannot be read with more. */
  lemma {:induction false} NothingMore(data: seq<byte>, pos: nat, kinds: seq<Kind>, tail: seq<Kind>)
    requires pos <= |data| && ReadAll(data, pos, kinds).NoRead?
    ensures ReadAll(data, pos, kinds + tail).NoRead?
    decreases |tail|
  {
    if tail == [] {
      assert kinds + tail == kinds;
    } else {
      var n := |tail| - 1;
      NothingMore(data, pos, kinds, tail[..n]);
      ReadMore(data, pos, kinds + tail[..n], tail[n]);
      assert kinds + tail == (kinds + tail[..n]) + [tail[n]];
    }
  }

  /** A message of the given fields being read from place `start` on. */
  class Incoming {
    const rb: ReadBuf
    const start: nat
    ghost const all: seq<Kind>
    ghost var fields: seq<Field>

    ghost predicate Valid()
      reads this, rb
    {
      start <= |rb.data| && |fields| <= |all| && ReadAll(rb.data, start, all[..|fields|]) == Read(fields, rb.head)
    }

    constructor (data: seq<byte>, start: nat, ghost all: seq<Kind>)
      requires start <= |data|
      ensures Valid() && fields == [] && rb.data == data && this.start == start && this.all == all && fresh(rb)
    {
      var b := new ReadBuf(data);
      b.head := start;
      rb := b;
      this.start := start;
      this.all := all;
      fields := [];
    }

    method Word() returns (ok: bool, n: nat)
      requires Valid() && |fields| < |all| && all[|fields|] == AnU32
      modifies this, rb
      ensures ok ==> Valid() && fields == old(fields) + [U32(n)] && n < WORD
      ensures !ok ==> ReadAll(rb.data, start, all).NoRead?
      ensures ok == ReadU32(rb.data, old(rb.head)).Read? && (ok ==> n == ReadU32(rb.data, old(rb.head)).value)
    {
      NextRead(rb.data, start, all, fields, rb.head);
      ok, n := rb.ReadUint32();
      fields := fields + [U32(n)];
    }

    method String() returns (ok: bool, s: seq<byte>)
      requires Valid() && |fields| < |all| && all[|fields|] == AStr
      modifies this, rb
      ensures ok ==> Valid() && fields == old(fields) + [Str(s)]
      ensures !ok ==> ReadAll(rb.data, start, all).NoRead?
    {
      NextRead(rb.data, start, all, fields, rb.head);
      ok, s := rb.ReadString();
      fields := fields + [Str(s)];
    }
  }

  /** Reading the next field, or failing for good. */
  lemma NextRead(data: seq<byte>, start: nat, all: seq<Kind>, fields: seq<Field>, head: nat)
    requires start <= |data| && |fields| < |all| && ReadAll(data, start, all[..|fields|]) == Read(fields, head)
    ensures var x := ReadField(data, head, all[|fields|]);
            if x.NoRead? then ReadAll(data, start, all).NoRead?
            else ReadAll(data, start, all[..|fields| + 1]) == Read(fields + [x.value], x.pos)
  {
    var n := |fields|;
    ReadMore(data, start, all[..n], all[n]);
    assert all[..n + 1] == all[..n] + [all[n]];
    if ReadField(data, head, all[n]).NoRead? {
      NothingMore(data, start, all[..n + 1], all[n + 1..]);
      assert all == all[..n + 1] + all[n + 1..];
    }
  }

  /** What a message does at the client: a reply completes the call that it names, with a
      failure when its body is malformed; other messages count only when they are whole. */
  datatype Effect = Ignored | Replied(msgid: word, answer: Option<ServerMsg>) | Told(msg: ServerMsg)

  predicate IsReply(order: byte) {
    order == 84 || order == 70 || order == 88
  }

  function EffectOf(data: seq<byte>): Effect {
    if data == [] || Shape(data[0]).None? then Ignored
    else if IsReply(data[0]) then
      var id := ReadU32(data, 1);
      if id.NoRead? then Ignored
      else Replied(id.value, if Decode(data).Read? then Some(Decode(data).value) else None)
    else if Decode(data).Read? then Told(Decode(data).value) else Ignored
  }

  /** Every message sent has its effect: a reply completes its call with its answer. */
  lemma EffectOfSent(m: ServerMsg)
    requires Encode(m).Some?
    ensures EffectOf(Encode(m).value) ==
            if m.Success? || m.Fail? || m.Send? then Replied(m.msgid, Some(m)) else Told(m)
  {
    ServerRoundTrip(m);
    ShapeOfFields(m);
    var data, fs := Encode(m).value, Fields(m);
    if IsReply(Order(m)) {
      NumberSent(data, fs, m.msgid);
    }
  }

  lemma NumberSent(data: seq<byte>, fs: seq<Field>, msgid: word)
    requires AllFit(fs) && fs != [] && fs[0] == U32(msgid) && data != [] && data[1..] == WriteAll(fs)
    ensures ReadU32(data, 1) == Read(msgid, 5)
  {
    var id := U32(msgid);
    assert Holds(data, 1, Write(id) + WriteAll(fs[1..]));
    HoldsSplit(data, 1, Write(id), WriteAll(fs[1..]));
    ReadWritten(data, 1, id);
  }

  /** A call is completed by any reply whose number can be read: whole or not. */
  lemma RepliedIff(data: seq<byte>)
    ensures EffectOf(data).Replied? <==> data != [] && IsReply(data[0]) && |data| >= 5
    ensures EffectOf(data).Replied? ==> EffectOf(data).msgid == FromLe32(data[1..5])
  {
  }

  /** All fields read: the message is decoded from them. */
  lemma DecodedAs(data: seq<byte>, all: seq<Kind>, fields: seq<Field>, pos: nat)
    requires data != [] && Shape(data[0]) == Some(all) && |fields| == |all|
    requires ReadAll(data, 1, all[..|fields|]) == Read(fields, pos)
    ensures Shaped(fields, all) && Decode(data) == Read(Build(data[0], fields), pos)
  {
    assert all[..|fields|] == all;
    ReadShaped(data, 1, all);
  }

  /** api_ws_client_reply_success and _fail behind the number: flags and two strings. */
  method LongReply(data: seq<byte>, i: Incoming, id: nat) returns (answer: Option<ServerMsg>)
    requires i.Valid() && i.rb.data == data && i.start == 1 && i.fields == [U32(id)] && id < WORD
    requires data != [] && (data[0] == 84 || data[0] == 70) && Shape(data[0]) == Some(i.all)
    modifies i, i.rb
    ensures answer == if Decode(data).Read? then Some(Decode(data).value) else None
  {
    answer := None;
    var ok, flags := i.Word();
    if ok {
      var a;
      ok, a := i.String();
      if ok {
        var b;
        ok, b := i.String();
        if ok {
          DecodedAs(data, i.all, i.fields, i.rb.head);
          answer := Some(if data[0] == 84 then Success(id, flags, CStr(a), CStr(b))
              else Fail(id, flags, CStr(a), CStr(b)));
        }
      }
    }
  }

  /** api_ws_client_reply_send behind the number: flags and the data. */
  method RawReply(data: seq<byte>, i: Incoming, id: nat) returns (answer: Option<ServerMsg>)
    requires i.Valid() && i.rb.data == data && i.start == 1 && i.fields == [U32(id)] && id < WORD
    requires data != [] && data[0] == 88 && Shape(data[0]) == Some(i.all)
    modifies i, i.rb
    ensures answer == if Decode(data).Read? then Some(Decode(data).value) else None
  {
    answer := None;
    var ok, flags := i.Word();
    if ok {
      var s;
      ok, s := i.String();
      if ok {
        DecodedAs(data, i.all, i.fields, i.rb.head);
        answer := Some(Send(id, flags, s));
      }
    }
  }

  /** The number of the call that a reply names comes first. */
  method OnReply(data: seq<byte>) returns (e: Effect)
    requires data != [] && IsReply(data[0])
    ensures e == EffectOf(data)
  {
    var i := new Incoming(data, 1, Shape(data[0]).value);
    assert ReadField(data, 1, AnU32).Read? == ReadU32(data, 1).Read?;
    var ok, id := NumberOf(i);
    if !ok {
      return Ignored;
    }
    var answer;
    if data[0] == 88 {
      answer := RawReply(data, i, id);
    } else {
      answer := LongReply(data, i, id);
    }
    e := Replied(id, answer);
  }

  /** The first number of a message. */
  method NumberOf(i: Incoming) returns (ok: bool, n: nat)
    requires i.Valid() && i.fields == [] && i.all != [] && i.all[0] == AnU32
    modifies i, i.rb
    ensures ok == ReadU32(i.rb.data, i.start).Read?
    ensures ok ==> i.Valid() && i.fields == [U32(n)] && n < WORD && ReadU32(i.rb.data, i.start).value == n
    ensures !ok ==> ReadAll(i.rb.data, i.start, i.all).NoRead?
  {
    assert i.all[..0] == [] && i.rb.head == i.start;
    ok, n := i.Word();
    assert [] + [U32(n)] == [U32(n)];
  }

  /** What a message that is no reply does, from its decoding. */
  function Heard(data: seq<byte>): Effect {
    if Decode(data).Read? then Told(Decode(data).value) else Ignored
  }

  /** api_ws_client_event_broadcast */
  method OnBroadcast(data: seq<byte>) returns (e: Effect)
    requires data != [] && data[0] == 42
    ensures e == Heard(data)
  {
    e := Ignored;
    var i := new Incoming(data, 1, Shape(data[0]).value);
    var ok, name := i.String();
    if ok {
      var json;
      ok, json := i.String();
      if ok {
        DecodedAs(data, i.all, i.fields, i.rb.head);
        e := Told(Broadcast(CStr(name), CStr(json)));
      }
    }
  }

  /** api_ws_client_msg_event_read: the number and the name of an event. */
  method ReadEvent(i: Incoming) returns (ok: bool, id: nat, name: seq<byte>)
    requires i.Valid() && |i.fields| + 1 < |i.all| && i.all[|i.fields|] == AnU32 && i.all[|i.fields| + 1] == AStr
    modifies i, i.rb
    ensures ok ==> i.Valid() && i.fields == old(i.fields) + [U32(id)] + [Str(name)] && id < WORD
    ensures !ok ==> ReadAll(i.rb.data, i.start, i.all).NoRead?
  {
    name := [];
    ok, id := i.Word();
    if ok {
      ok, name := i.String();
    }
  }

  /** api_ws_client_event_create, _drop and _push: the event, and the object pushed. */
  method OnEvent(data: seq<byte>) returns (e: Effect)
    requires data != [] && (data[0] == 43 || data[0] == 45 || data[0] == 33)
    ensures e == Heard(data)
  {
    e := Ignored;
    var i := new Incoming(data, 1, Shape(data[0]).value);
    var ok, id, name := ReadEvent(i);
    if ok && data[0] != 33 {
      DecodedAs(data, i.all, i.fields, i.rb.head);
      e := Told(if data[0] == 43 then Create(id, CStr(name)) else Drop(id, CStr(name)));
    } else if ok {
      var json;
      ok, json := i.String();
      if ok {
        DecodedAs(data, i.all, i.fields, i.rb.head);
        e := Told(Push(id, CStr(name), CStr(json)));
      }
    }
  }

  /** api_ws_client_event_subscribe and _unsubscribe. */
  method OnSubscription(data: seq<byte>) returns (e: Effect)
    requires data != [] && (data[0] == 83 || data[0] == 85)
    ensures e == Heard(data)
  {
    e := Ignored;
    var i := new Incoming(data, 1, Shape(data[0]).value);
    var ok, msgid := i.Word();
    if ok {
      var id, name;
      ok, id, name := ReadEvent(i);
      if ok {
        DecodedAs(data, i.all, i.fields, i.rb.head);
        e := Told(if data[0] == 83 then Subscribe(msgid, id, CStr(name)) else Unsubscribe(msgid, id, CStr(name)));
      }
    }
  }

  /** api_ws_client_on_binary */
  method OnBinary(data: seq<byte>) returns (e: Effect)
    ensures e == EffectOf(data)
  {
    if data == [] {
      e := Ignored;
    } else if IsReply(data[0]) {
      e := OnReply(data);
    } else if data[0] == 42 {
      e := OnBroadcast(data);
    } else if data[0] == 43 || data[0] == 45 || data[0] == 33 {
      e := OnEvent(data);
    } else if data[0] == 83 || data[0] == 85 {
      e := OnSubscription(data);
    } else {
      e := Ignored;
    }
  }
}
