/** The messages of src/afb-api-ws.c, their encoding and decoding. */
module ApiMessages {
  import opened Options
  import opened Bytes
  import opened ApiCodec

  type word = n: nat | n < WORD

  /** Client to server: the call of a verb. */
  datatype CallMsg = CallMsg(msgid: word, flags: word, verb: cstring, uuid: cstring, request: seq<byte>)

  /** Server to client.  JSON values are their serialised text. */
  datatype ServerMsg =
    | Success(msgid: word, flags: word, info: cstring, json: cstring)
    | Fail(msgid: word, flags: word, status: cstring, info: cstring)
    | Send(msgid: word, flags: word, data: seq<byte>)
    | Broadcast(name: cstring, json: cstring)
    | Create(id: word, name: cstring)
    | Drop(id: word, name: cstring)
    | Push(id: word, name: cstring, json: cstring)
    | Subscribe(msgid: word, id: word, name: cstring)
    | Unsubscribe(msgid: word, id: word, name: cstring)

  function Order(m: ServerMsg): byte {
    match m
    case Success(_, _, _, _) => 84         // 'T'
    case Fail(_, _, _, _) => 70            // 'F'
    case Send(_, _, _) => 88               // 'X'
    case Broadcast(_, _) => 42             // '*'
    case Create(_, _) => 43                // '+'
    case Drop(_, _) => 45                  // '-'
    case Push(_, _, _) => 33               // '!'
    case Subscribe(_, _, _) => 83          // 'S'
    case Unsubscribe(_, _, _) => 85        // 'U'
  }

  function Fields(m: ServerMsg): seq<Field> {
    match m
    case Success(msgid, flags, info, json) => [U32(msgid), U32(flags), Str(info), Str(json)]
    case Fail(msgid, flags, status, info) => [U32(msgid), U32(flags), Str(status), Str(info)]
    case Send(msgid, flags, data) => [U32(msgid), U32(flags), Str(data)]
    case Broadcast(name, json) => [Str(name), Str(json)]
    case Create(id, name) => [U32(id), Str(name)]
    case Drop(id, name) => [U32(id), Str(name)]
    case Push(id, name, json) => [U32(id), Str(name), Str(json)]
    case Subscribe(msgid, id, name) => [U32(msgid), U32(id), Str(name)]
    case Unsubscribe(msgid, id, name) => [U32(msgid), U32(id), Str(name)]
  }

  /** The fields that api_ws_client_on_binary reads after each order. */
  function Shape(order: byte): Option<seq<Kind>> {
    if order == 84 || order == 70 then Some([AnU32, AnU32, AStr, AStr])
    else if order == 88 || order == 83 || order == 85 then Some([AnU32, AnU32, AStr])
    else if order == 42 then Some([AStr, AStr])
    else if order == 43 || order == 45 then Some([AnU32, AStr])
    else if order == 33 then Some([AnU32, AStr, AStr])
    else None
  }

  function Word(f: Field): word
    requires f.U32? && f.n < WORD
  {
    f.n
  }

  function Text(f: Field): cstring
    requires f.Str?
  {
    CStr(f.text)
  }

  ghost predicate Shaped(fs: seq<Field>, kinds: seq<Kind>) {
    |fs| == |kinds| && forall i :: 0 <= i < |fs| ==> KindOf(fs[i]) == kinds[i] && (fs[i].U32? ==> fs[i].n < WORD)
  }

  function Build(order: byte, fs: seq<Field>): ServerMsg
    requires Shape(order).Some? && Shaped(fs, Shape(order).value)
  {
    if order == 84 then Success(Word(fs[0]), Word(fs[1]), Text(fs[2]), Text(fs[3]))
    else if order == 70 then Fail(Word(fs[0]), Word(fs[1]), Text(fs[2]), Text(fs[3]))
    else if order == 88 then Send(Word(fs[0]), Word(fs[1]), fs[2].text)
    else if order == 83 then Subscribe(Word(fs[0]), Word(fs[1]), Text(fs[2]))
    else if order == 85 then Unsubscribe(Word(fs[0]), Word(fs[1]), Text(fs[2]))
    else if order == 42 then Broadcast(Text(fs[0]), Text(fs[1]))
    else if order == 43 then Create(Word(fs[0]), Text(fs[1]))
    else if order == 45 then Drop(Word(fs[0]), Text(fs[1]))
    else Push(Word(fs[0]), Text(fs[1]), Text(fs[2]))
  }

  predicate AllFit(fs: seq<Field>) {
    forall f :: f in fs ==> Fits(f)
  }

  /** Nothing is sent when a string is too long for its 32-bit length. */
  function Encode(m: ServerMsg): Option<seq<byte>> {
    if AllFit(Fields(m)) then Some([Order(m)] + WriteAll(Fields(m))) else None
  }

  lemma ReadShaped(data: seq<byte>, pos: nat, kinds: seq<Kind>)
    requires pos <= |data|
    ensures var r := ReadAll(data, pos, kinds); r.Read? ==> Shaped(r.value, kinds)
  {
  }

  function Decode(data: seq<byte>): Read<ServerMsg> {
    if data == [] || Shape(data[0]).None? then NoRead
    else
      ReadShaped(data, 1, Shape(data[0]).value);
      var r := ReadAll(data, 1, Shape(data[0]).value);
      if r.NoRead? then NoRead else Read(Build(data[0], r.value), r.pos)
  }

  lemma ShapeOfFields(m: ServerMsg)
    ensures Shape(Order(m)) == Some(Kinds(Fields(m)))
    ensures Shaped(Fields(m), Kinds(Fields(m))) && Build(Order(m), Fields(m)) == m
  {
    assert Shape(Order(m)).Some?;
    assert Kinds(Fields(m)) == Shape(Order(m)).value;
  }

  /** Every message that is sent is read back field for field, to its last byte. */
  lemma ServerRoundTrip(m: ServerMsg)
    ensures Encode(m).Some? ==> Decode(Encode(m).value) == Read(m, |Encode(m).value|)
  {
    if Encode(m).Some? {
      var data, fs := Encode(m).value, Fields(m);
      assert Holds(data, 1, WriteAll(fs));
      ReadAllWritten(data, 1, fs);
      ShapeOfFields(m);
    }
  }

  /** The only messages not sent are those with a string of 2^32 - 1 bytes or more. */
  lemma SentIffShort(m: ServerMsg)
    ensures Encode(m).Some? <==> forall i :: 0 <= i < |Fields(m)| && Fields(m)[i].Str? ==>
            |Fields(m)[i].text| + 1 < 0x1_0000_0000
  {
    var fs := Fields(m);
    assert forall f :: f in fs && f.U32? ==> f.n < WORD;
    if forall i :: 0 <= i < |fs| && fs[i].Str? ==> |fs[i].text| + 1 < WORD {
      forall f | f in fs
        ensures Fits(f)
      {
        var i :| 0 <= i < |fs| && fs[i] == f;
      }
    } else {
      var i :| 0 <= i < |fs| && fs[i].Str? && !(|fs[i].text| + 1 < WORD);
      assert fs[i] in fs && !Fits(fs[i]);
    }
  }

  // ----- the call

  function CallFields(c: CallMsg): seq<Field> {
    [U32(c.msgid), U32(c.flags), Str(c.verb), Str(c.uuid), Str(c.request)]
  }

  const CALL_SHAPE := [AnU32, AnU32, AStr, AStr, AStr]

  function EncodeCall(c: CallMsg): Option<seq<byte>> {
    if AllFit(CallFields(c)) then Some(WriteAll(CallFields(c))) else None
  }

  function DecodeCall(data: seq<byte>): Read<CallMsg> {
    ReadShaped(data, 0, CALL_SHAPE);
    var r := ReadAll(data, 0, CALL_SHAPE);
    if r.NoRead? then NoRead
    else Read(CallMsg(Word(r.value[0]), Word(r.value[1]), Text(r.value[2]), Text(r.value[3]), r.value[4].text), r.pos)
  }

  lemma CallRoundTrip(c: CallMsg)
    ensures EncodeCall(c).Some? ==> DecodeCall(EncodeCall(c).value) == Read(c, |EncodeCall(c).value|)
  {
    if EncodeCall(c).Some? {
      var data, fs := EncodeCall(c).value, CallFields(c);
      assert Holds(data, 0, WriteAll(fs));
      ReadAllWritten(data, 0, fs);
      assert Kinds(fs) == CALL_SHAPE;
    }
  }

  /** Different messages never share an encoding. */
  lemma EncodingsDiffer(m: ServerMsg, n: ServerMsg)
    requires Encode(m).Some? && Encode(m) == Encode(n)
    ensures m == n
  {
    ServerRoundTrip(m);
    ServerRoundTrip(n);
  }

  /** No input makes the reader pass its end, and what it accepts is exactly the
      encoding of the fields it found. */
  lemma DecodeWithinBounds(data: seq<byte>)
    requires Decode(data).Read?
    ensures var r := Decode(data);
            && r.pos <= |data|
            && var fs := ReadAll(data, 1, Shape(data[0]).value).value;
               AllFit(fs) && data[..r.pos] == [data[0]] + WriteAll(fs)
  {
    ReadWithinBounds(data, Shape(data[0]).value);
  }

  lemma ReadWithinBounds(data: seq<byte>, kinds: seq<Kind>)
    requires 0 < |data| && ReadAll(data, 1, kinds).Read?
    ensures var r := ReadAll(data, 1, kinds);
            1 <= r.pos <= |data| && AllFit(r.value) && data[..r.pos] == [data[0]] + WriteAll(r.value)
  {
    WriteAllRead(data, 1, kinds);
    var r := ReadAll(data, 1, kinds);
    assert data[..r.pos] == [data[0]] + data[1..r.pos];
  }
}
