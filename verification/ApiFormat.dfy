/** The bytes of the messages of src/afb-api-ws.c, written out. */
module ApiFormat {
  import opened Options
  import opened Bytes
  import opened ApiCodec
  import opened ApiMessages

  /** A 32-bit number at `p`, its lowest byte first. */
  predicate NumAt(data: seq<byte>, p: nat, n: nat) {
    && p + 4 <= |data|
    && data[p] as int + 0x100 * data[p + 1] as int + 0x1_0000 * data[p + 2] as int
       + 0x100_0000 * data[p + 3] as int == n
  }

  /** A string at `p`: the number of its bytes with the NUL, the bytes, the NUL. */
  predicate TextAt(data: seq<byte>, p: nat, s: seq<byte>) {
    && NumAt(data, p, |s| + 1)
    && p + 5 + |s| <= |data|
    && data[p + 4..p + 4 + |s|] == s && data[p + 4 + |s|] == 0
  }

  predicate FieldAt(data: seq<byte>, p: nat, f: Field) {
    match f
    case U32(n) => NumAt(data, p, n)
    case Str(text) => TextAt(data, p, text)
  }

  function Size(f: Field): nat {
    if f.U32? then 4 else 5 + |f.text|
  }

  /** The fields lie one behind the other from `p` on, up to `end`. */
  predicate FieldsAt(data: seq<byte>, p: nat, fs: seq<Field>, end: nat)
    decreases |fs|
  {
    if fs == [] then p == end
    else FieldAt(data, p, fs[0]) && FieldsAt(data, p + Size(fs[0]), fs[1..], end)
  }

  lemma NumWritten(data: seq<byte>, p: nat, n: nat)
    requires n < WORD && ApiCodec.Holds(data, p, Le32(n))
    ensures NumAt(data, p, n)
  {
    var b := Le32(n);
    assert data[p..p + 4] == b;
    assert data[p] == b[0] && data[p + 1] == b[1] && data[p + 2] == b[2] && data[p + 3] == b[3];
    Le32Inverse(n);
  }

  lemma FieldWritten(data: seq<byte>, p: nat, f: Field)
    requires Fits(f) && ApiCodec.Holds(data, p, Write(f))
    ensures FieldAt(data, p, f) && |Write(f)| == Size(f)
  {
    match f {
      case U32(n) => NumWritten(data, p, n);
      case Str(text) =>
        HoldsSplit(data, p, Le32(|text| + 1) + text, [0]);
        HoldsSplit(data, p, Le32(|text| + 1), text);
        NumWritten(data, p, |text| + 1);
    }
  }

  lemma FirstField(data: seq<byte>, p: nat, f: Field, tail: seq<byte>)
    requires Fits(f) && ApiCodec.Holds(data, p, Write(f) + tail)
    ensures FieldAt(data, p, f) && ApiCodec.Holds(data, p + Size(f), tail) && |Write(f)| == Size(f)
  {
    HoldsSplit(data, p, Write(f), tail);
    FieldWritten(data, p, f);
  }

  lemma FieldsStep(data: seq<byte>, p: nat, f: Field, rest: seq<Field>, fs: seq<Field>, next: nat, end: nat)
    requires fs == [f] + rest && next == p + Size(f) && FieldAt(data, p, f) && FieldsAt(data, next, rest, end)
    ensures FieldsAt(data, p, fs, end)
  {
    assert fs[1..] == rest;
  }

  lemma WriteAllStep(fs: seq<Field>, f: Field, rest: seq<Field>)
    requires fs == [f] + rest && forall x :: x in fs ==> Fits(x)
    ensures Fits(f) && (forall x :: x in rest ==> Fits(x)) && WriteAll(fs) == Write(f) + WriteAll(rest)
  {
    assert f in fs && fs[1..] == rest && forall x :: x in rest ==> x in fs;
  }

  lemma {:induction false} FieldsWritten(data: seq<byte>, p: nat, fs: seq<Field>, w: seq<byte>, end: nat)
    requires (forall f :: f in fs ==> Fits(f)) && w == WriteAll(fs) && ApiCodec.Holds(data, p, w) && end == p + |w|
    ensures FieldsAt(data, p, fs, end)
    decreases |fs|
  {
    if fs != [] {
      var f, rest := fs[0], fs[1..];
      assert fs == [f] + rest;
      WriteAllStep(fs, f, rest);
      FirstField(data, p, f, WriteAll(rest));
      var next := p + Size(f);
      FieldsWritten(data, next, rest, WriteAll(rest), end);
      FieldsStep(data, p, f, rest, fs, next, end);
    }
  }

  /** The bytes of a message: its order, then its fields one behind the other to the end. */
  ghost predicate Written(data: seq<byte>, m: ServerMsg) {
    && data != []
    && match m
       case Success(msgid, flags, info, json) =>
         data[0] as int == 'T' as int && FieldsAt(data, 1, [U32(msgid), U32(flags), Str(info), Str(json)], |data|)
       case Fail(msgid, flags, status, info) =>
         data[0] as int == 'F' as int && FieldsAt(data, 1, [U32(msgid), U32(flags), Str(status), Str(info)], |data|)
       case Send(msgid, flags, bytes) =>
         data[0] as int == 'X' as int && FieldsAt(data, 1, [U32(msgid), U32(flags), Str(bytes)], |data|)
       case Broadcast(name, json) =>
         data[0] as int == '*' as int && FieldsAt(data, 1, [Str(name), Str(json)], |data|)
       case Create(id, name) =>
         data[0] as int == '+' as int && FieldsAt(data, 1, [U32(id), Str(name)], |data|)
       case Drop(id, name) =>
         data[0] as int == '-' as int && FieldsAt(data, 1, [U32(id), Str(name)], |data|)
       case Push(id, name, json) =>
         data[0] as int == '!' as int && FieldsAt(data, 1, [U32(id), Str(name), Str(json)], |data|)
       case Subscribe(msgid, id, name) =>
         data[0] as int == 'S' as int && FieldsAt(data, 1, [U32(msgid), U32(id), Str(name)], |data|)
       case Unsubscribe(msgid, id, name) =>
         data[0] as int == 'U' as int && FieldsAt(data, 1, [U32(msgid), U32(id), Str(name)], |data|)
  }

  /** Every message that is sent has these bytes. */
  lemma MessageWritten(m: ServerMsg)
    ensures Encode(m).Some? ==> Written(Encode(m).value, m)
  {
    if Encode(m).Some? {
      var data := Encode(m).value;
      assert ApiCodec.Holds(data, 1, WriteAll(Fields(m)));
      FieldsWritten(data, 1, Fields(m), WriteAll(Fields(m)), |data|);
    }
  }

  /** And a call has no order: it is its five fields. */
  lemma CallWritten(c: CallMsg)
    ensures EncodeCall(c).Some? ==>
              var data := EncodeCall(c).value;
              FieldsAt(data, 0, [U32(c.msgid), U32(c.flags), Str(c.verb), Str(c.uuid), Str(c.request)], |data|)
  {
    if EncodeCall(c).Some? {
      var data := EncodeCall(c).value;
      assert ApiCodec.Holds(data, 0, WriteAll(CallFields(c)));
      FieldsWritten(data, 0, CallFields(c), WriteAll(CallFields(c)), |data|);
    }
  }
}
