/** The read and write buffers of src/afb-api-ws.c and the client's event list,
    in place. */
module ApiBuffers {
  import opened Bytes
  import opened ApiCodec
  import EventTable

  /** struct readbuf: a cursor that moves towards the end. */
  class ReadBuf {
    const data: seq<byte>
    var head: nat

    constructor (data: seq<byte>)
      ensures this.data == data && head == 0
    {
      this.data := data;
      head := 0;
    }

    method ReadUint32() returns (ok: bool, value: nat)
      requires head <= |data|
      modifies `head
      ensures old(head) <= head <= |data|
      ensures ok == ReadU32(data, old(head)).Read?
      ensures ok ==> Read(value, head) == ReadU32(data, old(head))
      ensures !ok ==> head == old(head)
    {
      value := 0;
      ok := head + 4 <= |data|;
      if ok {
        value := FromLe32(data[head..head + 4]);
        head := head + 4;
      }
    }

    method ReadString() returns (ok: bool, value: seq<byte>)
      requires head <= |data|
      modifies `head
      ensures old(head) <= head <= |data|
      ensures ok == ReadStr(data, old(head)).Read?
      ensures ok ==> Read(value, head) == ReadStr(data, old(head))
    {
      value := [];
      var len;
      ok, len := ReadUint32();
      if !ok || len == 0 {
        return false, [];
      }
      var before := head;
      if head + len > |data| {
        return false, [];
      }
      head := head + len;
      ok := data[head - 1] == 0;
      value := data[before..head - 1];
    }
  }

  const WRITEBUF_COUNT_MAX := 32

  /** struct writebuf: at most 32 pieces, sent one after the other. */
  class WriteBuf {
    var parts: seq<seq<byte>>

    constructor ()
      ensures parts == []
    {
      parts := [];
    }

    method Put(piece: seq<byte>) returns (ok: bool)
      modifies this
      ensures ok == (|old(parts)| != WRITEBUF_COUNT_MAX)
      ensures parts == if ok then old(parts) + [piece] else old(parts)
    {
      ok := |parts| != WRITEBUF_COUNT_MAX;
      if ok {
        parts := parts + [piece];
      }
    }

    method WriteUint32(n: nat) returns (ok: bool)
      requires n < WORD && |parts| < WRITEBUF_COUNT_MAX
      modifies this
      ensures ok && parts == old(parts) + [Write(U32(n))]
    {
      ok := Put(Le32(n));
    }

    /** api_ws_write_string_length; `text` is followed by its NUL in memory. */
    method WriteString(text: seq<byte>) returns (ok: bool)
      requires |parts| + 1 < WRITEBUF_COUNT_MAX
      modifies this
      ensures ok == Fits(Str(text))
      ensures ok ==> |parts| == |old(parts)| + 2 && Flat(parts) == Flat(old(parts)) + Write(Str(text))
      ensures !ok ==> parts == old(parts)
    {
      var len := (|text| + 1) % WORD;
      if len != |text| + 1 || len == 0 {
        return false;
      }
      ghost var before := parts;
      ok := WriteUint32(len);
      ok := Put(text + [0]);
      FlatPush(before, Le32(len));
      FlatPush(before + [Le32(len)], text + [0]);
      assert Le32(len) + (text + [0]) == Write(Str(text));
      assert Flat(before) + Le32(len) + (text + [0]) == Flat(before) + (Le32(len) + (text + [0]));
    }

    /** api_ws_write_string_nz: the NUL is a piece of its own. */
    method WriteStringNz(text: seq<byte>) returns (ok: bool)
      requires |parts| + 2 < WRITEBUF_COUNT_MAX
      modifies this
      ensures ok == Fits(Str(text))
      ensures ok ==> |parts| == |old(parts)| + 3 && Flat(parts) == Flat(old(parts)) + Write(Str(text))
      ensures !ok ==> parts == old(parts)
    {
      var len;
      ok, len := LengthNz(|text|);
      if !ok {
        return;
      }
      ghost var before := parts;
      ok := WriteUint32(len);
      ok := Put(text);
      ok := Put([0]);
      assert parts == before + [Le32(len)] + [text] + [[0]];
      ThreePushed(before, Le32(len), text, [0]);
    }

    /** The 32-bit length with the NUL, unless it does not fit or wraps to zero. */
    static method LengthNz(length: nat) returns (ok: bool, len: nat)
      ensures ok == (length + 1 < WORD) && (ok ==> len == length + 1)
    {
      len := length % WORD;
      ok := len == length;
      if ok {
        len := (len + 1) % WORD;
        ok := len != 0;
      }
    }
  }

  lemma ThreePushed(parts: seq<seq<byte>>, a: seq<byte>, b: seq<byte>, c: seq<byte>)
    ensures Flat(parts + [a] + [b] + [c]) == Flat(parts) + (a + b + c)
  {
    FlatPush(parts, a);
    FlatPush(parts + [a], b);
    FlatPush(parts + [a] + [b], c);
    Assoc3(Flat(parts), a, b, c);
  }

  lemma Assoc3(a: seq<byte>, b: seq<byte>, c: seq<byte>, d: seq<byte>)
    ensures a + b + c + d == a + (b + c + d)
  {
  }

  /** What the pieces make on the wire. */
  function Flat(parts: seq<seq<byte>>): seq<byte> {
    if parts == [] then [] else Flat(parts[..|parts| - 1]) + parts[|parts| - 1]
  }

  lemma FlatPush(parts: seq<seq<byte>>, piece: seq<byte>)
    ensures Flat(parts + [piece]) == Flat(parts) + piece
  {
    assert (parts + [piece])[..|parts|] == parts;
  }

  /** The client's list of remote events. */
  class ClientEvents {
    var events: seq<EventTable.Entry>

    method Find(key: EventTable.Key) returns (k: nat)
      ensures k == EventTable.Search(events, key)
    {
      k := 0;
      while k < |events| && events[k].key != key
        invariant 0 <= k <= EventTable.Search(events, key)
      {
        k := k + 1;
      }
    }

    /** One message about events; false when its event is not known. */
    method Receive(m: EventTable.Msg) returns (found: bool)
      modifies this
      ensures events == EventTable.Receive(old(events), m)
      ensures found == (EventTable.Search(old(events), m.key) < |old(events)|)
    {
      var k := Find(m.key);
      found := k < |events|;
      match m {
        case Plus(key) =>
          if found {
            events := events[k := events[k].(refcount := events[k].refcount + 1)];
          } else {
            events := [EventTable.Entry(key, 1)] + events;
          }
        case Minus(_) =>
          if found {
            if events[k].refcount - 1 != 0 {
              events := events[k := events[k].(refcount := events[k].refcount - 1)];
            } else {
              events := events[..k] + events[k + 1..];
            }
          }
        case _ =>
      }
    }
  }
}
