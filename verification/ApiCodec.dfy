/** The binary messages of src/afb-api-ws.c: sequences of 32-bit numbers and
    NUL-terminated strings preceded by their length, after a one-byte order. */
module ApiCodec {
  import opened Bytes

  datatype Field = U32(n: nat) | Str(text: seq<byte>)
  datatype Kind = AnU32 | AStr

  /** A field with the place where reading goes on. */
  datatype Read<T> = NoRead | Read(value: T, pos: nat)

  // ----- reading

  function ReadU32(data: seq<byte>, pos: nat): (r: Read<nat>)
    ensures r.Read? ==> r.pos == pos + 4 <= |data|
  {
    if pos + 4 > |data| then NoRead else Read(FromLe32(data[pos..pos + 4]), pos + 4)
  }

  /** A length of at least one, then that many bytes, the last one NUL. */
  function ReadStr(data: seq<byte>, pos: nat): (r: Read<seq<byte>>)
    ensures r.Read? ==> pos + 5 <= r.pos <= |data|
  {
    var l := ReadU32(data, pos);
    if l.NoRead? || l.value == 0 || l.pos + l.value > |data| || data[l.pos + l.value - 1] != 0 then NoRead
    else Read(data[l.pos..l.pos + l.value - 1], l.pos + l.value)
  }

  function ReadField(data: seq<byte>, pos: nat, kind: Kind): (r: Read<Field>)
    ensures r.Read? ==> pos < r.pos <= |data|
  {
    match kind
    case AnU32 => (var x := ReadU32(data, pos); if x.Read? then Read(U32(x.value), x.pos) else NoRead)
    case AStr => (var x := ReadStr(data, pos); if x.Read? then Read(Str(x.value), x.pos) else NoRead)
  }

  /** Reads fields of the given kinds one after the other. */
  function ReadAll(data: seq<byte>, pos: nat, kinds: seq<Kind>): (r: Read<seq<Field>>)
    requires pos <= |data|
    ensures r.Read? ==> pos <= r.pos <= |data| && |r.value| == |kinds|
    ensures r.Read? ==> forall i :: 0 <= i < |kinds| ==> (kinds[i] == AnU32 <==> r.value[i].U32?)
    ensures r.Read? ==> forall i :: 0 <= i < |kinds| && kinds[i] == AnU32 ==> r.value[i].n < WORD
    decreases |kinds|
  {
    if kinds == [] then Read([], pos)
    else
      var x := ReadField(data, pos, kinds[0]);
      if x.NoRead? then NoRead
      else
        var xs := ReadAll(data, x.pos, kinds[1..]);
        if xs.NoRead? then NoRead else Read([x.value] + xs.value, xs.pos)
  }

  // ----- writing

  predicate Fits(f: Field) {
    match f
    case U32(n) => n < WORD
    case Str(text) => |text| + 1 < WORD
  }

  function Write(f: Field): (r: seq<byte>)
    requires Fits(f)
    ensures r != []
  {
    match f
    case U32(n) => Le32(n)
    case Str(text) => Le32(|text| + 1) + text + [0]
  }

  function KindOf(f: Field): Kind {
    if f.U32? then AnU32 else AStr
  }

  function WriteAll(fs: seq<Field>): seq<byte>
    requires forall f :: f in fs ==> Fits(f)
  {
    if fs == [] then [] else Write(fs[0]) + WriteAll(fs[1..])
  }

  function Kinds(fs: seq<Field>): seq<Kind> {
    seq(|fs|, i requires 0 <= i < |fs| => KindOf(fs[i]))
  }

  // ----- the two are inverse

  /** `data` holds `part` at `pos`. */
  predicate Holds(data: seq<byte>, pos: nat, part: seq<byte>) {
    pos + |part| <= |data| && data[pos..pos + |part|] == part
  }

  lemma HoldsSplit(data: seq<byte>, pos: nat, a: seq<byte>, b: seq<byte>)
    ensures Holds(data, pos, a + b) <==> Holds(data, pos, a) && Holds(data, pos + |a|, b)
  {
    if Holds(data, pos, a + b) {
      assert data[pos..pos + |a|] == data[pos..pos + |a + b|][..|a|];
      assert data[pos + |a|..pos + |a| + |b|] == data[pos..pos + |a + b|][|a|..];
    }
    if Holds(data, pos, a) && Holds(data, pos + |a|, b) {
      assert data[pos..pos + |a + b|] == data[pos..pos + |a|] + data[pos + |a|..pos + |a| + |b|];
    }
  }

  lemma ReadWritten(data: seq<byte>, pos: nat, f: Field)
    requires Fits(f) && Holds(data, pos, Write(f))
    ensures ReadField(data, pos, KindOf(f)) == Read(f, pos + |Write(f)|)
  {
    match f {
      case U32(n) =>
        Le32Inverse(n);
      case Str(text) =>
        var len := |text| + 1;
        Le32Inverse(len);
        HoldsSplit(data, pos, Le32(len) + text, [0]);
        HoldsSplit(data, pos, Le32(len), text);
    }
  }

  lemma FirstWritten(data: seq<byte>, pos: nat, f: Field, tail: seq<byte>)
    requires Fits(f) && Holds(data, pos, Write(f) + tail)
    ensures var next := pos + |Write(f)|;
            ReadField(data, pos, KindOf(f)) == Read(f, next) && Holds(data, next, tail)
  {
    HoldsSplit(data, pos, Write(f), tail);
    ReadWritten(data, pos, f);
  }

  lemma KindsSplit(fs: seq<Field>)
    requires fs != []
    ensures Kinds(fs)[0] == KindOf(fs[0]) && Kinds(fs)[1..] == Kinds(fs[1..])
  {
  }

  /** Wherever they lie, written fields are read back, up to where they end. */
  lemma {:induction false} ReadAllWritten(data: seq<byte>, pos: nat, fs: seq<Field>)
    requires (forall f :: f in fs ==> Fits(f)) && Holds(data, pos, WriteAll(fs))
    ensures ReadAll(data, pos, Kinds(fs)) == Read(fs, pos + |WriteAll(fs)|)
    decreases |fs|
  {
    if fs == [] {
      assert Kinds(fs) == [];
    } else {
      var f, rest := fs[0], fs[1..];
      var next := pos + |Write(f)|;
      FirstWritten(data, pos, f, WriteAll(rest));
      ReadAllWritten(data, next, rest);
      KindsSplit(fs);
      ReadAllFirst(data, pos, Kinds(fs), Kinds(rest), f, next, rest, next + |WriteAll(rest)|);
      assert [f] + rest == fs;
    }
  }

  lemma ReadAllFirst(data: seq<byte>, pos: nat, kinds: seq<Kind>, tail: seq<Kind>, f: Field, next: nat,
      fs: seq<Field>, end: nat)
    requires pos <= |data| && next <= |data| && kinds != [] && kinds[1..] == tail
    requires ReadField(data, pos, kinds[0]) == Read(f, next) && ReadAll(data, next, tail) == Read(fs, end)
    ensures ReadAll(data, pos, kinds) == Read([f] + fs, end)
  {
  }

  lemma WriteRead(data: seq<byte>, pos: nat, kind: Kind)
    requires ReadField(data, pos, kind).Read?
    ensures var r := ReadField(data, pos, kind);
            KindOf(r.value) == kind && Fits(r.value) && Write(r.value) == data[pos..r.pos]
  {
    var r := ReadField(data, pos, kind);
    FromLe32Inverse(data[pos..pos + 4]);
    if kind == AStr {
      WithNul(data, pos, r.pos, r.value.text);
    }
  }

  lemma WithNul(data: seq<byte>, pos: nat, end: nat, text: seq<byte>)
    requires pos + 5 <= end <= |data| && text == data[pos + 4..end - 1] && data[end - 1] == 0
    ensures data[pos..end] == data[pos..pos + 4] + text + [0]
  {
  }

  lemma Join(data: seq<byte>, i: nat, j: nat, k: nat)
    requires i <= j <= k <= |data|
    ensures data[i..k] == data[i..j] + data[j..k]
  {
  }

  /** What was read is exactly what writing it again would give. */
  lemma {:induction false} WriteAllRead(data: seq<byte>, pos: nat, kinds: seq<Kind>)
    requires pos <= |data| && ReadAll(data, pos, kinds).Read?
    ensures var r := ReadAll(data, pos, kinds);
            && Kinds(r.value) == kinds
            && (forall f :: f in r.value ==> Fits(f))
            && WriteAll(r.value) == data[pos..r.pos]
    decreases |kinds|
  {
    if kinds != [] {
      var x := ReadField(data, pos, kinds[0]);
      WriteRead(data, pos, kinds[0]);
      WriteAllRead(data, x.pos, kinds[1..]);
      var xs := ReadAll(data, x.pos, kinds[1..]);
      var fs := [x.value] + xs.value;
      assert fs[1..] == xs.value;
      Join(data, pos, x.pos, xs.pos);
      assert Kinds(fs) == [kinds[0]] + kinds[1..];
    }
  }
}
