/** Frames of src/websock.c (sections 5.2 and 5.3 of RFC 6455): the header that is
    sent, the fields that are read back, and the masking of payloads. */
module Frames {
  import opened Bytes
  import opened Words

  const CONTINUATION: byte := 0x0
  const TEXT: byte := 0x1
  const BINARY: byte := 0x2
  const CLOSE: byte := 0x8
  const PING: byte := 0x9
  const PONG: byte := 0xA

  const MAX_LENGTH := 65000
  const MAX_HEAD := 14

  // ----- bit fields

  predicate Fin(b: byte) { b >= 0x80 }
  function Rsv(b: byte): nat { b / 16 % 8 }
  function Opcode(b: byte): byte { b % 16 }
  predicate Masked(b: byte) { b >= 0x80 }
  function PayLen(b: byte): nat { b % 128 }

  predicate Control(op: byte) {
    op == CLOSE || op == PING || op == PONG
  }

  // ----- sending

  function FirstByte(fin: bool, op: byte): byte
    requires op < 16
  {
    (if fin then 0x80 else 0) + op
  }

  /** Big-endian digits of a number: `n` bytes. */
  function BigEndian(size: nat, n: nat): (r: seq<byte>)
    ensures |r| == n
  {
    if n == 0 then [] else BigEndian(size / 256, n - 1) + [size % 256]
  }

  function FromBigEndian(b: seq<byte>): nat {
    if b == [] then 0 else 256 * FromBigEndian(b[..|b| - 1]) + b[|b| - 1] as int
  }

  lemma {:induction false} BigEndianInverse(size: nat, n: nat)
    requires size < Pow2(8 * n)
    ensures FromBigEndian(BigEndian(size, n)) == size
  {
    if n > 0 {
      Pow2Step(8 * (n - 1));
      BigEndianInverse(size / 256, n - 1);
      assert BigEndian(size, n)[..n - 1] == BigEndian(size / 256, n - 1);
    }
  }

  lemma Pow2Step(n: nat)
    ensures Pow2(n + 8) == 256 * Pow2(n)
  {
    assert Pow2(n + 2) == 4 * Pow2(n);
    assert Pow2(n + 4) == 16 * Pow2(n);
    assert Pow2(n + 6) == 64 * Pow2(n);
  }

  /** How many bytes extend the length. */
  function Width(size: nat): nat {
    if size < 126 then 0 else if size < 0x1_0000 then 2 else 8
  }

  /** The length bits of the second byte. */
  function Code(size: nat): (c: byte)
    ensures c < 128
  {
    if size < 126 then size else if size < 0x1_0000 then 126 else 127
  }

  /** The second byte and the extended length; `mask` is the mask bit. */
  function Lengths(size: nat, mask: bool): (r: seq<byte>)
    ensures |r| == 1 + Width(size)
  {
    [(if mask then 0x80 else 0) + Code(size)] + BigEndian(size, Width(size))
  }

  /** A whole header.  This end never masks: `key` is then empty. */
  function Header(first: byte, size: nat, key: seq<byte>): seq<byte>
    requires |key| == 0 || |key| == 4
  {
    [first] + Lengths(size, key != []) + key
  }

  // ----- reading

  /** Size of the header, known after two bytes. */
  function HeadSize(h0: byte, h1: byte): (sz: nat)
    ensures 2 <= sz <= 16
  {
    2 + (if Opcode(h0) == CLOSE && PayLen(h1) != 0 then 2 else 0)
      + (if PayLen(h1) == 127 then 8 else if PayLen(h1) == 126 then 2 else 0)
      + (if Masked(h1) then 4 else 0)
  }

  predicate ControlOk(h0: byte, h1: byte) {
    && Rsv(h0) == 0
    && PayLen(h1) <= 125
    && (Opcode(h0) == CLOSE ==> PayLen(h1) != 1)
  }

  /** The length field of a complete header. */
  function LengthField(h: seq<byte>): nat
    requires |h| >= 2 && |h| >= HeadSize(h[0], h[1])
  {
    if PayLen(h[1]) == 127 then FromBigEndian(h[2..10])
    else if PayLen(h[1]) == 126 then FromBigEndian(h[2..4])
    else PayLen(h[1])
  }

  const NO_MASK: seq<byte> := [0, 0, 0, 0]

  function MaskOf(h: seq<byte>): (r: seq<byte>)
    requires |h| >= 2 && |h| >= HeadSize(h[0], h[1])
    ensures |r| == 4
  {
    if Masked(h[1]) then h[|h| - 4..] else NO_MASK
  }

  // ----- the two are inverse

  lemma SecondByte(size: nat, mask: bool, b: byte)
    requires b == (if mask then 0x80 else 0) + Code(size)
    ensures Masked(b) == mask && PayLen(b) == Code(size)
  {
  }

  lemma LengthBytes(size: nat, mask: bool)
    requires size < Pow2(64)
    ensures var l := Lengths(size, mask);
            && Masked(l[0]) == mask
            && (PayLen(l[0]) == 127 ==> |l| == 9 && FromBigEndian(l[1..9]) == size)
            && (PayLen(l[0]) == 126 ==> |l| == 3 && FromBigEndian(l[1..3]) == size)
            && (PayLen(l[0]) < 126 ==> |l| == 1 && PayLen(l[0]) == size)
  {
    var l := Lengths(size, mask);
    SecondByte(size, mask, l[0]);
    if size >= 126 {
      Pow2Step(0);
      Pow2Step(8);
      Extended(size, Width(size), l[0], l);
    }
  }

  /** An extended length of `n` bytes behind the byte `b`. */
  lemma Extended(size: nat, n: nat, b: byte, l: seq<byte>)
    requires size < Pow2(8 * n) && l == [b] + BigEndian(size, n)
    ensures |l| == n + 1 && l[0] == b && FromBigEndian(l[1..n + 1]) == size
  {
    assert l[1..n + 1] == BigEndian(size, n);
    BigEndianInverse(size, n);
  }

  /** A header sent with any 64-bit size is read back: its own size, FIN, opcode,
      payload length and mask, whatever follows it. */
  lemma HeaderRoundTrip(fin: bool, op: byte, size: nat, key: seq<byte>)
    requires op < 16 && op != CLOSE && size < Pow2(64) && (|key| == 0 || |key| == 4)
    ensures var h := Header(FirstByte(fin, op), size, key);
            && |h| >= 2 && HeadSize(h[0], h[1]) == |h| <= 14
            && Fin(h[0]) == fin && Opcode(h[0]) == op && Rsv(h[0]) == 0
            && LengthField(h) == size
            && MaskOf(h) == (if key == [] then NO_MASK else key)
  {
    LengthBytes(size, key != []);
    FirstFields(fin, op);
    HeaderParts(FirstByte(fin, op), Lengths(size, key != []), size, key, Header(FirstByte(fin, op), size, key));
  }

  lemma FirstFields(fin: bool, op: byte)
    requires op < 16
    ensures var b := FirstByte(fin, op); Fin(b) == fin && Opcode(b) == op && Rsv(b) == 0
  {
  }

  /** The parts of a header, for any encoding `l` of its size. */
  lemma HeaderParts(first: byte, l: seq<byte>, size: nat, key: seq<byte>, h: seq<byte>)
    requires |l| > 0 && Opcode(first) != CLOSE && (|key| == 0 || |key| == 4) && h == [first] + l + key
    requires Masked(l[0]) == (key != [])
    requires PayLen(l[0]) == 127 ==> |l| == 9 && FromBigEndian(l[1..9]) == size
    requires PayLen(l[0]) == 126 ==> |l| == 3 && FromBigEndian(l[1..3]) == size
    requires PayLen(l[0]) < 126 ==> |l| == 1 && PayLen(l[0]) == size
    ensures |h| >= 2 && h[0] == first && HeadSize(h[0], h[1]) == |h| <= MAX_HEAD
    ensures LengthField(h) == size && MaskOf(h) == (if key == [] then NO_MASK else key)
  {
    assert h[1] == l[0];
    assert PayLen(l[0]) == 127 ==> h[2..10] == l[1..9];
    assert PayLen(l[0]) == 126 ==> h[2..4] == l[1..3];
    if key != [] {
      assert h[|h| - 4..] == key;
    }
  }

  // ----- masking

  function Rotate(mask: seq<byte>): (r: seq<byte>)
    requires |mask| == 4
    ensures |r| == 4
  {
    mask[1..] + [mask[0]]
  }

  /** Byte `i` of a key used over and over. */
  function KeyAt(mask: seq<byte>, i: nat): byte
    requires |mask| == 4
  {
    mask[i % 4]
  }

  function RotateBy(mask: seq<byte>, n: nat): (r: seq<byte>)
    requires |mask| == 4
    ensures |r| == 4
  {
    [KeyAt(mask, n), KeyAt(mask, n + 1), KeyAt(mask, n + 2), KeyAt(mask, n + 3)]
  }

  lemma KeyRotated(mask: seq<byte>, n: nat, i: nat)
    requires |mask| == 4
    ensures KeyAt(RotateBy(mask, n), i) == KeyAt(mask, n + i)
  {
    var k := i % 4;
    assert (n + k) % 4 == (n + i) % 4;
  }

  /** Section 5.3 of RFC 6455: byte i is combined with byte i mod 4 of the key. */
  function Unmask(s: seq<byte>, mask: seq<byte>): (r: seq<byte>)
    requires |mask| == 4
    ensures |r| == |s|
  {
    seq(|s|, i requires 0 <= i < |s| => Xor(s[i], KeyAt(mask, i)))
  }

  /** A payload taken in two pieces, with the mask rotated in between. */
  lemma UnmaskConcat(a: seq<byte>, b: seq<byte>, mask: seq<byte>)
    requires |mask| == 4
    ensures Unmask(a + b, mask) == Unmask(a, mask) + Unmask(b, RotateBy(mask, |a|))
  {
    forall i | 0 <= i < |b|
      ensures KeyAt(mask, |a| + i) == KeyAt(RotateBy(mask, |a|), i)
    {
      KeyRotated(mask, |a|, i);
    }
    var r := Unmask(a, mask) + Unmask(b, RotateBy(mask, |a|));
    forall i | 0 <= i < |a + b|
      ensures Unmask(a + b, mask)[i] == r[i]
    {
      if i >= |a| {
        assert r[i] == Xor(b[i - |a|], KeyAt(RotateBy(mask, |a|), i - |a|));
      }
    }
  }

  lemma RotateTwice(mask: seq<byte>, m: nat, n: nat)
    requires |mask| == 4
    ensures RotateBy(RotateBy(mask, m), n) == RotateBy(mask, m + n)
  {
    KeyRotated(mask, m, n);
    KeyRotated(mask, m, n + 1);
    KeyRotated(mask, m, n + 2);
    KeyRotated(mask, m, n + 3);
  }

  /** Masking is its own inverse. */
  lemma UnmaskTwice(s: seq<byte>, mask: seq<byte>)
    requires |mask| == 4
    ensures Unmask(Unmask(s, mask), mask) == s
  {
    forall i | 0 <= i < |s|
      ensures Xor(Xor(s[i], KeyAt(mask, i)), KeyAt(mask, i)) == s[i]
    {
      XorInvolution(s[i], KeyAt(mask, i));
    }
  }

  lemma UnmaskNone(s: seq<byte>)
    ensures Unmask(s, NO_MASK) == s
  {
    forall i | 0 <= i < |s|
      ensures Xor(s[i], KeyAt(NO_MASK, i)) == s[i]
    {
      XorNeutral(s[i]);
    }
  }

  // ----- in place

  /** The first `i` bytes are done, the others untouched. */
  ghost predicate Progress(now: seq<byte>, was: seq<byte>, i: int, mask: seq<byte>)
    requires |mask| == 4
  {
    && 0 <= i <= |now| == |was|
    && (forall k :: 0 <= k < i ==> now[k] == Xor(was[k], KeyAt(mask, k)))
    && (forall k :: i <= k < |was| ==> now[k] == was[k])
  }

  lemma ProgressByte(now: seq<byte>, was: seq<byte>, i: int, mask: seq<byte>)
    requires |mask| == 4 && Progress(now, was, i, mask) && i < |now|
    ensures Progress(now[i := Xor(now[i], KeyAt(mask, i))], was, i + 1, mask)
  {
  }

  lemma ProgressDone(now: seq<byte>, was: seq<byte>, mask: seq<byte>)
    requires |mask| == 4 && Progress(now, was, |now|, mask)
    ensures now == Unmask(was, mask)
  {
  }

  lemma RotateStep(mask: seq<byte>, n: nat)
    requires |mask| == 4
    ensures Rotate(RotateBy(mask, n)) == RotateBy(mask, n + 1)
    ensures RotateBy(mask, n)[0] == KeyAt(mask, n)
  {
    assert (n + 4) % 4 == n % 4;
  }

  lemma RotateWord(mask: seq<byte>, n: nat)
    requires |mask| == 4
    ensures RotateBy(mask, n + 4) == RotateBy(mask, n)
    ensures RotateBy(mask, 0) == mask
  {
    assert (n + 4) % 4 == n % 4 && (n + 5) % 4 == (n + 1) % 4 && (n + 6) % 4 == (n + 2) % 4 &&
           (n + 7) % 4 == (n + 3) % 4;
  }

  method UnmaskByte(a: array<byte>, i: nat, m: byte)
    requires i < a.Length
    modifies a
    ensures a[..] == old(a[..])[i := Xor(old(a[i]), m)]
  {
    a[i] := Xor(a[i], m);
  }

  /** One 32-bit word, as its four bytes lie in memory. */
  method UnmaskWord(a: array<byte>, i: nat, ghost mask0: seq<byte>, mask: seq<byte>, ghost was: seq<byte>)
    requires |mask0| == 4 && mask == RotateBy(mask0, i) && i + 4 <= a.Length
    requires Progress(a[..], was, i, mask0)
    modifies a
    ensures Progress(a[..], was, i + 4, mask0)
  {
    ghost var now := a[..];
    var b := [a[i], a[i + 1], a[i + 2], a[i + 3]];
    WordXor(b, mask);
    FromLe32Inverse([Xor(b[0], mask[0]), Xor(b[1], mask[1]), Xor(b[2], mask[2]), Xor(b[3], mask[3])]);
    var word := Le32(XorWord(FromLe32(b), FromLe32(mask)));
    a[i], a[i + 1], a[i + 2], a[i + 3] := word[0], word[1], word[2], word[3];
    ProgressWord(now, was, i, mask0, mask, a[..]);
  }

  lemma ProgressWord(now: seq<byte>, was: seq<byte>, i: nat, mask0: seq<byte>, mask: seq<byte>, next: seq<byte>)
    requires |mask0| == 4 && mask == RotateBy(mask0, i) && i + 4 <= |now| && Progress(now, was, i, mask0)
    requires |next| == |now| && forall k :: 0 <= k < |now| && !(i <= k < i + 4) ==> next[k] == now[k]
    requires forall k :: 0 <= k < 4 ==> next[i + k] == Xor(now[i + k], mask[k])
    ensures Progress(next, was, i + 4, mask0)
  {
    forall k | i <= k < i + 4
      ensures next[k] == Xor(was[k], KeyAt(mask0, k))
    {
      assert next[i + (k - i)] == Xor(now[i + (k - i)], mask[k - i]);
    }
  }

  /** The second loop of unmask(): whole words, the mask does not turn. */
  method UnmaskWords(a: array<byte>, from: nat, ghost mask0: seq<byte>, mask: seq<byte>, ghost was: seq<byte>)
      returns (i: nat)
    requires |mask0| == 4 && mask == RotateBy(mask0, from)
    requires Progress(a[..], was, from, mask0)
    modifies a
    ensures a.Length - i < 4 && Progress(a[..], was, i, mask0) && mask == RotateBy(mask0, i)
  {
    i := from;
    while a.Length - i >= 4
      invariant Progress(a[..], was, i, mask0) && mask == RotateBy(mask0, i)
    {
      UnmaskWord(a, i, mask0, mask, was);
      RotateWord(mask0, i);
      i := i + 4;
    }
  }

  /** The first and the third loop: single bytes, the mask turns at each of them;
      up to the first aligned address, or to the end. */
  method UnmaskBytes(a: array<byte>, from: nat, address: nat, align: bool, ghost mask0: seq<byte>, m: seq<byte>,
      ghost was: seq<byte>)
    returns (i: nat, mask: seq<byte>)
    requires |mask0| == 4 && m == RotateBy(mask0, from)
    requires Progress(a[..], was, from, mask0)
    modifies a
    ensures Progress(a[..], was, i, mask0) && mask == RotateBy(mask0, i)
    ensures i == a.Length || (align && (address + i) % 4 == 0)
  {
    i, mask := from, m;
    while i < a.Length && !(align && (address + i) % 4 == 0)
      invariant Progress(a[..], was, i, mask0) && mask == RotateBy(mask0, i)
    {
      ProgressByte(a[..], was, i, mask0);
      RotateStep(mask0, i);
      UnmaskByte(a, i, mask[0]);
      mask := Rotate(mask);
      i := i + 1;
    }
  }

  /** unmask(): bytes up to the first address that is a multiple of four, then
      whole words, then the remaining bytes.  `address` is that of the buffer. */
  method UnmaskInPlace(a: array<byte>, address: nat, mask0: seq<byte>) returns (mask: seq<byte>)
    requires |mask0| == 4
    modifies a
    ensures a[..] == Unmask(old(a[..]), mask0)
    ensures mask == RotateBy(mask0, a.Length)
  {
    ghost var was := a[..];
    RotateWord(mask0, 0);
    var i;
    i, mask := UnmaskBytes(a, 0, address, true, mask0, mask0, was);
    i := UnmaskWords(a, i, mask0, mask, was);
    i, mask := UnmaskBytes(a, i, address, false, mask0, mask, was);
    ProgressDone(a[..], was, mask0);
  }
}
