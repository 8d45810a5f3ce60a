/** Exclusive or of 32-bit words, and of the bytes they are made of. */
module Words {
  import opened Bytes

  lemma EvenPart(a: nat, m: nat)
    ensures (a + 2 * m) / 2 == a / 2 + m && (a + 2 * m) % 2 == a % 2
  {
  }

  lemma TwiceProduct(q: nat, x: nat)
    ensures (2 * q) * x == 2 * (q * x)
  {
  }

  /** The low `k` bits and the others do not mix. */
  lemma {:induction false} XorSplit(a: nat, b: nat, k: nat, c: nat, d: nat, n: nat)
    requires a < Pow2(k) && b < Pow2(k)
    ensures XorBits(a + Pow2(k) * c, b + Pow2(k) * d, k + n) == XorBits(a, b, k) + Pow2(k) * XorBits(c, d, n)
  {
    if k > 0 {
      var q := Pow2(k - 1);
      XorSplit(a / 2, b / 2, k - 1, c, d, n);
      TwiceProduct(q, c);
      TwiceProduct(q, d);
      TwiceProduct(q, XorBits(c, d, n));
      EvenPart(a, q * c);
      EvenPart(b, q * d);
      SameParity(a, b, q * c, q * d);
      XorUnfold(a + Pow2(k) * c, b + Pow2(k) * d, k + n);
      XorUnfold(a, b, k);
    }
  }

  lemma SameParity(a: nat, b: nat, x: nat, y: nat)
    ensures ((a + 2 * x) + (b + 2 * y)) % 2 == (a + b) % 2
  {
  }

  lemma XorUnfold(a: nat, b: nat, n: nat)
    requires n > 0
    ensures XorBits(a, b, n) == (a + b) % 2 + 2 * XorBits(a / 2, b / 2, n - 1)
  {
  }

  /** `*b32 ^= mask` on words. */
  function XorWord(a: nat, b: nat): nat {
    XorBits(a, b, 32)
  }

  /** One byte of a word. */
  lemma LowByte(x: byte, y: byte, c: nat, d: nat, n: nat, r: nat)
    requires r == XorBits(c, d, n)
    ensures XorBits(x + 256 * c, y + 256 * d, 8 + n) == Xor(x, y) + 256 * r
  {
    Pow8();
    XorSplit(x, y, 8, c, d, n);
  }

  /** The exclusive or of two words is that of their bytes. */
  lemma WordXor(x: seq<byte>, m: seq<byte>)
    requires |x| == 4 && |m| == 4
    ensures XorWord(FromLe32(x), FromLe32(m)) ==
            FromLe32([Xor(x[0], m[0]), Xor(x[1], m[1]), Xor(x[2], m[2]), Xor(x[3], m[3])])
  {
    var x0: int, x1: int, x2: int, x3: int := x[0], x[1], x[2], x[3];
    var m0: int, m1: int, m2: int, m3: int := m[0], m[1], m[2], m[3];
    LowByte(x[3], m[3], 0, 0, 0, 0);
    var r3 := XorBits(x3, m3, 8);
    LowByte(x[2], m[2], x3, m3, 8, r3);
    var r2 := XorBits(x2 + 256 * x3, m2 + 256 * m3, 16);
    LowByte(x[1], m[1], x2 + 256 * x3, m2 + 256 * m3, 16, r2);
    var r1 := XorBits(x1 + 256 * (x2 + 256 * x3), m1 + 256 * (m2 + 256 * m3), 24);
    LowByte(x[0], m[0], x1 + 256 * (x2 + 256 * x3), m1 + 256 * (m2 + 256 * m3), 24, r1);
    assert FromLe32(x) == x0 + 256 * (x1 + 256 * (x2 + 256 * x3));
    assert FromLe32(m) == m0 + 256 * (m1 + 256 * (m2 + 256 * m3));
  }
}
