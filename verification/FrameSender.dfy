/** The sending side of src/websock.c. */
module FrameSender {
  import opened Bytes
  import opened Frames

  const IOV_MAX := 32

  /** FRAME_SET_LENGTH: one byte of a number, by shifting. */
  function Shifted(size: nat, i: nat): byte {
    Shift(size, i) % 256
  }

  function Shift(size: nat, i: nat): nat {
    if i == 0 then size else Shift(size / 256, i - 1)
  }

  /** The i-th shifted byte is the i-th big-endian digit from the end. */
  lemma {:induction false} ShiftedDigit(size: nat, n: nat, i: nat)
    requires i < n
    ensures BigEndian(size, n)[n - 1 - i] == Shifted(size, i)
  {
    if i > 0 {
      ShiftedDigit(size / 256, n - 1, i - 1);
    }
  }

  function Total(pieces: seq<seq<byte>>): seq<byte> {
    if pieces == [] then [] else Total(pieces[..|pieces| - 1]) + pieces[|pieces| - 1]
  }

  /** How many bytes come before the piece `k`. */
  function Offset(pieces: seq<seq<byte>>, k: nat): nat
    requires k <= |pieces|
  {
    if k == 0 then 0 else Offset(pieces, k - 1) + |pieces[k - 1]|
  }

  lemma {:induction false} OffsetWithin(pieces: seq<seq<byte>>, before: seq<seq<byte>>, k: nat)
    requires k <= |before| <= |pieces| && before == pieces[..|before|]
    ensures Offset(pieces, k) == Offset(before, k)
  {
    if k > 0 {
      OffsetWithin(pieces, before, k - 1);
    }
  }

  /** All the bytes of each piece, in order, and nothing else. */
  lemma {:induction false} PiecesInOrder(pieces: seq<seq<byte>>, k: nat, i: nat)
    requires k < |pieces| && i < |pieces[k]|
    ensures |Total(pieces)| == Offset(pieces, |pieces|)
    ensures Offset(pieces, k) + i < |Total(pieces)| && Total(pieces)[Offset(pieces, k) + i] == pieces[k][i]
    decreases |pieces|
  {
    var n := |pieces| - 1;
    var before := pieces[..n];
    TotalSize(before);
    OffsetWithin(pieces, before, n);
    if k < n {
      PiecesInOrder(before, k, i);
      OffsetWithin(pieces, before, k);
    }
  }

  lemma {:induction false} TotalSize(pieces: seq<seq<byte>>)
    ensures |Total(pieces)| == Offset(pieces, |pieces|)
    decreases |pieces|
  {
    if pieces != [] {
      TotalSize(pieces[..|pieces| - 1]);
      OffsetWithin(pieces, pieces[..|pieces| - 1], |pieces| - 1);
    }
  }

  /** websock_send_internal_v: the pieces that are not empty, after their header. */
  method SendV(first: byte, pieces: seq<seq<byte>>) returns (ok: bool, sent: seq<byte>)
    ensures ok == (|pieces| + 1 <= 32)
    ensures ok ==> sent == Header(first, |Total(pieces)|, []) + Total(pieces)
  {
    sent := [];
    if |pieces| + 1 > IOV_MAX {
      return false, [];
    }
    var size, j := 0, 0;
    var body: seq<byte> := [];
    while j < |pieces|
      invariant 0 <= j <= |pieces|
      invariant body == Total(pieces[..j]) && size == |body|
    {
      var len := |pieces[j]|;
      assert pieces[..j + 1][..j] == pieces[..j];
      if len != 0 {
        body := body + pieces[j];
        size := size + len;
      } else {
        assert body + pieces[j] == body;
      }
      j := j + 1;
    }
    assert pieces[..j] == pieces;
    var header := MakeHeader(first, size);
    ok, sent := true, header + body;
  }

  /** The header, byte after byte. */
  method MakeHeader(first: byte, size: nat) returns (header: seq<byte>)
    ensures header == Header(first, size, [])
  {
    var second, n := 127, 8;
    if size < 126 {
      second, n := size, 0;
    } else if size < 0x1_0000 {
      second, n := 126, 2;
    }
    var digits := Digits(size, n);
    header := [first] + ([second] + digits);
    assert header + [] == header;
  }

  /** The bytes of an extended length, the highest first. */
  method Digits(size: nat, n: nat) returns (r: seq<byte>)
    ensures r == BigEndian(size, n)
  {
    r := [];
    var i := n;
    while i > 0
      invariant 0 <= i <= n
      invariant r == BigEndian(size, n)[..n - i]
    {
      i := i - 1;
      ShiftedDigit(size, n, i);
      assert BigEndian(size, n)[..n - i] == BigEndian(size, n)[..n - i - 1] + [Shifted(size, i)];
      r := r + [Shifted(size, i)];
    }
    assert BigEndian(size, n)[..n] == BigEndian(size, n);
  }
}
