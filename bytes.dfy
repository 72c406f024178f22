/** Bytes as the values of a Uint8Array, the bitwise XOR of two bytes, and the
    unsigned big-endian integers of the `readShort`, `readLong` and
    `sliceLongToBytes` helpers the frame codec relies on. */
module Bytes {

  /** One element of a Uint8Array. */
  type Byte = x: int | 0 <= x < 256

  /** 2^n, the number of values of n bits. */
  function Pow2(n: nat): (p: nat)
    ensures p >= 1
  {
    if n == 0 then 1 else 2 * Pow2(n - 1)
  }

  /** 256^w, the number of values of w bytes. */
  function Pow256(w: nat): (p: nat)
    ensures p >= 1
  {
    if w == 0 then 1 else 256 * Pow256(w - 1)
  }

  lemma {:induction false} Pow2Add(a: nat, b: nat)
    ensures Pow2(a + b) == Pow2(a) * Pow2(b)
  {
    if a > 0 {
      Pow2Add(a - 1, b);
    }
  }

  /** w bytes hold exactly the values of 8 * w bits. */
  lemma {:induction false} Pow256IsPow2(w: nat)
    ensures Pow256(w) == Pow2(8 * w)
  {
    if w > 0 {
      Pow256IsPow2(w - 1);
      Pow2Add(8, 8 * (w - 1));
      assert Pow2(8) == 256;
    }
  }

  // ------------------------------------------------------------------- XOR

  /** The XOR of the low `n` bits of `a` and `b`, bit by bit from the lowest. */
  function XorBits(a: nat, b: nat, n: nat): (r: nat)
    ensures r < Pow2(n)
  {
    if n == 0 then 0 else XorBit(a, b) + 2 * XorBits(a / 2, b / 2, n - 1)
  }

  /** The XOR of the lowest bits of `a` and `b`. */
  function XorBit(a: nat, b: nat): nat {
    if a % 2 == b % 2 then 0 else 1
  }

  /** `a ^ b` on two bytes. */
  function Xor(a: Byte, b: Byte): Byte {
    assert Pow2(8) == 256;
    XorBits(a, b, 8)
  }

  /** The low `n` bits of `a`, rebuilt bit by bit from the lowest. */
  function LowBits(a: nat, n: nat): nat {
    if n == 0 then 0 else a % 2 + 2 * LowBits(a / 2, n - 1)
  }

  /** A value with at most `n` bits is its own low `n` bits. */
  lemma {:induction false} LowBitsOfSmall(a: nat, n: nat)
    requires a < Pow2(n)
    ensures LowBits(a, n) == a
  {
    if n > 0 {
      LowBitsOfSmall(a / 2, n - 1);
    }
  }

  /** XOR-ing twice with the same bits gives back the low bits. */
  lemma {:induction false} XorBitsTwice(a: nat, b: nat, n: nat)
    ensures XorBits(XorBits(a, b, n), b, n) == LowBits(a, n)
  {
    if n > 0 {
      var y := XorBits(a / 2, b / 2, n - 1);
      var x := XorBits(a, b, n);
      assert x == XorBit(a, b) + 2 * y;
      assert x % 2 == XorBit(a, b) && x / 2 == y;
      assert XorBit(x, b) == a % 2;
      XorBitsTwice(a / 2, b / 2, n - 1);
    }
  }

  /** XOR with the same byte is its own inverse. */
  lemma XorTwice(a: Byte, b: Byte)
    ensures Xor(Xor(a, b), b) == a
  {
    XorBitsTwice(a, b, 8);
    assert Pow2(8) == 256;
    LowBitsOfSmall(a, 8);
  }

  // ----------------------------------------------------------- big-endian

  /** The low `w` bytes of `n`, most significant first (so `n` is taken modulo 256^w). */
  function BigEndian(n: nat, w: nat): (bs: seq<Byte>)
    ensures |bs| == w
  {
    if w == 0 then [] else BigEndian(n / 256, w - 1) + [n % 256]
  }

  /** The value of a big-endian byte sequence. */
  function FromBigEndian(bs: seq<Byte>): (n: nat)
    ensures n < Pow256(|bs|)
  {
    if bs == [] then 0
    else FromBigEndian(bs[..|bs| - 1]) * 256 + bs[|bs| - 1]
  }

  lemma DivBound(n: nat, p: nat)
    requires n < 256 * p
    ensures n / 256 < p
  {
  }

  /** A value below 256^w round-trips through BigEndian and FromBigEndian. */
  lemma {:induction false} BigEndianRoundTrip(n: nat, w: nat)
    requires n < Pow256(w)
    ensures FromBigEndian(BigEndian(n, w)) == n
  {
    if w > 0 {
      var bs := BigEndian(n, w);
      assert bs[..|bs| - 1] == BigEndian(n / 256, w - 1);
      DivBound(n, Pow256(w - 1));
      BigEndianRoundTrip(n / 256, w - 1);
      assert FromBigEndian(bs) == (n / 256) * 256 + n % 256;
    }
  }
}
