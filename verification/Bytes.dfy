// Octets, and numbers written in network byte order.
module Bytes {

  type byte = b: int | 0 <= b < 256

  // Exclusive or of the `bits` low-order bits of two numbers.
  function XorBits(a: nat, b: nat, bits: nat): (r: nat)
    ensures r < Pow2(bits)
  {
    if bits == 0 then 0
    else (if a % 2 == b % 2 then 0 else 1) + 2 * XorBits(a / 2, b / 2, bits - 1)
  }

  function Pow2(n: nat): (p: nat)
    ensures p > 0
  {
    if n == 0 then 1 else 2 * Pow2(n - 1)
  }

  function Xor(a: byte, b: byte): byte {
    assert Pow2(8) == 256;
    XorBits(a, b, 8)
  }

  lemma Halves(low: nat, high: nat)
    requires low < 2
    ensures (low + 2 * high) % 2 == low && (low + 2 * high) / 2 == high
  {
  }

  lemma {:induction false} XorBitsTwice(a: nat, b: nat, bits: nat)
    requires a < Pow2(bits)
    ensures XorBits(XorBits(a, b, bits), b, bits) == a
  {
    if bits > 0 {
      var low := if a % 2 == b % 2 then 0 else 1;
      var high := XorBits(a / 2, b / 2, bits - 1);
      Halves(low, high);
      XorBitsTwice(a / 2, b / 2, bits - 1);
    }
  }

  // Dividing by a power of two and then by 2.
  lemma HalvedQuotient(n: nat, p: nat)
    requires p in {1, 2, 4, 8, 16, 32, 64, 128}
    ensures n / p / 2 == n / (2 * p)
  {
    if p == 1 {
    } else if p == 2 {
      assert n / 2 / 2 == n / 4;
    } else if p == 4 {
      assert n / 4 / 2 == n / 8;
    } else if p == 8 {
      assert n / 8 / 2 == n / 16;
    } else if p == 16 {
      assert n / 16 / 2 == n / 32;
    } else if p == 32 {
      assert n / 32 / 2 == n / 64;
    } else if p == 64 {
      assert n / 64 / 2 == n / 128;
    } else {
      assert n / 128 / 2 == n / 256;
    }
  }

  // 1 if the bit of value `p` is set in one of the two numbers and not in both.
  function OddBit(a: nat, b: nat, p: nat): nat
    requires p > 0
  {
    if a / p % 2 != b / p % 2 then 1 else 0
  }

  lemma XorStep(a: nat, b: nat, bits: nat, p: nat)
    requires p in {1, 2, 4, 8, 16, 32, 64, 128} && bits > 0
    ensures XorBits(a / p, b / p, bits) == OddBit(a, b, p) + 2 * XorBits(a / (2 * p), b / (2 * p), bits - 1)
  {
    HalvedQuotient(a, p);
    HalvedQuotient(b, p);
  }

  lemma XorFour(a: nat, b: nat, bits: nat, p: nat)
    requires p in {1, 16} && bits >= 4
    ensures XorBits(a / p, b / p, bits) ==
            OddBit(a, b, p) + 2 * OddBit(a, b, 2 * p) + 4 * OddBit(a, b, 4 * p) + 8 * OddBit(a, b, 8 * p) +
            16 * XorBits(a / (16 * p), b / (16 * p), bits - 4)
  {
    hide XorBits, OddBit;
    XorStep(a, b, bits, p);
    XorStep(a, b, bits - 1, 2 * p);
    XorStep(a, b, bits - 2, 4 * p);
    XorStep(a, b, bits - 3, 8 * p);
  }

  // The exclusive or of two octets, bit by bit.
  lemma XorOctets(a: byte, b: byte)
    ensures Xor(a, b) ==
            OddBit(a, b, 1) + 2 * OddBit(a, b, 2) + 4 * OddBit(a, b, 4) + 8 * OddBit(a, b, 8) +
            16 * OddBit(a, b, 16) + 32 * OddBit(a, b, 32) + 64 * OddBit(a, b, 64) + 128 * OddBit(a, b, 128)
  {
    assert Xor(a, b) == XorBits(a / 1, b / 1, 8) && XorBits(a / 256, b / 256, 0) == 0;
    hide XorBits, Xor, OddBit;
    XorFour(a, b, 8, 1);
    XorFour(a, b, 4, 16);
  }

  // Masking twice with the same octet restores the original.
  lemma XorTwice(a: byte, b: byte)
    ensures Xor(Xor(a, b), b) == a
  {
    assert Pow2(8) == 256;
    XorBitsTwice(a, b, 8);
  }

  lemma {:induction false} XorZero(a: nat, bits: nat)
    requires a < Pow2(bits)
    ensures XorBits(a, 0, bits) == a
  {
    if bits > 0 {
      XorZero(a / 2, bits - 1);
    }
  }

  lemma XorNothing(a: byte)
    ensures Xor(a, 0) == a
  {
    assert Pow2(8) == 256;
    XorZero(a, 8);
  }

  function Pow256(n: nat): (p: nat)
    ensures p > 0
  {
    if n == 0 then 1 else 256 * Pow256(n - 1)
  }

  // The `width` low-order octets of `n`, most significant first.
  function BigEndian(n: nat, width: nat): (s: seq<byte>)
    ensures |s| == width
  {
    if width == 0 then [] else BigEndian(n / 256, width - 1) + [n % 256]
  }

  function FromBigEndian(s: seq<byte>): nat {
    if s == [] then 0 else 256 * FromBigEndian(s[..|s| - 1]) + s[|s| - 1]
  }

  lemma {:induction false} BigEndianRoundTrip(n: nat, width: nat)
    requires n < Pow256(width)
    ensures FromBigEndian(BigEndian(n, width)) == n
  {
    if width > 0 {
      FewerOctets(n, Pow256(width - 1));
      BigEndianRoundTrip(n / 256, width - 1);
      LastOctet(BigEndian(n / 256, width - 1), n % 256);
    }
  }

  lemma LastOctet(front: seq<byte>, last: byte)
    ensures FromBigEndian(front + [last]) == 256 * FromBigEndian(front) + last
  {
    assert (front + [last])[..|front|] == front;
  }

  lemma FewerOctets(n: nat, limit: nat)
    requires n < 256 * limit
    ensures n / 256 < limit && n == 256 * (n / 256) + n % 256
  {
  }

  // Several pieces of octets as one.
  function Flatten(pieces: seq<seq<byte>>): seq<byte> {
    if pieces == [] then [] else Flatten(pieces[..|pieces| - 1]) + pieces[|pieces| - 1]
  }

  lemma {:induction false} FlattenSplit(pieces: seq<seq<byte>>, k: nat)
    requires k <= |pieces|
    ensures Flatten(pieces) == Flatten(pieces[..k]) + Flatten(pieces[k..])
    decreases |pieces|
  {
    if k == |pieces| {
      assert pieces[..k] == pieces;
    } else {
      var front := pieces[..|pieces| - 1];
      FlattenSplit(front, k);
      assert front[..k] == pieces[..k];
      assert pieces[k..][..|pieces| - k - 1] == front[k..];
    }
  }

  function Ascii(s: string): seq<byte> {
    seq(|s|, i requires 0 <= i < |s| => s[i] as int % 256)
  }

  lemma AsciiConcat(s: string, t: string)
    ensures Ascii(s + t) == Ascii(s) + Ascii(t)
  {
  }

  lemma Slices(a: seq<byte>, b: seq<byte>, c: seq<byte>)
    ensures var s := a + b + c;
      s[..|a|] == a && s[|a|..|a + b|] == b && s[|a + b|..] == c
  {
  }
}
