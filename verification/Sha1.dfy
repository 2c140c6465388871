// SHA-1 as RFC 3174 defines it.
module Sha1 {
  import opened Bytes

  // The registers A to E, and the words H0 to H4.
  datatype State = State(a: bv32, b: bv32, c: bv32, d: bv32, e: bv32)

  const INITIAL := State(0x67452301, 0xEFCDAB89, 0x98BADCFE, 0x10325476, 0xC3D2E1F0)

  // S^n, section 3.
  function Rotated(n: bv6, w: bv32): bv32
    requires n <= 32
  {
    (w << n) | (w >> (32 - n))
  }

  // Addition modulo 2^32, section 2.
  function Plus(a: bv32, b: bv32): bv32 {
    a + b
  }

  function Choice(b: bv32, c: bv32, d: bv32): bv32 {
    (b & c) | (!b & d)
  }

  function Parity(b: bv32, c: bv32, d: bv32): bv32 {
    b ^ c ^ d
  }

  function Majority(b: bv32, c: bv32, d: bv32): bv32 {
    (b & c) | (b & d) | (c & d)
  }

  // f(t;B,C,D), section 5.
  function F(t: nat, b: bv32, c: bv32, d: bv32): bv32 {
    if t < 20 then Choice(b, c, d)
    else if t < 40 then Parity(b, c, d)
    else if t < 60 then Majority(b, c, d)
    else Parity(b, c, d)
  }

  // K(t), section 5.
  function K(t: nat): bv32 {
    if t < 20 then 0x5A827999 else if t < 40 then 0x6ED9EBA1 else if t < 60 then 0x8F1BBCDC else 0xCA62C1D6
  }

  predicate IsBlock(block: seq<byte>) {
    |block| == 64
  }

  function WordOf(a: byte, b: byte, c: byte, d: byte): bv32 {
    ((a as bv32) << 24) | ((b as bv32) << 16) | ((c as bv32) << 8) | (d as bv32)
  }

  function Mixed(a: bv32, b: bv32, c: bv32, d: bv32): bv32 {
    Rotated(1, a ^ b ^ c ^ d)
  }

  // The word W(t) of a block, section 6.1 (a) and (b).
  function W(block: seq<byte>, t: nat): bv32
    requires IsBlock(block) && t < 80
  {
    if t < 16 then WordOf(block[4 * t], block[4 * t + 1], block[4 * t + 2], block[4 * t + 3])
    else Mixed(W(block, t - 3), W(block, t - 8), W(block, t - 14), W(block, t - 16))
  }

  // Step (d) for one t.
  function Round(t: nat, s: State, w: bv32): State {
    State(Plus(Plus(Plus(Plus(Rotated(5, s.a), F(t, s.b, s.c, s.d)), s.e), w), K(t)), s.a, Rotated(30, s.b), s.c, s.d)
  }

  // The registers before step t.
  function Rounds(h: State, block: seq<byte>, t: nat): State
    requires IsBlock(block) && t <= 80
  {
    if t == 0 then h else Round(t - 1, Rounds(h, block, t - 1), W(block, t - 1))
  }

  function Sum(h: State, s: State): State {
    State(Plus(h.a, s.a), Plus(h.b, s.b), Plus(h.c, s.c), Plus(h.d, s.d), Plus(h.e, s.e))
  }

  // Steps (a) to (e) for one block.
  function Compress(h: State, block: seq<byte>): State
    requires IsBlock(block)
  {
    Sum(h, Rounds(h, block, 80))
  }

  predicate IsBlocks(s: seq<byte>) {
    |s| % 64 == 0
  }

  // All blocks of `s`, one after the other.
  function Fold(h: State, s: seq<byte>): State
    requires IsBlocks(s)
  {
    if s == [] then h
    else Compress(Fold(h, s[..|s| - 64]), s[|s| - 64..])
  }

  lemma {:induction false} FoldConcat(h: State, a: seq<byte>, b: seq<byte>)
    requires IsBlocks(a) && IsBlocks(b)
    ensures IsBlocks(a + b) && Fold(h, a + b) == Fold(Fold(h, a), b)
    decreases |b|
  {
    if b == [] {
      assert a + b == a;
    } else {
      var front := b[..|b| - 64];
      assert (a + b)[..|a + b| - 64] == a + front;
      assert (a + b)[|a + b| - 64..] == b[|b| - 64..];
      FoldConcat(h, a, front);
    }
  }

  lemma FoldOne(h: State, block: seq<byte>)
    requires IsBlock(block)
    ensures Fold(h, block) == Compress(h, block)
  {
    assert block[..0] == [] && block[0..] == block;
  }

  // --- Padding, section 4 ----------------------------------------------------------

  function Zeros(n: nat): (s: seq<byte>)
    ensures |s| == n
  {
    seq(n, _ => 0)
  }

  // How many zeros follow the octet 0x80 if `n` octets came before it.
  function ZerosAfter(n: nat): (k: nat)
    ensures k < 64 && (n + 1 + k) % 64 == 56
  {
    (119 - n % 64) % 64
  }

  lemma FillUp(n: nat, k: nat)
    requires (n + 1 + k) % 64 == 56
    ensures (n + 9 + k) % 64 == 0
  {
  }

  // The padded message is the shortest run of whole blocks with room for the
  // octet 0x80 and the length.
  function Pad(message: seq<byte>): (p: seq<byte>)
    ensures IsBlocks(p) && |message| + 9 <= |p| < |message| + 9 + 64
  {
    var zeros := ZerosAfter(|message|);
    FillUp(|message|, zeros);
    message + [0x80] + Zeros(zeros) + BigEndian(8 * |message|, 8)
  }

  // No two messages share a padded form.
  lemma PadInjective(m: seq<byte>, n: seq<byte>)
    requires 8 * |m| < Pow256(8) && 8 * |n| < Pow256(8) && Pad(m) == Pad(n)
    ensures m == n
  {
    var p := Pad(m);
    assert p[|p| - 8..] == BigEndian(8 * |m|, 8);
    assert p[|p| - 8..] == BigEndian(8 * |n|, 8);
    BigEndianRoundTrip(8 * |m|, 8);
    BigEndianRoundTrip(8 * |n|, 8);
    assert m == p[..|m|] == p[..|n|] == n;
  }

  // Word number `k` of H0 to H4.
  function WordOfState(h: State, k: nat): bv32
    requires k < 5
  {
    if k == 0 then h.a else if k == 1 then h.b else if k == 2 then h.c else if k == 3 then h.d else h.e
  }

  // Octet number `k` of a word, the most significant one first.
  function OctetOf(w: bv32, k: nat): byte
    requires k < 4
  {
    var shift: bv6 := if k == 0 then 24 else if k == 1 then 16 else if k == 2 then 8 else 0;
    ((w >> shift) & 0xFF) as bv8 as int
  }

  function OctetsOf(h: State): (s: seq<byte>)
    ensures |s| == 20
  {
    seq(20, i requires 0 <= i < 20 => OctetOf(WordOfState(h, i / 4), i % 4))
  }

  // The message digest, section 6.1.
  function Digest(message: seq<byte>): (s: seq<byte>)
    ensures |s| == 20
  {
    OctetsOf(Fold(INITIAL, Pad(message)))
  }
}
