// The incremental SHA-1 of websocket_threaded_example.c: what each call does to a
// context, and the class that does it in place.
module Sha1Context {
  import opened Bytes
  import opened Sha1

  const WORD := 0x1_0000_0000

  // --- A context as a value ----------------------------------------------------------

  // `block` holds the octets that wait for the rest of their block.
  datatype Context = Context(
    hash: State, block: seq<byte>, lengthLow: nat, lengthHigh: nat, computed: bool, corrupted: bool)

  const NEW := Context(INITIAL, [], 0, 0, false, false)

  // The block is compressed as soon as it is full.
  function Stored(c: Context, b: byte): Context
    requires |c.block| < 64
  {
    var block := c.block + [b];
    if |block| == 64 then c.(hash := Compress(c.hash, block), block := []) else c.(block := block)
  }

  // The 64-bit counter of message bits, in two halves.
  function Counted(c: Context): Context {
    var low := (c.lengthLow + 8) % WORD;
    var high := if low == 0 then (c.lengthHigh + 1) % WORD else c.lengthHigh;
    c.(lengthLow := low, lengthHigh := high, corrupted := low == 0 && high == 0)
  }

  // One octet of the message; nothing more is taken once the counter is exhausted.
  function Taken(c: Context, b: byte): (c': Context)
    requires |c.block| < 64
    ensures |c'.block| < 64
  {
    if c.corrupted then c else Counted(Stored(c, b))
  }

  function TakenAll(c: Context, s: seq<byte>): (c': Context)
    requires |c.block| < 64
    ensures |c'.block| < 64
  {
    if s == [] then c else Taken(TakenAll(c, s[..|s| - 1]), s[|s| - 1])
  }

  // SHA1Input
  function AfterInput(c: Context, s: seq<byte>): (c': Context)
    requires |c.block| < 64
    ensures |c'.block| < 64
  {
    if s == [] then c
    else if c.computed then c.(corrupted := true)
    else TakenAll(c, s)
  }

  // What SHA1PadMessage appends to the waiting octets.
  function Tail(c: Context): (t: seq<byte>)
    requires |c.block| < 64
    ensures IsBlocks(c.block + t)
  {
    FillUp(|c.block|, ZerosAfter(|c.block|));
    [0x80] + Zeros(ZerosAfter(|c.block|)) + BigEndian(c.lengthHigh, 4) + BigEndian(c.lengthLow, 4)
  }

  function Padded(c: Context): Context
    requires |c.block| < 64
  {
    c.(hash := Fold(c.hash, c.block + Tail(c)), block := [])
  }

  // What SHA1Result does to a context that it does not refuse.
  function Finished(c: Context): Context
    requires |c.block| < 64
  {
    if c.computed then c else Padded(c).(lengthLow := 0, lengthHigh := 0, computed := true)
  }

  // Several calls of SHA1Input.
  function Inputs(c: Context, pieces: seq<seq<byte>>): (c': Context)
    requires |c.block| < 64
    ensures |c'.block| < 64
  {
    if pieces == [] then c else AfterInput(Inputs(c, pieces[..|pieces| - 1]), pieces[|pieces| - 1])
  }

  // --- The counter ---------------------------------------------------------------------

  // Context `c` has taken a message of `n` octets, fewer than 2^61.
  ghost predicate Counts(c: Context, n: nat) {
    && c.lengthLow < WORD && c.lengthHigh < WORD && c.lengthLow % 8 == 0
    && c.lengthHigh * WORD + c.lengthLow == 8 * n && !c.corrupted
  }

  lemma CountsOneMore(c: Context, n: nat)
    requires Counts(c, n)
    ensures 8 * (n + 1) < WORD * WORD ==> Counts(Counted(c), n + 1)
    ensures 8 * (n + 1) == WORD * WORD <==> Counted(c).corrupted
  {
  }

  // --- The message -----------------------------------------------------------------------

  function Whole(m: seq<byte>): (s: seq<byte>)
    ensures IsBlocks(s)
  {
    m[..|m| - |m| % 64]
  }

  function Open(m: seq<byte>): (s: seq<byte>)
    ensures |s| == |m| % 64
  {
    m[|m| - |m| % 64..]
  }

  // Context `c` has hashed the whole blocks of `m` and keeps the rest.
  ghost predicate Holds(c: Context, m: seq<byte>) {
    c.hash == Fold(INITIAL, Whole(m)) && c.block == Open(m) && !c.computed
  }

  lemma OneMoreModulo(n: nat)
    ensures (n + 1) % 64 == if n % 64 == 63 then 0 else n % 64 + 1
  {
  }

  lemma SplitGrows(m: seq<byte>, b: byte, k: nat)
    requires k <= |m|
    ensures (m + [b])[..k] == m[..k] && (m + [b])[k..] == m[k..] + [b]
    ensures m + [b] == m[..k] + (m[k..] + [b])
  {
  }

  lemma BlocksGrow(m: seq<byte>, b: byte)
    ensures |m| % 64 < 63 ==> Whole(m + [b]) == Whole(m) && Open(m + [b]) == Open(m) + [b]
    ensures |m| % 64 == 63 ==> Whole(m + [b]) == Whole(m) + (Open(m) + [b]) && Open(m + [b]) == []
  {
    OneMoreModulo(|m|);
    SplitGrows(m, b, |m| - |m| % 64);
  }

  lemma HoldsOneMore(c: Context, m: seq<byte>, b: byte)
    requires Holds(c, m)
    ensures Holds(Counted(Stored(c, b)), m + [b])
  {
    hide Compress, Fold;
    BlocksGrow(m, b);
    if |m| % 64 == 63 {
      var block := Open(m) + [b];
      FoldConcat(INITIAL, Whole(m), block);
      FoldOne(c.hash, block);
    }
  }

  lemma HoldsNothing()
    ensures Holds(NEW, []) && Counts(NEW, 0)
  {
  }

  // Context `c` has taken `m`, or as much of it as can be counted.
  ghost predicate Took(c: Context, m: seq<byte>) {
    && (8 * |m| < WORD * WORD ==> Holds(c, m) && Counts(c, |m|))
    && (8 * |m| >= WORD * WORD <==> c.corrupted)
  }

  lemma TookOneMore(c: Context, m: seq<byte>, b: byte)
    requires Took(c, m) && |c.block| < 64
    ensures Took(Taken(c, b), m + [b])
  {
    hide Holds;
    if 8 * |m| < WORD * WORD {
      HoldsOneMore(c, m, b);
      CountsOneMore(Stored(c, b), |m|);
    }
  }

  // Up to 2^64 - 1 message bits a context holds what it was given, and its two
  // length words count the bits; with the bit that reaches 2^64 it is corrupted.
  lemma {:induction false} TakesMessage(m: seq<byte>)
    ensures Took(TakenAll(NEW, m), m)
  {
    hide Took, Taken;
    if m == [] {
      TookNothing(m);
    } else {
      TakesMessage(m[..|m| - 1]);
      TookOneMore(TakenAll(NEW, m[..|m| - 1]), m[..|m| - 1], m[|m| - 1]);
      assert m == m[..|m| - 1] + [m[|m| - 1]];
    }
  }

  lemma TookNothing(m: seq<byte>)
    requires m == []
    ensures Took(NEW, m)
  {
    HoldsNothing();
  }

  lemma {:induction false} TakenConcat(c: Context, a: seq<byte>, b: seq<byte>)
    requires |c.block| < 64
    ensures TakenAll(c, a + b) == TakenAll(TakenAll(c, a), b)
    decreases |b|
  {
    if b == [] {
      assert a + b == a;
    } else {
      assert (a + b)[..|a + b| - 1] == a + b[..|b| - 1];
      TakenConcat(c, a, b[..|b| - 1]);
    }
  }

  lemma {:induction false} NeverComputed(c: Context, s: seq<byte>)
    requires |c.block| < 64
    ensures TakenAll(c, s).computed == c.computed
  {
    if s != [] {
      NeverComputed(c, s[..|s| - 1]);
    }
  }

  // It does not matter how a message is cut into calls of SHA1Input.
  lemma {:induction false} CutsDoNotMatter(pieces: seq<seq<byte>>)
    ensures Inputs(NEW, pieces) == TakenAll(NEW, Flatten(pieces))
  {
    if pieces != [] {
      var front, last := pieces[..|pieces| - 1], pieces[|pieces| - 1];
      CutsDoNotMatter(front);
      NeverComputed(NEW, Flatten(front));
      TakenConcat(NEW, Flatten(front), last);
      if last == [] {
        assert Flatten(front) + last == Flatten(front);
      }
    }
  }

  // --- The digest --------------------------------------------------------------------------

  lemma {:induction false} BigEndianSplits(high: nat, low: nat, n: nat, width: nat)
    requires low < Pow256(width)
    ensures BigEndian(high * Pow256(width) + low, n + width) == BigEndian(high, n) + BigEndian(low, width)
    decreases width
  {
    if width == 0 {
      assert BigEndian(high, n) + [] == BigEndian(high, n);
    } else {
      var whole := high * Pow256(width) + low;
      DropOctet(high, low, Pow256(width - 1));
      BigEndianSplits(high, low / 256, n, width - 1);
      assert whole % 256 == low % 256;
      assert BigEndian(whole, n + width) == BigEndian(whole / 256, n + width - 1) + [whole % 256];
    }
  }

  lemma DropOctet(high: nat, low: nat, p: nat)
    ensures (high * (256 * p) + low) / 256 == high * p + low / 256
    ensures (high * (256 * p) + low) % 256 == low % 256
  {
    assert high * (256 * p) == 256 * (high * p);
  }

  lemma LengthOctets(c: Context, n: nat)
    requires Counts(c, n)
    ensures BigEndian(c.lengthHigh, 4) + BigEndian(c.lengthLow, 4) == BigEndian(8 * n, 8)
  {
    assert Pow256(2) == 0x1_0000;
    assert Pow256(4) == WORD;
    BigEndianSplits(c.lengthHigh, c.lengthLow, 4, 4);
  }

  lemma TailPads(c: Context, m: seq<byte>)
    requires Holds(c, m) && Counts(c, |m|)
    ensures Whole(m) + (c.block + Tail(c)) == Pad(m)
  {
    hide BigEndian, Fold;
    LengthOctets(c, |m|);
    assert Whole(m) + Open(m) == m;
    assert ZerosAfter(|c.block|) == ZerosAfter(|m|);
  }

  // For every message of fewer than 2^64 bits, however it is cut into calls of
  // SHA1Input, the context ends with the digest of RFC 3174.
  lemma DigestOfPieces(pieces: seq<seq<byte>>)
    requires 8 * |Flatten(pieces)| < WORD * WORD
    ensures var c := Inputs(NEW, pieces);
      !c.corrupted && OctetsOf(Finished(c).hash) == Digest(Flatten(pieces))
  {
    hide Fold, Compress, Pad, Tail;
    var m := Flatten(pieces);
    var c := Inputs(NEW, pieces);
    CutsDoNotMatter(pieces);
    TakesMessage(m);
    TailPads(c, m);
    FoldConcat(INITIAL, Whole(m), c.block + Tail(c));
  }

  // The context is corrupted exactly if the message has 2^64 bits or more; before
  // that the two length words are their number.
  lemma CountsBits(pieces: seq<seq<byte>>)
    ensures var c, bits := Inputs(NEW, pieces), 8 * |Flatten(pieces)|;
      && (c.corrupted <==> bits >= WORD * WORD)
      && (!c.corrupted ==> c.lengthHigh * WORD + c.lengthLow == bits)
  {
    CutsDoNotMatter(pieces);
    TakesMessage(Flatten(pieces));
  }

  // --- The steps of the loops ----------------------------------------------------------------

  lemma FirstWords(block: seq<byte>, t: nat)
    requires IsBlock(block) && t < 16
    ensures W(block, t) == WordOf(block[4 * t], block[4 * t + 1], block[4 * t + 2], block[4 * t + 3])
  {
  }

  lemma NextWord(block: seq<byte>, t: nat)
    requires IsBlock(block) && 16 <= t < 80
    ensures W(block, t) == Mixed(W(block, t - 3), W(block, t - 8), W(block, t - 14), W(block, t - 16))
  {
  }

  lemma NoRound(h: State, block: seq<byte>)
    requires IsBlock(block)
    ensures Rounds(h, block, 0) == h
  {
  }

  lemma NextRound(h: State, block: seq<byte>, t: nat)
    requires IsBlock(block) && t < 80
    ensures Rounds(h, block, t + 1) == Round(t, Rounds(h, block, t), W(block, t))
  {
    hide Round;
  }

  lemma Round0(t: nat, s: State, w: bv32)
    requires 0 <= t < 20
    ensures Round(t, s, w) ==
            State(Plus(Plus(Plus(Plus(Rotated(5, s.a), Choice(s.b, s.c, s.d)), s.e), w), 0x5A827999),
                  s.a, Rotated(30, s.b), s.c, s.d)
  {
    hide Rotated, Plus, Choice, Parity, Majority;
  }

  lemma Round20(t: nat, s: State, w: bv32)
    requires 20 <= t < 40
    ensures Round(t, s, w) ==
            State(Plus(Plus(Plus(Plus(Rotated(5, s.a), Parity(s.b, s.c, s.d)), s.e), w), 0x6ED9EBA1),
                  s.a, Rotated(30, s.b), s.c, s.d)
  {
    hide Rotated, Plus, Choice, Parity, Majority;
  }

  lemma Round40(t: nat, s: State, w: bv32)
    requires 40 <= t < 60
    ensures Round(t, s, w) ==
            State(Plus(Plus(Plus(Plus(Rotated(5, s.a), Majority(s.b, s.c, s.d)), s.e), w), 0x8F1BBCDC),
                  s.a, Rotated(30, s.b), s.c, s.d)
  {
    hide Rotated, Plus, Choice, Parity, Majority;
  }

  lemma Round60(t: nat, s: State, w: bv32)
    requires 60 <= t < 80
    ensures Round(t, s, w) ==
            State(Plus(Plus(Plus(Plus(Rotated(5, s.a), Parity(s.b, s.c, s.d)), s.e), w), 0xCA62C1D6),
                  s.a, Rotated(30, s.b), s.c, s.d)
  {
    hide Rotated, Plus, Choice, Parity, Majority;
  }

  // --- The context in place ------------------------------------------------------------------

  datatype Result = Success | StateError

  class SHA1Context {
    const intermediateHash: array<bv32>
    var lengthLow: nat
    var lengthHigh: nat
    var messageBlockIndex: nat
    const messageBlock: array<byte>
    var computed: bool
    var corrupted: bool

    ghost predicate Shaped()
      reads this
    {
      intermediateHash.Length == 5 && messageBlock.Length == 64 && messageBlockIndex <= 64
    }

    ghost predicate Valid()
      reads this
    {
      Shaped() && messageBlockIndex < 64
    }

    ghost function Hash(): State
      requires intermediateHash.Length == 5
      reads intermediateHash
    {
      State(intermediateHash[0], intermediateHash[1], intermediateHash[2], intermediateHash[3], intermediateHash[4])
    }

    ghost function Abs(): Context
      requires Shaped()
      reads this, intermediateHash, messageBlock
    {
      Context(Hash(), messageBlock[..messageBlockIndex], lengthLow, lengthHigh, computed, corrupted)
    }

    constructor ()
      ensures Shaped() && fresh(intermediateHash) && fresh(messageBlock)
    {
      intermediateHash := new bv32[5];
      messageBlock := new byte[64];
      messageBlockIndex := 0;
    }

    // SHA1Reset
    method Reset()
      requires Shaped()
      modifies this, intermediateHash
      ensures Valid() && Abs() == NEW
    {
      lengthLow, lengthHigh, messageBlockIndex := 0, 0, 0;
      intermediateHash[0] := 0x67452301;
      intermediateHash[1] := 0xEFCDAB89;
      intermediateHash[2] := 0x98BADCFE;
      intermediateHash[3] := 0x10325476;
      intermediateHash[4] := 0xC3D2E1F0;
      computed, corrupted := false, false;
    }

    // The message schedule.
    method Schedule() returns (w: array<bv32>)
      requires Shaped()
      ensures fresh(w) && w.Length == 80 && IsBlock(messageBlock[..])
      ensures forall k :: 0 <= k < 80 ==> w[k] == W(messageBlock[..], k)
    {
      hide Mixed, WordOf, W;
      ghost var block := messageBlock[..];
      w := new bv32[80];
      for i := 0 to 16
        invariant forall k :: 0 <= k < i ==> w[k] == W(block, k)
      {
        FirstWords(block, i);
        w[i] := WordOf(messageBlock[i * 4], messageBlock[i * 4 + 1], messageBlock[i * 4 + 2], messageBlock[i * 4 + 3]);
      }
      for i := 16 to 80
        invariant forall k :: 0 <= k < i ==> w[k] == W(block, k)
      {
        NextWord(block, i);
        w[i] := Mixed(w[i - 3], w[i - 8], w[i - 14], w[i - 16]);
      }
    }

    // The four round loops.
    method RunRounds(h: State, w: array<bv32>, ghost block: seq<byte>) returns (s: State)
      requires IsBlock(block) && w.Length == 80
      requires forall k :: 0 <= k < 80 ==> w[k] == W(block, k)
      ensures s == Rounds(h, block, 80)
    {
      hide Rotated, W, Round, Rounds, Plus, Choice, Parity, Majority;
      NoRound(h, block);
      var a, b, c, d, e := h.a, h.b, h.c, h.d, h.e;
      for i := 0 to 20
        invariant State(a, b, c, d, e) == Rounds(h, block, i)
      {
        NextRound(h, block, i);
        Round0(i, State(a, b, c, d, e), w[i]);
        var temp := Plus(Plus(Plus(Plus(Rotated(5, a), Choice(b, c, d)), e), w[i]), 0x5A827999);
        e, d, c, b, a := d, c, Rotated(30, b), a, temp;
      }
      for i := 20 to 40
        invariant State(a, b, c, d, e) == Rounds(h, block, i)
      {
        NextRound(h, block, i);
        Round20(i, State(a, b, c, d, e), w[i]);
        var temp := Plus(Plus(Plus(Plus(Rotated(5, a), Parity(b, c, d)), e), w[i]), 0x6ED9EBA1);
        e, d, c, b, a := d, c, Rotated(30, b), a, temp;
      }
      for i := 40 to 60
        invariant State(a, b, c, d, e) == Rounds(h, block, i)
      {
        NextRound(h, block, i);
        Round40(i, State(a, b, c, d, e), w[i]);
        var temp := Plus(Plus(Plus(Plus(Rotated(5, a), Majority(b, c, d)), e), w[i]), 0x8F1BBCDC);
        e, d, c, b, a := d, c, Rotated(30, b), a, temp;
      }
      for i := 60 to 80
        invariant State(a, b, c, d, e) == Rounds(h, block, i)
      {
        NextRound(h, block, i);
        Round60(i, State(a, b, c, d, e), w[i]);
        var temp := Plus(Plus(Plus(Plus(Rotated(5, a), Parity(b, c, d)), e), w[i]), 0xCA62C1D6);
        e, d, c, b, a := d, c, Rotated(30, b), a, temp;
      }
      s := State(a, b, c, d, e);
    }

    // SHA1ProcessMessageBlock
    method ProcessMessageBlock()
      requires Shaped()
      modifies this`messageBlockIndex, intermediateHash
      ensures Valid() && messageBlockIndex == 0
      ensures IsBlock(messageBlock[..]) && Hash() == Compress(old(Hash()), messageBlock[..])
    {
      hide Rounds, Plus;
      var w := Schedule();
      var h := State(
        intermediateHash[0], intermediateHash[1], intermediateHash[2], intermediateHash[3], intermediateHash[4]);
      var s := RunRounds(h, w, messageBlock[..]);
      intermediateHash[0] := Plus(intermediateHash[0], s.a);
      intermediateHash[1] := Plus(intermediateHash[1], s.b);
      intermediateHash[2] := Plus(intermediateHash[2], s.c);
      intermediateHash[3] := Plus(intermediateHash[3], s.d);
      intermediateHash[4] := Plus(intermediateHash[4], s.e);
      messageBlockIndex := 0;
    }

    // Zeros up to index `end` of the block.
    method FillZeros(end: nat)
      requires Shaped() && messageBlockIndex <= end <= 64
      modifies this`messageBlockIndex, messageBlock
      ensures Shaped() && messageBlockIndex == end
      ensures messageBlock[..end] ==
              old(messageBlock[..messageBlockIndex]) + Zeros(end - old(messageBlockIndex))
    {
      ghost var n, front := messageBlockIndex, messageBlock[..messageBlockIndex];
      while messageBlockIndex < end
        invariant n <= messageBlockIndex <= end
        invariant messageBlock[..messageBlockIndex] == front + Zeros(messageBlockIndex - n)
      {
        messageBlock[messageBlockIndex] := 0;
        messageBlockIndex := messageBlockIndex + 1;
      }
    }

    // The number of message bits in the last eight octets of the block.
    method PutLength()
      requires Shaped() && messageBlockIndex == 56 && lengthLow < WORD && lengthHigh < WORD
      modifies messageBlock
      ensures messageBlock[..] ==
              old(messageBlock[..56]) + BigEndian(lengthHigh, 4) + BigEndian(lengthLow, 4)
    {
      messageBlock[56], messageBlock[57] := lengthHigh / 0x1000000 % 256, lengthHigh / 0x10000 % 256;
      messageBlock[58], messageBlock[59] := lengthHigh / 0x100 % 256, lengthHigh % 256;
      messageBlock[60], messageBlock[61] := lengthLow / 0x1000000 % 256, lengthLow / 0x10000 % 256;
      messageBlock[62], messageBlock[63] := lengthLow / 0x100 % 256, lengthLow % 256;
      FourOctets(lengthHigh);
      FourOctets(lengthLow);
    }

    // The octet 0x80 and zeros, up to where the length belongs; if there is no room
    // for the length, the block `first` is closed before.
    method CloseBlock() returns (ghost first: seq<byte>)
      requires Valid()
      modifies this`messageBlockIndex, messageBlock, intermediateHash
      ensures Shaped() && messageBlockIndex == 56
      ensures var c := old(Abs());
        if |c.block| <= 55 then
          first == [] && Hash() == c.hash && messageBlock[..56] == c.block + [0x80] + Zeros(55 - |c.block|)
        else
          && first == c.block + [0x80] + Zeros(63 - |c.block|) && IsBlock(first)
          && Hash() == Compress(c.hash, first) && messageBlock[..56] == Zeros(56)
    {
      hide Compress;
      ghost var c := Abs();
      messageBlock[messageBlockIndex] := 0x80;
      messageBlockIndex := messageBlockIndex + 1;
      assert messageBlock[..messageBlockIndex] == c.block + [0x80];
      first := [];
      if messageBlockIndex > 56 {
        FillZeros(64);
        first := messageBlock[..];
        assert first == messageBlock[..64];
        ProcessMessageBlock();
      }
      FillZeros(56);
    }

    // SHA1PadMessage
    method PadMessage()
      requires Valid() && lengthLow < WORD && lengthHigh < WORD
      modifies this`messageBlockIndex, messageBlock, intermediateHash
      ensures Valid() && Abs() == Padded(old(Abs()))
    {
      hide Compress, BigEndian, Fold, Zeros, Padded;
      ghost var c := Abs();
      ghost var first := CloseBlock();
      PutLength();
      PaddedHash(c, first, messageBlock[..]);
      ProcessMessageBlock();
      assert messageBlock[..0] == [];
    }

    // SHA1Result
    method Result(digest: array<byte>) returns (result: Result)
      requires Valid() && lengthLow < WORD && lengthHigh < WORD
      requires digest.Length == 20 && digest != messageBlock
      modifies this, messageBlock, intermediateHash, digest
      ensures Valid() && lengthLow < WORD && lengthHigh < WORD
      ensures result.StateError? <==> old(corrupted)
      ensures result.StateError? ==> Abs() == old(Abs()) && digest[..] == old(digest[..])
      ensures result.Success? ==> Abs() == Finished(old(Abs())) && digest[..] == OctetsOf(Hash())
    {
      hide Compress, Fold, Tail;
      if corrupted {
        return StateError;
      }
      if !computed {
        PadMessage();
        ghost var padded := Abs();
        for i := 0 to 64
          invariant Valid() && Abs() == padded
        {
          messageBlock[i] := 0;
        }
        lengthLow, lengthHigh, computed := 0, 0, true;
      }
      WriteDigest(digest);
      result := Success;
    }

    method WriteDigest(digest: array<byte>)
      requires Shaped() && digest.Length == 20 && digest != messageBlock
      modifies digest
      ensures digest[..] == OctetsOf(Hash())
    {
      hide OctetOf;
      for i := 0 to 20
        invariant forall k :: 0 <= k < i ==> digest[k] == OctetOf(WordOfState(Hash(), k / 4), k % 4)
      {
        digest[i] := OctetOf(intermediateHash[i / 4], i % 4);
      }
    }

    // SHA1Input
    method Input(message: seq<byte>) returns (result: Result)
      requires Valid() && lengthLow < WORD && lengthHigh < WORD
      modifies this, messageBlock, intermediateHash
      ensures Valid() && lengthLow < WORD && lengthHigh < WORD
      ensures Abs() == AfterInput(old(Abs()), message)
      ensures result.StateError? <==> message != [] && (old(computed) || old(corrupted))
      ensures message != [] && old(computed) ==> Abs() == old(Abs()).(corrupted := true)
      ensures message == [] || (!old(computed) && old(corrupted)) ==> Abs() == old(Abs())
    {
      hide Compress;
      if message == [] {
        return Success;
      }
      if computed {
        corrupted := true;
        return StateError;
      }
      ghost var c := Abs();
      if corrupted {
        RefusesTheRest(c, message, 0);
        return StateError;
      }
      var i := 0;
      while i < |message| && !corrupted
        invariant Valid() && lengthLow < WORD && lengthHigh < WORD && i <= |message|
        invariant Abs() == TakenAll(c, message[..i])
      {
        assert message[..i + 1][..i] == message[..i];
        Take(message[i]);
        i := i + 1;
      }
      RefusesTheRest(c, message, i);
      result := Success;
    }

    // One octet of the message.
    method Take(b: byte)
      requires Valid() && lengthLow < WORD && lengthHigh < WORD && !corrupted
      modifies this`messageBlockIndex, this`lengthLow, this`lengthHigh, this`corrupted, messageBlock, intermediateHash
      ensures Valid() && lengthLow < WORD && lengthHigh < WORD && Abs() == Taken(old(Abs()), b)
    {
      hide Compress;
      ghost var c := Abs();
      messageBlock[messageBlockIndex] := b;
      messageBlockIndex := messageBlockIndex + 1;
      assert messageBlock[..messageBlockIndex] == c.block + [b];
      lengthLow := (lengthLow + 8) % WORD;
      if lengthLow == 0 {
        lengthHigh := (lengthHigh + 1) % WORD;
        if lengthHigh == 0 {
          corrupted := true;
        }
      }
      if messageBlockIndex == 64 {
        assert messageBlock[..] == messageBlock[..64];
        ProcessMessageBlock();
      }
    }
  }

  lemma FoldNone(h: State)
    ensures Fold(h, []) == h
  {
  }

  lemma FourOctets(n: nat)
    requires n < WORD
    ensures BigEndian(n, 4) == [n / 0x1000000 % 256, n / 0x10000 % 256, n / 0x100 % 256, n % 256]
  {
    assert BigEndian(n / 0x1000000, 1) == [n / 0x1000000 % 256];
    assert BigEndian(n / 0x10000, 2) == BigEndian(n / 0x1000000, 1) + [n / 0x10000 % 256];
    assert BigEndian(n / 0x100, 3) == BigEndian(n / 0x10000, 2) + [n / 0x100 % 256];
  }

  // The padding makes up one block or two.
  lemma PaddedHash(c: Context, first: seq<byte>, second: seq<byte>)
    requires |c.block| < 64 && IsBlock(second)
    requires var n, length := |c.block|, BigEndian(c.lengthHigh, 4) + BigEndian(c.lengthLow, 4);
      if n <= 55 then first == [] && second == c.block + [0x80] + Zeros(55 - n) + length
      else first == c.block + [0x80] + Zeros(63 - n) && second == Zeros(56) + length
    ensures first == [] || IsBlock(first)
    ensures Padded(c) ==
            c.(hash := Compress(if first == [] then c.hash else Compress(c.hash, first), second), block := [])
  {
    hide Compress, BigEndian, Fold;
    if first == [] {
      FoldNone(c.hash);
    } else {
      FoldOne(c.hash, first);
    }
    assert first + second == c.block + Tail(c);
    FoldConcat(c.hash, first, second);
    FoldOne(Fold(c.hash, first), second);
  }

  lemma {:induction false} RefusesTheRest(c: Context, s: seq<byte>, k: nat)
    requires |c.block| < 64 && k <= |s| && (k == |s| || TakenAll(c, s[..k]).corrupted)
    ensures TakenAll(c, s) == TakenAll(c, s[..k])
    decreases |s|
  {
    if k == |s| {
      assert s[..k] == s;
    } else {
      assert s[..|s| - 1][..k] == s[..k];
      RefusesTheRest(c, s[..|s| - 1], k);
    }
  }
}
