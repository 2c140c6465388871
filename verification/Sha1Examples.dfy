// SHA-1 by example and by other means: the functions on words in other forms, and the
// digest of "abc", which section 7.3 of RFC 3174 gives.
module Sha1Examples {
  import opened Bytes
  import opened Sha1

  // --- The functions on words --------------------------------------------------------

  lemma ChoiceSelects(b: bv32, c: bv32, d: bv32)
    ensures Choice(b, c, d) == d ^ (b & (c ^ d))
  {
  }

  lemma MajorityVotes(b: bv32, c: bv32, d: bv32)
    ensures Majority(b, c, d) == (b & (c | d)) | (c & d)
  {
  }

  lemma RotatedTurns(w: bv32)
    ensures Rotated(1, w) == w.RotateLeft(1) && Rotated(5, w) == w.RotateLeft(5)
    ensures Rotated(30, w) == w.RotateLeft(30)
  {
  }

  // --- Four words, and four rounds at a time --------------------------------------------

  datatype Four = Four(a: bv32, b: bv32, c: bv32, d: bv32)

  // The next four words, from the sixteen before them.
  function NextFour(p: Four, q: Four, r: Four, s: Four): Four {
    var a, b, c := Mixed(s.b, r.a, p.c, p.a), Mixed(s.c, r.b, p.d, p.b), Mixed(s.d, r.c, q.a, p.c);
    Four(a, b, c, Mixed(a, r.d, q.b, p.d))
  }

  function WordsAt(block: seq<byte>, t: nat): Four
    requires IsBlock(block) && t + 4 <= 80
  {
    Four(W(block, t), W(block, t + 1), W(block, t + 2), W(block, t + 3))
  }

  lemma WordsNext(block: seq<byte>, t: nat)
    requires IsBlock(block) && t + 20 <= 80
    ensures WordsAt(block, t + 16) ==
            NextFour(WordsAt(block, t), WordsAt(block, t + 4), WordsAt(block, t + 8), WordsAt(block, t + 12))
  {
    hide W, Mixed;
    WordNext(block, t + 16);
    WordNext(block, t + 17);
    WordNext(block, t + 18);
    WordNext(block, t + 19);
  }

  lemma WordNext(block: seq<byte>, t: nat)
    requires IsBlock(block) && 16 <= t < 80
    ensures W(block, t) == Mixed(W(block, t - 3), W(block, t - 8), W(block, t - 14), W(block, t - 16))
  {
  }

  function FourRounds(t: nat, s: State, w: Four): State {
    Round(t + 3, Round(t + 2, Round(t + 1, Round(t, s, w.a), w.b), w.c), w.d)
  }

  lemma RoundsNext(h: State, block: seq<byte>, t: nat)
    requires IsBlock(block) && t + 4 <= 80
    ensures Rounds(h, block, t + 4) == FourRounds(t, Rounds(h, block, t), WordsAt(block, t))
  {
    hide W, Round, Rounds;
    RoundNext(h, block, t, t + 1);
    RoundNext(h, block, t + 1, t + 2);
    RoundNext(h, block, t + 2, t + 3);
    RoundNext(h, block, t + 3, t + 4);
  }

  lemma RoundNext(h: State, block: seq<byte>, t: nat, next: nat)
    requires IsBlock(block) && next == t + 1 <= 80
    ensures Rounds(h, block, next) == Round(t, Rounds(h, block, t), W(block, t))
  {
    hide W, Round;
  }

  lemma EightRounds(h: State, block: seq<byte>, t: nat)
    requires IsBlock(block) && t + 8 <= 80
    ensures Rounds(h, block, t + 8) ==
            FourRounds(t + 4, FourRounds(t, Rounds(h, block, t), WordsAt(block, t)), WordsAt(block, t + 4))
  {
    hide WordsAt, Rounds, FourRounds;
    RoundsNext(h, block, t);
    RoundsNext(h, block, t + 4);
  }

  lemma NoRounds(h: State, block: seq<byte>)
    requires IsBlock(block)
    ensures Rounds(h, block, 0) == h
  {
  }

  // A word and its octets.
  lemma WordIs(block: seq<byte>, t: nat, a: bv32, b: bv32, c: bv32, d: bv32)
    requires IsBlock(block) && t < 16
    requires block[4 * t] as bv32 == a && block[4 * t + 1] as bv32 == b
    requires block[4 * t + 2] as bv32 == c && block[4 * t + 3] as bv32 == d
    ensures W(block, t) == (a << 24) | (b << 16) | (c << 8) | d
  {
  }

  lemma ZeroWords(block: seq<byte>, t: nat)
    requires IsBlock(block) && t + 4 <= 16 && forall i :: 4 * t <= i < 4 * t + 16 ==> block[i] == 0
    ensures WordsAt(block, t) == Four(0, 0, 0, 0)
  {
    hide W;
    WordIs(block, t, 0, 0, 0, 0);
    WordIs(block, t + 1, 0, 0, 0, 0);
    WordIs(block, t + 2, 0, 0, 0, 0);
    WordIs(block, t + 3, 0, 0, 0, 0);
  }

  // The octets of a word.
  function Quad(w: bv32): (s: seq<byte>)
    ensures |s| == 4
  {
    [OctetOf(w, 0), OctetOf(w, 1), OctetOf(w, 2), OctetOf(w, 3)]
  }

  lemma Quads(h: State)
    ensures OctetsOf(h) == Quad(h.a) + Quad(h.b) + Quad(h.c) + Quad(h.d) + Quad(h.e)
  {
    hide OctetOf, Quad;
    var all := Quad(h.a) + Quad(h.b) + Quad(h.c) + Quad(h.d) + Quad(h.e);
    forall i | 0 <= i < 20 ensures OctetsOf(h)[i] == all[i] {
      var k, j := i / 4, i % 4;
      QuadAt(WordOfState(h, k), j);
      if k < 2 {
        assert k == 0 || k == 1;
      } else {
        assert k == 2 || k == 3 || k == 4;
      }
    }
  }

  lemma QuadAt(w: bv32, j: nat)
    requires j < 4
    ensures Quad(w)[j] == OctetOf(w, j)
  {
    hide OctetOf;
  }

  // The padded "abc": the words H0 to H4 before it, and its first sixteen words.
  ghost predicate AbcBlock(h: State, block: seq<byte>) {
    && IsBlock(block) && h == State(0x67452301, 0xEFCDAB89, 0x98BADCFE, 0x10325476, 0xC3D2E1F0)
    && WordsAt(block, 0) == Four(0x61626380, 0x00000000, 0x00000000, 0x00000000)
    && WordsAt(block, 4) == Four(0x00000000, 0x00000000, 0x00000000, 0x00000000)
    && WordsAt(block, 8) == Four(0x00000000, 0x00000000, 0x00000000, 0x00000000)
    && WordsAt(block, 12) == Four(0x00000000, 0x00000000, 0x00000000, 0x00000018)
  }

  ghost predicate AbcWords16(block: seq<byte>)
    requires IsBlock(block)
  {
    && WordsAt(block, 16) == Four(0xC2C4C700, 0x00000000, 0x00000030, 0x85898E01)
    && WordsAt(block, 20) == Four(0x00000000, 0x00000060, 0x0B131C03, 0x00000030)
    && WordsAt(block, 24) == Four(0x85898EC1, 0x16263806, 0x00000000, 0x00000180)
    && WordsAt(block, 28) == Four(0x2C4C700C, 0x000000F0, 0x93AFB507, 0x5898E048)
  }

  ghost predicate AbcWords32(block: seq<byte>)
    requires IsBlock(block)
  {
    && WordsAt(block, 32) == Four(0x8E9A9202, 0x00000600, 0xB131C0F0, 0x16263BC6)
    && WordsAt(block, 36) == Four(0x4EBED41E, 0x626380A1, 0x16263806, 0x000018C0)
    && WordsAt(block, 40) == Four(0xD2E138C4, 0x00000F00, 0x3AFB5079, 0x898E04E5)
    && WordsAt(block, 44) == Four(0xE2BA3C2B, 0x000060C0, 0x053A37CD, 0x74458547)
  }

  ghost predicate AbcWords48(block: seq<byte>)
    requires IsBlock(block)
  {
    && WordsAt(block, 48) == Four(0xDA9415ED, 0x26380A16, 0x626383A1, 0x4EBF54DE)
    && WordsAt(block, 52) == Four(0x3835B44B, 0x0000F600, 0x1E84C7A3, 0x98E04D98)
    && WordsAt(block, 56) == Four(0x651D16A0, 0x62658CA1, 0x458544D6, 0x44584CB7)
    && WordsAt(block, 60) == Four(0x7BA06619, 0x6380AEA2, 0x0AE55269, 0x627B49A1)
  }

  ghost predicate AbcWords64(block: seq<byte>)
    requires IsBlock(block)
  {
    && WordsAt(block, 64) == Four(0x7CD45C9D, 0x000F0000, 0xFB50753A, 0xEC6765E8)
    && WordsAt(block, 68) == Four(0xBA3C2BE2, 0x0060C000, 0x3A37CD05, 0x458546F4)
    && WordsAt(block, 72) == Four(0xB8599DD6, 0x380A1A26, 0x01E02203, 0xE7CC3456)
    && WordsAt(block, 76) == Four(0xE6E60B69, 0x00F60A00, 0x5795EF4F, 0x822E0879)
  }

  lemma AbcNext16(h: State, block: seq<byte>)
    requires AbcBlock(h, block)
    ensures AbcWords16(block)
  {
    hide WordsAt;
    WordsNext(block, 0);
    WordsNext(block, 4);
    WordsNext(block, 8);
    WordsNext(block, 12);
  }

  lemma AbcNext32(h: State, block: seq<byte>)
    requires AbcBlock(h, block) && AbcWords16(block)
    ensures AbcWords32(block)
  {
    hide WordsAt;
    WordsNext(block, 16);
    WordsNext(block, 20);
    WordsNext(block, 24);
    WordsNext(block, 28);
  }

  lemma AbcNext48(h: State, block: seq<byte>)
    requires AbcBlock(h, block) && AbcWords32(block)
    ensures AbcWords48(block)
  {
    hide WordsAt;
    WordsNext(block, 32);
    WordsNext(block, 36);
    WordsNext(block, 40);
    WordsNext(block, 44);
  }

  lemma AbcNext64(h: State, block: seq<byte>)
    requires AbcBlock(h, block) && AbcWords48(block)
    ensures AbcWords64(block)
  {
    hide WordsAt;
    WordsNext(block, 48);
    WordsNext(block, 52);
    WordsNext(block, 56);
    WordsNext(block, 60);
  }

  ghost predicate AbcWords(h: State, block: seq<byte>) {
    && AbcBlock(h, block)
    && AbcWords16(block) && AbcWords32(block) && AbcWords48(block) && AbcWords64(block)
  }

  lemma AbcSteps0()
    ensures FourRounds(0, State(0x67452301, 0xEFCDAB89, 0x98BADCFE, 0x10325476, 0xC3D2E1F0),
                       Four(0x61626380, 0x00000000, 0x00000000, 0x00000000)) ==
            State(0xCDD8E11B, 0xA1390F08, 0x626414DB, 0xC045BF0C, 0x59D148C0)
    ensures FourRounds(4, State(0xCDD8E11B, 0xA1390F08, 0x626414DB, 0xC045BF0C, 0x59D148C0),
                       Four(0x00000000, 0x00000000, 0x00000000, 0x00000000)) ==
            State(0x9E8C07D4, 0x993E30C1, 0x0FF1F290, 0xB3F52677, 0xF3763846)
  {
  }

  lemma AbcSteps8()
    ensures FourRounds(8, State(0x9E8C07D4, 0x993E30C1, 0x0FF1F290, 0xB3F52677, 0xF3763846),
                       Four(0x00000000, 0x00000000, 0x00000000, 0x00000000)) ==
            State(0x63188FE4, 0xFBDA9E89, 0x60D47E4A, 0x12DAB8CA, 0x27A301F5)
    ensures FourRounds(12, State(0x63188FE4, 0xFBDA9E89, 0x60D47E4A, 0x12DAB8CA, 0x27A301F5),
                       Four(0x00000000, 0x00000000, 0x00000000, 0x00000018)) ==
            State(0x20BDD62F, 0x196BEE77, 0x644A3DA5, 0x1181ED99, 0x18C623F9)
  {
  }

  lemma AbcSteps16()
    ensures FourRounds(16, State(0x20BDD62F, 0x196BEE77, 0x644A3DA5, 0x1181ED99, 0x18C623F9),
                       Four(0xC2C4C700, 0x00000000, 0x00000030, 0x85898E01)) ==
            State(0xFD9E1D7D, 0xDC64901D, 0x20AA99CA, 0xD3A49608, 0xC82F758B)
    ensures FourRounds(20, State(0xFD9E1D7D, 0xDC64901D, 0x20AA99CA, 0xD3A49608, 0xC82F758B),
                       Four(0x00000000, 0x00000060, 0x0B131C03, 0x00000030)) ==
            State(0xD541F12D, 0x21283486, 0x0CE88EFF, 0x868DEC32, 0x7F67875F)
  {
  }

  lemma AbcSteps24()
    ensures FourRounds(24, State(0xD541F12D, 0x21283486, 0x0CE88EFF, 0x868DEC32, 0x7F67875F),
                       Four(0x85898EC1, 0x16263806, 0x00000000, 0x00000180)) ==
            State(0x4AA84D97, 0xBE35FBD5, 0x12104EE9, 0xB1D59F71, 0x75507C4B)
    ensures FourRounds(28, State(0x4AA84D97, 0xBE35FBD5, 0x12104EE9, 0xB1D59F71, 0x75507C4B),
                       Four(0x2C4C700C, 0x000000F0, 0x93AFB507, 0x5898E048)) ==
            State(0x3B845D33, 0x1267B407, 0x717EEBD7, 0xA0DC2D4B, 0xD2AA1365)
  {
  }

  lemma AbcSteps32()
    ensures FourRounds(32, State(0x3B845D33, 0x1267B407, 0x717EEBD7, 0xA0DC2D4B, 0xD2AA1365),
                       Four(0x8E9A9202, 0x00000600, 0xB131C0F0, 0x16263BC6)) ==
            State(0xDCBBB0CB, 0x21796AD4, 0x4B03AF04, 0x811BEA82, 0xCEE1174C)
    ensures FourRounds(36, State(0xDCBBB0CB, 0x21796AD4, 0x4B03AF04, 0x811BEA82, 0xCEE1174C),
                       Four(0x4EBED41E, 0x626380A1, 0x16263806, 0x000018C0)) ==
            State(0x32DE1CBA, 0x4C986405, 0xF718E5CF, 0x03D447F6, 0xF72EEC32)
  {
  }

  lemma AbcSteps40()
    ensures FourRounds(40, State(0x32DE1CBA, 0x4C986405, 0xF718E5CF, 0x03D447F6, 0xF72EEC32),
                       Four(0xD2E138C4, 0x00000F00, 0x3AFB5079, 0x898E04E5)) ==
            State(0xEE1B1AAF, 0x7F193DC5, 0x25C28357, 0xFF21F7B7, 0x8CB7872E)
    ensures FourRounds(44, State(0xEE1B1AAF, 0x7F193DC5, 0x25C28357, 0xFF21F7B7, 0x8CB7872E),
                       Four(0xE2BA3C2B, 0x000060C0, 0x053A37CD, 0x74458547)) ==
            State(0xBEAD02CA, 0xA01B846C, 0x8714787C, 0x503CA382, 0xFB86C6AB)
  {
  }

  lemma AbcSteps48()
    ensures FourRounds(48, State(0xBEAD02CA, 0xA01B846C, 0x8714787C, 0x503CA382, 0xFB86C6AB),
                       Four(0xDA9415ED, 0x26380A16, 0x626383A1, 0x4EBF54DE)) ==
            State(0x3847AD66, 0x641DB2CE, 0x4481CC71, 0xEEBCE4CD, 0xAFAB40B2)
    ensures FourRounds(52, State(0x3847AD66, 0x641DB2CE, 0x4481CC71, 0xEEBCE4CD, 0xAFAB40B2),
                       Four(0x3835B44B, 0x0000F600, 0x1E84C7A3, 0x98E04D98)) ==
            State(0x5E6456AF, 0x7B71F76D, 0x09FA7C76, 0x792410DB, 0x8E11EB59)
  {
  }

  lemma AbcSteps56()
    ensures FourRounds(56, State(0x5E6456AF, 0x7B71F76D, 0x09FA7C76, 0x792410DB, 0x8E11EB59),
                       Four(0x651D16A0, 0x62658CA1, 0x458544D6, 0x44584CB7)) ==
            State(0x3F52DE5A, 0x09D785FD, 0x3498BFD4, 0xF211824F, 0xD79915AB)
    ensures FourRounds(60, State(0x3F52DE5A, 0x09D785FD, 0x3498BFD4, 0xF211824F, 0xD79915AB),
                       Four(0x7BA06619, 0x6380AEA2, 0x0AE55269, 0x627B49A1)) ==
            State(0x6B61C9E1, 0xB66C020B, 0x9523272C, 0xF5D5B051, 0x8FD4B796)
  {
  }

  lemma AbcSteps64()
    ensures FourRounds(64, State(0x6B61C9E1, 0xB66C020B, 0x9523272C, 0xF5D5B051, 0x8FD4B796),
                       Four(0x7CD45C9D, 0x000F0000, 0xFB50753A, 0xEC6765E8)) ==
            State(0x78DD4D2B, 0x0C3DF2B4, 0x4405957E, 0x0677E9EB, 0x5AD87278)
    ensures FourRounds(68, State(0x78DD4D2B, 0x0C3DF2B4, 0x4405957E, 0x0677E9EB, 0x5AD87278),
                       Four(0xBA3C2BE2, 0x0060C000, 0x3A37CD05, 0x458546F4)) ==
            State(0x39859DE7, 0xC199F8C7, 0x8FC96230, 0x125C24F0, 0xDE37534A)
  {
  }

  lemma AbcSteps72()
    ensures FourRounds(72, State(0x39859DE7, 0xC199F8C7, 0x8FC96230, 0x125C24F0, 0xDE37534A),
                       Four(0xB8599DD6, 0x380A1A26, 0x01E02203, 0xE7CC3456)) ==
            State(0x63F7DAB7, 0x5EE76897, 0xC45E4FDB, 0x3B6D0B79, 0xCE616779)
    ensures FourRounds(76, State(0x63F7DAB7, 0x5EE76897, 0xC45E4FDB, 0x3B6D0B79, 0xCE616779),
                       Four(0xE6E60B69, 0x00F60A00, 0x5795EF4F, 0x822E0879)) ==
            State(0x42541B35, 0x5738D5E1, 0x21834873, 0x681E6DF6, 0xD8FDF6AD)
  {
  }

  lemma AbcRounds(h: State, block: seq<byte>)
    requires AbcWords(h, block)
    ensures Rounds(h, block, 80) == State(0x42541B35, 0x5738D5E1, 0x21834873, 0x681E6DF6, 0xD8FDF6AD)
  {
    hide WordsAt, Rounds, FourRounds;
    NoRounds(h, block);
    AbcSteps0();
    EightRounds(h, block, 0);
    AbcSteps8();
    EightRounds(h, block, 8);
    AbcSteps16();
    EightRounds(h, block, 16);
    AbcSteps24();
    EightRounds(h, block, 24);
    AbcSteps32();
    EightRounds(h, block, 32);
    AbcSteps40();
    EightRounds(h, block, 40);
    AbcSteps48();
    EightRounds(h, block, 48);
    AbcSteps56();
    EightRounds(h, block, 56);
    AbcSteps64();
    EightRounds(h, block, 64);
    AbcSteps72();
    EightRounds(h, block, 72);
  }

  lemma AbcCompressed(h: State, block: seq<byte>)
    requires AbcBlock(h, block)
    ensures Compress(h, block) == State(0xA9993E36, 0x4706816A, 0xBA3E2571, 0x7850C26C, 0x9CD0D89D)
  {
    hide WordsAt, Rounds, Round;
    AbcNext16(h, block);
    AbcNext32(h, block);
    AbcNext48(h, block);
    AbcNext64(h, block);
    AbcRounds(h, block);
  }

  lemma AbcOctets(h: State)
    requires h == State(0xA9993E36, 0x4706816A, 0xBA3E2571, 0x7850C26C, 0x9CD0D89D)
    ensures OctetsOf(h) ==
            [0xA9, 0x99, 0x3E, 0x36] + [0x47, 0x06, 0x81, 0x6A] + [0xBA, 0x3E, 0x25, 0x71]
            + [0x78, 0x50, 0xC2, 0x6C] + [0x9C, 0xD0, 0xD8, 0x9D]
  {
    Quads(h);
    assert Quad(h.a) == [0xA9, 0x99, 0x3E, 0x36];
    assert Quad(h.b) == [0x47, 0x06, 0x81, 0x6A];
    assert Quad(h.c) == [0xBA, 0x3E, 0x25, 0x71];
    assert Quad(h.d) == [0x78, 0x50, 0xC2, 0x6C];
    assert Quad(h.e) == [0x9C, 0xD0, 0xD8, 0x9D];
  }

  // A length below 256 in eight octets.
  lemma {:induction false} SmallLength(n: nat, width: nat)
    requires n < 256 && width > 0
    ensures BigEndian(n, width) == Zeros(width - 1) + [n]
  {
    if width > 1 {
      assert BigEndian(n, width) == BigEndian(0, width - 1) + [n];
      SmallLength(0, width - 1);
      assert Zeros(width - 2) + [0] == Zeros(width - 1);
    } else {
      assert BigEndian(n / 256, 0) == [];
    }
  }

  lemma AbcPadded(block: seq<byte>)
    requires block == Pad(Ascii("abc"))
    ensures AbcBlock(INITIAL, block)
  {
    assert Ascii("abc") == [0x61, 0x62, 0x63];
    SmallLength(24, 8);
    assert block == [0x61, 0x62, 0x63] + [0x80] + Zeros(52) + (Zeros(7) + [24]);
    AbcBlockIs(block);
  }

  lemma AbcBlockIs(block: seq<byte>)
    requires block == [0x61, 0x62, 0x63] + [0x80] + Zeros(52) + (Zeros(7) + [24])
    ensures AbcBlock(INITIAL, block)
  {
    assert block[0] == 0x61 && block[1] == 0x62 && block[2] == 0x63 && block[3] == 0x80 && block[63] == 24;
    assert |block| == 64 && forall i :: 4 <= i < 63 ==> block[i] == 0;
    AbcFirstWords(block);
    AbcLastWords(block);
  }

  lemma AbcFirstWords(block: seq<byte>)
    requires IsBlock(block) && forall i :: 4 <= i < 63 ==> block[i] == 0
    requires block[0] == 0x61 && block[1] == 0x62 && block[2] == 0x63 && block[3] == 0x80
    ensures WordsAt(block, 0) == Four(0x61626380, 0, 0, 0)
    ensures WordsAt(block, 4) == Four(0, 0, 0, 0) && WordsAt(block, 8) == Four(0, 0, 0, 0)
  {
    hide W;
    ZeroWords(block, 4);
    ZeroWords(block, 8);
    WordIs(block, 0, 0x61, 0x62, 0x63, 0x80);
    WordIs(block, 1, 0, 0, 0, 0);
    WordIs(block, 2, 0, 0, 0, 0);
    WordIs(block, 3, 0, 0, 0, 0);
  }

  lemma AbcLastWords(block: seq<byte>)
    requires IsBlock(block) && block[63] == 24 && forall i :: 4 <= i < 63 ==> block[i] == 0
    ensures WordsAt(block, 12) == Four(0, 0, 0, 24)
  {
    hide W;
    WordIs(block, 12, 0, 0, 0, 0);
    WordIs(block, 13, 0, 0, 0, 0);
    WordIs(block, 14, 0, 0, 0, 0);
    WordIs(block, 15, 0, 0, 0, 24);
  }

  // Section 7.3 of RFC 3174, test 1.
  lemma DigestOfAbc()
    ensures Digest(Ascii("abc")) ==
            [0xA9, 0x99, 0x3E, 0x36] + [0x47, 0x06, 0x81, 0x6A] + [0xBA, 0x3E, 0x25, 0x71]
            + [0x78, 0x50, 0xC2, 0x6C] + [0x9C, 0xD0, 0xD8, 0x9D]
  {
    hide Compress, OctetsOf, AbcBlock;
    var block := Pad(Ascii("abc"));
    AbcPadded(block);
    AbcIsBlock(block);
    FoldOne(INITIAL, block);
    AbcCompressed(INITIAL, block);
    AbcOctets(Compress(INITIAL, block));
  }

  lemma AbcIsBlock(block: seq<byte>)
    requires AbcBlock(INITIAL, block)
    ensures IsBlock(block)
  {
  }
}
