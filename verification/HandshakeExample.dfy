// The example of a handshake in section 1.3 of RFC 6455, as the server answers it.
module HandshakeExample {
  import opened Bytes
  import opened Sha1
  import opened Sha1Examples
  import Base64
  import Base64Encoder
  import opened ThreadedServer

  // The key of the example, and the GUID behind it.
  function Sample(): (s: seq<byte>)
    ensures |s| == 60
  {
    Ascii("dGhlIHNhbXBsZSBub25jZQ==") + Guid()
  }

  // --- The two blocks ----------------------------------------------------------------

  // The first block of the padded sample: the words H0 to H4 before it, and its first sixteen words.
  ghost predicate FirstBlock(h: State, block: seq<byte>) {
    && IsBlock(block) && h == State(0x67452301, 0xEFCDAB89, 0x98BADCFE, 0x10325476, 0xC3D2E1F0)
    && WordsAt(block, 0) == Four(0x6447686C, 0x49484E68, 0x62584273, 0x5A534275)
    && WordsAt(block, 4) == Four(0x6232356A, 0x5A513D3D, 0x32353845, 0x41464135)
    && WordsAt(block, 8) == Four(0x2D453931, 0x342D3437, 0x44412D39, 0x3543412D)
    && WordsAt(block, 12) == Four(0x43354142, 0x30444338, 0x35423131, 0x80000000)
  }

  ghost predicate FirstWords16(block: seq<byte>)
    requires IsBlock(block)
  {
    && WordsAt(block, 16) == Four(0x363CA02C, 0x24E81236, 0x8856B441, 0x06FB3C92)
    && WordsAt(block, 20) == Four(0x6FB4BCB6, 0x460B16E3, 0x599219AE, 0x35BF9369)
    && WordsAt(block, 24) == Four(0x3267458E, 0xF828FD04, 0x753A96A7, 0x6336F612)
    && WordsAt(block, 28) == Four(0xC3D66383, 0x06EB86F9, 0x73B4FD42, 0xA503C5B8)
  }

  ghost predicate FirstWords32(block: seq<byte>)
    requires IsBlock(block)
  {
    && WordsAt(block, 32) == Four(0x15CDAE35, 0x531E5DC5, 0x6FB6B7D0, 0x6C16E4AC)
    && WordsAt(block, 36) == Four(0x4DDD36BD, 0x35D36946, 0xE8AE8B9C, 0x4A933AD0)
    && WordsAt(block, 40) == Four(0xCE8628B4, 0x415DBA9E, 0x2792F049, 0x8E9B79E7)
    && WordsAt(block, 44) == Four(0x79C425C5, 0x6353B49D, 0x00994218, 0x8A950ED1)
  }

  ghost predicate FirstWords48(block: seq<byte>)
    requires IsBlock(block)
  {
    && WordsAt(block, 48) == Four(0xAF5D0B99, 0xFD9883DE, 0x1ED8FFEB, 0xF007FF28)
    && WordsAt(block, 52) == Four(0x425E3674, 0x059631C0, 0xAD6C3C31, 0x860B71D7)
    && WordsAt(block, 56) == Four(0x87BFC548, 0x3E64F92D, 0x8D0AB761, 0x34E1EE35)
    && WordsAt(block, 60) == Four(0x0ACF5108, 0xC2B479DA, 0x6C93370A, 0xF7935BA1)
  }

  ghost predicate FirstWords64(block: seq<byte>)
    requires IsBlock(block)
  {
    && WordsAt(block, 64) == Four(0xE91C91C1, 0xBED165A2, 0x4C3E4ABE, 0x50D96238)
    && WordsAt(block, 68) == Four(0xB6587DDE, 0x1A2EE6E6, 0x2D335896, 0xF3495D0B)
    && WordsAt(block, 72) == Four(0xF30E0A1D, 0x32CE5459, 0x7165E3B8, 0xAB05FF94)
    && WordsAt(block, 76) == Four(0xC5949F0B, 0xBCD84E4A, 0x07720392, 0xFF3FF806)
  }

  lemma FirstNext16(h: State, block: seq<byte>)
    requires FirstBlock(h, block)
    ensures FirstWords16(block)
  {
    hide WordsAt;
    WordsNext(block, 0);
    WordsNext(block, 4);
    WordsNext(block, 8);
    WordsNext(block, 12);
  }

  lemma FirstNext32(h: State, block: seq<byte>)
    requires FirstBlock(h, block) && FirstWords16(block)
    ensures FirstWords32(block)
  {
    hide WordsAt;
    WordsNext(block, 16);
    WordsNext(block, 20);
    WordsNext(block, 24);
    WordsNext(block, 28);
  }

  lemma FirstNext48(h: State, block: seq<byte>)
    requires FirstBlock(h, block) && FirstWords32(block)
    ensures FirstWords48(block)
  {
    hide WordsAt;
    WordsNext(block, 32);
    WordsNext(block, 36);
    WordsNext(block, 40);
    WordsNext(block, 44);
  }

  lemma FirstNext64(h: State, block: seq<byte>)
    requires FirstBlock(h, block) && FirstWords48(block)
    ensures FirstWords64(block)
  {
    hide WordsAt;
    WordsNext(block, 48);
    WordsNext(block, 52);
    WordsNext(block, 56);
    WordsNext(block, 60);
  }

  ghost predicate FirstWords(h: State, block: seq<byte>) {
    && FirstBlock(h, block)
    && FirstWords16(block) && FirstWords32(block) && FirstWords48(block) && FirstWords64(block)
  }

  lemma FirstSteps0()
    ensures FourRounds(0, State(0x67452301, 0xEFCDAB89, 0x98BADCFE, 0x10325476, 0xC3D2E1F0),
                       Four(0x6447686C, 0x49484E68, 0x62584273, 0x5A534275)) ==
            State(0x53E039AC, 0xBE90EE8F, 0x4BDE4FD5, 0xC0FF0047, 0x59D148C0)
    ensures FourRounds(4, State(0x53E039AC, 0xBE90EE8F, 0x4BDE4FD5, 0xC0FF0047, 0x59D148C0),
                       Four(0x6232356A, 0x5A513D3D, 0x32353845, 0x41464135)) ==
            State(0x2E0CE601, 0x73553E84, 0x5CC82E5A, 0xB7631F04, 0x14F80E6B)
  {
  }

  lemma FirstSteps8()
    ensures FourRounds(8, State(0x2E0CE601, 0x73553E84, 0x5CC82E5A, 0xB7631F04, 0x14F80E6B),
                       Four(0x2D453931, 0x342D3437, 0x44412D39, 0x3543412D)) ==
            State(0x34CEB986, 0x5FF4238C, 0x7EAB499D, 0x8CAFAC16, 0x4B833980)
    ensures FourRounds(12, State(0x34CEB986, 0x5FF4238C, 0x7EAB499D, 0x8CAFAC16, 0x4B833980),
                       Four(0x43354142, 0x30444338, 0x35423131, 0x80000000)) ==
            State(0xA004C468, 0xE922CC9D, 0xAB86825B, 0xD86F6CAF, 0x8D33AE61)
  {
  }

  lemma FirstSteps16()
    ensures FourRounds(16, State(0xA004C468, 0xE922CC9D, 0xAB86825B, 0xD86F6CAF, 0x8D33AE61),
                       Four(0x363CA02C, 0x24E81236, 0x8856B441, 0x06FB3C92)) ==
            State(0x091AB97C, 0x8DC510B6, 0xDFAECA5A, 0x75F6BD5D, 0x2801311A)
    ensures FourRounds(20, State(0x091AB97C, 0x8DC510B6, 0xDFAECA5A, 0x75F6BD5D, 0x2801311A),
                       Four(0x6FB4BCB6, 0x460B16E3, 0x599219AE, 0x35BF9369)) ==
            State(0x250E26EF, 0xBEAFD554, 0xB44BC2D5, 0xD4611C28, 0x0246AE5F)
  {
  }

  lemma FirstSteps24()
    ensures FourRounds(24, State(0x250E26EF, 0xBEAFD554, 0xB44BC2D5, 0xD4611C28, 0x0246AE5F),
                       Four(0x3267458E, 0xF828FD04, 0x753A96A7, 0x6336F612)) ==
            State(0x571F7D82, 0xEF012F20, 0x1D22CE68, 0xC8F47246, 0xC94389BB)
    ensures FourRounds(28, State(0x571F7D82, 0xEF012F20, 0x1D22CE68, 0xC8F47246, 0xC94389BB),
                       Four(0xC3D66383, 0x06EB86F9, 0x73B4FD42, 0xA503C5B8)) ==
            State(0xA6680A1F, 0xB7DABC8B, 0x4206D8F9, 0xC6AEC70D, 0x95C7DF60)
  {
  }

  lemma FirstSteps32()
    ensures FourRounds(32, State(0xA6680A1F, 0xB7DABC8B, 0x4206D8F9, 0xC6AEC70D, 0x95C7DF60),
                       Four(0x15CDAE35, 0x531E5DC5, 0x6FB6B7D0, 0x6C16E4AC)) ==
            State(0x9DE793C8, 0x149BB4D3, 0xBBAAE8D6, 0x46B8D82A, 0xE99A0287)
    ensures FourRounds(36, State(0x9DE793C8, 0x149BB4D3, 0xBBAAE8D6, 0x46B8D82A, 0xE99A0287),
                       Four(0x4DDD36BD, 0x35D36946, 0xE8AE8B9C, 0x4A933AD0)) ==
            State(0x2BA2C83E, 0xD0869081, 0x1A1D8209, 0xD3334889, 0x2779E4F2)
  {
  }

  lemma FirstSteps40()
    ensures FourRounds(40, State(0x2BA2C83E, 0xD0869081, 0x1A1D8209, 0xD3334889, 0x2779E4F2),
                       Four(0xCE8628B4, 0x415DBA9E, 0x2792F049, 0x8E9B79E7)) ==
            State(0x6DC6A3D7, 0x868829B7, 0x13D62691, 0x32E314B4, 0x8AE8B20F)
    ensures FourRounds(44, State(0x6DC6A3D7, 0x868829B7, 0x13D62691, 0x32E314B4, 0x8AE8B20F),
                       Four(0x79C425C5, 0x6353B49D, 0x00994218, 0x8A950ED1)) ==
            State(0xABE1748A, 0xDEE4B7A8, 0x5CBFCCD3, 0x97D7CD14, 0xDB71A8F5)
  {
  }

  lemma FirstSteps48()
    ensures FourRounds(48, State(0xABE1748A, 0xDEE4B7A8, 0x5CBFCCD3, 0x97D7CD14, 0xDB71A8F5),
                       Four(0xAF5D0B99, 0xFD9883DE, 0x1ED8FFEB, 0xF007FF28)) ==
            State(0x10E7F671, 0x0E5D77C4, 0x8197E121, 0xDD443413, 0xAAF85D22)
    ensures FourRounds(52, State(0x10E7F671, 0x0E5D77C4, 0x8197E121, 0xDD443413, 0xAAF85D22),
                       Four(0x425E3674, 0x059631C0, 0xAD6C3C31, 0x860B71D7)) ==
            State(0x7E1242F2, 0x50C9104C, 0x131822B1, 0x49B1A4E5, 0x4439FD9C)
  {
  }

  lemma FirstSteps56()
    ensures FourRounds(56, State(0x7E1242F2, 0x50C9104C, 0x131822B1, 0x49B1A4E5, 0x4439FD9C),
                       Four(0x87BFC548, 0x3E64F92D, 0x8D0AB761, 0x34E1EE35)) ==
            State(0x4872D85A, 0xD284F163, 0x83091F0B, 0x1BBDBFBD, 0x9F8490BC)
    ensures FourRounds(60, State(0x4872D85A, 0xD284F163, 0x83091F0B, 0x1BBDBFBD, 0x9F8490BC),
                       Four(0x0ACF5108, 0xC2B479DA, 0x6C93370A, 0xF7935BA1)) ==
            State(0x685E2FF6, 0x840054D3, 0xE43C0363, 0x3350802E, 0x921CB616)
  {
  }

  lemma FirstSteps64()
    ensures FourRounds(64, State(0x685E2FF6, 0x840054D3, 0xE43C0363, 0x3350802E, 0x921CB616),
                       Four(0xE91C91C1, 0xBED165A2, 0x4C3E4ABE, 0x50D96238)) ==
            State(0xCF8658EC, 0x53131A40, 0xF0F0B916, 0x2933B806, 0x9A178BFD)
    ensures FourRounds(68, State(0xCF8658EC, 0x53131A40, 0xF0F0B916, 0x2933B806, 0x9A178BFD),
                       Four(0xB6587DDE, 0x1A2EE6E6, 0x2D335896, 0xF3495D0B)) ==
            State(0x7E65E044, 0x80D59773, 0x81CE06DF, 0xA59B8126, 0x33E1963B)
  {
  }

  lemma FirstSteps72()
    ensures FourRounds(72, State(0x7E65E044, 0x80D59773, 0x81CE06DF, 0xA59B8126, 0x33E1963B),
                       Four(0xF30E0A1D, 0x32CE5459, 0x7165E3B8, 0xAB05FF94)) ==
            State(0x69CF0BCA, 0xE20983F9, 0x050EA0E2, 0xD8A39ED1, 0x1F997811)
    ensures FourRounds(76, State(0x69CF0BCA, 0xE20983F9, 0x050EA0E2, 0xD8A39ED1, 0x1F997811),
                       Four(0xC5949F0B, 0xBCD84E4A, 0x07720392, 0xFF3FF806)) ==
            State(0xF48A5426, 0x835995E1, 0x25C11EFB, 0x4A45C402, 0x9A73C2F2)
  {
  }

  lemma FirstRounds(h: State, block: seq<byte>)
    requires FirstWords(h, block)
    ensures Rounds(h, block, 80) == State(0xF48A5426, 0x835995E1, 0x25C11EFB, 0x4A45C402, 0x9A73C2F2)
  {
    hide WordsAt, Rounds, FourRounds;
    NoRounds(h, block);
    FirstSteps0();
    EightRounds(h, block, 0);
    FirstSteps8();
    EightRounds(h, block, 8);
    FirstSteps16();
    EightRounds(h, block, 16);
    FirstSteps24();
    EightRounds(h, block, 24);
    FirstSteps32();
    EightRounds(h, block, 32);
    FirstSteps40();
    EightRounds(h, block, 40);
    FirstSteps48();
    EightRounds(h, block, 48);
    FirstSteps56();
    EightRounds(h, block, 56);
    FirstSteps64();
    EightRounds(h, block, 64);
    FirstSteps72();
    EightRounds(h, block, 72);
  }

  lemma FirstCompressed(h: State, block: seq<byte>)
    requires FirstBlock(h, block)
    ensures Compress(h, block) == State(0x5BCF7727, 0x7327416A, 0xBE7BFBF9, 0x5A781878, 0x5E46A4E2)
  {
    hide WordsAt, Rounds, Round;
    FirstNext16(h, block);
    FirstNext32(h, block);
    FirstNext48(h, block);
    FirstNext64(h, block);
    FirstRounds(h, block);
  }

  // The second block: the words H0 to H4 before it, and its first sixteen words.
  ghost predicate SecondBlock(h: State, block: seq<byte>) {
    && IsBlock(block) && h == State(0x5BCF7727, 0x7327416A, 0xBE7BFBF9, 0x5A781878, 0x5E46A4E2)
    && WordsAt(block, 0) == Four(0x00000000, 0x00000000, 0x00000000, 0x00000000)
    && WordsAt(block, 4) == Four(0x00000000, 0x00000000, 0x00000000, 0x00000000)
    && WordsAt(block, 8) == Four(0x00000000, 0x00000000, 0x00000000, 0x00000000)
    && WordsAt(block, 12) == Four(0x00000000, 0x00000000, 0x00000000, 0x000001E0)
  }

  ghost predicate SecondWords16(block: seq<byte>)
    requires IsBlock(block)
  {
    && WordsAt(block, 16) == Four(0x00000000, 0x00000000, 0x000003C0, 0x00000000)
    && WordsAt(block, 20) == Four(0x00000000, 0x00000780, 0x00000000, 0x000003C0)
    && WordsAt(block, 24) == Four(0x00000F00, 0x00000000, 0x00000000, 0x00001E00)
    && WordsAt(block, 28) == Four(0x00000000, 0x00000CC0, 0x00003C00, 0x00000440)
  }

  ghost predicate SecondWords32(block: seq<byte>)
    requires IsBlock(block)
  {
    && WordsAt(block, 32) == Four(0x00000000, 0x00007800, 0x00000F00, 0x00003300)
    && WordsAt(block, 36) == Four(0x0000F000, 0x00000F00, 0x00000000, 0x0001EF00)
    && WordsAt(block, 40) == Four(0x00000000, 0x0000CC00, 0x0003C000, 0x00004380)
    && WordsAt(block, 44) == Four(0x00000000, 0x00078F00, 0x0000FF00, 0x00032680)
  }

  ghost predicate SecondWords48(block: seq<byte>)
    requires IsBlock(block)
  {
    && WordsAt(block, 48) == Four(0x000F0000, 0x0000F000, 0x00003300, 0x001EFF00)
    && WordsAt(block, 52) == Four(0x00000000, 0x000CB800, 0x003C0000, 0x00040B00)
    && WordsAt(block, 56) == Four(0x0000F000, 0x0078FF00, 0x000FF000, 0x00338700)
    && WordsAt(block, 60) == Four(0x00F00000, 0x000FC300, 0x0000F000, 0x01EFBB00)
  }

  ghost predicate SecondWords64(block: seq<byte>)
    requires IsBlock(block)
  {
    && WordsAt(block, 64) == Four(0x00000000, 0x00CC0000, 0x03C0F000, 0x00438000)
    && WordsAt(block, 68) == Four(0x00000000, 0x078F0000, 0x00FF0000, 0x03269E00)
    && WordsAt(block, 72) == Four(0x0F000000, 0x00F0F000, 0x00333C00, 0x1EFF8800)
    && WordsAt(block, 76) == Four(0x00000000, 0x0CB88800, 0x3C00F000, 0x040A4A00)
  }

  lemma SecondNext16(h: State, block: seq<byte>)
    requires SecondBlock(h, block)
    ensures SecondWords16(block)
  {
    hide WordsAt;
    WordsNext(block, 0);
    WordsNext(block, 4);
    WordsNext(block, 8);
    WordsNext(block, 12);
  }

  lemma SecondNext32(h: State, block: seq<byte>)
    requires SecondBlock(h, block) && SecondWords16(block)
    ensures SecondWords32(block)
  {
    hide WordsAt;
    WordsNext(block, 16);
    WordsNext(block, 20);
    WordsNext(block, 24);
    WordsNext(block, 28);
  }

  lemma SecondNext48(h: State, block: seq<byte>)
    requires SecondBlock(h, block) && SecondWords32(block)
    ensures SecondWords48(block)
  {
    hide WordsAt;
    WordsNext(block, 32);
    WordsNext(block, 36);
    WordsNext(block, 40);
    WordsNext(block, 44);
  }

  lemma SecondNext64(h: State, block: seq<byte>)
    requires SecondBlock(h, block) && SecondWords48(block)
    ensures SecondWords64(block)
  {
    hide WordsAt;
    WordsNext(block, 48);
    WordsNext(block, 52);
    WordsNext(block, 56);
    WordsNext(block, 60);
  }

  ghost predicate SecondWords(h: State, block: seq<byte>) {
    && SecondBlock(h, block)
    && SecondWords16(block) && SecondWords32(block) && SecondWords48(block) && SecondWords64(block)
  }

  lemma SecondSteps0()
    ensures FourRounds(0, State(0x5BCF7727, 0x7327416A, 0xBE7BFBF9, 0x5A781878, 0x5E46A4E2),
                       Four(0x00000000, 0x00000000, 0x00000000, 0x00000000)) ==
            State(0x15855523, 0xF9FB295D, 0x061801AE, 0x9B4CD737, 0xD6F3DDC9)
    ensures FourRounds(4, State(0x15855523, 0xF9FB295D, 0x061801AE, 0x9B4CD737, 0xD6F3DDC9),
                       Four(0x00000000, 0x00000000, 0x00000000, 0x00000000)) ==
            State(0x25C018BE, 0xB3BBCAFE, 0xE4E97BEE, 0xB90F74BC, 0xC5615548)
  {
  }

  lemma SecondSteps8()
    ensures FourRounds(8, State(0x25C018BE, 0xB3BBCAFE, 0xE4E97BEE, 0xB90F74BC, 0xC5615548),
                       Four(0x00000000, 0x00000000, 0x00000000, 0x00000000)) ==
            State(0x250601AD, 0x4CE92417, 0xC2C20530, 0xE0251964, 0x8970062F)
    ensures FourRounds(12, State(0x250601AD, 0x4CE92417, 0xC2C20530, 0xE0251964, 0x8970062F),
                       Four(0x00000000, 0x00000000, 0x00000000, 0x000001E0)) ==
            State(0x986DF268, 0x990B7BE7, 0xAB50FCE7, 0x195DB4B7, 0x4941806B)
  {
  }

  lemma SecondSteps16()
    ensures FourRounds(16, State(0x986DF268, 0x990B7BE7, 0xAB50FCE7, 0x195DB4B7, 0x4941806B),
                       Four(0x00000000, 0x00000000, 0x000003C0, 0x00000000)) ==
            State(0x2A008B51, 0x2F193A09, 0x9C8663C1, 0x8EB5D103, 0x261B7C9A)
    ensures FourRounds(20, State(0x2A008B51, 0x2F193A09, 0x9C8663C1, 0x8EB5D103, 0x261B7C9A),
                       Four(0x00000000, 0x00000780, 0x00000000, 0x000003C0)) ==
            State(0x53C73650, 0x3E5179E7, 0x103EF3E6, 0xC48C56CA, 0x4A8022D4)
  {
  }

  lemma SecondSteps24()
    ensures FourRounds(24, State(0x53C73650, 0x3E5179E7, 0x103EF3E6, 0xC48C56CA, 0x4A8022D4),
                       Four(0x00000F00, 0x00000000, 0x00000000, 0x00001E00)) ==
            State(0x9327DF6F, 0xD2E726DA, 0x591B19DF, 0x87493112, 0x14F1CD94)
    ensures FourRounds(28, State(0x9327DF6F, 0xD2E726DA, 0x591B19DF, 0x87493112, 0x14F1CD94),
                       Four(0x00000000, 0x00000CC0, 0x00003C00, 0x00000440)) ==
            State(0x3CF6EB58, 0xF4DDD7B7, 0xC90FB815, 0xBD5F2D4F, 0xE4C9F7DB)
  {
  }

  lemma SecondSteps32()
    ensures FourRounds(32, State(0x3CF6EB58, 0xF4DDD7B7, 0xC90FB815, 0xBD5F2D4F, 0xE4C9F7DB),
                       Four(0x00000000, 0x00007800, 0x00000F00, 0x00003300)) ==
            State(0x76922A14, 0x942AC4D3, 0xA5B67967, 0x1CC3A45C, 0x0F3DBAD6)
    ensures FourRounds(36, State(0x76922A14, 0x942AC4D3, 0xA5B67967, 0x1CC3A45C, 0x0F3DBAD6),
                       Four(0x0000F000, 0x00000F00, 0x00000000, 0x0001EF00)) ==
            State(0x6F698F1A, 0xC6FF0CD3, 0xDE5AB7BC, 0x5F6F3CBB, 0x1DA48A85)
  {
  }

  lemma SecondSteps40()
    ensures FourRounds(40, State(0x6F698F1A, 0xC6FF0CD3, 0xDE5AB7BC, 0x5F6F3CBB, 0x1DA48A85),
                       Four(0x00000000, 0x0000CC00, 0x0003C000, 0x00004380)) ==
            State(0x1E934ACF, 0xEDFCD85B, 0xBF0D0E80, 0x5E1C59DA, 0x9BDA63C6)
    ensures FourRounds(44, State(0x1E934ACF, 0xEDFCD85B, 0xBF0D0E80, 0x5E1C59DA, 0x9BDA63C6),
                       Four(0x00000000, 0x00078F00, 0x0000FF00, 0x00032680)) ==
            State(0xA3EF857E, 0xC8CDA3DA, 0xCEF6480E, 0xFF1EF4D7, 0xC7A4D2B3)
  {
  }

  lemma SecondSteps48()
    ensures FourRounds(48, State(0xA3EF857E, 0xC8CDA3DA, 0xCEF6480E, 0xFF1EF4D7, 0xC7A4D2B3),
                       Four(0x000F0000, 0x0000F000, 0x00003300, 0x001EFF00)) ==
            State(0x5FE2A3DB, 0xA3ABE4F5, 0x6945BC99, 0x68E7C810, 0xA8FBE15F)
    ensures FourRounds(52, State(0x5FE2A3DB, 0xA3ABE4F5, 0x6945BC99, 0x68E7C810, 0xA8FBE15F),
                       Four(0x00000000, 0x000CB800, 0x003C0000, 0x00040B00)) ==
            State(0xA1B68141, 0x660DD0B1, 0x0B1CEF5E, 0xE795018D, 0xD7F8A8F6)
  {
  }

  lemma SecondSteps56()
    ensures FourRounds(56, State(0xA1B68141, 0x660DD0B1, 0x0B1CEF5E, 0xE795018D, 0xD7F8A8F6),
                       Four(0x0000F000, 0x0078FF00, 0x000FF000, 0x00338700)) ==
            State(0x56119F19, 0x085EB2FE, 0x484A25C5, 0xC140CFE8, 0x686DA050)
    ensures FourRounds(60, State(0x56119F19, 0x085EB2FE, 0x484A25C5, 0xC140CFE8, 0x686DA050),
                       Four(0x00F00000, 0x000FC300, 0x0000F000, 0x01EFBB00)) ==
            State(0xA5937450, 0xD5EF1ED7, 0xC444CBE3, 0xDDD22788, 0x558467C6)
  {
  }

  lemma SecondSteps64()
    ensures FourRounds(64, State(0xA5937450, 0xD5EF1ED7, 0xC444CBE3, 0xDDD22788, 0x558467C6),
                       Four(0x00000000, 0x00CC0000, 0x03C0F000, 0x00438000)) ==
            State(0x097A511C, 0xC97F1968, 0xC5E88BBD, 0x27B3E99B, 0x2964DD14)
    ensures FourRounds(68, State(0x097A511C, 0xC97F1968, 0xC5E88BBD, 0x27B3E99B, 0x2964DD14),
                       Four(0x00000000, 0x078F0000, 0x00FF0000, 0x03269E00)) ==
            State(0xC90888CA, 0xF6D1AFEE, 0x6FCE9FE5, 0x538D8F6E, 0x025E9447)
  {
  }

  lemma SecondSteps72()
    ensures FourRounds(72, State(0xC90888CA, 0xF6D1AFEE, 0x6FCE9FE5, 0x538D8F6E, 0x025E9447),
                       Four(0x0F000000, 0x00F0F000, 0x00333C00, 0x1EFF8800)) ==
            State(0x51E08021, 0xE22B36D1, 0x09BE6664, 0xF1D94BB6, 0xB2422232)
    ensures FourRounds(76, State(0x51E08021, 0xE22B36D1, 0x09BE6664, 0xF1D94BB6, 0xB2422232),
                       Four(0x00000000, 0x0CB88800, 0x3C00F000, 0x040A4A00)) ==
            State(0x57AAD805, 0x4D3B0DAC, 0xD27A4A0D, 0x74C040CD, 0x54782008)
  {
  }

  lemma SecondRounds(h: State, block: seq<byte>)
    requires SecondWords(h, block)
    ensures Rounds(h, block, 80) == State(0x57AAD805, 0x4D3B0DAC, 0xD27A4A0D, 0x74C040CD, 0x54782008)
  {
    hide WordsAt, Rounds, FourRounds;
    NoRounds(h, block);
    SecondSteps0();
    EightRounds(h, block, 0);
    SecondSteps8();
    EightRounds(h, block, 8);
    SecondSteps16();
    EightRounds(h, block, 16);
    SecondSteps24();
    EightRounds(h, block, 24);
    SecondSteps32();
    EightRounds(h, block, 32);
    SecondSteps40();
    EightRounds(h, block, 40);
    SecondSteps48();
    EightRounds(h, block, 48);
    SecondSteps56();
    EightRounds(h, block, 56);
    SecondSteps64();
    EightRounds(h, block, 64);
    SecondSteps72();
    EightRounds(h, block, 72);
  }

  lemma SecondCompressed(h: State, block: seq<byte>)
    requires SecondBlock(h, block)
    ensures Compress(h, block) == State(0xB37A4F2C, 0xC0624F16, 0x90F64606, 0xCF385945, 0xB2BEC4EA)
  {
    hide WordsAt, Rounds, Round;
    SecondNext16(h, block);
    SecondNext32(h, block);
    SecondNext48(h, block);
    SecondNext64(h, block);
    SecondRounds(h, block);
  }

  lemma SampleOctets(h: State)
    requires h == State(0xB37A4F2C, 0xC0624F16, 0x90F64606, 0xCF385945, 0xB2BEC4EA)
    ensures OctetsOf(h) ==
            [0xB3, 0x7A, 0x4F, 0x2C] + [0xC0, 0x62, 0x4F, 0x16] + [0x90, 0xF6, 0x46, 0x06]
            + [0xCF, 0x38, 0x59, 0x45] + [0xB2, 0xBE, 0xC4, 0xEA]
  {
    Quads(h);
    assert Quad(h.a) == [0xB3, 0x7A, 0x4F, 0x2C];
    assert Quad(h.b) == [0xC0, 0x62, 0x4F, 0x16];
    assert Quad(h.c) == [0x90, 0xF6, 0x46, 0x06];
    assert Quad(h.d) == [0xCF, 0x38, 0x59, 0x45];
    assert Quad(h.e) == [0xB2, 0xBE, 0xC4, 0xEA];
  }

  lemma FirstWordsAt0(block: seq<byte>)
    requires IsBlock(block)
    requires block[0] == 0x64 && block[1] == 0x47 && block[2] == 0x68 && block[3] == 0x6C
    requires block[4] == 0x49 && block[5] == 0x48 && block[6] == 0x4E && block[7] == 0x68
    requires block[8] == 0x62 && block[9] == 0x58 && block[10] == 0x42 && block[11] == 0x73
    requires block[12] == 0x5A && block[13] == 0x53 && block[14] == 0x42 && block[15] == 0x75
    ensures WordsAt(block, 0) == Four(0x6447686C, 0x49484E68, 0x62584273, 0x5A534275)
  {
    hide W;
    WordIs(block, 0, 0x64, 0x47, 0x68, 0x6C);
    WordIs(block, 1, 0x49, 0x48, 0x4E, 0x68);
    WordIs(block, 2, 0x62, 0x58, 0x42, 0x73);
    WordIs(block, 3, 0x5A, 0x53, 0x42, 0x75);
  }

  lemma FirstWordsAt4(block: seq<byte>)
    requires IsBlock(block)
    requires block[16] == 0x62 && block[17] == 0x32 && block[18] == 0x35 && block[19] == 0x6A
    requires block[20] == 0x5A && block[21] == 0x51 && block[22] == 0x3D && block[23] == 0x3D
    requires block[24] == 0x32 && block[25] == 0x35 && block[26] == 0x38 && block[27] == 0x45
    requires block[28] == 0x41 && block[29] == 0x46 && block[30] == 0x41 && block[31] == 0x35
    ensures WordsAt(block, 4) == Four(0x6232356A, 0x5A513D3D, 0x32353845, 0x41464135)
  {
    hide W;
    WordIs(block, 4, 0x62, 0x32, 0x35, 0x6A);
    WordIs(block, 5, 0x5A, 0x51, 0x3D, 0x3D);
    WordIs(block, 6, 0x32, 0x35, 0x38, 0x45);
    WordIs(block, 7, 0x41, 0x46, 0x41, 0x35);
  }

  lemma FirstWordsAt8(block: seq<byte>)
    requires IsBlock(block)
    requires block[32] == 0x2D && block[33] == 0x45 && block[34] == 0x39 && block[35] == 0x31
    requires block[36] == 0x34 && block[37] == 0x2D && block[38] == 0x34 && block[39] == 0x37
    requires block[40] == 0x44 && block[41] == 0x41 && block[42] == 0x2D && block[43] == 0x39
    requires block[44] == 0x35 && block[45] == 0x43 && block[46] == 0x41 && block[47] == 0x2D
    ensures WordsAt(block, 8) == Four(0x2D453931, 0x342D3437, 0x44412D39, 0x3543412D)
  {
    hide W;
    WordIs(block, 8, 0x2D, 0x45, 0x39, 0x31);
    WordIs(block, 9, 0x34, 0x2D, 0x34, 0x37);
    WordIs(block, 10, 0x44, 0x41, 0x2D, 0x39);
    WordIs(block, 11, 0x35, 0x43, 0x41, 0x2D);
  }

  lemma FirstWordsAt12(block: seq<byte>)
    requires IsBlock(block)
    requires block[48] == 0x43 && block[49] == 0x35 && block[50] == 0x41 && block[51] == 0x42
    requires block[52] == 0x30 && block[53] == 0x44 && block[54] == 0x43 && block[55] == 0x38
    requires block[56] == 0x35 && block[57] == 0x42 && block[58] == 0x31 && block[59] == 0x31
    requires block[60] == 0x80 && block[61] == 0x00 && block[62] == 0x00 && block[63] == 0x00
    ensures WordsAt(block, 12) == Four(0x43354142, 0x30444338, 0x35423131, 0x80000000)
  {
    hide W;
    WordIs(block, 12, 0x43, 0x35, 0x41, 0x42);
    WordIs(block, 13, 0x30, 0x44, 0x43, 0x38);
    WordIs(block, 14, 0x35, 0x42, 0x31, 0x31);
    WordIs(block, 15, 0x80, 0, 0, 0);
  }

  // The sample in pieces of sixteen characters.
  lemma SampleInPieces()
    ensures Sample() == Ascii("dGhlIHNhbXBsZSBu") + Ascii("b25jZQ==258EAFA5") +
            Ascii("-E914-47DA-95CA-") + Ascii("C5AB0DC85B11")
  {
    AsciiConcat("dGhlIHNhbXBsZSBub25jZQ==", "258EAFA5-E914-47DA-95CA-C5AB0DC85B11");
    SameText();
    AsciiOfPieces("dGhlIHNhbXBsZSBu", "b25jZQ==258EAFA5", "-E914-47DA-95CA-", "C5AB0DC85B11");
    hide Ascii;
  }

  lemma SameText()
    ensures "dGhlIHNhbXBsZSBub25jZQ==" + "258EAFA5-E914-47DA-95CA-C5AB0DC85B11" ==
            "dGhlIHNhbXBsZSBu" + "b25jZQ==258EAFA5" + "-E914-47DA-95CA-" + "C5AB0DC85B11"
  {
    KeyText();
    GuidText();
    Regroup("dGhlIHNhbXBsZSBu", "b25jZQ==", "258EAFA5", "-E914-47DA-95CA-", "C5AB0DC85B11");
  }

  lemma KeyText()
    ensures "dGhlIHNhbXBsZSBub25jZQ==" == "dGhlIHNhbXBsZSBu" + "b25jZQ=="
    ensures "b25jZQ==" + "258EAFA5" == "b25jZQ==258EAFA5"
  {
  }

  lemma GuidText()
    ensures "258EAFA5-E914-47DA-95CA-C5AB0DC85B11" == "258EAFA5" + ("-E914-47DA-95CA-" + "C5AB0DC85B11")
  {
  }

  lemma Regroup(a: string, m: string, n: string, c: string, e: string)
    ensures (a + m) + (n + (c + e)) == a + (m + n) + c + e
  {
  }

  lemma AsciiOfPieces(a: string, b: string, c: string, e: string)
    ensures Ascii(a + b + c + e) == Ascii(a) + Ascii(b) + Ascii(c) + Ascii(e)
  {
    AsciiConcat(a, b);
    AsciiConcat(a + b, c);
    AsciiConcat(a + b + c, e);
  }

  lemma Octets0(s: seq<byte>)
    requires s == Ascii("dGhlIHNhbXBsZSBu")
    ensures |s| == 16
    ensures s[0] == 0x64 && s[1] == 0x47 && s[2] == 0x68 && s[3] == 0x6C
    ensures s[4] == 0x49 && s[5] == 0x48 && s[6] == 0x4E && s[7] == 0x68
    ensures s[8] == 0x62 && s[9] == 0x58 && s[10] == 0x42 && s[11] == 0x73
    ensures s[12] == 0x5A && s[13] == 0x53 && s[14] == 0x42 && s[15] == 0x75
  {
  }

  lemma Octets16(s: seq<byte>)
    requires s == Ascii("b25jZQ==258EAFA5")
    ensures |s| == 16
    ensures s[0] == 0x62 && s[1] == 0x32 && s[2] == 0x35 && s[3] == 0x6A
    ensures s[4] == 0x5A && s[5] == 0x51 && s[6] == 0x3D && s[7] == 0x3D
    ensures s[8] == 0x32 && s[9] == 0x35 && s[10] == 0x38 && s[11] == 0x45
    ensures s[12] == 0x41 && s[13] == 0x46 && s[14] == 0x41 && s[15] == 0x35
  {
  }

  lemma Octets32(s: seq<byte>)
    requires s == Ascii("-E914-47DA-95CA-")
    ensures |s| == 16
    ensures s[0] == 0x2D && s[1] == 0x45 && s[2] == 0x39 && s[3] == 0x31
    ensures s[4] == 0x34 && s[5] == 0x2D && s[6] == 0x34 && s[7] == 0x37
    ensures s[8] == 0x44 && s[9] == 0x41 && s[10] == 0x2D && s[11] == 0x39
    ensures s[12] == 0x35 && s[13] == 0x43 && s[14] == 0x41 && s[15] == 0x2D
  {
  }

  lemma Octets48(s: seq<byte>)
    requires s == Ascii("C5AB0DC85B11")
    ensures |s| == 12
    ensures s[0] == 0x43 && s[1] == 0x35 && s[2] == 0x41 && s[3] == 0x42
    ensures s[4] == 0x30 && s[5] == 0x44 && s[6] == 0x43 && s[7] == 0x38
    ensures s[8] == 0x35 && s[9] == 0x42 && s[10] == 0x31 && s[11] == 0x31
  {
  }

  lemma SecondWordsAre(block: seq<byte>)
    requires IsBlock(block) && (forall i :: 0 <= i < 62 ==> block[i] == 0) && block[62] == 0x01 && block[63] == 0xE0
    ensures SecondBlock(State(0x5BCF7727, 0x7327416A, 0xBE7BFBF9, 0x5A781878, 0x5E46A4E2), block)
  {
    hide W;
    ZeroWords(block, 0);
    ZeroWords(block, 4);
    ZeroWords(block, 8);
    WordIs(block, 12, 0, 0, 0, 0);
    WordIs(block, 13, 0, 0, 0, 0);
    WordIs(block, 14, 0, 0, 0, 0);
    WordIs(block, 15, 0, 0, 0x01, 0xE0);
  }

  // The padded sample is these two blocks.
  lemma SamplePadded() returns (first: seq<byte>, second: seq<byte>)
    ensures Pad(Sample()) == first + second && FirstBlock(INITIAL, first)
    ensures SecondBlock(State(0x5BCF7727, 0x7327416A, 0xBE7BFBF9, 0x5A781878, 0x5E46A4E2), second)
  {
    hide FirstBlock, SecondBlock, Pad, Zeros, Sample;
    PaddingOfSample();
    first := Sample() + [0x80, 0, 0, 0];
    second := Zeros(62) + [0x01, 0xE0];
    FirstBlockIs(first);
    SecondBlockIs(second);
  }

  lemma SecondBlockIs(block: seq<byte>)
    requires block == Zeros(62) + [0x01, 0xE0]
    ensures SecondBlock(State(0x5BCF7727, 0x7327416A, 0xBE7BFBF9, 0x5A781878, 0x5E46A4E2), block)
  {
    hide SecondBlock;
    SecondWordsAre(block);
  }

  lemma PaddingOfSample()
    ensures Pad(Sample()) == Sample() + [0x80, 0, 0, 0] + (Zeros(62) + [0x01, 0xE0])
  {
    hide Sample;
    LengthOfSample();
    assert Pad(Sample()) == Sample() + [0x80] + Zeros(59) + (Zeros(6) + [0x01, 0xE0]);
    assert [0x80] + Zeros(59) == [0x80, 0, 0, 0] + Zeros(56) && Zeros(56) + Zeros(6) == Zeros(62);
  }

  lemma FirstBlockIs(block: seq<byte>)
    requires block == Sample() + [0x80, 0, 0, 0]
    ensures FirstBlock(INITIAL, block)
  {
    hide W, WordsAt, Ascii, Sample;
    var a, b, c, e :=
      Ascii("dGhlIHNhbXBsZSBu"), Ascii("b25jZQ==258EAFA5"),
      Ascii("-E914-47DA-95CA-"), Ascii("C5AB0DC85B11");
    SampleInPieces();
    Octets0(a);
    Octets16(b);
    Octets32(c);
    Octets48(e);
    PiecesOf(block, a, b, c, e, [0x80, 0, 0, 0]);
    FirstWordsAt0(block);
    FirstWordsAt4(block);
    FirstWordsAt8(block);
    FirstWordsAt12(block);
  }

  lemma PiecesOf(block: seq<byte>, a: seq<byte>, b: seq<byte>, c: seq<byte>, e: seq<byte>, f: seq<byte>)
    requires block == a + b + c + e + f && |a| == |b| == |c| == 16 && |e| == 12 && |f| == 4
    ensures forall i :: 0 <= i < 16 ==> block[i] == a[i] && block[16 + i] == b[i] && block[32 + i] == c[i]
    ensures (forall i :: 0 <= i < 12 ==> block[48 + i] == e[i]) && (forall i :: 0 <= i < 4 ==> block[60 + i] == f[i])
  {
  }

  lemma LengthOfSample()
    ensures BigEndian(480, 8) == Zeros(6) + [0x01, 0xE0]
  {
    SmallLength(1, 7);
    assert BigEndian(480, 8) == BigEndian(1, 7) + [0xE0];
    assert Zeros(6) + [1] + [0xE0] == Zeros(6) + [0x01, 0xE0];
  }

  lemma DigestOfSample()
    ensures Digest(Sample()) ==
            [0xB3, 0x7A, 0x4F, 0x2C] + [0xC0, 0x62, 0x4F, 0x16] + [0x90, 0xF6, 0x46, 0x06]
            + [0xCF, 0x38, 0x59, 0x45] + [0xB2, 0xBE, 0xC4, 0xEA]
  {
    hide Compress, OctetsOf, WordsAt, Pad, Sample, W;
    var first, second := SamplePadded();
    FoldConcat(INITIAL, first, second);
    FoldOne(INITIAL, first);
    FirstCompressed(INITIAL, first);
    FoldOne(Compress(INITIAL, first), second);
    SecondCompressed(Compress(INITIAL, first), second);
    SampleOctets(Compress(Compress(INITIAL, first), second));
  }

  // --- The answer --------------------------------------------------------------------

  // The sextets that the encoder joins here.
  lemma Unions(a: Base64.sextet, b: Base64.sextet)
    ensures a == 55 && b == 41 ==> Base64Encoder.Or(a, b) == 63
    ensures a == 12 && b == 1 ==> Base64Encoder.Or(a, b) == 13
    ensures a == 49 && b == 26 ==> Base64Encoder.Or(a, b) == 59
    ensures a == 36 && b == 24 ==> Base64Encoder.Or(a, b) == 60
    ensures a == 51 && b == 33 ==> Base64Encoder.Or(a, b) == 51
    ensures a == 27 && b == 10 ==> Base64Encoder.Or(a, b) == 27
    ensures a == 14 && b == 40 ==> Base64Encoder.Or(a, b) == 46
  {
    Base64Encoder.OrSextets(a, b);
    hide Base64Encoder.Or;
  }

  // The digest in groups of three octets.
  function Last(): seq<byte> {
    [0xC4, 0xEA]
  }

  function Back(): seq<byte> {
    [0xF6, 0x46, 0x06] + ([0xCF, 0x38, 0x59] + ([0x45, 0xB2, 0xBE] + Last()))
  }

  lemma DigestInGroups()
    ensures Digest(Sample()) == [0xB3, 0x7A, 0x4F] + ([0x2C, 0xC0, 0x62] + ([0x4F, 0x16, 0x90] + Back()))
  {
    hide Digest, Sample;
    DigestOfSample();
  }

  lemma WrittenEnd()
    ensures Base64Encoder.Written([0xC4, 0xEA]) == Ascii("xOu=")
  {
    hide Base64Encoder.Or;
    Unions(Base64.Second(0xC4, 0xEA), Base64.Third(0xEA, 0));
  }

  lemma WrittenBack(s: seq<byte>, text: string)
    requires Base64Encoder.Written(s) == Ascii(text)
    ensures Base64Encoder.Written([0xF6, 0x46, 0x06] + ([0xCF, 0x38, 0x59] + ([0x45, 0xB2, 0xBE] + s))) ==
            Ascii("9k8G" + ("zzzZ" + ("Rbb+" + text)))
  {
    hide Base64Encoder.Written, Ascii, Base64Encoder.Or;
    Unions(Base64.Second(0x45, 0xB2), Base64.Third(0xB2, 0xBE));
    Base64Encoder.WrittenGroup(0x45, 0xB2, 0xBE, s, "Rbb+", text);
    var s1, t1 := [0x45, 0xB2, 0xBE] + s, "Rbb+" + text;
    Unions(Base64.Second(0xCF, 0x38), Base64.Third(0x38, 0x59));
    Base64Encoder.WrittenGroup(0xCF, 0x38, 0x59, s1, "zzzZ", t1);
    var s2, t2 := [0xCF, 0x38, 0x59] + s1, "zzzZ" + t1;
    Unions(Base64.Second(0xF6, 0x46), Base64.Third(0x46, 0x06));
    Base64Encoder.WrittenGroup(0xF6, 0x46, 0x06, s2, "9k8G", t2);
  }

  lemma WrittenFront(s: seq<byte>, text: string)
    requires Base64Encoder.Written(s) == Ascii(text)
    ensures Base64Encoder.Written([0xB3, 0x7A, 0x4F] + ([0x2C, 0xC0, 0x62] + ([0x4F, 0x16, 0x90] + s))) ==
            Ascii("s3/P" + ("LMNi" + ("Tx7Q" + text)))
  {
    hide Base64Encoder.Written, Ascii, Base64Encoder.Or;
    Unions(Base64.Second(0x4F, 0x16), Base64.Third(0x16, 0x90));
    Base64Encoder.WrittenGroup(0x4F, 0x16, 0x90, s, "Tx7Q", text);
    var s1, t1 := [0x4F, 0x16, 0x90] + s, "Tx7Q" + text;
    Unions(Base64.Second(0x2C, 0xC0), Base64.Third(0xC0, 0x62));
    Base64Encoder.WrittenGroup(0x2C, 0xC0, 0x62, s1, "LMNi", t1);
    var s2, t2 := [0x2C, 0xC0, 0x62] + s1, "LMNi" + t1;
    Unions(Base64.Second(0xB3, 0x7A), Base64.Third(0x7A, 0x4F));
    Base64Encoder.WrittenGroup(0xB3, 0x7A, 0x4F, s2, "s3/P", t2);
  }

  // The encoder of the server writes a value from which the digest cannot be read.
  lemma AnswerOfTheServer()
    ensures Base64Encoder.Written(Digest(Sample())) == Ascii("s3/PLMNiTx7Q9k8GzzzZRbb+xOu=")
  {
    hide Base64Encoder.Written, Digest, Sample, Ascii;
    DigestInGroups();
    WrittenEnd();
    WrittenBack(Last(), "xOu=");
    var text := "9k8G" + ("zzzZ" + ("Rbb+" + "xOu="));
    WrittenFront(Back(), text);
    assert "s3/P" + ("LMNi" + ("Tx7Q" + text)) == "s3/PLMNiTx7Q9k8GzzzZRbb+xOu=";
  }

  lemma EncodedEnd()
    ensures Base64.Encoded([0xC4, 0xEA]) == Ascii("xOo=")
  {
  }

  lemma EncodedBack(s: seq<byte>, text: string)
    requires Base64.Encoded(s) == Ascii(text)
    ensures Base64.Encoded([0xF6, 0x46, 0x06] + ([0xCF, 0x38, 0x59] + ([0x45, 0xB2, 0xBE] + s))) ==
            Ascii("9kYG" + ("zzhZ" + ("RbK+" + text)))
  {
    hide Base64.Encoded, Ascii;
    Base64.EncodedGroup(0x45, 0xB2, 0xBE, s, "RbK+", text);
    var s1, t1 := [0x45, 0xB2, 0xBE] + s, "RbK+" + text;
    Base64.EncodedGroup(0xCF, 0x38, 0x59, s1, "zzhZ", t1);
    var s2, t2 := [0xCF, 0x38, 0x59] + s1, "zzhZ" + t1;
    Base64.EncodedGroup(0xF6, 0x46, 0x06, s2, "9kYG", t2);
  }

  lemma EncodedFront(s: seq<byte>, text: string)
    requires Base64.Encoded(s) == Ascii(text)
    ensures Base64.Encoded([0xB3, 0x7A, 0x4F] + ([0x2C, 0xC0, 0x62] + ([0x4F, 0x16, 0x90] + s))) ==
            Ascii("s3pP" + ("LMBi" + ("TxaQ" + text)))
  {
    hide Base64.Encoded, Ascii;
    Base64.EncodedGroup(0x4F, 0x16, 0x90, s, "TxaQ", text);
    var s1, t1 := [0x4F, 0x16, 0x90] + s, "TxaQ" + text;
    Base64.EncodedGroup(0x2C, 0xC0, 0x62, s1, "LMBi", t1);
    var s2, t2 := [0x2C, 0xC0, 0x62] + s1, "LMBi" + t1;
    Base64.EncodedGroup(0xB3, 0x7A, 0x4F, s2, "s3pP", t2);
  }

  // The value that the client expects.
  lemma AnswerOfTheStandard()
    ensures Base64.Encoded(Digest(Sample())) == Ascii("s3pPLMBiTxaQ9kYGzzhZRbK+xOo=")
  {
    hide Base64.Encoded, Digest, Sample, Ascii;
    DigestInGroups();
    EncodedEnd();
    EncodedBack(Last(), "xOo=");
    var text := "9kYG" + ("zzhZ" + ("RbK+" + "xOo="));
    EncodedFront(Back(), text);
    assert "s3pP" + ("LMBi" + ("TxaQ" + text)) == "s3pPLMBiTxaQ9kYGzzhZRbK+xOo=";
  }

  // With this key the handshake fails.
  method AnswerTheSample() returns (val: seq<byte>)
    ensures val == Ascii("s3/PLMNiTx7Q9k8GzzzZRbb+xOu=") && val != Ascii("s3pPLMBiTxaQ9kYGzzhZRbK+xOo=")
  {
    hide Digest, Base64Encoder.Written;
    var answer := AcceptValue(Ascii("dGhlIHNhbXBsZSBub25jZQ=="));
    AnswerOfTheServer();
    val := answer.value;
    assert val[2] == '/' as int && Ascii("s3pPLMBiTxaQ9kYGzzhZRbK+xOo=")[2] == 'p' as int;
  }
}
