// The Base64 decoder of src/lib/base64.c, against the encoder of section 4 of RFC 4648.
module Base64 {
  import opened Bytes
  import opened Options

  const FILLCHAR: byte := '=' as int

  // --- RFC 4648, section 4 -------------------------------------------------------------

  type sextet = x: int | 0 <= x < 64

  // The Base64 alphabet, table 1.
  function Letter(x: sextet): byte {
    if x < 26 then 'A' as int + x
    else if x < 52 then 'a' as int + (x - 26)
    else if x < 62 then '0' as int + (x - 52)
    else if x == 62 then '+' as int
    else '/' as int
  }

  // The four sextets of three octets.
  function First(a: byte): sextet { a / 4 }

  function Second(a: byte, b: byte): sextet { a % 4 * 16 + b / 16 }

  function Third(b: byte, c: byte): sextet { b % 16 * 4 + c / 64 }

  function Fourth(c: byte): sextet { c % 64 }

  function Encoded(s: seq<byte>): seq<byte> {
    if s == [] then []
    else if |s| == 1 then [Letter(First(s[0])), Letter(Second(s[0], 0)), FILLCHAR, FILLCHAR]
    else if |s| == 2 then [Letter(First(s[0])), Letter(Second(s[0], s[1])), Letter(Third(s[1], 0)), FILLCHAR]
    else
      [Letter(First(s[0])), Letter(Second(s[0], s[1])), Letter(Third(s[1], s[2])), Letter(Fourth(s[2]))]
      + Encoded(s[3..])
  }

  // A group of three octets whose characters are those of `text`, before the rest.
  lemma EncodedGroup(a: byte, b: byte, c: byte, rest: seq<byte>, text: string, tail: string)
    requires |text| == 4 && Encoded(rest) == Ascii(tail)
    requires text[0] as int == Letter(First(a)) && text[1] as int == Letter(Second(a, b))
    requires text[2] as int == Letter(Third(b, c)) && text[3] as int == Letter(Fourth(c))
    ensures Encoded([a, b, c] + rest) == Ascii(text + tail)
  {
    hide Letter, First, Second, Third, Fourth;
    var s := [a, b, c] + rest;
    assert s[3..] == rest;
    AsciiConcat(text, tail);
    assert Ascii(text) == [Letter(First(a)), Letter(Second(a, b)), Letter(Third(b, c)), Letter(Fourth(c))];
    assert Encoded(s) == Ascii(text) + Encoded(rest);
  }

  // The illustrations of sections 9 and 10 of RFC 4648.
  lemma EncodedExamples()
    ensures Encoded([0x14, 0xFB, 0x9C, 0x03, 0xD9, 0x7E]) == Ascii("FPucA9l+")
    ensures Encoded([0x14, 0xFB, 0x9C, 0x03, 0xD9]) == Ascii("FPucA9k=")
    ensures Encoded([0x14, 0xFB, 0x9C, 0x03]) == Ascii("FPucAw==")
    ensures Encoded(Ascii("foobar")) == Ascii("Zm9vYmFy") && Encoded(Ascii("")) == Ascii("")
    ensures Encoded([0xFF, 0xEF]) == Ascii("/+8=")
  {
    hide Encoded, Ascii;
    var none: seq<byte> := [];
    EncodedEnds(none);
    JoinedTexts(none);
    EncodedGroup(0x03, 0xD9, 0x7E, none, "A9l+", "");
    EncodedGroup(0x14, 0xFB, 0x9C, [0x03, 0xD9, 0x7E], "FPuc", "A9l+");
    EncodedGroup(0x14, 0xFB, 0x9C, [0x03, 0xD9], "FPuc", "A9k=");
    EncodedGroup(0x14, 0xFB, 0x9C, [0x03], "FPuc", "Aw==");
    EncodedGroup(0x62, 0x61, 0x72, none, "YmFy", "");
    EncodedGroup(0x66, 0x6F, 0x6F, [0x62, 0x61, 0x72], "Zm9v", "YmFy");
  }

  lemma EncodedEnds(none: seq<byte>)
    requires none == []
    ensures Encoded(none) == none == Ascii("") && Encoded([0x03, 0xD9]) == Ascii("A9k=")
    ensures Encoded([0x03]) == Ascii("Aw==")
    ensures Encoded([0xFF, 0xEF]) == Ascii("/+8=")
  {
  }

  lemma JoinedTexts(none: seq<byte>)
    requires none == []
    ensures Ascii("foobar") == [0x66, 0x6F, 0x6F] + [0x62, 0x61, 0x72]
    ensures [0x62, 0x61, 0x72] + none == [0x62, 0x61, 0x72]
    ensures [0x14, 0xFB, 0x9C] + [0x03, 0xD9, 0x7E] == [0x14, 0xFB, 0x9C, 0x03, 0xD9, 0x7E]
    ensures [0x14, 0xFB, 0x9C] + [0x03, 0xD9] == [0x14, 0xFB, 0x9C, 0x03, 0xD9]
    ensures [0x14, 0xFB, 0x9C] + [0x03] == [0x14, 0xFB, 0x9C, 0x03] && [0x03, 0xD9, 0x7E] + none == [0x03, 0xD9, 0x7E]
    ensures "FPuc" + "A9l+" == "FPucA9l+" && "FPuc" + "A9k=" == "FPucA9k=" && "FPuc" + "Aw==" == "FPucAw=="
    ensures "A9l+" + "" == "A9l+" && "YmFy" + "" == "YmFy" && "Zm9v" + "YmFy" == "Zm9vYmFy"
  {
  }

  // What a character stands for: its place in the alphabet, a mark for the padding
  // character, and 0 for all that are not in the alphabet.
  lemma DigitsOfCharacters(c: byte, x: sextet)
    ensures Digit(Letter(x)) == x && Digit('=' as int) == 255
    ensures c != '=' as int && (forall y: sextet :: Letter(y) != c) ==> Digit(c) == 0
  {
    if '0' as int <= c <= '9' as int {
      assert Letter(c - 48 + 52) == c;
    } else if 'A' as int <= c <= 'Z' as int {
      assert Letter(c - 65) == c;
    } else if 'a' as int <= c <= 'z' as int {
      assert Letter(c - 97 + 26) == c;
    } else {
      assert Letter(62) == 43 && Letter(63) == 47;
    }
  }

  // --- BASE64Decode ------------------------------------------------------------------------

  // base64_digits, with -1 as it is stored in a char.
  function Digit(c: byte): byte {
    if c == '+' as int then 62
    else if c == '/' as int then 63
    else if '0' as int <= c <= '9' as int then c - '0' as int + 52
    else if c == FILLCHAR then 255
    else if 'A' as int <= c <= 'Z' as int then c - 'A' as int
    else if 'a' as int <= c <= 'z' as int then c - 'a' as int + 26
    else 0
  }

  // (a << 2) | ((b & 0x30) >> 4), as stored in a char.
  function Octet1(a: byte, b: byte): byte { a % 64 * 4 + b / 16 % 4 }

  // ((b & 0x0f) << 4) | ((c & 0x3c) >> 2)
  function Octet2(b: byte, c: byte): byte { b % 16 * 16 + c / 4 % 16 }

  // ((c & 0x03) << 6) | d
  function Octet3(c: byte, d: byte): byte
    requires d < 64
  {
    c % 4 * 64 + d
  }

  // What four characters stand for; fewer than three octets end the text.
  function Group(p: byte, q: byte, r: byte, s: byte): (g: seq<byte>)
    ensures 1 <= |g| <= 3
  {
    var a, b, c, d := Digit(p), Digit(q), Digit(r), Digit(s);
    if c == 255 then [Octet1(a, b)]
    else if d == 255 then [Octet1(a, b), Octet2(b, c)]
    else [Octet1(a, b), Octet2(b, c), Octet3(c, d)]
  }

  function Decoded(s: seq<byte>): (t: seq<byte>)
    ensures 4 * |t| <= 3 * |s|
  {
    hide Group;
    if |s| < 4 then []
    else
      var g := Group(s[0], s[1], s[2], s[3]);
      if |g| < 3 then g else g + Decoded(s[4..])
  }

  // A C string: everything before the first NUL.
  ghost predicate IsString(src: array<byte>, n: nat)
    reads src
  {
    n < src.Length && src[n] == 0 && forall i :: 0 <= i < n ==> src[i] != 0
  }

  method StrLen(src: array<byte>, ghost end: nat) returns (n: nat)
    requires IsString(src, end)
    ensures n == end
  {
    n := 0;
    while src[n] != 0
      invariant n <= end
      decreases end - n
    {
      n := n + 1;
    }
  }

  // Every read is at or before the NUL, every write within the allocated octets.
  method Decode(src: array<byte>, ghost end: nat) returns (result: Option<array<byte>>)
    requires IsString(src, end)
    ensures result.None? <==> end % 4 != 0
    ensures result.Some? ==>
      && var dest, text := result.value, Decoded(src[..end]);
      && fresh(dest) && dest.Length == end / 4 * 3 + 1
      && |text| < dest.Length && dest[..|text|] == text && dest[|text|] == 0
  {
    hide Group, Decoded, Digit;
    var n := StrLen(src, end);
    if n % 4 != 0 {
      return None;
    }
    var dest := new byte[n / 4 * 3 + 1];
    var i, j := 0, 0;
    ghost var s, k, groups := src[..end], 0, n / 4;
    while src[i] != 0
      invariant i == 4 * k && j == 3 * k && k <= groups
      invariant Decoded(s) == dest[..j] + Decoded(s[i..])
      decreases groups - k
    {
      ghost var done, rest := dest[..j], Decoded(s[i + 4..]);
      GroupStarts(s, i);
      var next := WriteGroup(dest, j, src[i], src[i + 1], src[i + 2], src[i + 3]);
      i, k := i + 4, k + 1;
      if next < j + 3 {
        j := next;
        break;
      }
      Associates(done, dest[j..next], rest);
      j := next;
    }
    NothingDecoded(s[end..]);
    assert dest[..j] == Decoded(s);
    dest[j] := 0;
    result := Some(dest);
  }

  lemma Associates(a: seq<byte>, b: seq<byte>, c: seq<byte>)
    ensures a + (b + c) == (a + b) + c
  {
  }

  lemma NothingDecoded(s: seq<byte>)
    requires s == []
    ensures Decoded(s) == []
  {
  }

  // The octets of one group, up to the first padding character.
  method WriteGroup(dest: array<byte>, j: nat, p: byte, q: byte, r: byte, s: byte) returns (next: nat)
    requires j + 3 <= dest.Length
    modifies dest
    ensures next == j + |Group(p, q, r, s)| && dest[..next] == old(dest[..j]) + Group(p, q, r, s)
    ensures dest[j..next] == Group(p, q, r, s)
  {
    hide Digit, Octet1, Octet2, Octet3;
    var a, b, c, d := Digit(p), Digit(q), Digit(r), Digit(s);
    dest[j] := Octet1(a, b);
    if c == 255 {
      return j + 1;
    }
    dest[j + 1] := Octet2(b, c);
    if d == 255 {
      return j + 2;
    }
    assert d < 64 by { DigitIsSmall(s); }
    dest[j + 2] := Octet3(c, d);
    next := j + 3;
  }

  lemma DigitIsSmall(c: byte)
    ensures Digit(c) == 255 || Digit(c) < 64
  {
  }

  lemma GroupStarts(s: seq<byte>, i: nat)
    requires i + 4 <= |s|
    ensures var g := Group(s[i], s[i + 1], s[i + 2], s[i + 3]);
      Decoded(s[i..]) == if |g| < 3 then g else g + Decoded(s[i + 4..])
  {
    hide Group;
    assert s[i..][4..] == s[i + 4..];
  }

  lemma DigitOfLetter(x: sextet)
    ensures Digit(Letter(x)) == x && Letter(x) != 0 && Letter(x) != FILLCHAR
  {
  }

  lemma DigitOfFill()
    ensures Digit(FILLCHAR) == 255
  {
  }

  lemma OctetsBack(a: byte, b: byte, c: byte)
    ensures Octet1(First(a), Second(a, b)) == a
    ensures Octet2(Second(a, b), Third(b, c)) == b
    ensures Octet3(Third(b, c), Fourth(c)) == c
  {
    hide Octet1, Octet2, Octet3, First, Second, Third, Fourth;
    FirstBack(a, b);
    SecondBack(a, b, c);
    ThirdBack(b, c);
  }

  lemma ThirdBack(b: byte, c: byte)
    ensures Octet3(Third(b, c), Fourth(c)) == c
  {
  }

  lemma FirstBack(a: byte, b: byte)
    ensures Octet1(First(a), Second(a, b)) == a
  {
  }

  lemma SecondBack(a: byte, b: byte, c: byte)
    ensures Octet2(Second(a, b), Third(b, c)) == b
  {
    assert Second(a, b) % 16 == b / 16 && Third(b, c) / 4 == b % 16;
  }

  lemma GroupOfThree(a: byte, b: byte, c: byte)
    ensures Group(Letter(First(a)), Letter(Second(a, b)), Letter(Third(b, c)), Letter(Fourth(c))) == [a, b, c]
    ensures Group(Letter(First(a)), Letter(Second(a, b)), Letter(Third(b, 0)), FILLCHAR) == [a, b]
    ensures Group(Letter(First(a)), Letter(Second(a, 0)), FILLCHAR, FILLCHAR) == [a]
  {
    hide Digit, Letter, First, Second, Third, Fourth, Octet1, Octet2, Octet3;
    assert Digit(FILLCHAR) == 255 by { DigitOfFill(); }
    OctetsBack(a, b, c);
    OctetsBack(a, b, 0);
    OctetsBack(a, 0, 0);
    DigitOfLetter(First(a));
    DigitOfLetter(Second(a, b));
    DigitOfLetter(Second(a, 0));
    DigitOfLetter(Third(b, c));
    DigitOfLetter(Third(b, 0));
    DigitOfLetter(Fourth(c));
  }

  lemma DecodedGroup(a: byte, b: byte, c: byte, d: byte, rest: seq<byte>)
    ensures var g := Group(a, b, c, d);
      Decoded([a, b, c, d] + rest) == if |g| < 3 then g else g + Decoded(rest)
  {
    hide Group;
    var s := [a, b, c, d] + rest;
    assert s[4..] == rest;
  }

  // Decoding inverts the encoder of the RFC, padded or not.
  lemma {:induction false} DecodeInvertsEncode(s: seq<byte>)
    ensures Decoded(Encoded(s)) == s
  {
    hide Group, Letter, Decoded, First, Second, Third, Fourth;
    if s == [] {
      NothingDecoded([]);
    } else if |s| == 1 {
      GroupOfThree(s[0], 0, 0);
      DecodedGroup(Letter(First(s[0])), Letter(Second(s[0], 0)), FILLCHAR, FILLCHAR, []);
      assert Encoded(s) + [] == Encoded(s);
    } else if |s| == 2 {
      GroupOfThree(s[0], s[1], 0);
      DecodedGroup(Letter(First(s[0])), Letter(Second(s[0], s[1])), Letter(Third(s[1], 0)), FILLCHAR, []);
      assert Encoded(s) + [] == Encoded(s);
    } else {
      GroupOfThree(s[0], s[1], s[2]);
      DecodedGroup(Letter(First(s[0])), Letter(Second(s[0], s[1])), Letter(Third(s[1], s[2])),
                   Letter(Fourth(s[2])), Encoded(s[3..]));
      DecodeInvertsEncode(s[3..]);
    }
  }

  lemma LetterIsNotNul(x: sextet)
    ensures Letter(x) != 0
  {
  }

  // What the encoder of the RFC writes is a C string whose length the decoder accepts.
  lemma {:induction false} EncodedIsAccepted(s: seq<byte>)
    ensures |Encoded(s)| == (|s| + 2) / 3 * 4
    ensures forall i :: 0 <= i < |Encoded(s)| ==> Encoded(s)[i] != 0
  {
    hide Letter, First, Second, Third, Fourth;
    if |s| > 0 {
      LetterIsNotNul(First(s[0]));
      LetterIsNotNul(Second(s[0], if |s| == 1 then 0 else s[1]));
      if |s| > 1 {
        LetterIsNotNul(Third(s[1], if |s| == 2 then 0 else s[2]));
      }
      if |s| > 2 {
        LetterIsNotNul(Fourth(s[2]));
        EncodedIsAccepted(s[3..]);
      }
    }
  }
}
