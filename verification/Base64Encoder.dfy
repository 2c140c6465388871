// BASE64Encode of websocket_threaded_example.c.  It joins the second sextet of a
// group into the third one, so that what it writes is not always Base64.
module Base64Encoder {
  import opened Bytes
  import opened Base64

  // Inclusive or of the `bits` low-order bits of two numbers.
  function OrBits(a: nat, b: nat, bits: nat): (r: nat)
    ensures r < Pow2(bits)
  {
    if bits == 0 then 0
    else (if a % 2 == 1 || b % 2 == 1 then 1 else 0) + 2 * OrBits(a / 2, b / 2, bits - 1)
  }

  function Or(a: sextet, b: sextet): sextet {
    assert Pow2(6) == 64;
    OrBits(a, b, 6)
  }

  // 1 if the bit of value `p` is set in one of the two numbers or in both.
  function AnyBit(a: nat, b: nat, p: nat): nat
    requires p > 0
  {
    if a / p % 2 == 1 || b / p % 2 == 1 then 1 else 0
  }

  lemma OrStep(a: nat, b: nat, bits: nat, p: nat)
    requires p in {1, 2, 4, 8, 16, 32} && bits > 0
    ensures OrBits(a / p, b / p, bits) == AnyBit(a, b, p) + 2 * OrBits(a / (2 * p), b / (2 * p), bits - 1)
  {
    HalvedQuotient(a, p);
    HalvedQuotient(b, p);
  }

  // The inclusive or of two sextets, bit by bit.
  function AnyBits(a: nat, b: nat): nat {
    AnyBit(a, b, 1) + 2 * AnyBit(a, b, 2) + 4 * AnyBit(a, b, 4) + 8 * AnyBit(a, b, 8) +
    16 * AnyBit(a, b, 16) + 32 * AnyBit(a, b, 32)
  }

  lemma OrSextets(a: sextet, b: sextet)
    ensures Or(a, b) == AnyBits(a, b)
  {
    assert Or(a, b) == OrBits(a / 1, b / 1, 6) && OrBits(a / 64, b / 64, 0) == 0;
    hide OrBits, Or, AnyBit;
    OrThree(a, b, 6, 1);
    OrThree(a, b, 3, 8);
  }

  lemma OrThree(a: nat, b: nat, bits: nat, p: nat)
    requires p in {1, 8} && bits >= 3
    ensures OrBits(a / p, b / p, bits) ==
            AnyBit(a, b, p) + 2 * AnyBit(a, b, 2 * p) + 4 * AnyBit(a, b, 4 * p) +
            8 * OrBits(a / (8 * p), b / (8 * p), bits - 3)
  {
    hide OrBits, AnyBit;
    OrStep(a, b, bits, p);
    OrStep(a, b, bits - 1, 2 * p);
    OrStep(a, b, bits - 2, 4 * p);
  }

  // Every bit of `a` is a bit of `b`.
  predicate Within(a: nat, b: nat, bits: nat) {
    bits == 0 || (a % 2 <= b % 2 && Within(a / 2, b / 2, bits - 1))
  }

  lemma {:induction false} OrWithin(a: nat, b: nat, bits: nat)
    requires b < Pow2(bits)
    ensures OrBits(a, b, bits) == b <==> Within(a, b, bits)
  {
    if bits > 0 {
      OrWithin(a / 2, b / 2, bits - 1);
    }
  }

  lemma {:induction false} OrAssociates(a: nat, b: nat, c: nat, bits: nat)
    ensures OrBits(OrBits(a, b, bits), c, bits) == OrBits(a, OrBits(b, c, bits), bits)
  {
    if bits > 0 {
      var ab, bc := OrBits(a / 2, b / 2, bits - 1), OrBits(b / 2, c / 2, bits - 1);
      Halves(if a % 2 == 1 || b % 2 == 1 then 1 else 0, ab);
      Halves(if b % 2 == 1 || c % 2 == 1 then 1 else 0, bc);
      OrAssociates(a / 2, b / 2, c / 2, bits - 1);
    }
  }

  lemma {:induction false} OrZero(a: nat, bits: nat)
    requires a < Pow2(bits)
    ensures OrBits(a, 0, bits) == a
  {
    if bits > 0 {
      OrZero(a / 2, bits - 1);
    }
  }

  // Bits that do not overlap add up.
  lemma {:induction false} OrAdds(a: nat, b: nat, k: nat, bits: nat)
    requires k <= bits && a < Pow2(bits - k) && b < Pow2(k)
    ensures OrBits(Pow2(k) * a, b, bits) == Pow2(k) * a + b
  {
    if k == 0 {
      OrZero(a, bits);
    } else {
      assert Pow2(k) * a == 2 * (Pow2(k - 1) * a);
      OrAdds(a, b / 2, k - 1, bits - 1);
    }
  }

  lemma OrHalves(a: nat, b: nat, bits: nat)
    requires bits >= 2
    ensures OrBits(a, b, bits) / 4 == OrBits(a / 4, b / 4, bits - 2)
  {
    assert a / 2 / 2 == a / 4 && b / 2 / 2 == b / 4;
    assert OrBits(a, b, bits) / 2 == OrBits(a / 2, b / 2, bits - 1);
    assert OrBits(a / 2, b / 2, bits - 1) / 2 == OrBits(a / 2 / 2, b / 2 / 2, bits - 2);
  }

  // The third sextet as it is written.
  function Joined(a: byte, b: byte, c: byte): sextet {
    Or(Second(a, b), Third(b, c))
  }

  // The four characters of the first three octets, or of what there is.
  function FirstGroup(s: seq<byte>): (g: seq<byte>)
    requires s != []
    ensures |g| == 4
  {
    if |s| == 1 then [Letter(First(s[0])), Letter(Second(s[0], 0)), FILLCHAR, FILLCHAR]
    else if |s| == 2 then
      [Letter(First(s[0])), Letter(Second(s[0], s[1])), Letter(Joined(s[0], s[1], 0)), FILLCHAR]
    else
      [Letter(First(s[0])), Letter(Second(s[0], s[1])), Letter(Joined(s[0], s[1], s[2])), Letter(Fourth(s[2]))]
  }

  function Written(s: seq<byte>): seq<byte>
    decreases |s|
  {
    if s == [] then [] else FirstGroup(s) + Written(if |s| <= 3 then [] else s[3..])
  }

  lemma SecondJoined(a: byte, b: byte)
    ensures Or(a % 4 * 16, b / 16) == Second(a, b) && a % 4 * 16 == Second(a, 0)
  {
    hide OrBits;
    assert Pow2(4) == 16 && Pow2(2) == 4;
    OrAdds(a % 4, b / 16, 4, 6);
  }

  lemma ThirdJoined(x: sextet, b: byte, c: byte)
    ensures Or(Or(x, b % 16 * 4), c / 64) == Or(x, Third(b, c))
    ensures Or(x, b % 16 * 4) == Or(x, Third(b, 0))
  {
    hide OrBits;
    assert Pow2(4) == 16 && Pow2(2) == 4;
    OrAssociates(x, b % 16 * 4, c / 64, 6);
    OrAdds(b % 16, c / 64, 2, 6);
  }

  // The characters of the group that starts at `i`, as the loop body writes them.
  method WriteGroup(output: array<byte>, ret: nat, data: seq<byte>, i: nat)
    requires i < |data| && ret + 4 <= output.Length
    modifies output
    ensures output[..ret + 4] == old(output[..ret]) + FirstGroup(data[i..])
  {
    hide Letter, Or, Second, Third;
    var i, n := i, |data|;
    var c := First(data[i]);
    output[ret] := Letter(c);
    SecondJoined(data[i], if i + 1 < n then data[i + 1] else 0);
    c := data[i] % 4 * 16;
    i := i + 1;
    if i < n {
      c := Or(c, data[i] / 16);
    }
    output[ret + 1] := Letter(c);
    if i < n {
      ThirdJoined(c, data[i], if i + 1 < n then data[i + 1] else 0);
      c := Or(c, data[i] % 16 * 4);
      i := i + 1;
      if i < n {
        c := Or(c, data[i] / 64);
      }
      output[ret + 2] := Letter(c);
    } else {
      i := i + 1;
      output[ret + 2] := FILLCHAR;
    }
    output[ret + 3] := if i < n then Letter(data[i] % 64) else FILLCHAR;
    assert output[..ret + 4] == output[..ret] + [output[ret], output[ret + 1], output[ret + 2], output[ret + 3]];
  }

  // The buffer has room for the characters and for the NUL that the caller appends.
  method Encode(data: seq<byte>) returns (output: array<byte>, ret: nat)
    ensures fresh(output) && output.Length == 2 + |data| * 4 / 3 + 8
    ensures ret == (|data| + 2) / 3 * 4 && ret < output.Length
    ensures output[..ret] == Written(data)
  {
    hide FirstGroup, Written;
    var n := |data|;
    output := new byte[2 + n * 4 / 3 + 8];
    ret := 0;
    var i := 0;
    ghost var k := 0;
    NothingWritten([]);
    assert Remaining(data, 0) == data;
    while i < n
      invariant i == 3 * k && ret == 4 * k && i <= n + 2
      invariant Written(data) == output[..ret] + Written(Remaining(data, i))
    {
      WriteNext(output, ret, data, i);
      ret, i, k := ret + 4, i + 3, k + 1;
    }
  }

  // What is still to be written.
  function Remaining(data: seq<byte>, i: nat): seq<byte> {
    if i < |data| then data[i..] else []
  }

  // One round of the loop.
  method WriteNext(output: array<byte>, ret: nat, data: seq<byte>, i: nat)
    requires i < |data| && ret + 4 <= output.Length
    modifies output
    ensures output[..ret + 4] + Written(Remaining(data, i + 3)) == old(output[..ret]) + Written(Remaining(data, i))
  {
    hide FirstGroup, Written;
    ghost var done, rest := output[..ret], Remaining(data, i);
    GroupsWritten(rest);
    assert Remaining(data, i + 3) == if |rest| <= 3 then [] else rest[3..];
    WriteGroup(output, ret, data, i);
    Associates(done, FirstGroup(rest), Written(Remaining(data, i + 3)));
  }

  lemma NothingWritten(s: seq<byte>)
    requires s == []
    ensures Written(s) == []
  {
  }

  lemma GroupsWritten(s: seq<byte>)
    requires s != []
    ensures Written(s) == FirstGroup(s) + Written(if |s| <= 3 then [] else s[3..])
  {
    hide FirstGroup;
  }

  // A group of three octets whose characters are those of `text`, before the rest.
  lemma WrittenGroup(a: byte, b: byte, c: byte, rest: seq<byte>, text: string, tail: string)
    requires |text| == 4 && Written(rest) == Ascii(tail)
    requires text[0] as int == Letter(First(a)) && text[1] as int == Letter(Second(a, b))
    requires text[2] as int == Letter(Joined(a, b, c)) && text[3] as int == Letter(Fourth(c))
    ensures Written([a, b, c] + rest) == Ascii(text + tail)
  {
    hide Letter, First, Second, Joined, Fourth, Written;
    var s := [a, b, c] + rest;
    assert s[3..] == rest;
    GroupsWritten(s);
    AsciiConcat(text, tail);
    assert Ascii(text) == FirstGroup(s);
  }

  // How many padding characters end the characters of `n` octets.
  function Fill(n: nat): nat {
    if n % 3 == 0 then 0 else 3 - n % 3
  }

  lemma LetterIsNotFill(x: sextet)
    ensures Letter(x) != FILLCHAR
  {
  }

  lemma GroupFill(s: seq<byte>, i: nat)
    requires s != [] && i < 4
    ensures FirstGroup(s)[i] == FILLCHAR <==> |s| < 3 && i >= 4 - Fill(|s|)
  {
    hide Letter, First, Second, Joined, Fourth;
    LetterIsNotFill(First(s[0]));
    LetterIsNotFill(Second(s[0], if |s| > 1 then s[1] else 0));
    if |s| > 1 {
      LetterIsNotFill(Joined(s[0], s[1], if |s| > 2 then s[2] else 0));
    }
    if |s| > 2 {
      LetterIsNotFill(Fourth(s[2]));
    }
  }

  lemma FillOfRest(n: nat)
    requires n > 3
    ensures Fill(n - 3) == Fill(n) && (n + 2) / 3 * 4 == 4 + (n - 3 + 2) / 3 * 4
  {
  }

  lemma ShortFill(n: nat)
    requires 1 <= n <= 3
    ensures (n + 2) / 3 * 4 == 4 && Fill(n) <= 2 && (n == 3 ==> Fill(n) == 0)
  {
  }

  // Padding characters stand exactly where section 4 of RFC 4648 puts them.
  lemma {:induction false} PaddingOnlyAtTheEnd(s: seq<byte>)
    ensures |Written(s)| == (|s| + 2) / 3 * 4 && Fill(|s|) <= 2
    ensures forall i :: 0 <= i < |Written(s)| ==> (Written(s)[i] == FILLCHAR <==> i >= |Written(s)| - Fill(|s|))
    decreases |s|
  {
    hide FirstGroup, Fill;
    if s == [] {
      assert Fill(0) == 0 by { NoFill(); }
    } else {
      var rest := if |s| <= 3 then [] else s[3..];
      if |s| > 3 {
        FillOfRest(|s|);
        PaddingOnlyAtTheEnd(rest);
      } else {
        ShortFill(|s|);
      }
      forall i | 0 <= i < |Written(s)|
        ensures Written(s)[i] == FILLCHAR <==> i >= |Written(s)| - Fill(|s|)
      {
        if i < 4 {
          GroupFill(s, i);
        } else {
          assert Written(s)[i] == Written(rest)[i - 4];
        }
      }
    }
  }

  lemma NoFill()
    ensures Fill(0) == 0
  {
  }

  // --- When the encoder is right -----------------------------------------------------------

  // No bit of a second sextet is missing in the third one of the same group.
  predicate Harmless(s: seq<byte>) {
    if |s| <= 1 then true
    else if |s| == 2 then Within(Second(s[0], s[1]) / 4, Third(s[1], 0) / 4, 4)
    else Within(Second(s[0], s[1]), Third(s[1], s[2]), 6) && Harmless(s[3..])
  }

  lemma ThirdFree(a: byte, b: byte, c: byte, y: sextet)
    ensures Group(Letter(First(a)), Letter(Second(a, b)), Letter(y), Letter(Fourth(c))) ==
            [a, Octet2(Second(a, b), y), Octet3(y, Fourth(c))]
    ensures Group(Letter(First(a)), Letter(Second(a, b)), Letter(y), FILLCHAR) == [a, Octet2(Second(a, b), y)]
  {
    hide Letter, Digit, Octet2, Octet3, Second, First, Fourth;
    DigitOfLetter(First(a));
    DigitOfLetter(Second(a, b));
    DigitOfLetter(y);
    DigitOfLetter(Fourth(c));
    DigitOfFill();
    FirstBack(a, b);
  }

  lemma FirstBack(a: byte, b: byte)
    ensures Octet1(First(a), Second(a, b)) == a
  {
    OctetsBack(a, b, 0);
  }

  lemma OtherThird(a: byte, b: byte, c: byte, y: sextet)
    ensures Octet2(Second(a, b), y) == b && Octet3(y, Fourth(c)) == c <==> y == Third(b, c)
  {
    SecondOctet(a, b, y);
    ThirdOctet(c, y);
    SameSextet(y, b % 16, c / 64);
  }

  lemma SecondOctet(a: byte, b: byte, y: sextet)
    ensures Octet2(Second(a, b), y) == b <==> y / 4 == b % 16
  {
    assert Second(a, b) % 16 == b / 16;
  }

  lemma ThirdOctet(c: byte, y: sextet)
    ensures Octet3(y, Fourth(c)) == c <==> y % 4 == c / 64
  {
  }

  lemma SameSextet(y: sextet, high: nat, low: nat)
    requires high < 16 && low < 4
    ensures y / 4 == high && y % 4 == low <==> y == high * 4 + low
  {
  }

  lemma OtherTail(a: byte, b: byte, y: sextet)
    ensures Octet2(Second(a, b), y) == b <==> y / 4 == Third(b, 0) / 4
  {
    SecondOctet(a, b, y);
  }

  // For a group, decoding gives the octets back exactly if nothing is joined in.
  lemma GroupHarmless(a: byte, b: byte, c: byte)
    ensures var y := Joined(a, b, c);
      Group(Letter(First(a)), Letter(Second(a, b)), Letter(y), Letter(Fourth(c))) == [a, b, c]
      <==> Within(Second(a, b), Third(b, c), 6)
    ensures var y := Joined(a, b, 0);
      Group(Letter(First(a)), Letter(Second(a, b)), Letter(y), FILLCHAR) == [a, b]
      <==> Within(Second(a, b) / 4, Third(b, 0) / 4, 4)
  {
    hide Group, Octet2, Octet3, Letter, Second, Third, First, Fourth;
    assert Pow2(6) == 64 && Pow2(4) == 16;
    ThirdFree(a, b, c, Joined(a, b, c));
    OtherThird(a, b, c, Joined(a, b, c));
    OrWithin(Second(a, b), Third(b, c), 6);
    ThirdFree(a, b, c, Joined(a, b, 0));
    OtherTail(a, b, Joined(a, b, 0));
    OrHalves(Second(a, b), Third(b, 0), 6);
    OrWithin(Second(a, b) / 4, Third(b, 0) / 4, 4);
  }

  // Decoding what the encoder wrote gives the data back exactly if every group is
  // harmless.
  lemma {:induction false} RoundTripExactlyIfHarmless(s: seq<byte>)
    ensures Decoded(Written(s)) == s <==> Harmless(s)
  {
    hide Group, Letter, Decoded, First, Second, Third, Fourth, Joined, Within;
    if s == [] {
      NothingDecoded([]);
    } else if |s| == 1 {
      GroupOfThree(s[0], 0, 0);
      DecodedGroup(Letter(First(s[0])), Letter(Second(s[0], 0)), FILLCHAR, FILLCHAR, []);
    } else if |s| == 2 {
      GroupHarmless(s[0], s[1], 0);
      ThirdFree(s[0], s[1], 0, Joined(s[0], s[1], 0));
      DecodedGroup(Letter(First(s[0])), Letter(Second(s[0], s[1])), Letter(Joined(s[0], s[1], 0)), FILLCHAR, []);
    } else {
      GroupHarmless(s[0], s[1], s[2]);
      ThirdFree(s[0], s[1], s[2], Joined(s[0], s[1], s[2]));
      FullGroup(s);
      RoundTripExactlyIfHarmless(s[3..]);
    }
  }

  lemma FullGroup(s: seq<byte>)
    requires |s| >= 3
    ensures var g := Group(Letter(First(s[0])), Letter(Second(s[0], s[1])), Letter(Joined(s[0], s[1], s[2])),
                           Letter(Fourth(s[2])));
      Decoded(Written(s)) == if |g| < 3 then g else g + Decoded(Written(s[3..]))
  {
    hide Group, Letter, Decoded, First, Second, Third, Fourth, Joined;
    DecodedGroup(Letter(First(s[0])), Letter(Second(s[0], s[1])), Letter(Joined(s[0], s[1], s[2])),
                 Letter(Fourth(s[2])), Written(s[3..]));
    if |s| == 3 {
      assert s[3..] == [];
    }
  }

  // Three octets that do not come back.
  lemma HarmfulExample()
    ensures Decoded(Written([0, 16, 0])) != [0, 16, 0]
  {
    hide Decoded, Written;
    RoundTripExactlyIfHarmless([0, 16, 0]);
    assert Second(0, 16) == 1 && Third(16, 0) == 0;
  }
}
