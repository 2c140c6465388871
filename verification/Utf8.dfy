// The UTF-8 check of the WebSocket library: an automaton with one step per
// octet, against the encoding of Unicode scalar values of RFC 3629.
module Utf8 {
  import opened Bytes

  // MHD_WEBSOCKET_UTF8STEP
  datatype Step =
    | Normal
    | Utf2Tail1Of1
    | Utf3Tail1_1Of2   // after 0xE0
    | Utf3Tail2_1Of2   // after 0xED
    | Utf3Tail_1Of2
    | Utf3Tail_2Of2
    | Utf4Tail1_1Of3   // after 0xF0
    | Utf4Tail2_1Of3   // after 0xF4
    | Utf4Tail_1Of3
    | Utf4Tail_2Of3
    | Utf4Tail_3Of3

  datatype Maybe = Bad | At(step: Step)

  // One octet of MHD_websocket_check_utf8.
  function Next(step: Step, c: byte): Maybe {
    match step
    case Normal =>
      if c <= 0x7F then At(Normal)
      else if 0xC2 <= c <= 0xDF then At(Utf2Tail1Of1)
      else if c == 0xE0 then At(Utf3Tail1_1Of2)
      else if c == 0xED then At(Utf3Tail2_1Of2)
      else if 0xE1 <= c <= 0xEC || 0xEE <= c <= 0xEF then At(Utf3Tail_1Of2)
      else if c == 0xF0 then At(Utf4Tail1_1Of3)
      else if c == 0xF4 then At(Utf4Tail2_1Of3)
      else if 0xF1 <= c <= 0xF3 then At(Utf4Tail_1Of3)
      else Bad
    case Utf3Tail1_1Of2 => if 0xA0 <= c <= 0xBF then At(Utf3Tail_2Of2) else Bad
    case Utf3Tail2_1Of2 => if 0x80 <= c <= 0x9F then At(Utf3Tail_2Of2) else Bad
    case Utf3Tail_1Of2 => if 0x80 <= c <= 0xBF then At(Utf3Tail_2Of2) else Bad
    case Utf4Tail1_1Of3 => if 0x90 <= c <= 0xBF then At(Utf4Tail_2Of3) else Bad
    case Utf4Tail2_1Of3 => if 0x80 <= c <= 0x8F then At(Utf4Tail_2Of3) else Bad
    case Utf4Tail_1Of3 => if 0x80 <= c <= 0xBF then At(Utf4Tail_2Of3) else Bad
    case Utf4Tail_2Of3 => if 0x80 <= c <= 0xBF then At(Utf4Tail_3Of3) else Bad
    case Utf2Tail1Of1 => if 0x80 <= c <= 0xBF then At(Normal) else Bad
    case Utf3Tail_2Of2 => if 0x80 <= c <= 0xBF then At(Normal) else Bad
    case Utf4Tail_3Of3 => if 0x80 <= c <= 0xBF then At(Normal) else Bad
  }

  // The step after all octets of `s`.
  function Check(step: Step, s: seq<byte>): Maybe {
    if s == [] then At(step)
    else
      match Check(step, s[..|s| - 1])
      case Bad => Bad
      case At(q) => Next(q, s[|s| - 1])
  }

  // Where the first octet stands that the automaton refuses.
  function BadAt(step: Step, s: seq<byte>): (offset: nat)
    requires Check(step, s).Bad?
    ensures offset < |s| && Check(step, s[..offset]).At? && Check(step, s[..offset + 1]).Bad?
  {
    var front := s[..|s| - 1];
    if Check(step, front).Bad? then
      assert forall k :: 0 <= k <= |front| ==> front[..k] == s[..k];
      BadAt(step, front)
    else
      assert s[..|s|] == s;
      |s| - 1
  }

  lemma {:induction false} CheckConcat(step: Step, a: seq<byte>, b: seq<byte>)
    ensures Check(step, a + b) == match Check(step, a) case Bad => Bad case At(q) => Check(q, b)
    decreases |b|
  {
    if b == [] {
      assert a + b == a;
    } else {
      var front := b[..|b| - 1];
      assert (a + b)[..|a + b| - 1] == a + front;
      CheckConcat(step, a, front);
    }
  }

  // --- RFC 3629, section 3 ---------------------------------------------------

  // A Unicode scalar value: no surrogates, nothing above U+10FFFF.
  type Scalar = v: int | 0 <= v <= 0x10FFFF && !(0xD800 <= v <= 0xDFFF)

  // A continuation octet for the six low-order bits of `v`.
  function Tail(v: nat): byte {
    0x80 + v % 0x40
  }

  // `v` without its six low-order bits.
  function Rest(v: nat): (r: nat)
    ensures 0x40 * r <= v < 0x40 * r + 0x40
  {
    v / 0x40
  }

  function Encode(v: Scalar): (s: seq<byte>)
    ensures 1 <= |s| <= 4
  {
    if v < 0x80 then
      var lead: byte := v;
      [lead]
    else if v < 0x800 then
      var lead: byte := 0xC0 + Rest(v);
      [lead, Tail(v)]
    else if v < 0x10000 then
      var lead: byte := 0xE0 + Rest(Rest(v));
      [lead, Tail(Rest(v)), Tail(v)]
    else
      var lead: byte := 0xF0 + Rest(Rest(Rest(v)));
      [lead, Tail(Rest(Rest(v))), Tail(Rest(v)), Tail(v)]
  }

  // The octets of each form, and the bits in them: table 3-6 of the Unicode standard.
  lemma EncodedOctets(v: Scalar)
    ensures v < 0x80 ==> Encode(v) == [v]
    ensures 0x80 <= v < 0x800 ==> Encode(v) == [0xC0 + v / 0x40, 0x80 + v % 0x40]
    ensures 0x800 <= v < 0x10000 ==> Encode(v) == [0xE0 + v / 0x1000, 0x80 + v / 0x40 % 0x40, 0x80 + v % 0x40]
    ensures 0x10000 <= v ==>
      Encode(v) == [0xF0 + v / 0x40000, 0x80 + v / 0x1000 % 0x40, 0x80 + v / 0x40 % 0x40, 0x80 + v % 0x40]
  {
    assert v / 0x40 / 0x40 == v / 0x1000 && v / 0x1000 / 0x40 == v / 0x40000;
  }

  // The examples of section 7 of RFC 3629.
  lemma EncodedExamples()
    ensures Encode(0x41) == [0x41] && Encode(0x2262) == [0xE2, 0x89, 0xA2] && Encode(0x0391) == [0xCE, 0x91]
    ensures Encode(0xD55C) == [0xED, 0x95, 0x9C] && Encode(0x65E5) == [0xE6, 0x97, 0xA5]
    ensures Encode(0x233B4) == [0xF0, 0xA3, 0x8E, 0xB4] && Encode(0xFEFF) == [0xEF, 0xBB, 0xBF]
  {
  }

  function EncodeAll(text: seq<Scalar>): seq<byte> {
    if text == [] then [] else EncodeAll(text[..|text| - 1]) + Encode(text[|text| - 1])
  }

  ghost predicate IsText(s: seq<byte>) {
    exists text :: s == EncodeAll(text)
  }

  // --- The automaton accepts exactly the encodings ------------------------------

  lemma Check1(step: Step, a: byte)
    ensures Check(step, [a]) == Next(step, a)
  {
    assert [a][..0] == [];
  }

  lemma Check2(step: Step, a: byte, b: byte)
    ensures Check(step, [a, b]) == match Next(step, a) case Bad => Bad case At(q) => Next(q, b)
  {
    hide Check, Next;
    assert [a, b] == [a] + [b];
    CheckConcat(step, [a], [b]);
    Check1(step, a);
    if Next(step, a).At? { Check1(Next(step, a).step, b); }
  }

  lemma EncodingAccepted3(v: Scalar)
    requires 0x800 <= v < 0x10000
    ensures Check(Normal, Encode(v)) == At(Normal)
  {
    var s := Encode(v);
    assert s == [s[0], s[1]] + [s[2]];
    CheckConcat(Normal, [s[0], s[1]], [s[2]]);
    Check2(Normal, s[0], s[1]);
    Check1(Utf3Tail_2Of2, s[2]);
  }

  lemma EncodingAccepted4(v: Scalar)
    requires 0x10000 <= v
    ensures Check(Normal, Encode(v)) == At(Normal)
  {
    var s := Encode(v);
    assert s == [s[0], s[1]] + [s[2], s[3]];
    CheckConcat(Normal, [s[0], s[1]], [s[2], s[3]]);
    Check2(Normal, s[0], s[1]);
    Check2(Utf4Tail_2Of3, s[2], s[3]);
  }

  lemma EncodingAccepted(v: Scalar)
    ensures Check(Normal, Encode(v)) == At(Normal)
  {
    var s := Encode(v);
    if v < 0x80 {
      Check1(Normal, s[0]);
    } else if v < 0x800 {
      Check2(Normal, s[0], s[1]);
    } else if v < 0x10000 {
      EncodingAccepted3(v);
    } else {
      EncodingAccepted4(v);
    }
  }

  lemma {:induction false} TextAccepted(text: seq<Scalar>)
    ensures Check(Normal, EncodeAll(text)) == At(Normal)
  {
    if text != [] {
      hide Check, Encode;
      var front, last := text[..|text| - 1], text[|text| - 1];
      TextAccepted(front);
      EncodingAccepted(last);
      CheckConcat(Normal, EncodeAll(front), Encode(last));
    }
  }

  // How many octets of an unfinished sequence have been read: given_utf8.
  function Given(step: Step): nat {
    match step
    case Normal => 0
    case Utf2Tail1Of1 => 1
    case Utf3Tail1_1Of2 => 1
    case Utf3Tail2_1Of2 => 1
    case Utf3Tail_1Of2 => 1
    case Utf4Tail1_1Of3 => 1
    case Utf4Tail2_1Of3 => 1
    case Utf4Tail_1Of3 => 1
    case Utf3Tail_2Of2 => 2
    case Utf4Tail_2Of3 => 2
    case Utf4Tail_3Of3 => 3
  }

  // The octets `open` are the beginning of one sequence that leads to `step`.
  predicate Opens(open: seq<byte>, step: Step) {
    |open| == Given(step) &&
    match step
    case Normal => true
    case Utf2Tail1Of1 => 0xC2 <= open[0] <= 0xDF
    case Utf3Tail1_1Of2 => open[0] == 0xE0
    case Utf3Tail2_1Of2 => open[0] == 0xED
    case Utf3Tail_1Of2 => 0xE1 <= open[0] <= 0xEF && open[0] != 0xED
    case Utf4Tail1_1Of3 => open[0] == 0xF0
    case Utf4Tail2_1Of3 => open[0] == 0xF4
    case Utf4Tail_1Of3 => 0xF1 <= open[0] <= 0xF3
    case Utf3Tail_2Of2 => ThreeStarted(open[0], open[1])
    case Utf4Tail_2Of3 => FourStarted(open[0], open[1])
    case Utf4Tail_3Of3 => FourStarted(open[0], open[1]) && 0x80 <= open[2] <= 0xBF
  }

  predicate ThreeStarted(a: byte, b: byte) {
    && 0xE0 <= a <= 0xEF && 0x80 <= b <= 0xBF
    && (a == 0xE0 ==> 0xA0 <= b) && (a == 0xED ==> b <= 0x9F)
  }

  predicate FourStarted(a: byte, b: byte) {
    && 0xF0 <= a <= 0xF4 && 0x80 <= b <= 0xBF
    && (a == 0xF0 ==> 0x90 <= b) && (a == 0xF4 ==> b <= 0x8F)
  }

  lemma Joined(high: nat, c: byte) returns (v: nat)
    requires 0x80 <= c <= 0xBF
    ensures v == 0x40 * high + (c - 0x80) && Rest(v) == high && Tail(v) == c
  {
    v := 0x40 * high + (c - 0x80);
  }

  // Finishing an open sequence finishes the encoding of a scalar value.
  lemma Closes(open: seq<byte>, step: Step, c: byte) returns (v: Scalar)
    requires Opens(open, step) && Next(step, c) == At(Normal)
    ensures Encode(v) == open + [c]
  {
    match step
    case Normal =>
      v := c;
    case Utf2Tail1Of1 =>
      v := Joined(open[0] - 0xC0, c);
    case Utf3Tail_2Of2 =>
      var high := Joined(open[0] - 0xE0, open[1]);
      v := Joined(high, c);
    case Utf4Tail_3Of3 =>
      var high := Joined(open[0] - 0xF0, open[1]);
      var middle := Joined(high, open[2]);
      v := Joined(middle, c);
  }

  lemma OpensLonger(open: seq<byte>, step: Step, c: byte)
    requires Opens(open, step) && Next(step, c).At? && Next(step, c) != At(Normal)
    ensures Opens(open + [c], Next(step, c).step)
  {
  }

  lemma ParsedNext(text: seq<Scalar>, open: seq<byte>, step: Step, c: byte)
    returns (text': seq<Scalar>, open': seq<byte>)
    requires Opens(open, step) && Next(step, c).At?
    ensures EncodeAll(text') + open' == EncodeAll(text) + open + [c]
    ensures Opens(open', Next(step, c).step)
  {
    if Next(step, c) == At(Normal) {
      var v := Closes(open, step, c);
      assert (text + [v])[..|text|] == text;
      text', open' := text + [v], [];
    } else {
      OpensLonger(open, step, c);
      text', open' := text, open + [c];
    }
  }

  // Overlong forms, surrogates, values above U+10FFFF and octets that never occur are refused.
  lemma RefusedExamples()
    ensures Check(Normal, [0xC0, 0x80]) == Check(Normal, [0xC1]) == Check(Normal, [0x80]) == Bad
    ensures Check(Normal, [0xE0, 0x80]) == Check(Normal, [0xED, 0xA0]) == Check(Normal, [0xF0, 0x80]) == Bad
    ensures Check(Normal, [0xF4, 0x90]) == Check(Normal, [0xF5]) == Check(Normal, [0xFF]) == Bad
  {
    Check1(Normal, 0xC1);
    Check1(Normal, 0x80);
    Check1(Normal, 0xF5);
    Check1(Normal, 0xFF);
    Check2(Normal, 0xC0, 0x80);
    Check2(Normal, 0xE0, 0x80);
    Check2(Normal, 0xED, 0xA0);
    Check2(Normal, 0xF0, 0x80);
    Check2(Normal, 0xF4, 0x90);
    hide Check;
  }

  // Whatever the automaton has read is finished text followed by the open octets.
  lemma {:induction false} Parsed(s: seq<byte>) returns (text: seq<Scalar>, open: seq<byte>)
    requires Check(Normal, s).At?
    ensures s == EncodeAll(text) + open && Opens(open, Check(Normal, s).step)
  {
    if s == [] {
      text, open := [], [];
    } else {
      hide Opens, EncodeAll, Next;
      text, open := Parsed(s[..|s| - 1]);
      text, open := ParsedNext(text, open, Check(Normal, s[..|s| - 1]).step, s[|s| - 1]);
    }
  }

  // The automaton returns to NORMAL exactly on the encodings of sequences of
  // Unicode scalar values.
  lemma AcceptsExactlyText(s: seq<byte>)
    ensures Check(Normal, s) == At(Normal) <==> IsText(s)
  {
    if Check(Normal, s) == At(Normal) {
      var text, open := Parsed(s);
      assert s == EncodeAll(text);
    }
    if IsText(s) {
      var text :| s == EncodeAll(text);
      TextAccepted(text);
    }
  }

  // The shortest way to finish an open sequence.
  function Completion(step: Step): seq<byte> {
    match step
    case Normal => []
    case Utf3Tail1_1Of2 => [0xA0, 0x80]
    case Utf3Tail2_1Of2 => [0x80, 0x80]
    case Utf3Tail_1Of2 => [0x80, 0x80]
    case Utf4Tail1_1Of3 => [0x90, 0x80, 0x80]
    case Utf4Tail2_1Of3 => [0x80, 0x80, 0x80]
    case Utf4Tail_1Of3 => [0x80, 0x80, 0x80]
    case Utf4Tail_2Of3 => [0x80, 0x80]
    case _ => [0x80]
  }

  lemma CompletionCompletes(step: Step)
    ensures Check(step, Completion(step)) == At(Normal)
  {
    var s := Completion(step);
    if |s| == 1 {
      Check1(step, s[0]);
    } else if |s| == 2 {
      Check2(step, s[0], s[1]);
    } else if |s| == 3 {
      assert s == [s[0], s[1]] + [s[2]];
      CheckConcat(step, [s[0], s[1]], [s[2]]);
      Check2(step, s[0], s[1]);
      Check1(Utf4Tail_3Of3, s[2]);
    }
  }

  // Within a sequence every octet is one more given and one fewer to come.
  lemma {:induction false} WithinSequence(step: Step, s: seq<byte>)
    requires Check(step, s).At? && |s| <= |Completion(step)|
    ensures |Completion(Check(step, s).step)| == |Completion(step)| - |s|
    ensures |s| < |Completion(step)| ==> Given(Check(step, s).step) == Given(step) + |s| > |s|
  {
    if s != [] {
      WithinSequence(step, s[..|s| - 1]);
    }
  }

  // After `s` more octets are open than `s` has if and only if `s` does not finish the
  // sequence that was open before.
  lemma OpenBeforehand(step: Step, s: seq<byte>)
    requires Check(step, s).At?
    ensures Given(Check(step, s).step) > |s| <==> |s| < |Completion(step)|
  {
    hide Check, IsText;
    var n := |Completion(step)|;
    if |s| < n {
      WithinSequence(step, s);
    } else {
      assert s[..n] + s[n..] == s;
      CheckConcat(step, s[..n], s[n..]);
      WithinSequence(step, s[..n]);
      LongestTextPrefix(s[n..]);
    }
  }

  // The open octets alone lead to the same step.
  lemma OpenAlone(s: seq<byte>)
    requires Check(Normal, s).At?
    ensures Given(Check(Normal, s).step) <= |s|
    ensures Check(Normal, s[|s| - Given(Check(Normal, s).step)..]) == Check(Normal, s)
  {
    hide Check, IsText;
    LongestTextPrefix(s);
    var cut := |s| - Given(Check(Normal, s).step);
    AcceptsExactlyText(s[..cut]);
    assert s[..cut] + s[cut..] == s;
    CheckConcat(Normal, s[..cut], s[cut..]);
  }

  // Within a sequence no text is accepted but the empty one.
  lemma TextWithinSequence(step: Step, s: seq<byte>)
    requires IsText(s)
    ensures Check(step, s).At? <==> step == Normal || s == []
  {
    hide Check, Next;
    AcceptsExactlyText(s);
    if s == [] {
      CheckNothing(step, s);
    } else {
      assert s == [s[0]] + s[1..];
      CheckConcat(step, [s[0]], s[1..]);
      CheckConcat(Normal, [s[0]], s[1..]);
      Check1(step, s[0]);
      Check1(Normal, s[0]);
      if step != Normal { NeverBoth(step, s[0]); }
    }
  }

  lemma CheckNothing(step: Step, none: seq<byte>)
    requires none == []
    ensures Check(step, none) == At(step)
  {
  }

  // No octet both continues a sequence and starts one.
  lemma NeverBoth(step: Step, c: byte)
    requires step != Normal
    ensures Next(step, c).Bad? || Next(Normal, c).Bad?
  {
  }

  // The automaton stops at the first octet that no text can continue: it reads
  // on exactly as long as what it has read is the beginning of some text.
  lemma ReadsExactlyTextPrefixes(s: seq<byte>)
    ensures Check(Normal, s).At? <==> exists more: seq<byte> :: IsText(s + more)
  {
    hide Check, IsText, Completion;
    if Check(Normal, s).At? {
      var step := Check(Normal, s).step;
      CompletionCompletes(step);
      CheckConcat(Normal, s, Completion(step));
      AcceptsExactlyText(s + Completion(step));
    }
    if more: seq<byte> :| IsText(s + more) {
      CheckConcat(Normal, s, more);
      AcceptsExactlyText(s + more);
    }
  }

  // Cutting off the open octets, at most three, leaves the longest prefix of `s`
  // that is text.
  lemma LongestTextPrefix(s: seq<byte>)
    requires Check(Normal, s).At?
    ensures var given := Given(Check(Normal, s).step);
      && given <= 3 && given <= |s| && IsText(s[..|s| - given])
      && (forall k :: |s| - given < k <= |s| ==> !IsText(s[..k]))
  {
    hide Check, IsText;
    BeforeOpen(s);
    forall k | |s| - Given(Check(Normal, s).step) < k <= |s| ensures !IsText(s[..k]) {
      OpenIsNotText(s, k);
    }
  }

  lemma BeforeOpen(s: seq<byte>)
    requires Check(Normal, s).At?
    ensures var given := Given(Check(Normal, s).step); given <= |s| && IsText(s[..|s| - given])
  {
    hide Check, EncodeAll;
    var text, open := Parsed(s);
    assert |open| == Given(Check(Normal, s).step);
    assert s[..|s| - |open|] == EncodeAll(text);
  }

  lemma OpenIsNotText(s: seq<byte>, k: nat)
    requires Check(Normal, s).At? && Given(Check(Normal, s).step) <= |s|
    requires |s| - Given(Check(Normal, s).step) < k <= |s|
    ensures !IsText(s[..k])
    decreases |s| - k
  {
    AcceptsExactlyText(s[..k]);
    if k == |s| {
      assert s[..k] == s;
    } else {
      var front := s[..|s| - 1];
      assert front[..k] == s[..k];
      OpenIsNotText(front, k);
    }
  }

  predicate Continues(c: byte) {
    0x80 <= c <= 0xBF
  }

  lemma EncodeShape(v: Scalar)
    ensures !Continues(Encode(v)[0])
    ensures forall i :: 1 <= i < |Encode(v)| ==> Continues(Encode(v)[i])
  {
  }

  // The last encoding starts at the last octet that is not a continuation octet.
  lemma LastEncoding(x: seq<byte>, v: Scalar)
    ensures !Continues((x + Encode(v))[|x|])
    ensures forall k :: |x| < k < |x + Encode(v)| ==> Continues((x + Encode(v))[k])
  {
    EncodeShape(v);
  }

  lemma EncodeInjective(v: Scalar, w: Scalar)
    requires Encode(v) == Encode(w)
    ensures v == w
  {
  }

  // Two different texts never share an encoding.
  lemma {:induction false} EncodeAllInjective(a: seq<Scalar>, b: seq<Scalar>)
    requires EncodeAll(a) == EncodeAll(b)
    ensures a == b
    decreases |a|
  {
    hide Encode;
    if a != [] && b != [] {
      var v, w := a[|a| - 1], b[|b| - 1];
      SameEnd(EncodeAll(a[..|a| - 1]), v, EncodeAll(b[..|b| - 1]), w);
      EncodeAllInjective(a[..|a| - 1], b[..|b| - 1]);
    }
  }

  lemma SameEnd(x: seq<byte>, v: Scalar, y: seq<byte>, w: Scalar)
    requires x + Encode(v) == y + Encode(w)
    ensures x == y && v == w
  {
    hide Encode, Continues;
    LastEncoding(x, v);
    LastEncoding(y, w);
    var s := x + Encode(v);
    assert |x| == |y|;
    assert x == s[..|x|] == y;
    assert Encode(v) == s[|x|..] == Encode(w);
    EncodeInjective(v, w);
  }

  datatype Verdict = Invalid | Valid | Incomplete

  // MHD_websocket_check_utf8; `next` and `offset` are what it stores through its
  // two out-parameters.
  method CheckUtf8(buf: seq<byte>, step: Step) returns (verdict: Verdict, next: Step, offset: nat)
    ensures verdict.Invalid? <==> Check(step, buf) == Bad
    ensures verdict.Invalid? ==> next == step && offset == BadAt(step, buf)
    ensures verdict.Invalid? ==> Check(step, buf[..offset]).At? && Check(step, buf[..offset + 1]) == Bad
    ensures !verdict.Invalid? ==> Check(step, buf) == At(next) && offset == |buf|
    ensures verdict.Valid? <==> Check(step, buf) == At(Normal)
  {
    next := step;
    var current := step;
    for i := 0 to |buf|
      invariant Check(step, buf[..i]) == At(current)
    {
      assert buf[..i + 1][..i] == buf[..i];
      match Next(current, buf[i]) {
        case Bad =>
          BadStaysBad(step, buf[..i + 1], buf[i + 1..]);
          assert buf[..i + 1] + buf[i + 1..] == buf;
          FirstBad(step, buf, i);
          return Invalid, step, i;
        case At(q) =>
          current := q;
      }
    }
    assert buf[..|buf|] == buf;
    verdict := if current == Normal then Valid else Incomplete;
    next, offset := current, |buf|;
  }

  // There is only one place where the automaton first refuses an octet.
  lemma FirstBad(step: Step, s: seq<byte>, offset: nat)
    requires offset < |s| && Check(step, s[..offset]).At? && Check(step, s[..offset + 1]).Bad?
    ensures Check(step, s).Bad? && BadAt(step, s) == offset
  {
    hide Check, BadAt;
    assert s[..|s|] == s;
    if Check(step, s).At? {
      PrefixGood(step, s, offset + 1, |s|);
    } else {
      var at := BadAt(step, s);
      if at < offset {
        PrefixGood(step, s, at + 1, offset);
      } else if offset < at {
        PrefixGood(step, s, offset + 1, at);
      }
    }
  }

  lemma PrefixGood(step: Step, s: seq<byte>, k: nat, n: nat)
    requires k <= n <= |s| && Check(step, s[..n]).At?
    ensures Check(step, s[..k]).At?
  {
    hide Check;
    assert s[..k] + s[k..n] == s[..n];
    CheckConcat(step, s[..k], s[k..n]);
  }

  lemma BadStaysBad(step: Step, s: seq<byte>, more: seq<byte>)
    requires Check(step, s) == Bad
    ensures Check(step, s + more) == Bad
  {
    CheckConcat(step, s, more);
  }
}
