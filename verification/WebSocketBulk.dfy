// The decoder takes payload in whole runs of octets: one run does what its
// octets do one by one.
module WebSocketBulk {
  import opened Bytes
  import Utf8
  import opened WebSocketFrame
  import opened WebSocketDecoder
  import opened WebSocketRuns
  import opened WebSocketMessages

  function Shift(n: nat, c: Call): Call {
    c.(read := c.read + n)
  }

  // The rest of a call on the octets `rest`, once `now` has come about.
  function Resume(cfg: Config, now: Outcome, rest: seq<byte>): Call
    requires Keeps(now)
  {
    match now
    case More(d) => Scan(cfg, d, rest)
    case Complete(d, status, payload) => Call(d, status, 0, payload)
    case Failure(error, _) => Call(BROKEN, error, 0, [])
  }

  // The same for a call that may have started within a close payload.
  function Go(cfg: Config, now: Outcome, rest: seq<byte>): Call
    requires Keeps(now)
  {
    if now.More? then Decode(cfg, now.d, rest) else Resume(cfg, now, rest)
  }

  lemma GoIsResume(cfg: Config, now: Outcome, rest: seq<byte>)
    requires Keeps(now) && (now.More? ==> !MidClose(now.d) || rest == [])
    ensures Go(cfg, now, rest) == Resume(cfg, now, rest)
  {
    hide Scan;
  }

  lemma ScanOne(cfg: Config, d: Decoder, b: byte, rest: seq<byte>)
    requires Valid(d)
    ensures Keeps(Feed(cfg, d, b))
    ensures var o := Feed(cfg, d, b);
      Scan(cfg, d, [b] + rest) == Shift(if o.Failure? && !o.taken then 0 else 1, Resume(cfg, o, rest))
  {
    hide Feed, Valid;
    FeedKeepsValid(cfg, d, b);
    assert ([b] + rest)[1..] == rest;
  }

  lemma ScanOnly(cfg: Config, d: Decoder, chunk: seq<byte>, rest: seq<byte>)
    requires Valid(d) && |chunk| == 1
    ensures Keeps(Feed(cfg, d, chunk[0]))
    ensures var o := Feed(cfg, d, chunk[0]);
      Scan(cfg, d, chunk + rest) == Shift(if o.Failure? && !o.taken then 0 else 1, Resume(cfg, o, rest))
  {
    hide Scan, Feed, Valid, Keeps;
    assert chunk == [chunk[0]];
    ScanOne(cfg, d, chunk[0], rest);
  }

  // An octet that leads on to `d1`, from where the others lead to `o`.
  lemma ScanOnwards(cfg: Config, d: Decoder, chunk: seq<byte>, d1: Decoder, o: Outcome, rest: seq<byte>)
    requires Valid(d) && Valid(d1) && chunk != [] && Feed(cfg, d, chunk[0]) == More(d1) && Keeps(o)
    requires Scan(cfg, d1, chunk[1..] + rest) == Shift(|chunk| - 1, Resume(cfg, o, rest))
    ensures Scan(cfg, d, chunk + rest) == Shift(|chunk|, Resume(cfg, o, rest))
  {
    hide Scan, Feed, Valid, Keeps;
    assert chunk + rest == [chunk[0]] + (chunk[1..] + rest);
    ScanOne(cfg, d, chunk[0], chunk[1..] + rest);
  }

  // --- Data frames ---------------------------------------------------------------

  // Decoder `d` after more payload: the frame is complete or goes on.
  function Landed(cfg: Config, d: Decoder): (o: Outcome)
    requires d.header != [] && d.phase in {Data, Control}
    ensures o.Failure? ==> o.taken
  {
    if d.payloadIndex == d.payloadSize then PayloadComplete(cfg, d) else More(d)
  }

  lemma LandedKeeps(cfg: Config, d: Decoder, plain: seq<byte>)
    requires Valid(d) && d.phase == Data && d.payloadIndex + |plain| <= d.payloadSize && TextOk(d, plain)
    ensures Keeps(Landed(cfg, Filled(d, plain)))
  {
    PayloadCompleteKeepsValid(cfg, Filled(d, plain));
  }

  lemma DataOctet(cfg: Config, d: Decoder, b: byte, c: byte)
    requires Valid(d) && d.phase == Data && c == Xor(b, d.key[d.payloadIndex % 4])
    ensures TextOk(d, [c]) <==> !(d.dataType == 1 && Utf8.Next(d.utf8, c).Bad?)
    ensures Feed(cfg, d, b) ==
            if TextOk(d, [c]) then Landed(cfg, Filled(d, [c])) else Failure(UTF8_ENCODING_ERROR, false)
  {
    hide Utf8.Next, PayloadComplete, Xor;
    Utf8.Check1(d.utf8, c);
  }

  lemma FilledTwice(d: Decoder, c: byte, plain: seq<byte>)
    ensures TextOk(d, [c] + plain) <==> TextOk(d, [c]) && TextOk(Filled(d, [c]), plain)
    ensures TextOk(d, [c] + plain) ==> Filled(Filled(d, [c]), plain) == Filled(d, [c] + plain)
  {
    hide Utf8.Check;
    if d.dataType == 1 {
      Utf8.CheckConcat(d.utf8, [c], plain);
    }
    assert d.data + ([c] + plain) == d.data + [c] + plain;
  }

  lemma MaskedTail(chunk: seq<byte>, key: seq<byte>, offset: nat)
    requires IsKey(key) && chunk != []
    ensures Masked(chunk, key, offset) == [Xor(chunk[0], key[offset % 4])] + Masked(chunk[1..], key, offset + 1)
  {
  }

  // A run of octets of a data frame, all of them acceptable.
  lemma {:induction false} ScanData(cfg: Config, d: Decoder, chunk: seq<byte>, rest: seq<byte>)
    requires Valid(d) && d.phase == Data && chunk != [] && d.payloadIndex + |chunk| <= d.payloadSize
    requires TextOk(d, Masked(chunk, d.key, d.payloadIndex))
    ensures var d1 := Filled(d, Masked(chunk, d.key, d.payloadIndex));
      && Keeps(Landed(cfg, d1))
      && Scan(cfg, d, chunk + rest) == Shift(|chunk|, Resume(cfg, Landed(cfg, d1), rest))
    decreases |chunk|
  {
    hide Scan, Feed, Utf8.Check, Masked, PayloadComplete;
    var plain := Masked(chunk, d.key, d.payloadIndex);
    LandedKeeps(cfg, d, plain);
    MaskedTail(chunk, d.key, d.payloadIndex);
    var c, tail := plain[0], Masked(chunk[1..], d.key, d.payloadIndex + 1);
    FilledTwice(d, c, tail);
    DataOctet(cfg, d, chunk[0], c);
    assert chunk + rest == [chunk[0]] + (chunk[1..] + rest);
    ScanOne(cfg, d, chunk[0], chunk[1..] + rest);
    if chunk[1..] == [] {
      assert plain == [c];
      assert chunk[1..] + rest == rest;
    } else {
      ScanData(cfg, Filled(d, [c]), chunk[1..], rest);
    }
  }

  // A run of octets of a text frame with the first unacceptable one at `offset`.
  lemma ScanBadText(cfg: Config, d: Decoder, chunk: seq<byte>, rest: seq<byte>, offset: nat)
    requires Valid(d) && d.phase == Data && d.dataType == 1
    requires d.payloadIndex + |chunk| <= d.payloadSize && offset < |chunk|
    requires var plain := Masked(chunk, d.key, d.payloadIndex);
      && Utf8.Check(d.utf8, plain[..offset]).At?
      && Utf8.Check(d.utf8, plain[..offset + 1]).Bad?
    ensures Scan(cfg, d, chunk + rest) == Call(BROKEN, UTF8_ENCODING_ERROR, offset, [])
  {
    hide Scan, Feed, Utf8.Check;
    var plain := Masked(chunk, d.key, d.payloadIndex);
    var good, c := plain[..offset], plain[offset];
    assert plain[..offset + 1] == good + [c];
    Utf8.CheckConcat(d.utf8, good, [c]);
    var d1 := Filled(d, good);
    var more := chunk[offset + 1..] + rest;
    assert chunk + rest == chunk[..offset] + ([chunk[offset]] + more);
    assert Masked(chunk[..offset], d.key, d.payloadIndex) == good;
    if offset == 0 {
      assert d.data + good == d.data;
      Utf8.CheckNothing(d.utf8, good);
      assert d1 == d;
      assert chunk[..offset] + ([chunk[offset]] + more) == [chunk[offset]] + more;
    } else {
      ScanData(cfg, d, chunk[..offset], [chunk[offset]] + more);
    }
    assert Landed(cfg, d1) == More(d1);
    LandedKeeps(cfg, d, good);
    DataOctet(cfg, d1, chunk[offset], c);
    ScanOne(cfg, d1, chunk[offset], more);
  }

  // --- Control frames --------------------------------------------------------------

  lemma LandedControlKeeps(cfg: Config, d: Decoder, plain: seq<byte>, utf8: Utf8.Step)
    requires Valid(d) && d.phase == Control && d.payloadIndex + |plain| <= d.payloadSize
    ensures Keeps(Landed(cfg, Controlled(d, plain).(utf8 := utf8)))
    ensures Keeps(Landed(cfg, Controlled(d, plain)))
  {
    PayloadCompleteKeepsValid(cfg, Controlled(d, plain).(utf8 := utf8));
    PayloadCompleteKeepsValid(cfg, Controlled(d, plain));
  }

  // These octets stand before the reason text of a close frame, or in another control frame.
  ghost predicate Unchecked(d: Decoder, chunk: seq<byte>) {
    && Valid(d) && d.phase == Control && chunk != [] && d.payloadIndex + |chunk| <= d.payloadSize
    && (Opcode(d) != 8 || d.payloadIndex + |chunk| <= 2)
  }

  // What the chunk leads to, if it finishes the frame or not.
  function Through(cfg: Config, d: Decoder, chunk: seq<byte>): Outcome
    requires IsKey(d.key) && d.header != [] && d.phase == Control
  {
    Landed(cfg, Controlled(d, Masked(chunk, d.key, d.payloadIndex)))
  }

  lemma ThroughKeeps(cfg: Config, d: Decoder, chunk: seq<byte>)
    requires Unchecked(d, chunk)
    ensures Keeps(Through(cfg, d, chunk))
  {
    LandedControlKeeps(cfg, d, Masked(chunk, d.key, d.payloadIndex), d.utf8);
  }

  // The first octet.
  lemma UncheckedFed(cfg: Config, d: Decoder, b: byte, c: byte)
    requires Unchecked(d, [b]) && c == Xor(b, d.key[d.payloadIndex % 4])
    ensures Feed(cfg, d, b) == Landed(cfg, Controlled(d, [c]))
  {
    hide PayloadComplete, Utf8.Next, Xor;
  }

  // The octets behind it.
  lemma UncheckedTail(d: Decoder, chunk: seq<byte>, c: byte)
    requires Unchecked(d, chunk) && c == Xor(chunk[0], d.key[d.payloadIndex % 4])
    ensures Unchecked(d, [chunk[0]])
    ensures var d1, all := Controlled(d, [c]), Masked(chunk, d.key, d.payloadIndex);
      if |chunk| == 1 then Controlled(d, all) == d1
      else Unchecked(d1, chunk[1..]) && Controlled(d1, Masked(chunk[1..], d.key, d1.payloadIndex)) == Controlled(d, all)
  {
    MaskedTail(chunk, d.key, d.payloadIndex);
    hide Masked, Xor;
    var tail := Masked(chunk[1..], d.key, d.payloadIndex + 1);
    assert d.control + [c] + tail == d.control + ([c] + tail);
  }

  // The first octet, and then the others.
  lemma UncheckedOctet(cfg: Config, d: Decoder, chunk: seq<byte>) returns (d1: Decoder)
    requires Unchecked(d, chunk)
    ensures |chunk| == 1 ==> Feed(cfg, d, chunk[0]) == Through(cfg, d, chunk)
    ensures |chunk| > 1 ==>
      && Feed(cfg, d, chunk[0]) == More(d1) && Unchecked(d1, chunk[1..])
      && Through(cfg, d1, chunk[1..]) == Through(cfg, d, chunk)
  {
    assert IsKey(d.key) && d.header != [];
    hide PayloadComplete, Xor, Masked, Feed, Valid;
    var c := Xor(chunk[0], d.key[d.payloadIndex % 4]);
    UncheckedTail(d, chunk, c);
    UncheckedFed(cfg, d, chunk[0], c);
    d1 := Controlled(d, [c]);
  }

  lemma {:induction false} ScanUnchecked(cfg: Config, d: Decoder, chunk: seq<byte>, rest: seq<byte>)
    requires Unchecked(d, chunk)
    ensures Keeps(Through(cfg, d, chunk))
    ensures Scan(cfg, d, chunk + rest) == Shift(|chunk|, Resume(cfg, Through(cfg, d, chunk), rest))
    decreases |chunk|
  {
    assert IsKey(d.key) && d.header != [];
    hide Scan, Feed, Through, Valid, Keeps, Resume;
    ThroughKeeps(cfg, d, chunk);
    var d1 := UncheckedOctet(cfg, d, chunk);
    if |chunk| == 1 {
      ThroughIsTaken(cfg, d, chunk);
      ScanOnly(cfg, d, chunk, rest);
    } else {
      ScanUnchecked(cfg, d1, chunk[1..], rest);
      ScanOnwards(cfg, d, chunk, d1, Through(cfg, d, chunk), rest);
    }
  }

  lemma ThroughIsTaken(cfg: Config, d: Decoder, chunk: seq<byte>)
    requires Unchecked(d, chunk)
    ensures Through(cfg, d, chunk).Failure? ==> Through(cfg, d, chunk).taken
  {
  }

  // Decoder `d` after the octets `plain` of a reason text.
  function Reasoned(d: Decoder, plain: seq<byte>): Decoder
    requires Utf8.Check(ReasonStep(d), plain).At?
  {
    Controlled(d, plain).(utf8 := Utf8.Check(ReasonStep(d), plain).step)
  }

  lemma ReasonOctet(cfg: Config, d: Decoder, b: byte, c: byte)
    requires Valid(d) && d.phase == Control && InReason(d) && c == Xor(b, d.key[d.payloadIndex % 4])
    ensures Utf8.Check(ReasonStep(d), [c]) == Utf8.Next(ReasonStep(d), c)
    ensures Feed(cfg, d, b) ==
            if Utf8.Next(ReasonStep(d), c).At? then Landed(cfg, Reasoned(d, [c]))
            else Failure(UTF8_ENCODING_ERROR, false)
  {
    hide Utf8.Next, PayloadComplete, Xor;
    Utf8.Check1(ReasonStep(d), c);
  }

  lemma ReasonedTwice(d: Decoder, c: byte, plain: seq<byte>)
    requires d.payloadIndex >= 2
    ensures Utf8.Check(ReasonStep(d), [c] + plain).At? <==>
            Utf8.Check(ReasonStep(d), [c]).At? && Utf8.Check(ReasonStep(Reasoned(d, [c])), plain).At?
    ensures Utf8.Check(ReasonStep(d), [c] + plain).At? ==>
            Reasoned(Reasoned(d, [c]), plain) == Reasoned(d, [c] + plain)
  {
    hide Utf8.Check;
    Utf8.CheckConcat(ReasonStep(d), [c], plain);
    assert d.control + ([c] + plain) == d.control + [c] + plain;
  }

  // Octets of a reason text, all of them acceptable.
  lemma {:induction false} ScanReason(cfg: Config, d: Decoder, chunk: seq<byte>, rest: seq<byte>)
    requires Valid(d) && d.phase == Control && InReason(d)
    requires chunk != [] && d.payloadIndex + |chunk| <= d.payloadSize
    requires Utf8.Check(ReasonStep(d), Masked(chunk, d.key, d.payloadIndex)).At?
    ensures var d1 := Reasoned(d, Masked(chunk, d.key, d.payloadIndex));
      && Keeps(Landed(cfg, d1))
      && Scan(cfg, d, chunk + rest) == Shift(|chunk|, Resume(cfg, Landed(cfg, d1), rest))
    decreases |chunk|
  {
    hide Scan, Feed, Utf8.Check, Masked, PayloadComplete;
    var plain := Masked(chunk, d.key, d.payloadIndex);
    LandedControlKeeps(cfg, d, plain, Utf8.Check(ReasonStep(d), plain).step);
    MaskedTail(chunk, d.key, d.payloadIndex);
    var c, tail := plain[0], Masked(chunk[1..], d.key, d.payloadIndex + 1);
    ReasonedTwice(d, c, tail);
    ReasonOctet(cfg, d, chunk[0], c);
    assert chunk + rest == [chunk[0]] + (chunk[1..] + rest);
    ScanOne(cfg, d, chunk[0], chunk[1..] + rest);
    if chunk[1..] == [] {
      assert plain == [c];
      assert chunk[1..] + rest == rest;
    } else {
      ScanReason(cfg, Reasoned(d, [c]), chunk[1..], rest);
    }
  }

  // Octets of a reason text with the first unacceptable one at `offset`.
  lemma ScanBadReason(cfg: Config, d: Decoder, chunk: seq<byte>, rest: seq<byte>, offset: nat)
    requires Valid(d) && d.phase == Control && InReason(d)
    requires d.payloadIndex + |chunk| <= d.payloadSize && offset < |chunk|
    requires var plain := Masked(chunk, d.key, d.payloadIndex);
      && Utf8.Check(ReasonStep(d), plain[..offset]).At?
      && Utf8.Check(ReasonStep(d), plain[..offset + 1]).Bad?
    ensures Scan(cfg, d, chunk + rest) == Call(BROKEN, UTF8_ENCODING_ERROR, offset, [])
  {
    hide Scan, Feed, Utf8.Check;
    var plain := Masked(chunk, d.key, d.payloadIndex);
    var good, c := plain[..offset], plain[offset];
    assert plain[..offset + 1] == good + [c];
    Utf8.CheckConcat(ReasonStep(d), good, [c]);
    var more := chunk[offset + 1..] + rest;
    assert chunk + rest == chunk[..offset] + ([chunk[offset]] + more);
    assert Masked(chunk[..offset], d.key, d.payloadIndex) == good;
    if offset == 0 {
      Utf8.CheckNothing(ReasonStep(d), good);
      assert chunk + rest == [chunk[offset]] + more;
      ReasonOctet(cfg, d, chunk[offset], c);
      ScanOne(cfg, d, chunk[offset], more);
    } else {
      var d1 := Reasoned(d, good);
      ScanReason(cfg, d, chunk[..offset], [chunk[offset]] + more);
      assert Landed(cfg, d1) == More(d1);
      ReasonOctet(cfg, d1, chunk[offset], c);
      ScanOne(cfg, d1, chunk[offset], more);
    }
  }

  // What a run of octets of a control frame amounts to.
  ghost predicate ScansAs(cfg: Config, d: Decoder, chunk: seq<byte>, rest: seq<byte>, taken: Taken)
    requires Valid(d)
  {
    match taken
    case Accepted(d1) =>
      && d1.header != [] && d1.phase == Control && Keeps(Landed(cfg, d1))
      && Scan(cfg, d, chunk + rest) == Shift(|chunk|, Resume(cfg, Landed(cfg, d1), rest))
    case Rejected(error, read) => Scan(cfg, d, chunk + rest) == Call(BROKEN, error, read, [])
  }

  // A run that starts with the payload of the close frame is checked as it should be.
  lemma ScanClose(cfg: Config, d: Decoder, chunk: seq<byte>, rest: seq<byte>)
    requires Valid(d) && d.phase == Control && Opcode(d) == 8 && d.payloadIndex == 0
    requires 2 < |chunk| <= d.payloadSize
    ensures ScansAs(cfg, d, chunk, rest, ControlTaken(d, Masked(chunk, d.key, d.payloadIndex)))
  {
    hide Scan, Feed, Utf8.Check, Masked, PayloadComplete;
    var plain := Masked(chunk, d.key, 0);
    var code, reason := chunk[..2], chunk[2..];
    MaskedAt(chunk, d.key, 2);
    var d2 := Controlled(d, plain[..2]);
    assert chunk + rest == code + (reason + rest);
    ScanUnchecked(cfg, d, code, reason + rest);
    assert Landed(cfg, d2) == More(d2);
    assert d2.control + plain[2..] == d.control + plain;
    assert plain[2..|plain|] == plain[2..];
    if Utf8.Check(Utf8.Normal, plain[2..]).At? {
      ScanReason(cfg, d2, reason, rest);
      assert Reasoned(d2, plain[2..]) == Controlled(d, plain).(utf8 := Utf8.Check(Utf8.Normal, plain[2..]).step);
    } else {
      ScanBadReason(cfg, d2, reason, rest, Utf8.BadAt(Utf8.Normal, plain[2..]));
    }
  }

  lemma MaskedAt(chunk: seq<byte>, key: seq<byte>, k: nat)
    requires IsKey(key) && k <= |chunk|
    ensures Masked(chunk, key, 0)[..k] == Masked(chunk[..k], key, 0)
    ensures Masked(chunk, key, 0)[k..] == Masked(chunk[k..], key, k)
  {
  }

  // A run of octets of a control frame, unless an earlier call has begun with its
  // reason text.
  lemma ScanControl(cfg: Config, d: Decoder, chunk: seq<byte>, rest: seq<byte>)
    requires Valid(d) && d.phase == Control && chunk != [] && d.payloadIndex + |chunk| <= d.payloadSize
    requires !MidClose(d)
    ensures ScansAs(cfg, d, chunk, rest, ControlTaken(d, Masked(chunk, d.key, d.payloadIndex)))
  {
    hide Scan, Feed, Utf8.Check, Masked, PayloadComplete;
    if Opcode(d) == 8 && d.payloadIndex + |chunk| > 2 {
      ScanClose(cfg, d, chunk, rest);
    } else {
      ScanUnchecked(cfg, d, chunk, rest);
    }
  }

  // --- Whole calls ------------------------------------------------------------------

  lemma HeaderStays(cfg: Config, d: Decoder, b: byte)
    requires Valid(d) && d.phase !in {Data, Control} && Feed(cfg, d, b).More?
    ensures Feed(cfg, d, b).d.payloadIndex == 0
  {
    hide FromBigEndian, HeaderComplete, LengthKnown;
    var d1 := d.(header := d.header + [b]);
    match d.phase
    case Length => KnownStays(cfg, d1, b % 128);
    case Length2 => if |d1.header| == 4 { KnownStays(cfg, d1, FromBigEndian(d1.header[2..4])); }
    case Length8 => if |d1.header| == 10 { KnownStays(cfg, d1, FromBigEndian(d1.header[2..10])); }
    case Mask => if |d1.header| == LengthEnd(d) + 4 { KnownStays(cfg, d1.(key := d1.header[|d1.header| - 4..]), 0); }
    case _ =>
  }

  lemma KnownStays(cfg: Config, d: Decoder, size: nat)
    requires |d.header| >= 2 && d.payloadIndex == 0
    ensures LengthKnown(cfg, d, size).More? ==> LengthKnown(cfg, d, size).d.payloadIndex == 0
    ensures HeaderComplete(cfg, d).More? ==> HeaderComplete(cfg, d).d.payloadIndex == 0
  {
  }

  // One octet outside of any payload.
  lemma HeaderGoes(cfg: Config, d: Decoder, b: byte, rest: seq<byte>)
    requires Valid(d) && d.phase !in {Data, Control, Dead}
    ensures Keeps(Feed(cfg, d, b))
    ensures var o := Feed(cfg, d, b);
      Decode(cfg, d, [b] + rest) == Shift(if o.Failure? && !o.taken then 0 else 1, Go(cfg, o, rest))
  {
    hide Scan, Feed;
    ScanOne(cfg, d, b, rest);
    if Feed(cfg, d, b).More? {
      HeaderStays(cfg, d, b);
    }
    GoIsResume(cfg, Feed(cfg, d, b), rest);
  }

  // What a call makes of the octets of a control frame that it finds in its buffer.
  ghost predicate GoesAs(cfg: Config, d: Decoder, chunk: seq<byte>, rest: seq<byte>, taken: Taken)
    requires Valid(d)
  {
    match taken
    case Accepted(d1) =>
      && d1.header != [] && d1.phase == Control && Keeps(Landed(cfg, d1))
      && Decode(cfg, d, chunk + rest) == Shift(|chunk|, Go(cfg, Landed(cfg, d1), rest))
    case Rejected(error, read) => Decode(cfg, d, chunk + rest) == Call(BROKEN, error, read, [])
  }

  lemma ControlGoes(cfg: Config, d: Decoder, chunk: seq<byte>, rest: seq<byte>)
    requires Valid(d) && d.phase == Control && chunk != [] && d.payloadIndex + |chunk| <= d.payloadSize
    requires rest == [] || d.payloadIndex + |chunk| == d.payloadSize
    ensures GoesAs(cfg, d, chunk, rest, ControlTaken(d, Masked(chunk, d.key, d.payloadIndex)))
  {
    hide Scan, ControlTaken, Masked;
    var taken := ControlTaken(d, Masked(chunk, d.key, d.payloadIndex));
    if MidClose(d) {
      assert (chunk + rest)[..|chunk|] == chunk;
      if taken.Accepted? {
        TakenStays(d, Masked(chunk, d.key, d.payloadIndex));
        CloseLands(cfg, d, Masked(chunk, d.key, d.payloadIndex), taken.d.utf8, rest);
      }
    } else {
      ScanControl(cfg, d, chunk, rest);
      if taken.Accepted? {
        TakenStays(d, Masked(chunk, d.key, d.payloadIndex));
        GoIsResume(cfg, Landed(cfg, taken.d), rest);
      }
    }
  }

  lemma TakenStays(d: Decoder, plain: seq<byte>)
    requires d.header != [] && ControlTaken(d, plain).Accepted?
    ensures var d1 := ControlTaken(d, plain).d; d1 == Controlled(d, plain).(utf8 := d1.utf8)
  {
  }

  lemma CloseLands(cfg: Config, d: Decoder, plain: seq<byte>, utf8: Utf8.Step, rest: seq<byte>)
    requires Valid(d) && MidClose(d) && d.payloadIndex + |plain| <= d.payloadSize
    requires rest == [] || d.payloadIndex + |plain| == d.payloadSize
    ensures var d1 := Controlled(d, plain).(utf8 := utf8);
      && Keeps(Landed(cfg, d1))
      && Go(cfg, Landed(cfg, d1), rest) ==
           if d1.payloadIndex < d1.payloadSize then Call(d1, OK, 0, [])
           else Call(d1.(phase := Start, header := [], payloadIndex := 0, control := []), 8, 0, d1.control)
  {
    PayloadCompleteKeepsValid(cfg, Controlled(d, plain).(utf8 := utf8));
  }
}
