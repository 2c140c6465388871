// The reason text of a close frame: when it is accepted, and how that depends on the
// calls that deliver it.
module WebSocketClose {
  import opened Bytes
  import Utf8
  import opened WebSocketFrame
  import opened WebSocketDecoder
  import opened WebSocketRuns
  import opened WebSocketMessages
  import opened WebSocketBulk
  import opened WebSocketControl

  // The next octet is the first one of a close payload with a reason text.
  ghost predicate AtClose(d: Decoder) {
    Valid(d) && d.phase == Control && Opcode(d) == 8 && d.payloadIndex == 0 && d.payloadSize > 2
  }

  // --- One call and several calls --------------------------------------------------------

  // The decoder `d1` has taken octets of a close payload, in a call that ends with them.
  function Delivered(d1: Decoder): Run {
    if d1.payloadIndex < d1.payloadSize then Run(d1, [])
    else Run(d1.(phase := Start, header := [], payloadIndex := 0, control := []), [Message(8, d1.control)])
  }

  lemma DrainNothing(cfg: Config, d: Decoder, none: seq<byte>)
    requires Valid(d) && none == []
    ensures Drain(cfg, d, none) == Run(d, [])
  {
  }

  // A buffer that holds nothing but octets of a close payload.
  lemma CloseCall(cfg: Config, d: Decoder, plain: seq<byte>)
    requires Valid(d) && d.phase == Control && Opcode(d) == 8
    requires plain != [] && d.payloadIndex + |plain| <= d.payloadSize
    ensures Drain(cfg, d, Masked(plain, d.key, d.payloadIndex)) ==
            match ControlTaken(d, plain)
            case Accepted(d1) => Delivered(d1)
            case Rejected(error, _) => Run(BROKEN, [Error(error)])
  {
    hide Masked, ControlTaken, Scan, Continued, Drain;
    var chunk := Masked(plain, d.key, d.payloadIndex);
    MaskedTwice(plain, d.key, d.payloadIndex);
    assert chunk + [] == chunk;
    ControlGoes(cfg, d, chunk, []);
    DrainOnce(cfg, d, chunk);
    if ControlTaken(d, plain).Accepted? {
      TakenStays(d, plain);
      CloseLanded(cfg, ControlTaken(d, plain).d);
    }
  }

  lemma DrainOnce(cfg: Config, d: Decoder, buf: seq<byte>)
    requires Valid(d) && d.phase != Dead
    ensures Valid(Decode(cfg, d, buf).d)
    ensures var c := Decode(cfg, d, buf);
      && (c.status == OK ==> Drain(cfg, d, buf) == Run(c.d, []))
      && (c.status < 0 ==> Drain(cfg, d, buf) == Run(c.d, [Error(c.status)]))
      && (c.status > 0 && c.read == |buf| ==> Drain(cfg, d, buf) == Run(c.d, [Message(c.status, c.payload)]))
  {
    hide Decode;
    DecodeFits(cfg, d, buf);
    var c := Decode(cfg, d, buf);
    if c.status > 0 && c.read == |buf| {
      DrainNothing(cfg, c.d, buf[c.read..]);
    }
  }

  // What the end of the call makes of the octets taken.
  lemma CloseLanded(cfg: Config, d1: Decoder)
    requires d1.header != [] && d1.phase == Control && Opcode(d1) == 8 && Keeps(Landed(cfg, d1)) && IsFin(d1)
    requires d1.payloadIndex <= d1.payloadSize
    ensures Go(cfg, Landed(cfg, d1), []) ==
            if d1.payloadIndex < d1.payloadSize then Call(d1, OK, 0, [])
            else Call(d1.(phase := Start, header := [], payloadIndex := 0, control := []), 8, 0, d1.control)
  {
  }

  lemma {:induction false} ReceiveFirst(cfg: Config, d: Decoder, chunks: seq<seq<byte>>)
    requires Valid(d) && chunks != []
    ensures var r := Drain(cfg, d, chunks[0]); Receive(cfg, d, chunks) == After(r, Receive(cfg, r.d, chunks[1..]))
    decreases |chunks|
  {
    hide Drain;
    var front := chunks[..|chunks| - 1];
    var r := Drain(cfg, d, chunks[0]);
    if front == [] {
      assert chunks == [chunks[0]];
      assert Receive(cfg, d, front) == Run(d, []);
      assert Receive(cfg, r.d, chunks[1..]) == Run(r.d, []);
    } else {
      ReceiveFirst(cfg, d, front);
      assert chunks[1..][..|chunks| - 2] == front[1..];
    }
  }

  lemma {:induction false} DeadReceivesNothing(cfg: Config, chunks: seq<seq<byte>>)
    ensures Receive(cfg, BROKEN, chunks) == Run(BROKEN, [])
  {
    if chunks != [] {
      DeadReceivesNothing(cfg, chunks[..|chunks| - 1]);
    }
  }

  // --- The whole payload at once ---------------------------------------------------------

  // A close payload that no cut divides is handed out exactly if its reason text is the
  // beginning of some text.
  lemma WholeReason(cfg: Config, d: Decoder, p: seq<byte>)
    requires AtClose(d) && |p| == d.payloadSize
    ensures Stream(cfg, d, Masked(p, d.key, 0)).events ==
            if Utf8.Check(Utf8.Normal, p[2..]).At? then [Message(8, p)] else [Error(UTF8_ENCODING_ERROR)]
  {
    hide Stream, Masked, Utf8.Check, Drain;
    DrainIsStream(cfg, d, Masked(p, d.key, 0));
    CloseCall(cfg, d, p);
    assert p[2..|p|] == p[2..];
    assert d.control + p == p;
  }

  lemma CloseBody(cfg: Config, d: Decoder, key: seq<byte>, p: seq<byte>) returns (header: seq<byte>, d1: Decoder)
    requires Sendable(cfg, d, CLOSE, key, p) && |p| > 2
    ensures AtClose(d1) && d1.payloadSize == |p| && Stream(cfg, d, header) == Run(d1, [])
    ensures |header| + |p| == |ControlFrame(CLOSE, key, p)|
    ensures ControlFrame(CLOSE, key, p) == header + Masked(p, d1.key, 0)
  {
    hide Stream, PayloadComplete;
    header := [0x80 + CLOSE, LengthByte(key != [], |p|)] + key;
    d1 := ControlHead(d, CLOSE, key, |p|).(phase := Control, control := []);
    ControlHeaderFed(cfg, d, CLOSE, key, p);
    assert ControlHead(d, CLOSE, key, |p|).header[0] == 0x80 + CLOSE;
    UnmaskedBody(p);
  }

  lemma CloseFrameVerdict(cfg: Config, d: Decoder, key: seq<byte>, p: seq<byte>)
    requires Sendable(cfg, d, CLOSE, key, p) && |p| > 2
    ensures Stream(cfg, d, ControlFrame(CLOSE, key, p)).events ==
            if Utf8.Check(Utf8.Normal, p[2..]).At? then [Message(8, p)] else [Error(UTF8_ENCODING_ERROR)]
    ensures Stream(cfg, d, ControlFrame(CLOSE, key, p)).events == [Message(8, p)] <==>
            exists more: seq<byte> :: Utf8.IsText(p[2..] + more)
  {
    hide Stream, Masked, Utf8.Check, ControlFrame;
    var header, d1 := CloseBody(cfg, d, key, p);
    StreamConcat(cfg, d, header, Masked(p, d1.key, 0));
    WholeReason(cfg, d1, p);
    Utf8.ReadsExactlyTextPrefixes(p[2..]);
  }

  // --- One cut ------------------------------------------------------------------------------

  lemma TwoCalls(cfg: Config, d: Decoder, a: seq<byte>, b: seq<byte>)
    requires Valid(d)
    ensures var r := Drain(cfg, d, a); Receive(cfg, d, [a, b]) == After(r, Drain(cfg, r.d, b))
  {
    hide Drain;
    assert [a, b][..1] == [a] && [a][..0] == [];
    assert Receive(cfg, d, []) == Run(d, []);
    assert Receive(cfg, d, [a]) == Drain(cfg, d, a);
  }

  // The second of two calls, after the first one has accepted the `k` first octets.
  lemma SecondCall(cfg: Config, d1: Decoder, p: seq<byte>, k: nat)
    requires Valid(d1) && d1.phase == Control && Opcode(d1) == 8 && d1.payloadSize == |p| > 2
    requires 0 < k < |p| && d1.payloadIndex == k && d1.control == p[..k]
    ensures Drain(cfg, d1, Masked(p[k..], d1.key, k)).events ==
            match CloseReading(k, p[k..], true)
            case Passed(_) => [Message(8, p)]
            case Refused(_) => [Error(UTF8_ENCODING_ERROR)]
            case Astray => [Error(UNDEFINED)]
  {
    hide Drain, Masked, CloseReading;
    CloseCall(cfg, d1, p[k..]);
    assert p[..k] + p[k..] == p;
  }

  lemma FirstCall(cfg: Config, d: Decoder, p: seq<byte>, k: nat) returns (d1: Decoder)
    requires AtClose(d) && |p| == d.payloadSize && 0 < k < |p| && Utf8.Check(Utf8.Normal, p[2..]).At?
    ensures d1 == d.(control := p[..k], payloadIndex := k, utf8 := d1.utf8)
    ensures Drain(cfg, d, Masked(p[..k], d.key, 0)) == Run(d1, [])
  {
    hide Drain, Masked, Utf8.Check;
    CloseCall(cfg, d, p[..k]);
    assert d.control + p[..k] == p[..k];
    if k > 2 {
      assert p[..k][2..k] == p[2..][..k - 2];
      assert p[2..][..|p| - 2] == p[2..];
      Utf8.PrefixGood(Utf8.Normal, p[2..], k - 2, |p| - 2);
    }
    d1 := ControlTaken(d, p[..k]).d;
  }

  // The same for the two calls that deliver an acceptable payload cut at `k`.
  lemma CutReason(cfg: Config, d: Decoder, p: seq<byte>, k: nat)
    requires AtClose(d) && |p| == d.payloadSize && 0 < k < |p| && Utf8.Check(Utf8.Normal, p[2..]).At?
    ensures var wire := Masked(p, d.key, 0);
      Receive(cfg, d, [wire[..k], wire[k..]]).events ==
      match CloseReading(k, p[k..], true)
      case Passed(_) => [Message(8, p)]
      case Refused(_) => [Error(UTF8_ENCODING_ERROR)]
      case Astray => [Error(UNDEFINED)]
  {
    hide Drain, Receive, Masked, CloseReading, Utf8.Check;
    var wire := Masked(p, d.key, 0);
    MaskedAt(p, d.key, k);
    TwoCalls(cfg, d, wire[..k], wire[k..]);
    var d1 := FirstCall(cfg, d, p, k);
    assert Valid(Drain(cfg, d, wire[..k]).d);
    SecondCall(cfg, d1, p, k);
  }

  // What is left of `p` without its first and its last `k` octets.
  function Middle(p: seq<byte>, k: nat): seq<byte>
    requires 2 * k <= |p|
  {
    p[k..|p| - k]
  }

  // What the second call finds.
  lemma SecondReading(p: seq<byte>, k: nat)
    requires 0 < k < |p| && |p| > 2 && Utf8.Check(Utf8.Normal, p[2..]).At?
    ensures var r := CloseReading(k, p[k..], true);
      && (r.Passed? <==> k == 1 || (2 * k <= |p| && Utf8.Check(Utf8.Normal, Middle(p, k)).At?))
      && (r.Astray? <==> 2 * k > |p| && Utf8.Check(Utf8.Normal, p[k..]) == Utf8.At(Utf8.Normal))
  {
    hide Utf8.Check;
    var q := p[k..];
    if k == 1 {
      assert q[1..|q| - 1] == p[2..][..|p| - 3];
      assert p[2..][..|p| - 2] == p[2..];
      Utf8.PrefixGood(Utf8.Normal, p[2..], |p| - 3, |p| - 2);
    } else if 2 * k <= |p| {
      assert q[..|q| - k] == Middle(p, k);
    } else {
      NulBehind(q);
    }
  }

  // The NUL behind the payload is refused exactly within a sequence.
  lemma NulBehind(s: seq<byte>)
    ensures Utf8.Check(Utf8.Normal, s + [0]).At? <==> Utf8.Check(Utf8.Normal, s) == Utf8.At(Utf8.Normal)
  {
    assert (s + [0])[..|s|] == s;
  }

  // Which close frames survive a cut.  One that would be handed out if it came in one
  // buffer, and whose payload is cut at `k`, is still handed out if and only if the cut
  // is behind the first octet, or in the first half and as many octets from the end as
  // from the start enclose the beginning of a text.  A cut in the second half makes the
  // check leave the octets it was given if and only if what follows the cut is text.
  lemma CutCloseVerdict(cfg: Config, d: Decoder, key: seq<byte>, p: seq<byte>, k: nat)
    requires Sendable(cfg, d, CLOSE, key, p) && |p| > 2 && 0 < k < |p|
    requires Utf8.Check(Utf8.Normal, p[2..]).At?
    ensures var frame := ControlFrame(CLOSE, key, p);
      var at := |frame| - |p| + k;
      var events := Receive(cfg, d, [frame[..at], frame[at..]]).events;
      var middle := if 2 * k <= |p| then p[k..|p| - k] else [];
      && (events == [Message(8, p)] <==>
           k == 1 || (2 * k <= |p| && exists more: seq<byte> :: Utf8.IsText(middle + more)))
      && (events == [Error(UNDEFINED)] <==> 2 * k > |p| && Utf8.IsText(p[k..]))
      && (events in {[Message(8, p)], [Error(UNDEFINED)], [Error(UTF8_ENCODING_ERROR)]})
  {
    hide Stream, Drain, Receive, Masked, CloseReading, Utf8.Check, ControlFrame;
    var header, d1 := CloseBody(cfg, d, key, p);
    var frame, wire := ControlFrame(CLOSE, key, p), Masked(p, d1.key, 0);
    var at := |frame| - |p| + k;
    assert frame[..at] == header + wire[..k] && frame[at..] == wire[k..];
    HeaderThenPart(cfg, d, header, d1, wire[..k], wire[k..]);
    CutReason(cfg, d1, p, k);
    SecondReading(p, k);
    if 2 * k <= |p| {
      Utf8.ReadsExactlyTextPrefixes(Middle(p, k));
    }
    Utf8.AcceptsExactlyText(p[k..]);
  }

  // A header in front of the first buffer makes no difference.
  lemma HeaderThenPart(cfg: Config, d: Decoder, header: seq<byte>, d1: Decoder, a: seq<byte>, b: seq<byte>)
    requires Valid(d) && d.phase == Start && AtClose(d1) && Stream(cfg, d, header) == Run(d1, [])
    ensures Receive(cfg, d, [header + a, b]) == Receive(cfg, d1, [a, b])
  {
    hide Stream, Drain, Receive;
    TwoCalls(cfg, d, header + a, b);
    TwoCalls(cfg, d1, a, b);
    DrainIsStream(cfg, d, header + a);
    DrainIsStream(cfg, d1, a);
    StreamConcat(cfg, d, header, a);
    EmptyBefore(Stream(cfg, d1, a));
  }

  // Code 1000 and one character of two octets: in one buffer the frame is handed out,
  // cut within the character the stream fails.
  lemma CutWithinACharacter()
    ensures var cfg, p := Config(true, false, 0), [0x03, 0xE8, 0xC3, 0xA9];
      var frame := ControlFrame(CLOSE, [], p);
      && Receive(cfg, FRESH, [frame]).events == [Message(8, p)]
      && Receive(cfg, FRESH, [frame[..5], frame[5..]]).events == [Error(UTF8_ENCODING_ERROR)]
  {
    hide Stream, Receive, Drain, Utf8.Check;
    var cfg, p := Config(true, false, 0), [0x03, 0xE8, 0xC3, 0xA9];
    var frame := ControlFrame(CLOSE, [], p);
    assert p[2..] == [0xC3, 0xA9] && p[3..] == [0xA9] && p[2..|p| - 2] == [];
    Utf8.Check2(Utf8.Normal, 0xC3, 0xA9);
    Utf8.Check1(Utf8.Normal, 0xA9);
    CutCloseVerdict(cfg, FRESH, [], p, 3);
    Utf8.AcceptsExactlyText([0xA9]);
    CloseFrameVerdict(cfg, FRESH, [], p);
    OneCall(cfg, FRESH, frame);
    DrainIsStream(cfg, FRESH, frame);
  }

  lemma OneCall(cfg: Config, d: Decoder, buf: seq<byte>)
    requires Valid(d)
    ensures Receive(cfg, d, [buf]) == Drain(cfg, d, buf)
  {
    hide Drain;
    assert [buf][..0] == [];
    assert Receive(cfg, d, []) == Run(d, []);
  }

  // --- Any number of cuts ----------------------------------------------------------------------

  function Sum(sizes: seq<nat>): nat {
    if sizes == [] then 0 else sizes[0] + Sum(sizes[1..])
  }

  ghost predicate Splits(sizes: seq<nat>, n: nat) {
    Sum(sizes) == n && forall i :: 0 <= i < |sizes| ==> sizes[i] > 0
  }

  // `s` in buffers of the given sizes.
  function Cut(s: seq<byte>, sizes: seq<nat>): seq<seq<byte>>
    requires Sum(sizes) == |s|
  {
    if sizes == [] then [] else [s[..sizes[0]]] + Cut(s[sizes[0]..], sizes[1..])
  }

  function Letters(n: nat): seq<byte> {
    seq(n, _ => 0x61)
  }

  lemma {:induction false} LettersRead(n: nat)
    ensures Utf8.Check(Utf8.Normal, Letters(n)) == Utf8.At(Utf8.Normal)
  {
    if n > 0 {
      LettersRead(n - 1);
      assert Letters(n)[..n - 1] == Letters(n - 1);
    }
  }

  // Two texts of which one is bad at its very end.
  function Ending(n: nat, good: bool): (s: seq<byte>)
    requires n > 0
    ensures |s| == n
  {
    Letters(n - 1) + [if good then 0x61 else 0x80]
  }

  lemma EndingRead(n: nat, good: bool)
    requires n > 0
    ensures Utf8.Check(Utf8.Normal, Ending(n, good)) == if good then Utf8.At(Utf8.Normal) else Utf8.Bad
    ensures Utf8.Check(Utf8.Normal, Ending(n, good) + [0]).At? <==> good
    ensures forall i, j :: 0 <= i <= j < n ==> Ending(n, good)[i..j] == Letters(j - i)
  {
    LettersRead(n - 1);
    var s := Ending(n, good);
    assert s[..n - 1] == Letters(n - 1);
    NulBehind(s);
  }

  predicate OneMessage(events: seq<Event>) {
    |events| == 1 && events[0].Message?
  }

  // What it reports for the rest of a payload, delivered in calls of the given sizes.
  function Reported(cfg: Config, d: Decoder, good: bool, sizes: seq<nat>): seq<Event>
    requires Valid(d) && d.payloadIndex < d.payloadSize && Sum(sizes) == d.payloadSize - d.payloadIndex
  {
    Receive(cfg, d, Cut(Masked(Ending(d.payloadSize - d.payloadIndex, good), d.key, d.payloadIndex), sizes)).events
  }

  lemma {:induction false} SumOfOne(sizes: seq<nat>, n: nat)
    requires Splits(sizes, n) && n > 0
    ensures sizes != [] && sizes[0] <= n && (sizes[0] == n ==> sizes == [n])
    ensures sizes[0] < n ==> Splits(sizes[1..], n - sizes[0]) && |sizes| > 1
  {
    if sizes[1..] != [] {
      assert Sum(sizes[1..]) >= sizes[1..][0] > 0;
    }
  }

  // A late call that takes some letters, with more to come.
  lemma LateLetters(d: Decoder, m: nat) returns (t: Taken)
    requires Valid(d) && MidClose(d) && 0 < m && d.payloadIndex + m < d.payloadSize
    ensures t == ControlTaken(d, Letters(m))
    ensures t.Accepted? ==> t.d == Controlled(d, Letters(m)).(utf8 := t.d.utf8) && Valid(t.d) && MidClose(t.d)
    ensures t.Rejected? ==> t.error == UNDEFINED
  {
    hide Utf8.Check;
    var index, plain := d.payloadIndex, Letters(m);
    t := ControlTaken(d, plain);
    LettersRead(m);
    if index + m > 2 && index <= m {
      var from := if index < 2 then 2 - index else 0;
      var count := m - (if index < 2 then 2 else index);
      assert plain[from..from + count] == Letters(count);
      LettersRead(m - (if index < 2 then 2 else index));
    }
  }

  // A late call with the rest of the payload misses a bad end or goes astray on good text.
  lemma LateEnd(d: Decoder, m: nat)
    requires Valid(d) && MidClose(d) && d.payloadIndex + m == d.payloadSize
    ensures d.payloadIndex <= m ==> ControlTaken(d, Ending(m, false)).Accepted?
    ensures m < d.payloadIndex ==> ControlTaken(d, Ending(m, true)) == Rejected(UNDEFINED, 0)
  {
    hide Utf8.Check;
    var index := d.payloadIndex;
    EndingRead(m, true);
    EndingRead(m, false);
    if index <= m {
      var checked := m - (if index < 2 then 2 else index);
      LettersRead(checked);
      var from := if index < 2 then 2 - index else 0;
      assert Ending(m, false)[from..from + checked] == Letters(checked);
    }
  }

  lemma CutFirst(s: seq<byte>, sizes: seq<nat>)
    requires Sum(sizes) == |s| && sizes != []
    ensures sizes[0] <= |s| && Sum(sizes[1..]) == |s| - sizes[0]
    ensures Cut(s, sizes)[0] == s[..sizes[0]] && Cut(s, sizes)[1..] == Cut(s[sizes[0]..], sizes[1..])
  {
  }

  // The first of the calls that deliver the payload from `d` on.
  lemma ReportedFirst(cfg: Config, d: Decoder, good: bool, sizes: seq<nat>)
    requires Valid(d) && d.phase == Control && Opcode(d) == 8
    requires Splits(sizes, d.payloadSize - d.payloadIndex)
    ensures sizes != [] && sizes[0] <= d.payloadSize - d.payloadIndex
    ensures var n, m := d.payloadSize - d.payloadIndex, sizes[0];
      match ControlTaken(d, Ending(n, good)[..m])
      case Rejected(error, _) => Reported(cfg, d, good, sizes) == [Error(error)]
      case Accepted(d1) =>
        if m == n then Reported(cfg, d, good, sizes) == [Message(8, d1.control)]
        else Valid(d1) ==>
          Splits(sizes[1..], n - m) && Reported(cfg, d, good, sizes) == Reported(cfg, d1, good, sizes[1..])
  {
    hide Masked, ControlTaken, Drain, Receive;
    var n, m := d.payloadSize - d.payloadIndex, sizes[0];
    SumOfOne(sizes, n);
    var p := Ending(n, good);
    var wire := Masked(p, d.key, d.payloadIndex);
    var chunks := Cut(wire, sizes);
    CutFirst(wire, sizes);
    ReceiveFirst(cfg, d, chunks);
    MaskedParts(p, d.key, d.payloadIndex, m);
    CloseCall(cfg, d, p[..m]);
    DeadReceivesNothing(cfg, chunks[1..]);
    if ControlTaken(d, p[..m]).Accepted? {
      TakenStays(d, p[..m]);
      var d1 := ControlTaken(d, p[..m]).d;
      if m == n {
        assert chunks[1..] == [];
        ReceivesNothing(cfg, Delivered(d1).d);
      } else {
        assert p[m..] == Ending(n - m, good);
      }
    }
  }

  lemma ReceivesNothing(cfg: Config, d: Decoder)
    requires Valid(d)
    ensures Receive(cfg, d, []) == Run(d, [])
  {
  }

  lemma MaskedParts(p: seq<byte>, key: seq<byte>, offset: nat, k: nat)
    requires IsKey(key) && k <= |p|
    ensures Masked(p, key, offset)[..k] == Masked(p[..k], key, offset)
    ensures Masked(p, key, offset)[k..] == Masked(p[k..], key, offset + k)
  {
  }

  // Once a call starts within a close payload, the good ending is not handed out or the
  // bad one is.
  lemma {:induction false} LateCallsErr(cfg: Config, d: Decoder, sizes: seq<nat>)
    requires Valid(d) && MidClose(d) && Splits(sizes, d.payloadSize - d.payloadIndex)
    ensures !OneMessage(Reported(cfg, d, true, sizes)) || OneMessage(Reported(cfg, d, false, sizes))
    decreases |sizes|
  {
    hide Drain, Receive, Reported, ControlTaken, Utf8.Check;
    var n, m := d.payloadSize - d.payloadIndex, sizes[0];
    SumOfOne(sizes, n);
    ReportedFirst(cfg, d, true, sizes);
    ReportedFirst(cfg, d, false, sizes);
    if m == n {
      assert Ending(n, true)[..m] == Ending(n, true) && Ending(n, false)[..m] == Ending(n, false);
      LateEnd(d, m);
    } else {
      EndingRead(n, true);
      EndingRead(n, false);
      var t := LateLetters(d, m);
      assert Ending(n, true)[..m] == Letters(m) == Ending(n, false)[..m];
      if t.Accepted? {
        LateCallsErr(cfg, t.d, sizes[1..]);
      }
    }
  }

  // --- The verdict on cuts ---------------------------------------------------------------------

  // The payload `p` has the same effect in calls of the given sizes as in one.
  ghost predicate Unharmed(cfg: Config, d: Decoder, p: seq<byte>, sizes: seq<nat>)
    requires AtClose(d) && |p| == d.payloadSize && Sum(sizes) == |p|
  {
    Receive(cfg, d, Cut(Masked(p, d.key, 0), sizes)).events == Stream(cfg, d, Masked(p, d.key, 0)).events
  }

  lemma WholeIsUnharmed(cfg: Config, d: Decoder, p: seq<byte>, sizes: seq<nat>)
    requires AtClose(d) && |p| == d.payloadSize && sizes == [|p|] && Sum(sizes) == |p|
    ensures Unharmed(cfg, d, p, sizes)
  {
    hide Masked, Drain, Receive, Stream;
    var wire := Masked(p, d.key, 0);
    assert sizes[1..] == [] && wire[..|p|] == wire;
    assert Cut(wire, sizes) == [wire];
    OneCall(cfg, d, wire);
    DrainIsStream(cfg, d, wire);
  }

  // The two endings, whole, are reported as they should be.
  lemma WholeEndings(cfg: Config, d: Decoder)
    requires AtClose(d)
    ensures OneMessage(Stream(cfg, d, Masked(Ending(d.payloadSize, true), d.key, 0)).events)
    ensures !OneMessage(Stream(cfg, d, Masked(Ending(d.payloadSize, false), d.key, 0)).events)
  {
    hide Masked, Stream, Utf8.Check;
    var n := d.payloadSize;
    WholeReason(cfg, d, Ending(n, true));
    WholeReason(cfg, d, Ending(n, false));
    EndingRead(n - 2, true);
    EndingRead(n - 2, false);
    assert Ending(n, true)[2..] == Ending(n - 2, true) && Ending(n, false)[2..] == Ending(n - 2, false);
  }

  lemma CutsErr(cfg: Config, d: Decoder, sizes: seq<nat>)
    requires AtClose(d) && Splits(sizes, d.payloadSize) && |sizes| != 1
    ensures !OneMessage(Reported(cfg, d, true, sizes)) || OneMessage(Reported(cfg, d, false, sizes))
  {
    hide Drain, Receive, Reported, Utf8.Check;
    var n, m := d.payloadSize, sizes[0];
    SumOfOne(sizes, n);
    ReportedFirst(cfg, d, true, sizes);
    ReportedFirst(cfg, d, false, sizes);
    EndingRead(n, true);
    EndingRead(n, false);
    assert Ending(n, true)[..m] == Letters(m) == Ending(n, false)[..m];
    if m > 2 {
      assert Letters(m)[2..m] == Letters(m - 2);
      LettersRead(m - 2);
    }
    LateCallsErr(cfg, ControlTaken(d, Letters(m)).d, sizes[1..]);
  }

  // Payloads of a close frame with a reason text have the same effect however they arrive
  // if and only if they arrive in one call.
  lemma OnlyWholePayloadsAreUnharmed(cfg: Config, d: Decoder, sizes: seq<nat>)
    requires AtClose(d) && Splits(sizes, d.payloadSize)
    ensures (forall p: seq<byte> :: |p| == d.payloadSize ==> Unharmed(cfg, d, p, sizes)) <==> |sizes| == 1
  {
    hide Masked, Receive, Stream, Cut;
    var n := d.payloadSize;
    SumOfOne(sizes, n);
    if |sizes| == 1 {
      assert sizes == [n] by { assert Sum(sizes[1..]) == 0; }
      forall p: seq<byte> | |p| == n ensures Unharmed(cfg, d, p, sizes) {
        WholeIsUnharmed(cfg, d, p, sizes);
      }
    } else {
      WholeEndings(cfg, d);
      CutsErr(cfg, d, sizes);
      assert !Unharmed(cfg, d, Ending(n, true), sizes) || !Unharmed(cfg, d, Ending(n, false), sizes);
    }
  }
}
