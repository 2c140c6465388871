// What the decoder makes of frames that an encoder has written, and of whole
// messages that were sent in fragments.
module WebSocketMessages {
  import opened Bytes
  import Utf8
  import opened WebSocketFrame
  import opened WebSocketDecoder
  import opened WebSocketRuns

  function RunOf(o: Outcome): Run {
    match o
    case More(d) => Run(d, [])
    case Complete(d, status, payload) => Run(d, [Message(status, payload)])
    case Failure(error, _) => Run(BROKEN, [Error(error)])
  }

  lemma StreamOne(cfg: Config, d: Decoder, b: byte)
    requires Valid(d) && d.phase != Dead
    ensures Stream(cfg, d, [b]) == RunOf(Feed(cfg, d, b))
  {
    assert [b][..0] == [];
  }

  // --- Header ------------------------------------------------------------------

  lemma StreamLast(cfg: Config, d: Decoder, s: seq<byte>)
    requires Valid(d) && s != []
    ensures Stream(cfg, d, s) == Then(cfg, Stream(cfg, d, s[..|s| - 1]), s[|s| - 1])
  {
  }

  // Octets that neither finish a length nor a masking key pile up in the header.
  ghost predicate Collecting(d: Decoder, more: nat) {
    && Valid(d)
    && match d.phase
       case Length2 => |d.header| + more < 4
       case Length8 => |d.header| + more < 10
       case Mask => |d.header| + more < LengthEnd(d) + 4
       case _ => false
  }

  // One more of them.
  lemma CollectedOne(cfg: Config, d: Decoder, front: seq<byte>, last: byte)
    requires Collecting(d, |front| + 1)
    ensures var d1 := d.(header := d.header + front);
      Valid(d1) && d1.phase != Dead && Feed(cfg, d1, last) == More(d1.(header := d1.header + [last]))
  {
    var d1 := d.(header := d.header + front);
    assert d1.header[0] == d.header[0] && d1.header[1] == d.header[1];
  }

  lemma {:induction false} Collected(cfg: Config, d: Decoder, s: seq<byte>)
    requires Collecting(d, |s|)
    ensures Stream(cfg, d, s) == Run(d.(header := d.header + s), [])
  {
    hide Stream, Feed, Valid;
    if s == [] {
      StreamNothing(cfg, d, s);
      assert d.header + s == d.header;
    } else {
      var front, last := s[..|s| - 1], s[|s| - 1];
      CollectedFewer(d, |s|, |front|);
      Collected(cfg, d, front);
      CollectedOne(cfg, d, front, last);
      StreamLast(cfg, d, s);
      assert d.header + front + [last] == d.header + s;
    }
  }

  lemma CollectedFewer(d: Decoder, more: nat, fewer: nat)
    requires Collecting(d, more) && fewer <= more
    ensures Collecting(d, fewer)
  {
  }

  // The last octet of an extended length or of a masking key.
  lemma CollectedAll(cfg: Config, d: Decoder, s: seq<byte>)
    requires s != [] && Collecting(d, |s| - 1)
    ensures Valid(d.(header := d.header + s[..|s| - 1]))
    ensures Stream(cfg, d, s) == RunOf(Feed(cfg, d.(header := d.header + s[..|s| - 1]), s[|s| - 1]))
  {
    hide Stream;
    var front, last := s[..|s| - 1], s[|s| - 1];
    Collected(cfg, d, front);
    assert s == front + [last];
    StreamConcat(cfg, d, front, [last]);
    StreamOne(cfg, Stream(cfg, d, front).d, last);
  }

  lemma Length2Fed(cfg: Config, d: Decoder, n: nat)
    requires Valid(d) && d.phase == Length2 && |d.header| == 2 && 125 < n < 65536
    ensures Stream(cfg, d, BigEndian(n, 2)) == RunOf(LengthKnown(cfg, d.(header := d.header + BigEndian(n, 2)), n))
  {
    hide Stream;
    var s := BigEndian(n, 2);
    CollectedAll(cfg, d, s);
    var header := d.header + s[..1] + [s[1]];
    assert header == d.header + s && header[2..4] == s;
    PowersOf256();
    BigEndianRoundTrip(n, 2);
  }

  lemma Length8Fed(cfg: Config, d: Decoder, n: nat)
    requires Valid(d) && d.phase == Length8 && |d.header| == 2 && 65535 < n <= 0x7fffffffffffffff
    ensures Stream(cfg, d, BigEndian(n, 8)) == RunOf(LengthKnown(cfg, d.(header := d.header + BigEndian(n, 8)), n))
  {
    hide Stream;
    var s := BigEndian(n, 8);
    CollectedAll(cfg, d, s);
    var header := d.header + s[..7] + [s[7]];
    assert header == d.header + s && header[2..10] == s;
    PowersOf256();
    BigEndianRoundTrip(n, 8);
  }

  lemma ExtendedFed(cfg: Config, d: Decoder, n: nat)
    requires Valid(d) && |d.header| == 2 && 126 <= n <= 0x7fffffffffffffff && d.phase == LengthPhase(n)
    ensures Stream(cfg, d, ExtendedLength(n)) == RunOf(LengthKnown(cfg, d.(header := d.header + ExtendedLength(n)), n))
  {
    hide Stream;
    if n < 65536 {
      Length2Fed(cfg, d, n);
    } else {
      Length8Fed(cfg, d, n);
    }
  }

  // The first octet of a length field.
  lemma LengthStarted(cfg: Config, d: Decoder, masked: bool, n: nat)
    requires Valid(d) && d.phase == Length && Opcode(d) < 8 && masked != cfg.client
    ensures var d1 := d.(header := d.header + [LengthByte(masked, n)], phase := LengthPhase(n));
      Feed(cfg, d, LengthByte(masked, n)) == if n < 126 then LengthKnown(cfg, d1, n) else More(d1)
  {
    hide LengthKnown;
  }

  lemma ShortFieldFed(cfg: Config, d: Decoder, d1: Decoder, b: byte, field: seq<byte>, n: nat)
    requires Valid(d) && d.phase == Length && field == [b]
    requires d1 == d.(header := d.header + [b], phase := LengthPhase(n)) && Feed(cfg, d, b) == LengthKnown(cfg, d1, n)
    ensures Stream(cfg, d, field) == RunOf(LengthKnown(cfg, d.(header := d.header + field, phase := LengthPhase(n)), n))
  {
    hide Stream;
    StreamOne(cfg, d, b);
  }

  // A length that needs its extended form.
  lemma LongFieldFed(cfg: Config, d: Decoder, d1: Decoder, b: byte, n: nat)
    requires Valid(d) && d.phase == Length && Valid(d1) && d1.phase == LengthPhase(n) && |d1.header| == 2
    requires 126 <= n <= 0x7fffffffffffffff && Stream(cfg, d, [b]) == Run(d1, [])
    ensures Stream(cfg, d, [b] + ExtendedLength(n)) ==
            RunOf(LengthKnown(cfg, d1.(header := d1.header + ExtendedLength(n)), n))
  {
    hide Stream;
    StreamConcat(cfg, d, [b], ExtendedLength(n));
    ExtendedFed(cfg, d1, n);
    EmptyBefore(Stream(cfg, d1, ExtendedLength(n)));
  }

  lemma LengthFieldFed(cfg: Config, d: Decoder, masked: bool, n: nat)
    requires Valid(d) && d.phase == Length && Opcode(d) < 8
    requires masked != cfg.client && n <= 0x7fffffffffffffff
    ensures Stream(cfg, d, LengthField(masked, n)) ==
            RunOf(LengthKnown(cfg, d.(header := d.header + LengthField(masked, n), phase := LengthPhase(n)), n))
  {
    hide Stream;
    var b := LengthByte(masked, n);
    StreamOne(cfg, d, b);
    LengthStarted(cfg, d, masked, n);
    FeedKeepsValid(cfg, d, b);
    var d1 := d.(header := d.header + [b], phase := LengthPhase(n));
    if n < 126 {
      ShortFieldFed(cfg, d, d1, b, LengthField(masked, n), n);
    } else {
      LongFieldFed(cfg, d, d1, b, n);
      assert d1.header + ExtendedLength(n) == d.header + LengthField(masked, n);
    }
  }

  lemma EmptyBefore(r: Run)
    ensures forall d: Decoder :: After(Run(d, []), r) == r
  {
  }

  lemma PowersOf256()
    ensures Pow256(2) == 0x1_0000 && Pow256(8) == 0x1_0000_0000_0000_0000
  {
    assert Pow256(1) == 0x100;
    assert Pow256(4) == 0x1_0000_0000;
  }

  // The phase in which the length becomes known.
  function LengthPhase(n: nat): Phase {
    if n < 126 then Length else if n < 65536 then Length2 else Length8
  }

  // The decoder when the header of a data frame with this first octet, masking
  // key and payload length has just been read.
  function Head(d: Decoder, first: byte, key: seq<byte>, n: nat): Decoder {
    d.(phase := Mask, header := [first] + LengthField(key != [], n) + key, payloadSize := n,
       key := KeyInUse(key))
  }

  function KeyInUse(key: seq<byte>): seq<byte> {
    if key == [] then [0, 0, 0, 0] else key
  }

  lemma KeyFed(cfg: Config, d: Decoder, key: seq<byte>)
    requires Valid(d) && d.phase == Mask && |d.header| == LengthEnd(d) && IsKey(key)
    ensures Stream(cfg, d, key) == RunOf(HeaderComplete(cfg, d.(header := d.header + key, key := key)))
  {
    hide Stream;
    CollectedAll(cfg, d, key);
    var header := d.header + key[..3] + [key[3]];
    assert header == d.header + key && header[|header| - 4..] == key;
    assert header[1] == d.header[1];
  }

  // A frame may start here, with these contents.
  ghost predicate Acceptable(cfg: Config, d: Decoder, first: byte, key: seq<byte>, n: nat) {
    && Valid(d) && d.phase == Start && first % 16 < 8 && FeedStart(d, first).More?
    && cfg.client == (key == []) && (key == [] || IsKey(key))
    && n <= 0x7fffffffffffffff && !TooBig(cfg, n)
  }

  // The octets before the masking key.
  lemma StartFed(cfg: Config, d: Decoder, first: byte, key: seq<byte>, n: nat)
    requires Acceptable(cfg, d, first, key, n)
    ensures var d2 := BeforeKey(FeedStart(d, first).d, first, key != [], n);
      Stream(cfg, d, [first] + LengthField(key != [], n)) ==
        if key == [] then RunOf(HeaderComplete(cfg, d2.(key := KeyInUse(key)))) else Run(d2, [])
  {
    hide Stream;
    var field := LengthField(key != [], n);
    var d1 := FeedStart(d, first).d;
    StreamOne(cfg, d, first);
    FeedKeepsValid(cfg, d, first);
    LengthFieldFed(cfg, d1, key != [], n);
    StreamConcat(cfg, d, [first], field);
    EmptyBefore(Stream(cfg, d1, field));
    var d2 := d1.(header := [first] + field, phase := LengthPhase(n));
    assert d2.header[1] == LengthByte(key != [], n);
  }

  // Decoder `d` has read the octets before the masking key.
  function BeforeKey(d: Decoder, first: byte, masked: bool, n: nat): Decoder {
    d.(header := [first] + LengthField(masked, n), phase := Mask, payloadSize := n)
  }

  lemma HeaderLength(d: Decoder, first: byte, masked: bool, n: nat)
    ensures var d1 := BeforeKey(d, first, masked, n); |d1.header| == LengthEnd(d1)
  {
    var d1 := BeforeKey(d, first, masked, n);
    assert d1.header[1] == LengthByte(masked, n);
  }

  lemma HeaderFed(cfg: Config, d: Decoder, first: byte, key: seq<byte>, n: nat)
    requires Acceptable(cfg, d, first, key, n)
    ensures Stream(cfg, d, [first] + LengthField(key != [], n) + key) ==
            RunOf(HeaderComplete(cfg, Head(FeedStart(d, first).d, first, key, n)))
  {
    hide Stream;
    var start := [first] + LengthField(key != [], n);
    var d1 := FeedStart(d, first).d;
    var d2 := BeforeKey(d1, first, key != [], n);
    StartFed(cfg, d, first, key, n);
    if key == [] {
      assert start + key == start;
    } else {
      HeaderLength(d1, first, true, n);
      KeyAfterStart(cfg, d, start, key, d2);
    }
  }

  lemma KeyAfterStart(cfg: Config, d: Decoder, start: seq<byte>, key: seq<byte>, d2: Decoder)
    requires Valid(d) && Stream(cfg, d, start) == Run(d2, []) && IsKey(key)
    requires d2.phase == Mask && d2.header != [] && |d2.header| == LengthEnd(d2)
    ensures Stream(cfg, d, start + key) == RunOf(HeaderComplete(cfg, d2.(header := d2.header + key, key := key)))
  {
    hide Stream;
    assert Valid(d2);
    StreamConcat(cfg, d, start, key);
    KeyFed(cfg, d2, key);
    EmptyBefore(Stream(cfg, d2, key));
  }

  // --- Payload -------------------------------------------------------------------

  ghost predicate TextOk(d: Decoder, payload: seq<byte>) {
    d.dataType == 1 ==> Utf8.Check(d.utf8, payload).At?
  }

  function Filled(d: Decoder, payload: seq<byte>): Decoder
    requires d.dataType == 1 ==> Utf8.Check(d.utf8, payload).At?
  {
    d.(data := d.data + payload, payloadIndex := d.payloadIndex + |payload|,
       utf8 := if d.dataType == 1 then Utf8.Check(d.utf8, payload).step else d.utf8)
  }

  lemma TextOkPrefix(d: Decoder, payload: seq<byte>, k: nat)
    requires TextOk(d, payload) && k <= |payload|
    ensures TextOk(d, payload[..k])
  {
    if d.dataType == 1 {
      assert payload[..k] + payload[k..] == payload;
      Utf8.CheckConcat(d.utf8, payload[..k], payload[k..]);
    }
  }

  lemma {:induction false} PayloadPartFed(cfg: Config, d: Decoder, payload: seq<byte>)
    requires Valid(d) && d.phase == Data && TextOk(d, payload)
    requires d.payloadIndex + |payload| < d.payloadSize
    ensures Stream(cfg, d, Masked(payload, d.key, d.payloadIndex)) == Run(Filled(d, payload), [])
    ensures Valid(Filled(d, payload))
  {
    hide Stream, Feed, Masked, Utf8.Next;
    var wire := Masked(payload, d.key, d.payloadIndex);
    if payload == [] {
      StreamNothing(cfg, d, wire);
      assert d.data + payload == d.data;
    } else {
      var n := |payload| - 1;
      TextOkPrefix(d, payload, n);
      PayloadPartFed(cfg, d, payload[..n]);
      MaskedFront(payload, d.key, d.payloadIndex, n);
      PayloadOctetFed(cfg, d, payload);
      StreamLast(cfg, d, wire);
      FeedKeepsValid(cfg, Filled(d, payload[..n]), wire[n]);
    }
  }

  lemma MaskedFront(payload: seq<byte>, key: seq<byte>, offset: nat, n: nat)
    requires IsKey(key) && n <= |payload|
    ensures Masked(payload, key, offset)[..n] == Masked(payload[..n], key, offset)
  {
  }

  // The last octet of `payload`, after the others.
  lemma PayloadOctetFed(cfg: Config, d: Decoder, payload: seq<byte>)
    requires Valid(d) && d.phase == Data && payload != [] && TextOk(d, payload)
    requires d.payloadIndex + |payload| <= d.payloadSize
    requires TextOk(d, payload[..|payload| - 1]) && Valid(Filled(d, payload[..|payload| - 1]))
    ensures var d1 := Filled(d, payload);
      Feed(cfg, Filled(d, payload[..|payload| - 1]), Masked(payload, d.key, d.payloadIndex)[|payload| - 1]) ==
      if d1.payloadIndex == d1.payloadSize then PayloadComplete(cfg, d1) else More(d1)
  {
    hide PayloadComplete, Utf8.Next;
    var n := |payload| - 1;
    var d0 := Filled(d, payload[..n]);
    XorTwice(payload[n], d.key[(n + d.payloadIndex) % 4]);
    assert d0.data + [payload[n]] == d.data + payload;
  }

  lemma PayloadFed(cfg: Config, d: Decoder, payload: seq<byte>)
    requires Valid(d) && d.phase == Data && TextOk(d, payload)
    requires d.payloadIndex + |payload| == d.payloadSize
    ensures Stream(cfg, d, Masked(payload, d.key, d.payloadIndex)) == RunOf(PayloadComplete(cfg, Filled(d, payload)))
  {
    hide Stream, Feed, Masked, Utf8.Next, PayloadComplete;
    var wire := Masked(payload, d.key, d.payloadIndex);
    var n := |payload| - 1;
    TextOkPrefix(d, payload, n);
    PayloadPartFed(cfg, d, payload[..n]);
    MaskedFront(payload, d.key, d.payloadIndex, n);
    PayloadOctetFed(cfg, d, payload);
    StreamLast(cfg, d, wire);
  }

  lemma UnmaskedBody(payload: seq<byte>)
    ensures Masked(payload, [0, 0, 0, 0], 0) == payload
  {
    forall i | 0 <= i < |payload| ensures Masked(payload, [0, 0, 0, 0], 0)[i] == payload[i] {
      XorNothing(payload[i]);
    }
  }

  // --- A data frame ----------------------------------------------------------------

  predicate Continues(fragmentation: Fragmentation) {
    fragmentation.Following? || fragmentation.Last?
  }

  // Type and contents of the message that a frame belongs to, before its payload.
  function MessageType(d: Decoder, fragmentation: Fragmentation, opcode: byte): byte {
    if Continues(fragmentation) then d.dataType else opcode
  }

  function Before(d: Decoder, fragmentation: Fragmentation): seq<byte> {
    if Continues(fragmentation) then d.data else []
  }

  // The decoder expects a frame like this in state `d`, whatever its octets are.
  ghost predicate Expects(cfg: Config, d: Decoder, fragmentation: Fragmentation, opcode: byte, key: seq<byte>,
                          payload: seq<byte>)
  {
    && 1 <= opcode <= 2 && d.dataType <= 2
    && (d.dataType == 0 <==> !Continues(fragmentation))
    && Valid(d) && d.phase == Start && !d.onlyControl
    && cfg.client == (key == []) && (key == [] || IsKey(key))
    && |payload| <= 0x7fffffffffffffff
    && !TooBig(cfg, |payload| + |Before(d, fragmentation)|)
  }

  // The frame is one that the decoder accepts in state `d`.
  ghost predicate Receivable(cfg: Config, d: Decoder, fragmentation: Fragmentation, opcode: byte, key: seq<byte>,
                             payload: seq<byte>)
  {
    && Expects(cfg, d, fragmentation, opcode, key, payload)
    && (MessageType(d, fragmentation, opcode) == 1 ==> Utf8.Check(d.utf8, payload).At?)
  }

  // The decoder with the payload complete.
  function Full(d: Decoder, fragmentation: Fragmentation, opcode: byte, key: seq<byte>, payload: seq<byte>): Decoder
    requires opcode < 16
    requires MessageType(d, fragmentation, opcode) == 1 ==> Utf8.Check(d.utf8, payload).At?
  {
    Filled(Opened(d, fragmentation, opcode, key, |payload|), payload)
  }

  function Opened(d: Decoder, fragmentation: Fragmentation, opcode: byte, key: seq<byte>, n: nat): Decoder
    requires opcode < 16
  {
    Head(d, FirstByte(fragmentation, opcode), key, n).(
      phase := Data, data := Before(d, fragmentation), dataType := MessageType(d, fragmentation, opcode))
  }

  lemma FrameStarts(cfg: Config, d: Decoder, fragmentation: Fragmentation, opcode: byte, key: seq<byte>,
                    payload: seq<byte>)
    requires Expects(cfg, d, fragmentation, opcode, key, payload)
    ensures var first := FirstByte(fragmentation, opcode);
      && Acceptable(cfg, d, first, key, |payload|)
      && FeedStart(d, first).d == d.(phase := Length, header := [first])
  {
  }

  lemma FrameOpens(cfg: Config, d: Decoder, fragmentation: Fragmentation, opcode: byte, key: seq<byte>,
                   payload: seq<byte>)
    requires Expects(cfg, d, fragmentation, opcode, key, payload)
    ensures var d1 := Opened(d, fragmentation, opcode, key, |payload|);
      HeaderComplete(cfg, Head(d, FirstByte(fragmentation, opcode), key, |payload|)) ==
        if payload == [] then PayloadComplete(cfg, d1) else More(d1)
  {
    var first := FirstByte(fragmentation, opcode);
    var h := Head(d, first, key, |payload|);
    assert h.header[0] == first;
    assert h.payloadSize == |payload|;
  }

  lemma FrameFed(cfg: Config, d: Decoder, fragmentation: Fragmentation, opcode: byte, key: seq<byte>,
                 payload: seq<byte>)
    requires Receivable(cfg, d, fragmentation, opcode, key, payload)
    ensures Stream(cfg, d, Frame(fragmentation, opcode, key, payload)) ==
            RunOf(PayloadComplete(cfg, Full(d, fragmentation, opcode, key, payload)))
  {
    hide Stream;
    var first := FirstByte(fragmentation, opcode);
    var header := [first] + LengthField(key != [], |payload|) + key;
    var body := if key == [] then payload else Masked(payload, key, 0);
    assert Frame(fragmentation, opcode, key, payload) == header + body;
    FrameStarts(cfg, d, fragmentation, opcode, key, payload);
    HeaderFed(cfg, d, first, key, |payload|);
    assert Head(FeedStart(d, first).d, first, key, |payload|) == Head(d, first, key, |payload|);
    FrameOpens(cfg, d, fragmentation, opcode, key, payload);
    var d1 := Opened(d, fragmentation, opcode, key, |payload|);
    if payload == [] {
      assert header + body == header;
      assert d1.data + payload == d1.data;
    } else {
      StreamConcat(cfg, d, header, body);
      assert Stream(cfg, d, header) == Run(d1, []);
      UnmaskedBody(payload);
      PayloadFed(cfg, d1, payload);
      EmptyBefore(Stream(cfg, d1, body));
    }
  }

  // The decoder waits for a frame, in the middle of a message of type `dataType`
  // (0 for none) of which it keeps `data`.
  ghost predicate Between(d: Decoder, dataType: byte, data: seq<byte>, utf8: Utf8.Step) {
    Valid(d) && d.phase == Start && !d.onlyControl && d.dataType == dataType && d.data == data && d.utf8 == utf8
  }

  // The UTF-8 step after the payload of a frame.
  function StepAfter(d: Decoder, fragmentation: Fragmentation, opcode: byte, payload: seq<byte>): Utf8.Step
    requires MessageType(d, fragmentation, opcode) == 1 ==> Utf8.Check(d.utf8, payload).At?
  {
    if MessageType(d, fragmentation, opcode) == 1 then Utf8.Check(d.utf8, payload).step else d.utf8
  }

  lemma FullIs(d: Decoder, fragmentation: Fragmentation, opcode: byte, key: seq<byte>, payload: seq<byte>)
    requires opcode < 8
    requires MessageType(d, fragmentation, opcode) == 1 ==> Utf8.Check(d.utf8, payload).At?
    ensures var f := Full(d, fragmentation, opcode, key, payload);
      && f.header != [] && IsFin(f) == (fragmentation.Unfragmented? || fragmentation.Last?)
      && (Opcode(f) == 0 <==> Continues(fragmentation) || opcode == 0)
      && f.phase == Data && f.data == Before(d, fragmentation) + payload
      && f.dataType == MessageType(d, fragmentation, opcode)
      && f.utf8 == StepAfter(d, fragmentation, opcode, payload) && f.onlyControl == d.onlyControl
  {
    var f := Full(d, fragmentation, opcode, key, payload);
    assert f.header[0] == FirstByte(fragmentation, opcode);
  }

  // The last or only frame of a message hands out all of it that is still there.
  lemma FinalFrame(cfg: Config, d: Decoder, fragmentation: Fragmentation, opcode: byte, key: seq<byte>,
                   payload: seq<byte>)
    requires Receivable(cfg, d, fragmentation, opcode, key, payload)
    requires fragmentation.Unfragmented? || fragmentation.Last?
    ensures var r := Stream(cfg, d, Frame(fragmentation, opcode, key, payload));
      && Between(r.d, 0, [], StepAfter(d, fragmentation, opcode, payload))
      && r.events == [Message(MessageType(d, fragmentation, opcode) +
                              (if cfg.wantFragments && fragmentation.Last? then 0x40 else 0),
                              Before(d, fragmentation) + payload)]
  {
    hide Stream;
    FrameFed(cfg, d, fragmentation, opcode, key, payload);
    FullIs(d, fragmentation, opcode, key, payload);
    assert Valid(Stream(cfg, d, Frame(fragmentation, opcode, key, payload)).d);
  }

  // A caller that does not want fragments sees nothing of the frames before the last.
  lemma KeptFrame(cfg: Config, d: Decoder, fragmentation: Fragmentation, opcode: byte, key: seq<byte>,
                  payload: seq<byte>)
    requires Receivable(cfg, d, fragmentation, opcode, key, payload) && !cfg.wantFragments
    requires fragmentation.First? || fragmentation.Following?
    ensures var r := Stream(cfg, d, Frame(fragmentation, opcode, key, payload));
      && r.events == []
      && Between(r.d, MessageType(d, fragmentation, opcode), Before(d, fragmentation) + payload,
                 StepAfter(d, fragmentation, opcode, payload))
  {
    hide Stream;
    FrameFed(cfg, d, fragmentation, opcode, key, payload);
    FullIs(d, fragmentation, opcode, key, payload);
    assert Valid(Stream(cfg, d, Frame(fragmentation, opcode, key, payload)).d);
  }

  // How many octets stay behind because they open an unfinished UTF-8 sequence.
  function Carry(kind: byte, step: Utf8.Step): nat {
    if kind == 1 then Utf8.Given(step) else 0
  }

  // Of `content`, a message of type `kind`, all but the open octets was handed out.
  ghost predicate Handed(r: Run, status: nat, kind: byte, content: seq<byte>, step: Utf8.Step)
    requires Carry(kind, step) <= |content|
  {
    var cut := |content| - Carry(kind, step);
    r.events == [Message(status, content[..cut])] && Between(r.d, kind, content[cut..], step)
  }

  lemma HandsOut(cfg: Config, f: Decoder, r: Run)
    requires f.header != [] && f.phase == Data && !IsFin(f) && !f.onlyControl && cfg.wantFragments
    requires Carry(f.dataType, f.utf8) <= |f.data|
    requires r == RunOf(PayloadComplete(cfg, f)) && Valid(r.d)
    ensures Handed(r, f.dataType + (if Opcode(f) == 0 then 0x20 else 0x10), f.dataType, f.data, f.utf8)
  {
  }

  // A caller that wants fragments gets everything up to the last finished sequence.
  lemma HandedFrame(cfg: Config, d: Decoder, fragmentation: Fragmentation, opcode: byte, key: seq<byte>,
                    payload: seq<byte>, kind: byte, step: Utf8.Step)
    requires Receivable(cfg, d, fragmentation, opcode, key, payload) && cfg.wantFragments
    requires fragmentation.First? || fragmentation.Following?
    requires kind == MessageType(d, fragmentation, opcode) && step == StepAfter(d, fragmentation, opcode, payload)
    requires Carry(kind, step) <= |Before(d, fragmentation) + payload|
    ensures Handed(Stream(cfg, d, Frame(fragmentation, opcode, key, payload)),
                   kind + (if fragmentation.First? then 0x10 else 0x20),
                   kind, Before(d, fragmentation) + payload, step)
  {
    hide Stream;
    FrameFed(cfg, d, fragmentation, opcode, key, payload);
    FullIs(d, fragmentation, opcode, key, payload);
    HandsOut(cfg, Full(d, fragmentation, opcode, key, payload),
             Stream(cfg, d, Frame(fragmentation, opcode, key, payload)));
  }
}
