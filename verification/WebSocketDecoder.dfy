// MHD_websocket_decode as a machine that takes one octet at a time.  The stream
// class in WebSocketStream works on whole buffers and is proved to agree with it.
module WebSocketDecoder {
  import opened Bytes
  import Utf8
  import opened WebSocketFrame

  // The flags of the stream and its payload limit (0 means none).
  datatype Config = Config(client: bool, wantFragments: bool, maxPayload: nat)

  // MHD_WebSocket_DecodeStep; the number of header octets read so far tells the
  // steps of a length or a masking key apart.  `Dead` stands for an invalid stream.
  datatype Phase = Start | Length | Length2 | Length8 | Mask | Data | Control | Dead

  datatype Decoder = Decoder(
    phase: Phase, header: seq<byte>, key: seq<byte>, payloadSize: nat, payloadIndex: nat,
    dataType: byte, data: seq<byte>, utf8: Utf8.Step, control: seq<byte>, onlyControl: bool)

  const FRESH := Decoder(Start, [], [0, 0, 0, 0], 0, 0, 0, [], Utf8.Normal, [], false)

  // Not a status of the library: the code reads or writes outside the octets that it
  // has been given, and nothing is known about what follows.
  const UNDEFINED := -100

  // What one octet leads to.  A failure says whether the octet counts as read.
  datatype Outcome =
    | More(d: Decoder)
    | Complete(d: Decoder, status: nat, payload: seq<byte>)
    | Failure(error: int, taken: bool)

  // An invalid stream; nothing else about it matters any more.
  const BROKEN := FRESH.(phase := Dead)

  function Opcode(d: Decoder): nat
    requires d.header != []
  {
    d.header[0] % 16
  }

  function IsFin(d: Decoder): bool
    requires d.header != []
  {
    d.header[0] >= 0x80
  }

  function TooBig(cfg: Config, size: nat): bool {
    cfg.maxPayload != 0 && cfg.maxPayload < size
  }

  // The first octet of the current frame was acceptable.
  ghost predicate HeaderOk(d: Decoder) {
    && 1 <= |d.header| <= 14
    && (Opcode(d) <= 2 || 8 <= Opcode(d) <= 10)
    && (Opcode(d) >= 8 ==> IsFin(d))
    && (Opcode(d) == 0 ==> d.dataType != 0)
    && (Opcode(d) == 8 ==> d.onlyControl) && (d.onlyControl ==> Opcode(d) >= 8)
  }

  // Between two octets the stream is in one of these states.
  ghost predicate Valid(d: Decoder) {
    && IsKey(d.key) && d.dataType <= 2
    && match d.phase
       case Start => d.header == [] && d.payloadIndex == 0
       case Length => HeaderOk(d) && |d.header| == 1 && d.payloadIndex == 0
       case Length2 => HeaderOk(d) && 2 <= |d.header| < 4 && d.header[1] % 128 == 126 && d.payloadIndex == 0
       case Length8 => HeaderOk(d) && 2 <= |d.header| < 10 && d.header[1] % 128 == 127 && d.payloadIndex == 0
       case Mask => HeaderOk(d) && LengthEnd(d) <= |d.header| < LengthEnd(d) + 4 && d.payloadIndex == 0
       case Data =>
         && HeaderOk(d) && Opcode(d) <= 2 && d.dataType != 0
         && d.payloadIndex < d.payloadSize && d.payloadIndex <= |d.data|
       case Control =>
         && HeaderOk(d) && Opcode(d) >= 8
         && d.payloadIndex < d.payloadSize && d.payloadIndex == |d.control|
       case Dead => true
  }

  // The number of header octets up to and including the length.
  function LengthEnd(d: Decoder): nat
    requires |d.header| >= 1
  {
    if |d.header| < 2 then 2
    else if d.header[1] % 128 == 126 then 4
    else if d.header[1] % 128 == 127 then 10
    else 2
  }

  // The first octet of a frame.
  function FeedStart(d: Decoder, b: byte): Outcome {
    var opcode := b % 16;
    if b / 16 % 8 != 0 then Failure(PROTOCOL_ERROR, false)
    else if opcode == 0 && (d.dataType == 0 || d.onlyControl) then Failure(PROTOCOL_ERROR, false)
    else if opcode in {1, 2} && (d.dataType != 0 || d.onlyControl) then Failure(PROTOCOL_ERROR, false)
    else if opcode in {8, 9, 10} && b < 0x80 then Failure(PROTOCOL_ERROR, false)
    else if opcode !in {0, 1, 2, 8, 9, 10} then Failure(PROTOCOL_ERROR, false)
    else More(d.(phase := Length, header := [b], onlyControl := d.onlyControl || opcode == 8))
  }

  // The second octet: the mask bit and the short length.
  function FeedLength(cfg: Config, d: Decoder, b: byte): Outcome
    requires Valid(d) && d.phase == Length
  {
    var masked, length := b >= 0x80, b % 128;
    var d1 := d.(header := d.header + [b]);
    if masked == cfg.client then Failure(PROTOCOL_ERROR, false)
    else if length >= 126 && Opcode(d) >= 8 then Failure(PROTOCOL_ERROR, false)
    else if length == 1 && Opcode(d) == 8 then Failure(PROTOCOL_ERROR, false)
    else if length == 126 then More(d1.(phase := Length2))
    else if length == 127 then More(d1.(phase := Length8))
    else LengthKnown(cfg, d1, length)
  }

  function FeedLength2(cfg: Config, d: Decoder, b: byte): Outcome
    requires Valid(d) && d.phase == Length2
  {
    var d1 := d.(header := d.header + [b]);
    if |d1.header| < 4 then More(d1)
    else
      var size := FromBigEndian(d1.header[2..4]);
      if size <= 125 then Failure(PROTOCOL_ERROR, true) else LengthKnown(cfg, d1, size)
  }

  function FeedLength8(cfg: Config, d: Decoder, b: byte): Outcome
    requires Valid(d) && d.phase == Length8
  {
    var d1 := d.(header := d.header + [b]);
    if |d1.header| < 10 then More(d1)
    else
      var size := FromBigEndian(d1.header[2..10]);
      if size > 0x7fffffffffffffff || size <= 65535 then Failure(PROTOCOL_ERROR, true)
      else LengthKnown(cfg, d1, size)
  }

  function LengthKnown(cfg: Config, d: Decoder, size: nat): (o: Outcome)
    requires |d.header| >= 2
    ensures if o.Failure? then o.taken else o.d.onlyControl == d.onlyControl
  {
    if TooBig(cfg, size) then Failure(MAXIMUM_SIZE_EXCEEDED, true)
    else if d.header[1] >= 0x80 then More(d.(payloadSize := size, phase := Mask))
    else HeaderComplete(cfg, d.(payloadSize := size, key := [0, 0, 0, 0]))
  }

  function FeedMask(cfg: Config, d: Decoder, b: byte): Outcome
    requires Valid(d) && d.phase == Mask
  {
    var d1 := d.(header := d.header + [b]);
    if |d1.header| < LengthEnd(d) + 4 then More(d1)
    else HeaderComplete(cfg, d1.(key := d1.header[|d1.header| - 4..]))
  }

  // MHD_websocket_decode_header_complete, and the frame itself if it is empty.
  function HeaderComplete(cfg: Config, d: Decoder): (o: Outcome)
    requires d.header != []
    ensures if o.Failure? then o.taken else o.d.onlyControl == d.onlyControl
  {
    var opcode := Opcode(d);
    if opcode == 0 && TooBig(cfg, d.payloadSize + |d.data|) then Failure(MAXIMUM_SIZE_EXCEEDED, true)
    else
      var d1 :=
        if opcode == 0 then d.(phase := Data)
        else if opcode < 8 then d.(phase := Data, data := [], dataType := opcode)
        else d.(phase := Control, control := []);
      if d1.payloadSize == 0 then PayloadComplete(cfg, d1) else More(d1)
  }

  function FeedData(cfg: Config, d: Decoder, b: byte): Outcome
    requires Valid(d) && d.phase == Data
  {
    var c := Xor(b, d.key[d.payloadIndex % 4]);
    var d1 := d.(data := d.data + [c], payloadIndex := d.payloadIndex + 1);
    if d.dataType == 1 && Utf8.Next(d.utf8, c).Bad? then Failure(UTF8_ENCODING_ERROR, false)
    else
      var d2 := if d.dataType == 1 then d1.(utf8 := Utf8.Next(d.utf8, c).step) else d1;
      if d2.payloadIndex == d2.payloadSize then PayloadComplete(cfg, d2) else More(d2)
  }

  function FeedControl(cfg: Config, d: Decoder, b: byte): Outcome
    requires Valid(d) && d.phase == Control
  {
    var c := Xor(b, d.key[d.payloadIndex % 4]);
    var d1 := d.(control := d.control + [c], payloadIndex := d.payloadIndex + 1);
    if InReason(d) && Utf8.Next(ReasonStep(d), c).Bad? then Failure(UTF8_ENCODING_ERROR, false)
    else
      var d2 := if InReason(d) then d1.(utf8 := Utf8.Next(ReasonStep(d), c).step) else d1;
      if d2.payloadIndex == d2.payloadSize then PayloadComplete(cfg, d2) else More(d2)
  }

  // In a close frame a text follows the two octets of the reason code.
  predicate InReason(d: Decoder)
    requires d.header != []
  {
    Opcode(d) == 8 && d.payloadIndex >= 2
  }

  function ReasonStep(d: Decoder): Utf8.Step {
    if d.payloadIndex <= 2 then Utf8.Normal else d.utf8
  }

  // MHD_websocket_decode_payload_complete
  function PayloadComplete(cfg: Config, d: Decoder): (o: Outcome)
    requires d.header != [] && d.phase in {Data, Control}
    ensures if o.Failure? then o.taken else o.d.onlyControl == d.onlyControl
  {
    var again := d.(phase := Start, header := [], payloadIndex := 0);
    var continued := Opcode(d) == 0;
    if IsFin(d) then
      if d.phase == Data then
        var last := if cfg.wantFragments && continued then 0x40 else 0;
        Complete(again.(data := [], dataType := 0), d.dataType + last, d.data)
      else
        Complete(again.(control := []), Opcode(d), d.control)
    else if cfg.wantFragments then
      var given := if d.dataType == 1 then Utf8.Given(d.utf8) else 0;
      if given > |d.data| then Failure(UNDEFINED, true)
      else
        var cut := |d.data| - given;
        Complete(again.(data := d.data[cut..]), d.dataType + (if continued then 0x20 else 0x10), d.data[..cut])
    else
      More(again)
  }

  function Feed(cfg: Config, d: Decoder, b: byte): Outcome
    requires Valid(d)
  {
    match d.phase
    case Start => FeedStart(d, b)
    case Length => FeedLength(cfg, d, b)
    case Length2 => FeedLength2(cfg, d, b)
    case Length8 => FeedLength8(cfg, d, b)
    case Mask => FeedMask(cfg, d, b)
    case Data => FeedData(cfg, d, b)
    case Control => FeedControl(cfg, d, b)
    case Dead => Failure(STREAM_BROKEN, false)
  }

  ghost predicate Keeps(o: Outcome) {
    match o
    case More(d) => Valid(d) && d.phase != Dead
    case Complete(d, status, _) => Valid(d) && d.phase == Start && status > 0
    case Failure(error, _) =>
      error in {PROTOCOL_ERROR, STREAM_BROKEN, MAXIMUM_SIZE_EXCEEDED, UTF8_ENCODING_ERROR, UNDEFINED}
  }

  lemma PayloadCompleteKeepsValid(cfg: Config, d: Decoder)
    requires HeaderOk(d) && IsKey(d.key) && d.dataType <= 2
    requires (d.phase == Data && d.dataType != 0) || (d.phase == Control && Opcode(d) != 0)
    ensures Keeps(PayloadComplete(cfg, d))
  {
  }

  lemma HeaderCompleteKeepsValid(cfg: Config, d: Decoder)
    requires HeaderOk(d) && IsKey(d.key) && d.dataType <= 2 && d.payloadIndex == 0
    ensures Keeps(HeaderComplete(cfg, d))
  {
    if d.payloadSize == 0 {
      var opcode := Opcode(d);
      if opcode == 0 {
        PayloadCompleteKeepsValid(cfg, d.(phase := Data));
      } else if opcode < 8 {
        PayloadCompleteKeepsValid(cfg, d.(phase := Data, data := [], dataType := opcode));
      } else {
        PayloadCompleteKeepsValid(cfg, d.(phase := Control, control := []));
      }
    }
  }

  lemma LengthKnownKeepsValid(cfg: Config, d: Decoder, size: nat)
    requires HeaderOk(d) && IsKey(d.key) && d.dataType <= 2 && d.payloadIndex == 0 && |d.header| == LengthEnd(d)
    requires |d.header| >= 2
    ensures Keeps(LengthKnown(cfg, d, size))
  {
    if d.header[1] < 0x80 {
      HeaderCompleteKeepsValid(cfg, d.(payloadSize := size, key := [0, 0, 0, 0]));
    }
  }

  lemma FeedMaskKeepsValid(cfg: Config, d: Decoder, b: byte)
    requires Valid(d) && d.phase == Mask
    ensures Keeps(FeedMask(cfg, d, b))
  {
    var d1 := d.(header := d.header + [b]);
    assert d1.header[0] == d.header[0] && d1.header[1] == d.header[1];
    if |d1.header| == LengthEnd(d) + 4 {
      HeaderCompleteKeepsValid(cfg, d1.(key := d1.header[|d1.header| - 4..]));
    }
  }

  lemma FeedLengthKeepsValid(cfg: Config, d: Decoder, b: byte)
    requires Valid(d) && d.phase in {Length, Length2, Length8}
    ensures Keeps(Feed(cfg, d, b))
  {
    var d1 := d.(header := d.header + [b]);
    assert d1.header[0] == d.header[0];
    match d.phase
    case Length =>
      if b % 128 < 126 { LengthKnownKeepsValid(cfg, d1, b % 128); }
    case Length2 =>
      if |d1.header| == 4 { LengthKnownKeepsValid(cfg, d1, FromBigEndian(d1.header[2..4])); }
    case Length8 =>
      if |d1.header| == 10 { LengthKnownKeepsValid(cfg, d1, FromBigEndian(d1.header[2..10])); }
  }

  lemma FeedPayloadKeepsValid(cfg: Config, d: Decoder, b: byte)
    requires Valid(d) && d.phase in {Data, Control}
    ensures Keeps(Feed(cfg, d, b))
  {
    hide Utf8.Next, Xor, PayloadComplete;
    var c := Xor(b, d.key[d.payloadIndex % 4]);
    if d.phase == Control {
      var d1 := d.(control := d.control + [c], payloadIndex := d.payloadIndex + 1);
      PayloadCompleteKeepsValid(cfg, d1);
      if InReason(d) && Utf8.Next(ReasonStep(d), c).At? {
        PayloadCompleteKeepsValid(cfg, d1.(utf8 := Utf8.Next(ReasonStep(d), c).step));
      }
    } else {
      var d1 := d.(data := d.data + [c], payloadIndex := d.payloadIndex + 1);
      if d.dataType != 1 {
        PayloadCompleteKeepsValid(cfg, d1);
      } else if Utf8.Next(d.utf8, c).At? {
        PayloadCompleteKeepsValid(cfg, d1.(utf8 := Utf8.Next(d.utf8, c).step));
      }
    }
  }

  lemma FeedKeepsValid(cfg: Config, d: Decoder, b: byte)
    requires Valid(d)
    ensures Keeps(Feed(cfg, d, b))
  {
    match d.phase
    case Start =>
    case Mask => FeedMaskKeepsValid(cfg, d, b);
    case Data => FeedPayloadKeepsValid(cfg, d, b);
    case Control => FeedPayloadKeepsValid(cfg, d, b);
    case Dead =>
    case _ => FeedLengthKeepsValid(cfg, d, b);
  }
}
