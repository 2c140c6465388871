// Pings and pongs, which may arrive between the fragments of a message, and close
// frames, which end the data.
module WebSocketControl {
  import opened Bytes
  import Utf8
  import opened WebSocketFrame
  import opened WebSocketDecoder
  import opened WebSocketRuns
  import opened WebSocketMessages
  import opened WebSocketBulk

  const CLOSE: byte := 8
  const PING: byte := 9
  const PONG: byte := 10

  // A control frame as the encoder writes it; an empty key means that it is not masked.
  function ControlFrame(opcode: byte, key: seq<byte>, payload: seq<byte>): seq<byte>
    requires opcode < 16 && |payload| <= 125 && (key == [] || IsKey(key))
  {
    [0x80 + opcode, LengthByte(key != [], |payload|)] + key + Body(key, payload)
  }

  function Body(key: seq<byte>, payload: seq<byte>): seq<byte>
    requires key == [] || IsKey(key)
  {
    if key == [] then payload else Masked(payload, key, 0)
  }

  // A frame whose header the decoder accepts; a close frame has no payload, or a code of
  // two octets and a reason text.
  ghost predicate Sendable(cfg: Config, d: Decoder, opcode: byte, key: seq<byte>, payload: seq<byte>) {
    && opcode in {PING, PONG, CLOSE} && (opcode == CLOSE ==> |payload| != 1) && Valid(d) && d.phase == Start
    && cfg.client == (key == []) && (key == [] || IsKey(key))
    && |payload| <= 125 && !TooBig(cfg, |payload|)
  }

  // The reason text is one that the decoder can read.
  predicate Readable(opcode: byte, payload: seq<byte>) {
    opcode == CLOSE && |payload| > 2 ==> Utf8.Check(Utf8.Normal, payload[2..]).At?
  }

  ghost predicate Allowed(cfg: Config, d: Decoder, opcode: byte, key: seq<byte>, payload: seq<byte>) {
    Sendable(cfg, d, opcode, key, payload) && Readable(opcode, payload)
  }

  // After a close frame only control frames are acceptable.
  function Noted(d: Decoder, opcode: byte): Decoder {
    d.(onlyControl := d.onlyControl || opcode == CLOSE)
  }

  // The decoder once the header of the frame has been read.
  function ControlHead(d: Decoder, opcode: byte, key: seq<byte>, n: nat): Decoder
    requires opcode < 16 && n <= 125
  {
    Noted(d, opcode).(
      phase := Mask, header := [0x80 + opcode, LengthByte(key != [], n)] + key, payloadSize := n, key := KeyInUse(key))
  }

  // The decoder after the whole frame.  The check of a reason text leaves its step
  // behind in the step of the data, which is not needed any more.
  function ControlDone(d: Decoder, opcode: byte, key: seq<byte>, payload: seq<byte>): Decoder
    requires opcode < 16 && |payload| <= 125 && Readable(opcode, payload)
  {
    ControlHead(d, opcode, key, |payload|).(
      phase := Start, header := [], payloadIndex := 0, control := [],
      utf8 := if opcode == CLOSE && |payload| > 2 then Utf8.Check(Utf8.Normal, payload[2..]).step else d.utf8)
  }

  lemma ControlStarts(cfg: Config, d: Decoder, opcode: byte, key: seq<byte>, payload: seq<byte>)
    requires Sendable(cfg, d, opcode, key, payload)
    ensures var start, n := [0x80 + opcode, LengthByte(key != [], |payload|)], |payload|;
      var d2 := Noted(d, opcode).(header := start, phase := Mask, payloadSize := n);
      Stream(cfg, d, start) ==
        if key == [] then RunOf(HeaderComplete(cfg, d2.(key := KeyInUse(key)))) else Run(d2, [])
  {
    hide Stream, HeaderComplete, Feed, Valid, LengthByte, Sendable, KeyInUse, RunOf;
    var first, b := 0x80 + opcode, LengthByte(key != [], |payload|);
    var d1 := ControlFirst(cfg, d, opcode, key, payload);
    ControlSecond(cfg, d, d1, opcode, key, payload);
    StreamConcat(cfg, d, [first], [b]);
    EmptyBefore(Stream(cfg, d1, [b]));
    assert [first] + [b] == [first, b];
  }

  // The first octet.
  lemma ControlFirst(cfg: Config, d: Decoder, opcode: byte, key: seq<byte>, payload: seq<byte>) returns (d1: Decoder)
    requires Sendable(cfg, d, opcode, key, payload)
    ensures d1 == Noted(d, opcode).(phase := Length, header := [0x80 + opcode]) && Valid(d1) && Valid(d)
    ensures Stream(cfg, d, [0x80 + opcode]) == Run(d1, [])
  {
    hide Stream, HeaderComplete;
    d1 := FeedStart(d, 0x80 + opcode).d;
    StreamOne(cfg, d, 0x80 + opcode);
    FeedKeepsValid(cfg, d, 0x80 + opcode);
  }

  // The second one.
  lemma ControlSecond(cfg: Config, d: Decoder, d1: Decoder, opcode: byte, key: seq<byte>, payload: seq<byte>)
    requires Sendable(cfg, d, opcode, key, payload) && Valid(d1)
    requires d1 == Noted(d, opcode).(phase := Length, header := [0x80 + opcode])
    ensures var start, n := [0x80 + opcode, LengthByte(key != [], |payload|)], |payload|;
      var d2 := Noted(d, opcode).(header := start, phase := Mask, payloadSize := n);
      Stream(cfg, d1, [LengthByte(key != [], n)]) ==
        if key == [] then RunOf(HeaderComplete(cfg, d2.(key := KeyInUse(key)))) else Run(d2, [])
  {
    hide Stream, Feed, HeaderComplete, LengthByte, KeyInUse;
    StreamOne(cfg, d1, LengthByte(key != [], |payload|));
    SecondOctet(cfg, d, d1, opcode, key, payload);
  }

  lemma SecondOctet(cfg: Config, d: Decoder, d1: Decoder, opcode: byte, key: seq<byte>, payload: seq<byte>)
    requires Sendable(cfg, d, opcode, key, payload) && Valid(d1)
    requires d1 == Noted(d, opcode).(phase := Length, header := [0x80 + opcode])
    ensures var start, n := [0x80 + opcode, LengthByte(key != [], |payload|)], |payload|;
      var d2 := Noted(d, opcode).(header := start, phase := Mask, payloadSize := n);
      Feed(cfg, d1, LengthByte(key != [], n)) ==
        if key == [] then HeaderComplete(cfg, d2.(key := KeyInUse(key))) else More(d2)
  {
    hide HeaderComplete;
    var b := LengthByte(key != [], |payload|);
    assert [0x80 + opcode] + [b] == [0x80 + opcode, b];
    OtherPhase(cfg, d1.(header := [0x80 + opcode, b], payloadSize := |payload|, key := KeyInUse(key)));
  }

  lemma OtherPhase(cfg: Config, d: Decoder)
    requires d.header != []
    ensures HeaderComplete(cfg, d.(phase := Mask)) == HeaderComplete(cfg, d)
  {
  }

  lemma ControlHeaderFed(cfg: Config, d: Decoder, opcode: byte, key: seq<byte>, payload: seq<byte>)
    requires Sendable(cfg, d, opcode, key, payload)
    ensures Stream(cfg, d, [0x80 + opcode, LengthByte(key != [], |payload|)] + key) ==
            RunOf(HeaderComplete(cfg, ControlHead(d, opcode, key, |payload|)))
  {
    hide Stream, HeaderComplete;
    var start := [0x80 + opcode, LengthByte(key != [], |payload|)];
    ControlStarts(cfg, d, opcode, key, payload);
    if key == [] {
      assert start + key == start;
    } else {
      KeyAfterStart(cfg, d, start, key,
                    Noted(d, opcode).(header := start, phase := Mask, payloadSize := |payload|));
    }
  }

  lemma ControlOpens(cfg: Config, d: Decoder, opcode: byte, key: seq<byte>, payload: seq<byte>)
    requires Allowed(cfg, d, opcode, key, payload)
    ensures var h := ControlHead(d, opcode, key, |payload|);
      var d1 := h.(phase := Control, control := []);
      && HeaderComplete(cfg, h) == (if payload == [] then PayloadComplete(cfg, d1) else More(d1))
      && (payload == [] ==> PayloadComplete(cfg, d1) == Complete(ControlDone(d, opcode, key, payload), opcode, payload))
      && (payload != [] ==> Valid(d1) && ControlTaken(d1, payload).Accepted?)
      && (payload != [] ==> PayloadComplete(cfg, ControlTaken(d1, payload).d) ==
                              Complete(ControlDone(d, opcode, key, payload), opcode, payload))
  {
    hide Utf8.Check;
    var h := ControlHead(d, opcode, key, |payload|);
    assert h.header[0] == 0x80 + opcode;
    assert [] + payload == payload;
    if |payload| > 2 {
      assert payload[2..|payload|] == payload[2..];
    }
  }

  lemma ControlBodyFed(cfg: Config, d: Decoder, payload: seq<byte>, done: Decoder, status: nat)
    requires Valid(d) && d.phase == Control && payload != [] && d.payloadIndex == 0 && d.payloadSize == |payload|
    requires ControlTaken(d, payload).Accepted?
    requires PayloadComplete(cfg, ControlTaken(d, payload).d) == Complete(done, status, payload)
    ensures Stream(cfg, d, Masked(payload, d.key, 0)) == Run(done, [Message(status, payload)])
  {
    hide Stream, Scan, PayloadComplete, ControlTaken;
    var wire := Masked(payload, d.key, 0);
    MaskedTwice(payload, d.key, 0);
    ScanControl(cfg, d, wire, []);
    TakenStays(d, payload);
    assert wire + [] == wire && wire[..|wire|] == wire;
    ScanIsStream(cfg, d, wire);
  }

  // A control frame is handed out at once.
  lemma ControlFrameFed(cfg: Config, d: Decoder, opcode: byte, key: seq<byte>, payload: seq<byte>)
    requires Allowed(cfg, d, opcode, key, payload)
    ensures Stream(cfg, d, ControlFrame(opcode, key, payload)) ==
            Run(ControlDone(d, opcode, key, payload), [Message(opcode, payload)])
  {
    hide Stream, HeaderComplete, PayloadComplete, ControlTaken, Utf8.Check;
    var header := [0x80 + opcode, LengthByte(key != [], |payload|)] + key;
    var d1 := ControlHead(d, opcode, key, |payload|).(phase := Control, control := []);
    ControlHeaderFed(cfg, d, opcode, key, payload);
    ControlOpens(cfg, d, opcode, key, payload);
    if payload == [] {
      assert ControlFrame(opcode, key, payload) == header;
    } else {
      StreamConcat(cfg, d, header, Body(key, payload));
      UnmaskedBody(payload);
      ControlBodyFed(cfg, d1, payload, ControlDone(d, opcode, key, payload), opcode);
      EmptyBefore(Stream(cfg, d1, Body(key, payload)));
    }
  }

  // A ping or pong does not affect the message in progress: its type, what is kept of
  // it and its UTF-8 step stay.
  lemma ControlFrameBetweenFragments(cfg: Config, d: Decoder, opcode: byte, key: seq<byte>, payload: seq<byte>,
                                     dataType: byte, data: seq<byte>, utf8: Utf8.Step)
    requires Allowed(cfg, d, opcode, key, payload) && opcode != CLOSE && Between(d, dataType, data, utf8)
    ensures var r := Stream(cfg, d, ControlFrame(opcode, key, payload));
      r.events == [Message(opcode, payload)] && Between(r.d, dataType, data, utf8)
  {
    hide Stream;
    ControlFrameFed(cfg, d, opcode, key, payload);
    assert Valid(Stream(cfg, d, ControlFrame(opcode, key, payload)).d);
  }

  // After a close frame the first octet of any data frame breaks the stream.
  lemma NoDataAfterClose(cfg: Config, d: Decoder, key: seq<byte>, payload: seq<byte>, first: byte)
    requires Allowed(cfg, d, CLOSE, key, payload) && first % 16 < 8
    ensures Stream(cfg, d, ControlFrame(CLOSE, key, payload) + [first]) ==
            Run(BROKEN, [Message(CLOSE, payload), Error(PROTOCOL_ERROR)])
  {
    hide Stream;
    ControlFrameFed(cfg, d, CLOSE, key, payload);
    var r := Stream(cfg, d, ControlFrame(CLOSE, key, payload));
    StreamConcat(cfg, d, ControlFrame(CLOSE, key, payload), [first]);
    StreamOne(cfg, r.d, first);
  }
}
