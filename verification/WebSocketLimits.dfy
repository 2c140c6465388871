// The limit on the size of a message.
module WebSocketLimits {
  import opened Bytes
  import Utf8
  import opened WebSocketFrame
  import opened WebSocketDecoder
  import opened WebSocketRuns
  import opened WebSocketMessages
  import opened WebSocketText

  // The decoder expects a frame like this, whatever its size.
  ghost predicate Wanted(cfg: Config, d: Decoder, fragmentation: Fragmentation, opcode: byte, key: seq<byte>,
                         payload: seq<byte>)
  {
    && 1 <= opcode <= 2 && d.dataType <= 2
    && (d.dataType == 0 <==> !Continues(fragmentation))
    && Valid(d) && d.phase == Start && !d.onlyControl
    && cfg.client == (key == []) && (key == [] || IsKey(key))
    && |payload| <= 0x7fffffffffffffff
  }

  // How much of the message there is with this frame.
  function Together(d: Decoder, fragmentation: Fragmentation, payload: seq<byte>): nat {
    |payload| + (if Continues(fragmentation) then |d.data| else 0)
  }

  // The rest of a frame after an error does not matter.
  lemma BrokenOff(cfg: Config, d: Decoder, front: seq<byte>, rest: seq<byte>, error: int)
    requires Valid(d) && Stream(cfg, d, front) == Run(BROKEN, [Error(error)])
    ensures Stream(cfg, d, front + rest) == Run(BROKEN, [Error(error)])
  {
    hide Stream;
    StreamConcat(cfg, d, front, rest);
    DeadStaysDead(cfg, rest);
  }

  // The frame alone is beyond the limit: refused with its length.
  lemma FrameTooBig(cfg: Config, d: Decoder, fragmentation: Fragmentation, opcode: byte, key: seq<byte>,
                    payload: seq<byte>)
    requires Wanted(cfg, d, fragmentation, opcode, key, payload)
    requires cfg.maxPayload != 0 && |payload| > cfg.maxPayload
    ensures Stream(cfg, d, Frame(fragmentation, opcode, key, payload)) == Run(BROKEN, [Error(MAXIMUM_SIZE_EXCEEDED)])
  {
    hide Stream;
    var first := FirstByte(fragmentation, opcode);
    var field := LengthField(key != [], |payload|);
    var d1 := FeedStart(d, first).d;
    assert FeedStart(d, first) == More(d.(phase := Length, header := [first]));
    StreamOne(cfg, d, first);
    FeedKeepsValid(cfg, d, first);
    LengthFieldFed(cfg, d1, key != [], |payload|);
    StreamConcat(cfg, d, [first], field);
    EmptyBefore(Stream(cfg, d1, field));
    var rest := key + (if key == [] then payload else Masked(payload, key, 0));
    BrokenOff(cfg, d, [first] + field, rest, MAXIMUM_SIZE_EXCEEDED);
    assert [first] + field + rest == Frame(fragmentation, opcode, key, payload);
  }

  // The message is beyond the limit with this frame, which is not: refused with its header.
  lemma MessageTooBig(cfg: Config, d: Decoder, fragmentation: Fragmentation, opcode: byte, key: seq<byte>,
                      payload: seq<byte>)
    requires Wanted(cfg, d, fragmentation, opcode, key, payload)
    requires cfg.maxPayload != 0 && |payload| <= cfg.maxPayload < Together(d, fragmentation, payload)
    ensures Stream(cfg, d, Frame(fragmentation, opcode, key, payload)) == Run(BROKEN, [Error(MAXIMUM_SIZE_EXCEEDED)])
  {
    hide Stream;
    var first := FirstByte(fragmentation, opcode);
    var header := [first] + LengthField(key != [], |payload|) + key;
    var body := if key == [] then payload else Masked(payload, key, 0);
    assert FeedStart(d, first) == More(d.(phase := Length, header := [first]));
    HeaderFed(cfg, d, first, key, |payload|);
    var h := Head(FeedStart(d, first).d, first, key, |payload|);
    assert h.header[0] == first && HeaderComplete(cfg, h) == Failure(MAXIMUM_SIZE_EXCEEDED, true);
    BrokenOff(cfg, d, header, body, MAXIMUM_SIZE_EXCEEDED);
    assert header + body == Frame(fragmentation, opcode, key, payload);
  }

  // Within the limit the frame fails for another reason, if at all.
  lemma WithinLimit(cfg: Config, d: Decoder, fragmentation: Fragmentation, opcode: byte, key: seq<byte>,
                    payload: seq<byte>)
    requires Expects(cfg, d, fragmentation, opcode, key, payload)
    ensures Stream(cfg, d, Frame(fragmentation, opcode, key, payload)) != Run(BROKEN, [Error(MAXIMUM_SIZE_EXCEEDED)])
  {
    hide Stream, Utf8.Check, Frame;
    var kind := MessageType(d, fragmentation, opcode);
    var error := [Error(MAXIMUM_SIZE_EXCEEDED)];
    assert error[0] == Error(MAXIMUM_SIZE_EXCEEDED);
    if kind == 1 && Utf8.Check(d.utf8, payload).Bad? {
      TextOrContinuation(fragmentation, opcode, key, payload);
      BadFrame(cfg, d, fragmentation, key, payload);
      assert [Error(UTF8_ENCODING_ERROR)][0] == Error(UTF8_ENCODING_ERROR);
    } else {
      FrameFed(cfg, d, fragmentation, opcode, key, payload);
      FullIs(d, fragmentation, opcode, key, payload);
      NoSizeError(cfg, Full(d, fragmentation, opcode, key, payload));
    }
  }

  // The frame of a continuation does not depend on the type of the message.
  lemma TextOrContinuation(fragmentation: Fragmentation, opcode: byte, key: seq<byte>, payload: seq<byte>)
    requires 1 <= opcode <= 2 && (key == [] || IsKey(key)) && (Continues(fragmentation) || opcode == 1)
    ensures Frame(fragmentation, opcode, key, payload) == Frame(fragmentation, TEXT, key, payload)
  {
  }

  lemma NoSizeError(cfg: Config, d: Decoder)
    requires d.header != [] && d.phase in {Data, Control}
    ensures PayloadComplete(cfg, d) != Failure(MAXIMUM_SIZE_EXCEEDED, true)
    ensures RunOf(PayloadComplete(cfg, d)) != Run(BROKEN, [Error(MAXIMUM_SIZE_EXCEEDED)])
  {
    assert [Error(MAXIMUM_SIZE_EXCEEDED)][0] == Error(MAXIMUM_SIZE_EXCEEDED);
    assert RunOf(PayloadComplete(cfg, d)).events != [] ==>
           RunOf(PayloadComplete(cfg, d)).events[0] != Error(MAXIMUM_SIZE_EXCEEDED);
  }

  // A frame is refused for its size if and only if there is a limit, and what is there of
  // the message with it exceeds the limit.
  lemma SizeVerdict(cfg: Config, d: Decoder, fragmentation: Fragmentation, opcode: byte, key: seq<byte>,
                    payload: seq<byte>)
    requires Wanted(cfg, d, fragmentation, opcode, key, payload)
    ensures var r := Stream(cfg, d, Frame(fragmentation, opcode, key, payload));
      r == Run(BROKEN, [Error(MAXIMUM_SIZE_EXCEEDED)]) <==>
            cfg.maxPayload != 0 && Together(d, fragmentation, payload) > cfg.maxPayload
  {
    hide Stream, Frame, Valid;
    if cfg.maxPayload != 0 && |payload| > cfg.maxPayload {
      FrameTooBig(cfg, d, fragmentation, opcode, key, payload);
    } else if cfg.maxPayload != 0 && Together(d, fragmentation, payload) > cfg.maxPayload {
      MessageTooBig(cfg, d, fragmentation, opcode, key, payload);
    } else {
      WithinLimit(cfg, d, fragmentation, opcode, key, payload);
    }
  }

  // With a limit of 10 a message of 20 octets is refused, in one frame or in two.
  lemma TwentyOctets(payload: seq<byte>)
    requires |payload| == 20
    ensures var r := Stream(Config(true, false, 10), FRESH, Frame(Unfragmented, 2, [], payload));
      r.events == [Error(-5)]
    ensures var wire := Frame(First, 2, [], payload[..10]) + Frame(Last, 2, [], payload[10..]);
      Stream(Config(true, false, 10), FRESH, wire).events == [Error(-5)]
  {
    hide Stream, Frame;
    var cfg := Config(true, false, 10);
    SizeVerdict(cfg, FRESH, Unfragmented, 2, [], payload);
    var a, b := payload[..10], payload[10..];
    KeptFrame(cfg, FRESH, First, 2, [], a);
    var d := Stream(cfg, FRESH, Frame(First, 2, [], a)).d;
    assert [] + a == a;
    SizeVerdict(cfg, d, Last, 2, [], b);
    StreamConcat(cfg, FRESH, Frame(First, 2, [], a), Frame(Last, 2, [], b));
  }
}
