// The decoder of the library as it is: a stream object whose buffers are filled
// in place, run by run.
module WebSocketStream {
  import opened Bytes
  import Utf8
  import opened WebSocketFrame
  import opened WebSocketDecoder
  import opened WebSocketRuns
  import opened WebSocketMessages
  import opened WebSocketBulk

  // MHD_WebSocket_DecodeStep, numbered so that one more octet is one step more.
  const START := 0
  const LENGTH_1_OF_X := 1
  const LENGTH_1_OF_2 := 2
  const LENGTH_2_OF_2 := 3
  const LENGTH_1_OF_8 := 4
  const LENGTH_8_OF_8 := 11
  const MASK_1_OF_4 := 12
  const MASK_4_OF_4 := 15
  const HEADER_COMPLETED := 16
  const PAYLOAD_OF_DATA_FRAME := 17
  const PAYLOAD_OF_CONTROL_FRAME := 18

  datatype Validity = Invalid | ValidStream | OnlyValidForControlFrames

  // Where the length ends, by the second octet of a frame.
  function EndOf(second: byte): nat {
    if second % 128 == 126 then 4 else if second % 128 == 127 then 10 else 2
  }

  // MHD_websocket_copy_payload: unmasks `src` into `dst` from index `at` on.
  method CopyPayload(dst: array<byte>, at: nat, src: seq<byte>, mask: seq<byte>, maskOffset: nat)
    requires at + |src| <= dst.Length && IsKey(mask)
    modifies dst
    ensures dst[..at] == old(dst[..at])
    ensures dst[..at + |src|] == old(dst[..at]) + Masked(src, mask, maskOffset)
    ensures forall k :: at + |src| <= k < dst.Length ==> dst[k] == old(dst[k])
  {
    if mask == [0, 0, 0, 0] {
      for i := 0 to |src|
        invariant forall k :: 0 <= k < i ==> dst[at + k] == src[k]
        invariant forall k :: 0 <= k < dst.Length && !(at <= k < at + i) ==> dst[k] == old(dst[k])
      {
        dst[at + i] := src[i];
      }
      forall k | 0 <= k < |src| ensures Xor(src[k], mask[(k + maskOffset) % 4]) == src[k] {
        XorNothing(src[k]);
      }
    } else {
      for i := 0 to |src|
        invariant forall k :: 0 <= k < i ==> dst[at + k] == Xor(src[k], mask[(k + maskOffset) % 4])
        invariant forall k :: 0 <= k < dst.Length && !(at <= k < at + i) ==> dst[k] == old(dst[k])
      {
        dst[at + i] := Xor(src[i], mask[(i + maskOffset) % 4]);
      }
    }
    assert dst[..at + |src|] == dst[..at] + dst[at..at + |src|];
    assert dst[at..at + |src|] == Masked(src, mask, maskOffset);
  }

  // A buffer for `size` octets and a terminating NUL that begins with `kept`.
  method Allocate(kept: seq<byte>, size: nat) returns (buffer: array<byte>)
    requires |kept| <= size
    ensures fresh(buffer) && buffer.Length == size + 1 && buffer[..|kept|] == kept && buffer[size] == 0
  {
    buffer := new byte[size + 1](_ => 0);
    for i := 0 to |kept|
      invariant buffer[..i] == kept[..i] && buffer[size] == 0
    {
      buffer[i] := kept[i];
    }
  }

  class WebSocketStream {
    const client: bool
    const wantFragments: bool
    const maxPayloadSize: nat
    var decodeStep: nat
    var validity: Validity
    var dataUtf8Step: Utf8.Step
    const controlUtf8Step := Utf8.Normal
    var dataType: byte
    var dataPayload: array<byte>
    var dataPayloadStart: nat
    var dataPayloadSize: nat
    var controlPayload: array<byte>
    var frameHeaderSize: nat
    var payloadSize: nat
    var payloadIndex: nat
    const frameHeader: array<byte>
    const maskKey: array<byte>

    ghost function Cfg(): Config {
      Config(client, wantFragments, maxPayloadSize)
    }

    // Lengths that keep every access within its buffer, and the header size that
    // goes with each step.
    ghost predicate Shaped()
      reads this, frameHeader
    {
      && frameHeader.Length == 32 && maskKey.Length == 4
      && frameHeader != maskKey && dataPayload != frameHeader && dataPayload != maskKey
      && controlPayload != frameHeader && controlPayload != maskKey && controlPayload != dataPayload
      && dataPayloadSize <= dataPayload.Length && frameHeaderSize <= 14
      && decodeStep <= PAYLOAD_OF_CONTROL_FRAME
      && (decodeStep == PAYLOAD_OF_DATA_FRAME ==>
           dataPayloadStart + payloadSize == dataPayloadSize && payloadIndex <= payloadSize)
      && (decodeStep == PAYLOAD_OF_CONTROL_FRAME ==> payloadIndex <= payloadSize <= controlPayload.Length)
      && (LENGTH_1_OF_2 <= decodeStep <= LENGTH_2_OF_2 ==> frameHeaderSize == decodeStep)
      && (LENGTH_1_OF_8 <= decodeStep <= LENGTH_8_OF_8 ==> frameHeaderSize == decodeStep - 2)
      && (MASK_1_OF_4 <= decodeStep <= MASK_4_OF_4 ==>
           frameHeaderSize >= 2 && frameHeaderSize == EndOf(frameHeader[1]) + decodeStep - MASK_1_OF_4)
    }

    function PhaseOf(): Phase
      reads this
    {
      if decodeStep == START then Start
      else if decodeStep == LENGTH_1_OF_X then Length
      else if decodeStep <= LENGTH_2_OF_2 then Length2
      else if decodeStep <= LENGTH_8_OF_8 then Length8
      else if decodeStep <= HEADER_COMPLETED then Mask
      else if decodeStep == PAYLOAD_OF_DATA_FRAME then Data
      else Control
    }

    // The message octets received so far.
    ghost function Received(): seq<byte>
      requires Shaped()
      reads this, frameHeader, dataPayload
    {
      if decodeStep == PAYLOAD_OF_DATA_FRAME then dataPayload[..dataPayloadStart + payloadIndex]
      else dataPayload[..dataPayloadSize]
    }

    ghost function Controls(): seq<byte>
      requires Shaped()
      reads this, frameHeader, controlPayload
    {
      if decodeStep == PAYLOAD_OF_CONTROL_FRAME then controlPayload[..payloadIndex] else []
    }

    ghost function Fields(): Decoder
      requires Shaped()
      reads this, frameHeader, maskKey, dataPayload, controlPayload
    {
      Decoder(PhaseOf(), frameHeader[..frameHeaderSize], maskKey[..], payloadSize, payloadIndex, dataType,
              Received(), dataUtf8Step, Controls(), validity.OnlyValidForControlFrames?)
    }

    // The stream between two calls.
    ghost function Abs(): Decoder
      requires Shaped()
      reads this, frameHeader, maskKey, dataPayload, controlPayload
    {
      if validity.Invalid? then BROKEN else Fields()
    }

    // What the octets read so far have led to; a complete header and a complete
    // payload are acted upon in the next round of the loop.
    ghost function Now(): Outcome
      requires Shaped()
      reads this, frameHeader, maskKey, dataPayload, controlPayload
    {
      if decodeStep == HEADER_COMPLETED && frameHeaderSize > 0 then HeaderComplete(Cfg(), Fields())
      else if decodeStep >= PAYLOAD_OF_DATA_FRAME && frameHeaderSize > 0 then Landed(Cfg(), Fields())
      else More(Fields())
    }

    // The payload of a control frame gets a NUL behind it.
    ghost predicate Terminated()
      reads this, controlPayload
    {
      decodeStep == PAYLOAD_OF_CONTROL_FRAME ==>
        controlPayload.Length == payloadSize + 1 && controlPayload[payloadSize] == 0
    }

    ghost predicate Waiting()
      requires Shaped()
      reads this, frameHeader
    {
      decodeStep != HEADER_COMPLETED && (decodeStep >= PAYLOAD_OF_DATA_FRAME ==> payloadIndex < payloadSize)
    }

    ghost predicate Valid()
      reads this, frameHeader, maskKey, dataPayload, controlPayload
    {
      Shaped() && (!validity.Invalid? ==> Waiting() && Terminated() && WebSocketDecoder.Valid(Fields()))
    }

    // MHD_websocket_stream_init2
    constructor (client: bool, wantFragments: bool, maxPayloadSize: nat)
      ensures Valid() && Abs() == FRESH && Cfg() == Config(client, wantFragments, maxPayloadSize)
      ensures fresh(frameHeader) && fresh(maskKey) && fresh(dataPayload) && fresh(controlPayload)
    {
      this.client, this.wantFragments, this.maxPayloadSize := client, wantFragments, maxPayloadSize;
      decodeStep, validity, dataUtf8Step, dataType := START, ValidStream, Utf8.Normal, 0;
      dataPayloadStart, dataPayloadSize, frameHeaderSize, payloadSize, payloadIndex := 0, 0, 0, 0, 0;
      frameHeader := new byte[32](_ => 0);
      maskKey := new byte[4](_ => 0);
      dataPayload := new byte[0];
      controlPayload := new byte[0];
    }

    ghost predicate InHeader()
      reads this, frameHeader, maskKey, dataPayload, controlPayload
    {
      && Shaped() && decodeStep <= HEADER_COMPLETED && frameHeaderSize > 0
      && (decodeStep == HEADER_COMPLETED ==> HeaderReady(Fields()))
    }

    method Fail()
      modifies this`validity
      ensures validity.Invalid?
    {
      validity := Invalid;
    }

    // Stores one header octet and goes to step `next`.
    method Store(b: byte, next: nat)
      requires Shaped() && frameHeaderSize < 14 && LENGTH_1_OF_X <= next <= HEADER_COMPLETED
      requires LENGTH_1_OF_2 <= next <= LENGTH_2_OF_2 ==> frameHeaderSize + 1 == next
      requires LENGTH_1_OF_8 <= next <= LENGTH_8_OF_8 ==> frameHeaderSize + 1 == next - 2
      requires MASK_1_OF_4 <= next <= MASK_4_OF_4 ==>
        frameHeaderSize >= 1 &&
        frameHeaderSize + 1 == EndOf(if frameHeaderSize == 1 then b else frameHeader[1]) + next - MASK_1_OF_4
      requires decodeStep < HEADER_COMPLETED
      modifies this`frameHeaderSize, this`decodeStep, frameHeader
      ensures Shaped() && frameHeaderSize == old(frameHeaderSize) + 1 && decodeStep == next
      ensures Fields() == old(Fields()).(phase := PhaseOf(), header := old(Fields()).header + [b])
    {
      frameHeader[frameHeaderSize] := b;
      frameHeaderSize := frameHeaderSize + 1;
      decodeStep := next;
    }

    // The first octet of a frame.
    method StartOfFrame(b: byte) returns (status: int)
      requires Shaped() && decodeStep == START && !validity.Invalid? && WebSocketDecoder.Valid(Fields())
      modifies this, frameHeader
      ensures Shaped() && dataPayload == old(dataPayload) && controlPayload == old(controlPayload)
      ensures status == OK ==> !validity.Invalid? && FeedStart(old(Fields()), b) == Now()
      ensures status == OK ==> InHeader() && frameHeaderSize == old(frameHeaderSize) + 1
      ensures status != OK ==> validity.Invalid? && FeedStart(old(Fields()), b) == Failure(status, false)
      ensures status != OK ==> frameHeaderSize == old(frameHeaderSize) && decodeStep == old(decodeStep)
    {
      var opcode := b % 16;
      if b / 16 % 8 != 0 {
        Fail();
        return PROTOCOL_ERROR;
      }
      match opcode {
        case 0 =>
          if dataType == 0 || validity.OnlyValidForControlFrames? {
            Fail();
            return PROTOCOL_ERROR;
          }
        case 1 | 2 =>
          if dataType != 0 || validity.OnlyValidForControlFrames? {
            Fail();
            return PROTOCOL_ERROR;
          }
        case 8 | 9 | 10 =>
          if b < 0x80 {
            Fail();
            return PROTOCOL_ERROR;
          }
          if opcode == 8 {
            validity := OnlyValidForControlFrames;
          }
        case _ =>
          Fail();
          return PROTOCOL_ERROR;
      }
      Store(b, LENGTH_1_OF_X);
      status := OK;
    }

    // The payload size is known and acceptable, or too big.
    method SizeKnown(size: nat) returns (status: int)
      requires Shaped() && MASK_1_OF_4 == decodeStep && !validity.Invalid? && frameHeaderSize >= 2
      modifies this`validity, this`payloadSize, this`decodeStep, maskKey
      ensures Shaped() && (decodeStep == HEADER_COMPLETED || decodeStep == MASK_1_OF_4)
      ensures frameHeaderSize == old(frameHeaderSize) && Fields().header == old(Fields()).header
      ensures status == OK ==> validity == old(validity) && LengthKnown(Cfg(), old(Fields()), size) == Now()
      ensures status != OK ==> validity.Invalid? && LengthKnown(Cfg(), old(Fields()), size) == Failure(status, true)
    {
      hide HeaderComplete;
      if maxPayloadSize != 0 && maxPayloadSize < size {
        Fail();
        return MAXIMUM_SIZE_EXCEEDED;
      }
      payloadSize := size;
      if frameHeader[1] < 0x80 {
        maskKey[0], maskKey[1], maskKey[2], maskKey[3] := 0, 0, 0, 0;
        assert maskKey[..] == [0, 0, 0, 0];
        decodeStep := HEADER_COMPLETED;
      }
      status := OK;
    }

    // The second octet of a frame.
    method LengthOfFrame(b: byte) returns (status: int)
      requires Shaped() && decodeStep == LENGTH_1_OF_X && !validity.Invalid? && WebSocketDecoder.Valid(Fields())
      modifies this, frameHeader, maskKey
      ensures Shaped() && dataPayload == old(dataPayload) && controlPayload == old(controlPayload)
      ensures status == OK ==> !validity.Invalid? && FeedLength(Cfg(), old(Fields()), b) == Now()
      ensures status == OK ==> InHeader() && frameHeaderSize == old(frameHeaderSize) + 1
      ensures status != OK ==> validity.Invalid? && FeedLength(Cfg(), old(Fields()), b).Failure?
      ensures status != OK ==> decodeStep <= HEADER_COMPLETED
      ensures status != OK ==> FeedLength(Cfg(), old(Fields()), b).error == status
      ensures status != OK ==> FeedLength(Cfg(), old(Fields()), b).taken == (frameHeaderSize != old(frameHeaderSize))
    {
      hide LengthKnown, HeaderComplete;
      var masked, length := b >= 0x80, b % 128;
      var opcode := frameHeader[0] % 16;
      if masked == client || (length >= 126 && opcode >= 8) || (length == 1 && opcode == 8) {
        Fail();
        return PROTOCOL_ERROR;
      }
      if length == 126 {
        Store(b, LENGTH_1_OF_2);
        status := OK;
      } else if length == 127 {
        Store(b, LENGTH_1_OF_8);
        status := OK;
      } else {
        Store(b, MASK_1_OF_4);
        PhaseDoesNotMatter(Cfg(), Fields(), length, Length);
        status := SizeKnown(length);
      }
    }

    // An octet of a length or of a masking key that is not the last one.
    method Collect(b: byte)
      requires Shaped() && !validity.Invalid? && WebSocketDecoder.Valid(Fields())
      requires LENGTH_1_OF_2 <= decodeStep < MASK_4_OF_4 && decodeStep !in {LENGTH_2_OF_2, LENGTH_8_OF_8}
      modifies this`frameHeaderSize, this`decodeStep, frameHeader
      ensures Shaped() && Feed(Cfg(), old(Fields()), b) == Now()
      ensures InHeader() && frameHeaderSize == old(frameHeaderSize) + 1
    {
      hide LengthKnown, HeaderComplete;
      Store(b, decodeStep + 1);
    }

    // The last octet of an extended length.
    method EndOfLength(b: byte) returns (status: int)
      requires Shaped() && decodeStep in {LENGTH_2_OF_2, LENGTH_8_OF_8}
      requires !validity.Invalid? && WebSocketDecoder.Valid(Fields())
      modifies this, frameHeader, maskKey
      ensures Shaped() && dataPayload == old(dataPayload) && controlPayload == old(controlPayload)
      ensures frameHeaderSize == old(frameHeaderSize) + 1 && decodeStep <= HEADER_COMPLETED
      ensures status == OK ==> !validity.Invalid? && Feed(Cfg(), old(Fields()), b) == Now() && InHeader()
      ensures status != OK ==> validity.Invalid? && Feed(Cfg(), old(Fields()), b) == Failure(status, true)
    {
      hide LengthKnown, HeaderComplete, FromBigEndian;
      ghost var d1 := Fields().(header := Fields().header + [b]);
      var short := decodeStep == LENGTH_2_OF_2;
      Store(b, MASK_1_OF_4);
      var size := FromBigEndian(frameHeader[2..if short then 4 else 10]);
      assert frameHeader[2..if short then 4 else 10] == d1.header[2..if short then 4 else 10];
      PhaseDoesNotMatter(Cfg(), d1, size, Mask);
      if (short && size <= 125) || (!short && (size > 0x7fffffffffffffff || size <= 65535)) {
        Fail();
        return PROTOCOL_ERROR;
      }
      status := SizeKnown(size);
    }

    // The last octet of a masking key.
    method EndOfMask(b: byte)
      requires Shaped() && decodeStep == MASK_4_OF_4 && !validity.Invalid? && WebSocketDecoder.Valid(Fields())
      modifies this`frameHeaderSize, this`decodeStep, frameHeader, maskKey
      ensures Shaped() && Feed(Cfg(), old(Fields()), b) == Now()
      ensures InHeader() && frameHeaderSize == old(frameHeaderSize) + 1
    {
      hide HeaderComplete;
      Store(b, HEADER_COMPLETED);
      CopyKey();
    }

    // The masking key is the last four octets of the header.
    method CopyKey()
      requires Shaped() && frameHeaderSize >= 4
      modifies maskKey
      ensures maskKey[..] == frameHeader[..frameHeaderSize][frameHeaderSize - 4..]
    {
      var end := frameHeaderSize;
      maskKey[0], maskKey[1] := frameHeader[end - 4], frameHeader[end - 3];
      maskKey[2], maskKey[3] := frameHeader[end - 2], frameHeader[end - 1];
      LastFour(frameHeader[..end]);
      assert maskKey[..] == [maskKey[0], maskKey[1], maskKey[2], maskKey[3]];
    }

    // Room for the payload after the `kept` first octets of the message so far.
    method MakeRoom(kept: nat)
      requires Shaped() && decodeStep == HEADER_COMPLETED && kept <= dataPayloadSize && payloadIndex == 0
      modifies this`dataPayload, this`dataPayloadStart, this`dataPayloadSize, this`decodeStep
      ensures Shaped() && fresh(dataPayload) && decodeStep == PAYLOAD_OF_DATA_FRAME
      ensures Fields() == old(Fields()).(phase := Data, data := old(Fields()).data[..kept])
    {
      dataPayload := Allocate(dataPayload[..kept], kept + payloadSize);
      dataPayloadStart, dataPayloadSize := kept, kept + payloadSize;
      decodeStep := PAYLOAD_OF_DATA_FRAME;
    }

    // MHD_websocket_decode_header_complete
    method HeaderCompleted() returns (status: int)
      requires Shaped() && decodeStep == HEADER_COMPLETED && !validity.Invalid? && HeaderReady(Fields())
      modifies this
      ensures Shaped()
      ensures dataPayload == old(dataPayload) || fresh(dataPayload)
      ensures controlPayload == old(controlPayload) || fresh(controlPayload)
      ensures status == OK ==> !validity.Invalid? && old(Now()) == Now() && decodeStep >= PAYLOAD_OF_DATA_FRAME
      ensures status == OK ==> frameHeaderSize > 0 && PayloadReady(Fields()) && Terminated()
      ensures status != OK ==> validity.Invalid? && old(Now()) == Failure(status, true)
    {
      hide PayloadComplete;
      var opcode := frameHeader[0] % 16;
      if opcode == 0 {
        if maxPayloadSize != 0 && maxPayloadSize < payloadSize + dataPayloadSize {
          Fail();
          return MAXIMUM_SIZE_EXCEEDED;
        }
        assert Fields().data[..dataPayloadSize] == Fields().data;
        MakeRoom(dataPayloadSize);
      } else if opcode < 8 {
        MakeRoom(0);
        dataType := opcode;
      } else {
        controlPayload := Allocate([], payloadSize);
        decodeStep := PAYLOAD_OF_CONTROL_FRAME;
      }
      status := OK;
    }

    // The stream is ready for the next frame.
    method NextFrame()
      requires Shaped() && decodeStep >= PAYLOAD_OF_DATA_FRAME && payloadIndex == payloadSize
      modifies this`decodeStep, this`payloadIndex, this`frameHeaderSize
      ensures Shaped() && decodeStep == START
      ensures Fields() == old(Fields()).(phase := Start, header := [], payloadIndex := 0, control := [])
    {
      decodeStep, payloadIndex, frameHeaderSize := START, 0, 0;
    }

    // Hands out the message so far but for its last `given` octets.
    method HandOut(given: nat) returns (payload: seq<byte>)
      requires Shaped() && decodeStep == PAYLOAD_OF_DATA_FRAME && payloadIndex == payloadSize
      requires given <= dataPayloadSize
      modifies this`dataPayload, this`dataPayloadStart, this`dataPayloadSize, this`decodeStep, this`payloadIndex,
               this`frameHeaderSize
      ensures Shaped() && decodeStep == START
      ensures dataPayload == old(dataPayload) || fresh(dataPayload)
      ensures |payload| == |old(Fields()).data| - given && payload == old(Fields()).data[..|payload|]
      ensures Fields() == old(Fields()).(phase := Start, header := [], payloadIndex := 0,
                                         data := old(Fields()).data[|payload|..])
    {
      var size := dataPayloadSize - given;
      payload := dataPayload[..size];
      ghost var data := dataPayload[..dataPayloadSize];
      NextFrame();
      if given == 0 {
        dataPayload := new byte[0];
        dataPayloadStart, dataPayloadSize := 0, 0;
      } else if size != 0 {
        dataPayload := Allocate(dataPayload[size..dataPayloadSize], given);
        dataPayloadSize := given;
      }
      assert dataPayload[..dataPayloadSize] == data[size..];
    }

    // A fragment is handed out up to its last finished UTF-8 sequence.
    method FragmentCompleted() returns (status: int, payload: seq<byte>)
      requires Shaped() && decodeStep == PAYLOAD_OF_DATA_FRAME && payloadIndex == payloadSize && wantFragments
      requires !validity.Invalid? && frameHeaderSize > 0 && PayloadReady(Fields()) && !IsFin(Fields())
      modifies this
      ensures Shaped() && controlPayload == old(controlPayload)
      ensures dataPayload == old(dataPayload) || fresh(dataPayload)
      ensures status > OK ==> !validity.Invalid? && decodeStep == START
      ensures status > OK ==> PayloadComplete(Cfg(), old(Fields())) == Complete(Fields(), status, payload)
      ensures status <= OK ==> status < OK && validity.Invalid? && payload == []
      ensures status <= OK ==> PayloadComplete(Cfg(), old(Fields())) == Failure(status, true)
    {
      hide PayloadComplete;
      status := dataType + (if frameHeader[0] % 16 == 0 then 0x20 else 0x10);
      var given := if dataType == 1 then Utf8.Given(dataUtf8Step) else 0;
      FragmentHandedOut(Cfg(), Fields(), given, status);
      if given > dataPayloadSize {
        Fail();
        return UNDEFINED, [];
      }
      payload := HandOut(given);
    }

    // The last or only frame of a message.
    method MessageCompleted() returns (status: int, payload: seq<byte>)
      requires Shaped() && decodeStep == PAYLOAD_OF_DATA_FRAME && payloadIndex == payloadSize
      requires !validity.Invalid? && frameHeaderSize > 0 && PayloadReady(Fields()) && IsFin(Fields())
      modifies this
      ensures Shaped() && !validity.Invalid? && decodeStep == START && controlPayload == old(controlPayload)
      ensures dataPayload == old(dataPayload) || fresh(dataPayload)
      ensures status > OK && PayloadComplete(Cfg(), old(Fields())) == Complete(Fields(), status, payload)
    {
      status := dataType + (if wantFragments && frameHeader[0] % 16 == 0 then 0x40 else 0);
      payload := HandOut(0);
      dataType := 0;
    }

    method ControlCompleted() returns (status: int, payload: seq<byte>)
      requires Shaped() && decodeStep == PAYLOAD_OF_CONTROL_FRAME && payloadIndex == payloadSize
      requires !validity.Invalid? && frameHeaderSize > 0 && PayloadReady(Fields())
      modifies this
      ensures Shaped() && !validity.Invalid? && decodeStep == START && dataPayload == old(dataPayload)
      ensures fresh(controlPayload)
      ensures status > OK && PayloadComplete(Cfg(), old(Fields())) == Complete(Fields(), status, payload)
    {
      status := frameHeader[0] % 16;
      payload := controlPayload[..payloadSize];
      NextFrame();
      controlPayload := new byte[0];
    }

    // MHD_websocket_decode_payload_complete
    method PayloadCompleted() returns (status: int, payload: seq<byte>)
      requires Shaped() && decodeStep >= PAYLOAD_OF_DATA_FRAME && payloadIndex == payloadSize
      requires !validity.Invalid? && frameHeaderSize > 0 && PayloadReady(Fields())
      modifies this
      ensures Shaped()
      ensures dataPayload == old(dataPayload) || fresh(dataPayload)
      ensures controlPayload == old(controlPayload) || fresh(controlPayload)
      ensures status >= OK ==> !validity.Invalid? && decodeStep == START && WebSocketDecoder.Valid(Fields())
      ensures status == OK ==> PayloadComplete(Cfg(), old(Fields())) == More(Fields())
      ensures status > OK ==> PayloadComplete(Cfg(), old(Fields())) == Complete(Fields(), status, payload)
      ensures status < OK ==> validity.Invalid? && PayloadComplete(Cfg(), old(Fields())) == Failure(status, true)
      ensures status <= OK ==> payload == []
    {
      hide PayloadComplete;
      PayloadCompleteKeepsValid(Cfg(), Fields());
      payload := [];
      if frameHeader[0] >= 0x80 {
        if decodeStep == PAYLOAD_OF_DATA_FRAME {
          status, payload := MessageCompleted();
        } else {
          status, payload := ControlCompleted();
        }
      } else if wantFragments {
        status, payload := FragmentCompleted();
      } else {
        KeptForLater(Cfg(), Fields());
        status := OK;
        NextFrame();
      }
    }

    method CopyData(chunk: seq<byte>)
      requires Shaped() && decodeStep == PAYLOAD_OF_DATA_FRAME && payloadIndex + |chunk| <= payloadSize
      modifies this`payloadIndex, dataPayload
      ensures Shaped() && payloadIndex == old(payloadIndex) + |chunk|
      ensures var plain := Masked(chunk, maskKey[..], old(payloadIndex));
        && Fields() == old(Fields()).(data := old(Fields()).data + plain, payloadIndex := payloadIndex)
        && dataPayload[old(dataPayloadStart + payloadIndex)..dataPayloadStart + payloadIndex] == plain
    {
      var start := dataPayloadStart + payloadIndex;
      MaskFromAnyTurn(chunk, maskKey[..], payloadIndex);
      CopyPayload(dataPayload, start, chunk, maskKey[..], payloadIndex % 4);
      payloadIndex := payloadIndex + |chunk|;
    }

    // Checks the message octets from `start` to `end`, which have just been copied.
    method CheckText(start: nat, end: nat) returns (status: int, offset: nat)
      requires Shaped() && decodeStep == PAYLOAD_OF_DATA_FRAME && start <= end <= dataPayload.Length
      modifies this`validity, this`dataUtf8Step
      ensures var s, step := dataPayload[start..end], old(dataUtf8Step);
        && (status == OK ==> Utf8.Check(step, s) == Utf8.At(dataUtf8Step) && validity == old(validity))
        && (status != OK ==>
             && status == UTF8_ENCODING_ERROR && validity.Invalid? && offset < |s|
             && Utf8.Check(step, s[..offset]).At? && Utf8.Check(step, s[..offset + 1]).Bad?)
    {
      hide Utf8.Check;
      var verdict, step, at := Utf8.CheckUtf8(dataPayload[start..end], dataUtf8Step);
      if verdict.Invalid? {
        Fail();
        return UTF8_ENCODING_ERROR, at;
      }
      dataUtf8Step := step;
      status, offset := OK, at;
    }

    // Payload octets of a data frame, as many as there are.
    method TakeData(chunk: seq<byte>, ghost rest: seq<byte>) returns (status: int, taken: nat)
      requires Shaped() && decodeStep == PAYLOAD_OF_DATA_FRAME && !validity.Invalid?
      requires WebSocketDecoder.Valid(Fields()) && chunk != [] && payloadIndex + |chunk| <= payloadSize
      modifies this`payloadIndex, this`validity, this`dataUtf8Step, dataPayload
      ensures Shaped() && taken <= |chunk|
      ensures status == OK ==> !validity.Invalid? && taken == |chunk| && Keeps(Now())
      ensures status == OK ==> decodeStep == old(decodeStep) && PayloadReady(Fields())
      ensures status == OK ==>
        WebSocketRuns.Decode(Cfg(), old(Fields()), chunk + rest) == Shift(taken, Go(Cfg(), Now(), rest))
      ensures status != OK ==> validity.Invalid?
      ensures status != OK ==>
        WebSocketRuns.Decode(Cfg(), old(Fields()), chunk + rest) == Call(BROKEN, status, taken, [])
    {
      hide Scan, Landed, Utf8.Check, Feed, HeaderComplete, Masked;
      ghost var d := Fields();
      var start := dataPayloadStart + payloadIndex;
      CopyData(chunk);
      status, taken := OK, |chunk|;
      if dataType == 1 {
        var offset;
        status, offset := CheckText(start, start + |chunk|);
        if status != OK {
          ScanBadText(Cfg(), d, chunk, rest, offset);
          return status, offset;
        }
      }
      ScanData(Cfg(), d, chunk, rest);
      assert Fields() == Filled(d, Masked(chunk, d.key, d.payloadIndex));
      DataGoes(Cfg(), Fields(), rest);
    }

    // Checks the reason text of a close frame, of which the octets from `index` on have
    // just been copied.
    method CheckReason(index: nat) returns (status: int, read: nat)
      requires Shaped() && Terminated() && decodeStep == PAYLOAD_OF_CONTROL_FRAME
      requires index < payloadIndex && 2 < payloadIndex
      modifies this`validity, this`dataUtf8Step
      ensures var r := CloseReading(index, controlPayload[index..payloadIndex], payloadIndex == payloadSize);
        && (status == OK ==> r == Passed(dataUtf8Step) && validity == old(validity))
        && (status != OK ==>
             && validity.Invalid? && dataUtf8Step == old(dataUtf8Step)
             && r == (if status == UTF8_ENCODING_ERROR then Refused(read) else Astray)
             && status == (if r.Refused? then UTF8_ENCODING_ERROR else UNDEFINED)
             && read <= payloadIndex - index && (r.Astray? ==> read == 0))
    {
      hide Utf8.Check;
      var take := payloadIndex - index;
      var start := if index < 2 then 2 else index;
      var skipped := if index < 2 then 2 else 0;
      var end := if start <= take then take else if payloadIndex == payloadSize then payloadSize + 1 else payloadIndex;
      SameReason(controlPayload[..], index, payloadIndex, payloadSize, end);
      ReadingFits(index, controlPayload[index..payloadIndex], payloadIndex == payloadSize);
      var verdict, step, at := Utf8.CheckUtf8(controlPayload[start..end], controlUtf8Step);
      if verdict.Invalid? {
        Fail();
        return UTF8_ENCODING_ERROR, at + skipped;
      }
      if take < start {
        Fail();
        return UNDEFINED, 0;
      }
      dataUtf8Step := step;
      status, read := OK, 0;
    }

    method CopyControl(chunk: seq<byte>)
      requires Shaped() && Terminated() && decodeStep == PAYLOAD_OF_CONTROL_FRAME
      requires payloadIndex + |chunk| <= payloadSize
      modifies this`payloadIndex, controlPayload
      ensures Shaped() && Terminated() && payloadIndex == old(payloadIndex) + |chunk|
      ensures Fields() == Controlled(old(Fields()), Masked(chunk, maskKey[..], old(payloadIndex)))
      ensures controlPayload[old(payloadIndex)..payloadIndex] == Masked(chunk, maskKey[..], old(payloadIndex))
    {
      MaskFromAnyTurn(chunk, maskKey[..], payloadIndex);
      CopyPayload(controlPayload, payloadIndex, chunk, maskKey[..], payloadIndex % 4);
      payloadIndex := payloadIndex + |chunk|;
    }

    // Payload octets of a control frame, as many as there are.
    method TakeControl(chunk: seq<byte>) returns (status: int, taken: nat)
      requires Shaped() && Terminated() && decodeStep == PAYLOAD_OF_CONTROL_FRAME && !validity.Invalid?
      requires WebSocketDecoder.Valid(Fields()) && chunk != [] && payloadIndex + |chunk| <= payloadSize
      modifies this`payloadIndex, this`validity, this`dataUtf8Step, controlPayload
      ensures Shaped() && Terminated() && taken <= |chunk|
      ensures status == OK ==> !validity.Invalid? && taken == |chunk| && PayloadReady(Fields())
      ensures status != OK ==> validity.Invalid?
      ensures ControlTaken(old(Fields()), Masked(chunk, maskKey[..], old(payloadIndex))) ==
              if status == OK then Accepted(Fields()) else Rejected(status, taken)
    {
      hide Masked, CloseReading;
      var index := payloadIndex;
      CopyControl(chunk);
      status, taken := OK, |chunk|;
      if frameHeader[0] % 16 == 8 && 2 < payloadIndex {
        status, taken := CheckReason(index);
        taken := if status == OK then |chunk| else taken;
      }
    }

    // The loop may go on from here.
    ghost predicate Ready()
      reads this, frameHeader, maskKey, dataPayload, controlPayload
    {
      && Shaped() && !validity.Invalid? && Keeps(Now())
      && (decodeStep >= HEADER_COMPLETED ==> frameHeaderSize > 0)
      && (decodeStep == HEADER_COMPLETED ==> HeaderReady(Fields()))
      && (decodeStep >= PAYLOAD_OF_DATA_FRAME ==> PayloadReady(Fields()) && Terminated())
    }

    // One octet of a frame header; a refused octet is not always counted as read.
    method HeaderOctet(b: byte) returns (status: int, taken: bool)
      requires Ready() && decodeStep <= MASK_4_OF_4
      modifies this, frameHeader, maskKey
      ensures Shaped() && dataPayload == old(dataPayload) && controlPayload == old(controlPayload)
      ensures decodeStep <= HEADER_COMPLETED
      ensures status == OK ==> taken && Ready() && Feed(Cfg(), old(Fields()), b) == Now()
      ensures status != OK ==> validity.Invalid? && Feed(Cfg(), old(Fields()), b) == Failure(status, taken)
    {
      hide LengthKnown, HeaderComplete;
      FeedKeepsValid(Cfg(), Fields(), b);
      var size := frameHeaderSize;
      match decodeStep {
        case 0 => status := StartOfFrame(b);
        case 1 => status := LengthOfFrame(b);
        case 3 | 11 => status := EndOfLength(b);
        case 15 => EndOfMask(b); status := OK;
        case _ => Collect(b); status := OK;
      }
      taken := frameHeaderSize != size;
    }

    // The buffers of the stream are its own.
    twostate predicate SameBuffers()
      reads this
    {
      && (dataPayload == old(dataPayload) || fresh(dataPayload))
      && (controlPayload == old(controlPayload) || fresh(controlPayload))
    }

    // Payload octets, as many as the buffer and the frame have.
    method TakePayload(buf: seq<byte>, current: nat) returns (status: int, next: nat)
      requires Ready() && Waiting() && decodeStep >= PAYLOAD_OF_DATA_FRAME && current < |buf|
      modifies this`payloadIndex, this`validity, this`dataUtf8Step, dataPayload, controlPayload
      ensures Shaped() && current <= next <= |buf|
      ensures status == OK ==> Ready() && current < next
      ensures status == OK ==>
        WebSocketRuns.Decode(Cfg(), old(Fields()), buf[current..]) ==
          Shift(next - current, Go(Cfg(), Now(), buf[next..]))
      ensures status != OK ==> validity.Invalid?
      ensures status != OK ==>
        WebSocketRuns.Decode(Cfg(), old(Fields()), buf[current..]) == Call(BROKEN, status, next - current, [])
    {
      hide Scan, Utf8.Check, PayloadComplete, ControlTaken, WebSocketRuns.Decode, Masked;
      ghost var d := Fields();
      var needed, remaining := payloadSize - payloadIndex, |buf| - current;
      var take := if needed < remaining then needed else remaining;
      var chunk := buf[current..current + take];
      ghost var rest := buf[current + take..];
      assert buf[current..] == chunk + rest;
      if decodeStep == PAYLOAD_OF_DATA_FRAME {
        status, take := TakeData(chunk, rest);
      } else {
        status, take := TakeControl(chunk);
        ControlGoes(Cfg(), d, chunk, rest);
      }
      next := current + take;
    }

    // Payload octets, and the end of the frame if they reach it.
    method Payload(buf: seq<byte>, current: nat) returns (status: int, next: nat, payload: seq<byte>)
      requires Ready() && decodeStep >= PAYLOAD_OF_DATA_FRAME && current < |buf|
      modifies this, dataPayload, controlPayload
      ensures Shaped() && current <= next <= |buf| && SameBuffers()
      ensures status <= OK ==> payload == []
      ensures status == OK ==> Ready() && (if old(Waiting()) then current < next else Waiting())
      ensures status == OK ==>
        Go(Cfg(), old(Now()), buf[current..]) == Shift(next - current, Go(Cfg(), Now(), buf[next..]))
      ensures status != OK ==> Valid()
      ensures status != OK ==>
        Go(Cfg(), old(Now()), buf[current..]) == Call(Abs(), status, next - current, payload)
    {
      hide Scan, PayloadComplete, WebSocketRuns.Decode;
      payload := [];
      next, status := current, OK;
      if payloadIndex < payloadSize {
        status, next := TakePayload(buf, current);
      }
      if status == OK && payloadIndex == payloadSize {
        status, payload := PayloadCompleted();
      }
    }

    // After the last octet: a frame without payload ends with its header.
    method EndOfBuffer() returns (status: int, payload: seq<byte>)
      requires Ready()
      modifies this
      ensures Valid() && SameBuffers()
      ensures Go(Cfg(), old(Now()), []) == Call(Abs(), status, 0, payload)
    {
      hide HeaderComplete, PayloadComplete;
      status, payload := OK, [];
      if decodeStep == HEADER_COMPLETED {
        status := HeaderCompleted();
      }
      if status == OK && decodeStep >= PAYLOAD_OF_DATA_FRAME && payloadIndex == payloadSize {
        status, payload := PayloadCompleted();
      }
    }

    // MHD_websocket_decode: as many octets as make up the next message.
    method Decode(buf: seq<byte>) returns (status: int, read: nat, payload: seq<byte>)
      requires Valid()
      modifies this, frameHeader, maskKey, dataPayload, controlPayload
      ensures Valid() && SameBuffers()
      ensures WebSocketRuns.Decode(Cfg(), old(Abs()), buf) == Call(Abs(), status, read, payload)
    {
      hide Scan, HeaderComplete, PayloadComplete, Utf8.Check, Feed, Continued;
      payload := [];
      if validity.Invalid? {
        return STREAM_BROKEN, 0, [];
      }
      ghost var d := Fields();
      read := 0;
      while read < |buf|
        invariant Ready() && read <= |buf| && SameBuffers() && payload == []
        invariant WebSocketRuns.Decode(Cfg(), d, buf) == Shift(read, Go(Cfg(), Now(), buf[read..]))
        decreases |buf| - read, if decodeStep == HEADER_COMPLETED then 2 else if Waiting() then 0 else 1
      {
        if decodeStep <= MASK_4_OF_4 {
          assert buf[read..] == [buf[read]] + buf[read + 1..];
          HeaderGoes(Cfg(), Fields(), buf[read], buf[read + 1..]);
          var taken;
          status, taken := HeaderOctet(buf[read]);
          read := if taken then read + 1 else read;
        } else if decodeStep == HEADER_COMPLETED {
          status := HeaderCompleted();
        } else {
          status, read, payload := Payload(buf, read);
        }
        if status != OK {
          return;
        }
      }
      assert buf[read..] == [];
      status, payload := EndOfBuffer();
    }
  }

  // A frame that is not the last one, when the caller does not want fragments.
  lemma KeptForLater(cfg: Config, d: Decoder)
    requires !cfg.wantFragments && HeaderOk(d) && d.phase == Data && !IsFin(d)
    ensures PayloadComplete(cfg, d) == More(d.(phase := Start, header := [], payloadIndex := 0))
  {
  }

  // Payload of a data frame that goes on, in a later call if need be.
  lemma DataGoes(cfg: Config, d: Decoder, rest: seq<byte>)
    requires d.header != [] && d.phase == Data && Keeps(Landed(cfg, d))
    ensures Go(cfg, Landed(cfg, d), rest) == Resume(cfg, Landed(cfg, d), rest)
  {
    hide Scan;
  }

  // The places between which a call checks the reason text in the payload of a close
  // frame, `control` with a NUL behind its `size` octets.
  lemma SameReason(control: seq<byte>, index: nat, reached: nat, size: nat, end: nat)
    requires index < reached <= size < |control| && 2 < reached && control[size] == 0
    requires end == (if (if index < 2 then 2 else index) <= reached - index then reached - index
                     else if reached == size then size + 1 else reached)
    ensures var start, s := if index < 2 then 2 else index, control[index..reached];
      CloseReading(index, s, reached == size) ==
        var r := ReadingOf(control[start..end], if index < 2 then 2 else 0);
        if r.Passed? && reached - index < start then Astray else r
  {
    var s := control[index..reached];
    if index < 2 {
      SliceOfSlice(control, index, reached, 2 - index, |s| - index);
    } else if index <= |s| {
      SliceOfSlice(control, index, reached, 0, |s| - index);
    } else {
      assert (if reached == size then s + [0] else s) == control[index..end];
    }
  }

  // A frame that is not the last one of its message, when the caller wants fragments.
  lemma FragmentHandedOut(cfg: Config, d: Decoder, given: nat, status: nat)
    requires cfg.wantFragments && HeaderOk(d) && d.phase == Data && !IsFin(d)
    requires given == if d.dataType == 1 then Utf8.Given(d.utf8) else 0
    requires status == d.dataType + (if Opcode(d) == 0 then 0x20 else 0x10)
    ensures given > |d.data| ==> PayloadComplete(cfg, d) == Failure(UNDEFINED, true)
    ensures given <= |d.data| ==>
      var cut := |d.data| - given;
      var again := d.(phase := Start, header := [], payloadIndex := 0, data := d.data[cut..]);
      PayloadComplete(cfg, d) == Complete(again, status, d.data[..cut])
  {
  }

  lemma SliceOfSlice(s: seq<byte>, lo: nat, hi: nat, a: nat, b: nat)
    requires lo <= hi <= |s| && a <= b <= hi - lo
    ensures s[lo..hi][a..b] == s[lo + a..lo + b]
  {
    forall k | 0 <= k < b - a ensures s[lo..hi][a..b][k] == s[lo + a..lo + b][k] {
      assert s[lo..hi][a + k] == s[lo + (a + k)];
    }
  }

  lemma LastFour(s: seq<byte>)
    requires |s| >= 4
    ensures s[|s| - 4..] == [s[|s| - 4], s[|s| - 3], s[|s| - 2], s[|s| - 1]]
  {
  }

  lemma MaskFromAnyTurn(chunk: seq<byte>, key: seq<byte>, offset: nat)
    requires IsKey(key)
    ensures Masked(chunk, key, offset % 4) == Masked(chunk, key, offset)
  {
    hide Xor;
    forall i: nat | i < |chunk| ensures Masked(chunk, key, offset % 4)[i] == Masked(chunk, key, offset)[i] {
      SameTurn(i, offset);
    }
  }

  lemma SameTurn(i: nat, offset: nat)
    ensures (i + offset % 4) % 4 == (i + offset) % 4
  {
  }

  ghost predicate HeaderReady(d: Decoder) {
    HeaderOk(d) && IsKey(d.key) && d.dataType <= 2 && d.payloadIndex == 0
  }

  ghost predicate PayloadReady(d: Decoder) {
    && HeaderOk(d) && IsKey(d.key) && d.dataType <= 2
    && ((d.phase == Data && d.dataType != 0) || (d.phase == Control && Opcode(d) >= 8))
  }

  lemma PhaseDoesNotMatter(cfg: Config, d: Decoder, size: nat, phase: Phase)
    requires |d.header| >= 2
    ensures LengthKnown(cfg, d.(phase := phase), size) == LengthKnown(cfg, d, size)
  {
  }
}
