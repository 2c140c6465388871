// MHD_websocket_encode_text and MHD_websocket_encode_data.
module WebSocketEncoder {
  import opened Bytes
  import Utf8
  import opened WebSocketFrame
  import WebSocketStream

  // Writes `s` at `at`, after `done`.
  method Put(frame: array<byte>, at: nat, s: seq<byte>, ghost written: seq<byte>) returns (next: nat)
    requires at + |s| <= frame.Length && frame[..at] == written
    modifies frame
    ensures next == at + |s| && frame[..next] == written + s
    ensures forall k :: next <= k < frame.Length ==> frame[k] == old(frame[k])
  {
    for i := 0 to |s|
      invariant frame[..at] == written && frame[at..at + i] == s[..i]
      invariant forall k :: at + |s| <= k < frame.Length ==> frame[k] == old(frame[k])
    {
      frame[at + i] := s[i];
    }
    next := at + |s|;
    assert frame[..next] == frame[..at] + frame[at..next];
  }

  function Overhead(masked: bool, length: nat): nat {
    2 + (if masked then 4 else 0) + (if length > 125 then if length > 65535 then 8 else 2 else 0)
  }

  // The mask of a client comes from a random number generator; a server does not
  // mask.  The buffer ends with a NUL that is not part of the frame.
  method EncodeData(client: bool, payload: seq<byte>, fragmentation: Fragmentation, opcode: byte, mask: seq<byte>)
    returns (frame: array<byte>)
    requires opcode < 16 && IsKey(mask) && |payload| <= 0x7fffffffffffffff
    ensures fresh(frame) && frame.Length == Overhead(client, |payload|) + |payload| + 1
    ensures frame[..frame.Length - 1] == Frame(fragmentation, opcode, if client then mask else [], payload)
    ensures frame[frame.Length - 1] == 0
  {
    hide Masked, BigEndian;
    var n := |payload|;
    frame := new byte[Overhead(client, n) + n + 1](_ => 0);
    var at := PutHeader(frame, client, n, FirstByte(fragmentation, opcode));
    ghost var written := frame[..at];
    if client {
      at := Put(frame, at, mask, written);
      WebSocketStream.CopyPayload(frame, at, payload, mask, 0);
    } else {
      at := Put(frame, at, payload, written);
    }
    assert frame[frame.Length - 1] == 0;
  }

  // The first octet and the length.
  method PutHeader(frame: array<byte>, client: bool, n: nat, first: byte) returns (at: nat)
    requires frame.Length == Overhead(client, n) + n + 1 && n <= 0x7fffffffffffffff
    modifies frame
    ensures at == 1 + |LengthField(client, n)| && at + (if client then 4 else 0) + n == frame.Length - 1
    ensures frame[..at] == [first] + LengthField(client, n)
    ensures forall k :: at <= k < frame.Length ==> frame[k] == old(frame[k])
  {
    hide BigEndian;
    at := Put(frame, 0, [first], []);
    at := Put(frame, at, [LengthByte(client, n)], [first]);
    ghost var start := [first] + [LengthByte(client, n)];
    if 126 <= n < 65536 {
      at := Put(frame, at, BigEndian(n, 2), start);
    } else if 65536 <= n {
      at := Put(frame, at, BigEndian(n, 8), start);
    }
    assert start + ExtendedLength(n) == [first] + LengthField(client, n);
    assert start + [] == start;
  }

  // The step from which the UTF-8 check of a piece starts: a new message forgets
  // the step of the previous one.
  function StartStep(fragmentation: Fragmentation, step: Utf8.Step): Utf8.Step {
    if fragmentation.Unfragmented? || fragmentation.First? then Utf8.Normal else step
  }

  // The piece is refused, or encoding goes on at this step.
  function StepOfPiece(fragmentation: Fragmentation, step: Utf8.Step, piece: seq<byte>): Utf8.Maybe {
    var reached := Utf8.Check(StartStep(fragmentation, step), piece);
    if fragmentation.Unfragmented? && reached != Utf8.At(Utf8.Normal) then Utf8.Bad else reached
  }

  // What a piece is checked against.  A message in one frame has to be text, the first piece
  // of several the beginning of a text, whatever came before; a later one goes on where the
  // piece before it ended.
  lemma PieceVerdict(fragmentation: Fragmentation, step: Utf8.Step, piece: seq<byte>)
    ensures fragmentation.Unfragmented? ==>
              (StepOfPiece(fragmentation, step, piece) == Utf8.At(Utf8.Normal) <==> Utf8.IsText(piece))
    ensures fragmentation.Unfragmented? && !Utf8.IsText(piece) ==> StepOfPiece(fragmentation, step, piece) == Utf8.Bad
    ensures fragmentation.First? ==>
              (StepOfPiece(fragmentation, step, piece).At? <==> exists more: seq<byte> :: Utf8.IsText(piece + more))
    ensures fragmentation.First? ==> StepOfPiece(fragmentation, step, piece) == Utf8.Check(Utf8.Normal, piece)
    ensures fragmentation.Following? || fragmentation.Last? ==>
              StepOfPiece(fragmentation, step, piece) == Utf8.Check(step, piece)
  {
    hide Utf8.Check;
    Utf8.AcceptsExactlyText(piece);
    Utf8.ReadsExactlyTextPrefixes(piece);
  }

  method EncodeText(client: bool, piece: seq<byte>, fragmentation: Fragmentation, step: Utf8.Step, mask: seq<byte>)
    returns (status: int, frame: array<byte>, next: Utf8.Step)
    requires IsKey(mask)
    ensures status == OK <==> |piece| <= 0x7fffffffffffffff && StepOfPiece(fragmentation, step, piece).At?
    ensures status == OK ==> next == StepOfPiece(fragmentation, step, piece).step && frame.Length > 0
    ensures status == OK ==>
      frame[..frame.Length - 1] == Frame(fragmentation, TEXT, if client then mask else [], piece)
    ensures status != OK ==> frame.Length == 0
    ensures status != OK ==>
      status == if |piece| > 0x7fffffffffffffff then MAXIMUM_SIZE_EXCEEDED else UTF8_ENCODING_ERROR
    ensures status != OK ==>
      var start := if fragmentation.Unfragmented? || fragmentation.First? then Utf8.Normal else step;
      next == if |piece| <= 0x7fffffffffffffff && Utf8.Check(start, piece).At? then Utf8.Check(start, piece).step
              else start
  {
    next := StartStep(fragmentation, step);
    frame := new byte[0];
    if |piece| > 0x7fffffffffffffff {
      return MAXIMUM_SIZE_EXCEEDED, frame, next;
    }
    var verdict;
    var offset;
    verdict, next, offset := Utf8.CheckUtf8(piece, next);
    if verdict.Invalid? || (verdict.Incomplete? && fragmentation.Unfragmented?) {
      return UTF8_ENCODING_ERROR, frame, next;
    }
    status := OK;
    frame := EncodeData(client, piece, fragmentation, TEXT, mask);
  }
}
