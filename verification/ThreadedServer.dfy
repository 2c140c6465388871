// The handshake and the frames of websocket_threaded_example.c.
module ThreadedServer {
  import opened Bytes
  import opened Options
  import opened WebSocketFrame
  import opened WebSocketDecoder
  import opened WebSocketRuns
  import WebSocketMessages
  import WebSocketText
  import Utf8
  import Base64
  import Base64Encoder
  import Sha1
  import Sha1Context

  const KEY_LENGTH := 24

  // WS_GUID
  function Guid(): (s: seq<byte>)
    ensures |s| == 36
  {
    Ascii("258EAFA5-E914-47DA-95CA-C5AB0DC85B11")
  }

  // ws_get_accept_value; a key of another length is refused.
  method AcceptValue(key: seq<byte>) returns (val: Option<seq<byte>>)
    ensures val.None? <==> |key| != KEY_LENGTH
    ensures val.Some? ==> val.value == Base64Encoder.Written(Sha1.Digest(key + Guid()))
  {
    hide Guid, Ascii, Sha1.Digest, Base64Encoder.Written;
    if |key| != KEY_LENGTH {
      return None;
    }
    var hash := HashOf(key + Guid());
    var digest := hash[..];
    var output, n := Base64Encoder.Encode(digest);
    val := Some(output[..n]);
  }

  method HashOf(str: seq<byte>) returns (hash: array<byte>)
    requires |str| == 60
    ensures fresh(hash) && hash[..] == Sha1.Digest(str)
  {
    hide Sha1.Digest, Sha1Context.AfterInput, Sha1Context.Finished, Sha1.OctetsOf;
    OnePiece(str);
    hash := new byte[20];
    var ctx := new Sha1Context.SHA1Context();
    ctx.Reset();
    var result := ctx.Input(str);
    ghost var c := ctx.Abs();
    assert c == Sha1Context.AfterInput(Sha1Context.NEW, str);
    result := ctx.Result(hash);
    assert hash[..] == Sha1.OctetsOf(Sha1Context.Finished(c).hash);
  }

  // One call of SHA1Input on the whole message.
  lemma OnePiece(m: seq<byte>)
    requires |m| == 60
    ensures var c := Sha1Context.AfterInput(Sha1Context.NEW, m);
      !c.corrupted && !c.computed && Sha1.OctetsOf(Sha1Context.Finished(c).hash) == Sha1.Digest(m)
  {
    assert [m][..0] == [];
    assert Flatten([m]) == m;
    assert Sha1Context.Inputs(Sha1Context.NEW, [m]) == Sha1Context.AfterInput(Sha1Context.NEW, m);
    Sha1Context.DigestOfPieces([m]);
    Sha1Context.NeverComputed(Sha1Context.NEW, m);
  }

  // The accept value stands for the digest exactly if the encoder happens to be right.
  lemma AcceptValueDecodes(key: seq<byte>)
    ensures var digest := Sha1.Digest(key + Guid());
      Base64.Decoded(Base64Encoder.Written(digest)) == digest <==> Base64Encoder.Harmless(digest)
  {
    Base64Encoder.RoundTripExactlyIfHarmless(Sha1.Digest(key + Guid()));
  }

  // --- Frames --------------------------------------------------------------------------------

  // The header of a text frame that is not masked.
  method BuildHeader(length: nat) returns (frame: array<byte>, size: nat)
    requires length < 0x1_0000_0000_0000_0000
    ensures fresh(frame) && size <= frame.Length
    ensures frame[..size] == [FirstByte(Unfragmented, TEXT)] + LengthField(false, length)
  {
    frame := new byte[10];
    frame[0] := 0x81;
    if length <= 125 {
      frame[1] := length;
      size := 2;
    } else if 0xFFFF < length {
      frame[1] := 127;
      frame[2], frame[3] := length / 0x1_0000_0000_0000_00 % 256, length / 0x1_0000_0000_0000 % 256;
      frame[4], frame[5] := length / 0x1_0000_0000_00 % 256, length / 0x1_0000_0000 % 256;
      frame[6], frame[7] := length / 0x1_0000_00 % 256, length / 0x1_0000 % 256;
      frame[8], frame[9] := length / 0x100 % 256, length % 256;
      size := 10;
      EightOctets(length);
    } else {
      frame[1] := 126;
      frame[2], frame[3] := length / 0x100 % 256, length % 256;
      size := 4;
      TwoOctets(length);
    }
  }

  // The octets that ws_send_frame sends to every other client.
  method BuildFrame(msg: seq<byte>) returns (response: array<byte>, size: nat)
    requires |msg| < 0x1_0000_0000_0000_0000
    ensures response.Length == size + 1 && response[size] == 0
    ensures response[..size] == Frame(Unfragmented, TEXT, [], msg)
  {
    hide LengthField;
    var frame, header := BuildHeader(|msg|);
    ghost var start := frame[..header];
    response := new byte[header + |msg| + 1];
    size := 0;
    for i := 0 to header
      invariant frame[..header] == start && size == i && response[..i] == start[..i]
    {
      response[size] := frame[i];
      size := size + 1;
    }
    for i := 0 to |msg|
      invariant size == header + i && response[..size] == start + msg[..i]
    {
      response[size] := msg[i];
      size := size + 1;
    }
    response[size] := 0;
    assert response[..size] == start + [] + msg;
  }

  lemma TwoOctets(n: nat)
    ensures BigEndian(n, 2) == [n / 0x100 % 256, n % 256]
  {
    assert BigEndian(n / 0x100, 1) == [n / 0x100 % 256];
  }

  lemma OneMoreOctet(n: nat, width: nat)
    ensures BigEndian(n, width + 1) == BigEndian(n / 0x100, width) + [n % 256]
  {
  }

  lemma Quotients(n: nat)
    ensures n / 0x100 / 0x100 == n / 0x1_0000
    ensures n / 0x1_0000 / 0x100 == n / 0x1_0000_00
    ensures n / 0x1_0000_00 / 0x100 == n / 0x1_0000_0000
    ensures n / 0x1_0000_0000 / 0x100 == n / 0x1_0000_0000_00
    ensures n / 0x1_0000_0000_00 / 0x100 == n / 0x1_0000_0000_0000
    ensures n / 0x1_0000_0000_0000 / 0x100 == n / 0x1_0000_0000_0000_00
  {
  }

  lemma EightOctets(n: nat)
    ensures BigEndian(n, 8) ==
            [n / 0x1_0000_0000_0000_00 % 256, n / 0x1_0000_0000_0000 % 256, n / 0x1_0000_0000_00 % 256,
             n / 0x1_0000_0000 % 256, n / 0x1_0000_00 % 256, n / 0x1_0000 % 256, n / 0x100 % 256, n % 256]
  {
    hide BigEndian;
    Quotients(n);
    TwoOctets(n / 0x1_0000_0000_0000);
    OneMoreOctet(n / 0x1_0000_0000_00, 2);
    OneMoreOctet(n / 0x1_0000_0000, 3);
    OneMoreOctet(n / 0x1_0000_00, 4);
    OneMoreOctet(n / 0x1_0000, 5);
    OneMoreOctet(n / 0x100, 6);
    OneMoreOctet(n, 7);
  }

  // Where the masking key of a frame starts.
  function KeyStart(second: byte): nat {
    if second % 128 == 126 then 4 else if second % 128 == 127 then 10 else 2
  }

  const INT_MAX := 0x7fffffff

  // The type that ws_receive_frame reports, and the text of a text frame; or that it works
  // on octets that it has not been given.
  datatype Received = Undefined | Received(kind: byte, text: Option<seq<byte>>)

  // The header has not been received completely, so that the number of data octets gets
  // negative, or there are more octets than the int index of the loop counts.
  predicate OutOfBounds(s: seq<byte>) {
    |s| < 2 || |s| < KeyStart(s[1]) + 4 || |s| > INT_MAX
  }

  function Parsed(s: seq<byte>): Received
    requires s != []
  {
    if s[0] == 0x81 then
      if OutOfBounds(s) then Undefined
      else
        var start := KeyStart(s[1]);
        Received(1, Some(Masked(s[start + 4..], s[start..start + 4], 0)))
    else if s[0] == 0x88 then Received(8, None)
    else Received(s[0] % 16, None)
  }

  // ws_receive_frame: the length is that of all octets received, and the length
  // field only says where the masking key starts.
  method ReceiveFrame(frame: array<byte>, length: nat)
    returns (known: bool, kind: byte, msg: array?<byte>, size: nat)
    requires 1 <= length <= frame.Length
    ensures known <==> Parsed(frame[..length]).Received?
    ensures frame[0] != 0x81 ==> known && kind == frame[0] % 16 && msg == null && size == length
    ensures frame[0] == 0x81 ==>
      (known <==> 2 <= length <= 0x7fffffff && length >= KeyStart(frame[1]) + 4) && (known ==> kind == 1 && msg != null)
    ensures known ==> kind == Parsed(frame[..length]).kind && (msg == null <==> Parsed(frame[..length]).text.None?)
    ensures known && msg == null ==> size == length
    ensures known && msg != null ==>
      msg.Length == size + 1 && msg[size] == 0 && msg[..size] == Parsed(frame[..length]).text.value
  {
    known, msg, size := true, null, length;
    if frame[0] == 0x81 {
      kind := 1;
      if length < 2 || length > INT_MAX || length < KeyStart(frame[1]) + 4 {
        // the code goes on, with octets that it has not been given
        assert OutOfBounds(frame[..length]);
        known := false;
        return;
      }
      var start := KeyStart(frame[1]);
      msg, size := Unmask(frame, length, start);
    } else if frame[0] == 0x88 {
      kind := 8;
    } else {
      kind := frame[0] % 16;
    }
  }

  // The data behind the masking key, which begins at `start`, and a NUL.
  method Unmask(frame: array<byte>, length: nat, start: nat) returns (text: array<byte>, size: nat)
    requires start + 4 <= length <= frame.Length
    ensures size == length - start - 4 && text.Length == size + 1 && text[size] == 0
    ensures text[..size] == Masked(frame[..length][start + 4..], frame[..length][start..start + 4], 0)
  {
    var data := start + 4;
    size := length - data;
    var masks := [frame[start], frame[start + 1], frame[start + 2], frame[start + 3]];
    assert masks == frame[..length][start..start + 4];
    text := new byte[size + 1];
    for j := 0 to size
      invariant forall k :: 0 <= k < j ==> text[k] == Xor(frame[data + k], masks[k % 4])
    {
      text[j] := Xor(frame[data + j], masks[j % 4]);
    }
    text[size] := 0;
  }

  // The type of every frame that is not a text frame in one piece is its opcode, and there
  // is no text; a close frame has type 8.
  lemma TypeIsOpcode(s: seq<byte>)
    requires s != [] && s[0] != 0x81
    ensures Parsed(s) == Received(s[0] % 16, None)
  {
  }

  // How many octets stand before the payload of a masked frame.
  function HeaderSize(n: nat): nat {
    if n < 126 then 6 else if n < 65536 then 8 else 14
  }

  // Of a masked text frame the first `n` octets have been received, all of them or not.
  // They give the part of the payload that is among them, in all three forms of the length
  // and under every key, if and only if the header is among them and an int counts them;
  // otherwise the function works on octets that it has not been given.
  lemma ParsesWhatWasSent(key: seq<byte>, payload: seq<byte>, n: nat)
    requires IsKey(key) && |payload| <= 0x7fffffffffffffff
    requires 1 <= n <= |Frame(Unfragmented, TEXT, key, payload)|
    ensures var s := Frame(Unfragmented, TEXT, key, payload);
      && |s| == HeaderSize(|payload|) + |payload|
      && Parsed(s[..n]) ==
         if HeaderSize(|payload|) <= n <= INT_MAX then Received(1, Some(payload[..n - HeaderSize(|payload|)]))
         else Undefined
  {
    hide LengthByte, ExtendedLength, Masked, KeyStart;
    var field := LengthField(true, |payload|);
    var masked := Masked(payload, key, 0);
    var s := Frame(Unfragmented, TEXT, key, payload);
    FieldLength(|payload|);
    Slices([FirstByte(Unfragmented, TEXT)] + field, key, masked);
    assert s[0] == 0x81 && s[1] == LengthByte(true, |payload|);
    var size := HeaderSize(|payload|);
    if size <= n <= INT_MAX {
      assert s[..n][size..] == masked[..n - size] && s[..n][size - 4..size] == key;
      WebSocketMessages.MaskedFront(payload, key, 0, n - size);
      MaskedTwice(payload[..n - size], key, 0);
    } else if n > 1 {
      assert s[..n][1] == s[1];
    }
  }

  lemma FieldLength(n: nat)
    ensures |LengthField(true, n)| + 1 == KeyStart(LengthByte(true, n)) == HeaderSize(n) - 4
  {
  }

  // What the server sends, a client with the decoder of the library reads back: the
  // same text, or none at all if it is not even the beginning of a text.
  lemma SentFrameIsRead(cfg: Config, msg: seq<byte>)
    requires cfg.client && |msg| <= 0x7fffffffffffffff && !TooBig(cfg, |msg|)
    ensures var r := Stream(cfg, FRESH, Frame(Unfragmented, TEXT, [], msg));
      && (r.events == [Message(1, msg)] <==> exists more: seq<byte> :: Utf8.IsText(msg + more))
      && (r.events != [Message(1, msg)] ==> r.events == [Error(UTF8_ENCODING_ERROR)])
  {
    hide Stream;
    WebSocketText.TextFrameVerdict(cfg, FRESH, [], msg);
  }
}
