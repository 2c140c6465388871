// WebSocket frames as they go over the wire: section 5.2 of RFC 6455, in the
// form the encoder of the library writes them.
module WebSocketFrame {
  import opened Bytes

  // MHD_WEBSOCKET_FRAGMENTATION
  datatype Fragmentation = Unfragmented | First | Following | Last

  // MHD_WEBSOCKET_STATUS
  const OK := 0
  const PROTOCOL_ERROR := -1
  const STREAM_BROKEN := -2
  const MAXIMUM_SIZE_EXCEEDED := -5
  const UTF8_ENCODING_ERROR := -6

  const TEXT: byte := 1

  // FIN and opcode of a data frame of type `opcode`.
  function FirstByte(fragmentation: Fragmentation, opcode: byte): byte
    requires opcode < 16
  {
    match fragmentation
    case Unfragmented => 0x80 + opcode
    case First => opcode
    case Following => 0
    case Last => 0x80
  }

  // The mask bit and the short payload length, or the form of the extended one.
  function LengthByte(masked: bool, length: nat): byte {
    (if masked then 0x80 else 0) + (if length < 126 then length else if length < 65536 then 126 else 127)
  }

  function ExtendedLength(length: nat): seq<byte> {
    if length < 126 then [] else if length < 65536 then BigEndian(length, 2) else BigEndian(length, 8)
  }

  // The payload length in the shortest of its three forms.
  function LengthField(masked: bool, length: nat): seq<byte> {
    [LengthByte(masked, length)] + ExtendedLength(length)
  }

  predicate IsKey(key: seq<byte>) {
    |key| == 4
  }

  // The payload under a masking key, starting `offset` octets into the frame.
  function Masked(payload: seq<byte>, key: seq<byte>, offset: nat): (s: seq<byte>)
    requires IsKey(key)
    ensures |s| == |payload|
  {
    seq(|payload|, i requires 0 <= i < |payload| => Xor(payload[i], key[(i + offset) % 4]))
  }

  lemma MaskedTwice(payload: seq<byte>, key: seq<byte>, offset: nat)
    requires IsKey(key)
    ensures Masked(Masked(payload, key, offset), key, offset) == payload
  {
    forall i | 0 <= i < |payload|
      ensures Masked(Masked(payload, key, offset), key, offset)[i] == payload[i]
    {
      XorTwice(payload[i], key[(i + offset) % 4]);
    }
  }

  // A data frame; an empty `key` means that it is not masked.
  function Frame(fragmentation: Fragmentation, opcode: byte, key: seq<byte>, payload: seq<byte>): seq<byte>
    requires opcode < 16 && (key == [] || IsKey(key))
  {
    [FirstByte(fragmentation, opcode)] + LengthField(key != [], |payload|) + key
    + (if key == [] then payload else Masked(payload, key, 0))
  }
}
