// Which frames the decoder refuses: sections 5.1 to 5.5 of RFC 6455.
module WebSocketRules {
  import opened Bytes
  import opened WebSocketFrame
  import opened WebSocketDecoder
  import opened WebSocketRuns
  import opened WebSocketMessages

  // A frame may begin with no reserved bit and a known opcode, control frames in one
  // piece, continuation exactly within a message, no data after a close frame.
  lemma StartRules(cfg: Config, d: Decoder, fin: bool, reserved: nat, opcode: nat)
    requires Valid(d) && d.phase == Start && reserved < 8 && opcode < 16
    ensures var first := (if fin then 0x80 else 0) + 16 * reserved + opcode;
      var o := Feed(cfg, d, first);
      && (o.More? <==>
            && reserved == 0 && (opcode <= 2 || 8 <= opcode <= 10)
            && (opcode >= 8 ==> fin)
            && (opcode <= 2 ==> !d.onlyControl && (opcode == 0 <==> d.dataType != 0)))
      && (!o.More? ==> o == Failure(PROTOCOL_ERROR, false))
  {
    var first := (if fin then 0x80 else 0) + 16 * reserved + opcode;
    assert first % 16 == opcode && first / 16 % 8 == reserved;
  }

  // Every frame from a client is masked and none from a server, and a control frame
  // has at most 125 octets, a close frame not just one.
  lemma LengthRules(cfg: Config, d: Decoder, masked: bool, length: nat)
    requires Valid(d) && d.phase == Length && length < 128
    ensures var o := Feed(cfg, d, (if masked then 0x80 else 0) + length);
      var legal := masked != cfg.client && (Opcode(d) >= 8 ==> length < 126) && !(Opcode(d) == 8 && length == 1);
      && (o == Failure(PROTOCOL_ERROR, false) <==> !legal)
      && (legal && TooBig(cfg, length) && length < 126 ==> o == Failure(MAXIMUM_SIZE_EXCEEDED, true))
  {
    hide PayloadComplete;
  }

  // An extended length that a shorter form could hold breaks the stream, and no other
  // does for its form.
  lemma ShortestLengthOnly2(cfg: Config, d: Decoder, n: nat)
    requires Valid(d) && d.phase == Length2 && |d.header| == 2 && n < 65536
    ensures Stream(cfg, d, BigEndian(n, 2)) ==
            if n <= 125 then Run(BROKEN, [Error(PROTOCOL_ERROR)])
            else RunOf(LengthKnown(cfg, d.(header := d.header + BigEndian(n, 2)), n))
  {
    if n > 125 {
      Length2Fed(cfg, d, n);
    } else {
      hide Stream;
      var s := BigEndian(n, 2);
      CollectedAll(cfg, d, s);
      var header := d.header + s[..1] + [s[1]];
      assert header == d.header + s && header[2..4] == s;
      PowersOf256();
      BigEndianRoundTrip(n, 2);
    }
  }

  lemma ShortestLengthOnly8(cfg: Config, d: Decoder, n: nat)
    requires Valid(d) && d.phase == Length8 && |d.header| == 2 && n < 0x1_0000_0000_0000_0000
    ensures Stream(cfg, d, BigEndian(n, 8)) ==
            if n <= 65535 || n > 0x7fffffffffffffff then Run(BROKEN, [Error(PROTOCOL_ERROR)])
            else RunOf(LengthKnown(cfg, d.(header := d.header + BigEndian(n, 8)), n))
  {
    if 65535 < n <= 0x7fffffffffffffff {
      Length8Fed(cfg, d, n);
    } else {
      hide Stream;
      var s := BigEndian(n, 8);
      CollectedAll(cfg, d, s);
      var header := d.header + s[..7] + [s[7]];
      assert header == d.header + s && header[2..10] == s;
      PowersOf256();
      BigEndianRoundTrip(n, 8);
    }
  }
}
