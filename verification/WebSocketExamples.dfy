// The examples of section 5.7 of RFC 6455, octet by octet, and what the decoder makes of them.
module WebSocketExamples {
  import opened Bytes
  import Utf8
  import opened WebSocketFrame
  import opened WebSocketDecoder
  import opened WebSocketRuns
  import opened WebSocketMessages
  import opened WebSocketControl
  import opened WebSocketText
  import ThreadedServer
  import opened Options

  const HELLO: seq<byte> := [0x48, 0x65, 0x6C, 0x6C, 0x6F]
  const KEY: seq<byte> := [0x37, 0xFA, 0x21, 0x3D]
  const HIDDEN: seq<byte> := [0x7F, 0x9F, 0x4D, 0x51, 0x58]

  const CLIENT := Config(true, false, 0)
  const SERVER := Config(false, false, 0)

  lemma XorsOfHello(a: byte, b: byte)
    ensures a == 0x48 && b == 0x37 ==> Xor(a, b) == 0x7F
    ensures a == 0x65 && b == 0xFA ==> Xor(a, b) == 0x9F
    ensures a == 0x6C && b == 0x21 ==> Xor(a, b) == 0x4D
    ensures a == 0x6C && b == 0x3D ==> Xor(a, b) == 0x51
    ensures a == 0x6F && b == 0x37 ==> Xor(a, b) == 0x58
  {
    hide Xor;
    XorOctets(a, b);
  }

  lemma HelloMasked()
    ensures Masked(HELLO, KEY, 0) == HIDDEN
  {
    hide Xor;
    XorsOfHello(0x48, 0x37);
    XorsOfHello(0x65, 0xFA);
    XorsOfHello(0x6C, 0x21);
    XorsOfHello(0x6C, 0x3D);
    XorsOfHello(0x6F, 0x37);
    var m := Masked(HELLO, KEY, 0);
    assert m[0] == Xor(0x48, 0x37) && m[1] == Xor(0x65, 0xFA) && m[2] == Xor(0x6C, 0x21);
    assert m[3] == Xor(0x6C, 0x3D) && m[4] == Xor(0x6F, 0x37);
  }

  lemma SmallTextChecks(s: seq<byte>)
    requires forall i :: 0 <= i < |s| ==> s[i] < 0x80
    ensures Utf8.Check(Utf8.Normal, s) == Utf8.At(Utf8.Normal)
  {
    if s != [] {
      SmallTextChecks(s[..|s| - 1]);
    }
  }

  // A text message in one frame, as a server sends it and as a client does.
  lemma UnmaskedHello()
    ensures Frame(Unfragmented, TEXT, [], HELLO) == [0x81, 0x05, 0x48, 0x65, 0x6C, 0x6C, 0x6F]
    ensures Stream(CLIENT, FRESH, [0x81, 0x05, 0x48, 0x65, 0x6C, 0x6C, 0x6F]).events == [Message(1, HELLO)]
  {
    hide Stream, Utf8.Check;
    SmallTextChecks(HELLO);
    TextFrameVerdict(CLIENT, FRESH, [], HELLO);
  }

  lemma MaskedHello()
    ensures Frame(Unfragmented, TEXT, KEY, HELLO) == [0x81, 0x85] + KEY + HIDDEN
    ensures Stream(SERVER, FRESH, [0x81, 0x85] + KEY + HIDDEN).events == [Message(1, HELLO)]
    ensures ThreadedServer.Parsed([0x81, 0x85] + KEY + HIDDEN) == ThreadedServer.Received(1, Some(HELLO))
  {
    hide Stream, Utf8.Check, Masked, ThreadedServer.Parsed;
    HelloMasked();
    SmallTextChecks(HELLO);
    TextFrameVerdict(SERVER, FRESH, KEY, HELLO);
    var frame := [0x81, 0x85] + KEY + HIDDEN;
    ThreadedServer.ParsesWhatWasSent(KEY, HELLO, 11);
    assert frame[..11] == frame && HELLO[..5] == HELLO;
  }

  // The same octets in a binary frame.
  lemma MaskedBinary()
    ensures Stream(SERVER, FRESH, [0x82, 0x85] + KEY + HIDDEN).events == [Message(2, HELLO)]
  {
    hide Stream, Masked;
    HelloMasked();
    FinalFrame(SERVER, FRESH, Unfragmented, 2, KEY, HELLO);
    assert Frame(Unfragmented, 2, KEY, HELLO) == [0x82, 0x85] + KEY + HIDDEN;
    assert [] + HELLO == HELLO;
  }

  // A text in two fragments, for both kinds of callers.
  lemma FragmentedHello()
    ensures var wire := [0x01, 0x03, 0x48, 0x65, 0x6C] + [0x80, 0x02, 0x6C, 0x6F];
      && Stream(CLIENT, FRESH, wire).events == [Message(1, HELLO)]
      && Stream(CLIENT.(wantFragments := true), FRESH, wire).events ==
           [Message(0x11, [0x48, 0x65, 0x6C]), Message(0x41, [0x6C, 0x6F])]
  {
    hide Stream, Utf8.Check;
    var a, b: seq<byte> := [0x48, 0x65, 0x6C], [0x6C, 0x6F];
    SmallTextChecks(a);
    SmallTextChecks(b);
    assert Frame(First, TEXT, [], a) == [0x01, 0x03, 0x48, 0x65, 0x6C];
    assert Frame(Last, TEXT, [], b) == [0x80, 0x02, 0x6C, 0x6F];
    TwoFrames(CLIENT, a, b);
    TwoFrames(CLIENT.(wantFragments := true), a, b);
    assert a + b == HELLO && [] + b == b;
  }

  // A fragment in the middle of a message has a status of its own.
  lemma MiddleFragment(d: Decoder)
    requires Between(d, 1, [], Utf8.Normal)
    ensures var r := Stream(CLIENT.(wantFragments := true), d, [0x00, 0x02, 0x6C, 0x6F]);
      r.events == [Message(0x21, [0x6C, 0x6F])] && Between(r.d, 1, [], Utf8.Normal)
  {
    hide Stream, Utf8.Check, Valid;
    SmallTextChecks([0x6C, 0x6F]);
    assert Frame(Following, TEXT, [], [0x6C, 0x6F]) == [0x00, 0x02, 0x6C, 0x6F];
    TextPartVerdict(CLIENT.(wantFragments := true), d, Following, [], [0x6C, 0x6F]);
    var all: seq<byte> := [0x6C, 0x6F];
    assert [] + all == all && all[..2] == all && all[2..] == [];
  }

  // A ping, and the pong that a client answers.
  lemma PingAndPong()
    ensures ControlFrame(PING, [], HELLO) == [0x89, 0x05, 0x48, 0x65, 0x6C, 0x6C, 0x6F]
    ensures ControlFrame(PONG, KEY, HELLO) == [0x8A, 0x85] + KEY + HIDDEN
    ensures Stream(CLIENT, FRESH, [0x89, 0x05, 0x48, 0x65, 0x6C, 0x6C, 0x6F]).events == [Message(9, HELLO)]
    ensures Stream(SERVER, FRESH, [0x8A, 0x85] + KEY + HIDDEN).events == [Message(10, HELLO)]
  {
    hide Stream, Masked;
    HelloMasked();
    ControlFrameFed(CLIENT, FRESH, PING, [], HELLO);
    ControlFrameFed(SERVER, FRESH, PONG, KEY, HELLO);
  }

  // The headers of binary messages of 256 octets and of 65536.
  lemma LongHeaders(payload: seq<byte>)
    ensures |payload| == 256 ==> Frame(Unfragmented, 2, [], payload) == [0x82, 0x7E, 0x01, 0x00] + payload
    ensures |payload| == 65536 ==>
      Frame(Unfragmented, 2, [], payload) == [0x82, 0x7F, 0, 0, 0, 0, 0, 0x01, 0, 0] + payload
  {
    if |payload| == 256 {
      ThreadedServer.TwoOctets(256);
    } else if |payload| == 65536 {
      ThreadedServer.EightOctets(65536);
    }
  }

  // An unknown opcode, an octet that no text has, and a stream that is already broken.
  lemma Refusals()
    ensures Scan(CLIENT, BROKEN, [0x81]).status == -2
    ensures Stream(CLIENT, FRESH, [0x83]).events == [Error(-1)]
    ensures Stream(CLIENT, FRESH, [0x81, 0x01, 0xFF]).events == [Error(-6)]
  {
    StreamOne(CLIENT, FRESH, 0x83);
    Utf8.Check1(Utf8.Normal, 0xFF);
    assert Feed(CLIENT, BROKEN, 0x81) == Failure(-2, false);
    hide Stream, Utf8.Check;
    assert Frame(Unfragmented, TEXT, [], [0xFF]) == [0x81, 0x01, 0xFF];
    BadFrame(CLIENT, FRESH, Unfragmented, [], [0xFF]);
  }
}
