// Whole runs of the decoder: one call on a buffer, the caller's loop over a
// buffer, and the loop over all buffers that a connection delivers.
module WebSocketRuns {
  import opened Bytes
  import Utf8
  import opened WebSocketFrame
  import opened WebSocketDecoder

  datatype Event = Message(status: nat, payload: seq<byte>) | Error(error: int)

  datatype Run = Run(d: Decoder, events: seq<Event>)

  // What the octets of `s` lead to, one by one, with no regard to how they arrive.
  function Stream(cfg: Config, d: Decoder, s: seq<byte>): (r: Run)
    requires Valid(d)
    ensures Valid(r.d)
  {
    if s == [] then Run(d, [])
    else
      var r := Stream(cfg, d, s[..|s| - 1]);
      Then(cfg, r, s[|s| - 1])
  }

  // One more octet.
  function Then(cfg: Config, r: Run, b: byte): (r': Run)
    requires Valid(r.d)
    ensures Valid(r'.d)
  {
    FeedKeepsValid(cfg, r.d, b);
    if r.d.phase == Dead then r
    else
      match Feed(cfg, r.d, b)
      case More(d) => Run(d, r.events)
      case Complete(d, status, payload) => Run(d, r.events + [Message(status, payload)])
      case Failure(error, _) => Run(BROKEN, r.events + [Error(error)])
  }

  lemma StreamNothing(cfg: Config, d: Decoder, s: seq<byte>)
    requires Valid(d) && s == []
    ensures Stream(cfg, d, s) == Run(d, [])
  {
  }

  function After(first: Run, second: Run): Run {
    Run(second.d, first.events + second.events)
  }

  lemma {:induction false} StreamConcat(cfg: Config, d: Decoder, a: seq<byte>, b: seq<byte>)
    requires Valid(d)
    ensures Stream(cfg, d, a + b) == After(Stream(cfg, d, a), Stream(cfg, Stream(cfg, d, a).d, b))
    decreases |b|
  {
    if b == [] {
      assert a + b == a;
    } else {
      var front := b[..|b| - 1];
      assert (a + b)[..|a + b| - 1] == a + front;
      StreamConcat(cfg, d, a, front);
    }
  }

  lemma StreamFirst(cfg: Config, d: Decoder, s: seq<byte>)
    requires Valid(d) && s != []
    ensures Stream(cfg, d, s) ==
            After(Then(cfg, Run(d, []), s[0]), Stream(cfg, Then(cfg, Run(d, []), s[0]).d, s[1..]))
  {
    assert s == [s[0]] + s[1..];
    assert [s[0]][..0] == [];
    StreamConcat(cfg, d, [s[0]], s[1..]);
  }

  lemma {:induction false} DeadStaysDead(cfg: Config, s: seq<byte>)
    ensures Stream(cfg, BROKEN, s) == Run(BROKEN, [])
  {
    if s != [] {
      DeadStaysDead(cfg, s[..|s| - 1]);
    }
  }

  // --- The reason text of a close frame in one call ------------------------------------

  function Controlled(d: Decoder, plain: seq<byte>): Decoder {
    d.(control := d.control + plain, payloadIndex := d.payloadIndex + |plain|)
  }

  // What the UTF-8 check of a reason text comes to.
  datatype Reading = Passed(step: Utf8.Step) | Refused(read: nat) | Astray

  function ReadingOf(s: seq<byte>, skipped: nat): Reading {
    match Utf8.Check(Utf8.Normal, s)
    case At(step) => Passed(step)
    case Bad => Refused(skipped + Utf8.BadAt(Utf8.Normal, s))
  }

  // The check in a call that has taken the octets `plain` of a payload from `index` on.
  // It starts behind the reason code and always from NORMAL.  The number of octets to
  // check is |plain| minus the place in the payload where it starts; if that wraps, the
  // check goes on behind them: to the NUL behind a complete payload, or astray.
  function CloseReading(index: nat, plain: seq<byte>, complete: bool): Reading
    requires index + |plain| > 2
  {
    if index < 2 then
      ReadingOf(plain[2 - index..|plain| - index], 2)
    else if index <= |plain| then
      ReadingOf(plain[..|plain| - index], 0)
    else
      var r := ReadingOf(if complete then plain + [0] else plain, 0);
      if r.Passed? then Astray else r
  }

  datatype Taken = Accepted(d: Decoder) | Rejected(error: int, read: nat)

  // One call takes the octets `plain` of the payload of a control frame.
  function ControlTaken(d: Decoder, plain: seq<byte>): (t: Taken)
    requires d.header != []
    ensures t.Rejected? ==> t.error in {UTF8_ENCODING_ERROR, UNDEFINED}
  {
    var d1 := Controlled(d, plain);
    if Opcode(d) != 8 || d1.payloadIndex <= 2 then Accepted(d1)
    else
      match CloseReading(d.payloadIndex, plain, d1.payloadIndex == d1.payloadSize)
      case Passed(step) => Accepted(d1.(utf8 := step))
      case Refused(read) => Rejected(UTF8_ENCODING_ERROR, read)
      case Astray => Rejected(UNDEFINED, 0)
  }

  // An earlier call has taken a part of a close payload with a reason text, and the
  // next call starts within it.
  predicate MidClose(d: Decoder) {
    d.phase == Control && d.header != [] && Opcode(d) == 8 && d.payloadSize > 2 && d.payloadIndex > 0
  }

  function Smaller(a: nat, b: nat): nat {
    if a < b then a else b
  }

  // A call that starts within a close payload.
  function Continued(cfg: Config, d: Decoder, buf: seq<byte>): Call
    requires Valid(d) && MidClose(d)
  {
    var take := Smaller(d.payloadSize - d.payloadIndex, |buf|);
    match ControlTaken(d, Masked(buf[..take], d.key, d.payloadIndex))
    case Rejected(error, read) => Call(BROKEN, error, read, [])
    case Accepted(d1) =>
      if d1.payloadIndex < d1.payloadSize then Call(d1, OK, take, [])
      else Call(d1.(phase := Start, header := [], payloadIndex := 0, control := []), 8, take, d1.control)
  }

  // --- One call ------------------------------------------------------------------------

  // One call of MHD_websocket_decode: the new state, the returned status, how
  // much of the buffer was read, and the payload handed out.
  datatype Call = Call(d: Decoder, status: int, read: nat, payload: seq<byte>)

  function Decode(cfg: Config, d: Decoder, buf: seq<byte>): Call
    requires Valid(d)
  {
    if d.phase == Dead then Call(d, STREAM_BROKEN, 0, [])
    else if MidClose(d) && buf != [] then Continued(cfg, d, buf)
    else Scan(cfg, d, buf)
  }

  // A call that starts anywhere else takes its octets as they come.
  function Scan(cfg: Config, d: Decoder, buf: seq<byte>): Call
    requires Valid(d)
    decreases |buf|
  {
    if buf == [] then Call(d, OK, 0, [])
    else
      FeedKeepsValid(cfg, d, buf[0]);
      match Feed(cfg, d, buf[0])
      case More(d') => var c := Scan(cfg, d', buf[1..]); c.(read := c.read + 1)
      case Complete(d', status, payload) => Call(d', status, 1, payload)
      case Failure(error, taken) => Call(BROKEN, error, if taken then 1 else 0, [])
  }

  // The call `c` on `buf` does what the octets it has read amount to.
  ghost predicate Agrees(cfg: Config, d: Decoder, buf: seq<byte>, c: Call)
    requires Valid(d)
  {
    && c.read <= |buf| && Valid(c.d) && (c.status > 0 ==> c.read > 0 && c.d.phase == Start)
    && (c.status == OK ==> Stream(cfg, d, buf) == Run(c.d, []) && c.read == |buf|)
    && (c.status > 0 ==> Stream(cfg, d, buf[..c.read]) == Run(c.d, [Message(c.status, c.payload)]))
    && (c.status < 0 ==> Stream(cfg, d, buf) == Run(BROKEN, [Error(c.status)]) && c.d == BROKEN)
  }

  lemma AgreesMore(cfg: Config, d: Decoder, buf: seq<byte>, c: Call)
    requires Valid(d) && d.phase != Dead && buf != [] && Feed(cfg, d, buf[0]).More?
    requires Valid(Feed(cfg, d, buf[0]).d) && Agrees(cfg, Feed(cfg, d, buf[0]).d, buf[1..], c)
    ensures Agrees(cfg, d, buf, c.(read := c.read + 1))
  {
    hide Stream, Feed, Valid;
    StreamFirst(cfg, d, buf);
    if c.status > 0 {
      var head := buf[..c.read + 1];
      assert head[1..] == buf[1..][..c.read];
      StreamFirst(cfg, d, head);
    }
  }

  lemma {:induction false} ScanIsStream(cfg: Config, d: Decoder, buf: seq<byte>)
    requires Valid(d) && d.phase != Dead
    ensures Agrees(cfg, d, buf, Scan(cfg, d, buf))
    decreases |buf|
  {
    if buf != [] {
      var b, rest := buf[0], buf[1..];
      FeedKeepsValid(cfg, d, b);
      match Feed(cfg, d, b) {
        case More(d') =>
          ScanIsStream(cfg, d', rest);
          AgreesMore(cfg, d, buf, Scan(cfg, d', rest));
        case Complete(d', status, payload) =>
          assert buf[..1] == [b];
          StreamFirst(cfg, d, [b]);
        case Failure(_, _) =>
          StreamFirst(cfg, d, buf);
          DeadStaysDead(cfg, rest);
      }
    }
  }

  // Whatever state a call starts from, it stays within the buffer, and a message takes
  // at least one octet.
  lemma DecodeFits(cfg: Config, d: Decoder, buf: seq<byte>)
    requires Valid(d)
    ensures var c := Decode(cfg, d, buf);
      c.read <= |buf| && Valid(c.d) && (c.status > 0 ==> c.read > 0 && c.d.phase == Start)
    ensures Decode(cfg, d, buf).status < 0 ==> d.phase == Dead || Decode(cfg, d, buf).d == BROKEN
  {
    hide Scan, Stream, ControlTaken, Masked, Feed;
    if d.phase != Dead {
      if MidClose(d) && buf != [] {
        ContinuedFits(cfg, d, buf);
      } else {
        ScanIsStream(cfg, d, buf);
      }
    }
  }

  lemma ContinuedFits(cfg: Config, d: Decoder, buf: seq<byte>)
    requires Valid(d) && MidClose(d) && buf != []
    ensures var c := Continued(cfg, d, buf);
      && c.read <= |buf| && Valid(c.d) && (c.status > 0 ==> c.read > 0 && c.d.phase == Start)
      && (c.status < 0 ==> c.d == BROKEN)
  {
    hide Masked, CloseReading;
    var take := Smaller(d.payloadSize - d.payloadIndex, |buf|);
    var plain := Masked(buf[..take], d.key, d.payloadIndex);
    if d.payloadIndex + take > 2 {
      ReadingFits(d.payloadIndex, plain, d.payloadIndex + take == d.payloadSize);
    }
  }

  lemma ReadingFits(index: nat, plain: seq<byte>, complete: bool)
    requires index + |plain| > 2
    ensures var r := CloseReading(index, plain, complete); r.Refused? ==> r.read <= |plain|
  {
  }

  // What a caller does with one received buffer: it decodes until the buffer is
  // used up or the stream fails.
  function Drain(cfg: Config, d: Decoder, buf: seq<byte>): (r: Run)
    requires Valid(d)
    ensures Valid(r.d)
    decreases |buf|
  {
    if d.phase == Dead then Run(d, [])
    else
      DecodeFits(cfg, d, buf);
      var c := Decode(cfg, d, buf);
      if c.status == OK then Run(c.d, [])
      else if c.status < 0 then Run(c.d, [Error(c.status)])
      else After(Run(c.d, [Message(c.status, c.payload)]), Drain(cfg, c.d, buf[c.read..]))
  }

  lemma {:induction false} DrainIsStream(cfg: Config, d: Decoder, buf: seq<byte>)
    requires Valid(d) && (d.phase == Dead ==> d == BROKEN) && (MidClose(d) ==> buf == [])
    ensures Drain(cfg, d, buf) == Stream(cfg, d, buf)
    decreases |buf|
  {
    hide Stream, Scan;
    if d.phase == Dead {
      DeadStaysDead(cfg, buf);
    } else {
      ScanIsStream(cfg, d, buf);
      var c := Decode(cfg, d, buf);
      if c.status > 0 {
        var head, rest := buf[..c.read], buf[c.read..];
        DrainIsStream(cfg, c.d, rest);
        assert head + rest == buf;
        StreamConcat(cfg, d, head, rest);
      }
    }
  }

  lemma {:induction false} OnlyBrokenIsDead(cfg: Config, d: Decoder, s: seq<byte>)
    requires Valid(d) && d.phase != Dead
    ensures Stream(cfg, d, s).d.phase == Dead ==> Stream(cfg, d, s).d == BROKEN
  {
    if s != [] {
      OnlyBrokenIsDead(cfg, d, s[..|s| - 1]);
      FeedKeepsValid(cfg, Stream(cfg, d, s[..|s| - 1]).d, s[|s| - 1]);
    }
  }

  // The receive loop over all buffers of a connection.
  function Receive(cfg: Config, d: Decoder, chunks: seq<seq<byte>>): (r: Run)
    requires Valid(d)
    ensures Valid(r.d)
  {
    if chunks == [] then Run(d, [])
    else
      var r := Receive(cfg, d, chunks[..|chunks| - 1]);
      After(r, Drain(cfg, r.d, chunks[|chunks| - 1]))
  }

  // No buffer starts within the payload of a close frame that has a reason text.
  ghost predicate ClosesWhole(cfg: Config, d: Decoder, chunks: seq<seq<byte>>)
    requires Valid(d)
  {
    forall k :: 0 <= k < |chunks| && chunks[k] != [] ==> !MidClose(Stream(cfg, d, Flatten(chunks[..k])).d)
  }

  lemma FrontClosesWhole(cfg: Config, d: Decoder, chunks: seq<seq<byte>>)
    requires Valid(d) && chunks != [] && ClosesWhole(cfg, d, chunks)
    ensures ClosesWhole(cfg, d, chunks[..|chunks| - 1])
  {
    hide Stream;
    var front := chunks[..|chunks| - 1];
    forall k | 0 <= k < |front| && front[k] != [] ensures !MidClose(Stream(cfg, d, Flatten(front[..k])).d) {
      assert chunks[k] == front[k] && front[..k] == chunks[..k];
    }
  }

  // However the octets of a connection are cut into buffers, the caller gets the
  // same messages and the same error, if any, as long as no cut is within the payload
  // of a close frame that has a reason text.
  lemma {:induction false} CutsDoNotMatter(cfg: Config, d: Decoder, chunks: seq<seq<byte>>)
    requires Valid(d) && d.phase != Dead && ClosesWhole(cfg, d, chunks)
    ensures Receive(cfg, d, chunks) == Stream(cfg, d, Flatten(chunks))
  {
    hide Stream;
    if chunks == [] {
      assert Flatten(chunks) == [];
      StreamNothing(cfg, d, Flatten(chunks));
    } else {
      var front, last := chunks[..|chunks| - 1], chunks[|chunks| - 1];
      FrontClosesWhole(cfg, d, chunks);
      CutsDoNotMatter(cfg, d, front);
      OnlyBrokenIsDead(cfg, d, Flatten(front));
      DrainIsStream(cfg, Stream(cfg, d, Flatten(front)).d, last);
      StreamConcat(cfg, d, Flatten(front), last);
    }
  }

  // Once a close frame has begun, the decoder stays closed to data or fails.
  ghost predicate Closed(d: Decoder) {
    d.onlyControl || d.phase == Dead
  }

  lemma FeedLeavesClosed(cfg: Config, d: Decoder, b: byte)
    requires Valid(d) && d.onlyControl && !Feed(cfg, d, b).Failure?
    ensures Feed(cfg, d, b).d.onlyControl
  {
    hide Utf8.Next, Xor, FromBigEndian, PayloadComplete, HeaderComplete, LengthKnown;
  }

  lemma ClosedNext(cfg: Config, d: Decoder, b: byte)
    requires Valid(d) && Closed(d)
    ensures Valid(Then(cfg, Run(d, []), b).d) && Closed(Then(cfg, Run(d, []), b).d)
  {
    hide Feed, Valid;
    if d.phase != Dead && !Feed(cfg, d, b).Failure? {
      FeedLeavesClosed(cfg, d, b);
    }
  }

  lemma {:induction false} ClosedStays(cfg: Config, d: Decoder, s: seq<byte>)
    requires Valid(d) && Closed(d)
    ensures Closed(Stream(cfg, d, s).d)
  {
    hide Closed, Feed;
    if s != [] {
      ClosedStays(cfg, d, s[..|s| - 1]);
      ClosedNext(cfg, Stream(cfg, d, s[..|s| - 1]).d, s[|s| - 1]);
    }
  }

  // A connection on which no close frame has begun may be cut anywhere.
  lemma CutsInDataDoNotMatter(cfg: Config, d: Decoder, chunks: seq<seq<byte>>)
    requires Valid(d) && d.phase != Dead && !Closed(Stream(cfg, d, Flatten(chunks)).d)
    ensures Receive(cfg, d, chunks) == Stream(cfg, d, Flatten(chunks))
  {
    hide Stream;
    forall k | 0 <= k < |chunks| && chunks[k] != [] ensures !MidClose(Stream(cfg, d, Flatten(chunks[..k])).d) {
      FlattenSplit(chunks, k);
      var r := Stream(cfg, d, Flatten(chunks[..k]));
      StreamConcat(cfg, d, Flatten(chunks[..k]), Flatten(chunks[k..]));
      if Closed(r.d) {
        ClosedStays(cfg, r.d, Flatten(chunks[k..]));
      }
    }
    CutsDoNotMatter(cfg, d, chunks);
  }
}
