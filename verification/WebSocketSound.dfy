// What holds in every run in which the finished text messages are text: the UTF-8 step
// fits what the decoder keeps, and no length gets negative.
module WebSocketSound {
  import opened Bytes
  import Utf8
  import opened WebSocketDecoder
  import opened WebSocketRuns

  // The step is the one that the kept octets of a text message lead to, and NORMAL when
  // there are none; until a close frame comes.
  ghost predicate Sound(d: Decoder) {
    || d.phase == Dead || d.onlyControl
    || ((if d.dataType == 1 then Utf8.Check(Utf8.Normal, d.data) == Utf8.At(d.utf8) else d.utf8 == Utf8.Normal)
        && (d.phase in {Length, Length2, Length8, Mask} && StartsMessage(d) ==> d.dataType == 0))
  }

  ghost predicate StartsMessage(d: Decoder) {
    d.header != [] && Opcode(d) in {1, 2}
  }

  // A finished text message, or its last fragment, is text.
  ghost predicate TextIfFinished(status: int, payload: seq<byte>) {
    status in {1, 0x41} ==> Utf8.IsText(payload)
  }

  ghost predicate SoundOutcome(o: Outcome) {
    match o
    case More(d) => Sound(d)
    case Complete(d, status, payload) => TextIfFinished(status, payload) ==> Sound(d)
    case Failure(error, _) => error != UNDEFINED
  }

  lemma SoundPayload(cfg: Config, d: Decoder)
    requires HeaderOk(d) && d.phase in {Data, Control} && (d.phase == Data ==> d.dataType in {1, 2}) && Sound(d)
    requires d.phase == Data <==> Opcode(d) <= 2
    ensures SoundOutcome(PayloadComplete(cfg, d))
  {
    hide Utf8.Check;
    if d.phase == Data && d.dataType == 1 && !d.onlyControl {
      Utf8.AcceptsExactlyText(d.data);
      Utf8.OpenAlone(d.data);
    }
    Utf8.CheckNothing(Utf8.Normal, []);
  }

  lemma SoundHeader(cfg: Config, d: Decoder)
    requires HeaderOk(d) && d.dataType <= 2 && Sound(d) && d.phase in {Length, Length2, Length8, Mask}
    ensures SoundOutcome(HeaderComplete(cfg, d))
  {
    hide Utf8.Check, PayloadComplete;
    var opcode := Opcode(d);
    Utf8.CheckNothing(Utf8.Normal, []);
    if opcode == 0 {
      SoundPayload(cfg, d.(phase := Data));
    } else if 0 < opcode < 8 {
      SoundPayload(cfg, d.(phase := Data, data := [], dataType := opcode));
    } else if opcode >= 8 {
      SoundPayload(cfg, d.(phase := Control, control := []));
    }
  }

  lemma SoundLength(cfg: Config, d: Decoder, size: nat)
    requires HeaderOk(d) && d.dataType <= 2 && |d.header| >= 2 && Sound(d)
    requires d.phase in {Length, Length2, Length8, Mask}
    ensures SoundOutcome(LengthKnown(cfg, d, size))
  {
    hide Utf8.Check, HeaderComplete;
    SoundHeader(cfg, d.(payloadSize := size, key := [0, 0, 0, 0]));
  }

  lemma SoundHeaderOctet(cfg: Config, d: Decoder, b: byte)
    requires Valid(d) && Sound(d) && d.phase !in {Start, Data, Control, Dead}
    ensures SoundOutcome(Feed(cfg, d, b))
  {
    hide Utf8.Check, HeaderComplete, LengthKnown, FromBigEndian;
    var d1 := d.(header := d.header + [b]);
    assert d1.header[0] == d.header[0];
    match d.phase
    case Length => SoundLength(cfg, d1, b % 128);
    case Length2 => if |d1.header| == 4 { SoundLength(cfg, d1, FromBigEndian(d1.header[2..4])); }
    case Length8 => if |d1.header| == 10 { SoundLength(cfg, d1, FromBigEndian(d1.header[2..10])); }
    case Mask => if |d1.header| == LengthEnd(d) + 4 { SoundHeader(cfg, d1.(key := d1.header[|d1.header| - 4..])); }
  }

  lemma SoundPayloadOctet(cfg: Config, d: Decoder, b: byte)
    requires Valid(d) && Sound(d) && d.phase in {Data, Control}
    ensures SoundOutcome(Feed(cfg, d, b))
  {
    hide Utf8.Check, Utf8.Next, PayloadComplete, Xor;
    var c := Xor(b, d.key[d.payloadIndex % 4]);
    if d.phase == Control {
      var d1 := d.(control := d.control + [c], payloadIndex := d.payloadIndex + 1);
      SoundPayload(cfg, d1);
      if InReason(d) && Utf8.Next(ReasonStep(d), c).At? {
        SoundPayload(cfg, d1.(utf8 := Utf8.Next(ReasonStep(d), c).step));
      }
    } else {
      var d1 := d.(data := d.data + [c], payloadIndex := d.payloadIndex + 1);
      if d.dataType != 1 {
        SoundPayload(cfg, d1);
      } else if Utf8.Next(d.utf8, c).At? {
        Utf8.CheckConcat(Utf8.Normal, d.data, [c]);
        Utf8.Check1(d.utf8, c);
        SoundPayload(cfg, d1.(utf8 := Utf8.Next(d.utf8, c).step));
      }
    }
  }

  lemma SoundFeed(cfg: Config, d: Decoder, b: byte)
    requires Valid(d) && Sound(d) && d.phase != Dead
    ensures SoundOutcome(Feed(cfg, d, b))
  {
    hide Utf8.Check;
    match d.phase
    case Start =>
    case Data => SoundPayloadOctet(cfg, d, b);
    case Control => SoundPayloadOctet(cfg, d, b);
    case _ => SoundHeaderOctet(cfg, d, b);
  }

  // Every finished text message that the caller got was text.
  ghost predicate FinishedTextsAreText(events: seq<Event>) {
    forall i :: 0 <= i < |events| && events[i].Message? ==> TextIfFinished(events[i].status, events[i].payload)
  }

  lemma EarlierTextsAreText(front: seq<Event>, more: seq<Event>)
    requires FinishedTextsAreText(front + more)
    ensures FinishedTextsAreText(front)
    ensures forall e :: e in more && e.Message? ==> TextIfFinished(e.status, e.payload)
  {
    hide TextIfFinished;
    var all := front + more;
    assert forall i :: 0 <= i < |front| ==> all[i] == front[i];
    forall e | e in more && e.Message? ensures TextIfFinished(e.status, e.payload) {
      var i :| 0 <= i < |more| && more[i] == e;
      assert all[|front| + i] == e;
    }
  }

  lemma SoundThen(cfg: Config, r: Run, b: byte)
    requires Valid(r.d) && Sound(r.d) && Error(UNDEFINED) !in r.events
    requires FinishedTextsAreText(Then(cfg, r, b).events)
    ensures Sound(Then(cfg, r, b).d) && Error(UNDEFINED) !in Then(cfg, r, b).events
  {
    hide Sound, Feed, Valid, TextIfFinished;
    if r.d.phase != Dead {
      SoundFeed(cfg, r.d, b);
      match Feed(cfg, r.d, b)
      case More(_) =>
      case Complete(_, status, payload) =>
        EarlierTextsAreText(r.events, [Message(status, payload)]);
        assert Message(status, payload) in [Message(status, payload)];
      case Failure(_, _) => BrokenIsSound();
    }
  }

  lemma BrokenIsSound()
    ensures Sound(BROKEN)
  {
  }

  lemma {:induction false} SoundRun(cfg: Config, d: Decoder, s: seq<byte>)
    requires Valid(d) && Sound(d) && FinishedTextsAreText(Stream(cfg, d, s).events)
    ensures Sound(Stream(cfg, d, s).d) && Error(UNDEFINED) !in Stream(cfg, d, s).events
  {
    hide Sound, Feed, Valid, FinishedTextsAreText;
    if s != [] {
      var r := Stream(cfg, d, s[..|s| - 1]);
      EventsBefore(cfg, r, s[|s| - 1]);
      SoundRun(cfg, d, s[..|s| - 1]);
      SoundThen(cfg, r, s[|s| - 1]);
    }
  }

  lemma EventsBefore(cfg: Config, r: Run, b: byte)
    requires Valid(r.d) && FinishedTextsAreText(Then(cfg, r, b).events)
    ensures FinishedTextsAreText(r.events)
  {
    hide Feed, Valid, TextIfFinished;
    var all := Then(cfg, r, b).events;
    assert r.events <= all;
    assert r.events + all[|r.events|..] == all;
    EarlierTextsAreText(r.events, all[|r.events|..]);
  }

  // As long as every finished text message was text, no octet makes the code leave the
  // octets it was given, and none is refused or accepted because of an earlier message:
  // the step is the one that the octets of the message in progress lead to.
  lemma NoUnderflow(cfg: Config, s: seq<byte>)
    requires FinishedTextsAreText(Stream(cfg, FRESH, s).events)
    ensures Sound(Stream(cfg, FRESH, s).d) && Error(UNDEFINED) !in Stream(cfg, FRESH, s).events
  {
    hide Stream, Utf8.Check;
    SoundRun(cfg, FRESH, s);
  }

  // The same for the buffers of a connection.
  lemma NothingUndefined(cfg: Config, chunks: seq<seq<byte>>)
    requires ClosesWhole(cfg, FRESH, chunks) && FinishedTextsAreText(Receive(cfg, FRESH, chunks).events)
    ensures Error(UNDEFINED) !in Receive(cfg, FRESH, chunks).events
  {
    hide Stream, Receive;
    CutsDoNotMatter(cfg, FRESH, chunks);
    NoUnderflow(cfg, Flatten(chunks));
  }
}
