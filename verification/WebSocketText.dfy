// What the encoder and the decoder guarantee about text, and what they do not.
module WebSocketText {
  import opened Bytes
  import Utf8
  import opened WebSocketFrame
  import opened WebSocketDecoder
  import opened WebSocketRuns
  import opened WebSocketMessages
  import opened WebSocketDelivery
  import opened WebSocketBulk
  import opened WebSocketEncoder

  // The encoder's step after the first `k` pieces of a message, if it took them all.
  function SenderStep(pieces: seq<seq<byte>>, k: nat): Utf8.Maybe
    requires k <= |pieces|
  {
    if k == 0 then Utf8.At(Utf8.Normal)
    else
      match SenderStep(pieces, k - 1)
      case Bad => Utf8.Bad
      case At(step) => StepOfPiece(RoleOf(k - 1, |pieces|), step, pieces[k - 1])
  }

  // Between pieces the encoder is where one pass over all of them would be.
  lemma {:induction false} SenderKeepsStep(pieces: seq<seq<byte>>, k: nat)
    requires k <= |pieces| && |pieces| != 1
    ensures SenderStep(pieces, k) == Utf8.Check(Utf8.Normal, Arrived(pieces, k))
  {
    if k > 0 {
      SenderKeepsStep(pieces, k - 1);
      ArrivedNext(pieces, k - 1);
      Utf8.CheckConcat(Utf8.Normal, Arrived(pieces, k - 1), pieces[k - 1]);
      assert Arrived(pieces, 0) == [];
    } else {
      assert Arrived(pieces, 0) == [];
    }
  }

  // A message sent as one frame is taken exactly if it is text.  In several frames
  // it is taken exactly if it is the beginning of some text: the last piece may
  // end within a character.
  lemma SenderTakes(pieces: seq<seq<byte>>)
    requires pieces != []
    ensures |pieces| == 1 ==> (SenderStep(pieces, 1).At? <==> Utf8.IsText(Flatten(pieces)))
    ensures |pieces| > 1 ==>
      (SenderStep(pieces, |pieces|).At? <==> exists more: seq<byte> :: Utf8.IsText(Flatten(pieces) + more))
    ensures |pieces| > 1 ==>
      (SenderStep(pieces, |pieces|) == Utf8.At(Utf8.Normal) <==> Utf8.IsText(Flatten(pieces)))
  {
    hide StepOfPiece, SenderStep, Flatten, Arrived;
    var all := Flatten(pieces);
    AllArrived(pieces);
    Utf8.AcceptsExactlyText(all);
    Utf8.ReadsExactlyTextPrefixes(all);
    if |pieces| == 1 {
      OnlyPiece(pieces);
    } else {
      SenderKeepsStep(pieces, |pieces|);
    }
  }

  lemma OnlyPiece(pieces: seq<seq<byte>>)
    requires |pieces| == 1
    ensures Flatten(pieces) == pieces[0]
    ensures SenderStep(pieces, 1).At? <==> Utf8.Check(Utf8.Normal, pieces[0]) == Utf8.At(Utf8.Normal)
  {
    hide Utf8.Check;
    assert pieces[..0] == [];
    assert SenderStep(pieces, 0) == Utf8.At(Utf8.Normal);
  }

  // --- Receiving one frame -----------------------------------------------------------

  // The decoder expects a frame of a text message with these contents, be they text or
  // not.  The step that it has kept may be any.
  ghost predicate Takes(cfg: Config, d: Decoder, fragmentation: Fragmentation, key: seq<byte>, payload: seq<byte>) {
    Expects(cfg, d, fragmentation, TEXT, key, payload) && MessageType(d, fragmentation, TEXT) == 1
  }

  // A payload that the UTF-8 check refuses breaks the stream.
  lemma BadPayload(cfg: Config, d: Decoder, payload: seq<byte>)
    requires Valid(d) && d.phase == Data && d.dataType == 1 && d.payloadIndex == 0 && |payload| == d.payloadSize
    requires Utf8.Check(d.utf8, payload).Bad?
    ensures Stream(cfg, d, Masked(payload, d.key, 0)) == Run(BROKEN, [Error(UTF8_ENCODING_ERROR)])
  {
    hide Stream, Scan, Feed;
    var wire := Masked(payload, d.key, 0);
    MaskedTwice(payload, d.key, 0);
    ScanBadText(cfg, d, wire, [], Utf8.BadAt(d.utf8, payload));
    assert wire + [] == wire;
    ScanIsStream(cfg, d, wire);
  }

  lemma BadFrame(cfg: Config, d: Decoder, fragmentation: Fragmentation, key: seq<byte>, payload: seq<byte>)
    requires Takes(cfg, d, fragmentation, key, payload) && Utf8.Check(d.utf8, payload).Bad?
    ensures Stream(cfg, d, Frame(fragmentation, TEXT, key, payload)) == Run(BROKEN, [Error(UTF8_ENCODING_ERROR)])
  {
    hide Stream, Utf8.Check;
    assert payload != [] by { Utf8.CheckNothing(d.utf8, []); }
    var first := FirstByte(fragmentation, TEXT);
    var header := [first] + LengthField(key != [], |payload|) + key;
    var body := if key == [] then payload else Masked(payload, key, 0);
    assert Frame(fragmentation, TEXT, key, payload) == header + body;
    FrameStarts(cfg, d, fragmentation, TEXT, key, payload);
    HeaderFed(cfg, d, first, key, |payload|);
    assert Head(FeedStart(d, first).d, first, key, |payload|) == Head(d, first, key, |payload|);
    FrameOpens(cfg, d, fragmentation, TEXT, key, payload);
    var d1 := Opened(d, fragmentation, TEXT, key, |payload|);
    StreamConcat(cfg, d, header, body);
    assert Stream(cfg, d, header) == Run(d1, []);
    UnmaskedBody(payload);
    BadPayload(cfg, d1, payload);
    EmptyBefore(Stream(cfg, d1, body));
  }

  // What becomes of a text frame whose payload the check does not refuse: the caller gets
  // all that is still there with the last frame; with an earlier one nothing, or what
  // comes before the octets that are open.
  ghost predicate PartTaken(cfg: Config, r: Run, fragmentation: Fragmentation, all: seq<byte>, step: Utf8.Step) {
    if fragmentation.Unfragmented? || fragmentation.Last? then
      && r.events == [Message(if cfg.wantFragments && fragmentation.Last? then 0x41 else 1, all)]
      && Between(r.d, 0, [], step)
    else if !cfg.wantFragments then
      r.events == [] && Between(r.d, 1, all, step)
    else if Utf8.Given(step) <= |all| then
      Handed(r, if fragmentation.First? then 0x11 else 0x21, 1, all, step)
    else
      r == Run(BROKEN, [Error(UNDEFINED)])
  }

  // The verdict on every frame of a text message, whatever has come before it: the stream
  // fails if and only if the check refuses the payload from the step that was kept, or a
  // caller that wants fragments would get a negative number of octets.
  lemma TextPartVerdict(cfg: Config, d: Decoder, fragmentation: Fragmentation, key: seq<byte>, payload: seq<byte>)
    requires Takes(cfg, d, fragmentation, key, payload)
    ensures var r := Stream(cfg, d, Frame(fragmentation, TEXT, key, payload));
      var after, all := Utf8.Check(d.utf8, payload), Before(d, fragmentation) + payload;
      && (r == Run(BROKEN, [Error(UTF8_ENCODING_ERROR)]) <==> after.Bad?)
      && (after.At? ==> PartTaken(cfg, r, fragmentation, all, after.step))
      && (r == Run(BROKEN, [Error(UNDEFINED)]) <==>
            && after.At? && cfg.wantFragments && (fragmentation.First? || fragmentation.Following?)
            && Utf8.Given(after.step) > |all|)
  {
    hide Stream, Utf8.Check, Frame, Before, Valid, TooBig;
    if Utf8.Check(d.utf8, payload).Bad? {
      BadFrame(cfg, d, fragmentation, key, payload);
    } else {
      GoodPart(cfg, d, fragmentation, key, payload);
      PartTakenIsNotRefused(cfg, Stream(cfg, d, Frame(fragmentation, TEXT, key, payload)), fragmentation,
                            Before(d, fragmentation) + payload, Utf8.Check(d.utf8, payload).step);
    }
  }

  lemma PartTakenIsNotRefused(cfg: Config, r: Run, fragmentation: Fragmentation, all: seq<byte>, step: Utf8.Step)
    requires PartTaken(cfg, r, fragmentation, all, step)
    ensures r != Run(BROKEN, [Error(UTF8_ENCODING_ERROR)])
    ensures r == Run(BROKEN, [Error(UNDEFINED)]) <==>
            && cfg.wantFragments && (fragmentation.First? || fragmentation.Following?)
            && Utf8.Given(step) > |all|
  {
    hide Valid;
    assert [Error(UTF8_ENCODING_ERROR)][0].Error? && [Error(UNDEFINED)][0] == Error(UNDEFINED);
  }

  lemma GoodPart(cfg: Config, d: Decoder, fragmentation: Fragmentation, key: seq<byte>, payload: seq<byte>)
    requires Takes(cfg, d, fragmentation, key, payload) && Utf8.Check(d.utf8, payload).At?
    ensures PartTaken(cfg, Stream(cfg, d, Frame(fragmentation, TEXT, key, payload)), fragmentation,
                      Before(d, fragmentation) + payload, Utf8.Check(d.utf8, payload).step)
  {
    hide Stream, Utf8.Check, Frame, Before, Valid;
    var step := Utf8.Check(d.utf8, payload).step;
    if fragmentation.Unfragmented? || fragmentation.Last? {
      FinalFrame(cfg, d, fragmentation, TEXT, key, payload);
    } else if !cfg.wantFragments {
      KeptFrame(cfg, d, fragmentation, TEXT, key, payload);
    } else if Utf8.Given(step) <= |Before(d, fragmentation) + payload| {
      HandedFrame(cfg, d, fragmentation, TEXT, key, payload, 1, step);
    } else {
      UndefinedFrame(cfg, d, fragmentation, key, payload);
    }
  }

  lemma UndefinedFrame(cfg: Config, d: Decoder, fragmentation: Fragmentation, key: seq<byte>, payload: seq<byte>)
    requires Takes(cfg, d, fragmentation, key, payload) && cfg.wantFragments && Utf8.Check(d.utf8, payload).At?
    requires fragmentation.First? || fragmentation.Following?
    requires Utf8.Given(Utf8.Check(d.utf8, payload).step) > |Before(d, fragmentation) + payload|
    ensures Stream(cfg, d, Frame(fragmentation, TEXT, key, payload)) == Run(BROKEN, [Error(UNDEFINED)])
  {
    hide Stream, Utf8.Check, PayloadComplete, Full, Frame, Before, Valid;
    FrameFed(cfg, d, fragmentation, TEXT, key, payload);
    FullIs(d, fragmentation, TEXT, key, payload);
    TooFewOctets(cfg, Full(d, fragmentation, TEXT, key, payload));
  }

  lemma TooFewOctets(cfg: Config, d: Decoder)
    requires d.header != [] && d.phase == Data && !IsFin(d) && cfg.wantFragments
    requires d.dataType == 1 && Utf8.Given(d.utf8) > |d.data|
    ensures PayloadComplete(cfg, d) == Failure(UNDEFINED, true)
  {
  }

  // In terms of octets, where `p` is the text that the step was reached with: a frame is
  // refused if and only if `p` and its payload together are not the beginning of some
  // text.  The last frame, too, is handed out although they may end within a character;
  // they are text if and only if NORMAL is left behind.
  lemma PartVerdictInOctets(cfg: Config, d: Decoder, p: seq<byte>, fragmentation: Fragmentation, key: seq<byte>,
                            payload: seq<byte>)
    requires Takes(cfg, d, fragmentation, key, payload) && Utf8.Check(Utf8.Normal, p) == Utf8.At(d.utf8)
    ensures var r := Stream(cfg, d, Frame(fragmentation, TEXT, key, payload));
      && (r == Run(BROKEN, [Error(UTF8_ENCODING_ERROR)]) <==>
            !exists more: seq<byte> :: Utf8.IsText(p + payload + more))
      && (fragmentation.Last? || fragmentation.Unfragmented? ==>
            && (r.events == [Message(if cfg.wantFragments && fragmentation.Last? then 0x41 else 1,
                                     Before(d, fragmentation) + payload)] <==>
                  exists more: seq<byte> :: Utf8.IsText(p + payload + more))
            && (Utf8.IsText(p + payload) <==>
                  (r != Run(BROKEN, [Error(UTF8_ENCODING_ERROR)]) && r.d.utf8 == Utf8.Normal)))
  {
    hide Stream, Utf8.Check, Frame, Before, Expects, Valid;
    TextPartVerdict(cfg, d, fragmentation, key, payload);
    Utf8.CheckConcat(Utf8.Normal, p, payload);
    Utf8.ReadsExactlyTextPrefixes(p + payload);
    Utf8.AcceptsExactlyText(p + payload);
    assert [Error(UTF8_ENCODING_ERROR)][0].Error?;
  }

  // A text frame is handed out exactly if the check does not refuse its payload from the
  // step that earlier messages have left, and leaves the step it reaches to later ones.
  // With NORMAL left behind, that is exactly if it is the beginning of some text; and
  // text itself is refused exactly if another step was left behind.
  lemma TextFrameVerdict(cfg: Config, d: Decoder, key: seq<byte>, payload: seq<byte>)
    requires Takes(cfg, d, Unfragmented, key, payload)
    ensures var r, after := Stream(cfg, d, Frame(Unfragmented, TEXT, key, payload)), Utf8.Check(d.utf8, payload);
      && (r.events == [Message(1, payload)] <==> after.At?)
      && (r.events != [Message(1, payload)] <==> r == Run(BROKEN, [Error(UTF8_ENCODING_ERROR)]))
      && (after.At? ==> Between(r.d, 0, [], after.step))
      && (d.utf8 == Utf8.Normal ==> (after.At? <==> exists more: seq<byte> :: Utf8.IsText(payload + more)))
      && (d.utf8 == Utf8.Normal && after.At? ==> (Utf8.IsText(payload) <==> after.step == Utf8.Normal))
      && (Utf8.IsText(payload) ==> (after.At? <==> d.utf8 == Utf8.Normal || payload == []))
  {
    hide Stream, Utf8.Check, Frame, Valid;
    TextPartVerdict(cfg, d, Unfragmented, key, payload);
    assert [] + payload == payload;
    assert [Error(UTF8_ENCODING_ERROR)][0].Error?;
    Utf8.ReadsExactlyTextPrefixes(payload);
    Utf8.AcceptsExactlyText(payload);
    if Utf8.IsText(payload) {
      Utf8.TextWithinSequence(d.utf8, payload);
    }
  }

  // An unfinished two-octet sequence is handed out as a text message.
  lemma HalfACharacterIsHandedOut()
    ensures var r := Stream(Config(true, false, 0), FRESH, Frame(Unfragmented, TEXT, [], [0xC3]));
      r.events == [Message(1, [0xC3])] && !Utf8.IsText([0xC3]) && Between(r.d, 0, [], Utf8.Utf2Tail1Of1)
  {
    hide Stream, Utf8.Check;
    Utf8.Check1(Utf8.Normal, 0xC3);
    Utf8.AcceptsExactlyText([0xC3]);
    TextFrameVerdict(Config(true, false, 0), FRESH, [], [0xC3]);
  }

  // --- Whole messages ------------------------------------------------------------------

  // The last of several pieces that the check reads as far as the piece before.
  lemma {:induction false} FirstBadPiece(q: Utf8.Step, pieces: seq<seq<byte>>, n: nat) returns (k: nat)
    requires n <= |pieces| && Utf8.Check(q, Arrived(pieces, n)).Bad?
    ensures k < n && Utf8.Check(q, Arrived(pieces, k)).At? && Utf8.Check(q, Arrived(pieces, k + 1)).Bad?
  {
    NothingArrived(pieces, n);
    Utf8.CheckNothing(q, []);
    hide Utf8.Check, Arrived;
    if Utf8.Check(q, Arrived(pieces, n - 1)).Bad? {
      k := FirstBadPiece(q, pieces, n - 1);
    } else {
      k := n - 1;
    }
  }

  lemma {:induction false} StaysBroken(cfg: Config, d: Decoder, kind: byte, pieces: seq<seq<byte>>,
                                       keys: seq<seq<byte>>, k: nat, n: nat)
    requires Framed(cfg, kind, pieces, keys) && Valid(d) && k <= n <= |pieces|
    requires Stream(cfg, d, Wire(kind, pieces, keys, k)).d == BROKEN
    ensures Stream(cfg, d, Wire(kind, pieces, keys, n)) == Stream(cfg, d, Wire(kind, pieces, keys, k))
  {
    hide Stream, Wire, Flatten, Frame, TooBig, Pow256, LengthByte, FirstByte;
    if k < n {
      StaysBroken(cfg, d, kind, pieces, keys, k, n - 1);
      WireNext(cfg, d, kind, pieces, keys, n - 1, n);
      DeadStaysDead(cfg, Frame(RoleOf(n - 1, |pieces|), kind, keys[n - 1], pieces[n - 1]));
      var r := Stream(cfg, d, Wire(kind, pieces, keys, k));
      assert r.events + [] == r.events;
    }
  }

  // A message whose frame number `k` breaks the stream.
  lemma BreaksAt(cfg: Config, q: Utf8.Step, d: Decoder, r: Run, pieces: seq<seq<byte>>, keys: seq<seq<byte>>,
                 k: nat, error: int)
    requires Reached(cfg, q, d, r, 1, pieces, keys, k)
    requires Stream(cfg, r.d, Frame(RoleOf(k, |pieces|), TEXT, keys[k], pieces[k])) == Run(BROKEN, [Error(error)])
    ensures Stream(cfg, d, Wire(1, pieces, keys, |pieces|)) ==
            Run(BROKEN, Earlier(cfg, q, 1, pieces, k) + [Error(error)])
  {
    hide Stream, Frame, Arrived, Flatten, Valid, Wire, Between, Earlier;
    WireNext(cfg, d, 1, pieces, keys, k, k + 1);
    StaysBroken(cfg, d, 1, pieces, keys, k + 1, |pieces|);
  }

  lemma MidwayTakes(cfg: Config, q: Utf8.Step, d: Decoder, r: Run, pieces: seq<seq<byte>>, keys: seq<seq<byte>>,
                    k: nat)
    requires Reached(cfg, q, d, r, 1, pieces, keys, k) && Utf8.Check(q, Arrived(pieces, k)).At?
    ensures Takes(cfg, r.d, RoleOf(k, |pieces|), keys[k], pieces[k])
    ensures Utf8.Check(r.d.utf8, pieces[k]) == Utf8.Check(q, Arrived(pieces, k + 1))
  {
    hide Stream, Frame, Arrived, Flatten, Wire, Expects, Utf8.Check, Midway;
    PieceExpected(cfg, q, r, 1, pieces, keys, k, k + 1);
    PieceChecks(q, 1, pieces, k, k + 1);
  }

  // The check refuses a piece.
  lemma RefusedAt(cfg: Config, q: Utf8.Step, d: Decoder, pieces: seq<seq<byte>>, keys: seq<seq<byte>>, k: nat)
    requires Framed(cfg, 1, pieces, keys) && k < |pieces| && Between(d, 0, [], q)
    requires k > 0 ==> !Underflows(cfg, q, 1, pieces)
    requires Utf8.Check(q, Arrived(pieces, k)).At? && Utf8.Check(q, Arrived(pieces, k + 1)).Bad?
    ensures Stream(cfg, d, Wire(1, pieces, keys, |pieces|)) ==
            Run(BROKEN, Earlier(cfg, q, 1, pieces, k) + [Error(UTF8_ENCODING_ERROR)])
  {
    hide Stream, Frame, Arrived, Flatten, Wire, Utf8.Check, Takes, Between, Earlier, Midway;
    var r := MidwayAll(cfg, q, d, 1, pieces, keys, k);
    MidwayTakes(cfg, q, d, r, pieces, keys, k);
    BadFrame(cfg, r.d, RoleOf(k, |pieces|), keys[k], pieces[k]);
    BreaksAt(cfg, q, d, r, pieces, keys, k, UTF8_ENCODING_ERROR);
  }

  // The first piece does not finish the sequence that earlier messages have left open.
  lemma UnderflowsAtOnce(cfg: Config, q: Utf8.Step, d: Decoder, pieces: seq<seq<byte>>, keys: seq<seq<byte>>)
    requires Framed(cfg, 1, pieces, keys) && Between(d, 0, [], q)
    requires Underflows(cfg, q, 1, pieces) && Utf8.Check(q, pieces[0]).At?
    ensures Stream(cfg, d, Wire(1, pieces, keys, |pieces|)) == Run(BROKEN, [Error(UNDEFINED)])
  {
    hide Stream, Frame, Arrived, Flatten, Wire, Utf8.Check, Takes, Between, Earlier, Midway, TooBig;
    NothingArrived(pieces, 0);
    NoHandouts(cfg, q, 1, pieces);
    Utf8.CheckNothing(q, []);
    var r := MidwayAll(cfg, q, d, 1, pieces, keys, 0);
    MidwayTakes(cfg, q, d, r, pieces, keys, 0);
    Utf8.OpenBeforehand(q, pieces[0]);
    ReachedNothing(cfg, q, d, r, pieces, keys);
    UndefinedFrame(cfg, r.d, First, keys[0], pieces[0]);
    BreaksAt(cfg, q, d, r, pieces, keys, 0, UNDEFINED);
    assert [] + [Error(UNDEFINED)] == [Error(UNDEFINED)];
  }

  lemma ReachedNothing(cfg: Config, q: Utf8.Step, d: Decoder, r: Run, pieces: seq<seq<byte>>, keys: seq<seq<byte>>)
    requires Reached(cfg, q, d, r, 1, pieces, keys, 0) && Between(d, 0, [], q)
    ensures r.d.utf8 == q && Before(r.d, First) == []
  {
    hide Stream, Arrived, Wire, Utf8.Check, Valid, Flatten, TooBig, Earlier;
    NothingArrived(pieces, 0);
    Utf8.CheckNothing(q, []);
  }

  lemma ExpectedEndsWithMessage(cfg: Config, q: Utf8.Step, kind: byte, pieces: seq<seq<byte>>)
    requires pieces != []
    ensures var events := Expected(cfg, q, kind, pieces); events != [] && events[|events| - 1].Message?
  {
  }

  // The verdict on every text message, in any number of frames and after any earlier ones.
  // It arrives if and only if the check does not refuse it from the step that they have
  // left, and, for a caller that wants fragments, its first fragment finishes the sequence
  // that they have left open.  Otherwise the stream fails: with that fragment, or with the
  // first piece `k` that the check refuses, and the caller has got what comes before.
  lemma TextMessageVerdict(cfg: Config, q: Utf8.Step, d: Decoder, pieces: seq<seq<byte>>, keys: seq<seq<byte>>)
    returns (k: nat)
    requires Framed(cfg, 1, pieces, keys) && Between(d, 0, [], q)
    ensures var r, after := Stream(cfg, d, Wire(1, pieces, keys, |pieces|)), Utf8.Check(q, Flatten(pieces));
      var negative := Underflows(cfg, q, 1, pieces) && Utf8.Check(q, pieces[0]).At?;
      && (r.events == Expected(cfg, q, 1, pieces) <==> after.At? && !Underflows(cfg, q, 1, pieces))
      && (after.At? && !negative ==> Between(r.d, 0, [], after.step))
      && (negative ==> r == Run(BROKEN, [Error(UNDEFINED)]))
      && (after.Bad? && !negative ==>
            && k < |pieces| && Utf8.Check(q, Arrived(pieces, k)).At? && Utf8.Check(q, Arrived(pieces, k + 1)).Bad?
            && r == Run(BROKEN, Earlier(cfg, q, 1, pieces, k) + [Error(UTF8_ENCODING_ERROR)]))
    ensures q == Utf8.Normal ==>
              (Utf8.Check(q, Flatten(pieces)).At? <==> exists more: seq<byte> :: Utf8.IsText(Flatten(pieces) + more))
    ensures q == Utf8.Normal ==> !Underflows(cfg, q, 1, pieces)
  {
    hide Stream, Frame, Arrived, Flatten, Wire, Utf8.Check, Between, Earlier, Expected;
    k := 0;
    AllArrived(pieces);
    Utf8.ReadsExactlyTextPrefixes(Flatten(pieces));
    ExpectedEndsWithMessage(cfg, q, 1, pieces);
    FirstPieceChecks(q, pieces);
    if Underflows(cfg, q, 1, pieces) && Utf8.Check(q, pieces[0]).At? {
      UnderflowsAtOnce(cfg, q, d, pieces, keys);
    } else if Utf8.Check(q, Flatten(pieces)).At? {
      MessageArrives(cfg, q, d, 1, pieces, keys);
    } else {
      k := FirstBadPiece(q, pieces, |pieces|);
      if k > 0 && Underflows(cfg, q, 1, pieces) {
        NotBefore(q, pieces, k);
        assert false;
      } else {
        RefusedAt(cfg, q, d, pieces, keys, k);
      }
    }
  }

  // A message that is not refused has a first piece that is not.
  lemma FirstPieceChecks(q: Utf8.Step, pieces: seq<seq<byte>>)
    requires pieces != []
    ensures Utf8.Check(q, Flatten(pieces)).At? ==> Utf8.Check(q, pieces[0]).At?
  {
    hide Utf8.Check;
    AllArrived(pieces);
    if Utf8.Check(q, Flatten(pieces)).At? {
      NotBefore(q, pieces, |pieces|);
    }
  }

  lemma {:induction false} NotBefore(q: Utf8.Step, pieces: seq<seq<byte>>, k: nat)
    requires 0 < k <= |pieces| && Utf8.Check(q, Arrived(pieces, k)).At?
    ensures Utf8.Check(q, pieces[0]).At?
  {
    hide Utf8.Check;
    if k == 1 {
      NothingArrived(pieces, 0);
      ArrivedNext(pieces, 0);
      assert [] + pieces[0] == pieces[0];
    } else {
      ReadableBefore(q, 1, pieces, k - 1, k);
      NotBefore(q, pieces, k - 1);
    }
  }

  // A message whose last frame ends within a character is handed out, too, whether the
  // caller wants fragments or not.
  lemma LastFrameEndsWithinACharacter()
    ensures var wire := Frame(First, TEXT, [], [0x61]) + Frame(Last, TEXT, [], [0xC3]);
      && Stream(Config(true, false, 0), FRESH, wire).events == [Message(1, [0x61, 0xC3])]
      && Stream(Config(true, true, 0), FRESH, wire).events == [Message(0x11, [0x61]), Message(0x41, [0xC3])]
      && !Utf8.IsText([0x61, 0xC3])
  {
    hide Stream, Frame, Utf8.Check, Valid;
    Utf8.Check1(Utf8.Normal, 0x61);
    Utf8.Check1(Utf8.Normal, 0xC3);
    Utf8.Check2(Utf8.Normal, 0x61, 0xC3);
    Utf8.AcceptsExactlyText([0x61, 0xC3]);
    TwoFrames(Config(true, false, 0), [0x61], [0xC3]);
    TwoFrames(Config(true, true, 0), [0x61], [0xC3]);
    assert [0x61] + [0xC3] == [0x61, 0xC3] && [] + [0xC3] == [0xC3];
  }

  // A text in two frames, the first of them text.
  lemma TwoFrames(cfg: Config, a: seq<byte>, b: seq<byte>)
    requires cfg.client && cfg.maxPayload == 0 && |a| + |b| <= 0x7fffffffffffffff
    requires Utf8.Check(Utf8.Normal, a) == Utf8.At(Utf8.Normal) && Utf8.Check(Utf8.Normal, b).At?
    ensures Stream(cfg, FRESH, Frame(First, TEXT, [], a) + Frame(Last, TEXT, [], b)).events ==
            if cfg.wantFragments then [Message(0x11, a), Message(0x41, [] + b)] else [Message(1, a + b)]
  {
    hide Stream, Frame, Utf8.Check;
    var r := Stream(cfg, FRESH, Frame(First, TEXT, [], a));
    StreamConcat(cfg, FRESH, Frame(First, TEXT, [], a), Frame(Last, TEXT, [], b));
    assert [] + a == a;
    GoodPart(cfg, FRESH, First, [], a);
    if cfg.wantFragments {
      assert a[..|a|] == a && a[|a|..] == [];
    }
    GoodPart(cfg, r.d, Last, [], b);
  }

  // --- Messages one after the other -----------------------------------------------------

  // A message and its frames.
  datatype Sent = Sent(kind: byte, pieces: seq<seq<byte>>, keys: seq<seq<byte>>)

  ghost predicate AllFramed(cfg: Config, messages: seq<Sent>) {
    forall i :: 0 <= i < |messages| ==> Framed(cfg, messages[i].kind, messages[i].pieces, messages[i].keys)
  }

  // Their octets on the connection.
  ghost function Frames(cfg: Config, messages: seq<Sent>): seq<byte>
    requires AllFramed(cfg, messages)
  {
    if messages == [] then []
    else
      var last := messages[|messages| - 1];
      Frames(cfg, messages[..|messages| - 1]) + Wire(last.kind, last.pieces, last.keys, |last.pieces|)
  }

  // The contents of the text messages.
  function TextOf(messages: seq<Sent>): seq<byte> {
    if messages == [] then []
    else
      var last := messages[|messages| - 1];
      TextOf(messages[..|messages| - 1]) + (if last.kind == 1 then Flatten(last.pieces) else [])
  }

  // What a caller gets that gets all of them.
  ghost function AllExpected(cfg: Config, q: Utf8.Step, messages: seq<Sent>): seq<Event>
    requires AllFramed(cfg, messages)
  {
    if messages == [] then []
    else
      var front, last := messages[..|messages| - 1], messages[|messages| - 1];
      AllExpected(cfg, q, front) + Expected(cfg, StepOf(q, 1, TextOf(front)), last.kind, last.pieces)
  }

  // No first fragment is too short for what the messages before it have left open.
  ghost predicate Smooth(cfg: Config, q: Utf8.Step, messages: seq<Sent>) {
    forall i :: 0 <= i < |messages| ==>
      !Underflows(cfg, StepOf(q, 1, TextOf(messages[..i])), messages[i].kind, messages[i].pieces)
  }

  // What the run over the frames looks like: all handed out, or failed on the way.
  ghost predicate AllOrFailed(cfg: Config, q: Utf8.Step, r: Run, messages: seq<Sent>)
    requires AllFramed(cfg, messages)
  {
    if Utf8.Check(q, TextOf(messages)).At? && Smooth(cfg, q, messages) then
      r.events == AllExpected(cfg, q, messages) && Between(r.d, 0, [], StepOf(q, 1, TextOf(messages)))
    else r.d == BROKEN && r.events != [] && r.events[|r.events| - 1].Error?
  }

  // What the last of several messages adds.
  lemma TextOfNext(q: Utf8.Step, messages: seq<Sent>)
    requires messages != []
    ensures var front, last := messages[..|messages| - 1], messages[|messages| - 1];
      && (Utf8.Check(q, TextOf(front)).Bad? ==> Utf8.Check(q, TextOf(messages)).Bad?)
      && (Utf8.Check(q, TextOf(front)).At? ==>
            var step := StepOf(q, 1, TextOf(front));
            && (Utf8.Check(q, TextOf(messages)).At? <==> Readable(step, last.kind, Flatten(last.pieces)))
            && (Utf8.Check(q, TextOf(messages)).At? ==>
                  StepOf(q, 1, TextOf(messages)) == StepOf(step, last.kind, Flatten(last.pieces))))
  {
    hide Utf8.Check, Flatten;
    var front, last := messages[..|messages| - 1], messages[|messages| - 1];
    if last.kind == 1 {
      Utf8.CheckConcat(q, TextOf(front), Flatten(last.pieces));
    } else {
      assert TextOf(front) + [] == TextOf(front);
    }
  }

  lemma SmoothNext(cfg: Config, q: Utf8.Step, messages: seq<Sent>)
    requires messages != []
    ensures var front, last := messages[..|messages| - 1], messages[|messages| - 1];
      Smooth(cfg, q, messages) <==>
        && Smooth(cfg, q, front)
        && !Underflows(cfg, StepOf(q, 1, TextOf(front)), last.kind, last.pieces)
  {
    hide StepOf, TextOf, Underflows;
    var front := messages[..|messages| - 1];
    assert forall i :: 0 <= i <= |front| ==> front[..i] == messages[..i];
    assert forall i :: 0 <= i < |front| ==> front[i] == messages[i];
  }

  // One message, text or not.
  lemma EveryMessage(cfg: Config, q: Utf8.Step, d: Decoder, m: Sent)
    requires Framed(cfg, m.kind, m.pieces, m.keys) && Between(d, 0, [], q)
    ensures var r := Stream(cfg, d, Wire(m.kind, m.pieces, m.keys, |m.pieces|));
      if Readable(q, m.kind, Flatten(m.pieces)) && !Underflows(cfg, q, m.kind, m.pieces) then
        r.events == Expected(cfg, q, m.kind, m.pieces) && Between(r.d, 0, [], StepOf(q, m.kind, Flatten(m.pieces)))
      else r.d == BROKEN && r.events != [] && r.events[|r.events| - 1].Error?
  {
    hide Stream, Wire, Flatten, Utf8.Check, Between, Expected, Arrived, Earlier;
    if Readable(q, m.kind, Flatten(m.pieces)) && !Underflows(cfg, q, m.kind, m.pieces) {
      MessageArrives(cfg, q, d, m.kind, m.pieces, m.keys);
    } else {
      FirstPieceChecks(q, m.pieces);
      var _ := TextMessageVerdict(cfg, q, d, m.pieces, m.keys);
    }
  }

  lemma OneMoreMessage(cfg: Config, q: Utf8.Step, r: Run, messages: seq<Sent>)
    requires messages != [] && AllFramed(cfg, messages) && Valid(r.d)
    requires AllOrFailed(cfg, q, r, messages[..|messages| - 1])
    ensures var last := messages[|messages| - 1];
      AllOrFailed(cfg, q, After(r, Stream(cfg, r.d, Wire(last.kind, last.pieces, last.keys, |last.pieces|))), messages)
  {
    hide Stream, Wire, Utf8.Check, Smooth, TextOf, StepOf, Readable, Underflows, Expected, Between, TooBig, Flatten;
    var front, last := messages[..|messages| - 1], messages[|messages| - 1];
    TextOfNext(q, messages);
    SmoothNext(cfg, q, messages);
    if Utf8.Check(q, TextOf(front)).At? && Smooth(cfg, q, front) {
      EveryMessage(cfg, StepOf(q, 1, TextOf(front)), r.d, last);
    } else {
      DeadStaysDead(cfg, Wire(last.kind, last.pieces, last.keys, |last.pieces|));
    }
  }

  lemma {:induction false} MessagesRun(cfg: Config, q: Utf8.Step, d: Decoder, messages: seq<Sent>)
    requires AllFramed(cfg, messages) && Between(d, 0, [], q)
    ensures AllOrFailed(cfg, q, Stream(cfg, d, Frames(cfg, messages)), messages)
    decreases |messages|
  {
    hide Stream, Wire, TooBig;
    if messages == [] {
      StreamNothing(cfg, d, []);
      Utf8.CheckNothing(q, []);
    } else {
      hide AllOrFailed, Between;
      var front, last := messages[..|messages| - 1], messages[|messages| - 1];
      MessagesRun(cfg, q, d, front);
      StreamConcat(cfg, d, Frames(cfg, front), Wire(last.kind, last.pieces, last.keys, |last.pieces|));
      OneMoreMessage(cfg, q, Stream(cfg, d, Frames(cfg, front)), messages);
    }
  }

  lemma AlwaysSmooth(cfg: Config, q: Utf8.Step, messages: seq<Sent>)
    ensures !cfg.wantFragments ==> Smooth(cfg, q, messages)
  {
  }

  lemma AllExpectedEndsWithMessage(cfg: Config, q: Utf8.Step, messages: seq<Sent>)
    requires AllFramed(cfg, messages)
    ensures var events := AllExpected(cfg, q, messages); events != [] ==> events[|events| - 1].Message?
  {
    hide Expected;
    if messages != [] {
      var front, last := messages[..|messages| - 1], messages[|messages| - 1];
      ExpectedEndsWithMessage(cfg, StepOf(q, 1, TextOf(front)), last.kind, last.pieces);
    }
  }

  // The decoder reads the text messages of a connection as one text.  Messages in any
  // number of frames, with binary ones between them, are all handed out exactly if the
  // contents of the text messages, one after the other, are the beginning of some text;
  // a caller that wants fragments also needs first fragments that are not too short.
  lemma MessagesAreOneText(cfg: Config, d: Decoder, messages: seq<Sent>)
    requires AllFramed(cfg, messages) && Between(d, 0, [], Utf8.Normal)
    ensures Stream(cfg, d, Frames(cfg, messages)).events == AllExpected(cfg, Utf8.Normal, messages) <==>
            && (exists more: seq<byte> :: Utf8.IsText(TextOf(messages) + more))
            && Smooth(cfg, Utf8.Normal, messages)
    ensures !cfg.wantFragments ==> Smooth(cfg, Utf8.Normal, messages)
  {
    hide Stream, Utf8.Check, Frames, TextOf, AllExpected, Between, Framed, Smooth;
    MessagesRun(cfg, Utf8.Normal, d, messages);
    Utf8.ReadsExactlyTextPrefixes(TextOf(messages));
    assert Utf8.Check(Utf8.Normal, TextOf(messages)).At? <==>
           exists more: seq<byte> :: Utf8.IsText(TextOf(messages) + more);
    AllExpectedEndsWithMessage(cfg, Utf8.Normal, messages);
    AlwaysSmooth(cfg, Utf8.Normal, messages);
  }

  // A text that is refused because of the message before it.
  lemma GoodTextIsRefused()
    ensures var first, second := Frame(Unfragmented, TEXT, [], [0xC3]), Frame(Unfragmented, TEXT, [], [0x61]);
      Stream(Config(true, false, 0), FRESH, first + second).events ==
      [Message(1, [0xC3]), Error(UTF8_ENCODING_ERROR)]
    ensures Utf8.IsText([0x61])
  {
    hide Stream, Frame;
    var cfg, second := Config(true, false, 0), Frame(Unfragmented, TEXT, [], [0x61]);
    HalfACharacterIsHandedOut();
    var d1 := Stream(cfg, FRESH, Frame(Unfragmented, TEXT, [], [0xC3])).d;
    Utf8.Check1(Utf8.Utf2Tail1Of1, 0x61);
    TextFrameVerdict(cfg, d1, [], [0x61]);
    StreamConcat(cfg, FRESH, Frame(Unfragmented, TEXT, [], [0xC3]), second);
    Utf8.Check1(Utf8.Normal, 0x61);
    Utf8.AcceptsExactlyText([0x61]);
  }

  // --- The first fragment ------------------------------------------------------------------

  // The first fragment of a text message, for a caller that wants fragments.  If the check
  // does not refuse it, it is handed out up to its last finished sequence; but if it does
  // not finish the sequence that earlier messages have left open, then more octets are
  // open than it has, and the code computes a negative length.
  lemma FirstFragmentVerdict(cfg: Config, d: Decoder, key: seq<byte>, payload: seq<byte>)
    requires Takes(cfg, d, First, key, payload) && cfg.wantFragments
    ensures var r, after := Stream(cfg, d, Frame(First, TEXT, key, payload)), Utf8.Check(d.utf8, payload);
      && (r == Run(BROKEN, [Error(UTF8_ENCODING_ERROR)]) <==> after.Bad?)
      && (r == Run(BROKEN, [Error(UNDEFINED)]) <==> after.At? && |payload| < |Utf8.Completion(d.utf8)|)
      && (after.At? && |payload| >= |Utf8.Completion(d.utf8)| ==>
            Utf8.Given(after.step) <= |payload| && Handed(r, 0x11, 1, payload, after.step))
  {
    hide Stream, Utf8.Check, Valid, Frame, Expects;
    TextPartVerdict(cfg, d, First, key, payload);
    assert [] + payload == payload;
    if Utf8.Check(d.utf8, payload).At? {
      Utf8.OpenBeforehand(d.utf8, payload);
    }
  }

  // In terms of octets: after the text message `p` the first fragment `m` makes the code
  // compute a negative length exactly if no part of `m` from its start makes `p` a text.
  lemma UnderflowVerdict(cfg: Config, d: Decoder, pKey: seq<byte>, p: seq<byte>, mKey: seq<byte>, m: seq<byte>)
    requires Takes(cfg, d, Unfragmented, pKey, p) && Takes(cfg, d, First, mKey, m)
    requires cfg.wantFragments && d.utf8 == Utf8.Normal
    requires exists more: seq<byte> :: Utf8.IsText(p + m + more)
    ensures Stream(cfg, d, Frame(Unfragmented, TEXT, pKey, p) + Frame(First, TEXT, mKey, m)).events ==
              [Message(1, p), Error(UNDEFINED)] <==>
            forall k :: 0 <= k <= |m| ==> !Utf8.IsText(p + m[..k])
  {
    hide Stream, Utf8.Check, Frame;
    Utf8.ReadsExactlyTextPrefixes(p + m);
    Utf8.CheckConcat(Utf8.Normal, p, m);
    TextFrameVerdict(cfg, d, pKey, p);
    var d1 := Stream(cfg, d, Frame(Unfragmented, TEXT, pKey, p)).d;
    FirstFragmentVerdict(cfg, d1, mKey, m);
    StreamConcat(cfg, d, Frame(Unfragmented, TEXT, pKey, p), Frame(First, TEXT, mKey, m));
    FinishesWithin(p, m);
    var second := Stream(cfg, d1, Frame(First, TEXT, mKey, m)).events;
    assert ([Message(1, p)] + second)[1..] == second;
    assert [Message(1, p), Error(UNDEFINED)][1..] == [Error(UNDEFINED)];
  }

  // `m` finishes what `p` leaves open if and only if some part of it from its start does.
  lemma FinishesWithin(p: seq<byte>, m: seq<byte>)
    requires Utf8.Check(Utf8.Normal, p).At? && Utf8.Check(Utf8.Check(Utf8.Normal, p).step, m).At?
    ensures |m| < |Utf8.Completion(Utf8.Check(Utf8.Normal, p).step)| <==>
            forall k :: 0 <= k <= |m| ==> !Utf8.IsText(p + m[..k])
  {
    hide Utf8.Check;
    var step := Utf8.Check(Utf8.Normal, p).step;
    var n := |Utf8.Completion(step)|;
    assert m[..|m|] == m;
    if |m| < n {
      forall k | 0 <= k <= |m| ensures !Utf8.IsText(p + m[..k]) {
        Utf8.PrefixGood(step, m, k, |m|);
        Utf8.WithinSequence(step, m[..k]);
        Utf8.CheckConcat(Utf8.Normal, p, m[..k]);
        Utf8.AcceptsExactlyText(p + m[..k]);
      }
    } else {
      Utf8.PrefixGood(step, m, n, |m|);
      Utf8.WithinSequence(step, m[..n]);
      Utf8.CheckConcat(Utf8.Normal, p, m[..n]);
      Utf8.AcceptsExactlyText(p + m[..n]);
    }
  }

  // Half a character, and then a text message whose first fragment is empty.
  lemma EmptyFragmentUnderflows()
    ensures var half, empty := Frame(Unfragmented, TEXT, [], [0xC3]), Frame(First, TEXT, [], []);
      && empty == [0x01, 0x00]
      && Stream(Config(true, true, 0), FRESH, half + empty).events == [Message(1, [0xC3]), Error(UNDEFINED)]
  {
    hide Stream, Utf8.Check;
    Utf8.Check1(Utf8.Normal, 0xC3);
    Utf8.Check2(Utf8.Normal, 0xC3, 0x80);
    Utf8.AcceptsExactlyText([0xC3, 0x80]);
    Utf8.AcceptsExactlyText([0xC3]);
    assert [0xC3] + [] + [0x80] == [0xC3, 0x80] && [0xC3] + [] == [0xC3];
    UnderflowVerdict(Config(true, true, 0), FRESH, [], [0xC3], [], []);
  }
}
