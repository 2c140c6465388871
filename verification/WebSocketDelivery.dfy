// A whole message, sent in any number of frames and cut into any buffers, arrives.
module WebSocketDelivery {
  import opened Bytes
  import Utf8
  import opened WebSocketFrame
  import opened WebSocketDecoder
  import opened WebSocketRuns
  import opened WebSocketMessages

  // The fragmentation argument for piece number `i` of `n`.
  function RoleOf(i: nat, n: nat): Fragmentation {
    if n == 1 then Unfragmented
    else if i == 0 then First
    else if i == n - 1 then Last
    else Following
  }

  // The first `k` frames of a message of type `kind`.
  function Wire(kind: byte, pieces: seq<seq<byte>>, keys: seq<seq<byte>>, k: nat): seq<byte>
    requires kind < 16 && k <= |pieces| == |keys|
    requires forall i :: 0 <= i < |keys| ==> keys[i] == [] || IsKey(keys[i])
  {
    if k == 0 then []
    else Wire(kind, pieces, keys, k - 1) + Frame(RoleOf(k - 1, |pieces|), kind, keys[k - 1], pieces[k - 1])
  }

  // A message in frames that are masked as the receiver's role demands and within the
  // limits of size.
  ghost predicate Framed(cfg: Config, kind: byte, pieces: seq<seq<byte>>, keys: seq<seq<byte>>) {
    && 1 <= kind <= 2 && pieces != [] && |keys| == |pieces|
    && (forall i :: 0 <= i < |keys| ==> cfg.client == (keys[i] == []) && (keys[i] == [] || IsKey(keys[i])))
    && |Flatten(pieces)| <= 0x7fffffffffffffff && !TooBig(cfg, |Flatten(pieces)|)
  }

  // The check does not refuse `t`, if it is text, from the step `q`; from NORMAL that is
  // the beginning of some text.
  predicate Readable(q: Utf8.Step, kind: byte, t: seq<byte>) {
    kind == 1 ==> Utf8.Check(q, t).At?
  }

  // More octets of a sequence are open after the first fragment than it has.
  predicate Underflows(cfg: Config, q: Utf8.Step, kind: byte, pieces: seq<seq<byte>>) {
    cfg.wantFragments && kind == 1 && |pieces| > 1 && |pieces[0]| < |Utf8.Completion(q)|
  }

  // A message that a receiver accepts that has kept the step `q` of earlier messages.
  ghost predicate Deliverable(cfg: Config, q: Utf8.Step, kind: byte, pieces: seq<seq<byte>>, keys: seq<seq<byte>>) {
    Framed(cfg, kind, pieces, keys) && Readable(q, kind, Flatten(pieces)) && !Underflows(cfg, q, kind, pieces)
  }

  function StepOf(q: Utf8.Step, kind: byte, t: seq<byte>): Utf8.Step {
    if kind == 1 && Utf8.Check(q, t).At? then Utf8.Check(q, t).step else q
  }

  // How much of `t` has been handed out when `t` has arrived and more is to come.
  function Cut(cfg: Config, q: Utf8.Step, kind: byte, t: seq<byte>): (cut: nat)
    ensures cut <= |t|
  {
    var open := Carry(kind, StepOf(q, kind, t));
    if cfg.wantFragments && open <= |t| then |t| - open else 0
  }

  // What has arrived with the first `k` pieces.
  function Arrived(pieces: seq<seq<byte>>, k: nat): seq<byte>
    requires k <= |pieces|
  {
    Flatten(pieces[..k])
  }

  lemma ArrivedNext(pieces: seq<seq<byte>>, k: nat)
    requires k < |pieces|
    ensures Arrived(pieces, k + 1) == Arrived(pieces, k) + pieces[k]
  {
    assert pieces[..k + 1][..k] == pieces[..k];
  }

  lemma {:induction false} ArrivedIsPrefix(pieces: seq<seq<byte>>, k: nat)
    requires k <= |pieces|
    ensures Arrived(pieces, k) <= Flatten(pieces)
    decreases |pieces| - k
  {
    if k == |pieces| {
      assert pieces[..k] == pieces;
    } else {
      ArrivedIsPrefix(pieces, k + 1);
      ArrivedNext(pieces, k);
    }
  }

  lemma {:induction false} FirstArrives(pieces: seq<seq<byte>>, k: nat)
    requires 1 <= k <= |pieces|
    ensures |pieces[0]| <= |Arrived(pieces, k)|
  {
    ArrivedNext(pieces, k - 1);
    if k > 1 {
      FirstArrives(pieces, k - 1);
    }
  }

  lemma TextPrefixChecks(q: Utf8.Step, t: seq<byte>, p: seq<byte>)
    requires Utf8.Check(q, t).At? && p <= t
    ensures Utf8.Check(q, p).At?
  {
    assert p + t[|p|..] == t;
    Utf8.CheckConcat(q, p, t[|p|..]);
  }

  // Every part of a readable message from its start is readable.
  lemma ReadablePart(q: Utf8.Step, kind: byte, pieces: seq<seq<byte>>, k: nat)
    requires k <= |pieces| && Readable(q, kind, Flatten(pieces))
    ensures Readable(q, kind, Arrived(pieces, k))
  {
    hide Utf8.Check, Arrived, Flatten;
    ArrivedIsPrefix(pieces, k);
    if kind == 1 {
      TextPrefixChecks(q, Flatten(pieces), Arrived(pieces, k));
    }
  }

  // After the first piece no more octets are open than have arrived, unless the length
  // gets negative there.
  lemma CarryFits(cfg: Config, q: Utf8.Step, kind: byte, pieces: seq<seq<byte>>, k: nat)
    requires cfg.wantFragments && 1 <= k < |pieces| && !Underflows(cfg, q, kind, pieces)
    requires Readable(q, kind, Arrived(pieces, k))
    ensures Carry(kind, StepOf(q, kind, Arrived(pieces, k))) <= |Arrived(pieces, k)|
  {
    hide Utf8.Check, Arrived;
    FirstArrives(pieces, k);
    if kind == 1 {
      Utf8.OpenBeforehand(q, Arrived(pieces, k));
    }
  }

  // The messages handed out for the first `k` of several pieces.
  function Handouts(cfg: Config, q: Utf8.Step, kind: byte, pieces: seq<seq<byte>>, k: nat): seq<Event>
    requires k <= |pieces|
  {
    if k == 0 then []
    else
      var from, to := Cut(cfg, q, kind, Arrived(pieces, k - 1)), Cut(cfg, q, kind, Arrived(pieces, k));
      Handouts(cfg, q, kind, pieces, k - 1) +
      [Message(kind + (if k == 1 then 0x10 else 0x20), Slice(Arrived(pieces, k), from, to))]
  }

  function Slice(s: seq<byte>, lo: nat, hi: nat): seq<byte> {
    if lo <= hi <= |s| then s[lo..hi] else []
  }

  // What the caller has got after the first `k` pieces, with more to come.
  function Earlier(cfg: Config, q: Utf8.Step, kind: byte, pieces: seq<seq<byte>>, k: nat): seq<Event>
    requires k <= |pieces|
  {
    if cfg.wantFragments then Handouts(cfg, q, kind, pieces, k) else []
  }

  // The receiver after the first `k` frames of a message with more to come.
  ghost predicate Midway(cfg: Config, q: Utf8.Step, r: Run, kind: byte, pieces: seq<seq<byte>>, k: nat)
    requires k <= |pieces|
  {
    var t := Arrived(pieces, k);
    && Between(r.d, if k == 0 then 0 else kind, t[Cut(cfg, q, kind, t)..], StepOf(q, kind, t))
    && r.events == Earlier(cfg, q, kind, pieces, k)
  }

  // What the check makes of piece `k`.
  lemma PieceChecks(q: Utf8.Step, kind: byte, pieces: seq<seq<byte>>, k: nat, next: nat)
    requires next == k + 1 <= |pieces| && Readable(q, kind, Arrived(pieces, k))
    ensures kind == 1 ==> Utf8.Check(StepOf(q, kind, Arrived(pieces, k)), pieces[k]) ==
                          Utf8.Check(q, Arrived(pieces, next))
  {
    hide Utf8.Check, Arrived;
    ArrivedNext(pieces, k);
    if kind == 1 {
      Utf8.CheckConcat(q, Arrived(pieces, k), pieces[k]);
    }
  }

  lemma TailGrows(t: seq<byte>, more: seq<byte>, cut: nat)
    requires cut <= |t|
    ensures t[cut..] + more == (t + more)[cut..]
  {
  }

  // The decoder expects piece `k` after those before it.
  lemma PieceExpected(cfg: Config, q: Utf8.Step, r: Run, kind: byte, pieces: seq<seq<byte>>, keys: seq<seq<byte>>,
                      k: nat, next: nat)
    requires Framed(cfg, kind, pieces, keys) && next == k + 1 <= |pieces| && Midway(cfg, q, r, kind, pieces, k)
    ensures Arrived(pieces, k) <= Arrived(pieces, next)
    ensures var role := RoleOf(k, |pieces|);
      && Expects(cfg, r.d, role, kind, keys[k], pieces[k])
      && MessageType(r.d, role, kind) == kind
      && Before(r.d, role) + pieces[k] == Arrived(pieces, next)[Cut(cfg, q, kind, Arrived(pieces, k))..]
      && r.d.utf8 == StepOf(q, kind, Arrived(pieces, k))
  {
    NothingArrived(pieces, k);
    hide Flatten, Arrived, StepOf, Carry;
    ArrivedNext(pieces, k);
    ArrivedIsPrefix(pieces, next);
    var t, t' := Arrived(pieces, k), Arrived(pieces, next);
    TailGrows(t, pieces[k], Cut(cfg, q, kind, t));
    assert |t'| <= |Flatten(pieces)|;
  }

  lemma PieceReceivable(cfg: Config, q: Utf8.Step, r: Run, kind: byte, pieces: seq<seq<byte>>, keys: seq<seq<byte>>,
                        k: nat, next: nat)
    requires Framed(cfg, kind, pieces, keys) && next == k + 1 <= |pieces| && Midway(cfg, q, r, kind, pieces, k)
    requires Readable(q, kind, Arrived(pieces, k)) && Readable(q, kind, Arrived(pieces, next))
    ensures var role := RoleOf(k, |pieces|);
      && Receivable(cfg, r.d, role, kind, keys[k], pieces[k])
      && StepAfter(r.d, role, kind, pieces[k]) == StepOf(q, kind, Arrived(pieces, next))
  {
    NothingArrived(pieces, k);
    hide Arrived, Utf8.Check, Expects, Framed, Midway, Cut, Before;
    PieceExpected(cfg, q, r, kind, pieces, keys, k, next);
    PieceChecks(q, kind, pieces, k, next);
  }

  lemma MidwayHanded(cfg: Config, q: Utf8.Step, r: Run, r': Run, kind: byte, pieces: seq<seq<byte>>, k: nat,
                     next: nat, t: seq<byte>, t': seq<byte>)
    requires next == k + 1 <= |pieces| && cfg.wantFragments && Midway(cfg, q, r, kind, pieces, k)
    requires t == Arrived(pieces, k) && t' == Arrived(pieces, next) && t <= t'
    requires Carry(kind, StepOf(q, kind, t')) <= |t'[Cut(cfg, q, kind, t)..]|
    requires Handed(r', kind + (if k == 0 then 0x10 else 0x20), kind, t'[Cut(cfg, q, kind, t)..], StepOf(q, kind, t'))
    ensures Midway(cfg, q, After(r, r'), kind, pieces, next)
  {
    hide Arrived, StepOf, Valid;
    var from, to := Cut(cfg, q, kind, t), Cut(cfg, q, kind, t');
    var content := t'[from..];
    assert content[..to - from] == t'[from..to] && content[to - from..] == t'[to..];
  }

  lemma MidwayKept(cfg: Config, q: Utf8.Step, r: Run, r': Run, kind: byte, pieces: seq<seq<byte>>, k: nat, next: nat,
                   t': seq<byte>)
    requires next == k + 1 <= |pieces| && !cfg.wantFragments && Midway(cfg, q, r, kind, pieces, k)
    requires t' == Arrived(pieces, next) && r'.events == [] && Between(r'.d, kind, t'[0..], StepOf(q, kind, t'))
    ensures Midway(cfg, q, After(r, r'), kind, pieces, next)
  {
    hide Arrived, StepOf, Valid;
  }

  // What is still there with piece `k` has the octets that it leaves open.
  lemma OpenIsKept(cfg: Config, q: Utf8.Step, kind: byte, pieces: seq<seq<byte>>, k: nat, next: nat)
    requires next == k + 1 < |pieces| && cfg.wantFragments && !Underflows(cfg, q, kind, pieces)
    requires Readable(q, kind, Arrived(pieces, k)) && Readable(q, kind, Arrived(pieces, next))
    ensures Cut(cfg, q, kind, Arrived(pieces, k)) <= Cut(cfg, q, kind, Arrived(pieces, next))
    ensures Carry(kind, StepOf(q, kind, Arrived(pieces, next))) <=
            |Arrived(pieces, next)| - Cut(cfg, q, kind, Arrived(pieces, k))
  {
    NothingArrived(pieces, k);
    hide Arrived, Utf8.Check;
    ArrivedNext(pieces, k);
    CarryFits(cfg, q, kind, pieces, next);
    if k > 0 {
      CarryFits(cfg, q, kind, pieces, k);
      PieceChecks(q, kind, pieces, k, next);
      if kind == 1 {
        GivenGrowsSlowly(StepOf(q, kind, Arrived(pieces, k)), pieces[k]);
      }
    }
  }

  lemma {:induction false} GivenGrowsSlowly(step: Utf8.Step, s: seq<byte>)
    requires Utf8.Check(step, s).At?
    ensures Utf8.Given(Utf8.Check(step, s).step) <= Utf8.Given(step) + |s|
  {
    if s != [] {
      GivenGrowsSlowly(step, s[..|s| - 1]);
    }
  }

  // One more frame, with more to come.
  lemma MidwayNext(cfg: Config, q: Utf8.Step, r: Run, kind: byte, pieces: seq<seq<byte>>, keys: seq<seq<byte>>,
                   k: nat, next: nat)
    requires next == k + 1 < |pieces| && Framed(cfg, kind, pieces, keys) && Midway(cfg, q, r, kind, pieces, k)
    requires !Underflows(cfg, q, kind, pieces)
    requires Readable(q, kind, Arrived(pieces, k)) && Readable(q, kind, Arrived(pieces, next))
    ensures Midway(cfg, q, After(r, Stream(cfg, r.d, Frame(RoleOf(k, |pieces|), kind, keys[k], pieces[k]))),
                   kind, pieces, next)
  {
    hide Stream, Arrived, StepOf, Valid, Frame, Utf8.Check;
    PieceReceivable(cfg, q, r, kind, pieces, keys, k, next);
    PieceExpected(cfg, q, r, kind, pieces, keys, k, next);
    var role := RoleOf(k, |pieces|);
    var t, t' := Arrived(pieces, k), Arrived(pieces, next);
    var r' := Stream(cfg, r.d, Frame(role, kind, keys[k], pieces[k]));
    if cfg.wantFragments {
      OpenIsKept(cfg, q, kind, pieces, k, next);
      HandedFrame(cfg, r.d, role, kind, keys[k], pieces[k], kind, StepOf(q, kind, t'));
      MidwayHanded(cfg, q, r, r', kind, pieces, k, next, t, t');
    } else {
      KeptFrame(cfg, r.d, role, kind, keys[k], pieces[k]);
      MidwayKept(cfg, q, r, r', kind, pieces, k, next, t');
    }
  }

  lemma WireNext(cfg: Config, d: Decoder, kind: byte, pieces: seq<seq<byte>>, keys: seq<seq<byte>>, k: nat,
                 next: nat)
    requires Valid(d) && kind < 16 && k < |pieces| == |keys| && next == k + 1
    requires forall i :: 0 <= i < |keys| ==> keys[i] == [] || IsKey(keys[i])
    ensures var r := Stream(cfg, d, Wire(kind, pieces, keys, k));
      Stream(cfg, d, Wire(kind, pieces, keys, next)) ==
        After(r, Stream(cfg, r.d, Frame(RoleOf(k, |pieces|), kind, keys[k], pieces[k])))
  {
    hide Stream;
    StreamConcat(cfg, d, Wire(kind, pieces, keys, k), Frame(RoleOf(k, |pieces|), kind, keys[k], pieces[k]));
  }

  lemma MidwayStart(cfg: Config, q: Utf8.Step, d: Decoder, kind: byte, pieces: seq<seq<byte>>, k: nat)
    requires Between(d, 0, [], q) && k == 0
    ensures Midway(cfg, q, Run(d, []), kind, pieces, k)
  {
    NothingArrived(pieces, k);
    hide Utf8.Check, Flatten, Arrived, Valid;
    Utf8.CheckNothing(q, Arrived(pieces, k));
  }

  lemma NothingArrived(pieces: seq<seq<byte>>, k: nat)
    requires k <= |pieces|
    ensures k == 0 ==> Arrived(pieces, k) == []
  {
  }

  // The run `r` over the first `k` frames has got midway.
  ghost predicate Reached(cfg: Config, q: Utf8.Step, d: Decoder, r: Run, kind: byte, pieces: seq<seq<byte>>,
                          keys: seq<seq<byte>>, k: nat)
  {
    && Framed(cfg, kind, pieces, keys) && k < |pieces| && Valid(d)
    && r == Stream(cfg, d, Wire(kind, pieces, keys, k)) && Midway(cfg, q, r, kind, pieces, k)
  }

  lemma ReachedStart(cfg: Config, q: Utf8.Step, d: Decoder, kind: byte, pieces: seq<seq<byte>>,
                     keys: seq<seq<byte>>, k: nat) returns (r: Run)
    requires Framed(cfg, kind, pieces, keys) && k == 0 && Between(d, 0, [], q)
    ensures Reached(cfg, q, d, r, kind, pieces, keys, k)
  {
    hide Midway, Arrived, Stream;
    StreamNothing(cfg, d, Wire(kind, pieces, keys, k));
    MidwayStart(cfg, q, d, kind, pieces, k);
    r := Run(d, []);
  }

  lemma ReachedNext(cfg: Config, q: Utf8.Step, d: Decoder, r: Run, kind: byte, pieces: seq<seq<byte>>,
                    keys: seq<seq<byte>>, k: nat, next: nat) returns (r': Run)
    requires Reached(cfg, q, d, r, kind, pieces, keys, k) && next == k + 1 < |pieces|
    requires !Underflows(cfg, q, kind, pieces)
    requires Readable(q, kind, Arrived(pieces, k)) && Readable(q, kind, Arrived(pieces, next))
    ensures Reached(cfg, q, d, r', kind, pieces, keys, next)
  {
    hide Stream, Midway, Readable, Arrived, Underflows;
    WireNext(cfg, d, kind, pieces, keys, k, next);
    MidwayNext(cfg, q, r, kind, pieces, keys, k, next);
    r' := After(r, Stream(cfg, r.d, Frame(RoleOf(k, |pieces|), kind, keys[k], pieces[k])));
  }

  lemma ReadableBefore(q: Utf8.Step, kind: byte, pieces: seq<seq<byte>>, k: nat, next: nat)
    requires next == k + 1 <= |pieces| && Readable(q, kind, Arrived(pieces, next))
    ensures Readable(q, kind, Arrived(pieces, k))
  {
    hide Utf8.Check, Arrived;
    ArrivedNext(pieces, k);
    if kind == 1 {
      TextPrefixChecks(q, Arrived(pieces, next), Arrived(pieces, k));
    }
  }

  lemma {:induction false} MidwayAll(cfg: Config, q: Utf8.Step, d: Decoder, kind: byte, pieces: seq<seq<byte>>,
                                     keys: seq<seq<byte>>, k: nat) returns (r: Run)
    requires Framed(cfg, kind, pieces, keys) && k < |pieces| && Between(d, 0, [], q)
    requires Readable(q, kind, Arrived(pieces, k)) && (k > 0 ==> !Underflows(cfg, q, kind, pieces))
    ensures Reached(cfg, q, d, r, kind, pieces, keys, k)
  {
    hide Stream, Framed, Arrived, Readable, Reached, Underflows, Between;
    if k == 0 {
      r := ReachedStart(cfg, q, d, kind, pieces, keys, k);
    } else {
      ReadableBefore(q, kind, pieces, k - 1, k);
      r := MidwayAll(cfg, q, d, kind, pieces, keys, k - 1);
      r := ReachedNext(cfg, q, d, r, kind, pieces, keys, k - 1, k);
    }
  }

  // The messages the caller gets for the whole of `pieces`.
  function Expected(cfg: Config, q: Utf8.Step, kind: byte, pieces: seq<seq<byte>>): seq<Event>
    requires pieces != []
  {
    var n := |pieces|;
    if cfg.wantFragments then
      var from := Cut(cfg, q, kind, Arrived(pieces, n - 1));
      Handouts(cfg, q, kind, pieces, n - 1) +
      [Message(kind + (if n == 1 then 0 else 0x40), Slice(Flatten(pieces), from, |Flatten(pieces)|))]
    else [Message(kind, Flatten(pieces))]
  }

  // The last frame completes what is expected.
  lemma ExpectedLast(cfg: Config, q: Utf8.Step, kind: byte, pieces: seq<seq<byte>>, earlier: seq<Event>,
                     content: seq<byte>)
    requires pieces != []
    requires var n, all := |pieces| - 1, Flatten(pieces);
      var cut := Cut(cfg, q, kind, Arrived(pieces, n));
      cut <= |all| && content == all[cut..] && earlier == Earlier(cfg, q, kind, pieces, n)
    ensures earlier + [Message(kind + (if cfg.wantFragments && RoleOf(|pieces| - 1, |pieces|).Last? then 0x40 else 0),
                               content)]
            == Expected(cfg, q, kind, pieces)
  {
    hide Flatten, Arrived, Utf8.Check;
    var all := Flatten(pieces);
    assert all[0..] == all;
    assert content == all[|all| - |content|..|all|];
  }

  lemma LastCompletes(cfg: Config, q: Utf8.Step, r: Run, r': Run, kind: byte, pieces: seq<seq<byte>>,
                      content: seq<byte>)
    requires pieces != [] && Midway(cfg, q, r, kind, pieces, |pieces| - 1)
    requires var n, all := |pieces| - 1, Flatten(pieces);
      var cut := Cut(cfg, q, kind, Arrived(pieces, n));
      && cut <= |all| && content == all[cut..]
      && Between(r'.d, 0, [], StepOf(q, kind, all))
      && r'.events == [Message(kind + (if cfg.wantFragments && RoleOf(n, |pieces|).Last? then 0x40 else 0), content)]
    ensures Between(After(r, r').d, 0, [], StepOf(q, kind, Flatten(pieces)))
    ensures After(r, r').events == Expected(cfg, q, kind, pieces)
  {
    hide Arrived, Flatten, StepOf, Cut, Valid, Earlier, Expected;
    ExpectedLast(cfg, q, kind, pieces, r.events, content);
  }

  lemma AllArrived(pieces: seq<seq<byte>>)
    ensures Arrived(pieces, |pieces|) == Flatten(pieces)
  {
    assert pieces[..|pieces|] == pieces;
  }

  lemma LastPiece(cfg: Config, q: Utf8.Step, r: Run, kind: byte, pieces: seq<seq<byte>>, keys: seq<seq<byte>>)
    requires Framed(cfg, kind, pieces, keys) && Readable(q, kind, Flatten(pieces))
    requires Midway(cfg, q, r, kind, pieces, |pieces| - 1)
    ensures var n := |pieces| - 1;
      var r' := After(r, Stream(cfg, r.d, Frame(RoleOf(n, |pieces|), kind, keys[n], pieces[n])));
      Between(r'.d, 0, [], StepOf(q, kind, Flatten(pieces))) && r'.events == Expected(cfg, q, kind, pieces)
  {
    hide Stream, Utf8.Check, Arrived, Flatten, StepOf, Cut, Expected;
    var n := |pieces| - 1;
    var role := RoleOf(n, |pieces|);
    AllArrived(pieces);
    ReadableBefore(q, kind, pieces, n, |pieces|);
    PieceReceivable(cfg, q, r, kind, pieces, keys, n, |pieces|);
    PieceExpected(cfg, q, r, kind, pieces, keys, n, |pieces|);
    FinalFrame(cfg, r.d, role, kind, keys[n], pieces[n]);
    LastCompletes(cfg, q, r, Stream(cfg, r.d, Frame(role, kind, keys[n], pieces[n])), kind, pieces,
                  Before(r.d, role) + pieces[n]);
  }

  // A message sent in any number of frames is received as it was sent, whatever step the
  // decoder has kept from earlier ones.  It leaves the step behind that the check reaches;
  // after NORMAL that is NORMAL again exactly if the message is text.
  lemma MessageArrives(cfg: Config, q: Utf8.Step, d: Decoder, kind: byte, pieces: seq<seq<byte>>, keys: seq<seq<byte>>)
    requires Deliverable(cfg, q, kind, pieces, keys) && Between(d, 0, [], q)
    ensures var r := Stream(cfg, d, Wire(kind, pieces, keys, |pieces|));
      Between(r.d, 0, [], StepOf(q, kind, Flatten(pieces))) && r.events == Expected(cfg, q, kind, pieces)
    ensures kind == 1 && q == Utf8.Normal ==>
              (StepOf(q, kind, Flatten(pieces)) == Utf8.Normal <==> Utf8.IsText(Flatten(pieces)))
  {
    hide Stream, Utf8.Check, Arrived, Flatten, Midway;
    var n := |pieces| - 1;
    AllArrived(pieces);
    ReadableBefore(q, kind, pieces, n, |pieces|);
    Utf8.AcceptsExactlyText(Flatten(pieces));
    var r := MidwayAll(cfg, q, d, kind, pieces, keys, n);
    LastPiece(cfg, q, r, kind, pieces, keys);
    WireNext(cfg, d, kind, pieces, keys, n, |pieces|);
  }

  function Payloads(events: seq<Event>): seq<byte> {
    if events == [] then []
    else
      var last := events[|events| - 1];
      Payloads(events[..|events| - 1]) + (if last.Message? then last.payload else [])
  }

  lemma SliceJoins(t: seq<byte>, t': seq<byte>, lo: nat, hi: nat)
    requires t <= t' && lo <= |t| && lo <= hi <= |t'|
    ensures t[..lo] + Slice(t', lo, hi) == t'[..hi]
  {
  }

  lemma NoHandouts(cfg: Config, q: Utf8.Step, kind: byte, pieces: seq<seq<byte>>)
    ensures Handouts(cfg, q, kind, pieces, 0) == Earlier(cfg, q, kind, pieces, 0) == [] && Payloads([]) == []
  {
  }

  lemma HandoutsNext(cfg: Config, q: Utf8.Step, kind: byte, pieces: seq<seq<byte>>, k: nat, next: nat)
    requires next == k + 1 <= |pieces|
    ensures var t, t' := Arrived(pieces, k), Arrived(pieces, next);
      Handouts(cfg, q, kind, pieces, next) == Handouts(cfg, q, kind, pieces, k) +
        [Message(kind + (if k == 0 then 0x10 else 0x20), Slice(t', Cut(cfg, q, kind, t), Cut(cfg, q, kind, t')))]
  {
  }

  lemma {:induction false} HandoutsJoin(cfg: Config, q: Utf8.Step, kind: byte, pieces: seq<seq<byte>>,
                                        keys: seq<seq<byte>>, k: nat)
    requires Deliverable(cfg, q, kind, pieces, keys) && cfg.wantFragments && k < |pieces|
    ensures var t := Arrived(pieces, k);
      && |Handouts(cfg, q, kind, pieces, k)| == k
      && Payloads(Handouts(cfg, q, kind, pieces, k)) == t[..Cut(cfg, q, kind, t)]
  {
    hide Arrived, Utf8.Check, Flatten, Cut, Framed, Readable, Payloads, Handouts;
    NothingArrived(pieces, k);
    NoHandouts(cfg, q, kind, pieces);
    if k > 0 {
      HandoutsNext(cfg, q, kind, pieces, k - 1, k);
      HandoutsJoin(cfg, q, kind, pieces, keys, k - 1);
      HandoutsJoinNext(cfg, q, kind, pieces, keys, k - 1, k);
    }
  }

  lemma HandoutsJoinNext(cfg: Config, q: Utf8.Step, kind: byte, pieces: seq<seq<byte>>, keys: seq<seq<byte>>,
                         k: nat, next: nat)
    requires Deliverable(cfg, q, kind, pieces, keys) && cfg.wantFragments && next == k + 1 < |pieces|
    requires Payloads(Handouts(cfg, q, kind, pieces, k)) == Arrived(pieces, k)[..Cut(cfg, q, kind, Arrived(pieces, k))]
    ensures var t := Arrived(pieces, next);
      Payloads(Handouts(cfg, q, kind, pieces, next)) == t[..Cut(cfg, q, kind, t)]
  {
    HandoutsNext(cfg, q, kind, pieces, k, next);
    hide Arrived, Cut, Utf8.Check, Flatten, Readable, Payloads, Handouts, Slice, Framed;
    ReadablePart(q, kind, pieces, k);
    ReadablePart(q, kind, pieces, next);
    OpenIsKept(cfg, q, kind, pieces, k, next);
    ArrivedNext(pieces, k);
    var t, t' := Arrived(pieces, k), Arrived(pieces, next);
    var from, to := Cut(cfg, q, kind, t), Cut(cfg, q, kind, t');
    SliceJoins(t, t', from, to);
    PayloadsAppend(Handouts(cfg, q, kind, pieces, k), kind + (if k == 0 then 0x10 else 0x20), Slice(t', from, to));
  }

  lemma PayloadsAppend(front: seq<Event>, status: nat, payload: seq<byte>)
    ensures Payloads(front + [Message(status, payload)]) == Payloads(front) + payload
  {
    assert (front + [Message(status, payload)])[..|front|] == front;
  }

  // The pieces handed out add up to the message.
  lemma ExpectedJoins(cfg: Config, q: Utf8.Step, kind: byte, pieces: seq<seq<byte>>, keys: seq<seq<byte>>)
    requires Deliverable(cfg, q, kind, pieces, keys)
    ensures Payloads(Expected(cfg, q, kind, pieces)) == Flatten(pieces)
  {
    hide Flatten, Utf8.Check, Handouts, Arrived, Cut, Slice, Payloads;
    var n, all := |pieces|, Flatten(pieces);
    if cfg.wantFragments {
      HandoutsJoin(cfg, q, kind, pieces, keys, n - 1);
      ArrivedIsPrefix(pieces, n - 1);
      var t := Arrived(pieces, n - 1);
      var cut := Cut(cfg, q, kind, t);
      SliceJoins(t, all, cut, |all|);
      PayloadsAppend(Handouts(cfg, q, kind, pieces, n - 1), kind + (if n == 1 then 0 else 0x40),
                     Slice(all, cut, |all|));
    } else {
      PayloadsAppend([], kind, all);
      NoHandouts(cfg, q, kind, pieces);
      assert [] + [Message(kind, all)] == [Message(kind, all)];
    }
  }

  // Every text fragment but the last one ends between two characters, as late as
  // possible: at most three octets are held back, and holding back fewer would
  // hand out half a character.  If earlier messages ended with `p` since the check was
  // last at NORMAL, that is so of `p` and what follows it together.
  lemma FragmentsEndBetweenCharacters(cfg: Config, p: seq<byte>, pieces: seq<seq<byte>>, keys: seq<seq<byte>>,
                                      k: nat)
    requires Utf8.Check(Utf8.Normal, p).At? && cfg.wantFragments && k < |pieces|
    requires Deliverable(cfg, Utf8.Check(Utf8.Normal, p).step, 1, pieces, keys) && (p == [] || k > 0)
    ensures var q := Utf8.Check(Utf8.Normal, p).step;
      var given, t := Payloads(Handouts(cfg, q, 1, pieces, k)), Arrived(pieces, k);
      && given <= t && |t| - |given| <= 3 && Utf8.IsText(p + given)
      && (forall m :: |given| < m <= |t| ==> !Utf8.IsText(p + t[..m]))
  {
    hide Utf8.Check, Arrived, Flatten, Handouts, Payloads, Framed, Utf8.Completion;
    var q, t := Utf8.Check(Utf8.Normal, p).step, Arrived(pieces, k);
    HandoutsJoin(cfg, q, 1, pieces, keys, k);
    ReadablePart(q, 1, pieces, k);
    if k > 0 {
      CarryFits(cfg, q, 1, pieces, k);
    } else {
      NothingArrived(pieces, k);
      Utf8.CheckNothing(Utf8.Normal, []);
    }
    CutBehind(p, t);
  }

  lemma CutBehind(p: seq<byte>, t: seq<byte>)
    requires Utf8.Check(Utf8.Normal, p).At? && Utf8.Check(Utf8.Check(Utf8.Normal, p).step, t).At?
    requires Utf8.Given(Utf8.Check(Utf8.Check(Utf8.Normal, p).step, t).step) <= |t|
    ensures var cut := |t| - Utf8.Given(Utf8.Check(Utf8.Check(Utf8.Normal, p).step, t).step);
      |t| - cut <= 3 && Utf8.IsText(p + t[..cut]) && forall m :: cut < m <= |t| ==> !Utf8.IsText(p + t[..m])
  {
    hide Utf8.Check, Utf8.IsText;
    Utf8.CheckConcat(Utf8.Normal, p, t);
    Utf8.LongestTextPrefix(p + t);
    PartsBehind(p, t);
  }

  lemma PartsBehind(p: seq<byte>, t: seq<byte>)
    ensures forall m :: 0 <= m <= |t| ==> (p + t)[..|p| + m] == p + t[..m]
  {
  }

  // From the sender's pieces to the receiver's messages, over any segmentation of
  // the octets in between.
  lemma EndToEnd(cfg: Config, kind: byte, pieces: seq<seq<byte>>, keys: seq<seq<byte>>, chunks: seq<seq<byte>>)
    requires Deliverable(cfg, Utf8.Normal, kind, pieces, keys)
    requires Flatten(chunks) == Wire(kind, pieces, keys, |pieces|)
    ensures var r := Receive(cfg, FRESH, chunks);
      r.events == Expected(cfg, Utf8.Normal, kind, pieces) && Payloads(r.events) == Flatten(pieces)
  {
    hide Stream;
    MessageArrives(cfg, Utf8.Normal, FRESH, kind, pieces, keys);
    CutsInDataDoNotMatter(cfg, FRESH, chunks);
    ExpectedJoins(cfg, Utf8.Normal, kind, pieces, keys);
  }
}
