// What the steps of module Connections do, in terms of lists and fields: where the
// connection is afterwards, what its fields are, and that nothing else has changed.
module ConnectionEffects {
  import opened Connections
  import opened Lists
  import opened Options

  // Connection `c` now sits at `to` and has the fields `k`; everybody else is as before.
  ghost predicate Only(d: Daemon, d': Daemon, c: Id, to: Seat, k: Connection) {
    && d'.conns == d.conns[c := k] && SeatOf(d', c) == to
    && forall x :: x != c ==> SeatOf(d', x) == SeatOf(d, x)
  }

  // Connection `x` is as before.
  ghost predicate Same(d: Daemon, d': Daemon, x: Id) {
    SeatOf(d', x) == SeatOf(d, x) && (x in d'.conns <==> x in d.conns) && (x in d.conns ==> d'.conns[x] == d.conns[x])
  }

  // The seat of an active connection.
  function ActiveSeat(d: Daemon, manual: bool, ready: bool): Seat {
    Seat(true, false, false, 0, !d.threadPerConnection && !manual, !d.threadPerConnection && manual, ready)
  }

  // --- Adding, timeouts, suspension -------------------------------------------------------

  // A new connection is active, and counted, unless the limit has been reached.
  lemma AddedEffect(d: Daemon, c: Id)
    requires Inv(d) && c !in d.conns
    ensures var d' := Added(d, c);
      if d.connections < d.limit then
        && Only(d, d', c, ActiveSeat(d, false, false),
                Connection(false, false, false, false, false, false, None, false, false, false, false, false, Working))
        && d'.connections == d.connections + 1
      else d' == d
  {
    if d.connections < d.limit {
      AddReseats(d, c);
    }
  }

  // A new timeout: an active connection is then on the list for timeouts of its kind.
  lemma RetimedEffect(d: Daemon, c: Id, manual: bool)
    requires Inv(d) && c in d.conns && (c in d.active || c in d.suspended)
    ensures var k := d.conns[c].(manualTimeout := manual);
      Only(d, Retimed(d, c, manual), c,
           if c in d.suspended then SeatOf(d, c) else ActiveSeat(d, manual, c in d.eready), k)
  {
    HasSeat(d, c);
    if !d.threadPerConnection && c in d.active {
      RetimedActive(d, c, d.conns[c].(manualTimeout := manual));
    } else {
      hide Inv, OffTimeout, OnTimeout;
    }
  }

  lemma RetimedActive(d: Daemon, c: Id, k: Connection)
    requires Inv(d) && c in d.conns && c in d.active && !d.threadPerConnection
    ensures Only(d, OnTimeout(Put(OffTimeout(d, c), c, k), c), c, ActiveSeat(d, k.manualTimeout, c in d.eready), k)
  {
    SeatOfActive(d, c);
    OnItsTimeout(d, c);
    var d1 := OffTimeout(d, c);
    var d2 := Put(d1, c, k);
    LeavesTimeout(d, c);
    PutSeats(d1, c, k);
    NoTimeout(d1, d2, c, k);
    EntersTimeout(d2, c);
    hide Inv, OffTimeout, OnTimeout, SeatOf, Linked;
    ReseatedTwice(d, d1, d2, c, SeatOf(d1, c), SeatOf(d2, c));
    ReseatedTwice(d, d2, OnTimeout(d2, c), c, SeatOf(d2, c), SeatOf(OnTimeout(d2, c), c));
  }

  // An active connection with the default timeout that was active goes to the head of its
  // list; nothing else changes.
  lemma TouchedEffect(d: Daemon, c: Id)
    requires c in d.conns
    ensures if d.threadPerConnection || d.conns[c].suspended || d.conns[c].manualTimeout then Touched(d, c) == d
            else Touched(d, c) == d.(normalTimeout := [c] + RemoveFirst(d.normalTimeout, c))
  {
    hide RemoveFirst;
    var k := d.conns[c];
    if !d.threadPerConnection && !k.suspended && !k.manualTimeout {
      assert k.(manualTimeout := false) == k;
      var d1 := d.(normalTimeout := RemoveFirst(d.normalTimeout, c));
      assert OffTimeout(d, c) == d1;
      assert Put(d1, c, k) == d1 by { assert d1.conns[c := k] == d1.conns; }
      assert OnTimeout(d1, c) == d1.(normalTimeout := [c] + d1.normalTimeout);
      hide OffTimeout, OnTimeout, Put;
    }
  }

  lemma OnItsTimeout(d: Daemon, c: Id)
    requires Inv(d) && c in d.conns
    ensures c in d.normalTimeout ==> !d.conns[c].manualTimeout
    ensures c in d.manualTimeout ==> d.conns[c].manualTimeout
  {
    HasSeat(d, c);
  }

  lemma NoTimeout(d1: Daemon, d2: Daemon, c: Id, k: Connection)
    requires !SeatOf(d1, c).normal && !SeatOf(d1, c).manual && d2 == Put(d1, c, k)
    ensures c !in d2.normalTimeout && c !in d2.manualTimeout
  {
  }

  // What suspend_action leaves of the fields.
  lemma SuspendedFields(d: Daemon, c: Id)
    requires Inv(d) && c in d.conns && (c in d.active || (c in d.suspended && d.conns[c].resuming))
    ensures var k := d.conns[c];
      Only(d, Suspended(d, c), c, Seat(false, true, false, 0, false, false, false),
           if k.resuming then k.(resuming := false)
           else if d.epoll then k.(suspended := true, inEready := false, inEpollSet := false, epollSuspended := true)
           else k.(suspended := true))
  {
    SuspendedOnly(d, c);
    HasSeat(d, c);
    if !d.conns[c].resuming {
      SuspendReseats(d, c);
    }
    hide Inv, Agrees, ActivePaused, SeatOf;
  }

  // MHD_request_resume notes the request, in the connection and in the daemon.
  lemma ResumeRequestedEffect(d: Daemon, c: Id)
    requires c in d.conns
    ensures var d' := ResumeRequested(d, c);
      Only(d, d', c, SeatOf(d, c), d.conns[c].(resuming := true)) && d'.resuming
  {
  }

  // --- Resumption ----------------------------------------------------------------------

  // Connection `c`, which was suspended, after the rounds of the resumption loop: back on
  // the active list, with its timeout list and with epoll on the ready list; or on the
  // cleanup list, if it was upgraded and is finished; or still suspended, if nobody asked
  // for its resumption or it is upgraded and not finished.
  ghost predicate AfterResumption(d: Daemon, d': Daemon, c: Id)
    requires c in d.conns
  {
    var k := d.conns[c];
    && c in d'.conns
    && if k.resuming && !k.forwarding then
         && SeatOf(d', c) == ActiveSeat(d, k.manualTimeout, d.epoll)
         && d'.conns[c] == k.(suspended := false, resuming := false, inEready := d.epoll, epollSuspended := false)
       else if k.resuming && k.wasClosed && k.cleanReady then
         && SeatOf(d', c) == Seat(false, false, true, 0, false, false, false)
         && d'.conns[c] == k.(suspended := false, resuming := false)
       else Same(d, d', c)
  }

  lemma ResumedEffect(d: Daemon, c: Id)
    requires Inv(d) && c in d.conns && c in d.suspended
    ensures AfterResumption(d, Resumed(d, c), c) && forall x :: x != c ==> Same(d, Resumed(d, c), x)
    ensures Inv(Resumed(d, c)) && Resumed(d, c).epoll == d.epoll
    ensures Resumed(d, c).threadPerConnection == d.threadPerConnection && Resumed(d, c).resuming == d.resuming
  {
    ResumedKeeps(d, c);
    SuspendedSeat(d, c);
    hide Inv, Agrees, SeatOf;
    var k := d.conns[c];
    if k.resuming && !k.forwarding {
      ActiveAgainEffect(d, c);
    } else if k.resuming && k.wasClosed && k.cleanReady {
      FinishedEffect(d, c);
      OthersAreSame(d, Resumed(d, c), c);
    } else {
      assert Resumed(d, c) == d;
    }
    hide Inv, Agrees, Resumed, SeatOf;
  }

  lemma OthersAreSame(d: Daemon, d': Daemon, c: Id)
    requires c in d.conns && c in d'.conns && Only(d, d', c, SeatOf(d', c), d'.conns[c])
    ensures forall x :: x != c ==> Same(d, d', x)
  {
    hide SeatOf;
  }

  lemma ActiveAgainEffect(d: Daemon, c: Id)
    requires Inv(d) && c in d.conns && c in d.suspended && d.conns[c].resuming && !d.conns[c].forwarding
    ensures var d' := Resumed(d, c);
      && AfterResumption(d, d', c) && (forall x :: x != c ==> Same(d, d', x))
      && d'.epoll == d.epoll && d'.threadPerConnection == d.threadPerConnection && d'.resuming == d.resuming
  {
    hide Inv, Resumed, SeatOf, Linked;
    ResumedReseats(d, c);
    OthersAreSame(d, Resumed(d, c), c);
  }

  // An upgraded connection that is finished.
  lemma FinishedEffect(d: Daemon, c: Id)
    requires Linked(d) && c in d.conns && SeatOf(d, c) == Seat(false, true, false, 0, false, false, false)
    requires d.conns[c].resuming && d.conns[c].forwarding && d.conns[c].wasClosed && d.conns[c].cleanReady
    ensures var d' := Resumed(d, c);
      && Only(d, d', c, Seat(false, false, true, 0, false, false, false),
              d.conns[c].(suspended := false, resuming := false))
      && d' == d.(conns := d'.conns, suspended := d'.suspended, cleanup := d'.cleanup)
  {
    Unlinks(d.suspended, c);
    Inserts(d.cleanup, c);
    hide Linked, RemoveFirst;
  }

  // All rounds, for the connections `todo`.
  lemma {:induction false} ResumedAllEffect(d: Daemon, todo: seq<Id>)
    requires Inv(d) && Distinct(todo) && forall c :: c in todo ==> c in d.suspended && c in d.conns
    ensures var d' := ResumedAll(d, todo);
      && (forall c :: c in todo ==> AfterResumption(d, d', c)) && (forall c :: c !in todo ==> Same(d, d', c))
      && d'.resuming == d.resuming
    decreases |todo|
  {
    hide Inv, Resumed;
    if todo != [] {
      var last, front := todo[|todo| - 1], todo[..|todo| - 1];
      assert todo == front + [last] && last !in front;
      ResumedEffect(d, last);
      var d1 := Resumed(d, last);
      forall c | c in front ensures c in d1.suspended && c in d1.conns {
        assert Same(d, d1, c);
      }
      ResumedAllEffect(d1, front);
      RoundsAddUp(d, d1, ResumedAll(d1, front), last, front);
    }
  }

  lemma RoundsAddUp(d: Daemon, d1: Daemon, d2: Daemon, last: Id, front: seq<Id>)
    requires last in d.conns && last !in front && d1.epoll == d.epoll
    requires d1.threadPerConnection == d.threadPerConnection
    requires AfterResumption(d, d1, last) && forall x :: x != last ==> Same(d, d1, x)
    requires forall c :: c in front ==> c in d.conns && c in d1.conns && AfterResumption(d1, d2, c)
    requires forall c :: c !in front ==> Same(d1, d2, c)
    ensures forall c :: c in front + [last] ==> c in d.conns && AfterResumption(d, d2, c)
    ensures forall c :: c !in front + [last] ==> Same(d, d2, c)
  {
    hide SeatOf;
    forall c | c in front + [last] ensures c in d.conns && AfterResumption(d, d2, c) {
      assert c in front || c == last;
      assert c == last || Same(d, d1, c);
    }
    forall c | c !in front + [last] ensures Same(d, d2, c) {
      assert c !in front && c != last;
      assert Same(d, d1, c);
    }
  }

  // MHD_resume_suspended_connections_: every suspended connection is treated so if a
  // resumption was asked for, and nobody else is touched.
  lemma ResumedWaitingEffect(d: Daemon)
    requires Inv(d)
    ensures var d' := ResumedWaiting(d);
      && !d'.resuming
      && (forall c :: c in d.suspended ==> c in d.conns)
      && (forall c :: c in d.suspended && d.resuming ==> AfterResumption(d, d', c))
      && (forall c :: c !in d.suspended || !d.resuming ==> Same(d, d', c))
  {
    var d1 := d.(resuming := false);
    NotResuming(d);
    SuspendedExist(d);
    hide Inv, ResumedAll;
    ResumedAllEffect(d1, if d.resuming then d.suspended else []);
    SameLists(d, d1);
    hide SeatOf;
  }

  lemma SuspendedExist(d: Daemon)
    requires Inv(d)
    ensures Distinct(d.suspended) && forall c :: c in d.suspended ==> c in d.conns
  {
  }

  // Somebody has left the suspended list.
  ghost predicate SomeLeft(d: Daemon, d': Daemon) {
    exists x :: x in d.suspended && x !in d'.suspended
  }

  // Nobody has joined it.
  ghost predicate NoneJoined(d: Daemon, d': Daemon) {
    forall x :: x in d'.suspended ==> x in d.suspended
  }

  lemma NobodyLeft(d: Daemon)
    ensures NoneJoined(d, d) && !SomeLeft(d, d)
  {
  }

  // A round takes its connection off the suspended list, or nobody.
  lemma LeftNext(d: Daemon, d1: Daemon, c: Id)
    requires Inv(d1) && c in d1.conns && c in d1.suspended && NoneJoined(d, d1)
    ensures var d2, k := Resumed(d1, c), d1.conns[c];
      && NoneJoined(d, d2)
      && (SomeLeft(d, d2) <==> SomeLeft(d, d1) || (k.resuming && (!k.forwarding || (k.wasClosed && k.cleanReady))))
  {
    ResumedEffect(d1, c);
    SuspendedSeat(d1, c);
    hide Inv, Agrees, Resumed;
    var d2 := Resumed(d1, c);
    forall x | x in d2.suspended ensures x in d1.suspended {
      assert x == c || Same(d1, d2, x);
    }
    if x :| x in d.suspended && x !in d2.suspended {
      assert x == c || Same(d1, d2, x);
    }
    if x :| x in d.suspended && x !in d1.suspended {
      assert x != c && Same(d1, d2, x);
    }
  }

  // An ordinary connection that was suspended, and for which a resumption was asked for,
  // is active afterwards, in the order of the calls.
  lemma RequestedIsResumed(d: Daemon, c: Id)
    requires Inv(d) && c in d.conns && c in d.suspended && !d.conns[c].forwarding
    ensures var d' := ResumedWaiting(ResumeRequested(d, c));
      SeatOf(d', c) == ActiveSeat(d, d.conns[c].manualTimeout, d.epoll) && c in d'.conns && !d'.conns[c].suspended
  {
    ResumeKeeps(d, c);
    ResumedWaitingEffect(ResumeRequested(d, c));
  }

  // --- The end of a connection -----------------------------------------------------------

  // The response of `c` is queued for destruction, if there is one.
  ghost predicate Queued(d: Daemon, d': Daemon, c: Id)
    requires c in d.conns
  {
    d'.destroyed == d.destroyed + (if d.conns[c].response.Some? then [d.conns[c].response.value] else [])
  }

  lemma ReleasedEffect(d: Daemon, c: Id)
    requires c in d.conns
    ensures var d' := Released(d, c);
      && d' == d.(conns := d.conns[c := d.conns[c].(response := None)], destroyed := d'.destroyed, owner := d'.owner)
      && Queued(d, d', c) && forall x :: SeatOf(d', x) == SeatOf(d, x)
  {
    if d.conns[c].response.None? {
      assert d.conns[c].(response := None) == d.conns[c];
      assert d.conns[c := d.conns[c]] == d.conns;
    }
  }

  lemma ClosedEffect(d: Daemon, c: Id)
    requires c in d.conns
    ensures var d' := Closed(d, c);
      Only(d, d', c, SeatOf(d, c), d.conns[c].(closed := true, response := None)) && Queued(d, d', c)
  {
    hide Released, SeatOf;
    var k := d.conns[c].(closed := true);
    assert MarkedClosed(d, c) == d.(conns := d.conns[c := k]) && Closed(d, c) == Released(MarkedClosed(d, c), c);
    hide MarkedClosed, Put, Closed;
    SameLists(d, MarkedClosed(d, c));
    ReleasedEffect(MarkedClosed(d, c), c);
    PutTwice(d.conns, c, k, k.(response := None));
  }

  lemma PutTwice(m: map<Id, Connection>, c: Id, k: Connection, k': Connection)
    ensures m[c := k][c := k'] == m[c := k']
  {
  }

  lemma SameLists(d: Daemon, d': Daemon)
    requires d'.active == d.active && d'.suspended == d.suspended && d'.cleanup == d.cleanup && d'.round == d.round
    requires d'.normalTimeout == d.normalTimeout && d'.manualTimeout == d.manualTimeout && d'.eready == d.eready
    ensures forall x :: SeatOf(d', x) == SeatOf(d, x)
  {
  }

  // The part of cleanup_connection before the mutex, which is not taken twice.
  lemma CleanupBegunEffect(d: Daemon, c: Id)
    requires c in d.conns
    ensures var d' := CleanupBegun(d, c);
      if d.conns[c].inCleanup then d' == d
      else
        && Only(d, d', c, SeatOf(d, c), d.conns[c].(response := None, inCleanup := true, stage := Retiring))
        && Queued(d, d', c)
  {
    hide Released, SeatOf;
    ReleasedEffect(d, c);
    var d1 := Released(d, c);
    SameLists(d1, CleanupBegun(d, c));
    PutTwice(d.conns, c, d1.conns[c], d.conns[c].(response := None, inCleanup := true, stage := Retiring));
  }

  // Its part under the mutex: only the cleanup list has the connection then.
  lemma RetiredEffect(d: Daemon, c: Id)
    requires Inv(d) && c in d.conns && d.conns[c].stage.Retiring?
    ensures Only(d, Retired(d, c), c, Seat(false, false, true, 0, false, false, c in d.eready),
                 d.conns[c].(suspended := false, resuming := false, stage := Left))
  {
    HasSeat(d, c);
    if d.conns[c].suspended {
      SuspendedGoes(d, c, d.conns[c].(suspended := false, resuming := false, stage := Left));
    } else {
      ActiveGoes(d, c, d.conns[c].(suspended := false, resuming := false, stage := Left));
    }
    hide Inv, Agrees, SeatOf, Deactivated;
  }

  lemma SuspendedGoes(d: Daemon, c: Id, k: Connection)
    requires Linked(d) && AllAgree(d) && c in d.conns && c in d.suspended
    ensures Only(d, Put(OnCleanup(OffSuspended(d, c), c), c, k), c,
                 Seat(false, false, true, 0, false, false, c in d.eready), k)
  {
    SuspendedNowhereElse(d, c);
    Unlinks(d.suspended, c);
    Inserts(d.cleanup, c);
    hide Linked, AllAgree, RemoveFirst;
  }

  lemma ActiveGoes(d: Daemon, c: Id, k: Connection)
    requires Inv(d) && c in d.conns && c in d.active
    ensures Only(d, Put(OnCleanup(Deactivated(d, c), c), c, k), c,
                 Seat(false, false, true, 0, false, false, c in d.eready), k)
  {
    SeatOfActive(d, c);
    Deactivates(d, c);
    hide Inv, Deactivated, SeatOf;
    EntersCleanup(Deactivated(d, c), c, k);
  }

  lemma SeatOfActive(d: Daemon, c: Id)
    requires Inv(d) && c in d.conns && c in d.active
    ensures var s := SeatOf(d, c); s.active && !s.suspended && !s.cleanup && s.torn == 0 && s.eready == (c in d.eready)
  {
    HasSeat(d, c);
  }

  lemma EntersCleanup(d: Daemon, c: Id, k: Connection)
    ensures Only(d, Put(OnCleanup(d, c), c, k), c, SeatOf(d, c).(cleanup := true), k)
  {
    assert forall x :: x in [c] + d.cleanup <==> x == c || x in d.cleanup;
  }

  lemma ShutDownEffect(d: Daemon, c: Id)
    requires Inv(d) && c in d.conns && d.conns[c].stage.ShuttingDown?
    ensures Only(d, ShutDown(d, c), c, Seat(false, false, true, 0, false, false, c in d.eready),
                 d.conns[c].(stage := Left))
  {
    HasSeat(d, c);
    ActiveGoes(d, c, d.conns[c].(stage := Left));
    hide Inv, Agrees, SeatOf, Deactivated;
  }

  // --- The cleanup loop ------------------------------------------------------------------

  // A whole round, undisturbed, touches nobody but its connection, whose response it queues.
  lemma RoundEffect(d: Daemon, x: Id)
    requires Inv(d) && d.cleanup != [] && d.round.Idle? && x != d.cleanup[|d.cleanup| - 1]
    ensures d.cleanup[|d.cleanup| - 1] in d.conns && Same(d, CleanupRound(d), x)
    ensures Queued(d, CleanupRound(d), d.cleanup[|d.cleanup| - 1])
  {
    hide Inv, TornDown, CleanupRound, Distinct;
    RoundIs(d);
    FrontOf(d.cleanup, x);
    TornEffect(Unlinked(d), d.cleanup[|d.cleanup| - 1], x);
  }

  lemma FrontOf(s: seq<Id>, x: Id)
    requires s != [] && x != s[|s| - 1]
    ensures x in s[..|s| - 1] <==> x in s
  {
    assert s == s[..|s| - 1] + [s[|s| - 1]];
  }

  // What a round leaves alone, and where the rest comes from.
  lemma RoundIs(d: Daemon)
    requires Inv(d) && d.cleanup != [] && d.round.Idle?
    ensures Distinct(d.eready) && d.cleanup[|d.cleanup| - 1] in d.conns
    ensures var last := |d.cleanup| - 1;
      var d1, d2 := CleanupRound(d), TornDown(Unlinked(d), d.cleanup[last]);
      && d1 == d.(conns := d2.conns - {d.cleanup[last]}, cleanup := d.cleanup[..last], eready := d2.eready,
                  connections := d1.connections, destroyed := d2.destroyed, owner := d2.owner)
  {
    RoundEnds(d);
    hide TornDown;
    TornFrame(Unlinked(d), d.cleanup[|d.cleanup| - 1]);
  }

  lemma TornEffect(d: Daemon, c: Id, x: Id)
    requires c in d.conns && x != c && Distinct(d.eready)
    ensures var d' := TornDown(d, c);
      && (x in d'.conns <==> x in d.conns) && (x in d.conns ==> d'.conns[x] == d.conns[x])
      && (x in d'.eready <==> x in d.eready) && Queued(d, d', c)
  {
    Unlinks(d.eready, c);
    hide RemoveFirst, Released;
    var d1 := HandleDropped(d, c);
    var d2 := Unwatched(d1, c);
    ReleasedEffect(d2, c);
  }

  // The responses of the connections `cs` have been queued for destruction.
  ghost predicate AllQueued(d: Daemon, cs: seq<Id>, destroyed: seq<Ticket>) {
    forall c | c in cs :: c in d.conns && (d.conns[c].response.Some? ==> d.conns[c].response.value in destroyed)
  }

  // The whole loop touches nobody but the connections of the cleanup list, and queues their
  // responses.
  lemma {:induction false} CleanedAllEffect(d: Daemon)
    requires Inv(d) && d.round.Idle?
    ensures var d' := CleanedAll(d);
      && (forall x :: x !in d.cleanup ==> Same(d, d', x))
      && (forall t :: t in d.destroyed ==> t in d'.destroyed)
      && AllQueued(d, d.cleanup, d'.destroyed)
    decreases |d.cleanup|
  {
    hide Inv, CleanupRound, AllQueued;
    if d.cleanup == [] {
      NoneQueued(d, d.cleanup, d.destroyed);
    } else {
      var last := d.cleanup[|d.cleanup| - 1];
      RoundEnds(d);
      var d1 := CleanupRound(d);
      CleanedAllEffect(d1);
      RoundEffect(d, last + 1);
      forall x | x != last ensures Same(d, d1, x) {
        RoundEffect(d, x);
      }
      CleanupAddsUp(d, d1, CleanedAll(d1), last);
    }
  }

  lemma NoneQueued(d: Daemon, cs: seq<Id>, destroyed: seq<Ticket>)
    requires cs == []
    ensures AllQueued(d, cs, destroyed)
  {
  }

  lemma CleanupAddsUp(d: Daemon, d1: Daemon, d2: Daemon, last: Id)
    requires d.cleanup != [] && last == d.cleanup[|d.cleanup| - 1] && last in d.conns && Queued(d, d1, last)
    requires d1.cleanup == d.cleanup[..|d.cleanup| - 1] && forall x :: x != last ==> Same(d, d1, x)
    requires forall x :: x !in d1.cleanup ==> Same(d1, d2, x)
    requires forall t :: t in d1.destroyed ==> t in d2.destroyed
    requires AllQueued(d1, d1.cleanup, d2.destroyed)
    ensures forall x :: x !in d.cleanup ==> Same(d, d2, x)
    ensures forall t :: t in d.destroyed ==> t in d2.destroyed
    ensures AllQueued(d, d.cleanup, d2.destroyed)
  {
    assert d.conns[last].response.Some? ==> d.conns[last].response.value in d1.destroyed;
    assert forall t :: t in d.destroyed ==> t in d1.destroyed;
    hide Queued, SeatOf;
    forall x | x !in d.cleanup ensures Same(d, d2, x) {
      assert x != last && Same(d, d1, x);
    }
    forall c | c in d.cleanup
      ensures c in d.conns && (d.conns[c].response.Some? ==> d.conns[c].response.value in d2.destroyed)
    {
      if c != last {
        FrontOf(d.cleanup, c);
        assert Same(d, d1, c);
      }
    }
  }
}
