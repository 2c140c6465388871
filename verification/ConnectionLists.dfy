// The steps of module Connections that move connections between lists, as the daemon
// takes them: on doubly linked lists, link by link.  The other fields of a connection
// are a record in a map from its address.
module ConnectionLists {
  import opened Lists
  import opened Options
  import opened Connections
  import opened DoublyLinked
  import ConnectionEffects

  class MHDDaemon {
    const threadPerConnection: bool
    const epoll: bool
    const limit: nat
    var conns: map<Id, Connection>
    var links: map<Id, Link>
    var linksX: map<Id, Link>
    var linksE: map<Id, Link>
    const active: DList
    const suspended: DList
    const cleanup: DList
    const normalTimeout: DList
    const manualTimeout: DList
    const eready: DList
    var connections: int
    var resuming: bool
    ghost var round: Round
    ghost var destroyed: seq<Ticket>
    ghost var attached: nat
    ghost var owner: map<Ticket, Id>

    ghost function PlainLists(): set<DList> {
      {active, suspended, cleanup}
    }

    ghost function TimeoutLists(): set<DList> {
      {normalTimeout, manualTimeout}
    }

    ghost predicate Kinds() {
      && active.kind == Plain && suspended.kind == Plain && cleanup.kind == Plain
      && normalTimeout.kind == X && manualTimeout.kind == X && eready.kind == E
      && active != suspended && active != cleanup && suspended != cleanup && normalTimeout != manualTimeout
    }

    // The links of each kind make up the lists of that kind.
    ghost predicate PlainOk()
      reads this, PlainLists(), links.Values
    {
      links.Keys == conns.Keys && Family(PlainLists(), links, Plain)
    }

    ghost predicate TimeoutsOk()
      reads this, TimeoutLists(), linksX.Values
    {
      linksX.Keys == conns.Keys && Family(TimeoutLists(), linksX, X)
    }

    ghost predicate ReadyOk()
      reads this, eready, linksE.Values
    {
      linksE.Keys == conns.Keys && Family({eready}, linksE, E)
    }

    ghost predicate Valid()
      reads this, PlainLists(), TimeoutLists(), eready, links.Values, linksX.Values, linksE.Values
    {
      Kinds() && PlainOk() && TimeoutsOk() && ReadyOk()
    }

    ghost function View(): Daemon
      reads this, PlainLists(), TimeoutLists(), eready
    {
      Daemon(threadPerConnection, epoll, limit, conns, active.Ids(), suspended.Ids(), cleanup.Ids(),
             normalTimeout.Ids(), manualTimeout.Ids(), eready.Ids(), round, connections, resuming,
             destroyed, attached, owner)
    }

    constructor (threadPerConnection: bool, epoll: bool, limit: nat)
      ensures Valid() && Initial(View())
    {
      this.threadPerConnection, this.epoll, this.limit := threadPerConnection, epoll, limit;
      conns, links, linksX, linksE := map[], map[], map[], map[];
      active := new DList(Plain);
      suspended := new DList(Plain);
      cleanup := new DList(Plain);
      normalTimeout := new DList(X);
      manualTimeout := new DList(X);
      eready := new DList(E);
      connections, resuming := 0, false;
      round, destroyed, attached, owner := Idle, [], 0, map[];
      new;
      hide Valid, DList.Ids;
      NothingThere();
    }

    ghost predicate Empty(l: DList)
      reads l
    {
      l.head == null && l.tail == null && l.nodes == []
    }

    lemma NothingThere()
      requires Kinds() && conns == map[] && links == map[] && linksX == map[] && linksE == map[]
      requires Empty(active) && Empty(suspended) && Empty(cleanup)
      requires Empty(normalTimeout) && Empty(manualTimeout) && Empty(eready)
      ensures Valid()
      ensures active.Ids() == [] && suspended.Ids() == [] && cleanup.Ids() == []
      ensures normalTimeout.Ids() == [] && manualTimeout.Ids() == [] && eready.Ids() == []
    {
      hide Family, DList.Ids;
      EmptyFamily(PlainLists(), Plain);
      EmptyFamily(TimeoutLists(), X);
      EmptyFamily({eready}, E);
    }

    // Whatever happens to links of other kinds leaves these lists as they are.
    twostate lemma PlainStays()
      requires old(PlainOk()) && unchanged(this) && unchanged(active) && unchanged(suspended) && unchanged(cleanup)
      requires forall n :: n in links.Values ==> unchanged(n)
      ensures PlainOk()
    {
    }

    twostate lemma TimeoutsStay()
      requires old(TimeoutsOk()) && unchanged(this) && unchanged(normalTimeout) && unchanged(manualTimeout)
      requires forall n :: n in linksX.Values ==> unchanged(n)
      ensures TimeoutsOk()
    {
    }

    twostate lemma ReadyStays()
      requires old(ReadyOk()) && unchanged(this) && unchanged(eready)
      requires forall n :: n in linksE.Values ==> unchanged(n)
      ensures ReadyOk()
    {
    }

    lemma KindsDiffer()
      requires Valid()
      ensures forall n :: n in links.Values ==> n.kind == Plain
      ensures forall n :: n in linksX.Values ==> n.kind == X
      ensures forall n :: n in linksE.Values ==> n.kind == E
    {
    }

    // --- The macros on each of the lists ------------------------------------------------

    // The connection is on none of the lists that own connections.
    ghost predicate Unplaced(c: Id)
      reads this, PlainLists()
    {
      c !in active.Ids() && c !in suspended.Ids() && c !in cleanup.Ids()
    }

    method InsertPlain(list: DList, c: Id)
      requires Valid() && c in conns && Unplaced(c) && list in PlainLists()
      modifies list, links.Values
      ensures Valid()
      ensures list == active ==> View() == old(View()).(active := [c] + old(View()).active)
      ensures list == suspended ==> View() == old(View()).(suspended := [c] + old(View()).suspended)
      ensures list == cleanup ==> View() == old(View()).(cleanup := [c] + old(View()).cleanup)
    {
      hide Family, TimeoutsOk, ReadyOk, DList.Ids;
      KindsDiffer();
      InsertInto(list, c, PlainLists(), links, Plain);
      TimeoutsStay();
      ReadyStays();
    }

    method RemovePlain(list: DList, c: Id)
      requires Valid() && c in conns && list in PlainLists() && c in list.Ids()
      modifies list, links.Values
      ensures Valid()
      ensures list == active ==> View() == old(View()).(active := RemoveFirst(old(View()).active, c))
      ensures list == suspended ==> View() == old(View()).(suspended := RemoveFirst(old(View()).suspended, c))
      ensures list == cleanup ==> View() == old(View()).(cleanup := RemoveFirst(old(View()).cleanup, c))
    {
      hide Family, TimeoutsOk, ReadyOk, DList.Ids, RemoveFirst;
      KindsDiffer();
      RemoveFrom(list, c, PlainLists(), links, Plain);
      TimeoutsStay();
      ReadyStays();
    }

    method LinkSuspended(c: Id)
      requires Valid() && c in conns && Unplaced(c)
      modifies suspended, links.Values
      ensures Valid() && View() == OnSuspended(old(View()), c)
    {
      hide PlainOk, TimeoutsOk, ReadyOk, DList.Ids;
      InsertPlain(suspended, c);
    }

    method UnlinkSuspended(c: Id)
      requires Valid() && c in conns && c in suspended.Ids()
      modifies suspended, links.Values
      ensures Valid() && View() == OffSuspended(old(View()), c)
    {
      hide PlainOk, TimeoutsOk, ReadyOk, DList.Ids, RemoveFirst;
      RemovePlain(suspended, c);
    }

    method LinkCleanup(c: Id)
      requires Valid() && c in conns && Unplaced(c)
      modifies cleanup, links.Values
      ensures Valid() && View() == OnCleanup(old(View()), c)
    {
      hide PlainOk, TimeoutsOk, ReadyOk, DList.Ids;
      InsertPlain(cleanup, c);
    }

    // On or off the timeout list that goes with the timeout of the connection.
    method LinkTimeout(c: Id)
      requires Valid() && c in conns && c !in normalTimeout.Ids() && c !in manualTimeout.Ids()
      modifies normalTimeout, manualTimeout, linksX.Values
      ensures Valid() && View() == OnTimeout(old(View()), c)
    {
      hide PlainOk, ReadyOk, TimeoutsOk, DList.Ids;
      var list := if !conns[c].manualTimeout then normalTimeout else manualTimeout;
      InsertTimeout(list, c);
    }

    method InsertTimeout(list: DList, c: Id)
      requires Valid() && c in conns && c !in normalTimeout.Ids() && c !in manualTimeout.Ids()
      requires list in TimeoutLists()
      modifies list, linksX.Values
      ensures Valid()
      ensures list == normalTimeout ==> View() == old(View()).(normalTimeout := [c] + old(View()).normalTimeout)
      ensures list == manualTimeout ==> View() == old(View()).(manualTimeout := [c] + old(View()).manualTimeout)
    {
      hide Family, PlainOk, ReadyOk, DList.Ids;
      KindsDiffer();
      InsertInto(list, c, TimeoutLists(), linksX, X);
      PlainStays();
      ReadyStays();
    }

    method RemoveTimeout(list: DList, c: Id)
      requires Valid() && c in conns && list in TimeoutLists() && c in list.Ids()
      modifies list, linksX.Values
      ensures Valid()
      ensures list == normalTimeout ==>
        View() == old(View()).(normalTimeout := RemoveFirst(old(View()).normalTimeout, c))
      ensures list == manualTimeout ==>
        View() == old(View()).(manualTimeout := RemoveFirst(old(View()).manualTimeout, c))
    {
      hide Family, PlainOk, ReadyOk, DList.Ids, RemoveFirst;
      KindsDiffer();
      RemoveFrom(list, c, TimeoutLists(), linksX, X);
      PlainStays();
      ReadyStays();
    }

    method UnlinkTimeout(c: Id)
      requires Valid() && c in conns
      requires c in (if conns[c].manualTimeout then manualTimeout.Ids() else normalTimeout.Ids())
      modifies normalTimeout, manualTimeout, linksX.Values
      ensures Valid() && View() == OffTimeout(old(View()), c)
    {
      hide PlainOk, ReadyOk, TimeoutsOk, DList.Ids, RemoveFirst;
      var list := if !conns[c].manualTimeout then normalTimeout else manualTimeout;
      RemoveTimeout(list, c);
    }

    method LinkReady(c: Id)
      requires Valid() && c in conns && (epoll ==> c !in eready.Ids())
      modifies eready, linksE.Values
      ensures Valid() && View() == OnReady(old(View()), c)
    {
      hide Family, PlainOk, TimeoutsOk, DList.Ids;
      KindsDiffer();
      if epoll {
        InsertInto(eready, c, {eready}, linksE, E);
      }
      PlainStays();
      TimeoutsStay();
    }

    method UnlinkReady(c: Id)
      requires Valid() && c in conns && (epoll && conns[c].inEready ==> c in eready.Ids())
      modifies eready, linksE.Values
      ensures Valid() && View() == Unreadied(old(View()), c)
    {
      hide Family, PlainOk, TimeoutsOk, DList.Ids, RemoveFirst;
      KindsDiffer();
      if epoll {
        if conns[c].inEready {
          RemoveFrom(eready, c, {eready}, linksE, E);
        }
      }
      PlainStays();
      TimeoutsStay();
    }

    method LinkActive(c: Id)
      requires Valid() && c in conns && Unplaced(c)
      requires !threadPerConnection ==> c !in normalTimeout.Ids() && c !in manualTimeout.Ids()
      modifies active, links.Values, normalTimeout, manualTimeout, linksX.Values
      ensures Valid() && View() == Activated(old(View()), c)
    {
      hide PlainOk, TimeoutsOk, ReadyOk, DList.Ids;
      InsertPlain(active, c);
      if !threadPerConnection {
        LinkTimeout(c);
      }
    }

    method UnlinkActive(c: Id)
      requires Valid() && c in conns && c in active.Ids()
      requires !threadPerConnection ==>
        c in (if conns[c].manualTimeout then manualTimeout.Ids() else normalTimeout.Ids())
      modifies active, links.Values, normalTimeout, manualTimeout, linksX.Values
      ensures Valid() && View() == Deactivated(old(View()), c)
    {
      hide PlainOk, TimeoutsOk, ReadyOk, DList.Ids, RemoveFirst;
      if !threadPerConnection {
        UnlinkTimeout(c);
      }
      RemovePlain(active, c);
    }

    // The fields of a connection.
    method SetFields(c: Id, k: Connection)
      requires Valid() && c in conns
      modifies this`conns
      ensures Valid() && View() == Put(old(View()), c, k)
    {
      hide Family;
      conns := conns[c := k];
    }

    // --- The critical sections ----------------------------------------------------------

    // Every connection gets its links.
    method NewLinks(c: Id)
      requires Valid() && c !in conns
      modifies this`conns, this`links, this`linksX, this`linksE
      ensures Valid() && View() == Put(old(View()), c, NEW)
      ensures links == old(links)[c := links[c]] && linksX == old(linksX)[c := linksX[c]]
      ensures fresh(links[c]) && fresh(linksX[c])
    {
      hide Family, DList.Ids;
      var plain, x, e := NewPairs(c);
      Grow(c, plain, x, e);
    }

    method Grow(c: Id, plain: Link, x: Link, e: Link)
      requires Valid() && c !in conns && plain.id == c && x.id == c && e.id == c
      requires plain.kind == Plain && x.kind == X && e.kind == E
      requires plain.next == null && plain.prev == null && x.next == null && x.prev == null
      requires e.next == null && e.prev == null
      modifies this`conns, this`links, this`linksX, this`linksE
      ensures Valid() && View() == Put(old(View()), c, NEW)
      ensures links == old(links)[c := plain] && linksX == old(linksX)[c := x]
    {
      hide Family, DList.Ids;
      GrowAll(c, plain, x, e);
      Retable(conns[c := NEW], links[c := plain], linksX[c := x], linksE[c := e]);
    }

    lemma GrowAll(c: Id, plain: Link, x: Link, e: Link)
      requires Valid() && c !in conns && plain.id == c && x.id == c && e.id == c
      requires plain.kind == Plain && x.kind == X && e.kind == E
      requires plain.next == null && plain.prev == null && x.next == null && x.prev == null
      requires e.next == null && e.prev == null
      ensures Family(PlainLists(), links[c := plain], Plain) && Family(TimeoutLists(), linksX[c := x], X)
      ensures Family({eready}, linksE[c := e], E)
    {
      hide Family;
      TableGrows(PlainLists(), links, Plain, c, plain);
      TableGrows(TimeoutLists(), linksX, X, c, x);
      TableGrows({eready}, linksE, E, c, e);
    }

    method Retable(table: map<Id, Connection>, plain: map<Id, Link>, x: map<Id, Link>, e: map<Id, Link>)
      requires Kinds() && Family(PlainLists(), plain, Plain) && Family(TimeoutLists(), x, X) && Family({eready}, e, E)
      modifies this`conns, this`links, this`linksX, this`linksE
      ensures Family(PlainLists(), plain, Plain) && Family(TimeoutLists(), x, X) && Family({eready}, e, E)
      ensures conns == table && links == plain && linksX == x && linksE == e
    {
      hide Family, Kinds;
      conns, links, linksX, linksE := table, plain, x, e;
    }

    static method NewPairs(c: Id) returns (plain: Link, x: Link, e: Link)
      ensures plain.id == c && x.id == c && e.id == c && fresh(plain) && fresh(x) && fresh(e)
      ensures plain.kind == Plain && x.kind == X && e.kind == E
      ensures plain.next == null && plain.prev == null && x.next == null && x.prev == null
      ensures e.next == null && e.prev == null
    {
      plain := new Link(c, Plain);
      x := new Link(c, X);
      e := new Link(c, E);
    }

    // connection_add, under the mutex: false if the limit has been reached.
    method AddConnection(c: Id) returns (ok: bool)
      requires Valid() && Inv(View()) && c !in conns
      modifies this, PlainLists(), links.Values, TimeoutLists(), linksX.Values
      ensures Valid() && View() == Added(old(View()), c) && Inv(View())
      ensures ok <==> old(connections) < limit
    {
      hide Inv, Valid, DList.Ids, Activated;
      AddKeeps(View(), c);
      NewPlace(View(), c);
      ok := connections < limit;
      if ok {
        Admit(c);
      }
    }

    method Admit(c: Id)
      requires Valid() && c !in conns && Unplaced(c) && c !in normalTimeout.Ids() && c !in manualTimeout.Ids()
      modifies this, PlainLists(), links.Values, TimeoutLists(), linksX.Values
      ensures Valid()
      ensures View() == Activated(Put(old(View()), c, NEW).(connections := old(connections) + 1), c)
    {
      hide Valid, DList.Ids, Activated;
      Count(1);
      NewLinks(c);
      assert forall n :: n in links.Values ==> n in old(links.Values) || n == links[c];
      assert forall n :: n in linksX.Values ==> n in old(linksX.Values) || n == linksX[c];
      LinkActive(c);
    }

    method Count(change: int)
      requires Valid()
      modifies this`connections
      ensures Valid() && View() == old(View()).(connections := old(connections) + change)
    {
      hide Family;
      connections := connections + change;
    }

    // MHD_connection_set_timeout
    method SetTimeout(c: Id, manual: bool)
      requires Valid() && Inv(View()) && c in conns && (c in active.Ids() || c in suspended.Ids())
      modifies this`conns, TimeoutLists(), linksX.Values
      ensures Valid() && View() == Retimed(old(View()), c, manual) && Inv(View())
    {
      hide Inv, Valid, DList.Ids, OnTimeout, OffTimeout, Put;
      RetimeKeeps(View(), c, manual);
      SuspendedFlag(View(), c);
      if threadPerConnection || conns[c].suspended {
        SetFields(c, conns[c].(manualTimeout := manual));
      } else {
        Retime(c, manual);
      }
    }

    // From one timeout list to the other, or to the head of the same.
    method Retime(c: Id, manual: bool)
      requires Valid() && Inv(View()) && c in conns && c in active.Ids() && !threadPerConnection
      modifies this`conns, TimeoutLists(), linksX.Values
      ensures Valid()
      ensures View() == OnTimeout(Put(OffTimeout(old(View()), c), c, old(conns[c]).(manualTimeout := manual)), c)
    {
      hide Inv, Valid, DList.Ids, OnTimeout, OffTimeout;
      ActivePlace(View(), c);
      TimeoutLeft(View(), c);
      UnlinkTimeout(c);
      SetFields(c, conns[c].(manualTimeout := manual));
      LinkTimeout(c);
    }

    // suspend_action
    method SuspendAction(c: Id)
      requires Valid() && Inv(View()) && c in conns && (conns[c].stage.Working? || conns[c].stage.Upgraded?)
      requires c in active.Ids() || (c in suspended.Ids() && conns[c].resuming)
      modifies this`conns, PlainLists(), links.Values, TimeoutLists(), linksX.Values, eready, linksE.Values
      ensures Valid() && View() == Suspended(old(View()), c) && Inv(View())
    {
      hide Inv, Valid, DList.Ids, Put, Deactivated, Unreadied, OnSuspended, Paused, ActivePaused;
      SuspendKeeps(View(), c);
      var k := conns[c];
      if k.resuming {
        // suspended again before the resumption was carried out
        SetFields(c, k.(resuming := false));
      } else {
        Pause(c);
      }
    }

    method Pause(c: Id)
      requires Valid() && Inv(View()) && c in conns && c in active.Ids()
      modifies this`conns, PlainLists(), links.Values, TimeoutLists(), linksX.Values, eready, linksE.Values
      ensures Valid() && View() == ActivePaused(old(View()), c)
    {
      hide Inv, Valid, DList.Ids, Put, Deactivated, Unreadied, RemoveFirst;
      ActivePlace(View(), c);
      DeactivatedPlace(View(), c);
      UnreadiedPlace(OnSuspended(Deactivated(View(), c), c), c);
      var k := conns[c].(suspended := true);
      UnlinkActive(c);
      LinkSuspended(c);
      UnlinkReady(c);
      SetFields(c, if epoll then k.(inEready := false, inEpollSet := false, epollSuspended := true) else k);
    }

    // One round of the loop below.
    method ResumeOne(c: Id) returns (resumed: bool)
      requires Valid() && Inv(View()) && c in conns && c in suspended.Ids()
      modifies this`conns, PlainLists(), links.Values, TimeoutLists(), linksX.Values, eready, linksE.Values
      ensures Valid() && View() == Resumed(old(View()), c) && Inv(View())
      ensures var k := old(conns[c]); resumed <==> k.resuming && (!k.forwarding || (k.wasClosed && k.cleanReady))
    {
      hide Inv, Valid, DList.Ids, Put, OffSuspended, OnCleanup, Reactivated;
      ResumedKeeps(View(), c);
      var k := conns[c];
      resumed := k.resuming && !(k.forwarding && (!k.wasClosed || !k.cleanReady));
      if !resumed {
      } else if !k.forwarding {
        Reactivate(c);
      } else {
        GiveUp(c);
      }
    }

    method Reactivate(c: Id)
      requires Valid() && Inv(View()) && c in conns && c in suspended.Ids() && !conns[c].forwarding
      modifies this`conns, PlainLists(), links.Values, TimeoutLists(), linksX.Values, eready, linksE.Values
      ensures Valid() && View() == Reactivated(old(View()), c)
    {
      hide Inv, Valid, DList.Ids, Put, OffSuspended, Activated, RemoveFirst;
      SuspendedPlace(View(), c);
      ActivatedPlace(OffSuspended(View(), c), c);
      var k := conns[c].(suspended := false, resuming := false);
      UnlinkSuspended(c);
      LinkActive(c);
      LinkReady(c);
      SetFields(c, if epoll then k.(inEready := true, epollSuspended := false) else k);
    }

    // An upgraded connection that is finished goes to the cleanup list.
    method GiveUp(c: Id)
      requires Valid() && Inv(View()) && c in conns && c in suspended.Ids() && conns[c].forwarding
      modifies this`conns, PlainLists(), links.Values
      ensures Valid()
      ensures View() == Put(OnCleanup(OffSuspended(old(View()), c), c), c, Woken(epoll, old(conns[c])))
    {
      hide Inv, Valid, DList.Ids, Put, OffSuspended, RemoveFirst;
      SuspendedPlace(View(), c);
      UnlinkSuspended(c);
      LinkCleanup(c);
      SetFields(c, conns[c].(suspended := false, resuming := false));
    }

    // The rounds, from the tail of the list; the previous element is remembered before
    // the current one is unlinked.
    method ResumeEach(tail: Link?, ghost list: seq<Id>) returns (any: bool)
      requires Valid() && Inv(View()) && list <= suspended.Ids()
      requires tail == LinkBefore(list, |list|)
      modifies this`conns, PlainLists(), links.Values, TimeoutLists(), linksX.Values, eready, linksE.Values
      ensures Valid() && View() == ResumedAll(old(View()), list) && Inv(View())
      ensures any <==> ConnectionEffects.SomeLeft(old(View()), View())
    {
      hide Inv, Valid, DList.Ids, Resumed, ResumedAll, ConnectionEffects.SomeLeft, ConnectionEffects.NoneJoined;
      any := false;
      ghost var d, k: nat := View(), |list|;
      var pos := tail;
      assert list[..k] == list;
      ConnectionEffects.NobodyLeft(d);
      while pos != null
        invariant Valid() && Inv(View()) && k <= |list| && list[..k] <= suspended.Ids()
        invariant pos == LinkBefore(list, k)
        invariant ResumedAll(d, list) == ResumedAll(View(), list[..k])
        invariant ConnectionEffects.NoneJoined(d, View()) && (any <==> ConnectionEffects.SomeLeft(d, View()))
        decreases k
      {
        ghost var front := list[..k - 1];
        PreviousLink(list[..k], k);
        var prev := pos.prev;
        ResumedAllNext(View(), list[..k], front);
        ResumedPrefix(View(), list[..k], front);
        ConnectionEffects.LeftNext(d, View(), pos.id);
        var resumed := ResumeOne(pos.id);
        any := any || resumed;
        pos, k := prev, k - 1;
      }
      if k > 0 { PreviousLink(list[..k], k); }
      ResumedAllDone(View(), list[..0]);
    }

    // MHD_resume_suspended_connections_
    method ResumeSuspended() returns (any: bool)
      requires Valid() && Inv(View())
      modifies this`conns, this`resuming
      modifies PlainLists(), links.Values, TimeoutLists(), linksX.Values, eready, linksE.Values
      ensures Valid() && View() == ResumedWaiting(old(View())) && Inv(View())
      ensures any <==> exists c :: c in old(View()).suspended && c !in View().suspended
    {
      hide Inv, Valid, DList.Ids, ResumedAll;
      TailLink();
      NotResuming(View());
      var tail := if resuming then suspended.tail else null;
      ghost var list := if resuming then suspended.Ids() else [];
      NoLongerResuming();
      any := ResumeEach(tail, list);
    }

    method NoLongerResuming()
      requires Valid()
      modifies this`resuming
      ensures Valid() && View() == old(View()).(resuming := false)
    {
      hide Family;
      resuming := false;
    }

    // The link of the last of the `k` first connections on the list.
    ghost function LinkBefore(list: seq<Id>, k: nat): Link?
      requires k <= |list|
      reads this
    {
      if k > 0 && list[k - 1] in links then links[list[k - 1]] else null
    }

    lemma TailLink()
      requires Valid()
      ensures suspended.tail == LinkBefore(suspended.Ids(), |suspended.Ids()|)
    {
    }

    lemma PreviousLink(list: seq<Id>, k: nat)
      requires Valid() && 0 < k == |list| && list <= suspended.Ids()
      ensures list[k - 1] in conns && LinkBefore(list, k) != null && LinkBefore(list, k).id == list[k - 1]
      ensures LinkBefore(list, k).prev == LinkBefore(list, k - 1)
    {
      hide TimeoutsOk, ReadyOk, Proper, Apart, Loose;
      assert Made(suspended, links) && Pairs(links, Plain) && suspended.Valid() && links.Keys == conns.Keys;
      hide Family, PlainOk;
      LinkAt(list, k - 1);
      if k > 1 {
        LinkAt(list, k - 2);
        assert suspended.nodes[k - 1].prev == suspended.nodes[k - 2];
      }
    }

    lemma LinkAt(list: seq<Id>, i: nat)
      requires Made(suspended, links) && i < |list| && list <= suspended.Ids()
      ensures list[i] in links && links[list[i]] == suspended.nodes[i] && links[list[i]].id == list[i]
    {
      assert suspended.nodes[i] in suspended.nodes && suspended.Ids()[i] == list[i];
    }

    // cleanup_connection, the part under the mutex
    method RetireConnection(c: Id)
      requires Valid() && Inv(View()) && c in conns && conns[c].stage.Retiring?
      modifies this`conns, PlainLists(), links.Values, TimeoutLists(), linksX.Values
      ensures Valid() && View() == Retired(old(View()), c) && Inv(View())
    {
      hide Inv, Valid, DList.Ids, Put, OnCleanup, Deactivated, OffSuspended;
      RetireKeeps(View(), c);
      LeavingPlace(View(), c);
      var k := conns[c];
      if k.suspended {
        UnlinkSuspended(c);
      } else {
        UnlinkActive(c);
      }
      LinkCleanup(c);
      SetFields(c, k.(suspended := false, resuming := false, stage := Left));
    }

    // close_connection, the part under the mutex
    method ShutDownConnection(c: Id)
      requires Valid() && Inv(View()) && c in conns && conns[c].stage.ShuttingDown?
      modifies this`conns, PlainLists(), links.Values, TimeoutLists(), linksX.Values
      ensures Valid() && View() == ShutDown(old(View()), c) && Inv(View())
    {
      hide Inv, Valid, DList.Ids, Put, OnCleanup, Deactivated;
      ShutdownKeeps(View(), c);
      LeavingPlace(View(), c);
      UnlinkActive(c);
      LinkCleanup(c);
      SetFields(c, conns[c].(stage := Left));
    }

    // --- The cleanup loop ------------------------------------------------------------------

    ghost method NextRound(r: Round)
      requires Valid()
      modifies this`round
      ensures Valid() && View() == old(View()).(round := r)
    {
      hide Family;
      round := r;
    }

    // MHD_response_queue_for_destroy, for the response of `c`
    method QueueForDestroy(c: Id)
      requires Valid() && c in conns
      modifies this`conns, this`destroyed, this`owner
      ensures Valid() && View() == Released(old(View()), c)
    {
      hide Valid, DList.Ids;
      var response := conns[c].response;
      if response.Some? {
        SetFields(c, conns[c].(response := None));
        Queue(response.value);
      }
    }

    ghost method Queue(response: Ticket)
      requires Valid()
      modifies this`destroyed, this`owner
      ensures Valid()
      ensures View() == old(View()).(destroyed := old(destroyed) + [response], owner := old(owner) - {response})
    {
      hide Family;
      destroyed, owner := destroyed + [response], owner - {response};
    }

    // Off the ready list and out of the epoll set.
    method Unwatch(c: Id)
      requires Valid() && c in conns && (conns[c].inEready ==> c in eready.Ids())
      modifies this`conns, this`round, eready, linksE.Values
      ensures Valid() && View() == Unwatched(old(View()), c)
    {
      hide Valid, DList.Ids, Put, RemoveFirst;
      UnlinkReady(c);
      if epoll {
        SetFields(c, conns[c].(inEready := false, inEpollSet := false));
      }
      NextRound(NotWatched(c));
    }

    // The connection is freed, with its links.
    method FreeConnection(c: Id)
      requires Valid() && c in conns && Unplaced(c)
      requires c !in normalTimeout.Ids() && c !in manualTimeout.Ids() && c !in eready.Ids()
      modifies this`conns, this`links, this`linksX, this`linksE, this`round
      ensures Valid() && View() == Freed(old(View()), c)
      ensures links == old(links) - {c} && linksX == old(linksX) - {c} && linksE == old(linksE) - {c}
    {
      hide Valid, DList.Ids;
      FreeLinks(c);
      NextRound(Gone);
    }

    lemma ShrinkAll(c: Id)
      requires Valid() && c in conns && Unplaced(c)
      requires c !in normalTimeout.Ids() && c !in manualTimeout.Ids() && c !in eready.Ids()
      ensures Family(PlainLists(), links - {c}, Plain) && Family(TimeoutLists(), linksX - {c}, X)
      ensures Family({eready}, linksE - {c}, E)
    {
      hide Family, DList.Ids;
      TableShrinks(PlainLists(), links, Plain, c);
      TableShrinks(TimeoutLists(), linksX, X, c);
      TableShrinks({eready}, linksE, E, c);
    }

    method FreeLinks(c: Id)
      requires Valid() && c in conns && Unplaced(c)
      requires c !in normalTimeout.Ids() && c !in manualTimeout.Ids() && c !in eready.Ids()
      modifies this`conns, this`links, this`linksX, this`linksE
      ensures Valid() && View() == old(View()).(conns := old(conns) - {c})
      ensures links == old(links) - {c} && linksX == old(linksX) - {c} && linksE == old(linksE) - {c}
    {
      hide Family, DList.Ids;
      ShrinkAll(c);
      Retable(conns - {c}, links - {c}, linksX - {c}, linksE - {c});
    }

    // The tail of the cleanup list is unlinked.
    method UnlinkTail() returns (c: Id)
      requires Valid() && Inv(View()) && cleanup.tail != null
      modifies this`round, cleanup, links.Values
      ensures old(View()).cleanup != [] && c == old(View()).cleanup[|old(View()).cleanup| - 1]
      ensures Valid() && View() == Unlinked(old(View())) && c in conns
    {
      hide Inv, Valid, DList.Ids, RemoveFirst;
      CleanupTail();
      LastRemoved(View());
      c := cleanup.tail.id;
      RemovePlain(cleanup, c);
      NextRound(Popped(c));
    }

    lemma CleanupTail()
      requires Valid()
      ensures cleanup.tail == null <==> cleanup.Ids() == []
      ensures cleanup.head == null <==> cleanup.Ids() == []
      ensures cleanup.tail != null ==> cleanup.tail.id == cleanup.Ids()[|cleanup.Ids()| - 1]
    {
    }

    // One round of the loop, with nobody in between.
    method CleanUpOne() returns (pos: Id)
      requires Valid() && Inv(View()) && round.Idle? && cleanup.tail != null
      modifies this, cleanup, links.Values, eready, linksE.Values
      ensures old(View()).cleanup != [] && old(View()).cleanup[|old(View()).cleanup| - 1] in old(View()).conns
      ensures Valid() && View() == CleanupRound(old(View())) && Inv(View())
      ensures links == old(links) - {pos} && linksX == old(linksX) - {pos} && linksE == old(linksE) - {pos}
    {
      hide Inv, Valid, DList.Ids, Unlinked, TornDown, Freed, Uncounted;
      CleanupTail();
      RoundSteps(View());
      pos := TearDownTail();
      FreeAndCount(pos);
    }

    // Everything up to the point where the connection may be freed.
    method TearDownTail() returns (pos: Id)
      requires Valid() && Inv(View()) && round.Idle? && cleanup.tail != null
      modifies this`conns, this`round, this`destroyed, this`owner, cleanup, links.Values, eready, linksE.Values
      ensures old(View()).cleanup != [] && pos == old(View()).cleanup[|old(View()).cleanup| - 1]
      ensures pos in Unlinked(old(View())).conns && Valid() && View() == TornDown(Unlinked(old(View())), pos)
    {
      hide Inv, Valid, DList.Ids, Unlinked, HandleDropped, Unwatched, ResponseDropped;
      CleanupTail();
      RoundSteps(View());
      pos := UnlinkTail();
      TearDown(pos);
    }

    method TearDown(pos: Id)
      requires Valid() && pos in conns && pos in HandleDropped(View(), pos).conns
      requires HandleDropped(View(), pos).conns[pos].inEready ==> pos in HandleDropped(View(), pos).eready
      requires pos in Unwatched(HandleDropped(View(), pos), pos).conns
      modifies this`conns, this`round, this`destroyed, this`owner, eready, linksE.Values
      ensures Valid() && pos in old(View()).conns && View() == TornDown(old(View()), pos)
    {
      hide Valid, DList.Ids, HandleDropped, Unwatched, ResponseDropped;
      DropHandle(pos);
      Unwatch(pos);
      DropResponse(pos);
    }

    method FreeAndCount(pos: Id)
      requires Valid() && Orphaned(View(), pos)
      modifies this`conns, this`links, this`linksX, this`linksE, this`round, this`connections
      ensures Valid() && View() == Uncounted(Freed(old(View()), pos))
      ensures links == old(links) - {pos} && linksX == old(linksX) - {pos} && linksE == old(linksE) - {pos}
    {
      hide Valid, DList.Ids, Freed, Uncounted;
      FreeConnection(pos);
      CountOff();
    }

    method DropHandle(c: Id)
      requires Valid() && c in conns
      modifies this`conns, this`round
      ensures Valid() && View() == HandleDropped(old(View()), c)
    {
      hide Valid, DList.Ids;
      SetFields(c, conns[c].(forwarding := false));
      NextRound(NoHandle(c));
    }

    method DropResponse(c: Id)
      requires Valid() && c in conns
      modifies this`conns, this`destroyed, this`owner, this`round
      ensures Valid() && View() == ResponseDropped(old(View()), c)
    {
      hide Valid, DList.Ids, Released;
      QueueForDestroy(c);
      NextRound(NoResponse(c));
    }

    method CountOff()
      requires Valid()
      modifies this`connections, this`round
      ensures Valid() && View() == Uncounted(old(View()))
    {
      hide Valid, DList.Ids;
      Count(-1);
      NextRound(Idle);
    }

    // MHD_connection_cleanup_.  Here no other thread comes in between; what holds when
    // others do is proved of the steps of a round in module Connections.
    method ConnectionCleanup()
      requires Valid() && Inv(View()) && round.Idle?
      modifies this, PlainLists(), links.Values, TimeoutLists(), linksX.Values, eready, linksE.Values
      ensures Valid() && View() == CleanedAll(old(View())) && Inv(View())
      ensures cleanup.head == null && connections == old(connections) - |old(cleanup.Ids())|
    {
      hide Inv, Valid, DList.Ids, CleanupRound;
      LoopFreesTheList(View());
      ghost var d := View();
      CleanupTail();
      while cleanup.tail != null
        invariant Valid() && Inv(View()) && round.Idle? && CleanedAll(d) == CleanedAll(View())
        invariant links.Values <= old(links.Values) && linksX.Values <= old(linksX.Values)
        invariant linksE.Values <= old(linksE.Values)
        invariant cleanup.tail == null <==> cleanup.Ids() == []
        decreases |cleanup.Ids()|
      {
        RoundEnds(View());
        ghost var plain, x, e := links, linksX, linksE;
        var pos := CleanUpOne();
        FewerValues(plain, pos);
        FewerValues(x, pos);
        FewerValues(e, pos);
        CleanupTail();
      }
      CleanupTail();
    }
  }

  lemma NewPlace(d: Daemon, c: Id)
    requires Inv(d) && c !in d.conns
    ensures c !in d.active && c !in d.suspended && c !in d.cleanup && c !in d.normalTimeout && c !in d.manualTimeout
  {
  }

  lemma SuspendedFlag(d: Daemon, c: Id)
    requires Inv(d) && c in d.conns
    ensures d.conns[c].suspended <==> c in d.suspended
  {
    HasSeat(d, c);
  }

  // Where an active connection is linked.
  lemma ActivePlace(d: Daemon, c: Id)
    requires Inv(d) && c in d.conns && c in d.active
    ensures c !in d.suspended && c !in d.cleanup
    ensures !d.threadPerConnection ==> c in (if d.conns[c].manualTimeout then d.manualTimeout else d.normalTimeout)
    ensures d.conns[c].inEready ==> c in d.eready
  {
    HasSeat(d, c);
  }

  lemma TimeoutLeft(d: Daemon, c: Id)
    requires Inv(d) && c in d.active && c in d.conns && !d.threadPerConnection
    ensures var d' := OffTimeout(d, c);
      && c !in d'.normalTimeout && c !in d'.manualTimeout && d'.conns == d.conns
  {
    HasSeat(d, c);
    LeavesTimeout(d, c);
  }

  lemma DeactivatedPlace(d: Daemon, c: Id)
    requires Inv(d) && c in d.conns && c in d.active
    ensures var d' := Deactivated(d, c);
      && d' == d.(active := d'.active, normalTimeout := d'.normalTimeout, manualTimeout := d'.manualTimeout)
      && c !in d'.active
  {
    Deactivates(d, c);
  }

  lemma UnreadiedPlace(d: Daemon, c: Id)
    requires c in d.conns
    ensures Unreadied(d, c).conns == d.conns && Unreadied(d, c).epoll == d.epoll
  {
  }

  // Where a suspended connection is not linked.
  lemma SuspendedPlace(d: Daemon, c: Id)
    requires Inv(d) && c in d.conns && c in d.suspended
    ensures c !in d.active && c !in d.cleanup && c !in d.normalTimeout && c !in d.manualTimeout && c !in d.eready
    ensures var d' := OffSuspended(d, c); d' == d.(suspended := d'.suspended) && c !in d'.suspended
  {
    HasSeat(d, c);
    LeavesSuspended(d, c);
  }

  lemma ActivatedPlace(d: Daemon, c: Id)
    requires c in d.conns
    ensures Activated(d, c).conns == d.conns && Activated(d, c).eready == d.eready
  {
  }

  lemma ResumedAllNext(d: Daemon, todo: seq<Id>, front: seq<Id>)
    requires todo != [] && front == todo[..|todo| - 1] && todo[|todo| - 1] in d.conns
    ensures ResumedAll(d, todo) == ResumedAll(Resumed(d, todo[|todo| - 1]), front)
  {
    hide Resumed;
  }

  lemma ResumedAllDone(d: Daemon, todo: seq<Id>)
    requires todo == []
    ensures ResumedAll(d, todo) == d
  {
  }

  // The part of the list that is still to be visited stays as it is.
  lemma ResumedPrefix(d: Daemon, todo: seq<Id>, front: seq<Id>)
    requires Inv(d) && todo != [] && todo <= d.suspended && front == todo[..|todo| - 1]
    requires todo[|todo| - 1] in d.conns
    ensures todo[|todo| - 1] in d.suspended && front <= Resumed(d, todo[|todo| - 1]).suspended
  {
    var c, k := todo[|todo| - 1], |todo| - 1;
    assert d.suspended[k] == c;
    NotBefore(d.suspended, k);
    RemoveFirstAt(d.suspended, c, k);
    hide RemoveFirst;
    assert front <= d.suspended[..k];
  }

  // Where a connection is linked whose owner has begun to leave it, and after the first
  // removal.
  lemma LeavingPlace(d: Daemon, c: Id)
    requires Inv(d) && c in d.conns && (d.conns[c].stage.Retiring? || d.conns[c].stage.ShuttingDown?)
    ensures c !in d.cleanup && (d.conns[c].suspended <==> c in d.suspended) && (c in d.active <==> c !in d.suspended)
    ensures d.conns[c].stage.ShuttingDown? ==> c in d.active
    ensures c in d.suspended ==>
      var d' := OffSuspended(d, c); d' == d.(suspended := d'.suspended) && c !in d'.suspended
    ensures c in d.active && !d.threadPerConnection ==>
      c in (if d.conns[c].manualTimeout then d.manualTimeout else d.normalTimeout)
    ensures c in d.active ==>
      var d' := Deactivated(d, c);
      && d' == d.(active := d'.active, normalTimeout := d'.normalTimeout, manualTimeout := d'.manualTimeout)
      && c !in d'.active
  {
    HasSeat(d, c);
    if c in d.active {
      DeactivatedPlace(d, c);
    } else {
      LeavesSuspended(d, c);
    }
  }

  lemma LastRemoved(d: Daemon)
    requires Inv(d) && d.cleanup != []
    ensures var last := |d.cleanup| - 1;
      d.cleanup[last] in d.conns && RemoveFirst(d.cleanup, d.cleanup[last]) == d.cleanup[..last]
  {
    var last := |d.cleanup| - 1;
    NotBefore(d.cleanup, last);
    RemoveFirstAt(d.cleanup, d.cleanup[last], last);
    assert d.cleanup[last] in d.cleanup;
  }

  // What holds between the steps of a round.
  lemma RoundSteps(d: Daemon)
    requires Inv(d) && d.round.Idle? && d.cleanup != []
    ensures d.cleanup[|d.cleanup| - 1] in d.conns && Inv(CleanupRound(d))
    ensures var c, d1 := d.cleanup[|d.cleanup| - 1], Unlinked(d);
      && c in d1.conns && c in HandleDropped(d1, c).conns
      && (HandleDropped(d1, c).conns[c].inEready ==> c in HandleDropped(d1, c).eready)
      && c in Unwatched(HandleDropped(d1, c), c).conns
      && Orphaned(TornDown(d1, c), c)
  {
    RoundEnds(d);
    var c, d1 := d.cleanup[|d.cleanup| - 1], Unlinked(d);
    UnlinkKeeps(d);
    DropHandleKeeps(d1);
    var d2 := HandleDropped(d1, c);
    HasSeat(d2, c);
    UnwatchKeeps(d2);
    var d3 := Unwatched(d2, c);
    DropResponseKeeps(d3);
    FreeIsSafe(ResponseDropped(d3, c));
  }

  lemma FewerValues(m: map<Id, Link>, c: Id)
    ensures (m - {c}).Values <= m.Values
  {
  }
}
