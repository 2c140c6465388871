// The lists on which a daemon keeps its connections, and what every step under
// the cleanup mutex (or of the thread that owns a connection) does to them.
module Connections {
  import opened Lists
  import opened Options

  // A connection is known by a number that stands for its address.
  type Id = nat

  // A response, told apart by the occasion on which it was attached.
  type Ticket = nat

  // What the thread that owns a connection is doing with it: serving requests; nothing
  // more since it was upgraded; between the two parts of cleanup_connection or of
  // close_connection; nothing more since it has left it to the cleanup loop.
  datatype Stage = Working | Upgraded | Retiring | ShuttingDown | Left

  // The fields of a connection that matter here.  `manualTimeout` means that its timeout
  // is not the daemon's default, `forwarding` that it has an upgrade handle, of which
  // `wasClosed` and `cleanReady` are fields.
  datatype Connection = Connection(
    suspended: bool, resuming: bool, manualTimeout: bool,
    inEready: bool, inEpollSet: bool, epollSuspended: bool,
    response: Option<Ticket>, closed: bool, inCleanup: bool,
    forwarding: bool, wasClosed: bool, cleanReady: bool, stage: Stage)

  const NEW := Connection(false, false, false, false, false, false, None, false, false, false, false, false, Working)

  // Where the cleanup loop is in its round: it has unlinked a connection, freed its
  // upgrade handle, taken it from the ready list and the epoll set, given up its
  // response, freed it, and not yet counted it off.
  datatype Round = Idle | Popped(id: Id) | NoHandle(id: Id) | NotWatched(id: Id) | NoResponse(id: Id) | Gone

  // Lists start with the element inserted last.  `destroyed` is the history of
  // MHD_response_queue_for_destroy, `attached` counts the responses ever attached,
  // and `owner` says to which connection a response still belongs.
  datatype Daemon = Daemon(
    threadPerConnection: bool, epoll: bool, limit: nat,
    conns: map<Id, Connection>,
    active: seq<Id>, suspended: seq<Id>, cleanup: seq<Id>, normalTimeout: seq<Id>, manualTimeout: seq<Id>,
    eready: seq<Id>, round: Round,
    connections: int, resuming: bool,
    destroyed: seq<Ticket>, attached: nat, owner: map<Ticket, Id>)

  // --- What every step keeps ---------------------------------------------------------

  function One(b: bool): nat {
    if b then 1 else 0
  }

  // How far the cleanup loop has got with connection `c`.
  function Torn(r: Round, c: Id): nat {
    match r
    case Idle => 0
    case Popped(id) => if id == c then 1 else 0
    case NoHandle(id) => if id == c then 2 else 0
    case NotWatched(id) => if id == c then 3 else 0
    case NoResponse(id) => if id == c then 4 else 0
    case Gone => 0
  }

  // On which lists a connection is, and how far it is torn down.
  datatype Seat = Seat(
    active: bool, suspended: bool, cleanup: bool, torn: nat, normal: bool, manual: bool, eready: bool)

  function SeatOf(d: Daemon, c: Id): Seat {
    Seat(c in d.active, c in d.suspended, c in d.cleanup, Torn(d.round, c),
         c in d.normalTimeout, c in d.manualTimeout, c in d.eready)
  }

  // What the owner is doing agrees with where the connection is.
  predicate Staged(s: Seat, k: Connection) {
    && (k.forwarding ==> k.stage.Upgraded?)
    && (k.stage.Working? ==> (s.active || s.suspended) && !k.inCleanup)
    && (k.stage.Retiring? ==> (s.active || s.suspended) && k.response.None?)
    && (k.stage.ShuttingDown? ==> s.active && k.response.None?)
    && (k.stage.Left? ==> (s.cleanup || s.torn > 0) && k.response.None?)
    && (s.torn >= 2 ==> !k.forwarding)
    && (s.torn >= 3 ==> !k.inEready && !k.inEpollSet)
    && (s.torn >= 4 ==> k.response.None?)
  }

  // The flags of a connection agree with its lists, exactly one of which owns it.
  predicate Agrees(threadPerConnection: bool, epoll: bool, s: Seat, k: Connection) {
    && One(s.active) + One(s.suspended) + One(s.cleanup) + One(s.torn > 0) == 1
    && (k.suspended <==> s.suspended)
    && (k.resuming ==> k.suspended)
    && (s.normal <==> s.active && !threadPerConnection && !k.manualTimeout)
    && (s.manual <==> s.active && !threadPerConnection && k.manualTimeout)
    && (k.inEready <==> s.eready)
    && (k.suspended ==> !k.inEready && !k.inEpollSet && (epoll ==> k.epollSuspended))
    && (s.active ==> !k.epollSuspended)
    && (!epoll ==> !k.inEready && !k.inEpollSet && !k.epollSuspended)
    && Staged(s, k)
  }

  ghost predicate AllAgree(d: Daemon) {
    forall c :: c in d.conns ==> Agrees(d.threadPerConnection, d.epoll, SeatOf(d, c), d.conns[c])
  }

  // Nothing else is on a list, and nothing twice.
  ghost predicate Linked(d: Daemon) {
    && Distinct(d.active) && Distinct(d.suspended) && Distinct(d.cleanup)
    && Distinct(d.normalTimeout) && Distinct(d.manualTimeout) && Distinct(d.eready)
    && (forall c :: c in d.active || c in d.suspended || c in d.cleanup ==> c in d.conns)
    && (forall c :: c in d.normalTimeout || c in d.manualTimeout || c in d.eready ==> c in d.conns)
    && (!d.round.Idle? && !d.round.Gone? ==> d.round.id in d.conns)
    && (!d.epoll ==> d.eready == [])
  }

  // The counter is the number of listed connections plus the one in the cleanup round,
  // and within the limit.
  ghost predicate Counted(d: Daemon) {
    && d.connections == |d.active| + |d.suspended| + |d.cleanup| + One(!d.round.Idle?)
    && d.connections <= d.limit
  }

  // Every response that was ever attached either belongs to the one connection that
  // points to it or has been queued for destruction, once.
  ghost predicate Owned(d: Daemon) {
    && Distinct(d.destroyed)
    && (forall t: Ticket :: t in d.destroyed <==> t < d.attached && t !in d.owner)
    && (forall t :: t in d.owner ==> t < d.attached)
    && (forall t :: t in d.owner ==> d.owner[t] in d.conns && d.conns[d.owner[t]].response == Some(t))
    && (forall c :: c in d.conns && d.conns[c].response.Some? ==>
          d.conns[c].response.value in d.owner && d.owner[d.conns[c].response.value] == c)
  }

  ghost predicate Inv(d: Daemon) {
    Linked(d) && Counted(d) && Owned(d) && AllAgree(d)
  }

  // --- The steps -----------------------------------------------------------------------

  function Put(d: Daemon, c: Id, k: Connection): Daemon {
    d.(conns := d.conns[c := k])
  }

  // Unlinks `c` from its timeout list, or links it there.
  function OffTimeout(d: Daemon, c: Id): Daemon
    requires c in d.conns
  {
    if d.conns[c].manualTimeout then d.(manualTimeout := RemoveFirst(d.manualTimeout, c))
    else d.(normalTimeout := RemoveFirst(d.normalTimeout, c))
  }

  function OnTimeout(d: Daemon, c: Id): Daemon
    requires c in d.conns
  {
    if d.conns[c].manualTimeout then d.(manualTimeout := [c] + d.manualTimeout)
    else d.(normalTimeout := [c] + d.normalTimeout)
  }

  // Unlinks `c` from the active list and from its timeout list.
  function Deactivated(d: Daemon, c: Id): Daemon
    requires c in d.conns
  {
    (if d.threadPerConnection then d else OffTimeout(d, c)).(active := RemoveFirst(d.active, c))
  }

  // Links `c` into the active list and into its timeout list.
  function Activated(d: Daemon, c: Id): Daemon
    requires c in d.conns
  {
    (if d.threadPerConnection then d else OnTimeout(d, c)).(active := [c] + d.active)
  }

  // MHD_connection_set_timeout
  function Retimed(d: Daemon, c: Id, manual: bool): Daemon
    requires c in d.conns
  {
    var k := d.conns[c].(manualTimeout := manual);
    if d.threadPerConnection || k.suspended then Put(d, c, k)
    else OnTimeout(Put(OffTimeout(d, c), c, k), c)
  }

  // MHD_update_last_activity_, which moves a connection to the head of its list.
  function Touched(d: Daemon, c: Id): Daemon
    requires c in d.conns
  {
    if d.threadPerConnection || d.conns[c].suspended || d.conns[c].manualTimeout then d
    else Retimed(d, c, false)
  }

  // The part of connection_add that links a new connection.
  function Added(d: Daemon, c: Id): Daemon {
    if d.connections >= d.limit then d
    else
      Activated(Put(d, c, NEW).(connections := d.connections + 1), c)
  }

  // A response is queued for the request of `c`.
  function Attached(d: Daemon, c: Id): Daemon
    requires c in d.conns
  {
    Put(d, c, d.conns[c].(response := Some(d.attached))).(
      attached := d.attached + 1, owner := d.owner[d.attached := c])
  }

  // The response of `c`, if any, is queued for destruction.
  function Released(d: Daemon, c: Id): Daemon
    requires c in d.conns
  {
    match d.conns[c].response
    case None => d
    case Some(t) =>
      Put(d, c, d.conns[c].(response := None)).(destroyed := d.destroyed + [t], owner := d.owner - {t})
  }

  // The epoll loop adds `c` to its set or finds it ready.
  function Watched(d: Daemon, c: Id): Daemon
    requires c in d.conns
  {
    Put(d, c, d.conns[c].(inEpollSet := true))
  }

  function Readied(d: Daemon, c: Id): Daemon
    requires c in d.conns
  {
    if d.conns[c].inEready then d
    else Put(d, c, d.conns[c].(inEready := true)).(eready := [c] + d.eready)
  }

  // Off the ready list, if the flag says that it is on it.
  function Unreadied(d: Daemon, c: Id): Daemon
    requires c in d.conns
  {
    if d.epoll && d.conns[c].inEready then d.(eready := RemoveFirst(d.eready, c)) else d
  }

  // The fields of a connection that becomes suspended.
  function Paused(epoll: bool, k: Connection): Connection {
    if epoll then k.(suspended := true, inEready := false, inEpollSet := false, epollSuspended := true)
    else k.(suspended := true)
  }

  function OnSuspended(d: Daemon, c: Id): Daemon {
    d.(suspended := [c] + d.suspended)
  }

  // From the active list to the suspended list.
  function ActivePaused(d: Daemon, c: Id): Daemon
    requires c in d.conns
  {
    var d1 := OnSuspended(Deactivated(d, c), c);
    Put(Unreadied(d1, c), c, Paused(d.epoll, d.conns[c]))
  }

  // suspend_action
  function Suspended(d: Daemon, c: Id): Daemon
    requires c in d.conns
  {
    if d.conns[c].resuming then Put(d, c, d.conns[c].(resuming := false)) else ActivePaused(d, c)
  }

  // MHD_request_resume
  function ResumeRequested(d: Daemon, c: Id): Daemon
    requires c in d.conns
  {
    Put(d, c, d.conns[c].(resuming := true)).(resuming := true)
  }

  function OffSuspended(d: Daemon, c: Id): Daemon {
    d.(suspended := RemoveFirst(d.suspended, c))
  }

  function OnCleanup(d: Daemon, c: Id): Daemon {
    d.(cleanup := [c] + d.cleanup)
  }

  function OnReady(d: Daemon, c: Id): Daemon {
    if d.epoll then d.(eready := [c] + d.eready) else d
  }

  // The fields of a connection that becomes active again.
  function Woken(epoll: bool, k: Connection): Connection {
    var k1 := k.(suspended := false, resuming := false);
    if epoll && !k.forwarding then k1.(inEready := true, epollSuspended := false) else k1
  }

  // Back to the active list.
  function Reactivated(d: Daemon, c: Id): Daemon
    requires c in d.conns
  {
    Put(OnReady(Activated(OffSuspended(d, c), c), c), c, Woken(d.epoll, d.conns[c]))
  }

  // One round of MHD_resume_suspended_connections_.
  function Resumed(d: Daemon, c: Id): Daemon
    requires c in d.conns
  {
    var k := d.conns[c];
    if !k.resuming || (k.forwarding && (!k.wasClosed || !k.cleanReady)) then d
    else if k.forwarding then Put(OnCleanup(OffSuspended(d, c), c), c, Woken(d.epoll, k))
    else Reactivated(d, c)
  }

  // All rounds, from the tail of the list `todo` to its head.
  function ResumedAll(d: Daemon, todo: seq<Id>): Daemon
    decreases |todo|
  {
    if todo == [] then d
    else
      var c := todo[|todo| - 1];
      ResumedAll(if c in d.conns then Resumed(d, c) else d, todo[..|todo| - 1])
  }

  // MHD_connection_mark_closed_
  function MarkedClosed(d: Daemon, c: Id): Daemon
    requires c in d.conns
  {
    Put(d, c, d.conns[c].(closed := true))
  }

  // MHD_connection_close_
  function Closed(d: Daemon, c: Id): Daemon
    requires c in d.conns
  {
    Released(MarkedClosed(d, c), c)
  }

  // The upgrade of a connection gives it a handle.
  function UpgradeBegun(d: Daemon, c: Id): Daemon
    requires c in d.conns
  {
    Put(d, c, d.conns[c].(forwarding := true, wasClosed := false, cleanReady := false, stage := Upgraded))
  }

  // The application has closed an upgraded connection.
  function AppClosed(d: Daemon, c: Id): Daemon
    requires c in d.conns
  {
    Put(d, c, d.conns[c].(wasClosed := true))
  }

  // Forwarding for an upgraded connection is finished.
  function ForwardFinished(d: Daemon, c: Id): Daemon
    requires c in d.conns
  {
    Put(d, c, d.conns[c].(cleanReady := true))
  }

  // cleanup_connection, before the mutex
  function CleanupBegun(d: Daemon, c: Id): Daemon
    requires c in d.conns
  {
    if d.conns[c].inCleanup then d
    else
      var d1 := Released(d, c);
      Put(d1, c, d1.conns[c].(inCleanup := true, stage := Retiring))
  }

  // cleanup_connection, under the mutex: from the list it is on to the cleanup list.
  function Retired(d: Daemon, c: Id): Daemon
    requires c in d.conns
  {
    var d1 := if d.conns[c].suspended then OffSuspended(d, c) else Deactivated(d, c);
    Put(OnCleanup(d1, c), c, d.conns[c].(suspended := false, resuming := false, stage := Left))
  }

  // close_connection of the daemon's shutdown, before the mutex
  function ShutdownBegun(d: Daemon, c: Id): Daemon
    requires c in d.conns
  {
    var d1 := Closed(d, c);
    Put(d1, c, d1.conns[c].(stage := ShuttingDown))
  }

  // close_connection, under the mutex
  function ShutDown(d: Daemon, c: Id): Daemon
    requires c in d.conns
  {
    Put(OnCleanup(Deactivated(d, c), c), c, d.conns[c].(stage := Left))
  }

  // A round of MHD_connection_cleanup_: the tail of the cleanup list is unlinked, and
  // the mutex given up.
  function Unlinked(d: Daemon): Daemon
    requires d.cleanup != []
  {
    var last := |d.cleanup| - 1;
    d.(cleanup := d.cleanup[..last], round := Popped(d.cleanup[last]))
  }

  // connection_cleanup_upgraded
  function HandleDropped(d: Daemon, c: Id): Daemon
    requires c in d.conns
  {
    Put(d, c, d.conns[c].(forwarding := false)).(round := NoHandle(c))
  }

  // Off the ready list and out of the epoll set.
  function Unwatched(d: Daemon, c: Id): Daemon
    requires c in d.conns
  {
    (if d.epoll then Put(Unreadied(d, c), c, d.conns[c].(inEready := false, inEpollSet := false)) else d).(
      round := NotWatched(c))
  }

  function ResponseDropped(d: Daemon, c: Id): Daemon
    requires c in d.conns
  {
    Released(d, c).(round := NoResponse(c))
  }

  // The connection is freed.
  function Freed(d: Daemon, c: Id): Daemon {
    d.(conns := d.conns - {c}, round := Gone)
  }

  // With the mutex again, the counter goes down.
  function Uncounted(d: Daemon): Daemon {
    d.(round := Idle, connections := d.connections - 1)
  }

  // MHD_resume_suspended_connections_
  function ResumedWaiting(d: Daemon): Daemon {
    ResumedAll(d.(resuming := false), if d.resuming then d.suspended else [])
  }

  // --- Runs ------------------------------------------------------------------------------

  datatype Action =
    | Add(c: Id) | Attach(c: Id) | Release(c: Id) | Watch(c: Id) | Ready(c: Id)
    | SetTimeout(c: Id, manual: bool) | Touch(c: Id)
    | Suspend(c: Id) | Resume(c: Id) | ResumeWaiting
    | Upgrade(c: Id) | AppClose(c: Id) | FinishForward(c: Id)
    | MarkClosed(c: Id) | Close(c: Id)
    | BeginCleanup(c: Id) | Retire(c: Id) | BeginShutdown(c: Id) | FinishShutdown(c: Id)
    | Unlink | DropHandle | Unwatch | DropResponse | Free | Uncount

  // A step of the owner of `c`, or of another thread to which `c` is known; None if the
  // code does not take it in this state.
  function StepOfOne(d: Daemon, c: Id, a: Action): Option<Daemon> {
    if c !in d.conns then None
    else
      var k := d.conns[c];
      match a
      case Attach(_) => if c in d.active && k.stage.Working? && k.response.None? then Some(Attached(d, c)) else None
      case Release(_) => if k.stage.Working? || (k.stage.Upgraded? && !k.cleanReady) then Some(Released(d, c)) else None
      case Watch(_) => if c in d.active && d.epoll then Some(Watched(d, c)) else None
      case Ready(_) => if c in d.active && d.epoll then Some(Readied(d, c)) else None
      case SetTimeout(_, manual) => if c in d.active || c in d.suspended then Some(Retimed(d, c, manual)) else None
      case Touch(_) => if k.stage.Working? then Some(Touched(d, c)) else None
      case Suspend(_) =>
        if c in d.active || (c in d.suspended && k.resuming) then
          if k.stage.Working? || k.stage.Upgraded? then Some(Suspended(d, c)) else None
        else None
      case Resume(_) => if c in d.suspended then Some(ResumeRequested(d, c)) else None
      case Upgrade(_) => if c in d.active && k.stage.Working? then Some(UpgradeBegun(d, c)) else None
      case AppClose(_) => if k.forwarding then Some(AppClosed(d, c)) else None
      case FinishForward(_) => if k.forwarding then Some(ForwardFinished(d, c)) else None
      case MarkClosed(_) => Some(MarkedClosed(d, c))
      case Close(_) => if k.stage.Working? then Some(Closed(d, c)) else None
      case BeginCleanup(_) => if k.stage.Working? || k.inCleanup then Some(CleanupBegun(d, c)) else None
      case Retire(_) => if k.stage.Retiring? then Some(Retired(d, c)) else None
      case BeginShutdown(_) =>
        if c in d.active && k.stage.Working? && !d.threadPerConnection then Some(ShutdownBegun(d, c)) else None
      case FinishShutdown(_) => if k.stage.ShuttingDown? then Some(ShutDown(d, c)) else None
      case _ => None
  }

  // The next step of the cleanup loop.  It tears down what it has unlinked, whatever
  // other threads have done in the meantime.
  function CleanupStep(d: Daemon, a: Action): Option<Daemon> {
    match (a, d.round)
    case (Unlink, Idle) => if d.cleanup != [] then Some(Unlinked(d)) else None
    case (DropHandle, Popped(c)) => if c in d.conns then Some(HandleDropped(d, c)) else None
    case (Unwatch, NoHandle(c)) => if c in d.conns then Some(Unwatched(d, c)) else None
    case (DropResponse, NotWatched(c)) => if c in d.conns then Some(ResponseDropped(d, c)) else None
    case (Free, NoResponse(c)) => Some(Freed(d, c))
    case (Uncount, Gone) => Some(Uncounted(d))
    case _ => None
  }

  function Step(d: Daemon, a: Action): Option<Daemon> {
    match a
    case Add(c) => if c !in d.conns then Some(Added(d, c)) else None
    case ResumeWaiting => Some(ResumedWaiting(d))
    case Unlink => CleanupStep(d, a)
    case DropHandle => CleanupStep(d, a)
    case Unwatch => CleanupStep(d, a)
    case DropResponse => CleanupStep(d, a)
    case Free => CleanupStep(d, a)
    case Uncount => CleanupStep(d, a)
    case _ => StepOfOne(d, a.c, a)
  }

  // The state after a whole run; None if some step of it is not one of the code.
  function Exec(d: Daemon, actions: seq<Action>): Option<Daemon> {
    if actions == [] then Some(d)
    else
      match Exec(d, actions[..|actions| - 1])
      case None => None
      case Some(d') => Step(d', actions[|actions| - 1])
  }

  // --- Every step keeps the invariant -------------------------------------------------------

  lemma {:induction false} RemoveFirstLength<T>(s: seq<T>, x: T)
    ensures |RemoveFirst(s, x)| == |s| - (if x in s then 1 else 0)
  {
    if s != [] && s[0] != x {
      assert s == [s[0]] + s[1..];
      RemoveFirstLength(s[1..], x);
    }
  }

  // What unlinking `c` does to a list.
  lemma Unlinks(s: seq<Id>, c: Id)
    requires Distinct(s)
    ensures var t := RemoveFirst(s, c);
      && Distinct(t) && |t| == |s| - One(c in s) && (forall x :: x in t <==> x in s && x != c)
  {
    RemoveFirstKeeps(s, c);
    RemoveFirstMembers(s, c);
    RemoveFirstLength(s, c);
  }

  // Only connection `c` and its place have changed, and they agree.
  lemma OthersAgree(d: Daemon, d': Daemon, c: Id)
    requires AllAgree(d) && d'.threadPerConnection == d.threadPerConnection && d'.epoll == d.epoll
    requires forall x :: x in d'.conns && x != c ==>
      x in d.conns && d'.conns[x] == d.conns[x] && SeatOf(d', x) == SeatOf(d, x)
    requires c in d'.conns ==> Agrees(d.threadPerConnection, d.epoll, SeatOf(d', c), d'.conns[c])
    ensures AllAgree(d')
  {
    hide Agrees, SeatOf;
  }

  // Responses are where they were.
  ghost predicate SameResponses(d: Daemon, d': Daemon) {
    && d'.destroyed == d.destroyed && d'.attached == d.attached && d'.owner == d.owner
    && (forall c :: c in d.conns && d.conns[c].response.Some? ==> c in d'.conns)
    && (forall c :: c in d'.conns ==>
          if c in d.conns then d'.conns[c].response == d.conns[c].response else d'.conns[c].response == None)
  }

  lemma OwnedStays(d: Daemon, d': Daemon)
    requires Owned(d) && SameResponses(d, d')
    ensures Owned(d')
  {
  }

  // Only fields of connection `c` have changed.
  lemma PutKeeps(d: Daemon, d': Daemon, c: Id, k: Connection)
    requires Inv(d) && c in d.conns && Agrees(d.threadPerConnection, d.epoll, SeatOf(d, c), k)
    requires d' == Put(d, c, k).(destroyed := d'.destroyed, attached := d'.attached, owner := d'.owner,
                                 resuming := d'.resuming)
    ensures Linked(d') && Counted(d') && AllAgree(d')
  {
    hide Agrees, Owned;
    OthersAgree(d, d', c);
  }

  lemma AddKeeps(d: Daemon, c: Id)
    requires Inv(d) && c !in d.conns
    ensures Inv(Added(d, c))
  {
    if d.connections < d.limit {
      AddReseats(d, c);
      hide Linked, Counted, Owned, AllAgree, Agrees, Activated, SeatOf, Reseated;
      NewAgrees(d);
      MoveKeeps(d, Added(d, c), c, Seat(true, false, false, 0, !d.threadPerConnection, false, false), NEW);
    }
  }

  lemma AddReseats(d: Daemon, c: Id)
    requires Linked(d) && Counted(d) && c !in d.conns && d.connections < d.limit
    ensures var d' := Added(d, c);
      && d' == d.(conns := d.conns[c := NEW], connections := d.connections + 1, active := d'.active,
                  normalTimeout := d'.normalTimeout, manualTimeout := d'.manualTimeout)
      && Linked(d') && Counted(d')
      && Reseated(d, d', c, Seat(true, false, false, 0, !d.threadPerConnection, false, false))
  {
    hide Linked, Activated, SeatOf;
    var d1 := Put(d, c, NEW).(connections := d.connections + 1);
    NewIsNowhere(d, c);
    HasRoom(d, d1, c);
    Activates(d1, c);
    ReseatedTwice(d, d1, Added(d, c), c, SeatOf(d1, c), SeatOf(Added(d, c), c));
  }

  lemma HasRoom(d: Daemon, d1: Daemon, c: Id)
    requires Linked(d) && c !in d.conns && d1 == Put(d, c, NEW).(connections := d1.connections)
    ensures Linked(d1) && Reseated(d, d1, c, SeatOf(d, c))
    ensures c !in d1.active && c !in d1.normalTimeout && c !in d1.manualTimeout
  {
    hide Distinct;
  }

  lemma NewIsNowhere(d: Daemon, c: Id)
    requires Linked(d) && c !in d.conns
    ensures SeatOf(d, c) == Seat(false, false, false, 0, false, false, false)
  {
  }

  lemma NewAgrees(d: Daemon)
    ensures Agrees(d.threadPerConnection, d.epoll,
                   Seat(true, false, false, 0, !d.threadPerConnection, false, false), NEW)
  {
  }

  lemma AttachKeeps(d: Daemon, c: Id)
    requires Inv(d) && c in d.active && c in d.conns && d.conns[c].stage.Working? && d.conns[c].response.None?
    ensures Inv(Attached(d, c))
  {
    hide Linked, Owned, AllAgree, SeatOf;
    OwnedAttaches(d, c);
    HasSeat(d, c);
    PutKeeps(d, Attached(d, c), c, d.conns[c].(response := Some(d.attached)));
  }

  lemma HasSeat(d: Daemon, c: Id)
    requires AllAgree(d) && c in d.conns
    ensures Agrees(d.threadPerConnection, d.epoll, SeatOf(d, c), d.conns[c])
  {
  }

  lemma OwnedAttaches(d: Daemon, c: Id)
    requires Owned(d) && c in d.conns && d.conns[c].response.None?
    ensures Owned(Attached(d, c))
  {
  }

  lemma OwnedReleases(d: Daemon, c: Id)
    requires Owned(d) && c in d.conns
    ensures Owned(Released(d, c))
  {
    if d.conns[c].response.Some? {
      var t, d' := d.conns[c].response.value, Released(d, c);
      assert t in d.owner && d.owner[t] == c && t !in d.destroyed;
      forall x | x in d'.owner
        ensures d'.owner[x] in d'.conns && d'.conns[d'.owner[x]].response == Some(x)
      {
        assert x in d.owner && x != t;
      }
    }
  }

  // `c` sits where it did in `d`, but for the change `to`; all others sit where they did.
  ghost predicate Reseated(d: Daemon, d': Daemon, c: Id, to: Seat) {
    SeatOf(d', c) == to && forall x :: x != c ==> SeatOf(d', x) == SeatOf(d, x)
  }

  // Connection `c` has moved and its fields have changed.
  lemma MoveKeeps(d: Daemon, d': Daemon, c: Id, seat: Seat, k: Connection)
    requires Inv(d) && Reseated(d, d', c, seat) && Agrees(d.threadPerConnection, d.epoll, seat, k)
    requires d'.threadPerConnection == d.threadPerConnection && d'.epoll == d.epoll
    requires d'.conns == d.conns[c := k] && Linked(d') && Counted(d')
    requires k.response == if c in d.conns then d.conns[c].response else None
    requires d'.destroyed == d.destroyed && d'.attached == d.attached && d'.owner == d.owner
    ensures Inv(d')
  {
    hide Linked, Counted, Owned, Agrees, SeatOf;
    OthersAgree(d, d', c);
    OwnedStays(d, d');
  }

  lemma Inserts(s: seq<Id>, c: Id)
    requires Distinct(s) && c !in s
    ensures Distinct([c] + s) && |[c] + s| == |s| + 1
    ensures forall x :: x in [c] + s <==> x == c || x in s
  {
  }

  lemma ReleaseKeeps(d: Daemon, c: Id)
    requires Inv(d) && c in d.conns
    ensures Inv(Released(d, c))
  {
    hide Linked, Owned, AllAgree, SeatOf;
    OwnedReleases(d, c);
    HasSeat(d, c);
    if d.conns[c].response.Some? {
      PutKeeps(d, Released(d, c), c, d.conns[c].(response := None));
    }
  }

  // Only flags of connection `c` have changed.
  lemma FlagsKeep(d: Daemon, d': Daemon, c: Id, k: Connection)
    requires Inv(d) && c in d.conns && Agrees(d.threadPerConnection, d.epoll, SeatOf(d, c), k)
    requires k.response == d.conns[c].response && d' == Put(d, c, k).(resuming := d'.resuming)
    ensures Inv(d')
  {
    hide Linked, Owned, AllAgree, SeatOf, Agrees;
    PutKeeps(d, d', c, k);
    OwnedStays(d, d');
  }

  lemma WatchKeeps(d: Daemon, c: Id)
    requires Inv(d) && c in d.active && d.epoll
    ensures Inv(Watched(d, c))
  {
    HasSeat(d, c);
    FlagsKeep(d, Watched(d, c), c, d.conns[c].(inEpollSet := true));
  }

  lemma MarkClosedKeeps(d: Daemon, c: Id)
    requires Inv(d) && c in d.conns
    ensures Inv(MarkedClosed(d, c))
  {
    HasSeat(d, c);
    FlagsKeep(d, MarkedClosed(d, c), c, d.conns[c].(closed := true));
  }

  lemma ResumeKeeps(d: Daemon, c: Id)
    requires Inv(d) && c in d.suspended
    ensures Inv(ResumeRequested(d, c))
  {
    HasSeat(d, c);
    FlagsKeep(d, ResumeRequested(d, c), c, d.conns[c].(resuming := true));
  }

  lemma ReadyKeeps(d: Daemon, c: Id)
    requires Inv(d) && c in d.active && d.epoll
    ensures Inv(Readied(d, c))
  {
    HasSeat(d, c);
    if !d.conns[c].inEready {
      hide Owned, AllAgree;
      Inserts(d.eready, c);
      MoveKeeps(d, Readied(d, c), c, SeatOf(d, c).(eready := true), d.conns[c].(inEready := true));
    }
  }

  lemma LeavesTimeout(d: Daemon, c: Id)
    requires Linked(d) && c in d.conns
    requires c in d.normalTimeout ==> !d.conns[c].manualTimeout
    requires c in d.manualTimeout ==> d.conns[c].manualTimeout
    ensures var d' := OffTimeout(d, c);
      && d' == d.(normalTimeout := d'.normalTimeout, manualTimeout := d'.manualTimeout) && Linked(d')
      && Reseated(d, d', c, SeatOf(d, c).(normal := false, manual := false))
  {
    Unlinks(d.normalTimeout, c);
    Unlinks(d.manualTimeout, c);
  }

  lemma EntersTimeout(d: Daemon, c: Id)
    requires Linked(d) && c in d.conns && c !in d.normalTimeout && c !in d.manualTimeout
    ensures var d', manual := OnTimeout(d, c), d.conns[c].manualTimeout;
      && d' == d.(normalTimeout := d'.normalTimeout, manualTimeout := d'.manualTimeout) && Linked(d')
      && Reseated(d, d', c, SeatOf(d, c).(normal := !manual, manual := manual))
  {
    Inserts(d.normalTimeout, c);
    Inserts(d.manualTimeout, c);
  }

  // A new timeout takes the connection to the list for timeouts of its kind.
  lemma RetimeKeeps(d: Daemon, c: Id, manual: bool)
    requires Inv(d) && c in d.conns && (c in d.active || c in d.suspended)
    ensures Inv(Retimed(d, c, manual))
  {
    var k := d.conns[c].(manualTimeout := manual);
    HasSeat(d, c);
    if d.threadPerConnection || k.suspended {
      FlagsKeep(d, Retimed(d, c, manual), c, k);
    } else {
      RetimeMoves(d, c, manual, k);
    }
  }

  lemma RetimeMoves(d: Daemon, c: Id, manual: bool, k: Connection)
    requires Inv(d) && c in d.conns && c in d.active && !d.threadPerConnection && !d.conns[c].suspended
    requires k == d.conns[c].(manualTimeout := manual)
    ensures Inv(Retimed(d, c, manual))
  {
    hide Owned, AllAgree, OffTimeout, OnTimeout;
    var d1 := OffTimeout(d, c);
    var d2 := Put(d1, c, k);
    var d3 := OnTimeout(d2, c);
    HasSeat(d, c);
    LeavesTimeout(d, c);
    PutSeats(d1, c, k);
    assert SeatOf(d2, c) == SeatOf(d, c).(normal := false, manual := false);
    EntersTimeout(d2, c);
    ReseatedTwice(d, d1, d2, c, SeatOf(d1, c), SeatOf(d2, c));
    ReseatedTwice(d, d2, d3, c, SeatOf(d2, c), SeatOf(d3, c));
    MoveKeeps(d, d3, c, SeatOf(d3, c), k);
  }

  lemma TouchKeeps(d: Daemon, c: Id)
    requires Inv(d) && c in d.conns && d.conns[c].stage.Working?
    ensures Inv(Touched(d, c))
  {
    HasSeat(d, c);
    hide Inv, Retimed;
    if !d.threadPerConnection && !d.conns[c].suspended && !d.conns[c].manualTimeout {
      RetimeKeeps(d, c, false);
    }
  }

  // Unlinking `c` from the active list and its timeout list.
  lemma Deactivates(d: Daemon, c: Id)
    requires Inv(d) && c in d.active
    ensures var d' := Deactivated(d, c);
      && d' == d.(active := d'.active, normalTimeout := d'.normalTimeout, manualTimeout := d'.manualTimeout)
      && Linked(d') && |d'.active| == |d.active| - 1
      && Reseated(d, d', c, SeatOf(d, c).(active := false, normal := false, manual := false))
  {
    hide Owned, AllAgree;
    Unlinks(d.active, c);
    Unlinks(d.normalTimeout, c);
    Unlinks(d.manualTimeout, c);
    HasSeat(d, c);
  }

  lemma SuspendKeeps(d: Daemon, c: Id)
    requires Inv(d) && c in d.conns && (d.conns[c].stage.Working? || d.conns[c].stage.Upgraded?)
    requires (c in d.active || (c in d.suspended && d.conns[c].resuming))
    ensures Inv(Suspended(d, c))
  {
    HasSeat(d, c);
    if d.conns[c].resuming {
      FlagsKeep(d, Suspended(d, c), c, d.conns[c].(resuming := false));
    } else {
      ActiveSuspends(d, c);
    }
  }

  lemma Unreadies(d: Daemon, c: Id)
    requires Linked(d) && c in d.conns && (d.conns[c].inEready <==> c in d.eready)
    ensures var d' := Unreadied(d, c);
      && d' == d.(eready := d'.eready) && Linked(d')
      && Reseated(d, d', c, SeatOf(d, c).(eready := false))
  {
    Unlinks(d.eready, c);
  }

  lemma ReseatedTwice(d: Daemon, d1: Daemon, d2: Daemon, c: Id, s1: Seat, s2: Seat)
    requires Reseated(d, d1, c, s1) && Reseated(d1, d2, c, s2)
    ensures Reseated(d, d2, c, s2)
  {
    hide SeatOf;
    forall x | x != c ensures SeatOf(d2, x) == SeatOf(d, x) {
      assert SeatOf(d1, x) == SeatOf(d, x);
    }
  }

  lemma EntersSuspended(d: Daemon, c: Id)
    requires Linked(d) && c in d.conns && c !in d.suspended
    ensures var d' := OnSuspended(d, c);
      && Linked(d') && |d'.suspended| == |d.suspended| + 1
      && Reseated(d, d', c, SeatOf(d, c).(suspended := true))
  {
    Inserts(d.suspended, c);
  }

  lemma PutSeats(d: Daemon, c: Id, k: Connection)
    requires Linked(d) && c in d.conns
    ensures Linked(Put(d, c, k)) && Reseated(d, Put(d, c, k), c, SeatOf(d, c))
  {
  }

  // Where everybody is after an active connection was suspended.
  lemma SuspendReseats(d: Daemon, c: Id)
    requires Inv(d) && c in d.active && !d.conns[c].resuming
    ensures var d' := Suspended(d, c);
      && d' == d.(conns := d.conns[c := Paused(d.epoll, d.conns[c])], active := d'.active,
                  normalTimeout := d'.normalTimeout, manualTimeout := d'.manualTimeout,
                  suspended := d'.suspended, eready := d'.eready)
      && Linked(d') && Counted(d')
      && Reseated(d, d', c, Seat(false, true, false, 0, false, false, false))
  {
    hide Owned, AllAgree, Deactivated, Unreadied, OnSuspended;
    var d1 := Deactivated(d, c);
    var d2 := OnSuspended(d1, c);
    HasSeat(d, c);
    Deactivates(d, c);
    assert SeatOf(d1, c) == SeatOf(d, c).(active := false, normal := false, manual := false);
    EntersSuspended(d1, c);
    OnlySuspendedGrows(d1, c);
    assert SeatOf(d2, c) == SeatOf(d1, c).(suspended := true);
    var d3 := Unreadied(d2, c);
    Unreadies(d2, c);
    PutSeats(d3, c, Paused(d.epoll, d.conns[c]));
    ReseatedTwice(d, d1, d2, c, SeatOf(d1, c), SeatOf(d2, c));
    ReseatedTwice(d, d2, d3, c, SeatOf(d2, c), SeatOf(d3, c));
    ReseatedTwice(d, d3, Suspended(d, c), c, SeatOf(d3, c), SeatOf(d3, c));
  }

  lemma OnlySuspendedGrows(d: Daemon, c: Id)
    ensures OnSuspended(d, c) == d.(suspended := OnSuspended(d, c).suspended)
  {
  }

  // The seat on the suspended list suits a connection that was active.
  lemma SuspendedSuits(threadPerConnection: bool, epoll: bool, s: Seat, k: Connection)
    requires Agrees(threadPerConnection, epoll, s, k) && s.active && (k.stage.Working? || k.stage.Upgraded?)
    ensures Agrees(threadPerConnection, epoll, Seat(false, true, false, 0, false, false, false), Paused(epoll, k))
  {
  }

  lemma ActiveSuspends(d: Daemon, c: Id)
    requires Inv(d) && c in d.active && c in d.conns && !d.conns[c].resuming
    requires d.conns[c].stage.Working? || d.conns[c].stage.Upgraded?
    ensures Inv(Suspended(d, c))
  {
    HasSeat(d, c);
    SuspendReseats(d, c);
    SuspendedSuits(d.threadPerConnection, d.epoll, SeatOf(d, c), d.conns[c]);
    hide Owned, AllAgree, Linked, Counted, Reseated, Suspended, Agrees, Paused;
    MoveKeeps(d, Suspended(d, c), c, Seat(false, true, false, 0, false, false, false),
              Paused(d.epoll, d.conns[c]));
  }

  lemma ResumedKeeps(d: Daemon, c: Id)
    requires Inv(d) && c in d.suspended
    ensures Inv(Resumed(d, c))
  {
    var k := d.conns[c];
    if k.resuming && k.forwarding && k.wasClosed && k.cleanReady {
      ResumedDone(d, c);
    } else if k.resuming && !k.forwarding {
      ResumedActive(d, c);
    }
  }

  lemma OthersStaySuspended(d: Daemon, c: Id)
    requires Linked(d) && c in d.conns
    ensures Resumed(d, c).conns.Keys == d.conns.Keys
    ensures forall x :: x in d.suspended && x != c ==> x in Resumed(d, c).suspended
  {
    Unlinks(d.suspended, c);
  }

  lemma ResumedDone(d: Daemon, c: Id)
    requires Inv(d) && c in d.suspended && d.conns[c].resuming
    requires d.conns[c].forwarding && d.conns[c].wasClosed && d.conns[c].cleanReady
    ensures Inv(Resumed(d, c))
  {
    hide Owned, AllAgree;
    HasSeat(d, c);
    Unlinks(d.suspended, c);
    Inserts(d.cleanup, c);
    MoveKeeps(d, Resumed(d, c), c, SeatOf(d, c).(suspended := false, cleanup := true), Resumed(d, c).conns[c]);
  }

  lemma SuspendedSeat(d: Daemon, c: Id)
    requires AllAgree(d) && c in d.conns && c in d.suspended
    ensures SeatOf(d, c) == Seat(false, true, false, 0, false, false, false)
    ensures !d.epoll ==> !d.conns[c].inEready && !d.conns[c].epollSuspended
    ensures var k := d.conns[c];
      Agrees(d.threadPerConnection, d.epoll,
             Seat(true, false, false, 0, !d.threadPerConnection && !k.manualTimeout,
                  !d.threadPerConnection && k.manualTimeout, d.epoll),
             k.(suspended := false, resuming := false, inEready := d.epoll, epollSuspended := false))
  {
  }

  lemma Activates(d: Daemon, c: Id)
    requires Linked(d) && c in d.conns
    requires c !in d.active && c !in d.normalTimeout && c !in d.manualTimeout
    ensures var d', own := Activated(d, c), !d.threadPerConnection;
      && d' == d.(active := d'.active, normalTimeout := d'.normalTimeout, manualTimeout := d'.manualTimeout)
      && Linked(d') && |d'.active| == |d.active| + 1
      && Reseated(d, d', c, SeatOf(d, c).(
           active := true, normal := own && !d.conns[c].manualTimeout, manual := own && d.conns[c].manualTimeout))
  {
    Inserts(d.active, c);
    Inserts(d.normalTimeout, c);
    Inserts(d.manualTimeout, c);
  }

  lemma LeavesSuspended(d: Daemon, c: Id)
    requires Linked(d) && c in d.suspended
    ensures var d' := OffSuspended(d, c);
      && Linked(d') && |d'.suspended| == |d.suspended| - 1
      && Reseated(d, d', c, SeatOf(d, c).(suspended := false))
  {
    Unlinks(d.suspended, c);
  }

  // The ready list and connection `c` after a resumption.
  lemma EntersReady(d: Daemon, d': Daemon, c: Id, k: Connection)
    requires Linked(d) && c in d.conns && c !in d.eready
    requires d' == Put(OnReady(d, c), c, k)
    ensures Linked(d') && Reseated(d, d', c, SeatOf(d, c).(eready := d.epoll))
  {
    Inserts(d.eready, c);
  }

  lemma ResumedActive(d: Daemon, c: Id)
    requires Inv(d) && c in d.suspended && d.conns[c].resuming && !d.conns[c].forwarding
    ensures Inv(Resumed(d, c))
  {
    hide Owned, AllAgree, Agrees, Activated;
    SuspendedSeat(d, c);
    ResumedReseats(d, c);
    hide Resumed, SeatOf, Linked, Counted, Reseated;
    var d', k, own := Resumed(d, c), d.conns[c], !d.threadPerConnection;
    MoveKeeps(d, d', c, Seat(true, false, false, 0, own && !k.manualTimeout, own && k.manualTimeout, d.epoll),
              d'.conns[c]);
  }

  lemma ResumedReseats(d: Daemon, c: Id)
    requires Inv(d) && c in d.suspended && d.conns[c].resuming && !d.conns[c].forwarding
    ensures var d', k, own := Resumed(d, c), d.conns[c], !d.threadPerConnection;
      && Linked(d') && Counted(d')
      && Reseated(d, d', c, Seat(true, false, false, 0, own && !k.manualTimeout, own && k.manualTimeout, d.epoll))
      && d' == d.(conns := d.conns[c := d'.conns[c]], active := d'.active, suspended := d'.suspended,
                  normalTimeout := d'.normalTimeout, manualTimeout := d'.manualTimeout, eready := d'.eready)
      && d'.conns[c] == k.(suspended := false, resuming := false, inEready := d.epoll, epollSuspended := false)
  {
    hide Owned, AllAgree, Agrees, Activated;
    var d1 := OffSuspended(d, c);
    var d2, d3 := Activated(d1, c), Resumed(d, c);
    SuspendedSeat(d, c);
    LeavesSuspended(d, c);
    assert SeatOf(d1, c) == SeatOf(d, c).(suspended := false);
    Activates(d1, c);
    assert !SeatOf(d2, c).eready;
    EntersReady(d2, d3, c, d3.conns[c]);
    ReseatedTwice(d, d1, d2, c, SeatOf(d1, c), SeatOf(d2, c));
    ReseatedTwice(d, d2, d3, c, SeatOf(d2, c), SeatOf(d3, c));
  }

  lemma {:induction false} ResumedAllKeeps(d: Daemon, todo: seq<Id>)
    requires Inv(d) && Distinct(todo) && forall i :: 0 <= i < |todo| ==> todo[i] in d.suspended
    ensures Inv(ResumedAll(d, todo))
    decreases |todo|
  {
    if todo != [] {
      hide Linked, Owned, AllAgree, Counted, Resumed;
      ResumedKeeps(d, todo[|todo| - 1]);
      OthersStaySuspended(d, todo[|todo| - 1]);
      ResumedAllKeeps(Resumed(d, todo[|todo| - 1]), todo[..|todo| - 1]);
    }
  }

  lemma ResumeWaitingKeeps(d: Daemon)
    requires Inv(d)
    ensures Inv(ResumedWaiting(d))
  {
    var d1 := d.(resuming := false);
    assert Inv(d1) by { NotResuming(d); }
    ResumedAllKeeps(d1, if d.resuming then d.suspended else []);
  }

  lemma NotResuming(d: Daemon)
    requires Inv(d)
    ensures Inv(d.(resuming := false))
  {
    var d' := d.(resuming := false);
    assert forall c :: c in d.conns ==> SeatOf(d', c) == SeatOf(d, c);
  }

  lemma CloseKeeps(d: Daemon, c: Id)
    requires Inv(d) && c in d.conns
    ensures Inv(Closed(d, c))
  {
    MarkClosedKeeps(d, c);
    ReleaseKeeps(MarkedClosed(d, c), c);
  }

  // Giving up the response leaves `c` where it was.
  lemma ReleasedPlace(d: Daemon, c: Id)
    requires c in d.conns
    ensures var d' := Released(d, c);
      && d' == d.(conns := d'.conns, destroyed := d'.destroyed, owner := d'.owner)
      && d'.conns.Keys == d.conns.Keys && d'.conns[c] == d.conns[c].(response := None)
      && SeatOf(d', c) == SeatOf(d, c)
  {
  }

  lemma UpgradeKeeps(d: Daemon, c: Id)
    requires Inv(d) && c in d.conns && c in d.active && d.conns[c].stage.Working?
    ensures Inv(UpgradeBegun(d, c))
  {
    HasSeat(d, c);
    FlagsKeep(d, UpgradeBegun(d, c), c, UpgradeBegun(d, c).conns[c]);
  }

  lemma ForwardKeeps(d: Daemon, c: Id, wasClosed: bool, cleanReady: bool)
    requires Inv(d) && c in d.conns
    ensures Inv(Put(d, c, d.conns[c].(wasClosed := wasClosed, cleanReady := cleanReady)))
  {
    var k := d.conns[c].(wasClosed := wasClosed, cleanReady := cleanReady);
    HasSeat(d, c);
    FlagsKeep(d, Put(d, c, k), c, k);
  }

  lemma BeginCleanupKeeps(d: Daemon, c: Id)
    requires Inv(d) && c in d.conns && (d.conns[c].stage.Working? || d.conns[c].inCleanup)
    ensures Inv(CleanupBegun(d, c))
  {
    if !d.conns[c].inCleanup {
      hide Linked, Owned, AllAgree, Counted, Released;
      ReleaseKeeps(d, c);
      ReleasedPlace(d, c);
      HasSeat(d, c);
      FlagsKeep(Released(d, c), CleanupBegun(d, c), c, CleanupBegun(d, c).conns[c]);
    }
  }

  lemma BeginShutdownKeeps(d: Daemon, c: Id)
    requires Inv(d) && c in d.conns && c in d.active && d.conns[c].stage.Working?
    ensures Inv(ShutdownBegun(d, c))
  {
    hide Linked, Owned, AllAgree, Counted, Released;
    var d0 := MarkedClosed(d, c);
    HasSeat(d, c);
    CloseKeeps(d, c);
    ReleasedPlace(d0, c);
    assert SeatOf(d0, c) == SeatOf(d, c);
    FlagsKeep(Closed(d, c), ShutdownBegun(d, c), c, ShutdownBegun(d, c).conns[c]);
  }

  // A seat on the cleanup list suits a connection whose owner has begun to leave it.
  lemma CleanupSuits(threadPerConnection: bool, epoll: bool, s: Seat, k: Connection)
    requires Agrees(threadPerConnection, epoll, s, k) && (k.stage.Retiring? || k.stage.ShuttingDown?)
    ensures Agrees(threadPerConnection, epoll,
                   s.(active := false, normal := false, manual := false, suspended := false, cleanup := true),
                   k.(suspended := false, resuming := false, stage := Left))
    ensures s.active != s.suspended && !s.cleanup && s.torn == 0
  {
  }

  // A connection whose owner has begun to leave it goes to the cleanup list.
  lemma ActiveLeaves(d: Daemon, c: Id, k: Connection)
    requires Inv(d) && c in d.active && c in d.conns
    requires d.conns[c].stage.Retiring? || d.conns[c].stage.ShuttingDown?
    requires k == d.conns[c].(suspended := false, resuming := false, stage := Left)
    ensures Inv(Put(OnCleanup(Deactivated(d, c), c), c, k))
  {
    hide Owned, AllAgree, Agrees, Deactivated;
    HasSeat(d, c);
    CleanupSuits(d.threadPerConnection, d.epoll, SeatOf(d, c), d.conns[c]);
    Deactivates(d, c);
    Inserts(d.cleanup, c);
    var seat := SeatOf(d, c).(active := false, normal := false, manual := false, suspended := false, cleanup := true);
    MoveKeeps(d, Put(OnCleanup(Deactivated(d, c), c), c, k), c, seat, k);
  }

  lemma SuspendedLeaves(d: Daemon, c: Id, k: Connection)
    requires Inv(d) && c in d.suspended && c in d.conns && d.conns[c].stage.Retiring?
    requires k == d.conns[c].(suspended := false, resuming := false, stage := Left)
    ensures Inv(Put(OnCleanup(OffSuspended(d, c), c), c, k))
  {
    hide Owned, AllAgree, Agrees;
    HasSeat(d, c);
    CleanupSuits(d.threadPerConnection, d.epoll, SeatOf(d, c), d.conns[c]);
    SuspendedNowhereElse(d, c);
    Unlinks(d.suspended, c);
    Inserts(d.cleanup, c);
    var seat := SeatOf(d, c).(active := false, normal := false, manual := false, suspended := false, cleanup := true);
    MoveKeeps(d, Put(OnCleanup(OffSuspended(d, c), c), c, k), c, seat, k);
  }

  lemma SuspendedNowhereElse(d: Daemon, c: Id)
    requires AllAgree(d) && c in d.conns && c in d.suspended
    ensures SeatOf(d, c) == Seat(false, true, false, 0, false, false, false)
  {
    HasSeat(d, c);
  }

  lemma RetireKeeps(d: Daemon, c: Id)
    requires Inv(d) && c in d.conns && d.conns[c].stage.Retiring?
    ensures Inv(Retired(d, c))
  {
    HasSeat(d, c);
    hide Inv, Deactivated, OffSuspended, OnCleanup;
    var k := d.conns[c].(suspended := false, resuming := false, stage := Left);
    if d.conns[c].suspended {
      SuspendedLeaves(d, c, k);
    } else {
      ActiveLeaves(d, c, k);
    }
  }

  lemma ShutdownKeeps(d: Daemon, c: Id)
    requires Inv(d) && c in d.conns && d.conns[c].stage.ShuttingDown?
    ensures Inv(ShutDown(d, c))
  {
    HasSeat(d, c);
    hide Inv, Deactivated, OnCleanup;
    ActiveLeaves(d, c, d.conns[c].(stage := Left));
  }

  // --- The cleanup round ----------------------------------------------------------------

  lemma LastOfDistinct(s: seq<Id>)
    requires Distinct(s) && s != []
    ensures var t, c := s[..|s| - 1], s[|s| - 1];
      Distinct(t) && forall x :: x in t <==> x in s && x != c
  {
    assert s == s[..|s| - 1] + [s[|s| - 1]];
  }

  // The loop has gone on with connection `c`, whose fields have become `k`.
  lemma RoundKeeps(d: Daemon, d': Daemon, c: Id, k: Connection)
    requires Inv(d) && c in d.conns && Torn(d.round, c) > 0 && Torn(d'.round, c) > 0
    requires d' == d.(conns := d.conns[c := k], round := d'.round)
    requires k.response == d.conns[c].response
    requires Agrees(d.threadPerConnection, d.epoll, SeatOf(d, c).(torn := Torn(d'.round, c)), k)
    ensures Inv(d')
  {
    hide Owned, AllAgree, Agrees;
    MoveKeeps(d, d', c, SeatOf(d, c).(torn := Torn(d'.round, c)), k);
  }

  lemma UnlinkKeeps(d: Daemon)
    requires Inv(d) && d.cleanup != [] && d.round.Idle?
    ensures Inv(Unlinked(d))
  {
    hide Owned, AllAgree;
    LastOfDistinct(d.cleanup);
    var c := d.cleanup[|d.cleanup| - 1];
    assert c in d.cleanup;
    HasSeat(d, c);
    assert d.conns[c := d.conns[c]] == d.conns;
    MoveKeeps(d, Unlinked(d), c, SeatOf(d, c).(cleanup := false, torn := 1), d.conns[c]);
  }

  lemma DropHandleKeeps(d: Daemon)
    requires Inv(d) && d.round.Popped?
    ensures d.round.id in d.conns && Inv(HandleDropped(d, d.round.id))
  {
    var c := d.round.id;
    HasSeat(d, c);
    RoundKeeps(d, HandleDropped(d, c), c, d.conns[c].(forwarding := false));
  }

  lemma UnwatchKeeps(d: Daemon)
    requires Inv(d) && d.round.NoHandle?
    ensures d.round.id in d.conns && Inv(Unwatched(d, d.round.id))
  {
    var c := d.round.id;
    HasSeat(d, c);
    if d.epoll {
      UnwatchMoves(d, c);
    } else {
      assert d.conns[c := d.conns[c]] == d.conns;
      RoundKeeps(d, Unwatched(d, c), c, d.conns[c]);
    }
  }

  lemma UnwatchMoves(d: Daemon, c: Id)
    requires Inv(d) && d.round == NoHandle(c) && d.epoll && c in d.conns
    ensures Inv(Unwatched(d, c))
  {
    hide Owned, AllAgree, Unreadied;
    HasSeat(d, c);
    Unreadies(d, c);
    var d' := Unwatched(d, c);
    assert SeatOf(d', c) == SeatOf(d, c).(eready := false, torn := 3);
    MoveKeeps(d, d', c, SeatOf(d, c).(eready := false, torn := 3), d'.conns[c]);
  }

  lemma DropResponseKeeps(d: Daemon)
    requires Inv(d) && d.round.NotWatched?
    ensures d.round.id in d.conns && Inv(ResponseDropped(d, d.round.id))
  {
    var c := d.round.id;
    ReleaseKeeps(d, c);
    ReleasedPlace(d, c);
    hide Linked, Owned, AllAgree, Released;
    AfterRelease(Released(d, c), c);
  }

  lemma AfterRelease(d1: Daemon, c: Id)
    requires Inv(d1) && d1.round == NotWatched(c) && c in d1.conns && d1.conns[c].response.None?
    ensures Inv(d1.(round := NoResponse(c)))
  {
    HasSeat(d1, c);
    assert d1.conns[c := d1.conns[c]] == d1.conns;
    NoResponseSuits(d1.threadPerConnection, d1.epoll, SeatOf(d1, c), d1.conns[c]);
    hide Inv, Agrees;
    RoundKeeps(d1, d1.(round := NoResponse(c)), c, d1.conns[c]);
  }

  lemma NoResponseSuits(threadPerConnection: bool, epoll: bool, s: Seat, k: Connection)
    requires Agrees(threadPerConnection, epoll, s, k) && s.torn == 3 && k.response.None?
    ensures Agrees(threadPerConnection, epoll, s.(torn := 4), k)
  {
  }

  // The connection has no response and no handle any more, and no list leads to it.
  ghost predicate Orphaned(d: Daemon, c: Id) {
    && c in d.conns && d.conns[c].response.None? && !d.conns[c].forwarding && !d.conns[c].inEpollSet
    && SeatOf(d, c) == Seat(false, false, false, 4, false, false, false)
  }

  lemma FreeIsSafe(d: Daemon)
    requires Inv(d) && d.round.NoResponse?
    ensures Orphaned(d, d.round.id)
  {
    HasSeat(d, d.round.id);
  }

  lemma FreeKeeps(d: Daemon)
    requires Inv(d) && d.round.NoResponse?
    ensures Inv(Freed(d, d.round.id))
  {
    var c := d.round.id;
    FreeIsSafe(d);
    FreedLinks(d, c);
    hide Linked, Counted, Owned, Agrees, SeatOf;
    OwnedStays(d, Freed(d, c));
    OthersAgree(d, Freed(d, c), c);
  }

  lemma FreedLinks(d: Daemon, c: Id)
    requires Linked(d) && Counted(d) && d.round == NoResponse(c)
    requires SeatOf(d, c) == Seat(false, false, false, 4, false, false, false)
    ensures Linked(Freed(d, c)) && Counted(Freed(d, c))
    ensures forall x :: x != c ==> SeatOf(Freed(d, c), x) == SeatOf(d, x)
  {
    hide Distinct;
  }

  lemma UncountKeeps(d: Daemon)
    requires Inv(d) && d.round.Gone?
    ensures Inv(Uncounted(d)) && Uncounted(d).connections >= 0
  {
    var d' := Uncounted(d);
    assert forall x :: x in d'.conns ==> SeatOf(d', x) == SeatOf(d, x);
  }

  lemma CleanupStepKeeps(d: Daemon, a: Action)
    requires Inv(d) && CleanupStep(d, a).Some?
    ensures Inv(CleanupStep(d, a).value)
  {
    hide Inv, Unlinked, HandleDropped, Unwatched, ResponseDropped, Freed, Uncounted;
    match a
    case Unlink => UnlinkKeeps(d);
    case DropHandle => DropHandleKeeps(d);
    case Unwatch => UnwatchKeeps(d);
    case DropResponse => DropResponseKeeps(d);
    case Free => FreeKeeps(d);
    case Uncount => UncountKeeps(d);
    case _ =>
  }

  // --- Runs keep the invariant -------------------------------------------------------------

  lemma OwnerStepKeeps(d: Daemon, c: Id, a: Action)
    requires Inv(d) && StepOfOne(d, c, a).Some?
    ensures Inv(StepOfOne(d, c, a).value)
  {
    hide Inv, Attached, Released, Watched, Readied, Retimed, Touched, Suspended, ResumeRequested, UpgradeBegun,
         MarkedClosed, Closed, CleanupBegun, Retired, ShutdownBegun, ShutDown;
    match a
    case Attach(_) => AttachKeeps(d, c);
    case Release(_) => ReleaseKeeps(d, c);
    case Watch(_) => WatchKeeps(d, c);
    case Ready(_) => ReadyKeeps(d, c);
    case SetTimeout(_, manual) => RetimeKeeps(d, c, manual);
    case Touch(_) => TouchKeeps(d, c);
    case Suspend(_) => SuspendKeeps(d, c);
    case Resume(_) => ResumeKeeps(d, c);
    case Upgrade(_) => UpgradeKeeps(d, c);
    case AppClose(_) => ForwardKeeps(d, c, true, d.conns[c].cleanReady);
    case FinishForward(_) => ForwardKeeps(d, c, d.conns[c].wasClosed, true);
    case MarkClosed(_) => MarkClosedKeeps(d, c);
    case Close(_) => CloseKeeps(d, c);
    case BeginCleanup(_) => BeginCleanupKeeps(d, c);
    case Retire(_) => RetireKeeps(d, c);
    case BeginShutdown(_) => BeginShutdownKeeps(d, c);
    case FinishShutdown(_) => ShutdownKeeps(d, c);
    case _ =>
  }

  lemma StepKeeps(d: Daemon, a: Action)
    requires Inv(d) && Step(d, a).Some?
    ensures Inv(Step(d, a).value)
  {
    hide Inv, Added, ResumedWaiting, StepOfOne, CleanupStep;
    match a
    case Add(c) => AddKeeps(d, c);
    case ResumeWaiting => ResumeWaitingKeeps(d);
    case Unlink => CleanupStepKeeps(d, a);
    case DropHandle => CleanupStepKeeps(d, a);
    case Unwatch => CleanupStepKeeps(d, a);
    case DropResponse => CleanupStepKeeps(d, a);
    case Free => CleanupStepKeeps(d, a);
    case Uncount => CleanupStepKeeps(d, a);
    case _ => OwnerStepKeeps(d, a.c, a);
  }

  // A daemon before its first connection.
  ghost predicate Initial(d: Daemon) {
    && d.conns == map[] && d.active == [] && d.suspended == [] && d.cleanup == [] && d.normalTimeout == []
    && d.manualTimeout == [] && d.eready == [] && d.round == Idle && d.connections == 0
    && d.destroyed == [] && d.attached == 0 && d.owner == map[]
  }

  lemma InitialInv(d: Daemon)
    requires Initial(d)
    ensures Inv(d)
  {
  }

  // In every run, whatever happens between the steps of a cleanup round and between the
  // parts of a cleanup: flags, lists, counter, owners and responses agree.
  lemma {:induction false} ReachableInv(d0: Daemon, actions: seq<Action>)
    requires Initial(d0) && Exec(d0, actions).Some?
    ensures Inv(Exec(d0, actions).value)
  {
    hide Inv, Step;
    if actions == [] {
      InitialInv(d0);
    } else {
      var front := actions[..|actions| - 1];
      ReachableInv(d0, front);
      StepKeeps(Exec(d0, front).value, actions[|actions| - 1]);
    }
  }

  function Members(s: seq<Id>): set<Id> {
    set x | x in s
  }

  function InRound(r: Round): set<Id> {
    if r.Idle? || r.Gone? then {} else {r.id}
  }

  lemma {:induction false} DistinctCount(s: seq<Id>)
    requires Distinct(s)
    ensures |Members(s)| == |s|
  {
    if s != [] {
      var front, last := s[..|s| - 1], s[|s| - 1];
      DistinctCount(front);
      assert s == front + [last];
      assert Members(s) == Members(front) + {last};
      assert last !in Members(front);
    }
  }

  // The connections that exist are the ones on the lists and the one in the round.
  lemma WhereAllAre(d: Daemon)
    requires Inv(d)
    ensures d.conns.Keys == Members(d.active) + Members(d.suspended) + Members(d.cleanup) + InRound(d.round)
    ensures Members(d.active) !! Members(d.suspended) !! Members(d.cleanup) !! InRound(d.round)
  {
    hide Owned, Agrees;
    forall c | c in d.conns
      ensures One(c in d.active) + One(c in d.suspended) + One(c in d.cleanup) + One(Torn(d.round, c) > 0) == 1
    {
      OnePlace(d, c);
    }
    forall c | c in d.active || c in d.suspended || c in d.cleanup || Torn(d.round, c) > 0 ensures c in d.conns {
    }
  }

  lemma OnePlace(d: Daemon, c: Id)
    requires AllAgree(d) && c in d.conns
    ensures One(c in d.active) + One(c in d.suspended) + One(c in d.cleanup) + One(Torn(d.round, c) > 0) == 1
  {
    HasSeat(d, c);
  }

  // The counter is never beyond the limit, and counts the connections that exist; but
  // for the moment after the cleanup loop has freed one and not yet got the mutex back.
  lemma CounterIsRight(d0: Daemon, actions: seq<Action>)
    requires Initial(d0) && Exec(d0, actions).Some?
    ensures var d := Exec(d0, actions).value;
      && 0 <= d.connections <= d.limit
      && d.connections == |d.conns| + One(d.round.Gone?)
      && d.connections == |d.active| + |d.suspended| + |d.cleanup| + One(!d.round.Idle?)
  {
    ReachableInv(d0, actions);
    var d := Exec(d0, actions).value;
    hide Exec;
    AllCounted(d);
  }

  lemma AllCounted(d: Daemon)
    requires Inv(d)
    ensures 0 <= d.connections <= d.limit && d.connections == |d.conns| + One(d.round.Gone?)
    ensures d.connections == |d.active| + |d.suspended| + |d.cleanup| + One(!d.round.Idle?)
  {
    WhereAllAre(d);
    hide Owned, AllAgree, Members, Distinct;
    DistinctCount(d.active);
    DistinctCount(d.suspended);
    DistinctCount(d.cleanup);
    DisjointCount(Members(d.active), Members(d.suspended), Members(d.cleanup), InRound(d.round));
    assert |d.conns| == |d.conns.Keys|;
  }

  lemma DisjointCount(a: set<Id>, b: set<Id>, c: set<Id>, e: set<Id>)
    requires a !! b !! c !! e
    ensures |a + b + c + e| == |a| + |b| + |c| + |e|
  {
  }

  // Once all connections are freed, every response ever attached has been queued
  // for destruction exactly once, whether its connection was closed first or not.
  lemma EveryResponseDestroyedOnce(d0: Daemon, actions: seq<Action>)
    requires Initial(d0) && Exec(d0, actions).Some? && Exec(d0, actions).value.conns == map[]
    ensures var d := Exec(d0, actions).value;
      Distinct(d.destroyed) && forall t: Ticket :: t in d.destroyed <==> t < d.attached
  {
    ReachableInv(d0, actions);
  }

  // And before that none is queued twice, or while its connection still points to it.
  lemma NoResponseDestroyedEarly(d0: Daemon, actions: seq<Action>, c: Id)
    requires Initial(d0) && Exec(d0, actions).Some?
    requires var d := Exec(d0, actions).value; c in d.conns && d.conns[c].response.Some?
    ensures var d := Exec(d0, actions).value;
      && Distinct(d.destroyed) && d.conns[c].response.value !in d.destroyed
      && forall x :: x in d.conns && x != c ==> d.conns[x].response != d.conns[c].response
  {
    ReachableInv(d0, actions);
  }

  // In every run the loop may free what it has torn down: nothing leads to it any more.
  lemma NothingFreedIsListed(d0: Daemon, actions: seq<Action>)
    requires Initial(d0) && Exec(d0, actions).Some? && Exec(d0, actions).value.round.NoResponse?
    ensures var d := Exec(d0, actions).value;
      Orphaned(d, d.round.id) && Step(d, Free) == Some(Freed(d, d.round.id))
  {
    hide Exec, Inv, Freed, Orphaned;
    ReachableInv(d0, actions);
    FreeIsSafe(Exec(d0, actions).value);
  }

  // --- Suspension ----------------------------------------------------------------------------

  // After suspend_action the connection is on the suspended list and on no other, and
  // its flags say so; everybody else stays in place.  This includes the early return.
  lemma SuspendedOnly(d: Daemon, c: Id)
    requires Inv(d) && c in d.conns && (c in d.active || (c in d.suspended && d.conns[c].resuming))
    ensures var d' := Suspended(d, c);
      && SeatOf(d', c) == Seat(false, true, false, 0, false, false, false)
      && d'.conns[c].suspended && !d'.conns[c].resuming && !d'.conns[c].inEready && !d'.conns[c].inEpollSet
      && (d.epoll ==> d'.conns[c].epollSuspended)
      && (forall x :: x != c ==> SeatOf(d', x) == SeatOf(d, x))
      && (forall x :: x in d.conns && x != c ==> x in d'.conns && d'.conns[x] == d.conns[x])
  {
    HasSeat(d, c);
    if d.conns[c].resuming {
      hide AllAgree, Owned;
      PutSeats(d, c, d.conns[c].(resuming := false));
    } else {
      SuspendReseats(d, c);
      hide Inv, Agrees, Deactivated, Unreadied, OnSuspended;
    }
  }

  // --- The cleanup loop ------------------------------------------------------------------------

  // One round without interference.
  function CleanupRound(d: Daemon): Daemon
    requires d.cleanup != [] && d.cleanup[|d.cleanup| - 1] in d.conns
  {
    var c := d.cleanup[|d.cleanup| - 1];
    TornFrame(Unlinked(d), c);
    Uncounted(Freed(TornDown(Unlinked(d), c), c))
  }

  // What the loop does with a connection before it frees it.
  function TornDown(d: Daemon, c: Id): (d': Daemon)
    requires c in d.conns
  {
    var d1 := HandleDropped(d, c);
    var d2 := Unwatched(d1, c);
    ResponseDropped(d2, c)
  }

  lemma TornFrame(d: Daemon, c: Id)
    requires c in d.conns
    ensures var d' := TornDown(d, c);
      && d' == d.(conns := d'.conns, eready := d'.eready, destroyed := d'.destroyed, owner := d'.owner,
                  round := NoResponse(c))
      && d'.conns.Keys == d.conns.Keys
  {
    hide RemoveFirst;
  }

  lemma RoundEnds(d: Daemon)
    requires Inv(d) && d.cleanup != [] && d.round.Idle?
    ensures d.cleanup[|d.cleanup| - 1] in d.conns
    ensures var d' := CleanupRound(d);
      && Inv(d') && d'.round.Idle? && d'.cleanup == d.cleanup[..|d.cleanup| - 1]
      && d'.connections == d.connections - 1
      && d'.conns.Keys == d.conns.Keys - {d.cleanup[|d.cleanup| - 1]}
  {
    var c := d.cleanup[|d.cleanup| - 1];
    assert c in d.cleanup;
    UnlinkKeeps(d);
    var d1 := Unlinked(d);
    hide Inv, Unwatched, Released, HandleDropped;
    DropHandleKeeps(d1);
    DroppedRound(d1, c);
    var d2 := HandleDropped(d1, c);
    UnwatchKeeps(d2);
    var d3 := Unwatched(d2, c);
    DropResponseKeeps(d3);
    TornFrame(d1, c);
    var d4 := ResponseDropped(d3, c);
    FreeKeeps(d4);
    UncountKeeps(Freed(d4, c));
  }

  lemma DroppedRound(d: Daemon, c: Id)
    requires c in d.conns
    ensures HandleDropped(d, c).round == NoHandle(c) && c in HandleDropped(d, c).conns
    ensures Unwatched(HandleDropped(d, c), c).round == NotWatched(c)
  {
  }

  // The whole loop.
  function CleanedAll(d: Daemon): Daemon
    requires Inv(d) && d.round.Idle?
    decreases |d.cleanup|
  {
    if d.cleanup == [] then d
    else
      RoundEnds(d);
      CleanedAll(CleanupRound(d))
  }

  lemma LastMember(s: seq<Id>)
    requires s != []
    ensures Members(s) == Members(s[..|s| - 1]) + {s[|s| - 1]}
  {
    assert s == s[..|s| - 1] + [s[|s| - 1]];
  }

  lemma LessTwice(all: set<Id>, front: set<Id>, last: Id, some: set<Id>)
    requires some == front + {last}
    ensures all - {last} - front == all - some
  {
  }

  // Without interference the loop frees exactly the connections of the cleanup list,
  // and the counter goes down by their number.
  lemma {:induction false} LoopFreesTheList(d: Daemon)
    requires Inv(d) && d.round.Idle?
    ensures var d' := CleanedAll(d);
      && Inv(d') && d'.cleanup == [] && d'.round.Idle?
      && d'.connections == d.connections - |d.cleanup|
      && d'.conns.Keys == d.conns.Keys - Members(d.cleanup)
    decreases |d.cleanup|
  {
    hide Inv, CleanupRound, Members;
    if d.cleanup == [] {
      NoMembers(d.cleanup);
    } else {
      RoundEnds(d);
      LoopFreesTheList(CleanupRound(d));
      var last := |d.cleanup| - 1;
      LastMember(d.cleanup);
      LessTwice(d.conns.Keys, Members(d.cleanup[..last]), d.cleanup[last], Members(d.cleanup));
    }
  }

  lemma NoMembers(none: seq<Id>)
    requires none == []
    ensures Members(none) == {}
  {
  }
}
