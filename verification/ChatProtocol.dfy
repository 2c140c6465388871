// All threads of the chat server as one transition system.  Every step is one
// critical section of `chat_mutex`; a run is any interleaving of them.
module ChatProtocol {
  import opened ChatView
  import opened Lists
  import opened Options

  // Where a sender thread is while it does not hold the mutex: not created yet,
  // about to lock at the top of its loop, sending a ping, sending a message,
  // inside pthread_cond_wait, or gone.
  datatype Phase = Unstarted | Runnable | Pinging | Sending | Waiting | Stopped

  // `joined` and `selected` are history: the length of the log when the user was
  // added, and the messages its sender has encoded since then.
  datatype Sender = Sender(phase: Phase, signalled: bool, pingStatus: nat, disconnect: bool,
                           joined: nat, selected: seq<Message>)

  // `log`, `base` and `freed` are history as well: every message ever appended,
  // how many of them have left the array, and which positions of the log were
  // given to free(), in the order of the calls.
  datatype State = State(view: View<nat>, senders: map<nat, Sender>, disconnectAll: bool,
                         log: seq<Message>, base: nat, freed: seq<nat>)

  datatype Action =
    | AddMessage(m: Message)                  // chat_addmessage
    | Join(u: nat, data: seq<int>)            // chat_adduser
    | Leave(u: nat, data: seq<int>)           // chat_removeuser
    | Start(u: nat)                           // pthread_create of the sender
    | Run(u: nat)                             // one critical section of the sender
    | Wake(u: nat)                            // pthread_cond_wait returns
    | RequestPing(u: nat)
    | PongReceived(u: nat)
    | RequestDisconnect(u: nat)
    | DisconnectAll

  const INITIAL := State(View([], map[], [], 0), map[], false, [], 0, [])

  ghost predicate WellFormed(s: State) {
    Ok(s.view) && s.senders.Keys == s.view.cursor.Keys
  }

  // pthread_cond_signal for each of `users`; only a waiting sender notices.
  function Signal(senders: map<nat, Sender>, users: seq<nat>): map<nat, Sender> {
    map u | u in senders ::
      if u in users && senders[u].phase == Waiting then senders[u].(signalled := true) else senders[u]
  }

  function Announcement(data: seq<int>): Message {
    Message(0, 0, data, false)
  }

  function Extend(s: State, m: Message): State {
    s.(view := Append(s.view, m), senders := Signal(s.senders, s.view.users), log := s.log + [m])
  }

  // The clear of a sender that found nothing to do, and its wait.
  function Sleep(s: State, u: nat): State
    requires WellFormed(s) && u in s.senders
  {
    ClearInPlace(s).(senders := s.senders[u := s.senders[u].(phase := Waiting, signalled := false)])
  }

  function ClearInPlace(s: State): State
    requires WellFormed(s)
  {
    var n := Dropped(s.view);
    s.(view := Clear(s.view), base := s.base + n, freed := s.freed + Range(s.base, n))
  }

  // The sender encodes the message at its cursor, if it is meant for the user.
  function TakeMessage(s: State, u: nat): State
    requires WellFormed(s) && u in s.senders && s.view.cursor[u] < |s.view.messages|
  {
    var me := s.senders[u];
    var m := s.view.messages[s.view.cursor[u]];
    var selected := if Visible(m, u) then me.selected + [m] else me.selected;
    s.(view := Advance(s.view, u), senders := s.senders[u := me.(phase := Sending, selected := selected)])
  }

  // The sender's inner loop, from its top to the next release of the mutex.
  function Top(s: State, u: nat): State
    requires WellFormed(s) && u in s.senders
  {
    var me := s.senders[u];
    if s.disconnectAll || me.disconnect then
      s.(senders := s.senders[u := me.(phase := Stopped)])
    else if me.pingStatus == 1 then
      s.(senders := s.senders[u := me.(phase := Pinging, pingStatus := 2)])
    else if s.view.cursor[u] < |s.view.messages| then
      TakeMessage(s, u)
    else
      Sleep(s, u)
  }

  // One critical section of the sender.  Coming back from sending a message it
  // looks at the messages only; from anywhere else it starts at the top.
  function SenderStep(s: State, u: nat): State
    requires WellFormed(s) && u in s.senders
  {
    if s.senders[u].phase == Sending && s.view.cursor[u] >= |s.view.messages|
    then Sleep(s, u)
    else Top(s, u)
  }

  // The sender decides by the same function as the method of the server that holds the
  // mutex, and the rest of the state follows from the decision.
  lemma SenderStepByTurn(s: State, u: nat)
    requires WellFormed(s) && u in s.senders
    ensures var me, at := s.senders[u], s.view.cursor[u];
      var pending := if at < |s.view.messages| then Some(s.view.messages[at]) else None;
      SenderStep(s, u) ==
      match TurnOf(me.phase == Sending, s.disconnectAll || me.disconnect, me.pingStatus, pending, u)
      case Stop => s.(senders := s.senders[u := me.(phase := Stopped)])
      case Ping => s.(senders := s.senders[u := me.(phase := Pinging, pingStatus := 2)])
      case Encode(m) =>
        s.(view := Advance(s.view, u), senders := s.senders[u := me.(phase := Sending, selected := me.selected + [m])])
      case Skip => s.(view := Advance(s.view, u), senders := s.senders[u := me.(phase := Sending)])
      case Wait => Sleep(s, u)
  {
  }

  // The successor of `s` under `a`, or None when `a` cannot happen in `s`.
  function Step(s: State, a: Action): Option<State>
    requires WellFormed(s)
  {
    match a
    case AddMessage(m) => Some(Extend(s, m))
    case Join(u, data) =>
      if u == 0 || u in s.senders then None
      else
        var m := Announcement(data);
        var s1 := Extend(s, m);
        Some(s1.(view := AddUser(s.view, u, m),
                 senders := s1.senders[u := Sender(Unstarted, false, 0, false, |s1.log|, [])]))
    case Leave(u, data) =>
      if u !in s.senders then None
      else
        var m := Announcement(data);
        Some(Extend(s, m).(view := RemoveUser(s.view, u, m)))
    case Start(u) =>
      if u in s.senders && s.senders[u].phase == Unstarted
      then Some(s.(senders := s.senders[u := s.senders[u].(phase := Runnable)]))
      else None
    case Run(u) =>
      if u in s.senders && s.senders[u].phase in {Runnable, Pinging, Sending}
      then Some(SenderStep(s, u))
      else None
    case Wake(u) =>
      if u in s.senders && s.senders[u].phase == Waiting
      then Some(s.(senders := s.senders[u := s.senders[u].(phase := Runnable, signalled := false)]))
      else None
    case RequestPing(u) =>
      if u in s.senders && u in s.view.users && s.senders[u].pingStatus == 0
      then Some(s.(senders := Signal(s.senders[u := s.senders[u].(pingStatus := 1)], [u])))
      else None
    case PongReceived(u) =>
      if u in s.senders && s.senders[u].pingStatus == 2
      then Some(s.(senders := s.senders[u := s.senders[u].(pingStatus := 0)]))
      else None
    case RequestDisconnect(u) =>
      if u in s.senders
      then Some(s.(senders := Signal(s.senders[u := s.senders[u].(disconnect := true)], [u])))
      else None
    case DisconnectAll =>
      Some(s.(senders := Signal(s.senders, s.view.users), disconnectAll := true))
  }

  // What holds in every reachable state.
  ghost predicate Inv(s: State) {
    && WellFormed(s)
    && s.base <= |s.log| && s.view.messages == s.log[s.base..]
    && s.freed == Range(0, s.base)
    && (forall u :: u in s.view.users ==> CursorOk(s, u))
    && (forall u :: u in s.view.users ==> SleepOk(s, u))
  }

  // The cursor of a registered user, as a position in the log.
  ghost function Position(s: State, u: nat): nat
    requires u in s.view.cursor
  {
    s.base + s.view.cursor[u]
  }

  // The sender of `u` has encoded exactly what it should have.
  ghost predicate CursorOk(s: State, u: nat) {
    && u in s.view.cursor && u in s.senders
    && s.senders[u].joined <= Position(s, u) <= |s.log|
    && s.senders[u].selected == Select(s.log, s.senders[u].joined, Position(s, u), u)
  }

  // Nothing is pending for a sender that nobody has signalled.
  ghost predicate SleepOk(s: State, u: nat) {
    u in s.senders && u in s.view.cursor &&
    (s.senders[u].phase == Waiting && !s.senders[u].signalled ==> s.view.cursor[u] == |s.view.messages|)
  }

  lemma SenderStepKeepsWellFormed(s: State, u: nat)
    requires WellFormed(s) && u in s.senders
    ensures WellFormed(SenderStep(s, u))
  {
    ClearKeeps(s.view);
    if s.view.cursor[u] < |s.view.messages| {
      AdvanceKeeps(s.view, u);
    }
  }

  lemma StepKeepsWellFormed(s: State, a: Action)
    requires WellFormed(s) && Step(s, a).Some?
    ensures WellFormed(Step(s, a).value)
  {
    match a
    case Join(u, data) =>
      AddUserKeeps(s.view, u, Announcement(data));
    case Leave(u, data) =>
      RemoveUserKeeps(s.view, u, Announcement(data));
    case Run(u) =>
      SenderStepKeepsWellFormed(s, u);
    case _ =>
  }

  // A sequence of steps; None as soon as one of them cannot happen.
  function Exec(s: State, actions: seq<Action>): Option<State>
    requires WellFormed(s)
    ensures Exec(s, actions).Some? ==> WellFormed(Exec(s, actions).value)
  {
    if actions == [] then Some(s)
    else
      var s1 := Exec(s, actions[..|actions| - 1]);
      if s1.None? then None
      else
        var a := actions[|actions| - 1];
        assert Step(s1.value, a).Some? ==> WellFormed(Step(s1.value, a).value) by {
          if Step(s1.value, a).Some? { StepKeepsWellFormed(s1.value, a); }
        }
        Step(s1.value, a)
  }

  // --- Invariance --------------------------------------------------------

  lemma ExtendKeepsInv(s: State, m: Message)
    requires Inv(s)
    ensures Inv(Extend(s, m))
  {
    var s' := Extend(s, m);
    forall u | u in s'.view.users ensures CursorOk(s', u) && SleepOk(s', u) {
      assert CursorOk(s, u) && SleepOk(s, u);
      SelectInPrefix(s.log, s'.log, s.senders[u].joined, Position(s, u), u);
    }
  }

  lemma ClearKeepsInv(s: State)
    requires Inv(s)
    ensures Inv(ClearInPlace(s))
    ensures forall u :: u in s.view.users ==> Position(ClearInPlace(s), u) == Position(s, u)
  {
    ClearKeeps(s.view);
    DroppedBounds(s.view);
    var s' := ClearInPlace(s);
    assert s'.freed == Range(0, s'.base);
    forall u | u in s.view.users ensures CursorOk(s', u) && SleepOk(s', u) && Position(s', u) == Position(s, u) {
      assert CursorOk(s, u) && SleepOk(s, u);
    }
  }

  lemma SleepKeepsInv(s: State, u: nat)
    requires Inv(s) && u in s.senders
    requires s.view.cursor[u] >= |s.view.messages|
    ensures Inv(Sleep(s, u))
  {
    ClearKeepsInv(s);
    var c := ClearInPlace(s);
    var s' := Sleep(s, u);
    forall x | x in s'.view.users ensures CursorOk(s', x) && SleepOk(s', x) {
      assert CursorOk(c, x) && SleepOk(c, x) && CursorOk(s, x);
    }
  }

  lemma TakeMessageKeepsInv(s: State, u: nat)
    requires Inv(s) && u in s.senders && s.view.cursor[u] < |s.view.messages|
    ensures Inv(TakeMessage(s, u))
  {
    var s' := TakeMessage(s, u);
    forall x | x in s'.view.users ensures CursorOk(s', x) && SleepOk(s', x) {
      assert CursorOk(s, x) && SleepOk(s, x);
    }
  }

  // A step that only touches flags and phases, and lets no sender fall asleep.
  lemma FlagsKeepInv(s: State, s': State)
    requires Inv(s) && s' == s.(senders := s'.senders, disconnectAll := s'.disconnectAll)
    requires s'.senders.Keys == s.senders.Keys
    requires forall x :: x in s.senders ==> var a, b := s.senders[x], s'.senders[x];
      a.joined == b.joined && a.selected == b.selected &&
      (b.phase == Waiting && !b.signalled ==> a.phase == Waiting && !a.signalled)
    ensures Inv(s')
  {
    forall x | x in s'.view.users ensures CursorOk(s', x) && SleepOk(s', x) {
      assert CursorOk(s, x) && SleepOk(s, x);
    }
  }

  lemma TopKeepsInv(s: State, u: nat)
    requires Inv(s) && u in s.senders
    ensures Inv(Top(s, u))
  {
    if s.disconnectAll || s.senders[u].disconnect || s.senders[u].pingStatus == 1 {
      FlagsKeepInv(s, Top(s, u));
    } else if s.view.cursor[u] < |s.view.messages| {
      TakeMessageKeepsInv(s, u);
    } else {
      SleepKeepsInv(s, u);
    }
  }

  lemma JoinKeepsInv(s: State, u: nat, data: seq<int>)
    requires Inv(s) && Step(s, Join(u, data)).Some?
    ensures Inv(Step(s, Join(u, data)).value)
  {
    var s' := Step(s, Join(u, data)).value;
    var e := Extend(s, Announcement(data));
    StepKeepsWellFormed(s, Join(u, data));
    ExtendKeepsInv(s, Announcement(data));
    forall x | x in s'.view.users ensures CursorOk(s', x) && SleepOk(s', x) {
      if x in e.view.users {
        assert x in s.view.cursor && x != u;
        UserOfLonger(s, e, s', u, x);
      }
    }
  }

  // A user that was there before user `u` joined.
  lemma UserOfLonger(s: State, e: State, s': State, u: nat, x: nat)
    requires WellFormed(s) && Inv(e) && x in e.view.users && x != u && x in s.view.cursor
    requires s'.base == e.base && s'.log == e.log && s'.view.messages == e.view.messages
    requires x in s'.senders && s'.senders[x] == e.senders[x]
    requires x in s'.view.cursor && x in e.view.cursor && s'.view.cursor[x] == e.view.cursor[x]
    ensures CursorOk(s', x) && SleepOk(s', x)
  {
    assert CursorOk(e, x) && SleepOk(e, x);
  }

  // Taking users off the list keeps everything about the others.
  lemma FewerUsersKeepInv(s: State, users: seq<nat>)
    requires Inv(s) && Distinct(users)
    requires forall x :: x in users ==> x in s.view.users
    ensures Inv(s.(view := s.view.(users := users)))
  {
    var s' := s.(view := s.view.(users := users));
    forall i | 0 <= i < |users|
      ensures users[i] in s.view.cursor && s.view.cursor[users[i]] <= |s.view.messages|
    {
      assert users[i] in s.view.users;
    }
    forall x | x in users ensures CursorOk(s', x) && SleepOk(s', x) {
      assert CursorOk(s, x) && SleepOk(s, x);
    }
  }

  lemma LeaveKeepsInv(s: State, u: nat, data: seq<int>)
    requires Inv(s) && Step(s, Leave(u, data)).Some?
    ensures Inv(Step(s, Leave(u, data)).value)
  {
    ExtendKeepsInv(s, Announcement(data));
    RemoveFirstKeeps(s.view.users, u);
    RemoveFirstMembers(s.view.users, u);
    FewerUsersKeepInv(Extend(s, Announcement(data)), RemoveFirst(s.view.users, u));
  }

  lemma RunKeepsInv(s: State, u: nat)
    requires Inv(s) && u in s.senders
    ensures Inv(SenderStep(s, u))
  {
    if s.senders[u].phase == Sending && s.view.cursor[u] >= |s.view.messages| {
      SleepKeepsInv(s, u);
    } else {
      TopKeepsInv(s, u);
    }
  }

  lemma FlagStepKeepsInv(s: State, a: Action)
    requires Inv(s) && Step(s, a).Some?
    requires !a.AddMessage? && !a.Join? && !a.Leave? && !a.Run?
    ensures Inv(Step(s, a).value)
  {
    hide CursorOk, SleepOk, Ok, SenderStep, AddUser, RemoveUser, Clear, Dropped;
    FlagsKeepInv(s, Step(s, a).value);
  }

  lemma StepKeepsInv(s: State, a: Action)
    requires Inv(s) && Step(s, a).Some?
    ensures Inv(Step(s, a).value)
  {
    hide CursorOk, SleepOk, SenderStep, Extend;
    match a
    case AddMessage(m) => ExtendKeepsInv(s, m);
    case Join(u, data) => JoinKeepsInv(s, u, data);
    case Leave(u, data) => LeaveKeepsInv(s, u, data);
    case Run(u) => RunKeepsInv(s, u);
    case _ => FlagStepKeepsInv(s, a);
  }

  lemma {:induction false} ReachableInv(actions: seq<Action>)
    requires Exec(INITIAL, actions).Some?
    ensures Inv(Exec(INITIAL, actions).value)
  {
    if actions != [] {
      var front := actions[..|actions| - 1];
      ReachableInv(front);
      StepKeepsInv(Exec(INITIAL, front).value, actions[|actions| - 1]);
    }
  }
}
