// What the protocol promises over whole runs: it refines an append-only log,
// delivers every message exactly once, leaves nothing behind a sleeping sender,
// and never touches a freed message.
module ChatDelivery {
  import opened ChatView
  import opened Lists
  import opened Options
  import opened ChatProtocol

  // The simple system: a log that only grows, and one position per user.
  datatype Log = Log(entries: seq<Message>, position: map<nat, nat>)

  datatype LogAction =
    | Append(m: Message)
    | Register(u: nat, m: Message)
    | Unregister(u: nat, m: Message)
    | Deliver(u: nat)
    | Stutter

  function LogStep(l: Log, a: LogAction): Option<Log> {
    match a
    case Append(m) => Some(Log(l.entries + [m], l.position))
    case Register(u, m) =>
      if u in l.position then None
      else Some(Log(l.entries + [m], l.position[u := |l.entries| + 1]))
    case Unregister(u, m) =>
      if u !in l.position then None
      else Some(Log(l.entries + [m], l.position - {u}))
    case Deliver(u) =>
      if u in l.position && l.position[u] < |l.entries|
      then Some(Log(l.entries, l.position[u := l.position[u] + 1]))
      else None
    case Stutter => Some(l)
  }

  function LogExec(l: Log, actions: seq<LogAction>): Option<Log> {
    if actions == [] then Some(l)
    else
      var l1 := LogExec(l, actions[..|actions| - 1]);
      if l1.None? then None else LogStep(l1.value, actions[|actions| - 1])
  }

  ghost function Abstract(s: State): Log
    requires WellFormed(s)
  {
    Log(s.log, Positions(s.view.users, s.view.cursor, s.base))
  }

  function Positions(users: seq<nat>, cursor: map<nat, nat>, base: nat): map<nat, nat> {
    map u | u in cursor && u in users :: base + cursor[u]
  }

  // Whether this step of the sender of `u` takes a message.
  predicate Takes(s: State, u: nat) {
    && u in s.senders && u in s.view.cursor
    && !s.disconnectAll && !s.senders[u].disconnect && s.senders[u].pingStatus != 1
    && s.view.cursor[u] < |s.view.messages|
  }

  // The abstract action that `a` amounts to in state `s`.
  function Label(s: State, a: Action): LogAction {
    match a
    case AddMessage(m) => Append(m)
    case Join(u, data) => Register(u, Announcement(data))
    case Leave(u, data) =>
      if u in s.view.users then Unregister(u, Announcement(data)) else Append(Announcement(data))
    case Run(u) => if Takes(s, u) && u in s.view.users then Deliver(u) else Stutter
    case _ => Stutter
  }

  lemma ClearStutters(s: State)
    requires WellFormed(s)
    ensures WellFormed(ClearInPlace(s)) && Abstract(ClearInPlace(s)) == Abstract(s)
  {
    ClearKeeps(s.view);
    DroppedBounds(s.view);
    var s' := ClearInPlace(s);
    assert Abstract(s').position == Abstract(s).position;
  }

  lemma TakeMessageRefines(s: State, u: nat)
    requires WellFormed(s) && s.base + |s.view.messages| == |s.log| && Takes(s, u)
    ensures WellFormed(TakeMessage(s, u))
    ensures LogStep(Abstract(s), Label(s, Run(u))) == Some(Abstract(TakeMessage(s, u)))
  {
    AdvanceKeeps(s.view, u);
    var before, after := Abstract(s).position, Abstract(TakeMessage(s, u)).position;
    assert after == if u in s.view.users then before[u := before[u] + 1] else before;
  }

  lemma RunRefines(s: State, u: nat)
    requires WellFormed(s) && s.base + |s.view.messages| == |s.log| && Step(s, Run(u)).Some?
    ensures WellFormed(SenderStep(s, u))
    ensures LogStep(Abstract(s), Label(s, Run(u))) == Some(Abstract(SenderStep(s, u)))
  {
    SenderStepKeepsWellFormed(s, u);
    if Takes(s, u) {
      TakeMessageRefines(s, u);
    } else {
      ClearStutters(s);
    }
  }

  lemma JoinRefines(s: State, u: nat, data: seq<int>)
    requires WellFormed(s) && s.base + |s.view.messages| == |s.log| && Step(s, Join(u, data)).Some?
    ensures WellFormed(Step(s, Join(u, data)).value)
    ensures LogStep(Abstract(s), Register(u, Announcement(data))) == Some(Abstract(Step(s, Join(u, data)).value))
  {
    StepKeepsWellFormed(s, Join(u, data));
    hide Positions;
    AddedPosition(s.view.users, s.view.cursor, s.base, u, |s.view.messages| + 1);
  }

  lemma AddedPosition(users: seq<nat>, cursor: map<nat, nat>, base: nat, u: nat, c: nat)
    requires u !in users
    ensures Positions(users + [u], cursor[u := c], base) == Positions(users, cursor, base)[u := base + c]
    ensures u !in Positions(users, cursor, base)
  {
  }

  lemma RemovedPosition(users: seq<nat>, cursor: map<nat, nat>, base: nat, u: nat)
    requires Distinct(users)
    ensures Positions(RemoveFirst(users, u), cursor, base) == Positions(users, cursor, base) - {u}
  {
    RemoveFirstMembers(users, u);
  }

  lemma LeaveRefines(s: State, u: nat, data: seq<int>)
    requires WellFormed(s) && Step(s, Leave(u, data)).Some?
    ensures WellFormed(Step(s, Leave(u, data)).value)
    ensures LogStep(Abstract(s), Label(s, Leave(u, data))) == Some(Abstract(Step(s, Leave(u, data)).value))
  {
    StepKeepsWellFormed(s, Leave(u, data));
    RemovedPosition(s.view.users, s.view.cursor, s.base, u);
    var before := Positions(s.view.users, s.view.cursor, s.base);
    assert u !in s.view.users ==> before - {u} == before;
  }

  lemma StepRefines(s: State, a: Action)
    requires WellFormed(s) && s.base + |s.view.messages| == |s.log| && Step(s, a).Some?
    ensures WellFormed(Step(s, a).value)
    ensures LogStep(Abstract(s), Label(s, a)) == Some(Abstract(Step(s, a).value))
  {
    match a
    case Run(u) => RunRefines(s, u);
    case Join(u, data) => JoinRefines(s, u, data);
    case Leave(u, data) => LeaveRefines(s, u, data);
    case _ => StepKeepsWellFormed(s, a);
  }

  function Labels(s: State, actions: seq<Action>): seq<LogAction>
    requires WellFormed(s) && Exec(s, actions).Some?
  {
    if actions == [] then []
    else
      var front := actions[..|actions| - 1];
      Labels(s, front) + [Label(Exec(s, front).value, actions[|actions| - 1])]
  }

  // Every interleaving of the threads is a run of the simple system.
  lemma {:induction false} RunRefinesLog(actions: seq<Action>)
    requires Exec(INITIAL, actions).Some?
    ensures LogExec(Log([], map[]), Labels(INITIAL, actions)) == Some(Abstract(Exec(INITIAL, actions).value))
  {
    if actions == [] {
      assert Abstract(INITIAL) == Log([], map[]);
    } else {
      var front, last := actions[..|actions| - 1], actions[|actions| - 1];
      RunRefinesLog(front);
      ReachableInv(front);
      StepRefines(Exec(INITIAL, front).value, last);
      var labels := Labels(INITIAL, actions);
      assert labels[..|labels| - 1] == Labels(INITIAL, front);
    }
  }

  // --- Delivery ------------------------------------------------------------

  lemma {:induction false} ExecAppend(s: State, a: seq<Action>, b: seq<Action>)
    requires WellFormed(s) && Exec(s, a + b).Some?
    ensures Exec(s, a).Some? && Exec(Exec(s, a).value, b) == Exec(s, a + b)
    decreases |b|
  {
    if b == [] {
      assert a + b == a;
    } else {
      var ab := a + b;
      var front := b[..|b| - 1];
      assert ab[..|ab| - 1] == a + front;
      ExecAppend(s, a, front);
    }
  }

  // While `u` stays on the list its starting point does not move, and the log only grows.
  lemma {:induction false} MembershipLasts(s: State, u: nat, post: seq<Action>)
    requires Inv(s) && u in s.view.users && Exec(s, post).Some?
    requires forall a :: a in post ==> !(a.Leave? && a.u == u)
    ensures var s' := Exec(s, post).value;
      Inv(s') && u in s'.view.users && u in s'.senders && u in s.senders &&
      s'.senders[u].joined == s.senders[u].joined && s.log <= s'.log
  {
    assert CursorOk(s, u);
    if post != [] {
      var front, last := post[..|post| - 1], post[|post| - 1];
      MembershipLasts(s, u, front);
      var s1 := Exec(s, front).value;
      StepKeepsInv(s1, last);
      assert CursorOk(s1, u);
      StaysListed(s1, u, last);
    }
  }

  lemma StaysListed(s: State, u: nat, a: Action)
    requires Inv(s) && u in s.view.users && u in s.senders && Step(s, a).Some?
    requires !(a.Leave? && a.u == u)
    ensures var s' := Step(s, a).value;
      u in s'.view.users && u in s'.senders && s'.senders[u].joined == s.senders[u].joined && s.log <= s'.log
  {
    hide Dropped, Rebase, CursorOk, SleepOk;
    StepKeepsWellFormed(s, a);
    if a.Leave? {
      RemoveFirstMembers(s.view.users, a.u);
    }
  }

  lemma JoinLists(pre: seq<Action>, u: nat, data: seq<int>)
    requires Exec(INITIAL, pre + [Join(u, data)]).Some?
    ensures var s := Exec(INITIAL, pre + [Join(u, data)]).value;
      Inv(s) && u in s.view.users && u in s.senders && s.senders[u].joined == |s.log|
  {
    var first := pre + [Join(u, data)];
    ReachableInv(first);
    assert first[..|first| - 1] == pre;
    var s := Exec(INITIAL, first).value;
    assert s.view.users[|s.view.users| - 1] == u;
  }

  // Who comes and goes is announced to everyone, by the server itself.
  lemma Announced(s: State, u: nat, data: seq<int>, a: Action)
    requires WellFormed(s) && a in {Join(u, data), Leave(u, data)} && Step(s, a).Some?
    ensures Step(s, a).value.log == s.log + [Message(0, 0, data, false)]
    ensures Step(s, a).value.view.messages == s.view.messages + [Message(0, 0, data, false)]
  {
  }

  // Let `u` join at some point of a run and stay until its end.  Then its sender
  // has selected for encoding exactly the messages that were appended after the join
  // and are meant for `u`, each once and in order, up to its cursor.
  lemma DeliveredExactlyOnce(pre: seq<Action>, u: nat, data: seq<int>, post: seq<Action>)
    requires Exec(INITIAL, pre + [Join(u, data)] + post).Some?
    requires forall a :: a in post ==> !(a.Leave? && a.u == u)
    ensures Exec(INITIAL, pre + [Join(u, data)]).Some?
    ensures var joined := Exec(INITIAL, pre + [Join(u, data)]).value;
      var now := Exec(INITIAL, pre + [Join(u, data)] + post).value;
      && u in now.view.users && u in now.senders && u in now.view.cursor
      && joined.log <= now.log && |joined.log| <= Position(now, u) <= |now.log|
      && now.senders[u].selected == Select(now.log, |joined.log|, Position(now, u), u)
  {
    var first := pre + [Join(u, data)];
    ExecAppend(INITIAL, first, post);
    JoinLists(pre, u, data);
    MembershipLasts(Exec(INITIAL, first).value, u, post);
    assert CursorOk(Exec(INITIAL, first + post).value, u);
  }

  // The same in terms of the fields of the messages: what the sender has selected stands at
  // the positions `at` of the log, in order; and of the positions from the join up to the
  // cursor these are the ones of the messages for everyone, for `u` and from `u`.
  lemma DeliveredByFields(pre: seq<Action>, u: nat, data: seq<int>, post: seq<Action>) returns (at: seq<nat>)
    requires Exec(INITIAL, pre + [Join(u, data)] + post).Some?
    requires forall a :: a in post ==> !(a.Leave? && a.u == u)
    ensures Exec(INITIAL, pre + [Join(u, data)]).Some?
    ensures var joined := Exec(INITIAL, pre + [Join(u, data)]).value;
      var now := Exec(INITIAL, pre + [Join(u, data)] + post).value;
      && u in now.senders && u in now.view.cursor && |joined.log| <= Position(now, u) <= |now.log|
      && |at| == |now.senders[u].selected|
      && (forall i :: 0 <= i < |at| ==>
            |joined.log| <= at[i] < Position(now, u) && now.senders[u].selected[i] == now.log[at[i]])
      && (forall i, j :: 0 <= i < j < |at| ==> at[i] < at[j])
      && (forall p: nat :: |joined.log| <= p < Position(now, u) ==>
            (p in at <==> now.log[p].to == 0 || now.log[p].to == u || now.log[p].from == u))
  {
    hide Exec, Select, CursorOk;
    DeliveredExactlyOnce(pre, u, data, post);
    var joined := Exec(INITIAL, pre + [Join(u, data)]).value;
    var now := Exec(INITIAL, pre + [Join(u, data)] + post).value;
    at := SelectedPositions(now.log, |joined.log|, Position(now, u), u);
  }

  lemma SleepersAreDone(s: State, u: nat)
    requires Inv(s) && u in s.view.users
    ensures u in s.senders && u in s.view.cursor
    ensures s.senders[u].phase == Waiting && !s.senders[u].signalled ==> Position(s, u) == |s.log|
  {
    assert SleepOk(s, u);
  }

  // The sender of a registered user that sleeps without a pending signal has selected
  // everything: no message waits for it.
  lemma NothingLeftBehind(pre: seq<Action>, u: nat, data: seq<int>, post: seq<Action>)
    requires Exec(INITIAL, pre + [Join(u, data)] + post).Some?
    requires forall a :: a in post ==> !(a.Leave? && a.u == u)
    ensures Exec(INITIAL, pre + [Join(u, data)]).Some?
    ensures var joined := Exec(INITIAL, pre + [Join(u, data)]).value;
      var now := Exec(INITIAL, pre + [Join(u, data)] + post).value;
      u in now.senders && |joined.log| <= |now.log| &&
      (now.senders[u].phase == Waiting && !now.senders[u].signalled ==>
        now.senders[u].selected == Select(now.log, |joined.log|, |now.log|, u))
  {
    DeliveredExactlyOnce(pre, u, data, post);
    ReachableInv(pre + [Join(u, data)] + post);
    SleepersAreDone(Exec(INITIAL, pre + [Join(u, data)] + post).value, u);
  }

  // Appending wakes every registered sender that sleeps.
  lemma AppendSignalsEverySleeper(s: State, m: Message, u: nat)
    requires Inv(s) && u in s.view.users && s.senders[u].phase == Waiting
    ensures u in Extend(s, m).senders && Extend(s, m).senders[u].signalled
  {
    assert CursorOk(s, u);
  }

  // --- Progress --------------------------------------------------------------

  function Turns(u: nat, n: nat): seq<Action> {
    seq(n, i => Run(u))
  }

  // The sender of `u` sleeps and everything in `log` is behind its cursor.
  ghost predicate DrainedBy(s: State, u: nat, s': Option<State>) {
    && s'.Some? && u in s.senders && u in s'.value.senders
    && var before, after := s.senders[u], s'.value.senders[u];
       && after.phase == Waiting && !after.signalled && after.joined == before.joined
       && s'.value.log == s.log && before.joined <= |s.log|
       && after.selected == Select(s.log, before.joined, |s.log|, u)
  }

  // Nothing but messages is waiting for the attention of the sender of `u`.
  ghost predicate Undisturbed(s: State, u: nat) {
    && WellFormed(s) && u in s.view.users && u in s.view.cursor && u in s.senders
    && s.senders[u].phase in {Runnable, Sending}
    && !s.disconnectAll && !s.senders[u].disconnect && s.senders[u].pingStatus != 1
    && s.view.cursor[u] <= |s.view.messages|
  }

  lemma DrainsEmpty(s: State, u: nat)
    requires Inv(s) && Undisturbed(s, u) && s.view.cursor[u] == |s.view.messages|
    ensures DrainedBy(s, u, Step(s, Run(u)))
  {
    assert CursorOk(s, u);
  }

  lemma DrainsOne(s: State, u: nat)
    requires Inv(s) && Undisturbed(s, u) && s.view.cursor[u] < |s.view.messages|
    ensures var s' := TakeMessage(s, u);
      Step(s, Run(u)) == Some(s') && Inv(s') && Undisturbed(s', u) &&
      s'.log == s.log && s'.senders[u].joined == s.senders[u].joined &&
      s'.view.messages == s.view.messages && s'.view.cursor[u] == s.view.cursor[u] + 1
  {
    TakeMessageKeepsInv(s, u);
  }

  lemma DrainsAfter(s: State, s1: State, u: nat, n: nat)
    requires WellFormed(s) && WellFormed(s1) && Step(s, Run(u)) == Some(s1)
    requires u in s.senders && u in s1.senders && s1.log == s.log && s1.senders[u].joined == s.senders[u].joined
    requires DrainedBy(s1, u, Exec(s1, Turns(u, n)))
    ensures DrainedBy(s, u, Exec(s, Turns(u, n + 1)))
  {
    assert Turns(u, n + 1) == [Run(u)] + Turns(u, n);
    ExecPrepend(s, Run(u), Turns(u, n));
  }

  // Left alone, the sender of a registered user drains its backlog in one turn
  // per pending message and goes to sleep with one more.
  lemma {:induction false} Drains(s: State, u: nat)
    requires Inv(s) && Undisturbed(s, u)
    ensures DrainedBy(s, u, Exec(s, Turns(u, |s.view.messages| - s.view.cursor[u] + 1)))
    decreases |s.view.messages| - s.view.cursor[u]
  {
    var pending := |s.view.messages| - s.view.cursor[u];
    if pending == 0 {
      assert Turns(u, 1) == [Run(u)];
      OneTurn(s, u);
      DrainsEmpty(s, u);
    } else {
      DrainsOne(s, u);
      Drains(TakeMessage(s, u), u);
      DrainsAfter(s, TakeMessage(s, u), u, pending);
    }
  }

  lemma OneTurn(s: State, u: nat)
    requires WellFormed(s)
    ensures Exec(s, [Run(u)]) == Step(s, Run(u))
  {
    assert [Run(u)][..0] == [];
  }

  lemma {:induction false} ExecPrepend(s: State, a: Action, rest: seq<Action>)
    requires WellFormed(s) && Step(s, a).Some? && WellFormed(Step(s, a).value)
    requires Exec(Step(s, a).value, rest).Some?
    ensures Exec(s, [a] + rest) == Exec(Step(s, a).value, rest)
  {
    var all := [a] + rest;
    if rest == [] {
      assert all[..0] == [];
    } else {
      var front := rest[..|rest| - 1];
      assert all[..|all| - 1] == [a] + front;
      ExecPrepend(s, a, front);
    }
  }

  // --- Memory ------------------------------------------------------------------

  // In every reachable state free() has been called once for each of the first
  // `base` messages, in order, and for nothing else; and a sender that takes a
  // message, registered or not, takes one that has not been freed.
  lemma NoFreedMessageIsTouched(actions: seq<Action>)
    requires Exec(INITIAL, actions).Some?
    ensures var s := Exec(INITIAL, actions).value;
      && Distinct(s.freed) && |s.freed| <= |s.log|
      && (forall p :: p in s.freed <==> 0 <= p < |s.freed|)
      && (forall u :: Takes(s, u) ==> u in s.view.cursor && Position(s, u) !in s.freed)
  {
    ReachableInv(actions);
    var s := Exec(INITIAL, actions).value;
    forall p ensures p in s.freed <==> 0 <= p < |s.freed| {
      if 0 <= p < |s.freed| { assert s.freed[p] == p; }
    }
  }
}
