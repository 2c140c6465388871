// A user leaves: chat_removeuser, the request to disconnect, and the wait for the end of
// its sender thread.  When does that thread end, and when does it sleep for ever?
module ChatLeaving {
  import opened ChatView
  import opened Lists
  import opened Options
  import opened ChatProtocol
  import opened ChatRequests
  import ChatDelivery

  lemma {:induction false} InvLasts(s: State, post: seq<Action>)
    requires WellFormed(s) && Inv(s) && Exec(s, post).Some?
    ensures Inv(Exec(s, post).value)
  {
    hide Inv, Step;
    if post != [] {
      var front := post[..|post| - 1];
      InvLasts(s, front);
      StepKeepsInv(Exec(s, front).value, post[|post| - 1]);
    }
  }

  // The user is off the list and shall stop, and its sender does not sleep.
  ghost predicate Leaving(s: State, u: nat) {
    && WellFormed(s) && u in s.senders && u in s.view.cursor && u !in s.view.users
    && s.senders[u].disconnect && !Asleep(s, u)
  }

  lemma CursorStays(s: State, a: Action, u: nat)
    requires WellFormed(s) && Step(s, a).Some? && a != Run(u)
    requires u in s.senders && u in s.view.cursor && u !in s.view.users
    ensures var s' := Step(s, a).value;
      && u in s'.view.cursor && s'.view.cursor[u] == s.view.cursor[u]
      && u in s'.senders && (s'.senders[u].phase == Sending <==> s.senders[u].phase == Sending)
      && (s.senders[u].disconnect ==> s'.senders[u].disconnect)
  {
    hide Dropped;
  }

  // What the steps of others, and its waking up, leave alone.
  lemma NoTurn(s: State, a: Action, u: nat)
    requires Leaving(s, u) && Step(s, a).Some? && a != Run(u)
    ensures var s' := Step(s, a).value;
      && Leaving(s', u) && s'.view.cursor[u] == s.view.cursor[u]
      && (s'.senders[u].phase == Sending <==> s.senders[u].phase == Sending)
  {
    StepKeepsWellFormed(s, a);
    StaysUnlisted(s, a, u);
    hide Dropped, WellFormed, Signal, Rebase, RemoveUser, AddUser;
    CursorStays(s, a, u);
    if Asleep(Step(s, a).value, u) {
      AsleepBefore(s, a, u);
    }
  }

  lemma {:induction false} NoTurns(s: State, post: seq<Action>, u: nat)
    requires Leaving(s, u) && Exec(s, post).Some? && Run(u) !in post
    ensures var s' := Exec(s, post).value;
      && Leaving(s', u) && s'.view.cursor[u] == s.view.cursor[u]
      && (s'.senders[u].phase == Sending <==> s.senders[u].phase == Sending)
  {
    if post != [] {
      hide Leaving, Step;
      var front := post[..|post| - 1];
      NoTurns(s, front, u);
      NoTurn(Exec(s, front).value, post[|post| - 1], u);
    }
  }

  // Off the list nobody signals a sleeping sender, and one that has stopped stays so.
  lemma OverForGood(s: State, a: Action, u: nat)
    requires WellFormed(s) && Step(s, a).Some? && u in s.senders && u !in s.view.users
    requires Asleep(s, u) || s.senders[u].phase == Stopped
    requires a != Wake(u) && a != RequestDisconnect(u)
    ensures var s' := Step(s, a).value;
      && WellFormed(s') && u in s'.senders && u !in s'.view.users
      && (Asleep(s, u) ==> Asleep(s', u)) && (s.senders[u].phase == Stopped ==> s'.senders[u].phase == Stopped)
  {
    StepKeepsWellFormed(s, a);
    StaysUnlisted(s, a, u);
    hide Dropped, Clear, WellFormed;
  }

  lemma {:induction false} OverForEver(s: State, post: seq<Action>, u: nat)
    requires WellFormed(s) && Exec(s, post).Some? && u in s.senders && u !in s.view.users
    requires Asleep(s, u) || s.senders[u].phase == Stopped
    requires Wake(u) !in post && RequestDisconnect(u) !in post
    ensures var s' := Exec(s, post).value;
      && u in s'.senders && u !in s'.view.users
      && (Asleep(s, u) ==> Asleep(s', u)) && (s.senders[u].phase == Stopped ==> s'.senders[u].phase == Stopped)
  {
    if post != [] {
      hide Step, WellFormed;
      var front := post[..|post| - 1];
      OverForEver(s, front, u);
      OverForGood(Exec(s, front).value, post[|post| - 1], u);
    }
  }

  // How many messages have been freed since `s`, and how many have been appended from the
  // place in the log on that the cursor of `u` had reached in `s`.
  ghost predicate Overtaken(s: State, now: State, u: nat)
    requires u in s.view.cursor
  {
    now.base - s.base >= |now.log| - Position(s, u)
  }

  // The request makes a user that is off the list leave, if it has not slept.
  lemma BeginsToLeave(s: State, u: nat)
    requires Inv(s) && u in s.senders && u !in s.view.users
    ensures Step(s, RequestDisconnect(u)).Some? && u in s.view.cursor
    ensures var s' := Step(s, RequestDisconnect(u)).value;
      && Inv(s') && Leaving(s', u) && s'.view == s.view && s'.base == s.base && s'.log == s.log
      && (s'.senders[u].phase == Sending <==> s.senders[u].phase == Sending)
  {
    StepKeepsInv(s, RequestDisconnect(u));
  }

  // A user that is off the list is asked to disconnect, and the thread that asks waits for
  // the end of its sender.  With its next turn the sender stops for good; but if it was
  // sending a message when it was asked, and since then no fewer messages were freed than
  // were appended behind it, then it goes to sleep with the request pending, and nobody
  // signals it again.  (To wake up without a signal is `Wake` in `after`.)
  lemma JoinHangsExactly(s: State, between: seq<Action>, now: State, after: seq<Action>, end: State, u: nat)
    requires WellFormed(s) && Inv(s) && u in s.senders && u !in s.view.users
    requires Exec(s, [RequestDisconnect(u)] + between) == Some(now) && Run(u) !in between
    requires Exec(now, [Run(u)] + after) == Some(end)
    requires Wake(u) !in after && RequestDisconnect(u) !in after
    ensures u in s.view.cursor && u in end.senders && !Asleep(now, u)
    ensures if s.senders[u].phase == Sending && Overtaken(s, now, u) then Asleep(end, u)
            else end.senders[u].phase == Stopped
  {
    hide Step, Inv, WellFormed, Overtaken, Asleep;
    var s1 := FirstStep(s, RequestDisconnect(u), between);
    BeginsToLeave(s, u);
    NoTurns(s1, between, u);
    InvLasts(s1, between);
    var s2 := FirstStep(now, Run(u), after);
    LastTurn(s, now, s2, u);
    OverForEver(s2, after, u);
  }

  lemma FirstStep(s: State, a: Action, rest: seq<Action>) returns (s1: State)
    requires WellFormed(s) && Exec(s, [a] + rest).Some?
    ensures Step(s, a) == Some(s1) && WellFormed(s1) && Exec(s1, rest) == Exec(s, [a] + rest)
  {
    ChatDelivery.ExecAppend(s, [a], rest);
    assert [a][..0] == [];
    s1 := Exec(s, [a]).value;
  }

  // The turn that decides.
  lemma LastTurn(s: State, now: State, s2: State, u: nat)
    requires u in s.view.cursor && u in s.senders && WellFormed(now) && Inv(now) && Leaving(now, u)
    requires now.view.cursor[u] == s.view.cursor[u]
    requires now.senders[u].phase == Sending <==> s.senders[u].phase == Sending
    requires Step(now, Run(u)) == Some(s2)
    ensures WellFormed(s2) && u in s2.senders && u !in s2.view.users
    ensures if s.senders[u].phase == Sending && Overtaken(s, now, u) then Asleep(s2, u)
            else s2.senders[u].phase == Stopped
  {
    StepKeepsWellFormed(now, Run(u));
    StaysUnlisted(now, Run(u), u);
    TurnVerdict(now, u);
    hide Step;
  }

  // --- An input -------------------------------------------------------------------

  // From `s` the run leads to `t`, and in it no thread comes back from its wait without
  // having been signalled.
  ghost predicate Leads(s: State, actions: seq<Action>, t: State)
    requires WellFormed(s)
    decreases |actions|
  {
    && Exec(s, actions) == Some(t)
    && if actions == [] then true
       else
         var front, last := actions[..|actions| - 1], actions[|actions| - 1];
         var s1 := Exec(s, front).value;
         Leads(s, front, s1) && (last.Wake? ==> last.u in s1.senders && s1.senders[last.u].signalled)
  }

  lemma LeadsNowhere(s: State)
    requires WellFormed(s)
    ensures forall t :: Leads(s, [], t) <==> s == t
  {
  }

  lemma LeadsOn(s: State, actions: seq<Action>, t: State, a: Action) returns (t': State)
    requires WellFormed(s) && Leads(s, actions, t) && WellFormed(t) && Step(t, a).Some?
    requires a.Wake? ==> t.senders[a.u].signalled
    ensures Leads(s, actions + [a], t') && Step(t, a) == Some(t') && WellFormed(t')
  {
    assert (actions + [a])[..|actions|] == actions;
    StepKeepsWellFormed(t, a);
    t' := Step(t, a).value;
  }

  lemma LeadsBefore(s: State, actions: seq<Action>, t: State) returns (t': State)
    requires WellFormed(s) && Leads(s, actions, t) && actions != []
    ensures var last := actions[|actions| - 1];
      && Leads(s, actions[..|actions| - 1], t') && WellFormed(t') && Step(t', last) == Some(t)
      && (last.Wake? ==> last.u in t'.senders && t'.senders[last.u].signalled)
  {
    t' := Exec(s, actions[..|actions| - 1]).value;
  }

  lemma {:induction false} LeadsAppend(s: State, a: seq<Action>, t: State, b: seq<Action>, t': State)
    requires WellFormed(s) && WellFormed(t) && Leads(s, a, t) && Leads(t, b, t')
    ensures Leads(s, a + b, t')
    decreases |b|
  {
    hide Leads, Exec, Step, WellFormed;
    LeadsNowhere(t);
    if b == [] {
      assert a + b == a;
    } else {
      var front, last := b[..|b| - 1], b[|b| - 1];
      var t1 := LeadsBefore(t, b, t');
      LeadsAppend(s, a, t, front, t1);
      var t2 := LeadsOn(s, a + front, t1, last);
      assert a + front + [last] == a + b;
    }
  }

  // Users 1 and 2, neither of them with a request or a clear so far, and `n` messages.
  ghost predicate Two(s: State, users: seq<nat>, phase1: Phase, phase2: Phase, cursor1: nat, cursor2: nat, n: nat) {
    && WellFormed(s) && s.view.users == users && |s.view.messages| == n && s.view.cleanCount == 0
    && !s.disconnectAll && s.senders.Keys == {1, 2}
    && s.senders[1].phase == phase1 && s.senders[1].pingStatus == 0 && s.view.cursor[1] == cursor1
    && s.senders[2].phase == phase2 && s.senders[2].pingStatus == 0 && s.view.cursor[2] == cursor2
    && !s.senders[1].disconnect && !s.senders[2].disconnect
  }

  // User 1 is asked to disconnect while its sender sends; user 2 has got everything.
  ghost predicate Round(s: State, n: nat) {
    && WellFormed(s) && s.view.users == [2] && s.view.cleanCount == n && !s.disconnectAll && s.senders.Keys == {1, 2}
    && s.senders[1].phase == Sending && s.senders[1].disconnect && s.view.cursor[1] == 2
    && Asleep(s, 2) && !s.senders[2].disconnect && s.senders[2].pingStatus == 0
    && s.view.cursor[2] == |s.view.messages|
  }

  const JOINS := [Join(1, []), Join(2, []), Start(1), Start(2)]
  const LEAVES := [Run(1), Leave(1, []), RequestDisconnect(1), Run(2), Run(2)]

  // A message comes in, and the sender of user 2 wakes up and sends it.
  function OneMessage(m: Message): seq<Action> {
    [AddMessage(m), Wake(2), Run(2), Run(2)]
  }

  function Messages(m: Message, n: nat): seq<Action> {
    if n == 0 then [] else Messages(m, n - 1) + OneMessage(m)
  }

  lemma SecondJoins(s: State)
    requires s == OneUser(Unstarted, 1, [Announcement([])], [])
    ensures WellFormed(s) && Step(s, Join(2, [])).Some?
    ensures Two(Step(s, Join(2, [])).value, [1, 2], Unstarted, Unstarted, 1, 2, 2)
  {
    StepKeepsWellFormed(s, Join(2, []));
  }

  lemma BothStart(s: State)
    requires Two(s, [1, 2], Unstarted, Unstarted, 1, 2, 2)
    ensures Step(s, Start(1)).Some?
    ensures var s' := Step(s, Start(1)).value;
      WellFormed(s') && Step(s', Start(2)).Some? && Two(Step(s', Start(2)).value, [1, 2], Runnable, Runnable, 1, 2, 2)
  {
  }

  lemma TwoJoin() returns (s: State)
    ensures Leads(INITIAL, JOINS, s) && Two(s, [1, 2], Runnable, Runnable, 1, 2, 2)
  {
    hide Exec, Leads, Step;
    LeadsNowhere(INITIAL);
    JoinsFirst();
    s := LeadsOn(INITIAL, [], INITIAL, Join(1, []));
    SecondJoins(s);
    s := LeadsOn(INITIAL, [] + [Join(1, [])], s, Join(2, []));
    BothStart(s);
    s := LeadsOn(INITIAL, [] + [Join(1, [])] + [Join(2, [])], s, Start(1));
    s := LeadsOn(INITIAL, [] + [Join(1, [])] + [Join(2, [])] + [Start(1)], s, Start(2));
    assert [] + [Join(1, [])] + [Join(2, [])] + [Start(1)] + [Start(2)] == JOINS;
  }

  // The sender of user 1 takes the announcement of user 2, and user 1 leaves.
  lemma FirstSendsAndLeaves(s: State)
    requires Two(s, [1, 2], Runnable, Runnable, 1, 2, 2)
    ensures Step(s, Run(1)).Some?
    ensures var s1 := Step(s, Run(1)).value;
      && WellFormed(s1) && Step(s1, Leave(1, [])).Some?
      && Two(Step(s1, Leave(1, [])).value, [2], Sending, Runnable, 2, 2, 3)
  {
    var s1 := Step(s, Run(1)).value;
    StepKeepsWellFormed(s, Run(1));
    assert Two(s1, [1, 2], Sending, Runnable, 2, 2, 2);
    StepKeepsWellFormed(s1, Leave(1, []));
    assert RemoveFirst([1, 2], 1) == [2];
  }

  // The sender of user 2 sends its message and goes to wait.
  lemma SecondSends(s: State)
    requires Two(s, [2], Sending, Runnable, 2, 2, 3)
    ensures Step(s, RequestDisconnect(1)).Some?
    ensures var s1 := Step(s, RequestDisconnect(1)).value;
      && WellFormed(s1) && Step(s1, Run(2)).Some?
      && var s2 := Step(s1, Run(2)).value;
         && WellFormed(s2) && Step(s2, Run(2)).Some? && Round(Step(s2, Run(2)).value, 1)
  {
    var s1 := Step(s, RequestDisconnect(1)).value;
    SendsAndWaits(s1, 2);
  }

  // One message for the sender of user 2, which then clears.
  lemma SendsAndWaits(s: State, c: nat)
    requires WellFormed(s) && s.view.users == [2] && !s.disconnectAll && s.senders.Keys == {1, 2}
    requires s.view.cleanCount < CLEANUP_LIMIT && s.senders[1].phase == Sending && s.senders[1].disconnect
    requires s.view.cursor[1] == 2 && s.view.cursor[2] == c && |s.view.messages| == c + 1
    requires s.senders[2].phase == Runnable && !s.senders[2].disconnect && s.senders[2].pingStatus == 0
    ensures Step(s, Run(2)).Some?
    ensures var s1 := Step(s, Run(2)).value;
      && WellFormed(s1) && Step(s1, Run(2)).Some?
      && var s2 := Step(s1, Run(2)).value;
         if s.view.cleanCount + 1 < CLEANUP_LIMIT then Round(s2, s.view.cleanCount + 1)
         else Round(s2, 0) && s2.view.messages == []
  {
    var s1 := TakeMessage(s, 2);
    assert Step(s, Run(2)) == Some(s1);
    StepKeepsWellFormed(s, Run(2));
    assert Step(s1, Run(2)) == Some(Sleep(s1, 2));
    StepKeepsWellFormed(s1, Run(2));
    DroppedBounds(s1.view);
  }

  lemma FirstLeaves(s: State) returns (s': State)
    requires Two(s, [1, 2], Runnable, Runnable, 1, 2, 2)
    ensures Leads(s, LEAVES, s') && Round(s', 1)
  {
    hide Exec, Leads, Step;
    LeadsNowhere(s);
    FirstSendsAndLeaves(s);
    s' := LeadsOn(s, [], s, Run(1));
    s' := LeadsOn(s, [] + [Run(1)], s', Leave(1, []));
    SecondSends(s');
    s' := LeadsOn(s, [] + [Run(1)] + [Leave(1, [])], s', RequestDisconnect(1));
    s' := LeadsOn(s, [] + [Run(1)] + [Leave(1, [])] + [RequestDisconnect(1)], s', Run(2));
    s' := LeadsOn(s, [] + [Run(1)] + [Leave(1, [])] + [RequestDisconnect(1)] + [Run(2)], s', Run(2));
    assert [] + [Run(1)] + [Leave(1, [])] + [RequestDisconnect(1)] + [Run(2)] + [Run(2)] == LEAVES;
  }

  lemma MessageComes(s: State, m: Message, n: nat)
    requires Round(s, n)
    ensures Step(s, AddMessage(m)).Some?
    ensures var s1 := Step(s, AddMessage(m)).value;
      && WellFormed(s1) && Step(s1, Wake(2)).Some? && s1.senders[2].signalled
      && var s2 := Step(s1, Wake(2)).value;
         && WellFormed(s2) && Step(s2, Run(2)).Some?
         && var s3 := Step(s2, Run(2)).value;
            && WellFormed(s3) && Step(s3, Run(2)).Some?
            && var s4 := Step(s3, Run(2)).value;
               if n + 1 < CLEANUP_LIMIT then Round(s4, n + 1) else Round(s4, 0) && s4.view.messages == []
  {
    var s1 := Step(s, AddMessage(m)).value;
    var s2 := Step(s1, Wake(2)).value;
    SendsAndWaits(s2, |s.view.messages|);
  }

  lemma OneMessageSent(s: State, m: Message, n: nat) returns (s': State)
    requires Round(s, n)
    ensures Leads(s, OneMessage(m), s')
    ensures if n + 1 < CLEANUP_LIMIT then Round(s', n + 1) else Round(s', 0) && s'.view.messages == []
  {
    hide Exec, Leads, Step;
    LeadsNowhere(s);
    MessageComes(s, m, n);
    s' := LeadsOn(s, [], s, AddMessage(m));
    s' := LeadsOn(s, [] + [AddMessage(m)], s', Wake(2));
    s' := LeadsOn(s, [] + [AddMessage(m)] + [Wake(2)], s', Run(2));
    s' := LeadsOn(s, [] + [AddMessage(m)] + [Wake(2)] + [Run(2)], s', Run(2));
    assert [] + [AddMessage(m)] + [Wake(2)] + [Run(2)] + [Run(2)] == OneMessage(m);
  }

  lemma {:induction false} MessagesSent(s: State, m: Message, n: nat) returns (s': State)
    requires Round(s, 1) && 0 < n < CLEANUP_LIMIT
    ensures Leads(s, Messages(m, n), s')
    ensures if n + 1 < CLEANUP_LIMIT then Round(s', n + 1) else Round(s', 0) && s'.view.messages == []
  {
    hide Leads;
    if n == 1 {
      s' := OneMessageSent(s, m, 1);
      assert Messages(m, 1) == [] + OneMessage(m) == OneMessage(m);
    } else {
      var s1 := MessagesSent(s, m, n - 1);
      s' := OneMessageSent(s1, m, n);
      LeadsAppend(s, Messages(m, n - 1), s1, OneMessage(m), s');
    }
  }

  // User 1 is asked to disconnect while its sender sends a message; while it still sends,
  // nine messages for user 2 come and go, and the clear takes them all away.  The sender
  // of user 1 then finds no message, and waits for ever, although no thread in this run
  // came back from a wait without a signal.
  lemma RemovedSenderHangs(m: Message) returns (s: State)
    ensures Leads(INITIAL, JOINS + LEAVES + Messages(m, 9) + [Run(1)], s)
    ensures s.view.users == [2] && Asleep(s, 1) && s.senders[1].disconnect
    ensures forall after |
              WellFormed(s) && Exec(s, after).Some? && Wake(1) !in after && RequestDisconnect(1) !in after ::
              Asleep(Exec(s, after).value, 1)
  {
    hide Exec, Leads, Step;
    var s1 := TwoJoin();
    var s2 := FirstLeaves(s1);
    LeadsAppend(INITIAL, JOINS, s1, LEAVES, s2);
    var s3 := MessagesSent(s2, m, 9);
    LeadsAppend(INITIAL, JOINS + LEAVES, s2, Messages(m, 9), s3);
    LastTurnHangs(s3);
    s := LeadsOn(INITIAL, JOINS + LEAVES + Messages(m, 9), s3, Run(1));
    forall after | Exec(s, after).Some? && Wake(1) !in after && RequestDisconnect(1) !in after
      ensures Asleep(Exec(s, after).value, 1)
    {
      OverForEver(s, after, 1);
    }
  }

  lemma LastTurnHangs(s: State)
    requires Round(s, 0) && s.view.messages == []
    ensures Step(s, Run(1)).Some?
    ensures var s' := Step(s, Run(1)).value;
      WellFormed(s') && s'.view.users == [2] && Asleep(s', 1) && s'.senders[1].disconnect
  {
    StepKeepsWellFormed(s, Run(1));
    TurnVerdict(s, 1);
  }
}
