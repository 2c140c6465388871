// Requests for a ping or a disconnect: when the sender of a user goes to sleep although
// one is pending, and which sleepers nobody wakes any more.
module ChatRequests {
  import opened ChatView
  import opened Lists
  import opened Options
  import opened ChatProtocol
  import ChatDelivery

  // The sender has something else to do than to send messages.
  predicate Requested(s: State, u: nat) {
    u in s.senders && (s.disconnectAll || s.senders[u].disconnect || s.senders[u].pingStatus == 1)
  }

  // The sender waits, and no signal is on its way to it.
  predicate Asleep(s: State, u: nat) {
    u in s.senders && s.senders[u].phase == Waiting && !s.senders[u].signalled
  }

  // It comes back from sending a message, finds no other one and does not look further.
  predicate Misses(s: State, u: nat) {
    && Requested(s, u) && s.senders[u].phase == Sending
    && u in s.view.cursor && s.view.cursor[u] >= |s.view.messages|
  }

  // --- One step -----------------------------------------------------------------

  // What one turn of the sender makes of a request: it is missed exactly if the sender
  // comes back from sending the last message; otherwise the sender stops or pings.
  lemma TurnVerdict(s: State, u: nat)
    requires WellFormed(s) && Step(s, Run(u)).Some? && Requested(s, u)
    ensures var s' := Step(s, Run(u)).value;
      && u in s'.senders
      && (Asleep(s', u) <==> Misses(s, u))
      && (Misses(s, u) ==> Requested(s', u))
      && (!Misses(s, u) ==>
            s'.senders[u].phase == if s.disconnectAll || s.senders[u].disconnect then Stopped else Pinging)
      && (s'.senders[u].phase == Pinging ==> s'.senders[u].pingStatus == 2)
  {
    hide Dropped, Clear;
  }

  // A sender that sleeps after a step has been asleep before, and hears of every new
  // request but the disconnection of all users, if it is not listed; or the step was its
  // own turn, and a request is pending exactly if it has missed one.
  lemma AsleepBefore(s: State, a: Action, u: nat)
    requires WellFormed(s) && Step(s, a).Some? && Asleep(Step(s, a).value, u)
    ensures var s' := Step(s, a).value;
      if Asleep(s, u) then
        && a != Run(u) && a != Wake(u)
        && (Requested(s', u) <==> Requested(s, u) || (a.DisconnectAll? && u !in s.view.users))
      else
        a == Run(u) && (Requested(s', u) <==> Misses(s, u))
  {
    hide Dropped, Clear, RemoveUser, AddUser;
  }

  // --- Runs ----------------------------------------------------------------------

  // All users are disconnected while `u` is not listed.
  ghost predicate Unheard(actions: seq<Action>, j: nat, u: nat)
    requires Exec(INITIAL, actions).Some?
  {
    && j < |actions| && actions[j] == DisconnectAll
    && Exec(INITIAL, actions[..j]).Some? && u !in Exec(INITIAL, actions[..j]).value.view.users
  }

  // The sender of `u` has slept since its turn number `k` of the run.
  ghost predicate SleptSince(actions: seq<Action>, k: nat, u: nat)
    requires Exec(INITIAL, actions).Some?
  {
    && k < |actions| && actions[k] == Run(u)
    && (forall j :: k < j < |actions| ==> actions[j] != Run(u) && actions[j] != Wake(u))
    && Exec(INITIAL, actions[..k]).Some?
  }

  // It overlooks a request then, or is not told of one later.
  ghost predicate Overlooked(actions: seq<Action>, k: nat, u: nat)
    requires Exec(INITIAL, actions).Some? && SleptSince(actions, k, u)
  {
    Misses(Exec(INITIAL, actions[..k]).value, u) || exists j :: k < j && Unheard(actions, j, u)
  }

  // In every run: when a sender sleeps and nobody has signalled it, a request is pending
  // if and only if in its last turn it came back from sending the last message with a
  // request pending, or it was no longer listed when all users were disconnected.
  lemma {:induction false} PendingWhileAsleep(actions: seq<Action>, u: nat) returns (k: nat)
    requires Exec(INITIAL, actions).Some? && Asleep(Exec(INITIAL, actions).value, u)
    ensures SleptSince(actions, k, u)
    ensures Requested(Exec(INITIAL, actions).value, u) <==> Overlooked(actions, k, u)
  {
    hide Step, Asleep, Requested, Misses;
    assert actions != [] by { NobodySleepsAtFirst(u); }
    var n := |actions| - 1;
    var front, last := actions[..n], actions[n];
    var s := Exec(INITIAL, front).value;
    AsleepBefore(s, last, u);
    if Asleep(s, u) {
      k := PendingWhileAsleep(front, u);
      SleptOn(actions, k, u);
    } else {
      k := n;
      assert !exists j :: k < j && Unheard(actions, j, u);
    }
  }

  lemma NobodySleepsAtFirst(u: nat)
    ensures !Asleep(INITIAL, u)
  {
  }

  // One more step that leaves the sender asleep.
  lemma SleptOn(actions: seq<Action>, k: nat, u: nat)
    requires actions != [] && Exec(INITIAL, actions).Some? && Exec(INITIAL, actions[..|actions| - 1]).Some?
    requires SleptSince(actions[..|actions| - 1], k, u)
    requires var last := actions[|actions| - 1]; last != Run(u) && last != Wake(u)
    ensures SleptSince(actions, k, u)
    ensures var s, last := Exec(INITIAL, actions[..|actions| - 1]).value, actions[|actions| - 1];
      Overlooked(actions, k, u) <==>
        Overlooked(actions[..|actions| - 1], k, u) || (last.DisconnectAll? && u !in s.view.users)
  {
    hide Exec, Misses;
    var n := |actions| - 1;
    var front := actions[..n];
    assert front[..k] == actions[..k];
    hide Unheard;
    UnheardBefore(actions, n, u);
    UnheardNow(actions, n, u);
    if j :| k < j && Unheard(front, j, u) {
      assert Unheard(actions, j, u);
    }
    if j :| k < j && Unheard(actions, j, u) {
      UnheardWithin(actions, j, u);
      assert j == n || Unheard(front, j, u);
    }
  }

  lemma UnheardWithin(actions: seq<Action>, j: nat, u: nat)
    requires Exec(INITIAL, actions).Some? && Unheard(actions, j, u)
    ensures j < |actions|
  {
  }

  lemma UnheardBefore(actions: seq<Action>, n: nat, u: nat)
    requires n == |actions| - 1 && Exec(INITIAL, actions).Some? && Exec(INITIAL, actions[..n]).Some?
    ensures forall j: nat :: j < n ==> Unheard(actions[..n], j, u) == Unheard(actions, j, u)
    ensures forall j: nat :: Unheard(actions[..n], j, u) ==> j < n
  {
    hide Exec;
    assert forall j: nat :: j <= n ==> actions[..n][..j] == actions[..j];
  }

  lemma UnheardNow(actions: seq<Action>, n: nat, u: nat)
    requires n < |actions| && Exec(INITIAL, actions).Some? && Exec(INITIAL, actions[..n]).Some?
    ensures Unheard(actions, n, u) <==>
            actions[n] == DisconnectAll && u !in Exec(INITIAL, actions[..n]).value.view.users
  {
  }

  // A user that has been removed from the list does not come back.
  lemma StaysUnlisted(s: State, a: Action, u: nat)
    requires WellFormed(s) && Step(s, a).Some? && u in s.senders
    ensures u in Step(s, a).value.senders
    ensures u !in s.view.users ==> u !in Step(s, a).value.view.users
  {
    hide Dropped, Rebase;
    StepKeepsWellFormed(s, a);
    if a.Leave? {
      RemoveFirstMembers(s.view.users, a.u);
    }
  }

  lemma {:induction false} StaysOffTheList(s: State, post: seq<Action>, u: nat)
    requires WellFormed(s) && Exec(s, post).Some? && u in s.senders
    ensures u in Exec(s, post).value.senders
    ensures u !in s.view.users ==> u !in Exec(s, post).value.view.users
  {
    hide Step;
    if post != [] {
      var front := post[..|post| - 1];
      StaysOffTheList(s, front, u);
      StaysUnlisted(Exec(s, front).value, post[|post| - 1], u);
    }
  }

  lemma {:induction false} HasSender(actions: seq<Action>, k: nat, j: nat, u: nat)
    requires k < j <= |actions| && actions[k] == Run(u) && Exec(INITIAL, actions[..j]).Some?
    ensures u in Exec(INITIAL, actions[..j]).value.senders
    decreases j
  {
    LastStep(actions, j, j - 1);
    hide Exec, WellFormed;
    var s := Exec(INITIAL, actions[..j - 1]).value;
    if k < j - 1 {
      HasSender(actions, k, j - 1, u);
    } else {
      assert u in s.senders;
    }
    hide Step;
    StaysUnlisted(s, actions[j - 1], u);
  }

  lemma LastStep(actions: seq<Action>, j: nat, before: nat)
    requires before == j - 1 && j <= |actions| && Exec(INITIAL, actions[..j]).Some?
    ensures Exec(INITIAL, actions[..before]).Some?
    ensures Step(Exec(INITIAL, actions[..before]).value, actions[before]) == Exec(INITIAL, actions[..j])
  {
    assert actions[..j][..before] == actions[..before];
  }

  // For a listed user the only pending request is the one that its sender has missed in
  // its last turn.
  lemma PendingOfListed(actions: seq<Action>, u: nat) returns (k: nat)
    requires Exec(INITIAL, actions).Some? && Asleep(Exec(INITIAL, actions).value, u)
    requires u in Exec(INITIAL, actions).value.view.users
    ensures SleptSince(actions, k, u)
    ensures Requested(Exec(INITIAL, actions).value, u) <==> Misses(Exec(INITIAL, actions[..k]).value, u)
  {
    hide Exec, Asleep, Requested, Misses;
    k := PendingWhileAsleep(actions, u);
    if j :| k < j && Unheard(actions, j, u) {
      HasSender(actions, k, j, u);
      assert actions[..j] + actions[j..] == actions;
      ChatDelivery.ExecAppend(INITIAL, actions[..j], actions[j..]);
      StaysOffTheList(Exec(INITIAL, actions[..j]).value, actions[j..], u);
      assert false;
    }
  }

  // --- Inputs ------------------------------------------------------------------------

  lemma OneMore(front: seq<Action>, a: Action, s: State)
    requires Exec(INITIAL, front) == Some(s)
    ensures WellFormed(s) && Exec(INITIAL, front + [a]) == Step(s, a)
  {
    assert (front + [a])[..|front|] == front;
  }

  // A user and a message; the sender sends it, and meanwhile somebody pings the user or
  // the application asks all users to disconnect.
  function WhileSending(m: Message, request: Action): seq<Action> {
    [Join(1, []), Start(1), AddMessage(m), Run(1)] + [request, Run(1)]
  }

  // One user; the announcement has been sent before it was listed.
  function OneUser(phase: Phase, cursor: nat, messages: seq<Message>, selected: seq<Message>): State {
    State(View([1], map[1 := cursor], messages, 0), map[1 := Sender(phase, false, 0, false, 1, selected)],
          false, messages, 0, [])
  }

  function FirstMessageSent(m: Message): State {
    OneUser(Sending, 2, [Announcement([]), m], if Visible(m, 1) then [m] else [])
  }

  lemma JoinsFirst()
    ensures WellFormed(INITIAL)
    ensures Step(INITIAL, Join(1, [])) == Some(OneUser(Unstarted, 1, [Announcement([])], []))
  {
    var s := Step(INITIAL, Join(1, [])).value;
    assert s.log == [Announcement([])] && s.view.users == [1];
    assert s.senders == map[1 := Sender(Unstarted, false, 0, false, 1, [])];
  }

  lemma AppendsSecond(a: Message, m: Message)
    ensures WellFormed(OneUser(Runnable, 1, [a], []))
    ensures Step(OneUser(Runnable, 1, [a], []), AddMessage(m)) == Some(OneUser(Runnable, 1, [a, m], []))
  {
    var s := OneUser(Runnable, 1, [a], []);
    assert [a] + [m] == [a, m];
    assert Extend(s, m).senders == s.senders;
  }

  lemma TakesSecond(a: Message, m: Message)
    ensures WellFormed(OneUser(Runnable, 1, [a, m], []))
    ensures Step(OneUser(Runnable, 1, [a, m], []), Run(1)) ==
            Some(OneUser(Sending, 2, [a, m], if Visible(m, 1) then [m] else []))
  {
    var s := OneUser(Runnable, 1, [a, m], []);
    var selected := if Visible(m, 1) then [m] else [];
    assert s.view.messages[1] == m && [] + [m] == [m];
    assert Step(s, Run(1)) == Some(TakeMessage(s, 1));
    assert TakeMessage(s, 1).senders == map[1 := Sender(Sending, false, 0, false, 1, selected)];
    assert TakeMessage(s, 1).view.cursor == map[1 := 2];
  }

  lemma SendsFirstMessage(m: Message)
    ensures Exec(INITIAL, [Join(1, []), Start(1), AddMessage(m), Run(1)]) == Some(FirstMessageSent(m))
  {
    var a := Announcement([]);
    assert Exec(INITIAL, []) == Some(INITIAL);
    hide Exec, Step, WellFormed;
    JoinsFirst();
    OneMore([], Join(1, []), INITIAL);
    assert [] + [Join(1, [])] == [Join(1, [])];
    StartsFirst(a);
    OneMore([Join(1, [])], Start(1), OneUser(Unstarted, 1, [a], []));
    assert [Join(1, [])] + [Start(1)] == [Join(1, []), Start(1)];
    AppendsSecond(a, m);
    TakesSecond(a, m);
    OneMore([Join(1, []), Start(1)], AddMessage(m), OneUser(Runnable, 1, [a], []));
    assert [Join(1, []), Start(1)] + [AddMessage(m)] == [Join(1, []), Start(1), AddMessage(m)];
    OneMore([Join(1, []), Start(1), AddMessage(m)], Run(1), OneUser(Runnable, 1, [a, m], []));
    assert [Join(1, []), Start(1), AddMessage(m)] + [Run(1)] == [Join(1, []), Start(1), AddMessage(m), Run(1)];
  }

  lemma StartsFirst(a: Message)
    ensures WellFormed(OneUser(Unstarted, 1, [a], []))
    ensures Step(OneUser(Unstarted, 1, [a], []), Start(1)) == Some(OneUser(Runnable, 1, [a], []))
  {
    var s := OneUser(Unstarted, 1, [a], []);
    assert s.senders[1 := s.senders[1].(phase := Runnable)] == OneUser(Runnable, 1, [a], []).senders;
  }

  lemma RequestsWhileSending(m: Message, request: Action)
    requires request in {RequestPing(1), RequestDisconnect(1), DisconnectAll}
    ensures var s := FirstMessageSent(m);
      WellFormed(s) && Step(s, request).Some? && Misses(Step(s, request).value, 1) &&
      Step(s, request).value.view == s.view
  {
  }

  // All of them are missed: the sender is listed, sleeps, nobody has signalled it, and the
  // request is pending.
  lemma RequestIsMissed(m: Message, request: Action)
    requires request in {RequestPing(1), RequestDisconnect(1), DisconnectAll}
    ensures Exec(INITIAL, WhileSending(m, request)).Some?
    ensures var s := Exec(INITIAL, WhileSending(m, request)).value;
      s.view.users == [1] && Asleep(s, 1) && Requested(s, 1)
  {
    var before := [Join(1, []), Start(1), AddMessage(m), Run(1)];
    var s := FirstMessageSent(m);
    SendsFirstMessage(m);
    OneMore(before, request, s);
    hide Exec;
    RequestsWhileSending(m, request);
    var s1 := Step(s, request).value;
    OneMore(before + [request], Run(1), s1);
    assert before + [request] + [Run(1)] == WhileSending(m, request);
    TurnVerdict(s1, 1);
  }
}
