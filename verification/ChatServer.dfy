// The global arrays of the chat server and the functions that update them in
// place while they hold `chat_mutex`.  Each method is tied to the function of
// ChatView that the protocol uses for the same critical section.
module ChatServer {
  import opened ChatView
  import opened Lists
  import opened Options

  class ConnectedUser {
    const userId: nat
    var nextMessageIndex: nat
    var disconnect: bool
    var pingStatus: nat
    // The condition variable: whether the sender is inside pthread_cond_wait,
    // and whether it has been signalled there.
    var waiting: bool
    var signalled: bool

    constructor (id: nat)
      ensures userId == id && nextMessageIndex == 0 && !waiting && !signalled && !disconnect && pingStatus == 0
    {
      userId, nextMessageIndex := id, 0;
      waiting, signalled, disconnect, pingStatus := false, false, false, 0;
    }

    method Signal()
      modifies this`signalled
      ensures signalled == (old(signalled) || waiting)
    {
      if waiting {
        signalled := true;
      }
    }

    // pthread_cond_wait
    method Sleep()
      modifies this`waiting, this`signalled
      ensures waiting && !signalled
    {
      waiting, signalled := true, false;
    }
  }

  // realloc() to `count + 1` elements, and `x` stored in the new one.
  method Grow<T>(a: array<T>, count: nat, x: T) returns (b: array<T>)
    requires count <= a.Length
    ensures fresh(b) && b.Length == count + 1 && b[..count + 1] == a[..count] + [x]
  {
    b := new T[count + 1](_ => x);
    forall i | 0 <= i < count {
      b[i] := a[i];
    }
  }

  class Chat {
    var users: array<ConnectedUser>
    var userCount: nat
    var messages: array<Message>
    var messageCount: nat
    var cleanCount: nat
    var disconnectAll: bool
    // next_message_index of every user ever added; how many messages have been
    // freed; and the calls of free(), as positions in the sequence of all
    // messages ever added.
    ghost var cursor: map<ConnectedUser, nat>
    ghost var base: nat
    ghost var freed: seq<nat>

    ghost predicate Shaped()
      reads this, users, cursor.Keys`nextMessageIndex
    {
      && userCount <= users.Length && messageCount <= messages.Length
      && (forall i :: 0 <= i < userCount ==> users[i] in cursor)
      && (forall c :: c in cursor ==> cursor[c] == c.nextMessageIndex)
    }

    ghost function View(): View<ConnectedUser>
      requires Shaped()
      reads this, users, messages, cursor.Keys`nextMessageIndex
    {
      ChatView.View(users[..userCount], cursor, messages[..messageCount], cleanCount)
    }

    ghost predicate Valid()
      reads this, users, messages, cursor.Keys`nextMessageIndex
    {
      Shaped() && Ok(View())
    }

    constructor ()
      ensures Valid() && fresh(users) && fresh(messages)
      ensures View() == ChatView.View([], map[], [], 0) && base == 0 && freed == [] && !disconnectAll
    {
      users := new ConnectedUser[0];
      messages := new Message[0];
      userCount, messageCount, cleanCount, disconnectAll := 0, 0, 0, false;
      cursor, base, freed := map[], 0, [];
    }

    // chat_addmessage
    method AddMessage(message: Message)
      requires Valid()
      modifies this`messages, this`messageCount, cursor.Keys`signalled
      ensures Valid() && fresh(messages)
      ensures View() == Append(old(View()), message)
      ensures forall c :: c in cursor ==> c.signalled == (old(c.signalled) || (c.waiting && c in users[..userCount]))
    {
      messages := Grow(messages, messageCount, message);
      messageCount := messageCount + 1;
      SignalUsers();
    }

    // The loop that informs the sender threads.
    method SignalUsers()
      requires Shaped()
      modifies cursor.Keys`signalled
      ensures forall c :: c in cursor ==> c.signalled == (old(c.signalled) || (c.waiting && c in users[..userCount]))
    {
      for i := 0 to userCount
        invariant forall c :: c in cursor ==> c.signalled == (old(c.signalled) || (c.waiting && c in users[..i]))
      {
        users[i].Signal();
        assert users[..i + 1] == users[..i] + [users[i]];
      }
    }

    // chat_clearmessages
    method ClearMessages()
      requires Valid()
      modifies this`messages, this`messageCount, this`cleanCount, this`base, this`freed, this`cursor, messages,
               cursor.Keys`nextMessageIndex
      ensures Valid() && (messages == old(messages) || fresh(messages))
      ensures View() == Clear(old(View()))
      ensures base == old(base) + Dropped(old(View()))
      ensures freed == old(freed) + Range(old(base), Dropped(old(View())))
    {
      ghost var v := View();
      ClearKeeps(v);
      DroppedBounds(v);
      cleanCount := cleanCount + 1;
      if CLEANUP_LIMIT > cleanCount {
        assert Rebase(v.users, v.cursor, 0) == v.cursor;
        return;
      }
      cleanCount := 0;
      DropConsumed(v);
    }

    // The part of chat_clearmessages that runs when a cleanup is due.
    method DropConsumed(ghost v: View<ConnectedUser>)
      requires Shaped() && Ok(v) && v.users == users[..userCount] && v.cursor == cursor
      requires v.messages == messages[..messageCount]
      modifies this`messages, this`messageCount, this`base, this`freed, this`cursor, messages,
               cursor.Keys`nextMessageIndex
      ensures Shaped() && (messages == old(messages) || fresh(messages))
      ensures var n := Consumed(v);
        && n <= |v.messages| && messages[..messageCount] == v.messages[n..]
        && (forall i :: 0 <= i < |v.users| ==> n <= v.cursor[v.users[i]])
        && cursor == Rebase(v.users, v.cursor, n)
        && base == old(base) + n && freed == old(freed) + Range(old(base), n)
    {
      DroppedBounds(v);
      if 0 < messageCount {
        if 0 < userCount {
          DropPassed(v);
        } else {
          DropAll();
          assert Rebase(v.users, v.cursor, |v.messages|) == v.cursor;
        }
      } else {
        assert Rebase(v.users, v.cursor, 0) == v.cursor;
      }
    }

    // Without connected users all messages go.
    method DropAll()
      requires Shaped()
      modifies this`messages, this`messageCount, this`base, this`freed
      ensures Shaped() && messageCount == 0 && fresh(messages)
      ensures base == old(base) + old(messageCount) && freed == old(freed) + Range(old(base), old(messageCount))
    {
      FreeFirst(messageCount);
      base := base + messageCount;
      messages := new Message[0];
      messageCount := 0;
    }

    // With connected users the messages below the smallest cursor go.
    method DropPassed(ghost v: View<ConnectedUser>)
      requires Shaped() && Ok(v) && v.users == users[..userCount] && v.users != [] && v.cursor == cursor
      requires v.messages == messages[..messageCount]
      modifies this`messageCount, this`base, this`freed, this`cursor, messages, cursor.Keys`nextMessageIndex
      ensures Shaped()
      ensures var n := MinCursor(v.users, v.cursor);
        && n <= |v.messages| && messages[..messageCount] == v.messages[n..]
        && cursor == Rebase(v.users, v.cursor, n)
        && base == old(base) + n && freed == old(freed) + Range(old(base), n)
    {
      var minMessage := MinNextIndex();
      assert minMessage <= v.cursor[v.users[0]] <= |v.messages|;
      if 0 < minMessage {
        hide MinCursor, Rebase, Range, Distinct;
        DropFirst(v, minMessage);
      } else {
        assert Rebase(v.users, v.cursor, 0) == v.cursor;
        assert Range(base, 0) == [];
      }
    }

    // The first `count` messages go, which every registered user has passed.
    method DropFirst(ghost v: View<ConnectedUser>, count: nat)
      requires Shaped() && Ok(v) && v.users == users[..userCount] && v.cursor == cursor
      requires v.messages == messages[..messageCount] && 0 < count <= messageCount
      requires forall i :: 0 <= i < |v.users| ==> count <= v.cursor[v.users[i]]
      modifies this`messageCount, this`base, this`freed, this`cursor, messages, cursor.Keys`nextMessageIndex
      ensures Shaped() && messages[..messageCount] == v.messages[count..]
      ensures cursor == Rebase(v.users, v.cursor, count)
      ensures base == old(base) + count && freed == old(freed) + Range(old(base), count)
    {
      hide Range, Distinct, Rebase;
      FreeFirst(count);
      ShiftMessages(count);
      messageCount := messageCount - count;
      RebaseUsers(count, v.users);
      base := base + count;
    }

    method MinNextIndex() returns (least: nat)
      requires Shaped() && userCount > 0
      ensures least == MinCursor(users[..userCount], cursor)
    {
      ghost var all := users[..userCount];
      least := users[0].nextMessageIndex;
      assert all[..1] == [users[0]];
      for i := 1 to userCount
        invariant least == MinCursor(all[..i], cursor)
      {
        assert all[..i + 1][..i] == all[..i];
        if least > users[i].nextMessageIndex {
          least := users[i].nextMessageIndex;
        }
      }
      assert all[..userCount] == all;
    }

    // free() on each of the first `count` messages.
    ghost method FreeFirst(count: nat)
      requires count <= messageCount
      modifies this`freed
      ensures freed == old(freed) + Range(base, count)
    {
      for i := 0 to count
        invariant freed == old(freed) + Range(base, i)
      {
        freed := freed + [base + i];
        assert Range(base, i + 1) == Range(base, i) + [base + i];
      }
    }

    // Moves the messages from index `count` on to the front of the array.
    method ShiftMessages(count: nat)
      requires messageCount <= messages.Length && 0 < count <= messageCount
      modifies messages
      ensures messages[..messageCount - count] == old(messages[count..messageCount])
    {
      for i := count to messageCount
        invariant forall k :: 0 <= k < i - count ==> messages[k] == old(messages[k + count])
        invariant forall k :: i <= k < messageCount ==> messages[k] == old(messages[k])
      {
        messages[i - count] := messages[i];
      }
    }

    // Takes `count` off the cursor of every registered user.
    method RebaseUsers(count: nat, ghost all: seq<ConnectedUser>)
      requires Shaped() && Distinct(all) && all == users[..userCount]
      requires forall i :: 0 <= i < |all| ==> all[i] in cursor && count <= cursor[all[i]]
      modifies this`cursor, cursor.Keys`nextMessageIndex
      ensures Shaped()
      ensures cursor == Rebase(all, old(cursor), count)
    {
      for i := 0 to userCount
        invariant cursor == old(cursor)
        invariant forall c :: c in cursor ==>
          c.nextMessageIndex == if c in all[..i] then cursor[c] - count else cursor[c]
      {
        assert all[i] == users[i] && all[i] !in all[..i];
        users[i].nextMessageIndex := users[i].nextMessageIndex - count;
        assert all[..i + 1] == all[..i] + [users[i]];
      }
      assert all[..userCount] == all;
      cursor := Rebase(all, cursor, count);
    }

    // chat_adduser
    method AddUser(cu: ConnectedUser, announcement: Message)
      requires Valid() && cu !in cursor
      modifies this`users, this`userCount, this`messages, this`messageCount, this`cursor,
               cursor.Keys`signalled, cu`nextMessageIndex
      ensures Valid()
      ensures View() == ChatView.AddUser(old(View()), cu, announcement)
      ensures forall c :: c in old(cursor) ==>
        c.signalled == (old(c.signalled) || (c.waiting && c in old(users[..userCount])))
    {
      ghost var v := View();
      AddMessage(announcement);
      ListUser(cu);
      AddUserKeeps(v, cu, announcement);
    }

    // The user goes behind the others, with its cursor behind all messages.
    method ListUser(cu: ConnectedUser)
      requires Shaped() && cu !in cursor
      modifies this`users, this`userCount, this`cursor, cu`nextMessageIndex
      ensures Shaped() && users[..userCount] == old(users[..userCount]) + [cu]
      ensures cursor == old(cursor)[cu := messageCount]
    {
      users := Grow(users, userCount, cu);
      userCount := userCount + 1;
      cu.nextMessageIndex := messageCount;
      cursor := cursor[cu := messageCount];
    }

    // chat_removeuser; the result is false when the user was not listed.
    method RemoveUser(cu: ConnectedUser, announcement: Message) returns (found: bool)
      requires Valid()
      modifies this`userCount, this`messages, this`messageCount, users, cursor.Keys`signalled
      ensures Valid() && found == (cu in old(View()).users)
      ensures View() == ChatView.RemoveUser(old(View()), cu, announcement)
      ensures forall c :: c in cursor ==>
        c.signalled == (old(c.signalled) || (c.waiting && c in old(users[..userCount])))
    {
      ghost var v := View();
      AddMessage(announcement);
      assert users[..userCount] == v.users;
      found := Unlist(cu);
      RemoveUserKeeps(v, cu, announcement);
    }

    method Unlist(cu: ConnectedUser) returns (found: bool)
      requires Shaped()
      modifies this`userCount, users
      ensures userCount <= users.Length && found == (cu in old(users[..userCount]))
      ensures users[..userCount] == RemoveFirst(old(users[..userCount]), cu)
    {
      for i := 0 to userCount
        invariant cu !in users[..i] && userCount == old(userCount)
        invariant users[..userCount] == old(users[..userCount])
      {
        if cu == users[i] {
          ghost var before := users[..userCount];
          RemoveFirstAt(before, cu, i);
          ShiftUsers(i);
          userCount := userCount - 1;
          assert users[..userCount] == before[..i] + before[i + 1..];
          return true;
        }
        assert users[..i + 1] == users[..i] + [users[i]];
      }
      RemoveAbsent(users[..userCount], cu);
      found := false;
    }

    method ShiftUsers(at: nat)
      requires at < userCount <= users.Length
      modifies users
      ensures forall k :: 0 <= k < at ==> users[k] == old(users[k])
      ensures forall k :: at <= k < userCount - 1 ==> users[k] == old(users[k + 1])
    {
      for j := at + 1 to userCount
        invariant forall k :: 0 <= k < at ==> users[k] == old(users[k])
        invariant forall k :: at <= k < j - 1 ==> users[k] == old(users[k + 1])
        invariant forall k :: j <= k < userCount ==> users[k] == old(users[k])
      {
        users[j - 1] := users[j];
      }
    }

    // One critical section of the sender of `cu`; `sent` tells whether it comes
    // back from sending a message.
    method SenderTurn(cu: ConnectedUser, sent: bool) returns (turn: Turn)
      requires Valid() && cu in cursor
      modifies this`messages, this`messageCount, this`cleanCount, this`base, this`freed, this`cursor, messages,
               cursor.Keys`nextMessageIndex, cu`pingStatus, cu`waiting, cu`signalled
      ensures Valid() && (messages == old(messages) || fresh(messages))
      ensures turn == old(Outcome(cu, sent))
      ensures var at, m := old(cu.nextMessageIndex), old(messages[..messageCount]);
        && (turn.Stop? <==> !(sent && at >= |m|) && old(disconnectAll || cu.disconnect))
        && (turn.Ping? <==> !(sent && at >= |m|) && !old(disconnectAll || cu.disconnect) && old(cu.pingStatus) == 1)
        && (turn.Encode? || turn.Skip? ==> at < |m|)
        && (turn.Encode? ==> turn.m == m[at] && (m[at].to == 0 || m[at].to == cu.userId || m[at].from == cu.userId))
        && (turn.Skip? ==> m[at].to != 0 && m[at].to != cu.userId && m[at].from != cu.userId)
        && (turn.Wait? ==> at >= |m|)
      ensures View() ==
        match turn
        case Wait => Clear(old(View()))
        case Encode(_) => Advance(old(View()), cu)
        case Skip => Advance(old(View()), cu)
        case _ => old(View())
      ensures base == old(base) + (if turn.Wait? then Dropped(old(View())) else 0)
      ensures freed == old(freed) + (if turn.Wait? then Range(old(base), Dropped(old(View()))) else [])
      ensures cu.pingStatus == if turn.Ping? then 2 else old(cu.pingStatus)
      ensures cu.waiting == (turn.Wait? || old(cu.waiting)) && cu.signalled == (!turn.Wait? && old(cu.signalled))
    {
      if !(sent && cu.nextMessageIndex >= messageCount) {
        if disconnectAll {
          return Stop;
        } else if cu.disconnect {
          return Stop;
        } else if 1 == cu.pingStatus {
          cu.pingStatus := 2;
          return Ping;
        } else if cu.nextMessageIndex < messageCount {
          turn := TakeMessage(cu);
          return;
        }
      }
      ClearMessages();
      cu.Sleep();
      turn := Wait;
    }

    // The pending message is encoded if it is meant for the user.
    method TakeMessage(cu: ConnectedUser) returns (turn: Turn)
      requires Valid() && cu in cursor && cu.nextMessageIndex < messageCount
      modifies this`cursor, cu`nextMessageIndex
      ensures Valid() && View() == Advance(old(View()), cu)
      ensures var m := messages[old(cu.nextMessageIndex)];
        turn == if m.to == 0 || m.to == cu.userId || m.from == cu.userId then Encode(m) else Skip
    {
      AdvanceKeeps(View(), cu);
      var m := messages[cu.nextMessageIndex];
      cu.nextMessageIndex := cu.nextMessageIndex + 1;
      cursor := cursor[cu := cu.nextMessageIndex];
      turn := if m.to == 0 || cu.userId == m.to || cu.userId == m.from then Encode(m) else Skip;
    }

    // How the next critical section of the sender of `cu` ends.
    ghost function Outcome(cu: ConnectedUser, sent: bool): Turn
      requires Shaped() && cu in cursor
      reads this, users, messages, cursor.Keys
    {
      var pending := if cu.nextMessageIndex < messageCount then Some(messages[cu.nextMessageIndex]) else None;
      TurnOf(sent, disconnectAll || cu.disconnect, cu.pingStatus, pending, cu.userId)
    }
  }

  lemma {:induction false} RemoveAbsent<T>(s: seq<T>, x: T)
    requires x !in s
    ensures RemoveFirst(s, x) == s
  {
    if s != [] {
      RemoveAbsent(s[1..], x);
    }
  }
}
