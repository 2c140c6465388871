// The shared state of the chat server that `chat_mutex` protects, as a value,
// and what each critical section does to it.  `U` stands for a pointer to a
// connected user; the protocol uses user ids for it and the server class uses
// object references.
module ChatView {
  import opened Lists
  import opened Options

  // One entry of the global message list.  A `to` of 0 addresses everyone and a
  // `from` of 0 is the server itself.
  datatype Message = Message(from: nat, to: nat, data: seq<int>, isBinary: bool)

  // `users` is the registered part of the user array, in array order; `cursor`
  // holds next_message_index of every user ever registered, also after removal;
  // `messages` is the live part of the message array.
  datatype View<U> = View(users: seq<U>, cursor: map<U, nat>, messages: seq<Message>, cleanCount: nat)

  const CLEANUP_LIMIT := 10

  // What every critical section keeps.
  ghost predicate Ok<U>(v: View<U>) {
    && Distinct(v.users)
    && (forall i :: 0 <= i < |v.users| ==> v.users[i] in v.cursor && v.cursor[v.users[i]] <= |v.messages|)
    && v.cleanCount < CLEANUP_LIMIT
  }

  function Append<U>(v: View<U>, m: Message): View<U> {
    v.(messages := v.messages + [m])
  }

  // Smallest cursor among `users`.
  function MinCursor<U(==)>(users: seq<U>, cursor: map<U, nat>): (least: nat)
    requires users != []
    requires forall i :: 0 <= i < |users| ==> users[i] in cursor
    ensures forall i :: 0 <= i < |users| ==> least <= cursor[users[i]]
    ensures exists i :: 0 <= i < |users| && least == cursor[users[i]]
  {
    var last := cursor[users[|users| - 1]];
    if |users| == 1 then last
    else
      var rest := MinCursor(users[..|users| - 1], cursor);
      if rest > last then last else rest
  }

  // How many messages a cleanup that is due frees.
  function Consumed<U(==)>(v: View<U>): nat
    requires Ok(v)
  {
    if v.messages == [] then 0
    else if v.users == [] then |v.messages|
    else MinCursor(v.users, v.cursor)
  }

  // How many messages one call of chat_clearmessages frees.
  function Dropped<U(==)>(v: View<U>): nat
    requires Ok(v)
  {
    if v.cleanCount + 1 < CLEANUP_LIMIT then 0 else Consumed(v)
  }

  // `cursor` with `amount` taken off the cursor of every registered user.
  function Rebase<U(==)>(users: seq<U>, cursor: map<U, nat>, amount: nat): map<U, nat>
    requires forall i :: 0 <= i < |users| ==> users[i] in cursor && amount <= cursor[users[i]]
  {
    map u | u in cursor :: if u in users then cursor[u] - amount else cursor[u]
  }

  lemma DroppedBounds<U>(v: View<U>)
    requires Ok(v)
    ensures Dropped(v) <= Consumed(v) <= |v.messages|
    ensures forall i :: 0 <= i < |v.users| ==> Consumed(v) <= v.cursor[v.users[i]]
  {
    if v.users != [] {
      var least := MinCursor(v.users, v.cursor);
    }
  }

  // `count` consecutive positions from `first` on.
  function Range(first: nat, count: nat): seq<nat> {
    seq(count, i => first + i)
  }

  // chat_clearmessages
  function Clear<U(==)>(v: View<U>): View<U>
    requires Ok(v)
  {
    DroppedBounds(v);
    var count := if v.cleanCount + 1 < CLEANUP_LIMIT then v.cleanCount + 1 else 0;
    View(v.users, Rebase(v.users, v.cursor, Dropped(v)), v.messages[Dropped(v)..], count)
  }

  // chat_adduser, for the announcement `m`: the announcement goes out before the
  // user is listed, and the cursor starts behind it.
  function AddUser<U(==)>(v: View<U>, u: U, m: Message): View<U> {
    var v1 := Append(v, m);
    v1.(users := v.users + [u], cursor := v.cursor[u := |v1.messages|])
  }

  // chat_removeuser, for the announcement `m`.
  function RemoveUser<U(==)>(v: View<U>, u: U, m: Message): View<U> {
    Append(v, m).(users := RemoveFirst(v.users, u))
  }

  // Whether the sender of the user with id `id` encodes `m`.
  predicate Visible(m: Message, id: nat) {
    m.to == 0 || m.to == id || m.from == id
  }

  // How a critical section of a sender thread ends.
  datatype Turn = Stop | Ping | Skip | Encode(m: Message) | Wait

  // Which of them it is, by what the sender finds: whether it comes back from sending,
  // whether it has to stop, its ping status and the message at its cursor.
  function TurnOf(sent: bool, stop: bool, pingStatus: nat, pending: Option<Message>, id: nat): Turn {
    if sent && pending.None? then Wait
    else if stop then Stop
    else if pingStatus == 1 then Ping
    else if pending.None? then Wait
    else if Visible(pending.value, id) then Encode(pending.value)
    else Skip
  }

  // The messages that positions `lo` up to `hi` of `log` hold for the user with
  // id `id`, in order.
  function Select(log: seq<Message>, lo: nat, hi: nat, id: nat): seq<Message>
    requires hi <= |log|
    decreases hi
  {
    if hi <= lo then []
    else Select(log, lo, hi - 1, id) + (if Visible(log[hi - 1], id) then [log[hi - 1]] else [])
  }

  lemma {:induction false} SelectInPrefix(log: seq<Message>, more: seq<Message>, lo: nat, hi: nat, id: nat)
    requires hi <= |log| && log <= more
    ensures Select(more, lo, hi, id) == Select(log, lo, hi, id)
    decreases hi
  {
    if lo < hi {
      SelectInPrefix(log, more, lo, hi - 1, id);
    }
  }

  // `at` holds, in order, exactly the positions from `lo` up to `hi` whose message is for
  // everyone, for the user with this id, or from that user.
  ghost predicate Marks(log: seq<Message>, lo: nat, hi: nat, id: nat, at: seq<nat>)
    requires hi <= |log|
  {
    && (forall i :: 0 <= i < |at| ==> lo <= at[i] < hi)
    && (forall i, j :: 0 <= i < j < |at| ==> at[i] < at[j])
    && (forall p: nat :: lo <= p < hi ==> (p in at <==> log[p].to == 0 || log[p].to == id || log[p].from == id))
  }

  lemma MarksNext(log: seq<Message>, lo: nat, hi: nat, id: nat, at: seq<nat>, next: nat)
    requires lo <= hi && next == hi + 1 <= |log| && Marks(log, lo, hi, id, at)
    ensures var m := log[hi];
      Marks(log, lo, next, id, if m.to == 0 || m.to == id || m.from == id then at + [hi] else at)
  {
    assert hi !in at;
    forall p | p in at + [hi] ensures p in at || p == hi {
    }
  }

  // `selected` is what stands at the positions `at`.
  ghost predicate ReadOff(log: seq<Message>, at: seq<nat>, selected: seq<Message>) {
    |at| == |selected| && forall i :: 0 <= i < |at| ==> at[i] < |log| && selected[i] == log[at[i]]
  }

  lemma ReadOffNext(log: seq<Message>, at: seq<nat>, selected: seq<Message>, p: nat)
    requires ReadOff(log, at, selected) && p < |log|
    ensures ReadOff(log, at + [p], selected + [log[p]])
  {
  }

  // A selection is read off its positions.
  lemma {:induction false} SelectedPositions(log: seq<Message>, lo: nat, hi: nat, id: nat) returns (at: seq<nat>)
    requires hi <= |log|
    ensures Marks(log, lo, hi, id, at) && ReadOff(log, at, Select(log, lo, hi, id))
    decreases hi
  {
    hide Marks, ReadOff, Select;
    if hi <= lo {
      at := [];
      NothingSelected(log, lo, hi, id);
    } else {
      at := SelectedPositions(log, lo, hi - 1, id);
      MarksNext(log, lo, hi - 1, id, at, hi);
      SelectNext(log, lo, hi - 1, hi, id);
      if Visible(log[hi - 1], id) {
        ReadOffNext(log, at, Select(log, lo, hi - 1, id), hi - 1);
        at := at + [hi - 1];
      }
    }
  }

  lemma NothingSelected(log: seq<Message>, lo: nat, hi: nat, id: nat)
    requires hi <= |log| && hi <= lo
    ensures Select(log, lo, hi, id) == [] && Marks(log, lo, hi, id, []) && ReadOff(log, [], [])
  {
  }

  lemma SelectNext(log: seq<Message>, lo: nat, hi: nat, next: nat, id: nat)
    requires lo <= hi && next == hi + 1 <= |log|
    ensures var m, before := log[hi], Select(log, lo, hi, id);
      Select(log, lo, next, id) == if m.to == 0 || m.to == id || m.from == id then before + [m] else before
  {
  }

  // The sender's critical section when a message is pending.
  function Advance<U(==)>(v: View<U>, u: U): View<U>
    requires u in v.cursor
  {
    v.(cursor := v.cursor[u := v.cursor[u] + 1])
  }

  lemma AdvanceKeeps<U>(v: View<U>, u: U)
    requires Ok(v) && u in v.cursor && v.cursor[u] < |v.messages|
    ensures Ok(Advance(v, u))
  {
  }

  lemma ClearKeeps<U>(v: View<U>)
    requires Ok(v)
    ensures Ok(Clear(v))
    ensures Clear(v).cursor.Keys == v.cursor.Keys
  {
    DroppedBounds(v);
  }

  lemma AddUserKeeps<U>(v: View<U>, u: U, m: Message)
    requires Ok(v) && u !in v.users
    ensures Ok(AddUser(v, u, m))
  {
  }

  lemma RemoveUserKeeps<U>(v: View<U>, u: U, m: Message)
    requires Ok(v)
    ensures Ok(RemoveUser(v, u, m))
  {
    RemoveFirstKeeps(v.users, u);
    var left := RemoveFirst(v.users, u);
    forall i | 0 <= i < |left| ensures left[i] in v.cursor && v.cursor[left[i]] <= |v.messages| {
      var k :| 0 <= k < |v.users| && v.users[k] == left[i];
    }
  }

  // A clear that is due frees exactly the messages every registered user has
  // passed: one more would be a message that some user still has to read.
  lemma ClearFreesExactlyThePassed<U>(v: View<U>, i: nat)
    requires Ok(v) && v.cleanCount + 1 >= CLEANUP_LIMIT && i < |v.messages|
    ensures i < Dropped(v) <==> (forall k :: 0 <= k < |v.users| ==> i < v.cursor[v.users[k]])
  {
    if v.users != [] {
      var least := MinCursor(v.users, v.cursor);
    }
  }
}
