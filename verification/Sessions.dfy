// The session store of doc/examples/sessions.c: a linked list that is rewired in
// place, reference counters, and form values that arrive in pieces.
module Sessions {
  import opened Bytes
  import opened Lists

  const LIFETIME := 60 * 60
  const VALUE_SIZE := 64

  // --- Form values -----------------------------------------------------------------------

  // What one call of post_iterator leaves in the buffer of its key.
  function Stored(value: seq<byte>, data: seq<byte>, off: nat): (v: seq<byte>)
    requires |value| == VALUE_SIZE
    ensures |v| == VALUE_SIZE
  {
    if off >= VALUE_SIZE - 1 then value
    else
      var size := if |data| + off >= VALUE_SIZE then VALUE_SIZE - off - 1 else |data|;
      value[..off] + data[..size] + [0] + value[off + size + 1..]
  }

  // Octet by octet: from `off` on the data, as far as the last of the 64 octets stays free,
  // and a NUL behind it; everything else stays.
  lemma StoredOctets(value: seq<byte>, data: seq<byte>, off: nat, i: nat)
    requires |value| == 64 && i < 64
    ensures var end := if off + |data| < 63 then off + |data| else 63;
      Stored(value, data, off)[i] ==
        if off >= 63 || i < off || i > end then value[i] else if i < end then data[i - off] else 0
  {
  }

  // Several calls, each with the data that follows what the earlier ones had.
  function StoredAll(value: seq<byte>, pieces: seq<seq<byte>>): (v: seq<byte>)
    requires |value| == VALUE_SIZE
    ensures |v| == VALUE_SIZE
  {
    if pieces == [] then value
    else
      var front := pieces[..|pieces| - 1];
      Stored(StoredAll(value, front), pieces[|pieces| - 1], |Flatten(front)|)
  }

  function Kept(total: nat): nat {
    if total < VALUE_SIZE - 1 then total else VALUE_SIZE - 1
  }

  // The buffer is a C string with the beginning of `all`, as much as fits.
  ghost predicate HoldsPrefix(value: seq<byte>, all: seq<byte>)
    requires |value| == VALUE_SIZE
  {
    value[..Kept(|all|)] == all[..Kept(|all|)] && value[Kept(|all|)] == 0
  }

  lemma StoredPrefix(value: seq<byte>, all: seq<byte>, data: seq<byte>)
    requires |value| == VALUE_SIZE && (all == [] || HoldsPrefix(value, all))
    ensures HoldsPrefix(Stored(value, data, |all|), all + data)
  {
    var off := |all|;
    if off < VALUE_SIZE - 1 {
      var size := if |data| + off >= VALUE_SIZE then VALUE_SIZE - off - 1 else |data|;
      assert value[..off] == all;
      assert all + data[..size] == (all + data)[..off + size];
      assert Stored(value, data, off)[..off + size] == all + data[..size];
    } else {
      assert (all + data)[..VALUE_SIZE - 1] == all[..VALUE_SIZE - 1];
    }
  }

  // However a value is cut into pieces, the buffer holds its beginning and a NUL.
  lemma PiecesArrive(value: seq<byte>, pieces: seq<seq<byte>>)
    requires |value| == VALUE_SIZE && pieces != []
    ensures HoldsPrefix(StoredAll(value, pieces), Flatten(pieces))
    ensures var all, stored := Flatten(pieces), StoredAll(value, pieces);
      var n := if |all| < 63 then |all| else 63;
      stored[..n] == all[..n] && stored[n] == 0
  {
    assert HoldsPrefix(StoredAll(value, pieces), Flatten(pieces)) by { PiecesAreHeld(value, pieces); }
  }

  lemma {:induction false} PiecesAreHeld(value: seq<byte>, pieces: seq<seq<byte>>)
    requires |value| == VALUE_SIZE && pieces != []
    ensures HoldsPrefix(StoredAll(value, pieces), Flatten(pieces))
  {
    hide Stored, HoldsPrefix;
    var front := pieces[..|pieces| - 1];
    if front != [] {
      PiecesAreHeld(value, front);
    }
    StoredPrefix(StoredAll(value, front), Flatten(front), pieces[|pieces| - 1]);
  }

  // --- The list -----------------------------------------------------------------------------

  class Session {
    var next: Session?
    const sid: string
    var rc: int
    var start: int
    const value1: array<byte>
    const value2: array<byte>

    constructor (sid: string, start: int, next: Session?)
      ensures this.sid == sid && this.start == start && this.next == next && rc == 1
      ensures fresh(value1) && fresh(value2) && value1.Length == VALUE_SIZE == value2.Length && value1 != value2
    {
      this.sid, this.start, this.next, rc := sid, start, next, 1;
      value1 := new byte[VALUE_SIZE](_ => 0);
      value2 := new byte[VALUE_SIZE](_ => 0);
    }
  }

  // post_iterator, for the session of the request; other keys leave both values as they are.
  method PostIterator(session: Session, key: string, data: seq<byte>, off: nat)
    requires session.value1.Length == VALUE_SIZE == session.value2.Length && session.value1 != session.value2
    modifies session.value1, session.value2
    ensures session.value1[..] ==
            if key == "v1" then Stored(old(session.value1[..]), data, off) else old(session.value1[..])
    ensures session.value2[..] ==
            if key == "v2" then Stored(old(session.value2[..]), data, off) else old(session.value2[..])
  {
    if key == "v1" {
      StoreValue(session.value1, data, off);
    } else if key == "v2" {
      StoreValue(session.value2, data, off);
    }
  }

  method StoreValue(value: array<byte>, data: seq<byte>, off: nat)
    requires value.Length == VALUE_SIZE
    modifies value
    ensures value[..] == Stored(old(value[..]), data, off)
  {
    if off >= VALUE_SIZE - 1 {
      return; // extra data is discarded
    }
    var size := |data|;
    if size + off >= VALUE_SIZE {
      size := VALUE_SIZE - off - 1; // extra data is cropped
    }
    for i := 0 to size
      invariant forall k :: 0 <= k < VALUE_SIZE ==>
        value[k] == if off <= k < off + i then data[k - off] else old(value[k])
    {
      value[off + i] := data[i];
    }
    if size + off < VALUE_SIZE {
      value[size + off] := 0;
    }
  }

  // What follows place `i` of a list.
  function After(chain: seq<Session>, i: nat): Session? {
    if i + 1 < |chain| then chain[i + 1] else null
  }

  // The list from `head` on is `chain`.
  ghost predicate IsList(head: Session?, chain: seq<Session>)
    reads chain`next
  {
    && head == (if chain == [] then null else chain[0])
    && (forall i :: 0 <= i < |chain| ==> chain[i].next == After(chain, i))
  }

  lemma Prepended(s: Session, head: Session?, chain: seq<Session>)
    requires IsList(head, chain) && s.next == head
    ensures IsList(s, [s] + chain)
  {
    var longer := [s] + chain;
    forall i | 0 <= i < |longer|
      ensures longer[i].next == After(longer, i)
    {
      if i > 0 {
        assert longer[i] == chain[i - 1];
        assert After(longer, i) == After(chain, i - 1);
      } else {
        assert chain != [] ==> longer[1] == chain[0];
      }
    }
  }

  // `chain` without the members of `gone`, in order.
  ghost function Without(chain: seq<Session>, gone: set<Session>): (left: seq<Session>)
    ensures forall i :: 0 <= i < |left| ==> left[i] in chain && left[i] !in gone
  {
    if chain == [] then []
    else
      var front, last := chain[..|chain| - 1], chain[|chain| - 1];
      Without(front, gone) + (if last in gone then [] else [last])
  }

  lemma {:induction false} WithoutMembers(chain: seq<Session>, gone: set<Session>)
    requires Distinct(chain)
    ensures Distinct(Without(chain, gone)) && |Without(chain, gone)| <= |chain|
    ensures forall i :: 0 <= i < |chain| ==> (chain[i] in Without(chain, gone) <==> chain[i] !in gone)
  {
    if chain != [] {
      var front, last := chain[..|chain| - 1], chain[|chain| - 1];
      WithoutMembers(front, gone);
      assert chain == front + [last];
      forall i | 0 <= i < |front| ensures front[i] != last && front[i] == chain[i] {
      }
      assert last !in Without(front, gone);
    }
  }

  // A request that is being served.
  type Request = nat

  ghost function HoldersOf(holds: map<Request, Session>, s: Session): set<Request> {
    set r | r in holds && holds[r] == s
  }

  lemma HoldersGrow(holds: map<Request, Session>, r: Request, s: Session, t: Session)
    requires r !in holds
    ensures HoldersOf(holds[r := s], t) == HoldersOf(holds, t) + (if t == s then {r} else {})
    ensures |HoldersOf(holds[r := s], t)| == |HoldersOf(holds, t)| + (if t == s then 1 else 0)
  {
  }

  lemma HoldersShrink(holds: map<Request, Session>, r: Request, t: Session)
    requires r in holds
    ensures HoldersOf(holds - {r}, t) == HoldersOf(holds, t) - {r}
    ensures |HoldersOf(holds - {r}, t)| == |HoldersOf(holds, t)| - (if t == holds[r] then 1 else 0)
  {
    assert HoldersOf(holds - {r}, t) == HoldersOf(holds, t) - {r};
  }

  // No listed session has been freed, and one that a request holds is listed unless it has.
  ghost predicate Accounted(nodes: seq<Session>, holds: map<Request, Session>, freed: set<Session>) {
    && (forall i :: 0 <= i < |nodes| ==> nodes[i] !in freed)
    && (forall r :: r in holds ==> holds[r] in nodes || holds[r] in freed)
  }

  // A new session that only the new request `r` holds.
  lemma FirstHolder(holds: map<Request, Session>, nodes: seq<Session>, freed: set<Session>, r: Request, s: Session)
    requires r !in holds && s !in freed && s !in nodes && s.rc == 1 && Accounted(nodes, holds, freed)
    requires forall q :: q in holds ==> holds[q] != s
    requires forall i :: 0 <= i < |nodes| ==> nodes[i].rc == |HoldersOf(holds, nodes[i])|
    ensures var longer := [s] + nodes;
      && Accounted(longer, holds[r := s], freed)
      && forall i :: 0 <= i < |longer| ==> longer[i].rc == |HoldersOf(holds[r := s], longer[i])|
  {
    assert HoldersOf(holds, s) == {};
    hide HoldersOf;
    var longer := [s] + nodes;
    forall i | 0 <= i < |longer| ensures longer[i].rc == |HoldersOf(holds[r := s], longer[i])| {
      HoldersGrow(holds, r, s, longer[i]);
    }
  }

  class SessionStore {
    var sessions: Session?
    ghost var nodes: seq<Session>
    // which session each live request holds
    ghost var holds: map<Request, Session>
    // the sessions that were given to free()
    ghost var freed: set<Session>

    // The list is in order, and each listed session counts the requests that hold it.
    ghost predicate Valid()
      reads this, nodes
    {
      && Distinct(nodes) && IsList(sessions, nodes)
      && (forall i :: 0 <= i < |nodes| ==> nodes[i].rc == |HoldersOf(holds, nodes[i])|)
      && Accounted(nodes, holds, freed)
    }

    constructor ()
      ensures Valid() && nodes == [] && holds == map[] && freed == {}
    {
      sessions, nodes, holds, freed := null, [], map[], {};
    }

    ghost predicate Known(cookie: string)
      reads this
    {
      exists i :: 0 <= i < |nodes| && nodes[i].sid == cookie
    }

    // The first listed session with this id.
    method Find(cookie: string) returns (pos: Session?)
      requires Valid()
      ensures pos != null <==> Known(cookie)
      ensures pos != null ==> pos in nodes && pos.sid == cookie
    {
      pos := sessions;
      ghost var k := 0;
      while pos != null && pos.sid != cookie
        invariant k <= |nodes| && pos == if k < |nodes| then nodes[k] else null
        invariant forall i :: 0 <= i < k ==> nodes[i].sid != cookie
        decreases |nodes| - k
      {
        pos, k := pos.next, k + 1;
      }
    }

    // One more request for a listed session.
    method Hold(ghost r: Request, s: Session)
      requires Valid() && r !in holds && s in nodes
      modifies this`holds, s`rc
      ensures Valid() && holds == old(holds)[r := s]
    {
      hide HoldersOf, IsList, Distinct;
      ghost var before := holds;
      s.rc := s.rc + 1;
      holds := holds[r := s];
      LinksStay();
      forall i | 0 <= i < |nodes| ensures nodes[i].rc == |HoldersOf(holds, nodes[i])| {
        HoldersGrow(before, r, s, nodes[i]);
      }
    }

    twostate lemma LinksStay()
      requires old(IsList(sessions, nodes)) && sessions == old(sessions) && nodes == old(nodes)
      requires forall i :: 0 <= i < |nodes| ==> nodes[i].next == old(nodes[i].next)
      ensures IsList(sessions, nodes)
    {
    }

    // A session for a new user, with its first request.
    method Create(ghost r: Request, sid: string, now: int) returns (ret: Session)
      requires Valid() && r !in holds
      modifies this
      ensures Valid() && holds == old(holds)[r := ret]
      ensures fresh(ret) && nodes == [ret] + old(nodes) && ret.sid == sid && ret.start == now
      ensures freed == old(freed)
    {
      ghost var before, others := holds, nodes;
      ret := new Session(sid, now, sessions);
      Prepended(ret, ret.next, others);
      FirstHolder(before, others, freed, r, ret);
      hide HoldersOf, IsList, Accounted;
      sessions := ret;
      nodes := [ret] + others;
      holds := holds[r := ret];
    }

    // get_session for the new request `r`; `freshSid` is the random id for a new session.
    method GetSession(ghost r: Request, cookie: string, hasCookie: bool, freshSid: string, now: int)
      returns (ret: Session)
      requires Valid() && r !in holds
      modifies this, nodes
      ensures Valid() && holds == old(holds)[r := ret] && ret in nodes && freed == old(freed)
      ensures hasCookie && old(Known(cookie)) ==> nodes == old(nodes) && ret.sid == cookie
      ensures !(hasCookie && old(Known(cookie))) ==>
        fresh(ret) && nodes == [ret] + old(nodes) && ret.sid == freshSid && ret.start == now
    {
      if hasCookie {
        var pos := Find(cookie);
        if pos != null {
          ret := pos;
          Hold(r, ret);
          return;
        }
      }
      ret := Create(r, freshSid, now);
    }

    // request_completed_callback for the request `r` of the session `s`.  It writes to
    // freed memory if and only if the session is no longer listed.
    method RequestCompleted(ghost r: Request, s: Session) returns (ghost stale: bool)
      requires Valid() && r in holds && holds[r] == s
      modifies this`holds, s`rc
      ensures Valid() && nodes == old(nodes) && holds == old(holds) - {r}
      ensures s.rc == old(s.rc) - 1
      ensures stale == (s in freed) && (stale <==> s !in nodes)
    {
      stale := s in freed;
      ghost var before := holds;
      s.rc := s.rc - 1;
      holds := holds - {r};
      forall k | 0 <= k < |nodes| ensures nodes[k].rc == |HoldersOf(holds, nodes[k])| {
        HoldersShrink(before, r, nodes[k]);
      }
    }

    // Unlinks the session at place `i` of the list.
    method Unlink(prev: Session?, pos: Session, ghost chain: seq<Session>, ghost i: nat)
      requires Distinct(chain) && IsList(sessions, chain) && i < |chain| && chain[i] == pos
      requires prev == if i == 0 then null else chain[i - 1]
      modifies this`sessions, chain`next
      ensures IsList(sessions, chain[..i] + chain[i + 1..])
    {
      ghost var shorter := chain[..i] + chain[i + 1..];
      if prev == null {
        sessions := pos.next;
      } else {
        prev.next := pos.next;
      }
      forall k | 0 <= k < |shorter|
        ensures shorter[k].next == After(shorter, k)
      {
        if k < i {
          assert shorter[k] == chain[k];
          assert k + 1 != i ==> After(shorter, k) == After(chain, k);
          assert k + 1 == i ==> After(shorter, k) == After(chain, i);
        } else {
          assert shorter[k] == chain[k + 1];
          assert After(shorter, k) == After(chain, k + 1);
        }
      }
    }

    // The listed sessions that have been idle for more than an hour.
    ghost function Expired(now: int): set<Session>
      reads this, nodes
    {
      set s | s in nodes && now - s.start > LIFETIME
    }

    // The loop below has gone through the first `k` sessions of the old list `all`.
    ghost predicate Swept(prev: Session?, pos: Session?, all: seq<Session>, k: nat, gone: set<Session>)
      reads this, all
    {
      && k <= |all| && pos == (if k < |all| then all[k] else null)
      && var kept := Without(all[..k], gone);
         prev == (if kept == [] then null else kept[|kept| - 1]) && IsList(sessions, kept + all[k..])
    }

    lemma SweepFacts(prev: Session?, pos: Session, k: nat, gone: set<Session>, kept: seq<Session>,
                     chain: seq<Session>)
      requires Distinct(nodes) && k < |nodes| && Swept(prev, pos, nodes, k, gone) && pos in gone
      requires kept == Without(nodes[..k], gone) && chain == kept + nodes[k..]
      ensures Distinct(chain) && IsList(sessions, chain) && |kept| < |chain| && chain[|kept|] == pos
      ensures forall i :: 0 <= i < |chain| ==> chain[i] in nodes
      ensures prev == if |kept| == 0 then null else chain[|kept| - 1]
      ensures pos.next == if k + 1 < |nodes| then nodes[k + 1] else null
      ensures chain[..|kept|] + chain[|kept| + 1..] == kept + nodes[k + 1..]
      ensures Without(nodes[..k + 1], gone) == kept
    {
      hide IsList, Without, Distinct, After;
      MixedDistinct(nodes, k, gone);
      WithoutNext(nodes, k, gone);
      NextOf(sessions, chain, |kept|, nodes, k);
      StepOver(kept, nodes, k);
    }

    // A session that is too old is unlinked.
    method SweepOut(prev: Session?, pos: Session, ghost k: nat, ghost gone: set<Session>)
      requires Distinct(nodes) && k < |nodes| && Swept(prev, pos, nodes, k, gone) && pos in gone
      modifies this`sessions, nodes`next
      ensures Swept(prev, old(pos.next), nodes, k + 1, gone)
    {
      hide IsList, Without, Distinct;
      ghost var kept := Without(nodes[..k], gone);
      ghost var chain := kept + nodes[k..];
      SweepFacts(prev, pos, k, gone, kept, chain);
      Unlink(prev, pos, chain, |kept|);
    }

    lemma SweptPast(prev: Session?, pos: Session, k: nat, gone: set<Session>)
      requires Distinct(nodes) && k < |nodes| && Swept(prev, pos, nodes, k, gone) && pos !in gone
      ensures Swept(pos, pos.next, nodes, k + 1, gone)
    {
      hide IsList, Without, Distinct, After;
      var kept := Without(nodes[..k], gone);
      WithoutNext(nodes, k, gone);
      NextOf(sessions, kept + nodes[k..], |kept|, nodes, k);
      StepOver(kept, nodes, k);
    }

    // One round: the session is unlinked if it is too old.
    method Sweep(now: int, prev: Session?, pos: Session, ghost k: nat, ghost gone: set<Session>)
      returns (prev': Session?, next: Session?)
      requires Distinct(nodes) && k < |nodes| && Swept(prev, pos, nodes, k, gone)
      requires pos in gone <==> now - pos.start > LIFETIME
      modifies this`sessions, nodes`next
      ensures Swept(prev', next, nodes, k + 1, gone)
    {
      hide Swept, Distinct;
      next := pos.next;
      if now - pos.start > LIFETIME {
        SweepOut(prev, pos, k, gone);
        prev' := prev;
      } else {
        SweptPast(prev, pos, k, gone);
        prev' := pos;
      }
    }

    // expire_sessions: the sessions that are too old are unlinked one by one.
    method ExpireSessions(now: int)
      requires Valid()
      modifies this`sessions, this`nodes, this`freed, nodes`next
      ensures Valid() && nodes == Without(old(nodes), old(Expired(now)))
      ensures freed == old(freed) + old(Expired(now))
    {
      hide IsList, Without, Distinct, HoldersOf, Accounted;
      ghost var all, gone := nodes, Expired(now);
      SweepAll(now, gone);
      WithoutMembers(all, gone);
      KeptCounts(all, Without(all, gone), holds);
      StillAccounted(all, holds, freed, gone);
      nodes := Without(all, gone);
      freed := freed + gone;
    }

    // Whether a request holds it makes no difference to a session: a listed one stays if
    // and only if it has been idle for no more than an hour.
    lemma HeldSessionsExpire(r: Request, now: int)
      requires Valid() && r in holds
      ensures holds[r] in Without(nodes, Expired(now)) <==>
              holds[r] !in freed && now - holds[r].start <= 3600
    {
      hide IsList, Without, HoldersOf;
      WithoutMembers(nodes, Expired(now));
    }

    method SweepAll(now: int, ghost gone: set<Session>)
      requires Distinct(nodes) && IsList(sessions, nodes)
      requires forall i :: 0 <= i < |nodes| ==> (nodes[i] in gone <==> now - nodes[i].start > LIFETIME)
      modifies this`sessions, nodes`next
      ensures IsList(sessions, Without(nodes, gone))
    {
      var prev: Session? := null;
      var pos := sessions;
      ghost var k := 0;
      NothingSwept(nodes, gone);
      hide Without, IsList, Distinct;
      assert Swept(prev, pos, nodes, 0, gone) by { HeadOf(sessions, nodes); }
      while pos != null
        invariant k <= |nodes| && Swept(prev, pos, nodes, k, gone)
        decreases |nodes| - k
      {
        prev, pos := Sweep(now, prev, pos, k, gone);
        k := k + 1;
      }
      assert nodes[..k] == nodes && Without(nodes, gone) + nodes[k..] == Without(nodes, gone);
    }
  }

  lemma StillAccounted(nodes: seq<Session>, holds: map<Request, Session>, freed: set<Session>, gone: set<Session>)
    requires Distinct(nodes) && Accounted(nodes, holds, freed)
    ensures Accounted(Without(nodes, gone), holds, freed + gone)
  {
    hide Without, Distinct;
    WithoutMembers(nodes, gone);
  }

  // A request that is served for more than an hour: its session is freed meanwhile, and
  // the end of the request writes to it.
  method HeldTooLong(sid: string, now: int, later: int) returns (store: SessionStore, ghost stale: bool)
    ensures stale <==> later - now > 3600
    ensures store.Valid() && store.holds == map[]
  {
    hide Accounted, IsList, Distinct;
    store := new SessionStore();
    var s := store.GetSession(0, "", false, sid, now);
    store.HeldSessionsExpire(0, later);
    store.ExpireSessions(later);
    stale := store.RequestCompleted(0, s);
  }

  lemma HeadOf(head: Session?, chain: seq<Session>)
    requires IsList(head, chain)
    ensures head == if chain == [] then null else chain[0]
  {
  }

  lemma KeptCounts(all: seq<Session>, kept: seq<Session>, holds: map<Request, Session>)
    requires forall i :: 0 <= i < |all| ==> all[i].rc == |HoldersOf(holds, all[i])|
    requires forall i :: 0 <= i < |kept| ==> kept[i] in all
    ensures forall i :: 0 <= i < |kept| ==> kept[i].rc == |HoldersOf(holds, kept[i])|
  {
    hide HoldersOf;
  }

  lemma NothingSwept(all: seq<Session>, gone: set<Session>)
    ensures Without(all[..0], gone) == [] && [] + all[0..] == all
  {
  }

  lemma StepOver(kept: seq<Session>, all: seq<Session>, k: nat)
    requires k < |all|
    ensures (kept + [all[k]]) + all[k + 1..] == kept + all[k..]
    ensures var chain := kept + all[k..];
      chain[..|kept|] + chain[|kept| + 1..] == kept + all[k + 1..]
  {
    assert all[k..] == [all[k]] + all[k + 1..];
  }

  lemma WithoutNext(all: seq<Session>, k: nat, gone: set<Session>)
    requires k < |all|
    ensures Without(all[..k + 1], gone) ==
            if all[k] in gone then Without(all[..k], gone) else Without(all[..k], gone) + [all[k]]
  {
    assert all[..k + 1][..k] == all[..k];
  }

  // The session at place `i` of a list that goes on like `all` from place `k`.
  lemma NextOf(head: Session?, chain: seq<Session>, i: nat, all: seq<Session>, k: nat)
    requires IsList(head, chain) && k < |all| && |chain| - i == |all| - k && i < |chain| && chain[i..] == all[k..]
    ensures chain[i] == all[k] && all[k].next == if k + 1 < |all| then all[k + 1] else null
  {
    assert chain[i] == chain[i..][0] && all[k] == all[k..][0];
    assert i + 1 < |chain| ==> chain[i + 1] == chain[i..][1] && all[k + 1] == all[k..][1];
    assert After(chain, i) == if k + 1 < |all| then all[k + 1] else null;
  }

  lemma MixedDistinct(all: seq<Session>, k: nat, gone: set<Session>)
    requires Distinct(all) && k <= |all|
    ensures var chain := Without(all[..k], gone) + all[k..];
      Distinct(chain) && forall i :: 0 <= i < |chain| ==> chain[i] in all
  {
    WithoutMembers(all[..k], gone);
  }
}
