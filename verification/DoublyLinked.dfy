// The doubly linked lists of the library: the macros DLL_insert and DLL_remove, which
// XDLL and EDLL repeat for two other pairs of links.
module DoublyLinked {
  import opened Lists

  // Which pair of links of a connection: next and prev, nextX and prevX, nextE and prevE.
  datatype Kind = Plain | X | E

  // One pair of links of the connection `id`.
  class Link {
    const id: nat
    const kind: Kind
    var next: Link?
    var prev: Link?

    constructor (id: nat, kind: Kind)
      ensures this.id == id && this.kind == kind && next == null && prev == null
    {
      this.id, this.kind, next, prev := id, kind, null, null;
    }
  }

  // The numbers of the linked connections.
  ghost function IdsOf(nodes: seq<Link>): (s: seq<nat>)
    ensures |s| == |nodes|
  {
    seq(|nodes|, i requires 0 <= i < |nodes| => nodes[i].id)
  }

  // The links belong to different connections and are of one kind.
  ghost predicate Proper(nodes: seq<Link>, kind: Kind) {
    (forall n :: n in nodes ==> n.kind == kind) && Distinct(IdsOf(nodes))
  }

  // Neighbours point to each other, and the ends to nothing.
  ghost predicate Chained(nodes: seq<Link>)
    reads nodes
  {
    && (forall i, j :: 0 <= i < |nodes| && j == i + 1 && j < |nodes| ==>
          nodes[i].next == nodes[j] && nodes[j].prev == nodes[i])
    && (nodes != [] ==> nodes[0].prev == null && nodes[|nodes| - 1].next == null)
  }

  // A list is given by its head and its tail; `nodes` are the links from head to tail.
  class DList {
    const kind: Kind
    var head: Link?
    var tail: Link?
    ghost var nodes: seq<Link>

    ghost predicate Valid()
      reads this, nodes
    {
      && Proper(nodes, kind) && Chained(nodes)
      && head == (if nodes == [] then null else nodes[0])
      && tail == (if nodes == [] then null else nodes[|nodes| - 1])
    }

    ghost function Ids(): seq<nat>
      reads this
    {
      IdsOf(nodes)
    }

    constructor (kind: Kind)
      ensures this.kind == kind && head == null && tail == null && nodes == []
    {
      this.kind, head, tail, nodes := kind, null, null, [];
    }

    // DLL_insert; it asserts that the links of the element lead nowhere.
    method Insert(element: Link)
      requires Valid() && element.id !in Ids() && element.kind == kind
      requires element.next == null && element.prev == null
      modifies this, element, nodes
      ensures Valid() && Ids() == [element.id] + old(Ids()) && nodes == [element] + old(nodes)
    {
      ProperInsert(nodes, kind, element);
      hide Proper, IdsOf;
      ghost var was := nodes;
      assert element !in nodes;
      element.next := head;
      element.prev := null;
      if tail == null {
        tail := element;
      } else {
        head.prev := element;
      }
      head := element;
      nodes := [element] + nodes;
      forall i, j | 0 <= i < |nodes| && j == i + 1 && j < |nodes|
        ensures nodes[i].next == nodes[j] && nodes[j].prev == nodes[i]
      {
        assert nodes[j] == was[j - 1] && (i > 0 ==> nodes[i] == was[i - 1]);
      }
    }

    // The neighbours of an element, or the ends of the list, lead past it, and it leads
    // nowhere.
    method Bypass(element: Link, ghost at: nat)
      requires Valid() && Distinct(nodes) && at < |nodes| && nodes[at] == element
      modifies this`head, this`tail, nodes
      ensures head == (if at == 0 then At(nodes, 1) else old(head))
      ensures tail == (if at == |nodes| - 1 then At(nodes, at - 1) else old(tail))
      ensures Bypassed(nodes, at) && element.next == null && element.prev == null
    {
      hide Proper;
      assert at == 0 || (element.prev == nodes[at - 1] && nodes[at - 1].next == nodes[at]);
      assert at == |nodes| - 1 || (element.next == nodes[at + 1] && nodes[at + 1].prev == nodes[at]);
      // what the macro asserts
      assert (element.next != null || element == tail) && (element.prev != null || element == head);
      if element.prev == null {
        head := element.next;
      } else {
        element.prev.next := element.next;
      }
      if element.next == null {
        tail := element.prev;
      } else {
        element.next.prev := element.prev;
      }
      element.next := null;
      element.prev := null;
    }

    // DLL_remove
    method Remove(element: Link)
      requires Valid() && element in nodes
      modifies this, nodes
      ensures Valid() && Ids() == RemoveFirst(old(Ids()), element.id)
      ensures nodes == RemoveFirst(old(nodes), element) && Distinct(old(nodes))
      ensures forall n :: n in nodes ==> n in old(nodes)
      ensures element.next == null && element.prev == null
    {
      hide Proper, IdsOf, RemoveFirst, Chained, Bypassed, Distinct, Without;
      ghost var was := nodes;
      ghost var at := PlaceOf(was, element);
      ProperRemove(was, kind, at);
      EndsWithout(was, at);
      Bypass(element, at);
      nodes := Without(was, at);
      Rechained(was, at);
    }
  }

  // All links but the one at `at` lead to their neighbours without it.
  ghost predicate Bypassed(nodes: seq<Link>, at: nat)
    reads nodes
  {
    var last := |nodes| - 1;
    && (forall i, j :: 0 <= i < |nodes| && j == i + 1 && j < |nodes| && i != at && j != at ==>
          nodes[i].next == nodes[j] && nodes[j].prev == nodes[i])
    && (0 < at < last ==> nodes[at - 1].next == nodes[at + 1] && nodes[at + 1].prev == nodes[at - 1])
    && (last > 0 ==> nodes[if at == 0 then 1 else 0].prev == null)
    && (last > 0 ==> nodes[if at == last then last - 1 else last].next == null)
  }

  lemma EndsWithout(was: seq<Link>, at: nat)
    requires at < |was|
    ensures var nodes, last := Without(was, at), |was| - 1;
      && |nodes| == last
      && (last > 0 ==> nodes[0] == was[if at == 0 then 1 else 0])
      && (last > 0 ==> nodes[last - 1] == was[if at == last then last - 1 else last])
  {
  }

  lemma PlaceOf(nodes: seq<Link>, element: Link) returns (at: nat)
    requires element in nodes
    ensures at < |nodes| && nodes[at] == element
  {
    at :| at < |nodes| && nodes[at] == element;
  }

  lemma Rechained(was: seq<Link>, at: nat)
    requires at < |was| && Bypassed(was, at)
    ensures Chained(Without(was, at))
  {
    var nodes := Without(was, at);
    forall i, j | 0 <= i < |nodes| && j == i + 1 && j < |nodes|
      ensures nodes[i].next == nodes[j] && nodes[j].prev == nodes[i]
    {
      assert nodes[i] == (if i < at then was[i] else was[j]);
      assert nodes[j] == (if j < at then was[j] else was[j + 1]);
    }
  }

  ghost function At(nodes: seq<Link>, i: int): Link? {
    if 0 <= i < |nodes| then nodes[i] else null
  }

  ghost function Without(nodes: seq<Link>, at: nat): seq<Link>
    requires at < |nodes|
  {
    nodes[..at] + nodes[at + 1..]
  }

  lemma ProperRemove(nodes: seq<Link>, kind: Kind, at: nat)
    requires Proper(nodes, kind) && at < |nodes|
    ensures var rest := Without(nodes, at);
      && Proper(rest, kind) && IdsOf(rest) == RemoveFirst(IdsOf(nodes), nodes[at].id)
      && (forall n :: n in rest ==> n in nodes && n != nodes[at]) && Distinct(nodes)
      && rest == RemoveFirst(nodes, nodes[at])
  {
    DistinctIds(nodes);
    IdsWithout(nodes, at);
    NotBefore(IdsOf(nodes), at);
    NotBefore(nodes, at);
    hide Distinct;
    RemoveFirstAt(nodes, nodes[at], at);
    RemoveFirstAt(IdsOf(nodes), nodes[at].id, at);
    RemoveFirstKeeps(IdsOf(nodes), nodes[at].id);
    assert IdsOf(nodes)[at] == nodes[at].id;
  }

  lemma ProperInsert(nodes: seq<Link>, kind: Kind, element: Link)
    requires Proper(nodes, kind) && element.id !in IdsOf(nodes) && element.kind == kind
    ensures Proper([element] + nodes, kind) && IdsOf([element] + nodes) == [element.id] + IdsOf(nodes)
    ensures element !in nodes && Distinct(nodes)
  {
    assert IdsOf([element] + nodes) == [element.id] + IdsOf(nodes);
    forall i | 0 <= i < |nodes| ensures nodes[i] != element && nodes[i].id == IdsOf(nodes)[i] {
      assert IdsOf(nodes)[i] in IdsOf(nodes);
    }
  }

  lemma DistinctIds(nodes: seq<Link>)
    requires Distinct(IdsOf(nodes))
    ensures Distinct(nodes)
  {
    forall i, j | 0 <= i < j < |nodes| ensures nodes[i] != nodes[j] {
      assert IdsOf(nodes)[i] != IdsOf(nodes)[j];
    }
  }

  lemma IdsWithout(nodes: seq<Link>, at: nat)
    requires at < |nodes| && Distinct(nodes)
    ensures IdsOf(Without(nodes, at)) == IdsOf(nodes)[..at] + IdsOf(nodes)[at + 1..]
    ensures forall n :: n in Without(nodes, at) ==> n in nodes && n != nodes[at]
  {
  }

  // --- Several lists over the same pair of links ------------------------------------------

  // Every connection in the table has its pair of links of this kind.
  ghost predicate Pairs(table: map<nat, Link>, kind: Kind) {
    && (forall c :: c in table ==> table[c].id == c && table[c].kind == kind)
    && (forall n :: n in table.Values ==> n.kind == kind)
  }

  // The list is made of links of the table.
  ghost predicate Made(list: DList, table: map<nat, Link>)
    reads list
  {
    forall n :: n in list.nodes ==> n in table.Values && n.id in table && n == table[n.id]
  }

  ghost predicate Apart(l: DList, m: DList)
    reads l, m
  {
    forall n :: n in l.nodes ==> n !in m.nodes
  }

  // A pair of links that is on no list leads nowhere.
  ghost predicate Loose(lists: set<DList>, table: map<nat, Link>)
    reads lists, table.Values
  {
    forall n :: n in table.Values && !OnSome(lists, n) ==> n.next == null && n.prev == null
  }

  ghost predicate OnSome(lists: set<DList>, n: Link)
    reads lists
  {
    exists l :: l in lists && n in l.nodes
  }

  // The lists share no link.
  ghost predicate Family(lists: set<DList>, table: map<nat, Link>, kind: Kind)
    reads lists, table.Values
  {
    && Loose(lists, table)
    && Pairs(table, kind)
    && (forall l :: l in lists ==> l.kind == kind && Made(l, table) && l.Valid())
    && (forall l, m :: l in lists && m in lists && l != m ==> Apart(l, m))
  }

  lemma IdsAreMade(list: DList, table: map<nat, Link>, c: nat)
    requires Made(list, table) && c in table
    requires Pairs(table, list.kind)
    ensures c in list.Ids() <==> table[c] in list.nodes
  {
    if c in list.Ids() {
      var i :| 0 <= i < |list.nodes| && list.Ids()[i] == c;
      assert list.nodes[i] == table[c];
    }
    if table[c] in list.nodes {
      var i :| 0 <= i < |list.nodes| && list.nodes[i] == table[c];
      assert list.Ids()[i] == c;
    }
  }

  // A list none of whose links has changed.
  twostate lemma Untouched(l: DList)
    requires old(l.Valid()) && unchanged(l)
    requires forall n :: n in l.nodes ==> n.next == old(n.next) && n.prev == old(n.prev)
    ensures l.Valid()
  {
    hide IdsOf, Proper;
    assert old(Chained(l.nodes));
  }

  lemma NowhereMade(lists: set<DList>, table: map<nat, Link>, kind: Kind, c: nat)
    requires Family(lists, table, kind) && c in table && forall l :: l in lists ==> c !in l.Ids()
    ensures forall l :: l in lists ==> table[c] !in l.nodes
  {
    forall l | l in lists ensures table[c] !in l.nodes {
      IdsAreMade(l, table, c);
    }
  }

  // The macro for insertion, on one list of a family.
  method InsertInto(list: DList, c: nat, ghost lists: set<DList>, table: map<nat, Link>, kind: Kind)
    requires Family(lists, table, kind) && list in lists && c in table
    requires forall l :: l in lists ==> c !in l.Ids()
    modifies list, table.Values
    ensures Family(lists, table, kind) && list.Ids() == [c] + old(list.Ids())
    ensures forall l :: l in lists && l != list ==> unchanged(l) && l.Ids() == old(l.Ids())
  {
    hide IdsOf, Proper, Chained, Loose;
    NowhereMade(lists, table, kind, c);
    InsertLoose(list, c, lists, table, kind);
    forall l | l in lists && l != list ensures Made(l, table) && l.Valid() {
      assert old(Apart(l, list));
      Untouched(l);
    }
    assert Made(list, table);
    hide DList.Valid, Made;
    forall l, m | l in lists && m in lists && l != m ensures Apart(l, m) {
      assert old(Apart(l, m));
    }
  }

  // The same, with one of the lists on its own.
  ghost predicate LooseBut(others: set<DList>, nodes: seq<Link>, table: map<nat, Link>)
    reads others, table.Values
  {
    forall n :: n in table.Values && !OnSome(others, n) && n !in nodes ==> n.next == null && n.prev == null
  }

  lemma OneOnItsOwn(lists: set<DList>, list: DList, table: map<nat, Link>)
    requires list in lists
    ensures Loose(lists, table) <==> LooseBut(lists - {list}, list.nodes, table)
  {
    forall n | n in table.Values
      ensures OnSome(lists, n) <==> OnSome(lists - {list}, n) || n in list.nodes
    {
      if l :| l in lists && n in l.nodes {
        assert l == list || l in lists - {list};
      }
    }
  }

  // Its assertion holds, because the connection is on no list; all others that are on none
  // stay as they are.
  method InsertLoose(list: DList, c: nat, ghost lists: set<DList>, table: map<nat, Link>, kind: Kind)
    requires Family(lists, table, kind) && list in lists && c in table && c !in list.Ids()
    requires forall l :: l in lists ==> table[c] !in l.nodes
    modifies list, table.Values
    ensures Loose(lists, table) && list.Valid() && list.Ids() == [c] + old(list.Ids())
    ensures list.nodes == [table[c]] + old(list.nodes)
    ensures forall l :: l in lists && l != list ==> unchanged(l)
    ensures forall n :: n in table.Values && n != table[c] && n !in old(list.nodes) ==>
              n.next == old(n.next) && n.prev == old(n.prev)
  {
    assert table[c].id == c && table[c] in table.Values && !OnSome(lists, table[c]);
    assert forall n :: n in list.nodes ==> n in table.Values;
    hide IdsOf, Proper, Chained, Apart, Made, Pairs, DList.Ids, DList.Valid, OnSome, LooseBut;
    OneOnItsOwn(lists, list, table);
    assert table[c].next == null && table[c].prev == null;
    hide Loose;
    InsertOnItsOwn(list, table[c], lists - {list}, table);
    OneOnItsOwn(lists, list, table);
  }

  method InsertOnItsOwn(list: DList, link: Link, ghost others: set<DList>, ghost table: map<nat, Link>)
    requires list.Valid() && link.id !in list.Ids() && link.kind == list.kind && list !in others
    requires link.next == null && link.prev == null && LooseBut(others, list.nodes, table)
    modifies list, link, list.nodes
    ensures list.Valid() && list.Ids() == [link.id] + old(list.Ids()) && list.nodes == [link] + old(list.nodes)
    ensures LooseBut(others, list.nodes, table)
  {
    hide DList.Ids, DList.Valid, OnSome;
    list.Insert(link);
    assert link in list.nodes;
  }

  // The macro for removal.
  method RemoveFrom(list: DList, c: nat, ghost lists: set<DList>, table: map<nat, Link>, kind: Kind)
    requires Family(lists, table, kind) && list in lists && c in table && c in list.Ids()
    modifies list, table.Values
    ensures Family(lists, table, kind) && list.Ids() == RemoveFirst(old(list.Ids()), c)
    ensures forall l :: l in lists && l != list ==> unchanged(l) && l.Ids() == old(l.Ids())
  {
    hide IdsOf, Proper, Chained, RemoveFirst, DList.Valid;
    RemoveLink(list, c, lists, table, kind);
    forall l, m | l in lists && m in lists && l != m ensures Apart(l, m) {
      assert old(Apart(l, m));
    }
  }

  // The links of the removed connection lead nowhere afterwards.
  method RemoveLoose(list: DList, c: nat, ghost lists: set<DList>, table: map<nat, Link>, kind: Kind)
    requires Family(lists, table, kind) && list in lists && c in table && c in list.Ids()
    modifies list, table.Values
    ensures Loose(lists, table) && list.Valid() && list.Ids() == RemoveFirst(old(list.Ids()), c)
    ensures forall n :: n in list.nodes ==> n in old(list.nodes)
    ensures forall l :: l in lists && l != list ==> unchanged(l)
    ensures forall n :: n in table.Values && n !in old(list.nodes) ==> n.next == old(n.next) && n.prev == old(n.prev)
  {
    hide IdsOf, Proper, Chained, RemoveFirst, Distinct, Apart, DList.Ids, DList.Valid, OnSome, Loose, LooseBut;
    IdsAreMade(list, table, c);
    assert table[c].id == c && forall n :: n in list.nodes ==> n in table.Values;
    hide Made, Pairs, Family;
    OneOnItsOwn(lists, list, table);
    RemoveOnItsOwn(list, table[c], lists - {list}, table);
    OneOnItsOwn(lists, list, table);
  }

  method RemoveOnItsOwn(list: DList, link: Link, ghost others: set<DList>, ghost table: map<nat, Link>)
    requires list.Valid() && link in list.nodes && list !in others
    requires LooseBut(others, list.nodes, table)
    modifies list, list.nodes
    ensures list.Valid() && list.Ids() == RemoveFirst(old(list.Ids()), link.id)
    ensures forall n :: n in list.nodes ==> n in old(list.nodes)
    ensures LooseBut(others, list.nodes, table)
  {
    hide RemoveFirst, Distinct, DList.Ids, DList.Valid, OnSome;
    ghost var was := list.nodes;
    list.Remove(link);
    forall n | n in table.Values && !OnSome(others, n) && n !in list.nodes
      ensures n.next == null && n.prev == null
    {
      if n in was {
        OnlyOneRemoved(was, link, n);
      }
    }
  }

  lemma OnlyOneRemoved(nodes: seq<Link>, link: Link, n: Link)
    requires Distinct(nodes) && n in nodes && n !in RemoveFirst(nodes, link)
    ensures n == link
  {
    RemoveFirstKeeps(nodes, link);
  }

  method RemoveLink(list: DList, c: nat, ghost lists: set<DList>, table: map<nat, Link>, kind: Kind)
    requires Family(lists, table, kind) && list in lists && c in table && c in list.Ids()
    modifies list, table.Values
    ensures list.Ids() == RemoveFirst(old(list.Ids()), c)
    ensures forall l :: l in lists ==> Made(l, table) && l.Valid()
    ensures forall n :: n in list.nodes ==> n in old(list.nodes)
    ensures Loose(lists, table)
    ensures forall l :: l in lists && l != list ==> unchanged(l) && l.Ids() == old(l.Ids())
  {
    hide IdsOf, Proper, Chained, RemoveFirst, Distinct, Loose;
    RemoveLoose(list, c, lists, table, kind);
    forall l | l in lists && l != list ensures Made(l, table) && l.Valid() {
      assert old(Apart(l, list) && Made(l, table));
      forall n | n in l.nodes ensures n.next == old(n.next) && n.prev == old(n.prev) {
        assert n !in old(list.nodes);
      }
      hide DList.Valid, Apart;
      Untouched(l);
    }
  }

  // Lists without links.
  lemma EmptyFamily(lists: set<DList>, kind: Kind)
    requires forall l :: l in lists ==> l.kind == kind && l.head == null && l.tail == null && l.nodes == []
    ensures Family(lists, map[], kind) && forall l :: l in lists ==> l.Ids() == []
  {
  }

  // A connection gets its pair of links, or loses it when it is on no list.
  lemma TableGrows(lists: set<DList>, table: map<nat, Link>, kind: Kind, c: nat, link: Link)
    requires Family(lists, table, kind) && c !in table && link.id == c && link.kind == kind
    requires link.next == null && link.prev == null
    ensures Family(lists, table[c := link], kind)
  {
    hide IdsOf, Proper, Chained;
    var grown := table[c := link];
    forall n | n in grown.Values ensures n.kind == kind {
      assert n == link || n in table.Values;
    }
    forall l | l in lists ensures Made(l, grown) {
      forall n | n in l.nodes ensures n in grown.Values && n.id in grown && n == grown[n.id] {
        assert n in table.Values && n.id in table && n == table[n.id];
        assert grown[n.id] in grown.Values;
      }
    }
  }

  lemma TableShrinks(lists: set<DList>, table: map<nat, Link>, kind: Kind, c: nat)
    requires Family(lists, table, kind) && c in table && forall l :: l in lists ==> c !in l.Ids()
    ensures Family(lists, table - {c}, kind)
  {
    NowhereMade(lists, table, kind, c);
    hide IdsOf, Proper, Chained;
    var shrunk := table - {c};
    forall n | n in shrunk.Values ensures n.kind == kind {
      assert n in table.Values;
    }
    forall l | l in lists ensures Made(l, shrunk) {
      forall n | n in l.nodes ensures n in shrunk.Values && n.id in shrunk && n == shrunk[n.id] {
        assert n in table.Values && n.id in table && n == table[n.id];
        assert n.id != c;
        assert shrunk[n.id] in shrunk.Values;
      }
    }
  }
}
