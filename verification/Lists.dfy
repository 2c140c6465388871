// Lists without repetition, from which single elements are unlinked.
module Lists {

  ghost predicate Distinct<T>(s: seq<T>) {
    forall i, j :: 0 <= i < j < |s| ==> s[i] != s[j]
  }

  function RemoveFirst<T(==)>(s: seq<T>, x: T): seq<T> {
    if s == [] then []
    else if s[0] == x then s[1..]
    else [s[0]] + RemoveFirst(s[1..], x)
  }

  lemma {:induction false} RemoveFirstKeeps<T>(s: seq<T>, x: T)
    requires Distinct(s)
    ensures Distinct(RemoveFirst(s, x))
    ensures forall i :: 0 <= i < |RemoveFirst(s, x)| ==> RemoveFirst(s, x)[i] in s && RemoveFirst(s, x)[i] != x
    ensures forall i :: 0 <= i < |s| && s[i] != x ==> s[i] in RemoveFirst(s, x)
  {
    if s != [] {
      assert s == [s[0]] + s[1..];
      assert s[0] !in s[1..];
      if s[0] != x {
        RemoveFirstKeeps(s[1..], x);
        OneInFront(s[0], s[1..], RemoveFirst(s[1..], x), x);
      }
    }
  }

  lemma OneInFront<T>(first: T, s: seq<T>, rest: seq<T>, x: T)
    requires Distinct(s) && first !in s && first != x && Distinct(rest)
    requires forall i :: 0 <= i < |rest| ==> rest[i] in s && rest[i] != x
    requires forall i :: 0 <= i < |s| && s[i] != x ==> s[i] in rest
    ensures var all, left := [first] + s, [first] + rest;
      && Distinct(left) && (forall i :: 0 <= i < |left| ==> left[i] in all && left[i] != x)
      && (forall i :: 0 <= i < |all| && all[i] != x ==> all[i] in left)
  {
  }

  lemma {:induction false} RemoveFirstAt<T>(s: seq<T>, x: T, i: nat)
    requires i < |s| && s[i] == x && x !in s[..i]
    ensures RemoveFirst(s, x) == s[..i] + s[i + 1..]
  {
    if i > 0 {
      assert s[0] in s[..i];
      assert s[1..][..i - 1] == s[..i][1..];
      RemoveFirstAt(s[1..], x, i - 1);
    }
  }

  lemma NotBefore<T>(s: seq<T>, i: nat)
    requires Distinct(s) && i < |s|
    ensures s[i] !in s[..i]
  {
  }

  lemma RemoveFirstMembers<T(!new)>(s: seq<T>, x: T)
    requires Distinct(s)
    ensures forall y :: y in RemoveFirst(s, x) <==> y in s && y != x
  {
    RemoveFirstKeeps(s, x);
  }
}
