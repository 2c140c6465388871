// How the chat server takes a received message apart.  A message has the form
// "command|id|payload"; the separators are overwritten with NUL in the buffer, and
// the fields are then read as C strings.
module ChatCommand {
  import opened Bytes
  import opened Options

  const BAR: byte := '|' as int
  const NUL: byte := 0
  const SIZE := 0x1_0000_0000_0000_0000

  const REGULAR := 0
  const PRIVATE := 1
  const RENAME := 2
  const PING := 3
  const INVALID := 1000

  // --- Strings ---------------------------------------------------------------------------

  // Everything before the first NUL.
  function CString(s: seq<byte>): (t: seq<byte>)
    ensures t <= s && NUL !in t && (|t| < |s| ==> s[|t|] == NUL)
  {
    if s == [] || s[0] == NUL then []
    else
      assert s == [s[0]] + s[1..];
      [s[0]] + CString(s[1..])
  }

  lemma {:induction false} CStringIsUnique(s: seq<byte>, n: nat)
    requires n <= |s| && NUL !in s[..n] && (n < |s| ==> s[n] == NUL)
    ensures CString(s) == s[..n]
    decreases n
  {
    if n > 0 {
      assert s[0] == s[..n][0];
      assert s[1..][..n - 1] == s[..n][1..];
      CStringIsUnique(s[1..], n - 1);
    }
  }

  function Lower(c: byte): byte {
    if 'A' as int <= c <= 'Z' as int then c + 32 else c
  }

  // strcasecmp (a, b) == 0
  predicate SameIgnoringCase(a: seq<byte>, b: seq<byte>) {
    |a| == |b| && forall i :: 0 <= i < |a| ==> Lower(a[i]) == Lower(b[i])
  }

  function CommandOf(name: seq<byte>): nat {
    if SameIgnoringCase(name, Ascii("private")) then PRIVATE
    else if SameIgnoringCase(name, Ascii("name")) then RENAME
    else if SameIgnoringCase(name, Ascii("ping")) then PING
    else INVALID
  }

  // --- Numbers -----------------------------------------------------------------------------

  predicate IsDigit(c: byte) {
    '0' as int <= c <= '9' as int
  }

  predicate IsSpace(c: byte) {
    c == 32 || 9 <= c <= 13
  }

  function ValueOf(c: byte): nat
    requires IsDigit(c)
  {
    c - '0' as int
  }

  // The digits at the beginning of `s`, read after the value `before`.
  function Digits(s: seq<byte>, before: nat): nat {
    if s == [] || !IsDigit(s[0]) then before else Digits(s[1..], 10 * before + ValueOf(s[0]))
  }

  // The number that atoi reads, if it is an int
  function Atoi(s: seq<byte>): int {
    if s == [] then 0
    else if IsSpace(s[0]) then Atoi(s[1..])
    else if s[0] == '-' as int then -(Digits(s[1..], 0) as int)
    else if s[0] == '+' as int then Digits(s[1..], 0)
    else Digits(s, 0)
  }

  // atoi, converted to size_t; its result is undefined for a number that is not an int.
  function UserId(s: seq<byte>): Option<nat> {
    if -0x8000_0000 <= Atoi(s) < 0x8000_0000 then Some(Atoi(s) % SIZE) else None
  }

  function Decimal(n: nat): (s: seq<byte>)
    ensures s != [] && forall i :: 0 <= i < |s| ==> IsDigit(s[i])
  {
    var last: byte := '0' as int + n % 10;
    if n < 10 then [last] else Decimal(n / 10) + [last]
  }

  lemma {:induction false} DigitsAppend(s: seq<byte>, c: byte, before: nat)
    requires IsDigit(c) && forall i :: 0 <= i < |s| ==> IsDigit(s[i])
    ensures Digits(s + [c], before) == 10 * Digits(s, before) + ValueOf(c)
    decreases |s|
  {
    if s != [] {
      assert (s + [c])[1..] == s[1..] + [c];
      DigitsAppend(s[1..], c, 10 * before + ValueOf(s[0]));
    } else {
      assert (s + [c])[1..] == [];
    }
  }

  lemma {:induction false} DigitsOfDecimal(n: nat)
    ensures Digits(Decimal(n), 0) == n
  {
    var last: byte := '0' as int + n % 10;
    if n < 10 {
      assert [last][1..] == [];
    } else {
      DigitsOfDecimal(n / 10);
      DigitsAppend(Decimal(n / 10), last, 0);
    }
  }

  // Reading a decimal number gives the number, if and only if it fits an int.
  lemma UserIdOfDecimal(n: nat)
    ensures UserId(Decimal(n)) == if n < 0x8000_0000 then Some(n) else None
  {
    DigitsOfDecimal(n);
    assert IsDigit(Decimal(n)[0]);
  }

  // Signs, spaces and what follows the number, as atoi treats them; a negative number is
  // converted to size_t modulo 2^64.
  lemma UserIdOfOther(n: nat, s: seq<byte>, c: byte)
    ensures UserId([43] + Decimal(n)) == if n < 0x8000_0000 then Some(n) else None
    ensures UserId([45] + Decimal(n)) ==
            if n == 0 then Some(0) else if n <= 0x8000_0000 then Some(0x1_0000_0000_0000_0000 - n) else None
    ensures c == 32 || 9 <= c <= 13 ==> UserId([c] + s) == UserId(s)
    ensures c != 32 && !(9 <= c <= 13) && !(48 <= c <= 57) && c != 43 && c != 45 ==> UserId([c] + s) == Some(0)
  {
    DigitsOfDecimal(n);
    hide Decimal, Digits;
    Signed(Decimal(n), 43);
    Signed(Decimal(n), 45);
    assert ([c] + s)[1..] == s;
    if !IsDigit(c) {
      NoDigits([c] + s);
    }
  }

  lemma Signed(s: seq<byte>, sign: byte)
    requires sign == 43 || sign == 45
    ensures Atoi([sign] + s) == (if sign == 43 then 1 else -1) * Digits(s, 0)
  {
    assert ([sign] + s)[1..] == s;
  }

  lemma NoDigits(s: seq<byte>)
    requires s != [] && !IsDigit(s[0])
    ensures Digits(s, 0) == 0
  {
  }

  // What follows the digits does not matter.
  lemma {:induction false} DigitsEnd(s: seq<byte>, more: seq<byte>, before: nat)
    requires more == [] || !IsDigit(more[0])
    requires forall i :: 0 <= i < |s| ==> IsDigit(s[i])
    ensures Digits(s + more, before) == Digits(s, before)
    decreases |s|
  {
    if s == [] {
      assert s + more == more;
    } else {
      assert (s + more)[1..] == s[1..] + more;
      DigitsEnd(s[1..], more, 10 * before + ValueOf(s[0]));
    }
  }

  lemma UserIdThenMore(n: nat, more: seq<byte>)
    requires more == [] || !(48 <= more[0] <= 57)
    ensures UserId(Decimal(n) + more) == if n < 0x8000_0000 then Some(n) else None
  {
    var s := Decimal(n) + more;
    assert s[0] == Decimal(n)[0] && IsDigit(s[0]);
    hide Decimal, Digits, Atoi;
    DigitsEnd(Decimal(n), more, 0);
    DigitsOfDecimal(n);
    DigitFirst(s);
  }

  lemma DigitFirst(s: seq<byte>)
    requires s != [] && IsDigit(s[0])
    ensures Atoi(s) == Digits(s, 0)
  {
    hide Digits;
  }

  // --- The parser --------------------------------------------------------------------------

  // The first separator at or after `from`, or the end.
  function Bar(s: seq<byte>, from: nat): (k: nat)
    requires from <= |s|
    ensures from <= k <= |s| && (k < |s| ==> s[k] == BAR)
    ensures forall i :: from <= i < k ==> s[i] != BAR
    decreases |s| - from
  {
    if from == |s| || s[from] == BAR then from else Bar(s, from + 1)
  }

  function Past(s: seq<byte>, k: nat): nat {
    if k < |s| then k + 1 else k
  }

  // The id is None if it is undefined.
  datatype Command = Command(command: nat, id: Option<nat>, payload: seq<byte>)

  // What the server reads out of the message `s`.
  function Parsed(s: seq<byte>): Command {
    var bar := Bar(s, 0);
    var i := Past(s, bar);
    var command := if i == 0 then INVALID else if i == 1 then REGULAR else CommandOf(CString(s[..bar]));
    var bar2 := Bar(s, i);
    var j := Past(s, bar2);
    var id := if i + 1 < j then UserId(CString(s[i..bar2])) else Some(0);
    Command(command, id, s[j..])
  }

  // The buffer ends with a NUL behind the message.
  ghost predicate Terminated(frame: array<byte>, n: nat)
    reads frame
  {
    n < frame.Length && frame[n] == NUL
  }

  // The C string that starts at `at`.
  method ReadString(frame: array<byte>, n: nat, at: nat) returns (s: seq<byte>)
    requires Terminated(frame, n) && at <= n
    ensures s == CString(frame[at..n])
  {
    var k := at;
    while frame[k] != NUL
      invariant at <= k <= n && NUL !in frame[at..k]
      decreases n - k
    {
      assert frame[at..k + 1] == frame[at..k] + [frame[k]];
      k := k + 1;
    }
    s := frame[at..k];
    assert frame[at..n][..k - at] == s;
    CStringIsUnique(frame[at..n], k - at);
  }

  // The message with its first separator at or after `from` overwritten.
  function Cut(s: seq<byte>, from: nat): (t: seq<byte>)
    requires from <= |s|
    ensures |t| == |s|
  {
    if Bar(s, from) < |s| then s[Bar(s, from) := NUL] else s
  }

  // Overwrites the first separator at or after `from` and goes past it.
  method CutField(frame: array<byte>, n: nat, from: nat) returns (next: nat)
    requires Terminated(frame, n) && from <= n
    modifies frame
    ensures Terminated(frame, n) && frame[..n] == Cut(old(frame[..n]), from)
    ensures next == Past(old(frame[..n]), Bar(old(frame[..n]), from))
  {
    ghost var s := frame[..n];
    next := from;
    while next < n
      invariant from <= next <= n && frame[..] == old(frame[..]) && Bar(s, from) == Bar(s, next)
    {
      if frame[next] == BAR {
        frame[next] := NUL;
        next := next + 1;
        break;
      }
      next := next + 1;
    }
  }

  // The parser as the receiver thread runs it: each field is read after its
  // separator has been overwritten, the payload last.
  method Parse(frame: array<byte>, n: nat) returns (command: nat, id: Option<nat>, payload: nat)
    requires Terminated(frame, n)
    modifies frame
    ensures payload <= n && Command(command, id, frame[payload..n]) == Parsed(old(frame[..n]))
  {
    hide Bar, CString, CommandOf, UserId, Cut;
    ghost var s := frame[..n];
    FirstField(s);
    SecondField(s, Past(s, Bar(s, 0)));
    command := INVALID;
    var i := CutField(frame, n, 0);
    if 0 < i {
      if i == 1 {
        command := REGULAR;
      } else {
        var name := ReadString(frame, n, 0);
        assert frame[0..n] == frame[..n];
        command := CommandOf(name);
      }
    }
    id := Some(0);
    payload := CutField(frame, n, i);
    if i + 1 < payload {
      var text := ReadString(frame, n, i);
      assert frame[i..n] == frame[..n][i..];
      id := UserId(text);
    }
    assert frame[payload..n] == frame[..n][payload..];
  }

  lemma FirstField(s: seq<byte>)
    ensures CString(Cut(s, 0)) == CString(s[..Bar(s, 0)])
  {
    FieldEnds(s, Cut(s, 0), 0, Bar(s, 0));
    assert Cut(s, 0)[0..] == Cut(s, 0) && s[0..Bar(s, 0)] == s[..Bar(s, 0)];
  }

  lemma SecondField(s: seq<byte>, i: nat)
    requires i == Past(s, Bar(s, 0))
    ensures var t, bar := Cut(s, 0), Bar(s, i);
      && Bar(t, i) == bar && Past(t, bar) == Past(s, bar)
      && CString(Cut(t, i)[i..]) == CString(s[i..bar])
      && Cut(t, i)[Past(s, bar)..] == s[Past(s, bar)..]
  {
    var t := Cut(s, 0);
    SameBars(s, t, i);
    FieldEnds(s, Cut(t, i), i, Bar(s, i));
  }

  // A separator that became NUL ends the string that starts at `from`.
  lemma FieldEnds(s: seq<byte>, t: seq<byte>, from: nat, bar: nat)
    requires from <= bar <= |s| == |t| && (bar < |s| ==> t[bar] == NUL)
    requires forall k :: from <= k < bar ==> s[k] == t[k]
    ensures CString(t[from..]) == CString(s[from..bar])
  {
    assert t[from..bar] == s[from..bar];
    CStringStops(t[from..], bar - from);
    assert t[from..][..bar - from] == s[from..bar];
  }

  lemma {:induction false} CStringStops(t: seq<byte>, n: nat)
    requires n <= |t| && (n < |t| ==> t[n] == NUL)
    ensures CString(t) == CString(t[..n])
    decreases n
  {
    if n > 0 && t[0] != NUL {
      CStringStops(t[1..], n - 1);
      assert t[1..][..n - 1] == t[..n][1..];
    }
  }

  lemma {:induction false} SameBars(s: seq<byte>, t: seq<byte>, from: nat)
    requires from <= |s| == |t| && forall k :: from <= k < |s| ==> s[k] == t[k]
    ensures Bar(s, from) == Bar(t, from)
    decreases |s| - from
  {
    if from < |s| {
      SameBars(s, t, from + 1);
    }
  }

  // --- Well-formed messages ------------------------------------------------------------------

  function Message(name: seq<byte>, id: seq<byte>, payload: seq<byte>): seq<byte> {
    name + [BAR] + id + [BAR] + payload
  }

  lemma BarIs(s: seq<byte>, from: nat, k: nat)
    requires from <= k < |s| && s[k] == BAR && forall i :: from <= i < k ==> s[i] != BAR
    ensures Bar(s, from) == k
  {
  }

  // Where the fields of a well-formed message are.
  lemma FieldsAre(name: seq<byte>, id: seq<byte>, payload: seq<byte>)
    requires BAR !in name && BAR !in id
    ensures var s, bar, bar2 := Message(name, id, payload), |name|, |name| + 1 + |id|;
      && bar2 < |s| && Bar(s, 0) == bar && Bar(s, bar + 1) == bar2
      && s[..bar] == name && s[bar + 1..bar2] == id && s[bar2 + 1..] == payload
  {
    hide Bar;
    var s := Message(name, id, payload);
    assert s == name + [BAR] + (id + [BAR] + payload);
    Slices(name, [BAR], id + [BAR] + payload);
    assert s == (name + [BAR]) + id + ([BAR] + payload);
    Slices(name + [BAR], id, [BAR] + payload);
    assert s == (name + [BAR] + id) + [BAR] + payload;
    Slices(name + [BAR] + id, [BAR], payload);
    BarIs(s, 0, |name|);
    forall k | |name| < k < |name| + 1 + |id| ensures s[k] != BAR {
      assert s[k] == id[k - |name| - 1];
    }
    BarIs(s, |name| + 1, |name| + 1 + |id|);
  }

  lemma NoNulInside(s: seq<byte>)
    requires NUL !in s
    ensures CString(s) == s
  {
    assert s[..|s|] == s;
    CStringIsUnique(s, |s|);
  }

  // The fields of a well-formed message are found, whatever the payload contains:
  // separators and NULs in it do not matter.
  lemma ParsesFields(name: seq<byte>, id: seq<byte>, payload: seq<byte>)
    requires BAR !in name && NUL !in name && BAR !in id && NUL !in id
    ensures Parsed(Message(name, id, payload)) ==
            Command(if name == [] then REGULAR else CommandOf(name),
                    if id == [] then Some(0) else UserId(id),
                    payload)
  {
    hide CommandOf, UserId, Bar, CString, Message;
    FieldsAre(name, id, payload);
    NoNulInside(name);
    NoNulInside(id);
  }

  lemma DecimalIsPlain(n: nat)
    ensures BAR !in Decimal(n) && NUL !in Decimal(n)
  {
  }

  lemma PlainIgnoringCase(name: seq<byte>, word: seq<byte>)
    requires SameIgnoringCase(name, word) && BAR !in word && NUL !in word
    ensures BAR !in name && NUL !in name
  {
    forall i | 0 <= i < |name| ensures name[i] != BAR && name[i] != NUL {
      assert Lower(name[i]) == Lower(word[i]);
      assert word[i] in word;
    }
  }

  // A private message reaches the user it names: in any spelling of the command, for
  // every id that is an int and every payload.
  lemma PrivateMessage(name: seq<byte>, id: nat, payload: seq<byte>)
    requires SameIgnoringCase(name, Ascii("private")) && id < 0x8000_0000
    ensures Parsed(Message(name, Decimal(id), payload)) == Command(PRIVATE, Some(id), payload)
  {
    hide Parsed, Message, UserId, Decimal;
    PlainIgnoringCase(name, Ascii("private"));
    DecimalIsPlain(id);
    ParsesFields(name, Decimal(id), payload);
    UserIdOfDecimal(id);
  }

  // The word in any mixture of small and capital letters.
  ghost predicate Spelling(name: seq<byte>, word: string) {
    |name| == |word| && forall i :: 0 <= i < |name| ==> name[i] == word[i] as int || name[i] == word[i] as int - 32
  }

  lemma SpellingsOf(name: seq<byte>, word: string)
    requires forall i :: 0 <= i < |word| ==> 'a' <= word[i] <= 'z'
    ensures SameIgnoringCase(name, Ascii(word)) <==> Spelling(name, word)
  {
    if |name| == |word| {
      forall i | 0 <= i < |name|
        ensures Lower(name[i]) == Lower(Ascii(word)[i]) <==>
                name[i] == word[i] as int || name[i] == word[i] as int - 32
      {
        assert Ascii(word)[i] == word[i] as int;
      }
    }
  }

  // The number of every command, by its word.
  lemma CommandWords(name: seq<byte>)
    ensures CommandOf(name) ==
            if Spelling(name, "private") then 1
            else if Spelling(name, "name") then 2
            else if Spelling(name, "ping") then 3
            else 1000
  {
    SpellingsOf(name, "private");
    SpellingsOf(name, "name");
    SpellingsOf(name, "ping");
    hide SameIgnoringCase, Spelling, Ascii;
  }

  // A well-formed message with a command: its number, the user, and the payload.
  lemma CommandMessage(name: seq<byte>, id: seq<byte>, payload: seq<byte>)
    requires BAR !in name && NUL !in name && BAR !in id && NUL !in id && name != []
    ensures Parsed(Message(name, id, payload)) ==
            Command(if Spelling(name, "private") then 1
                    else if Spelling(name, "name") then 2
                    else if Spelling(name, "ping") then 3
                    else 1000,
                    if id == [] then Some(0) else UserId(id),
                    payload)
  {
    hide CommandOf, UserId, Message, Parsed, Spelling;
    ParsesFields(name, id, payload);
    CommandWords(name);
  }

  // "PRIVATE|7|Hi" and "name||Bob", octet by octet.
  lemma CommandExamples()
    ensures Parsed([0x50, 0x52, 0x49, 0x56, 0x41, 0x54, 0x45, 0x7C, 0x37, 0x7C, 0x48, 0x69]) ==
            Command(1, Some(7), [0x48, 0x69])
    ensures Parsed([0x6E, 0x61, 0x6D, 0x65, 0x7C, 0x7C, 0x42, 0x6F, 0x62]) == Command(2, Some(0), [0x42, 0x6F, 0x62])
  {
    hide Parsed, UserId, CommandOf;
    var capital: seq<byte> := [0x50, 0x52, 0x49, 0x56, 0x41, 0x54, 0x45];
    CommandMessage(capital, [0x37], [0x48, 0x69]);
    assert Message(capital, [0x37], [0x48, 0x69]) ==
           [0x50, 0x52, 0x49, 0x56, 0x41, 0x54, 0x45, 0x7C, 0x37, 0x7C, 0x48, 0x69];
    assert Spelling(capital, "private");
    assert Decimal(7) == [0x37];
    UserIdOfDecimal(7);
    var small: seq<byte> := [0x6E, 0x61, 0x6D, 0x65];
    CommandMessage(small, [], [0x42, 0x6F, 0x62]);
    assert Message(small, [], [0x42, 0x6F, 0x62]) == [0x6E, 0x61, 0x6D, 0x65, 0x7C, 0x7C, 0x42, 0x6F, 0x62];
    assert Spelling(small, "name");
  }

  // A message without a command is for everyone.
  lemma RegularMessage(payload: seq<byte>)
    ensures Parsed(Message([], [], payload)) == Command(REGULAR, Some(0), payload)
  {
    ParsesFields([], [], payload);
  }

  // Without the second separator an id is still read, unless it has one digit only.
  lemma IdAtTheEnd(name: seq<byte>, id: seq<byte>)
    requires BAR !in name && BAR !in id && NUL !in id && id != []
    ensures Parsed(name + [BAR] + id) ==
            Command(if name == [] then REGULAR else CommandOf(CString(name)),
                    if |id| == 1 then Some(0) else UserId(id),
                    [])
  {
    hide CommandOf, UserId, CString, Bar;
    EndsWithId(name, id, name + [BAR] + id);
    NoNulInside(id);
  }

  lemma EndsWithId(name: seq<byte>, id: seq<byte>, s: seq<byte>)
    requires s == name + [BAR] + id && BAR !in name && BAR !in id
    ensures Bar(s, 0) == |name| && Bar(s, |name| + 1) == |s|
    ensures s[..|name|] == name && s[|name| + 1..|s|] == id
  {
    hide Bar;
    Slices(name, [BAR], id);
    BarIs(s, 0, |name|);
    NoBarBehind(name, id, s);
    NoBar(s, |name| + 1);
  }

  lemma NoBarBehind(name: seq<byte>, id: seq<byte>, s: seq<byte>)
    requires s == name + [BAR] + id && BAR !in id
    ensures forall k :: |name| < k < |s| ==> s[k] != BAR
  {
    forall k | |name| < k < |s| ensures s[k] != BAR {
      assert s[k] == id[k - |name| - 1];
    }
  }

  lemma {:induction false} NoBar(s: seq<byte>, from: nat)
    requires from <= |s| && forall i :: from <= i < |s| ==> s[i] != BAR
    ensures Bar(s, from) == |s|
    decreases |s| - from
  {
    if from < |s| {
      NoBar(s, from + 1);
    }
  }

  // A single character without a separator counts as a message without a command.
  lemma LoneCharacterIsRegular(c: byte)
    ensures Parsed([c]) == Command(REGULAR, Some(0), [])
  {
    var s := [c];
    if c != BAR {
      assert Bar(s, 1) == 1;
      assert Bar(s, 0) == 1;
    } else {
      assert Bar(s, 0) == 0;
    }
  }
}
