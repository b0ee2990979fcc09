/** Vocabulary shared by the relay server and its test client: connection
    identities, byte payloads, the registry operations both programs perform
    on their connection lists, and the sends they record.

    A socket is represented by an opaque identity (`ConnId`); a registry is
    the sequence of identities held by the program's list, in list order. */
module Relay {

  datatype Option<+T> = None | Some(value: T)

  newtype byte = b: int | 0 <= b < 0x100

  type Bytes = seq<byte>

  /** Identity of one socket together with its receive buffer. */
  type ConnId = nat

  /** Size of every per-connection receive buffer (`new byte[255]`). */
  const BUFFER_SIZE: nat := 255
  /** Smallest port both programs accept. */
  const MIN_PORT: int := 2
  /** Largest port both programs accept (`short.MaxValue`). */
  const MAX_PORT: int := 32767

  /** Console mode of either program: waiting for a port (or address and
      port), relaying, or past the `exit` command. */
  datatype Mode = Setup | Running | Exited

  /** What `EndReceive` reports for one receive: the bytes it placed at the
      start of the buffer (possibly none, for a peer that closed), or an
      exception. */
  datatype Completion = Completed(data: Bytes) | Faulted {
    /** The receive brought at least one byte. */
    predicate HasData() {
      Completed? && |data| > 0
    }
  }

  /** Bytes handed to one `Send`: raw bytes taken from a receive buffer, or
      the UTF-8 encoding of a console text, kept symbolic. */
  datatype Payload = Raw(bytes: Bytes) | Utf8(text: string)

  /** One completed `Send` of `payload` to the socket `target`. */
  datatype Delivery = Delivery(target: ConnId, payload: Payload)

  /** The range check both programs apply to a parsed port: anything below
      MIN_PORT or above MAX_PORT is rejected. */
  predicate PortInRange(port: int) {
    MIN_PORT <= port <= MAX_PORT
  }

  /** A freshly allocated receive buffer: BUFFER_SIZE zero bytes. */
  function EmptyBuffer(): (b: Bytes)
    ensures |b| == BUFFER_SIZE && forall i :: 0 <= i < |b| ==> b[i] == 0
  {
    seq(BUFFER_SIZE, _ => 0)
  }

  predicate Distinct(s: seq<ConnId>) {
    forall i, j :: 0 <= i < j < |s| ==> s[i] != s[j]
  }

  // ---------------------------------------------------------------------
  // Removal from a registry (`List<T>.Remove`: the first occurrence goes)
  // ---------------------------------------------------------------------

  /** Position of the first occurrence of `c` in `s`. */
  function IndexOf(s: seq<ConnId>, c: ConnId): (k: nat)
    requires c in s
    ensures k < |s| && s[k] == c && c !in s[..k]
  {
    if s[0] == c then 0
    else
      var k := IndexOf(s[1..], c);
      assert s[..k + 1] == [s[0]] + s[1..][..k];
      k + 1
  }

  /** The list after `Remove(c)`: the first occurrence of `c` is taken out,
      an absent `c` leaves the list as it was. */
  function RemoveFirst(s: seq<ConnId>, c: ConnId): (r: seq<ConnId>)
    ensures c !in s ==> r == s
    ensures c in s ==> |r| == |s| - 1
  {
    if s == [] then []
    else if s[0] == c then s[1..]
    else [s[0]] + RemoveFirst(s[1..], c)
  }

  /** Removal takes out one copy of `c`, if there is one, and keeps every
      other entry as often as it was registered. */
  lemma {:induction false} RemoveFirstMultiset(s: seq<ConnId>, c: ConnId)
    ensures multiset(RemoveFirst(s, c)) == multiset(s) - multiset{c}
  {
    if s != [] {
      assert s == [s[0]] + s[1..];
      if s[0] != c {
        RemoveFirstMultiset(s[1..], c);
      }
    }
  }

  /** Removal cuts the list exactly at the first occurrence and keeps the
      order of everything else. */
  lemma {:induction false} RemoveFirstAt(s: seq<ConnId>, c: ConnId)
    requires c in s
    ensures RemoveFirst(s, c) == s[..IndexOf(s, c)] + s[IndexOf(s, c) + 1..]
  {
    if s[0] != c {
      RemoveFirstAt(s[1..], c);
      var k := IndexOf(s[1..], c);
      assert s[..k + 1] == [s[0]] + s[1..][..k];
      assert s[k + 2..] == s[1..][k + 1..];
    }
  }

  /** On a registry without duplicates, removal takes out `c` and nothing
      else, and the registry stays free of duplicates. */
  lemma {:induction false} RemoveFirstMembers(s: seq<ConnId>, c: ConnId)
    requires Distinct(s)
    ensures Distinct(RemoveFirst(s, c))
    ensures forall x :: x in RemoveFirst(s, c) <==> x in s && x != c
  {
    if s != [] {
      assert s == [s[0]] + s[1..];
      assert s[0] !in s[1..];
      if s[0] != c {
        RemoveFirstMembers(s[1..], c);
      }
    }
  }

  /** Closing a connection twice: the second removal changes nothing. */
  lemma {:induction false} RemoveTwice(s: seq<ConnId>, c: ConnId)
    requires Distinct(s)
    ensures RemoveFirst(RemoveFirst(s, c), c) == RemoveFirst(s, c)
  {
    RemoveFirstMembers(s, c);
  }

  /** On a registry without duplicates, removing the last entry by identity
      removes exactly the last position (the backward drop loop). */
  lemma {:induction false} RemoveLast(s: seq<ConnId>)
    requires Distinct(s) && |s| > 0
    ensures RemoveFirst(s, s[|s| - 1]) == s[..|s| - 1]
  {
    RemoveFirstAt(s, s[|s| - 1]);
    var k := IndexOf(s, s[|s| - 1]);
    assert k == |s| - 1;
  }

  /** Removing an entry just appended, when it was not there before,
      restores the registry (a failed connect undoes its own Add). */
  lemma {:induction false} RemoveAppended(s: seq<ConnId>, c: ConnId)
    requires c !in s
    ensures RemoveFirst(s + [c], c) == s
  {
    var t := s + [c];
    RemoveFirstAt(t, c);
    assert t[..|s|] == s;
  }

  // ---------------------------------------------------------------------
  // Fan-out: whom a relayed payload reaches
  // ---------------------------------------------------------------------

  /** The registry entries other than `sender`, in registry order: the
      targets the server's relay loop sends to. */
  function Others(s: seq<ConnId>, sender: ConnId): (targets: seq<ConnId>) {
    if s == [] then []
    else
      var init := Others(s[..|s| - 1], sender);
      if s[|s| - 1] == sender then init else init + [s[|s| - 1]]
  }

  /** The targets are exactly the registered connections other than the
      sender. */
  lemma {:induction false} OthersMembers(s: seq<ConnId>, sender: ConnId)
    ensures forall x :: x in Others(s, sender) <==> x in s && x != sender
  {
    if s != [] {
      assert s == s[..|s| - 1] + [s[|s| - 1]];
      OthersMembers(s[..|s| - 1], sender);
    }
  }

  /** Others distributes over concatenation of registry segments. */
  lemma {:induction false} OthersSplit(a: seq<ConnId>, b: seq<ConnId>, sender: ConnId)
    ensures Others(a + b, sender) == Others(a, sender) + Others(b, sender)
  {
    if b == [] {
      assert a + b == a;
    } else {
      var b' := b[..|b| - 1];
      assert (a + b)[..|a + b| - 1] == a + b';
      assert (a + b)[|a + b| - 1] == b[|b| - 1];
      OthersSplit(a, b', sender);
    }
  }

  /** Every entry other than the sender is a target exactly as often as it
      is registered; the sender is never one. */
  lemma {:induction false} OthersMultiset(s: seq<ConnId>, sender: ConnId)
    ensures forall x :: multiset(Others(s, sender))[x] == if x == sender then 0 else multiset(s)[x]
  {
    if s != [] {
      var init := s[..|s| - 1];
      var last := s[|s| - 1];
      assert s == init + [last];
      OthersMultiset(init, sender);
    }
  }

  /** Without duplicates, the targets are |s| - 1 entries when the sender is
      registered and all |s| entries when it is not. */
  lemma {:induction false} OthersCount(s: seq<ConnId>, sender: ConnId)
    requires Distinct(s)
    ensures |Others(s, sender)| == if sender in s then |s| - 1 else |s|
  {
    if s != [] {
      var init := s[..|s| - 1];
      var last := s[|s| - 1];
      assert s == init + [last];
      assert last !in init;
      OthersCount(init, sender);
    }
  }

  /** Without duplicates in the registry there are none among the targets. */
  lemma {:induction false} OthersDistinct(s: seq<ConnId>, sender: ConnId)
    requires Distinct(s)
    ensures Distinct(Others(s, sender))
  {
    if s != [] {
      var init := s[..|s| - 1];
      var last := s[|s| - 1];
      assert s == init + [last];
      assert last !in init;
      OthersDistinct(init, sender);
      OthersMembers(init, sender);
    }
  }

  /** The longest prefix of `targets` before the first target whose `Send`
      throws: the sends that complete when a failure aborts the loop. */
  function Reached(targets: seq<ConnId>, failing: set<ConnId>): (reached: seq<ConnId>) {
    if targets == [] || targets[0] in failing then []
    else [targets[0]] + Reached(targets[1..], failing)
  }

  /** The reached targets are a prefix of the targets, none of them failing,
      and the loop stopped either at the end or at a failing target. */
  lemma {:induction false} ReachedPrefix(targets: seq<ConnId>, failing: set<ConnId>)
    ensures var r := Reached(targets, failing);
      && |r| <= |targets| && r == targets[..|r|]
      && AllSucceed(r, failing)
      && (|r| < |targets| ==> targets[|r|] in failing)
  {
    if targets != [] && targets[0] !in failing {
      ReachedPrefix(targets[1..], failing);
    }
  }

  /** No `Send` to any of `targets` throws. */
  predicate AllSucceed(targets: seq<ConnId>, failing: set<ConnId>) {
    forall x :: x in targets ==> x !in failing
  }

  /** When no target fails, every target is reached. */
  lemma {:induction false} ReachedAll(targets: seq<ConnId>, failing: set<ConnId>)
    requires AllSucceed(targets, failing)
    ensures Reached(targets, failing) == targets
  {
    if targets != [] {
      assert targets[0] in targets;
      ReachedAll(targets[1..], failing);
    }
  }

  /** A failing target stops the loop right before itself. */
  lemma {:induction false} ReachedStops(done: seq<ConnId>, x: ConnId, rest: seq<ConnId>, failing: set<ConnId>)
    requires AllSucceed(done, failing)
    requires x in failing
    ensures Reached(done + [x] + rest, failing) == done
  {
    var t := done + [x] + rest;
    if done != [] {
      assert done[0] in done;
      assert t[1..] == done[1..] + [x] + rest;
      ReachedStops(done[1..], x, rest, failing);
    }
  }

  /** One `Send` of `payload` to each of `targets`, in order. */
  function Deliver(targets: seq<ConnId>, payload: Payload): (sends: seq<Delivery>) {
    if targets == [] then []
    else Deliver(targets[..|targets| - 1], payload) + [Delivery(targets[|targets| - 1], payload)]
  }

  /** The i-th send goes to the i-th target and carries the payload. */
  lemma {:induction false} DeliverAt(targets: seq<ConnId>, payload: Payload)
    ensures |Deliver(targets, payload)| == |targets|
    ensures forall i :: 0 <= i < |targets| ==> Deliver(targets, payload)[i] == Delivery(targets[i], payload)
  {
    if targets != [] {
      DeliverAt(targets[..|targets| - 1], payload);
    }
  }

  /** The sender never receives its own payload: every send of a relay goes
      to a registered connection other than the sender, and carries the
      payload unchanged. */
  lemma FanOutExcludesSender(s: seq<ConnId>, sender: ConnId, failing: set<ConnId>, payload: Payload)
    ensures var sends := Deliver(Reached(Others(s, sender), failing), payload);
      forall i :: 0 <= i < |sends| ==>
        sends[i].target != sender && sends[i].target in s && sends[i].payload == payload
  {
    var t := Others(s, sender);
    var r := Reached(t, failing);
    OthersMembers(s, sender);
    ReachedPrefix(t, failing);
    DeliverAt(r, payload);
    forall i | 0 <= i < |r|
      ensures r[i] in t
    {
      assert r[i] == t[i];
    }
  }

  /** Fan-out completeness: with a duplicate-free registry holding the
      sender, and no send failing, the payload goes out exactly |s| - 1
      times, once to each other registered connection. */
  lemma FanOutComplete(s: seq<ConnId>, sender: ConnId, failing: set<ConnId>, payload: Payload)
    requires Distinct(s) && sender in s
    requires forall x :: x in s && x != sender ==> x !in failing
    ensures var sends := Deliver(Reached(Others(s, sender), failing), payload);
      && |sends| == |s| - 1
      && (forall i, j :: 0 <= i < j < |sends| ==> sends[i].target != sends[j].target)
      && (forall x :: x in s && x != sender ==>
            exists i :: 0 <= i < |sends| && sends[i] == Delivery(x, payload))
  {
    var t := Others(s, sender);
    OthersMembers(s, sender);
    ReachedAll(t, failing);
    OthersCount(s, sender);
    OthersDistinct(s, sender);
    DeliverAt(t, payload);
    var sends := Deliver(t, payload);
    forall x | x in s && x != sender
      ensures exists i :: 0 <= i < |sends| && sends[i] == Delivery(x, payload)
    {
      var i := IndexOf(t, x);
      assert sends[i] == Delivery(x, payload);
    }
  }

  /** Sends that stop at the first failure reach a prefix of the intended
      targets, in order, each once per registration. */
  lemma SendsArePrefix(targets: seq<ConnId>, failing: set<ConnId>, payload: Payload)
    ensures var sends := Deliver(Reached(targets, failing), payload);
      && |sends| <= |targets|
      && (forall i :: 0 <= i < |sends| ==> sends[i] == Delivery(targets[i], payload))
      && (|sends| < |targets| ==> targets[|sends|] in failing)
  {
    var r := Reached(targets, failing);
    ReachedPrefix(targets, failing);
    DeliverAt(r, payload);
    forall i | 0 <= i < |r|
      ensures r[i] == targets[i]
    {
      assert r == targets[..|r|];
    }
  }
}
