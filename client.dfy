/** The test client: a registry of outbound connections to one endpoint,
    opened one at a time by `Start`, each with its own receive loop that
    writes what arrives to the console, and the console commands that open
    more connections, send a line on all of them, or shut everything down.

    As for the server, each callback and each command is one atomic step
    over the registry; whether a socket call succeeds is a parameter. */
module ConnectionClient {

  import opened Relay

  /** The endpoint a setup line names. */
  datatype Endpoint = Endpoint(address: string, port: int)

  /** The console's send to all connections: `payload` goes to every
      registered connection in list order; the first `Send` that throws ends
      the loop, so the connections reached are a prefix of the registry. */
  method SendToAll(members: seq<ConnId>, payload: Payload, failing: set<ConnId>)
    returns (sends: seq<Delivery>, complete: bool)
    ensures sends == Deliver(Reached(members, failing), payload)
    ensures complete <==> AllSucceed(members, failing)
  {
    sends := [];
    var i := 0;
    while i < |members|
      invariant 0 <= i <= |members|
      invariant sends == Deliver(members[..i], payload)
      invariant AllSucceed(members[..i], failing)
    {
      var conn := members[i];
      assert members[..i + 1] == members[..i] + [conn];
      if conn in failing {
        assert members[..i] + [conn] + members[i + 1..] == members;
        ReachedStops(members[..i], conn, members[i + 1..], failing);
        return sends, false;
      }
      sends := sends + [Delivery(conn, payload)];
      i := i + 1;
    }
    assert members[..i] == members;
    ReachedAll(members, failing);
    complete := true;
  }

  /** The connections opened by `count` calls of `Start` whose identities
      run from `base`: attempt k gets identity base + k and stays registered
      unless it is in `failed`. */
  function Opened(base: nat, count: nat, failed: set<nat>): (ids: seq<ConnId>) {
    if count == 0 then []
    else Opened(base, count - 1, failed) + if count - 1 in failed then [] else [base + count - 1]
  }

  /** The opened connections are distinct and all carry identities from the
      range base .. base + count - 1 of the attempts that did not fail. */
  lemma {:induction false} OpenedRange(base: nat, count: nat, failed: set<nat>)
    ensures Distinct(Opened(base, count, failed))
    ensures forall x :: x in Opened(base, count, failed) <==>
      base <= x < base + count && x - base !in failed
  {
    if count > 0 {
      OpenedRange(base, count - 1, failed);
      var init := Opened(base, count - 1, failed);
      if count - 1 !in failed {
        assert base + count - 1 !in init;
        assert Opened(base, count, failed) == init + [base + count - 1];
      }
    }
  }

  /** The receive buffers of the connections `lo .. hi - 1`, each a new
      zeroed buffer of BUFFER_SIZE bytes. */
  function FreshBuffers(lo: nat, hi: nat): (m: map<ConnId, Bytes>)
    decreases hi
    ensures forall x :: x in m <==> lo <= x < hi
    ensures forall x :: x in m ==> m[x] == EmptyBuffer()
  {
    if hi <= lo then map[] else FreshBuffers(lo, hi - 1)[hi - 1 := EmptyBuffer()]
  }

  class Client {
    /** Console mode (`portReady`, and whether `exit` was read). */
    var mode: Mode
    /** Last endpoint parsed from a setup line. */
    var endpoint: Option<Endpoint>
    /** The registry: identities of the registered connections, in list order. */
    var socketList: seq<ConnId>
    /** Next identity to hand out; every identity below it has been used. */
    var nextId: nat
    /** Connections with a receive outstanding. */
    var armed: set<ConnId>
    /** Connections whose socket has been closed. */
    var closed: set<ConnId>
    /** Receive buffer of each connection ever created. */
    var buffers: map<ConnId, Bytes>
    /** Every completed `Send`, in order. */
    var sent: seq<Delivery>
    /** Every chunk written to the console, in order. */
    var output: seq<Bytes>

    /** The registry holds each connection once; a registered connection is
        armed and open; every connection created has a full-size buffer. */
    ghost predicate Valid()
      reads this
    {
      && Distinct(socketList)
      && (forall x :: x in socketList ==> x in armed && x !in closed)
      && armed <= buffers.Keys && closed <= buffers.Keys
      && (forall x :: x in buffers ==> x < nextId && |buffers[x]| == BUFFER_SIZE)
    }

    constructor ()
      ensures Valid()
      ensures mode == Setup && endpoint == None && socketList == []
      ensures armed == {} && closed == {} && sent == [] && output == []
    {
      mode := Setup;
      endpoint := None;
      socketList := [];
      nextId := 0;
      armed := {};
      closed := {};
      buffers := map[];
      sent := [];
      output := [];
    }

    /** Opens one connection: its record, with a fresh zeroed buffer, is
        appended to the registry before connecting. When the connect (and
        the first receive) succeeds it stays registered and armed; when
        either throws it is removed again, so the registry ends as it began. */
    method Start(connectOk: bool) returns (id: ConnId)
      requires Valid()
      modifies this`nextId, this`buffers, this`socketList, this`armed
      ensures Valid()
      ensures id == old(nextId) && nextId == old(nextId) + 1
      ensures id !in old(socketList) && id !in old(armed) && id !in closed
      ensures buffers == old(buffers)[id := EmptyBuffer()]
      ensures socketList == if connectOk then old(socketList) + [id] else old(socketList)
      ensures armed == if connectOk then old(armed) + {id} else old(armed)
    {
      id := nextId;
      nextId := nextId + 1;
      buffers := buffers[id := EmptyBuffer()];
      RemoveAppended(socketList, id);
      socketList := socketList + [id];
      if connectOk {
        armed := armed + {id};
      } else {
        socketList := RemoveFirst(socketList, id);
      }
    }

    /** `start N`: calls Start once per attempt 0 .. count - 1 (none for a
        count that is not positive); the registry grows by the attempts
        that connected, in order. */
    method StartMany(count: int, connectFails: set<nat>)
      requires Valid()
      modifies this`nextId, this`buffers, this`socketList, this`armed
      ensures Valid()
      ensures nextId == old(nextId) + if count > 0 then count else 0
      ensures socketList == old(socketList) + Opened(old(nextId), if count > 0 then count else 0, connectFails)
      ensures forall x :: x in armed <==> x in old(armed) || x in Opened(old(nextId), if count > 0 then count else 0, connectFails)
      ensures buffers == old(buffers) + FreshBuffers(old(nextId), nextId)
    {
      var i := 0;
      while i < count
        invariant 0 <= i <= if count > 0 then count else 0
        invariant Valid()
        invariant nextId == old(nextId) + i
        invariant socketList == old(socketList) + Opened(old(nextId), i, connectFails)
        invariant forall x :: x in armed <==> x in old(armed) || x in Opened(old(nextId), i, connectFails)
        invariant buffers == old(buffers) + FreshBuffers(old(nextId), nextId)
      {
        var _ := Start(i !in connectFails);
        i := i + 1;
      }
    }

    /** Removes `s` from the registry if it is there and takes it out of the
        receive loop. */
    method Deregister(s: ConnId)
      requires Valid() && s in armed
      modifies this`socketList, this`armed
      ensures Valid()
      ensures socketList == RemoveFirst(old(socketList), s)
      ensures armed == old(armed) - {s}
    {
      RemoveFirstMembers(socketList, s);
      socketList := RemoveFirst(socketList, s);
      armed := armed - {s};
    }

    /** One completed receive on `s`. Bytes are written to the console and a
        receive of BUFFER_SIZE bytes is re-armed, the registry untouched; if
        re-arming throws, `s` is deregistered. An empty read deregisters and
        closes `s`; an exception (a closed socket always throws) deregisters
        it without closing. Only the first case re-arms. */
    method Receive(s: ConnId, completion: Completion, rearmOk: bool)
      requires Valid() && s in armed
      requires completion.Completed? ==> |completion.data| <= BUFFER_SIZE
      modifies this`socketList, this`armed, this`closed, this`buffers, this`output
      ensures Valid()
      ensures var got := s !in old(closed) && completion.HasData();
        && output == old(output) + (if got then [completion.data] else [])
        && buffers == (if got then old(buffers)[s := completion.data + old(buffers)[s][|completion.data|..]] else old(buffers))
        && armed == (if got && rearmOk then old(armed) else old(armed) - {s})
        && socketList == (if got && rearmOk then old(socketList) else RemoveFirst(old(socketList), s))
      ensures closed == if s !in old(closed) && completion == Completed([]) then old(closed) + {s} else old(closed)
    {
      if s in closed || completion.Faulted? {
        Deregister(s);
        return;
      }
      var data := completion.data;
      var n := |data|;
      if n > 0 {
        buffers := buffers[s := data + buffers[s][n..]];
        assert buffers[s][..n] == data;
        output := output + [buffers[s][..n]];
        if !rearmOk {
          Deregister(s);
        }
      } else {
        Deregister(s);
        closed := closed + {s};
      }
    }

    /** The shutdown loop: walking the registry from the last entry to the
        first, each step shuts down and closes that socket (a socket whose
        shutdown throws stays open) and removes that entry, so the registry
        ends empty. */
    method Shutdown(shutdownFails: set<ConnId>)
      requires Valid()
      modifies this`socketList, this`closed, this`mode
      ensures Valid()
      ensures mode == Exited && socketList == []
      ensures forall x :: x in closed <==> x in old(closed) || (x in old(socketList) && x !in shutdownFails)
    {
      ghost var regs, before := socketList, closed;
      var i := |socketList| - 1;
      while i >= 0
        invariant -1 <= i < |regs|
        invariant socketList == regs[..i + 1]
        invariant forall x :: x in closed <==> x in before || (x in regs[i + 1..] && x !in shutdownFails)
        invariant closed <= buffers.Keys
      {
        var s := socketList[i];
        if s !in shutdownFails {
          closed := closed + {s};
        }
        socketList := socketList[..i];
        assert regs[i..] == [s] + regs[i + 1..];
        i := i - 1;
      }
      assert regs[0..] == regs;
      mode := Exited;
    }

    /** A setup line: a parsed endpoint is stored; when its port lies in
        2..32767 the client enters running mode and makes its first
        connection attempt, which may fail without leaving running mode. */
    method Configure(parsed: Option<Endpoint>, connectOk: bool)
      requires Valid() && mode == Setup
      modifies this`mode, this`endpoint, this`nextId, this`buffers, this`socketList, this`armed
      ensures Valid()
      ensures endpoint == if parsed.Some? then parsed else old(endpoint)
      ensures mode == Running <==> parsed.Some? && PortInRange(parsed.value.port)
      ensures mode == Setup || mode == Running
      ensures socketList == if mode == Running && connectOk then old(socketList) + [old(nextId)] else old(socketList)
      ensures nextId == if mode == Running then old(nextId) + 1 else old(nextId)
      ensures armed == if mode == Running && connectOk then old(armed) + {old(nextId)} else old(armed)
      ensures buffers == if mode == Running then old(buffers)[old(nextId) := EmptyBuffer()] else old(buffers)
    {
      if parsed.Some? {
        endpoint := parsed;
        if PortInRange(parsed.value.port) {
          var _ := Start(connectOk);
          mode := Running;
        }
      }
    }

    /** One console line, dispatched as the command loop does. `count` is
        what parsing the text after `start ` gives; attempt k of this line's
        connects fails when k is in `connectFails`. */
    method ConsoleLine(line: string, parsed: Option<Endpoint>, count: Option<int>,
                       connectFails: set<nat>, sendFails: set<ConnId>, shutdownFails: set<ConnId>)
      requires Valid() && mode != Exited
      modifies this
      ensures Valid()
      ensures output == old(output)
      ensures endpoint == if line != "exit" && old(mode) == Setup && parsed.Some? then parsed else old(endpoint)
      ensures line == "exit" ==>
        && mode == Exited && socketList == [] && sent == old(sent)
        && nextId == old(nextId) && armed == old(armed) && buffers == old(buffers)
        && (forall x :: x in closed <==> x in old(closed) || (x in old(socketList) && x !in shutdownFails))
      ensures line != "exit" && old(mode) == Setup ==>
        && sent == old(sent) && closed == old(closed)
        && (mode == Running <==> parsed.Some? && PortInRange(parsed.value.port))
        && (mode == Setup || mode == Running)
        && socketList == (if mode == Running && 0 !in connectFails then old(socketList) + [old(nextId)] else old(socketList))
        && nextId == (if mode == Running then old(nextId) + 1 else old(nextId))
        && armed == (if mode == Running && 0 !in connectFails then old(armed) + {old(nextId)} else old(armed))
        && buffers == (if mode == Running then old(buffers)[old(nextId) := EmptyBuffer()] else old(buffers))
      ensures line != "exit" && old(mode) == Running && IsStartCommand(line) ==>
        && mode == Running && sent == old(sent) && closed == old(closed)
        && var n := StartCount(count);
           && nextId == old(nextId) + n
           && socketList == old(socketList) + Opened(old(nextId), n, connectFails)
           && (forall x :: x in armed <==> x in old(armed) || x in Opened(old(nextId), n, connectFails))
           && buffers == old(buffers) + FreshBuffers(old(nextId), nextId)
      ensures line != "exit" && old(mode) == Running && !IsStartCommand(line) ==>
        && mode == Running && socketList == old(socketList) && closed == old(closed)
        && nextId == old(nextId) && armed == old(armed) && buffers == old(buffers)
        && sent == old(sent) + Deliver(Reached(old(socketList), sendFails), Utf8(line + "\n"))
    {
      if line == "exit" {
        Shutdown(shutdownFails);
      } else if mode == Setup {
        Configure(parsed, 0 !in connectFails);
      } else if IsStartCommand(line) {
        StartMany(StartCount(count), connectFails);
      } else {
        var sends, _ := SendToAll(socketList, Utf8(line + "\n"), sendFails);
        sent := sent + sends;
      }
    }
  }

  /** `start N` is any line beginning with `start ` (six characters). */
  predicate IsStartCommand(line: string) {
    |line| >= 6 && line[..6] == "start "
  }

  /** Number of connections `start N` opens: N when it parses and is
      positive, otherwise none (a parse failure leaves the count at 0). */
  function StartCount(count: Option<int>): (n: nat) {
    if count.Some? && count.value > 0 then count.value else 0
  }
}
