/** The TCP relay server: a registry of accepted connections, a pool of
    outstanding accepts, a per-connection receive loop that relays every
    received chunk to all other connections, and the console commands.

    Each callback and each console command runs as one atomic step: every
    traversal and mutation of the connection list happens under one lock.
    Socket calls are not executed; whether they succeed is given to each
    step as a parameter, and every completed `Send` is appended to `sent`. */
module ConnectionServer {

  import opened Relay

  /** Number of accepts issued when the server starts listening. */
  const ACCEPT_BACKLOG: nat := 10

  /** How one completed accept ends: the connection is registered and armed
      and a replacement accept is issued; or arming its first receive throws;
      or issuing the replacement accept throws. In the last two cases the
      handler closes the new connection. */
  datatype AcceptOutcome = Accepted | ArmFailed | ReacceptFailed

  /** The relay loop over the registry, under the lock: `payload` goes to every
      registered connection except `sender`, in list order, and the first
      `Send` that throws ends the loop. `relayed` tells whether it ran to the
      end. */
  method FanOut(members: seq<ConnId>, sender: ConnId, payload: Bytes, failing: set<ConnId>)
    returns (sends: seq<Delivery>, relayed: bool)
    ensures sends == Deliver(Reached(Others(members, sender), failing), Raw(payload))
    ensures relayed <==> AllSucceed(Others(members, sender), failing)
  {
    sends := [];
    var i := 0;
    while i < |members|
      invariant 0 <= i <= |members|
      invariant sends == Deliver(Others(members[..i], sender), Raw(payload))
      invariant AllSucceed(Others(members[..i], sender), failing)
    {
      var conn := members[i];
      assert members[..i + 1] == members[..i] + [conn];
      if conn != sender {
        if conn in failing {
          OthersSplit(members[..i + 1], members[i + 1..], sender);
          assert members[..i + 1] + members[i + 1..] == members;
          ReachedStops(Others(members[..i], sender), conn, Others(members[i + 1..], sender), failing);
          return sends, false;
        }
        sends := sends + [Delivery(conn, Raw(payload))];
      }
      i := i + 1;
    }
    assert members[..i] == members;
    ReachedAll(Others(members, sender), failing);
    relayed := true;
  }

  /** The console's send to all clients: `line` followed by a newline goes to
      every registered connection, in list order, the sender excluded from
      nothing. */
  method SendLine(members: seq<ConnId>, line: string) returns (sends: seq<Delivery>)
    ensures sends == Deliver(members, Utf8(line + "\n"))
  {
    sends := [];
    var i := 0;
    while i < |members|
      invariant 0 <= i <= |members|
      invariant sends == Deliver(members[..i], Utf8(line + "\n"))
    {
      assert members[..i + 1][..i] == members[..i];
      sends := sends + [Delivery(members[i], Utf8(line + "\n"))];
      i := i + 1;
    }
    assert members[..i] == members;
  }

  class Server {
    /** Console mode (`portReady`, and whether `exit` was read). */
    var mode: Mode
    /** Last port number parsed from a setup line. */
    var port: int
    /** Whether received bytes are also written to the console. */
    var showText: bool
    /** The registry: identities of the registered connections, in list order. */
    var connections: seq<ConnId>
    /** Next identity to hand out; every identity below it has been used. */
    var nextId: nat
    /** Connections with a receive outstanding. */
    var armed: set<ConnId>
    /** Connections whose socket has been closed. */
    var closed: set<ConnId>
    /** Receive buffer of each connection ever created. */
    var buffers: map<ConnId, Bytes>
    /** Accepts outstanding on the listening socket. */
    var pendingAccepts: nat
    /** Every completed `Send`, in order. */
    var sent: seq<Delivery>
    /** Every chunk written to the console, in order. */
    var shown: seq<Bytes>

    /** The registry holds each connection once, exactly the connections that
        are armed and not closed; every armed connection has its buffer. */
    ghost predicate Valid()
      reads this
    {
      && Distinct(connections)
      && (forall x :: x in connections <==> x in armed && x !in closed)
      && (forall x :: x in armed ==> x < nextId && x in buffers && |buffers[x]| == BUFFER_SIZE)
      && (forall x :: x in closed ==> x < nextId)
      && pendingAccepts <= ACCEPT_BACKLOG
      && (mode == Setup ==> connections == [] && armed == {} && pendingAccepts == 0)
    }

    constructor ()
      ensures Valid()
      ensures mode == Setup && showText && connections == [] && pendingAccepts == 0
      ensures armed == {} && closed == {} && sent == [] && shown == []
    {
      mode := Setup;
      port := 0;
      showText := true;
      connections := [];
      nextId := 0;
      armed := {};
      closed := {};
      buffers := map[];
      pendingAccepts := 0;
      sent := [];
      shown := [];
    }

    /** Closes the socket of `c` and removes `c` from the registry if it is
        there; closing an absent connection leaves the registry as it is. */
    method CloseConnection(c: ConnId)
      modifies this`closed, this`connections
      ensures closed == old(closed) + {c}
      ensures connections == RemoveFirst(old(connections), c)
    {
      closed := closed + {c};
      connections := RemoveFirst(connections, c);
    }

    /** Starting the listener: when binding and listening succeed, the
        accept loop issues ACCEPT_BACKLOG accepts; otherwise none. */
    method StartListening(listening: bool)
      modifies this`pendingAccepts
      ensures pendingAccepts == old(pendingAccepts) + if listening then ACCEPT_BACKLOG else 0
    {
      if listening {
        for i := 0 to ACCEPT_BACKLOG
          invariant pendingAccepts == old(pendingAccepts) + i
        {
          pendingAccepts := pendingAccepts + 1;
        }
      }
    }

    /** One completed accept: a new connection with a fresh zeroed buffer is
        registered. On success it stays registered and armed, and a
        replacement accept keeps the pool size; on either failure the new
        connection is closed and removed again and the pool shrinks by one. */
    method Accept(outcome: AcceptOutcome) returns (id: ConnId)
      requires Valid() && pendingAccepts > 0
      modifies this`nextId, this`buffers, this`connections, this`armed, this`closed, this`pendingAccepts
      ensures Valid()
      ensures id == old(nextId) && nextId == old(nextId) + 1
      ensures id !in old(connections) && id !in old(armed) && id !in old(closed)
      ensures buffers == old(buffers)[id := EmptyBuffer()]
      ensures connections == if outcome == Accepted then old(connections) + [id] else old(connections)
      ensures armed == if outcome == ArmFailed then old(armed) else old(armed) + {id}
      ensures closed == if outcome == Accepted then old(closed) else old(closed) + {id}
      ensures pendingAccepts == if outcome == Accepted then old(pendingAccepts) else old(pendingAccepts) - 1
    {
      id := nextId;
      nextId := nextId + 1;
      pendingAccepts := pendingAccepts - 1;
      buffers := buffers[id := EmptyBuffer()];
      RemoveAppended(connections, id);
      connections := connections + [id];
      if outcome == ArmFailed {
        CloseConnection(id);
        return;
      }
      armed := armed + {id};
      if outcome == ReacceptFailed {
        CloseConnection(id);
        return;
      }
      pendingAccepts := pendingAccepts + 1;
    }

    /** Tears down `c` after its receive completed: the socket is closed and
        the connection leaves the registry without a new receive. */
    method Discard(c: ConnId)
      requires Valid() && c in armed
      modifies this`armed, this`connections, this`closed
      ensures Valid()
      ensures armed == old(armed) - {c}
      ensures connections == RemoveFirst(old(connections), c)
      ensures closed == old(closed) + {c}
    {
      RemoveFirstMembers(connections, c);
      armed := armed - {c};
      CloseConnection(c);
    }

    /** The socket writes `data` at the start of the receive buffer of `c`;
        the rest of the buffer keeps its old bytes. */
    method Fill(c: ConnId, data: Bytes)
      requires Valid() && c in armed && |data| <= BUFFER_SIZE
      modifies this`buffers
      ensures Valid()
      ensures buffers == old(buffers)[c := data + old(buffers)[c][|data|..]]
      ensures buffers[c][..|data|] == data
    {
      buffers := buffers[c := data + buffers[c][|data|..]];
      assert buffers[c][..|data|] == data;
    }

    /** A receive on open connection `c` brought `data`: the bytes are shown
        when `showText` is set and sent to every other registered connection
        until a `Send` throws; `c` is re-armed only when the loop ran to the
        end and re-arming succeeds, and is closed otherwise. */
    method RelayChunk(c: ConnId, data: Bytes, failing: set<ConnId>, rearmOk: bool)
      requires Valid() && c in armed && c !in closed
      requires 0 < |data| <= BUFFER_SIZE
      modifies this`armed, this`connections, this`closed, this`buffers, this`sent, this`shown
      ensures Valid()
      ensures sent == old(sent) + Deliver(Reached(Others(old(connections), c), failing), Raw(data))
      ensures shown == old(shown) + if showText then [data] else []
      ensures buffers == old(buffers)[c := data + old(buffers)[c][|data|..]]
      ensures var keep := rearmOk && AllSucceed(Others(old(connections), c), failing);
        && armed == (if keep then old(armed) else old(armed) - {c})
        && connections == (if keep then old(connections) else RemoveFirst(old(connections), c))
        && closed == (if keep then old(closed) else old(closed) + {c})
    {
      var n := |data|;
      Fill(c, data);
      if showText {
        shown := shown + [buffers[c][..n]];
      }
      var sends, relayed := FanOut(connections, c, buffers[c][..n], failing);
      sent := sent + sends;
      if !(relayed && rearmOk) {
        Discard(c);
      }
    }

    /** One completed receive on `c`. Bytes on an open socket are relayed
        (see RelayChunk); an empty read or an exception (a closed socket always
        throws) closes `c` and issues no new receive. */
    method Receive(c: ConnId, completion: Completion, failing: set<ConnId>, rearmOk: bool)
      requires Valid() && c in armed
      requires completion.Completed? ==> |completion.data| <= BUFFER_SIZE
      modifies this`armed, this`connections, this`closed, this`buffers, this`sent, this`shown
      ensures Valid()
      ensures var got := c !in old(closed) && completion.HasData();
        sent == old(sent) + if got then Deliver(Reached(Others(old(connections), c), failing), Raw(completion.data)) else []
      ensures var got := c !in old(closed) && completion.HasData();
        shown == old(shown) + if got && showText then [completion.data] else []
      ensures var got := c !in old(closed) && completion.HasData();
        buffers == if got then old(buffers)[c := completion.data + old(buffers)[c][|completion.data|..]] else old(buffers)
      ensures var keep := c !in old(closed) && completion.HasData() && rearmOk
                          && AllSucceed(Others(old(connections), c), failing);
        && armed == (if keep then old(armed) else old(armed) - {c})
        && connections == (if keep then old(connections) else RemoveFirst(old(connections), c))
        && closed == (if keep then old(closed) else old(closed) + {c})
    {
      if c in closed || !completion.HasData() {
        Discard(c);
      } else {
        RelayChunk(c, completion.data, failing, rearmOk);
      }
    }

    /** `drop all` and the shutdown path: walking the registry from the last
        entry to the first, each step closes one connection and removes
        exactly that entry, leaving the registry empty. */
    method DropAll()
      requires Valid()
      modifies this`connections, this`closed
      ensures Valid()
      ensures connections == []
      ensures forall x :: x in closed <==> x in old(closed) || x in old(connections)
    {
      ghost var regs, before := connections, closed;
      var i := |connections| - 1;
      while i >= 0
        invariant -1 <= i < |regs|
        invariant connections == regs[..i + 1]
        invariant forall x :: x in closed <==> x in before || x in regs[i + 1..]
      {
        var c := connections[i];
        assert Distinct(connections);
        RemoveLast(connections);
        CloseConnection(c);
        assert regs[i..] == [c] + regs[i + 1..];
        i := i - 1;
      }
      assert regs[0..] == regs;
    }

    /** A setup line: a parsed port is stored; when it lies in 2..32767 the
        server starts listening and enters running mode, otherwise it keeps
        waiting for a port with nothing else changed. */
    method Configure(parsedPort: Option<int>, listening: bool)
      requires Valid() && mode == Setup
      modifies this`mode, this`port, this`pendingAccepts
      ensures Valid()
      ensures port == if parsedPort.Some? then parsedPort.value else old(port)
      ensures mode == Running <==> parsedPort.Some? && PortInRange(parsedPort.value)
      ensures mode == Setup || mode == Running
      ensures pendingAccepts == if mode == Running && listening then ACCEPT_BACKLOG else 0
    {
      if parsedPort.Some? {
        port := parsedPort.value;
        if PortInRange(port) {
          mode := Running;
          StartListening(listening);
        }
      }
    }

    /** `show text` / `hide text`: sets the display flag; nothing else. */
    method SetShowText(on: bool)
      modifies this`showText
      ensures showText == on
    {
      showText := on;
    }

    /** `exit`: every connection is closed and deregistered, then the
        command loop ends. */
    method Shutdown()
      requires Valid()
      modifies this`connections, this`closed, this`mode
      ensures Valid()
      ensures mode == Exited && connections == []
      ensures forall x :: x in closed <==> x in old(closed) || x in old(connections)
    {
      DropAll();
      mode := Exited;
    }

    /** One console line, dispatched as the command loop does. */
    method ConsoleLine(line: string, parsedPort: Option<int>, listening: bool)
      requires Valid() && mode != Exited
      modifies this
      ensures Valid()
      ensures nextId == old(nextId) && armed == old(armed) && buffers == old(buffers) && shown == old(shown)
      ensures port == if line != "exit" && old(mode) == Setup && parsedPort.Some? then parsedPort.value else old(port)
      ensures line == "exit" ==>
        && mode == Exited && connections == [] && sent == old(sent) && showText == old(showText)
        && pendingAccepts == old(pendingAccepts)
        && (forall x :: x in closed <==> x in old(closed) || x in old(connections))
      ensures line != "exit" && old(mode) == Setup ==>
        && connections == [] && closed == old(closed) && sent == old(sent) && showText == old(showText)
        && (mode == Running <==> parsedPort.Some? && PortInRange(parsedPort.value))
        && (mode == Setup || mode == Running)
        && pendingAccepts == (if mode == Running && listening then ACCEPT_BACKLOG else 0)
      ensures line != "exit" && old(mode) == Running ==>
        && mode == Running && pendingAccepts == old(pendingAccepts)
        && showText == (if line == "show text" then true else if line == "hide text" then false else old(showText))
        && connections == (if line == "drop all" then [] else old(connections))
        && (line != "drop all" ==> closed == old(closed))
        && (line == "drop all" ==> forall x :: x in closed <==> x in old(closed) || x in old(connections))
        && sent == old(sent) + (if line in {"show text", "hide text", "drop all"} then []
                                else Deliver(old(connections), Utf8(line + "\n")))
    {
      if line == "exit" {
        Shutdown();
      } else if mode == Setup {
        Configure(parsedPort, listening);
      } else if line == "show text" {
        SetShowText(true);
      } else if line == "hide text" {
        SetShowText(false);
      } else if line == "drop all" {
        DropAll();
      } else {
        var sends := SendLine(connections, line);
        sent := sent + sends;
      }
    }
  }
}
