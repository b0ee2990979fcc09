# TCP relay server and test client: registry and command model

This project models the core of a small TCP relay written in C#. It has two
programs.

- **ConnectionServer.** It accepts many client connections. Bytes received
  from one connection are relayed to every other connection. Console
  commands control it: `show text`, `hide text`, `drop all`, `exit`, and any
  other line, which is sent to all connections.
- **ConnectionClient.** It opens one or more connections to that server and
  writes whatever arrives to its console. Console commands control it:
  `start N`, `exit`, and any other line, which is sent on every connection.

Both programs keep a list of live connections (the *registry*). Every
traversal and every mutation of that list happens under a lock. The model
treats each I/O callback and each console command as one atomic step, even
though the code takes the lock several times within one of them and makes
socket calls between those sections. Examples:

- The client's `Start` appends under the lock
  (ConnectionClient/Program.cs:47-50), connects without it (:54), and on
  failure removes under the lock again (:63-66).
- The server's receive callback holds `serverLock` to show the text
  (ConnectionServer/Program.cs:135-142). It then holds the registry lock for
  the relay loop (:150-160) and re-arms without a lock (:163).
- `CloseConnection` closes the socket outside the lock (:181).

Each step is a method of a class (`ConnectionServer.Server`,
`ConnectionClient.Client`) whose fields are the programs' static state:

- the registry, as a sequence of opaque connection identities in list order;
- the mode (waiting for a port, running, exited);
- the `showText` flag;
- the receive buffers;
- the number of outstanding accepts.

Socket calls are not performed. Each step receives the environment's answer
as parameters:

- whether a connect, accept or re-arm succeeds;
- the bytes a receive delivered, or a fault;
- the set of targets whose `Send` throws.

Every completed `Send` is appended to a log of (target, payload) records.
Every chunk written to the console is appended to an output log.

Module `Relay` (relay.dfy) holds what both programs share:

- `RemoveFirst`, the list's `Remove` (the first occurrence goes);
- `Others`, the relay targets: every entry except the sender;
- `Reached`, the prefix of targets served before the first failing `Send`;
- `Deliver`, one send per target;
- the lemmas about these functions.

`ConnectionServer` (server.dfy) and `ConnectionClient` (client.dfy) hold the
two programs. Each has its relay or send loop as a method that returns the
sends it performs. Each loop is proved against the functions above.

Three behaviours of the code are worth stating outright, and the model
follows them:

- The code does not isolate a failing target. A failed `Send` during the
  server's relay loop aborts the remaining sends and closes the *receiving*
  connection.
- A failed `Send` in the client's send-to-all loop aborts the rest of that
  loop.
- If binding or listening fails, the server still enters running mode, with
  no accept outstanding.

## Model

| member | source | states |
|---|---|---|
| `Relay.EmptyBuffer` | ConnectionServer/Program.cs:94 | A new receive buffer is BUFFER_SIZE (255) bytes, all zero |
| `Relay.PortInRange` | ConnectionServer/Program.cs:204 | A port is accepted iff it is at least 2 and at most `short.MaxValue` (32767). The client applies the same test (ConnectionClient/Program.cs:144) |
| `Relay.IndexOf` | ConnectionServer/Program.cs:182 | The position found holds `c`, and no earlier position does |
| `Relay.RemoveFirst` | ConnectionServer/Program.cs:182 | `Remove` of an absent entry leaves the list unchanged. Removing a present entry shortens the list by exactly one |
| `Relay.RemoveFirstAt` | ConnectionServer/Program.cs:182 | `Remove` cuts out exactly the first occurrence and keeps the order of every other entry |
| `Relay.RemoveFirstMultiset` | ConnectionClient/Program.cs:98 | `Remove` takes out one copy of the entry and keeps every other entry as often as it was registered |
| `Relay.RemoveFirstMembers` | ConnectionServer/Program.cs:182 | On a duplicate-free registry, removal takes out that connection and nothing else, and the registry stays duplicate-free |
| `Relay.RemoveTwice` | ConnectionServer/Program.cs:179-183 | Closing a connection twice is harmless: the second removal leaves the registry as the first left it |
| `Relay.RemoveLast` | ConnectionServer/Program.cs:249-252 | On a duplicate-free registry, removing `connections[i]` for the last index `i` removes exactly that last entry |
| `Relay.RemoveAppended` | ConnectionClient/Program.cs:47-66 | Removing a just-appended connection that was not registered before restores the registry |
| `Relay.Others` | ConnectionServer/Program.cs:152-158 | Reference definition of the relay targets: the registry in list order with every entry equal to the sender dropped, as the `connection != conn` filter does |
| `Relay.OthersMembers` | ConnectionServer/Program.cs:152-158 | The relay targets are exactly the registered connections other than the sender |
| `Relay.OthersSplit` | ConnectionServer/Program.cs:152-158 | Relay targets of a registry are the targets of its first part followed by those of its second part |
| `Relay.OthersMultiset` | ConnectionServer/Program.cs:152-158 | The sender is never a target. Every other connection is a target once per registration |
| `Relay.OthersCount` | ConnectionServer/Program.cs:152-158 | On a duplicate-free registry there are \|connections\| - 1 targets if the sender is registered, else \|connections\| |
| `Relay.OthersDistinct` | ConnectionServer/Program.cs:152-158 | A duplicate-free registry gives duplicate-free targets |
| `Relay.Reached` | ConnectionServer/Program.cs:150-160 | Reference definition of the targets a send loop serves: the targets in order up to, and not including, the first whose `Send` throws. The throw leaves the loop |
| `Relay.ReachedPrefix` | ConnectionServer/Program.cs:150-160 | Sends that stop at the first throwing `Send` reach a prefix of the targets, none of them failing. Stopping early means the next target failed |
| `Relay.ReachedAll` | ConnectionServer/Program.cs:150-160 | When no `Send` throws, every target is reached |
| `Relay.ReachedStops` | ConnectionServer/Program.cs:150-160 | A throwing `Send` stops the loop right before that target |
| `Relay.Deliver` | ConnectionServer/Program.cs:152-158 | Reference definition of a send loop's output: one (target, payload) send per target, in target order |
| `Relay.DeliverAt` | ConnectionServer/Program.cs:152-158 | Send i goes to target i with the payload unchanged, one send per target |
| `Relay.FanOutExcludesSender` | ConnectionServer/Program.cs:154-157 | Every relayed send goes to a registered connection other than the sender and carries the received bytes |
| `Relay.FanOutComplete` | ConnectionServer/Program.cs:150-160 | With a duplicate-free registry holding the sender and no failing send, exactly \|connections\| - 1 sends go out, one to each other connection |
| `Relay.SendsArePrefix` | ConnectionClient/Program.cs:180-194 | The connections a send-to-all reaches are a prefix of the registry in list order. An early stop means the next connection's `Send` threw |
| `ConnectionServer.FanOut` | ConnectionServer/Program.cs:150-160 | The relay loop sends the received bytes to the reached prefix of the non-sender entries. It reports completion iff no target's `Send` throws |
| `ConnectionServer.SendLine` | ConnectionServer/Program.cs:257-266 | The console send-to-all sends `line + "\n"` to every registered connection in order, excluding none |
| `ConnectionServer.Server.constructor` | ConnectionServer/Program.cs:15-40 | The server starts waiting for a port, with `showText` on, an empty registry and nothing outstanding |
| `ConnectionServer.Server.CloseConnection` | ConnectionServer/Program.cs:179-183 | Closes the socket and removes the connection if present. The registry is unchanged if it is absent |
| `ConnectionServer.Server.StartListening` | ConnectionServer/Program.cs:59-77 | A successful bind and listen issues exactly 10 accepts. A failure issues none |
| `ConnectionServer.Server.Accept` | ConnectionServer/Program.cs:83-118 | A completed accept creates one fresh connection with a zeroed 255-byte buffer. On success it is registered and armed and a replacement accept keeps the pool size. If arming or re-accepting throws, it is closed and removed and the pool shrinks by one |
| `ConnectionServer.Server.Discard` | ConnectionServer/Program.cs:167-176 | A zero-length or faulted receive closes and deregisters the connection and issues no new receive |
| `ConnectionServer.Server.Fill` | ConnectionServer/Program.cs:129 | The receive places the bytes at the start of the connection's buffer and keeps its size |
| `ConnectionServer.Server.RelayChunk` | ConnectionServer/Program.cs:130-166 | A positive-length receive is shown iff `showText` is set. It is sent to the reached non-sender entries, independent of `showText`. The receive is re-armed only if the loop completed and re-arming succeeds. Otherwise the receiving connection, not the failing target, is closed and removed |
| `ConnectionServer.Server.Receive` | ConnectionServer/Program.cs:124-177 | The whole receive callback. Only a positive-length receive on an open socket relays, and only a completed relay re-arms. An empty read or an exception closes and deregisters the connection |
| `ConnectionServer.Server.DropAll` | ConnectionServer/Program.cs:245-254 | `drop all`: the backward loop removes one entry per step. It ends with an empty registry and every formerly registered socket closed |
| `ConnectionServer.Server.Shutdown` | ConnectionServer/Program.cs:271-278 | `exit`: all connections are closed and deregistered and the mode becomes exited |
| `ConnectionServer.Server.Configure` | ConnectionServer/Program.cs:199-220 | A setup line enters running mode iff it parses to a port in 2..32767. Otherwise the server keeps waiting with the registry unchanged |
| `ConnectionServer.Server.SetShowText` | ConnectionServer/Program.cs:223-244 | `show text` / `hide text` set the display flag to on / off. Repeating a command changes nothing |
| `ConnectionServer.Server.ConsoleLine` | ConnectionServer/Program.cs:196-270 | One console line. `exit` closes and deregisters every connection and leaves the accept pool as it was. A setup line stores the parsed port and is range-checked, and entering running mode with a working listener issues 10 accepts. show/hide change only the flag. `drop all` empties the registry. Any other line goes to every connection |
| `ConnectionClient.SendToAll` | ConnectionClient/Program.cs:180-194 | The client send-to-all sends to the registry in order up to the first throwing `Send` and reports completion iff none throws |
| `ConnectionClient.Opened` | ConnectionClient/Program.cs:172-176 | Reference definition of what `start N` leaves registered: attempt k gets identity base + k and stays registered, in attempt order, unless its connect failed |
| `ConnectionClient.OpenedRange` | ConnectionClient/Program.cs:172-176 | The connections opened by `start N` are distinct and are exactly the attempts that connected |
| `ConnectionClient.IsStartCommand` | ConnectionClient/Program.cs:163 | A running-mode line is a `start` command iff it begins with the six characters `start ` |
| `ConnectionClient.StartCount` | ConnectionClient/Program.cs:165-172 | The number of connections `start N` opens. It is N when the rest of the line parses to a positive N. A parse failure is swallowed and leaves the count at 0, and a count of 0 or less opens none |
| `ConnectionClient.FreshBuffers` | ConnectionClient/Program.cs:15 | The buffers of the connections lo .. hi - 1 are exactly those ids, each a zeroed 255-byte buffer |
| `ConnectionClient.Client.constructor` | ConnectionClient/Program.cs:10-33 | The client starts waiting for an address with an empty registry |
| `ConnectionClient.Client.Start` | ConnectionClient/Program.cs:35-70 | Appends a fresh connection with a 255-byte buffer before connecting. On failure it is removed again, so the registry ends as it began |
| `ConnectionClient.Client.StartMany` | ConnectionClient/Program.cs:163-177 | `start N` calls Start exactly max(N, 0) times. The registry grows by the attempts that connected, in order. Exactly those attempts become armed, and every attempt gets a fresh zeroed 255-byte buffer |
| `ConnectionClient.Client.Deregister` | ConnectionClient/Program.cs:94-99 | Removes the connection from the registry and its receive loop |
| `ConnectionClient.Client.Receive` | ConnectionClient/Program.cs:76-114 | A positive-length receive is output and re-armed with the registry untouched. An empty read deregisters and closes. An exception deregisters without closing. Only the first re-arms |
| `ConnectionClient.Client.Shutdown` | ConnectionClient/Program.cs:199-214 | The backward shutdown loop empties the registry. Sockets whose `Shutdown` throws stay open and the rest are closed |
| `ConnectionClient.Client.Configure` | ConnectionClient/Program.cs:135-159 | A setup line enters running mode iff it parses to an endpoint with a port in 2..32767, even if the first connect then fails. Entering running mode creates one connection with a fresh buffer. It is registered and armed iff the connect succeeds |
| `ConnectionClient.Client.ConsoleLine` | ConnectionClient/Program.cs:133-198 | One console line. `exit` empties the registry and closes every registered socket whose shutdown does not throw. A setup line acts as Configure. `start N` opens connections, arming exactly those that connected. Any other line goes to a prefix of the registry, and the registry, the armed set and the buffers are unchanged |

## Left out

- Socket calls (`Bind`, `Listen`, `BeginAccept`/`EndAccept`, `BeginReceive`/`EndReceive`, `Connect`, `Send`, `Shutdown`, `Close`) are not performed. Their success or failure is a parameter of each step. A receive on a socket already closed is always treated as a fault.
- Threads, lock semantics and callback scheduling are not modelled. Each whole callback or command is one atomic step, so interleavings between the locked sections of one step are not modelled. For example, while the client's `Start` blocks in `Connect` (ConnectionClient/Program.cs:54), a receive callback may remove another socket from the registry (ConnectionClient/Program.cs:96-99). A failed `Start` then leaves the registry without that socket, whereas `ConnectionClient.Client.Start` promises that the registry ends as it began.
- UTF-8 encoding and decoding are kept symbolic. A console line is sent as `Utf8(line + "\n")`. Received bytes are logged as bytes, not as decoded text.
- `int.Parse`, `IPAddress.Parse`, `String.Split` and the `IPEndPoint` constructor are not modelled. Their result is a parameter (`Option`); only the 2..32767 range check is modelled.
- `ConnectionClient.IsStartCommand` uses an ordinal prefix test for `line.StartsWith("start ")`. Culture-sensitive comparison is not modelled.
- `ConnectionClient.Client.Configure` does not record the `port` field assigned before `IPAddress.Parse` can throw. The parse result is all or nothing.
- `ConnectionServer.Server.Accept` does not model an `EndAccept` that throws. The handler then calls `CloseConnection` on a connection whose socket is still null, which throws again out of the callback.
- `ConnectionServer.Server.StartListening` does not model a `BeginAccept` that throws part way through the start loop. Setup either fully succeeds or issues no accept.
- `ConnectionServer.SendLine` does not model a `Send` that throws. The console send-to-all has no handler, so such an exception would end the process.
- `ConnectionServer.FanOut` and `ConnectionServer.SendLine` record the whole payload for every completed `Send`. Accepted sockets are non-blocking (ConnectionServer/Program.cs:93), so `Send` may transfer fewer bytes than asked. The code ignores the count it returns (ConnectionServer/Program.cs:156, 263), and the model does not capture such partial sends.
- Console text (prompts, messages, counts), `Thread.Sleep` and process exit are not modelled.
- The end of console input is not modelled: `ConsoleLine` always receives a line. When `Console.ReadLine` returns null, the client in running mode throws out of `line.StartsWith` (ConnectionClient/Program.cs:163) and the process ends. `ReadLine` then keeps returning null, which never equals `exit`, so the other three paths repeat in an endless loop. The client in setup mode and the server in setup mode each catch the parse failure and print the error and prompt again on every pass. The server in running mode sends `"\n"` to every connection on every pass.
