# Event-driven chat relay: connection pool model

A Dafny model of the core of an event-driven TCP chat server in C. Every
chunk of bytes the server receives from one client goes to every other
connected client and never back to its sender. The core is the connection
pool: a list of client connections, each holding a descriptor and a FIFO
queue of messages still to be written. The model covers the pool API
(`init_pool`, `add_conn`, `remove_conn`, `add_msg`, `write_to_client`) and
the bookkeeping `main` does for each descriptor `select` reports ready: the
connection counter, the `maxfd` bound and the `end_server` stop flag. It
also covers the port check on the command line.

The C linked lists become sequences in head-to-tail order. A message is the
sequence of bytes `recv` returned. What `send` puts on the wire is appended
to a log of `Delivery(fd, msg)` records. The OS calls are inputs to the step
functions: the value `accept` returned, and the value and buffer `recv`
returned.

Files:

- `chat_types.dfy` (module `ChatTypes`): the constants, `Msg`, `Conn`,
  `Pool` and `Status` types of `chatServer.h`, and the descriptor search.
- `conn_pool.dfy` (module `ConnPool`): the five pool functions.
- `event_loop.dfy` (module `EventLoop`): the per-descriptor steps of `main`
  (`OnAccept`, `OnRecv`, `Dispatch`) and the pool invariant they keep.
- `port_args.dfy` (module `PortArgs`): `atoi` and the port-range check.

Where a C function body contradicts its own doc comment in `chatServer.h`,
the model follows the doc comment. A comment on the Dafny member says what
the body does instead:

- `add_msg` ignores its `sd` argument. It appends to every connection,
  including the sender, and links one shared node into every list.
  `AddMsg` gives each connection except the origin its own queue entry.
- `write_to_client` walks `conn_head`'s queue instead of `sd`'s. It ignores
  what `send` returns and never unlinks a sent entry. `WriteToClient` sends
  and empties `sd`'s queue. For an unregistered `sd` it returns FAILURE.
- `add_conn` never initialises `next` or `write_msg_head`. `AddConn` gives
  the new connection an empty queue.
- The doc comment of `add_msg` contradicts itself. Its summary line
  (chatServer.h:128) queues the message for every connection except the
  origin. Its `sd` line (chatServer.h:129) names `sd` as the connection whose
  queue gets the message. `main` follows the `sd` line: for each recipient
  it calls `add_msg` with that recipient's descriptor and then
  `write_to_client` on it. `AddMsg` follows the summary line, and `OnRecv`
  queues once for everyone but the sender and then writes each recipient
  out. `AddMsgFor` models the `sd` line and `MainRelay` models `main`'s loop.
  `OnRecvMatchesMain` proves that both orders leave the same pool and put
  the same deliveries on the wire.

Step 4 of the comment at the top of `remove_conn` (chatServer.c:352) says
"update max_fd if needed", but the body never carries it out. The model
follows the body, which never lowers `maxfd` on removal. It resets `maxfd` to
the listening socket only when the pool becomes empty, at the same moment
the server stops. The invariant `Inv` shows that `maxfd` still bounds every
watched descriptor.

## Model

| member | source | states |
|---|---|---|
| ChatTypes.IndexOf | chatServer.c:355-370 | the search finds the first connection with the descriptor, or reports that no connection has it |
| ConnPool.InitPool | chatServer.c:307-323 | the pool starts empty (head = tail = NULL) with zero connections and `maxfd` 0, and the call returns SUCCESS (0) |
| ConnPool.AddConn | chatServer.c:325-344 | the call returns SUCCESS (0); a fresh descriptor is appended at the tail with an empty queue; earlier connections keep their order; an empty pool becomes a one-element list; descriptors stay distinct |
| ConnPool.RemoveConn | chatServer.c:347-408 | FAILURE (-1), with the pool unchanged, exactly when the pool is empty or lacks the descriptor; on SUCCESS one connection goes, the last removal empties the list, and `maxfd` is untouched |
| ConnPool.RemoveConnDeletesExactly | chatServer.c:372-398 | with distinct descriptors, removal yields exactly the list with that connection filtered out, the others in order |
| ConnPool.RemoveAfterAdd | chatServer.c:325-408 | removing a descriptor just added restores the original pool and reports SUCCESS |
| ConnPool.Enqueue | chatServer.c:424-437 | walking the list from the head, every connection except the origin gets the message at the tail of its queue; the origin's queue and all descriptors are unchanged (the C loop appends to every connection; the origin skip is the doc comment's, chatServer.h:128) |
| ConnPool.AddMsg | chatServer.h:127-135 | the message is queued for every connection except the origin, none for the origin; the list and `maxfd` are unchanged; SUCCESS (0) |
| ConnPool.AddMsgFor | chatServer.h:129 | read as its `sd` parameter line says, the message goes to the tail of `sd`'s own queue and no other connection changes; the list, count and `maxfd` are unchanged; an unknown `sd` changes nothing; SUCCESS (0) |
| ConnPool.WriteToClient | chatServer.h:138-144 | the messages sent are exactly the connection's pending queue in FIFO order, which is then empty; other connections are untouched; FAILURE (-1) and nothing sent for an unknown descriptor, SUCCESS (0) otherwise |
| ConnPool.QueueIsFifo | chatServer.h:40-41 | after two messages from one origin, another connection sends its earlier backlog, then the first message, then the second |
| EventLoop.StartServer | chatServer.c:132-134 | before the first `select`, the pool is empty, `maxfd` is the listening socket, and the invariant holds |
| EventLoop.OnAccept | chatServer.c:209-230 | a valid accepted descriptor is appended, the count grows by one, `maxfd` becomes max(old, new), and only that descriptor joins the watched set; a failed accept sets the stop flag and registers nothing |
| EventLoop.OnAcceptAsWritten | chatServer.c:213-229 | as written, the accepted value is registered and counted even when negative, and a negative value also sets the stop flag |
| EventLoop.AcceptFailureRegistersInvalid | chatServer.c:215-224 | after a failed accept (-1), the as-written step leaves -1 in the pool, counted, and breaks the pool invariant |
| EventLoop.OnAcceptKeepsInv | chatServer.h:80-100 | accepting keeps the invariant: distinct valid client descriptors, never the listener; `maxfd` bounds them all; the count equals the list length |
| EventLoop.Recipients | chatServer.c:269-280 | the recipients are exactly the registered descriptors other than the sender, each listed once when the descriptors are distinct |
| EventLoop.RecipientsInListOrder | chatServer.c:271-279 | with distinct descriptors, the recipients come in head-to-tail list order: each one's connection sits before the next one's, as the walk from `conn_head` meets them |
| EventLoop.Flush | chatServer.c:271-279 | writing out recipients in turn sends only on those descriptors and leaves the list, the count and `maxfd` unchanged |
| EventLoop.FlushSendsEach | chatServer.c:271-279 | when each recipient holds just the chunk, writing them out sends it once to each, in order, and empties every queue |
| EventLoop.OnRecv | chatServer.c:237-281 | the wire log only grows and never sends back to the sender; a close drops the count by one and sets the stop flag exactly when the count or list hits zero; data leaves the list and count unchanged |
| EventLoop.MainRelay | chatServer.c:269-280 | `main`'s loop as written, calling `add_msg` and then `write_to_client` with each recipient's descriptor, sends only on the descriptors it walks, never on the sender's, and keeps the list, the count and `maxfd` |
| EventLoop.MainRelaySends | chatServer.c:269-280 | on a pool with nothing pending, `main`'s loop sends the chunk once to each connection other than the sender, in list order, and leaves the pool as it found it |
| EventLoop.OnRecvMatchesMain | chatServer.c:263-281 | for a chunk from a registered client, `OnRecv` leaves the same pool and appends the same deliveries to the wire as `main`'s per-recipient loop |
| EventLoop.RelayReachesEveryOtherClient | chatServer.c:263-281 | a chunk of n > 0 bytes from a client is sent exactly once to every other client, in list order, and never to its sender; the pool and stop flag end unchanged |
| EventLoop.RelayedChunkFitsBuffer | chatServer.c:239-241 | every relayed message carries between 1 and BUFFER_SIZE (4096) bytes |
| EventLoop.CloseRemovesClient | chatServer.c:245-261 | a recv of n <= 0 removes exactly that client from the pool and the watched set, keeps the others in order, and drops the count by one; it stops the server exactly when no client is left, resetting `maxfd` to the listener then and keeping it otherwise |
| EventLoop.Dispatch | chatServer.c:196-283 | dispatching one ready descriptor keeps the listener, never clears the stop flag, and only appends to what was sent; the listener goes to the corrected accept step `OnAccept` |
| EventLoop.DispatchKeepsInv | chatServer.h:80-100 | every ready descriptor `select` can report keeps the pool invariant, including `maxfd` bounding every watched descriptor and the count equal to the list length; this holds with the corrected accept step, whereas the source's own accept step breaks the invariant after a failed `accept` (`AcceptFailureRegistersInvalid`) |
| PortArgs.PortCheckAsWritten | chatServer.c:27-29 | the check as written is undefined exactly when fewer than CMDLINE_ARG_NUM arguments are given, because `argv[1]` is read first |
| PortArgs.PortCheckAgrees | chatServer.c:27-29 | whenever a port argument is present, the as-written check and the corrected check agree |
| PortArgs.MissingPortIsUndefined | chatServer.c:27-29 | with only the program name, the as-written check reads a missing argument, whereas the corrected check refuses |
| PortArgs.NumeralValue | chatServer.c:27 | the decimal reading of a numeral gives back the number it was written from |
| PortArgs.AtoiOfNumeral | chatServer.c:27 | `atoi` returns n for the numeral of n, with or without '+', and ignores any non-digit text after it |
| PortArgs.AtoiOfNegative | chatServer.c:27 | `atoi` returns -n for '-' followed by the numeral of n |
| PortArgs.PortRange | chatServer.c:29 | a numeral port is accepted exactly when 1 <= port <= 65536 |
| PortArgs.PortRefusals | chatServer.c:29-35 | a negative port, or an argument list without a port, is refused |

## Findings

| source | as written | input that shows it | evidently intended | confidence | as-written member | corrected member |
|---|---|---|---|---|---|---|
| chatServer.c:213-224 | after `accept` fails, `new_client` is still passed to `add_conn` and counted | `accept` returns -1: the pool gains a connection with descriptor -1 and `nr_conns` grows | a failed accept sets the stop flag and registers nothing | high; not executed | EventLoop.OnAcceptAsWritten | EventLoop.OnAccept |
| chatServer.c:27-29 | `atoi(argv[1])` runs before the `argc < CMDLINE_ARG_NUM` test | running the server with no arguments: `argv[1]` is NULL | print the usage and exit with FAILURE | high; not executed | PortArgs.PortCheckAsWritten | PortArgs.ValidPortArgs |

`EventLoop.AcceptFailureRegistersInvalid` and `PortArgs.MissingPortIsUndefined`
exhibit the two discrepancies. `EventLoop.OnAcceptKeepsInv` and
`PortArgs.PortRange` / `PortArgs.PortRefusals` prove the intended behaviour
of the corrected members.

## Left out

- Socket setup (`getaddrinfo`, `socket`, `setsockopt`, `ioctl`, `bind`, `listen`): OS calls with no pool logic. The model starts from a valid listening descriptor.
- The `select` wait, its timeout and the copying of `master` into `slave`: OS readiness plumbing. The model takes one ready descriptor and what the OS returned for it. The timeout branch is dead anyway, because the test before it is always true.
- The scan over descriptors 1..`maxfd` within one `select` pass, and the `end_server` test after the pass: the model has one step per ready descriptor, with `Dispatch` requiring that `select` watches the descriptor. The scan starts at 1, so descriptor 0 is never served. That is not modelled.
- The `nready`, `read_set`, `ready_read_set`, `write_set` and `ready_write_set` fields and the `FD_SET` calls on them: they store counts as descriptors and nothing reads them.
- The byte transfer of `send` and `recv`, and partial writes: a write is modelled as sending whole queued messages. `send`'s return value is ignored in the source.
- The SIGINT handler and its asynchronous flag: shutdown shows up only as the `stop` field.
- `malloc` failure and the `strlen`/`strcpy` copy of the received buffer. The C copy truncates at the first NUL byte while keeping the size `len`. The model's message is the n received bytes.
- `hold_fd`: it is only printed.
- `printf`, `help_msg`, `perror` output, and the final loop that closes every descriptor: I/O.
- Line framing: the header promises one message per complete line, but no code implements it.
- Aliasing of list nodes and the list corruption caused by the shared message node: the model follows the documented per-recipient queues.
- `nr_conns` is `unsigned int` in C but an unbounded `int` here. The only way it could wrap is a decrement from 0, and then both the C value and the model's -1 are non-zero, so the stop test behaves the same.
- `atoi` overflow on values outside the C `int` range is undefined behaviour in C. The model's `atoi` is unbounded.
- ConnPool.WriteToClient: states the documented contract, not the C body, which sends `conn_head`'s queue on `sd` and never empties it.
- EventLoop.OnRecv: queues the chunk once for every connection but the sender and then writes the recipients out, instead of `main`'s per-recipient `add_msg`/`write_to_client` pairs. `OnRecvMatchesMain` proves both give the same pool and wire when the invariant holds.
- ConnPool.AddMsg: states the documented contract, not the C body, which also queues for the sender and shares one list node among all queues.
- EventLoop.CloseRemovesClient: stated for a registered descriptor only. `select` reports only watched descriptors, so an unregistered one cannot reach this path. `OnRecv` itself is total.
