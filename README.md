# nmead fan-out engine in Dafny

nmead is an NMEA 0183 relay. A talker thread reads the GPS receiver's output line by line and broadcasts every line that begins with `$` or `!` to all connected clients. Each client has a worker thread that drains its own message buffer into its TCP socket. This project models the engine between the two:

- `msgbuffer.dfy` (module `MsgBuffers`): the per-client ring buffer of twenty 88-byte slots with an `int` read cursor and an `int` write cursor. The class `MsgBuffer` holds an `array<string>`; its methods `PutMsg` and `GetMsg` are proved equal to the spec functions `Put` and `Get`. Those functions keep the cursor arithmetic exactly as written in putmsg and getmsg.
- `msgbuffer_trace.dfy` (module `BufferTrace`): runs of putmsg and getmsg calls on one buffer, each call atomic. It proves the lagged-FIFO behaviour while no put fails, and what happens once one does.
- `connection.dfy` (module `Connections`): the connection manager. It is a real `head`/`next` linked list with a count capped at 20. A ghost sequence `conns` records the nodes in link order, and `Valid()` ties the two together. It models addconnection, removeconnection (a two-pointer search loop, then an unlink) and writetoconnections (a loop of putmsg over the list).
- `talk.dfy` (module `Talker`): the talker. The receiver is a character stream that fgets cuts into pieces of at most 1023 characters. It models the first-character filter, the broadcast loop, and the unchecked fgets at the end of the stream.
- `listeners.dfy` (module `Listeners`): the accept decision of multilisten, the worker loop of listenproc, and listenproc_cleanup. Sockets appear as a log of `Write` and `Close` operations.
- `relay.dfy` (module `Relay`): one client end to end, from talk's broadcasts to what its worker writes.
- `seqs.dfy` and `wrappers.dfy`: `Distinct` and `Option`.

Each function that holds a semaphore for its whole body is modelled as one atomic step.

Strings stand for C strings, meaning the characters before the NUL. `strncpy(dst, msg, n)` into a buffer whose byte `n` is NUL becomes `Prefix(msg, n)`.

The endless loops of talk and listenproc are run for a given number of `rounds`. The result of each socket `write` comes from an oracle `writeResult`, indexed by how many writes the worker has made.

Buffer behaviour, as written:

- **Slot lag.** putmsg writes the slot after the write cursor, and getmsg reads the slot under the read cursor. So a fresh buffer first hands out its empty slot 0. After that, each message becomes readable only when the next one is put.
- **A failed put still moves the write cursor.**
  - It lands on the read cursor, so nothing is readable. The oldest unread message becomes the held one and is readable again after the next successful put; the other unread messages and the message held before are lost.
  - Or, from slot 19, it goes past the array. Until the next successful put brings the write cursor back into the array, getmsg does not report empty and replays stale slots.

## Model

| member | source | states |
|---|---|---|
| MsgBuffers.Prefix | msgbuffer.c:155 | strncpy into a slot keeps the first 87 characters of the message: the result is a prefix of it, the whole message when it is short, exactly 87 characters otherwise |
| MsgBuffers.NewState | msgbuffer.c:84-89 | a new buffer has both cursors at 0 and every slot empty |
| MsgBuffers.Put | msgbuffer.c:137-162 | putmsg fails (-1) exactly when the slot after the write cursor is the read slot; then no slot and not the read cursor change, but the write cursor is one larger; on success slot (write cursor + 1) modulo 20 gets the message cut to 87 characters, the write cursor becomes that slot, nothing else changes |
| MsgBuffers.Get | msgbuffer.c:185-208 | getmsg reports empty (-1) and changes nothing exactly when the cursors are equal; otherwise it copies the read slot out and moves the read cursor one slot on, modulo 20, leaving write cursor and slots alone |
| MsgBuffers.PutIntended | msgbuffer.c:144-150 | the corrected putmsg leaves a full buffer exactly as it was |
| MsgBuffers.Count | msgbuffer.c:191 | an aligned buffer has fewer than 20 readable slots, none exactly when the cursors are equal |
| MsgBuffers.WellFormed | msgbuffer.h:74-79 | defines what every reachable buffer satisfies: twenty slots of at most 87 characters each, a read cursor in 0 to 19 and a write cursor of 0 or more (not bounded by 20, see Put) |
| MsgBuffers.Pending | msgbuffer.c:201-202 | the readable messages are Count many slots from the read cursor on |
| MsgBuffers.Held | msgbuffer.c:144-156 | defines the held message of an aligned buffer: the slot under the write cursor, which putmsg last wrote and getmsg does not read until the next put moves the cursor on |
| MsgBuffers.NewStateIsEmpty | msgbuffer.c:84-89 | a new buffer has nothing readable, holds the empty slot 0, and getmsg on it reports empty |
| MsgBuffers.PutAppendsHeld | msgbuffer.c:144-156 | on an aligned buffer putmsg fails exactly when 19 messages are readable; a successful put makes the held message readable at the end of the queue and holds the new one |
| MsgBuffers.GetTakesOldest | msgbuffer.c:191-202 | getmsg fails exactly when nothing is readable; otherwise it returns the oldest readable message (whole for a caller buffer of 88 bytes or more) and removes it, the held message staying |
| MsgBuffers.FailedPutLosesQueue | msgbuffer.c:144-150 | a failed put happens only with 19 readable messages; from below slot 19 it then leaves nothing readable and the oldest readable message held, and from slot 19 it puts the write cursor at 20 |
| MsgBuffers.OverrunNeverEmpty | msgbuffer.c:191-202 | while the write cursor is at 20 or beyond (until the next successful put), getmsg succeeds, copies the read slot and leaves the write cursor there |
| MsgBuffers.PutIntendedDropsNewest | msgbuffer.c:144-156 | the corrected putmsg keeps every buffer aligned; it fails exactly when 19 are readable, then dropping the new message and keeping the queue, and otherwise appends as putmsg does |
| MsgBuffers.MsgBuffer.constructor | msgbuffer.c:84-92 | the calloc'd buffer: a fresh array of twenty empty slots, cursors 0 |
| MsgBuffers.MsgBuffer.PutMsg | msgbuffer.c:137-162 | putmsg on the object: result and new cursors and slots are those of Put |
| MsgBuffers.MsgBuffer.GetMsg | msgbuffer.c:185-208 | getmsg on the object: result, copied message and new read cursor are those of Get |
| MsgBuffers.NewMsgBuffer | msgbuffer.c:82-93 | NULL exactly when calloc fails, else a fresh buffer in the new state |
| BufferTrace.Step | msgbuffer.c:137-208 | one atomic putmsg or getmsg keeps the buffer well formed and only adds to what getmsg has handed out |
| BufferTrace.Run | msgbuffer.c:137-208 | a sequence of calls keeps the buffer well formed and hands out at most one message per call |
| BufferTrace.Stored | msgbuffer.c:155 | defines what the slots keep of a run of messages, message by message; MsgBuffers.Prefix states that this is the first 87 characters of each |
| BufferTrace.PutStepExtends | msgbuffer.c:144-156 | a successful put appends the stored message to delivered + readable + held |
| BufferTrace.GetStepKeeps | msgbuffer.c:191-202 | a get leaves delivered + readable + held as it was |
| BufferTrace.GetDrains | msgbuffer.c:191-202 | on an aligned buffer one more get hands out the oldest readable message, or nothing and no change once none is readable |
| BufferTrace.GetsDrain | msgbuffer.c:191-202 | on an aligned buffer k gets hand out the first min(k, readable) readable messages in order, leave the rest readable and the held slot held |
| BufferTrace.InOrderWhileNoPutFails | msgbuffer.c:137-208 | while no put has failed, delivered + readable + held is exactly the empty slot 0 followed by every put message in put order |
| BufferTrace.DeliveredInPutOrder | msgbuffer.c:137-208 | while no put has failed, getmsg has handed out a prefix of slot 0 and the put messages, never more than were put (the newest is held back) |
| BufferTrace.DeliveredOnce | msgbuffer.c:137-208 | while no put has failed and the stored forms of the messages (their first 87 characters) are distinct and non-empty, nothing is handed out twice |
| BufferTrace.FillFresh | msgbuffer.c:144-156 | up to 19 puts into a new buffer all succeed and fill slots 1, 2, ... in order |
| BufferTrace.TwentiethPutFails | msgbuffer.c:144-150 | from a new buffer puts 1 to 19 succeed and put 20 fails, leaving the write cursor at 20 |
| BufferTrace.TwentyFirstPutOverwrites | msgbuffer.c:144-156 | put 21 then succeeds into slot 1, overwriting the first message while it is unread |
| BufferTrace.OverrunReplays | msgbuffer.c:191-202 | with the write cursor at 20 or beyond, k gets all succeed and return the slots round the array from the read cursor |
| BufferTrace.OncePutFailsSlotsReplay | msgbuffer.c:144-202 | after twenty puts into a new buffer, 21 gets hand out slot 0, the first 19 messages and slot 0 again: not distinct, not in put order |
| Connections.Without | connection.c:262-277 | removal by identity never lengthens the list |
| Connections.WithoutMembers | connection.c:264-273 | after removal exactly the other connections remain |
| Connections.WithoutAbsent | connection.c:262-277 | removing an unlisted connection changes nothing |
| Connections.WithoutAt | connection.c:268-274 | removing the node at position k cuts exactly that position out |
| Connections.WithoutFacts | connection.c:253-281 | removal is idempotent, keeps the list distinct and shortens it by one exactly when the connection was listed |
| Connections.WithoutKeepsOrder | connection.c:270-273 | the remaining connections keep their relative order |
| Connections.Connection.constructor | connection.c:84-92 | a new connection holds the given buffer, is not linked to any other and is not freed |
| Connections.DestroyConnection | connection.c:122-129 | the connection is marked freed, its link untouched |
| Connections.NewConnection | connection.c:80-105 | NULL exactly when an allocation fails, else a fresh unlinked connection with a fresh buffer in the new state |
| Connections.ConnectionMgr.Linked | connection.c:211-281 | defines the list invariant addconnection and removeconnection keep: nconn is the list length and at most 20, head and the next links spell the list and end in NULL, no connection or buffer is listed twice, and no listed connection has been freed |
| Connections.ConnectionMgr.Valid | connection.c:211-321 | defines the whole manager invariant: Linked together with every listed buffer being well formed |
| Connections.ConnectionMgr.constructor | connection.c:151-158 | the calloc'd manager: empty list, NULL head, count 0 |
| Connections.NewConnectionMgr | connection.c:149-159 | NULL exactly when calloc fails, else an empty valid manager |
| Connections.AddThenRemove | connection.c:211-281 | adding an unlisted connection and removing it (once or twice) gives back the list |
| Connections.WalkVisitsList | connection.c:264-266 | following next from head visits the listed connections in order and reaches NULL after nconn links: the list is acyclic |
| Connections.AddConnection | connection.c:211-230 | -1 for a NULL argument; -2 with nothing changed when the count is 20 or more; otherwise the connection becomes the head in front of the old list, the count goes up by one, and 0; the list stays valid |
| Connections.ConsValid | connection.c:222-224 | linking a joining connection in front of a valid list keeps count, links, distinctness and separate buffers consistent |
| Connections.RemoveConnection | connection.c:253-281 | -1 for a NULL argument; otherwise 0 with the connection removed by identity, the list still valid, and nothing changed when it was not listed |
| Connections.Remove | connection.c:262-277 | the search-then-unlink body removes exactly the given connection |
| Connections.Unlink | connection.c:270-274 | pointing the predecessor (or head) past the found node and decrementing the count cuts exactly that node out of a valid list |
| Connections.CutLinked | connection.c:270-274 | the relinked chain again has count, head, links and NULL end matching the shortened list |
| Connections.FindLink | connection.c:264-266 | the two-pointer walk stops at the connection with its predecessor, or at NULL exactly when it is not listed |
| Connections.PutAt | connection.c:310-316 | one iteration puts into the k-th buffer and leaves every other buffer as it was |
| Connections.WriteToConnections | connection.c:301-322 | every listed buffer gets exactly one putmsg of the string, failures included; membership and count are unchanged and the result is 0 |
| Talker.IsSentenceStart | talk.c:99 | defines the first-character test: a line starts a sentence exactly when its first character is '$' or '!'; Talker.Emitted and Talker.FilterKeepsSentences state what it lets through |
| Talker.LineLength | talk.c:98 | fgets takes 1 to 1023 characters, stopping after the first newline or at the end of the stream |
| Talker.LinesRoundTrip | talk.c:98 | the pieces successive fgets calls return make up the stream |
| Talker.LinesShape | talk.c:98 | each piece has 1 to 1023 characters and no inner newline, and every piece but the last ends in a newline or fills the buffer |
| Talker.Lines | talk.c:98 | defines the pieces successive fgets calls take from the whole stream; Talker.LinesRoundTrip and Talker.LinesShape state their properties |
| Talker.NextBuffer | talk.c:98 | defines what the buffer holds after one fgets: the next piece, or the old contents at the end of the stream |
| Talker.NextRest | talk.c:98 | defines what the stream still holds after one fgets: everything after the piece taken, nothing at the end |
| Talker.Filter | talk.c:99-102 | defines the lines that pass the first-character test, in order; Talker.FilterKeepsSentences states which |
| Talker.FilterKeepsSentences | talk.c:99-102 | the filter keeps exactly the lines starting with '$' or '!' |
| Talker.Emitted | talk.c:99-102 | a line is broadcast, as itself, exactly when it starts with '$' or '!' |
| Talker.Broadcasts | talk.c:97-102 | defines the lines the loop as written hands to writetoconnections in a number of turns, re-filtering the old buffer once the stream has ended; Talker.BroadcastsWhileInput, Talker.BroadcastsPastEnd and Talker.EndOfInputRebroadcasts state its properties |
| Talker.Forwarded | talk.c:97-102 | defines what the loop is meant to forward: each sentence line of the whole input once, in order |
| Talker.BroadcastsUntilEnd | talk.c:97-98 | defines the loop with the fgets result checked, stopping at the end of the stream; Talker.UntilEndForwardsEachOnce states that it forwards each sentence once |
| Talker.BroadcastsWhileInput | talk.c:97-102 | while input remains, the turns broadcast the sentence lines read, each once, in order |
| Talker.AtEndRepeats | talk.c:97-100 | at the end of the stream every further turn re-filters the old buffer, broadcasting a sentence once per turn |
| Talker.BroadcastsPastEnd | talk.c:97-106 | turns past the end add the old buffer's repeats after the sentences of the whole stream |
| Talker.EndOfInputRebroadcasts | talk.c:97-102 | a stream ending in a sentence has that sentence broadcast again on the next turn, so the broadcasts repeat it |
| Talker.UntilEndForwardsEachOnce | talk.c:97-102 | with the fgets result checked, the loop forwards every sentence line once, in order |
| Talker.Talk | talk.c:79-108 | a NULL argument or stream exits with -2 and touches nothing; otherwise every listed buffer has received exactly the broadcasts, in order, and the list is untouched |
| Talker.Broadcast | talk.c:102 | writetoconnections of a sentence extends every buffer's run of puts by it |
| Talker.Advance | talk.c:98-102 | one turn adds to what was broadcast exactly what the new buffer emits; it defines the turn as one fgets (NextBuffer, NextRest) followed by the first-character test |
| Talker.Turn | talk.c:98-102 | one turn reads the next line and broadcasts it only if it is a sentence |
| Talker.TalkLoop | talk.c:97-106 | after `rounds` turns every listed buffer has had the turns' broadcasts put into it, in order |
| Listeners.Accept | listeners.c:182-196 | a socket is refused (TOO_MANY then close, no worker, list unchanged) exactly when the list is full; otherwise a fresh connection with an empty buffer heads the list and the worker gets it, the manager and the socket |
| Listeners.Discard | listeners.c:185 | destroying the refused connection leaves the list valid |
| Listeners.MultiListen | listeners.c:164-198 | workers start for as many sockets as there was room; the first refused socket gets TOO_MANY and a close and ends the loop; the new connections head the list, newest first |
| Listeners.Poll | listeners.c:280-295 | one round keeps the buffer well formed; it defines the round: a getmsg into 88 bytes, nothing written when empty, else the message written and the worker stopped exactly when that write reports a negative count |
| Listeners.Start | listeners.c:275 | defines a worker that has neither polled nor written, on the connection's buffer |
| Listeners.Serve | listeners.c:275-297 | a number of rounds keeps the buffer well formed; it defines the loop run for that many rounds, doing nothing more once the worker stopped |
| Listeners.History | listeners.c:275-297 | the sequence of workers round by round starts at the given worker, ends at Serve's result, and each entry is the round after the one before (unchanged once stopped) |
| Listeners.PollTracks | listeners.c:280-288 | one round is one more getmsg, and it writes what getmsg returned |
| Listeners.PollStops | listeners.c:288-295 | a round keeps the rule that the worker stops exactly on a negative write result |
| Listeners.ServeFacts | listeners.c:275-297 | over any number of rounds the worker's writes are its getmsg results in order; it stops exactly on a failed write, a zero-byte write included in the successes |
| Listeners.WorkerFacts | listeners.c:275-297 | a worker started on a buffer writes each message its getmsg calls returned once, in order, polling once per round until a write fails |
| Listeners.Fetch | listeners.c:280 | getmsg on the worker's buffer is Get, and the other listed buffers stay valid |
| Listeners.Deliver | listeners.c:275-297 | the delivery loop's buffer, socket writes and stopping follow the worker model |
| Listeners.ListenProcCleanup | listeners.c:223-236 | the connection leaves the list before it is destroyed, then the socket is closed |
| Listeners.ListenProc | listeners.c:256-302 | a NULL argument or failed calloc returns at once touching nothing; otherwise the worker writes what getmsg returns and, on a failed write, removes and destroys its connection and closes the socket |
| Relay.WorkerSeesOneRun | listeners.c:275-297 | the worker's writes after talk's broadcasts are what getmsg returned in one run of the puts followed by the worker's gets |
| Relay.RelayInOrder | listeners.c:280-288 | while no put fails, the worker writes a prefix of slot 0 followed by the broadcasts in order, never more writes than broadcasts, and nothing twice when the stored forms of the broadcasts (their first 87 characters) are distinct and non-empty |
| Relay.TalkLeavesAllPending | msgbuffer.c:144-156 | while no broadcast failed, all broadcasts but the newest are readable in order and the newest is held |
| Relay.RelayDeliversAllButNewest | listeners.c:275-297 | while no put fails, a worker whose writes succeed and that runs a round per broadcast writes exactly slot 0 and every broadcast but the newest, in order, and leaves nothing readable |
| Relay.RelayForwardsSentences | talk.c:97-102 | with the end-of-input check, the broadcasts are exactly the input's sentences, and while no put fails the worker writes a prefix of slot 0 followed by those sentences, in order |
| Relay.RelayWritesSentences | talk.c:97-102 | with the end-of-input check, fewer than twenty sentences never make a put fail, and while no put fails a worker whose writes succeed, running a round per sentence, writes exactly slot 0 and every sentence but the last, in order |
| Relay.RelayReplaysOnOverrun | msgbuffer.c:144-150 | twenty sentences broadcast before the worker polls make a put fail, and the worker then writes slot 0 twice, out of order |

## Left out

- Threads and semaphores (`pthread_*`, `sem_*`). Each locked call is one atomic step. Interleavings of talk and a worker on one buffer are covered only as sequences of atomic calls (`BufferTrace`). The `Relay` lemmas take the order where talk broadcasts before the worker polls.
- Sockets (`socket`, `bind`, `listen`, `accept`, `getpeername`): an accepted socket is an integer. Each `write` result comes from an oracle, and the `strlen` byte count is not modelled: a write of the empty slot is a write like any other.
- `usleep` polling, all `verbose` logging, and main.c (argument parsing, serial setup, thread start).
- TalkerInfo: the connection manager is never NULL here. main.c does not check the result of newconnectionmgr, and writetoconnections locks the manager without a NULL check, so a failed allocation there would be dereferenced; that crash is not modelled.
- Accept: assumes newconnection succeeds. As written, a NULL connection would make addconnection return -1 and then be passed to destroyconnection, which dereferences it.
- MultiListen: does not restate that each new connection is freshly allocated with an empty buffer. Accept states that one socket at a time. MultiListen states that the new connections head the list, newest first, and are none of the old ones.
- The result of `pthread_create` and the leaked `pthread_t` are ignored, as in the source. Freeing `listenerinfo` is not modelled.
- destroymsgbuffer and destroyconnectionmgr only free memory. destroyconnection is modelled as marking the connection unusable.
- `int` overflow of `writeindex`: integers are unbounded. In C, about two billion failed puts would overflow it.
- NUL characters inside an input line: strings are C strings. A line with an embedded NUL would be cut short by `strncpy` and `strlen`, which the model does not do.
- Get: the copy into the caller's buffer is the first `length` characters. When the slot is at least as long as the buffer, C's `strncpy` leaves the copy unterminated, so what the caller then reads runs on into whatever follows; the model gives the terminated prefix instead. The worker always passes 88, which the slot never fills.
- GetTakesOldest: promises the whole message only for a caller buffer of 88 bytes or more; for a shorter buffer the model's terminated prefix is not what C leaves when the slot fills the buffer (see Get).
- getmsg's `buf->readindex = (++buf->readindex % MSGBUFFERELEMENTS)` modifies the read cursor twice without a sequence point. It is modelled as `(readindex + 1) % 20`.
- fgets read errors: only the end of the stream is modelled.
- The endless loops of talk and listenproc run for a given number of rounds.
- `nextqnum`, `zip` and `tickinterval` are unused and left out.

## Findings

| source | as written | input that shows it | evidently intended | confidence | as-written member | corrected member |
|---|---|---|---|---|---|---|
| msgbuffer.c:144-150 | `++buf->writeindex` runs before the full test and is not undone when putmsg reports full | twenty putmsg calls into a new buffer and then 21 getmsg calls: put 20 fails, and the gets return slot 0, messages 1 to 19, then slot 0 again | a full buffer refuses the message and is left as it was, so later gets keep returning messages in put order | high; not executed | BufferTrace.OncePutFailsSlotsReplay | MsgBuffers.PutIntendedDropsNewest |
| talk.c:97-98 | the fgets result is not checked, so at the end of the stream the old buffer is filtered again on every turn | a stream whose last line is `$GPGGA...\n`: the turn after it broadcasts that line a second time | stop (or wait) at the end of input, so each sentence is forwarded once | high; not executed | Talker.EndOfInputRebroadcasts | Talker.UntilEndForwardsEachOnce |

The operations follow the code as written. The corrected definitions are `MsgBuffers.PutIntended` and `Talker.BroadcastsUntilEnd`, each with its intended property proved. `Relay.RelayForwardsSentences` and `Relay.RelayWritesSentences` use the corrected talker.
