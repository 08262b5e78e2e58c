# A verified model of adb, fastboot and mkbootfs

The model covers the parts of Android's `system/core` in which many functions must keep one
promise together: adb's multiplexed streams and the sockets, listeners and event loop under
them, the in-process pipe of the Windows port, and the byte formats of adb, fastboot and
mkbootfs. Every statement below is proved for all inputs, all interleavings and all sizes of
partial reads and writes.

| module | what it models |
|---|---|
| `StreamProtocol` | one adb stream: two local sockets, two packet channels, flow control and byte order |
| `StreamProgress` | what keeps such a stream going, and how it ends |
| `LocalSocket` | the local asocket of such a stream, with its read and write loops |
| `Mux` | many streams over one connection, with ids and tables of sockets |
| `Sockets` | the asocket and listener heap of one process, its lists, and teardown |
| `SocketLaws` | what each event of that process sends and changes, told from the state before it |
| `BipBuffer`, `BipWakeup` | the two-region circular buffer, and its locks, flags and events |
| `EventLoop` | fdevent over `select()` |
| `Packets`, `FdIo` | the 24-byte packet header, its checksum, and exact reads |
| `Requests`, `HexText` | length-prefixed requests and the serial number in front of them |
| `Sync` | push, pull and stat of the file sync protocol, client against server |
| `Sparse` | fastboot's re-blocking of sparse images |
| `Cpio`, `Mkbootfs` | the newc archive, a reader for it, and the walk over a directory tree |
| `Bytes`, `Lists` | byte strings and lists without repetition |

The main results:

- In every run of a stream there is exactly one credit per direction while both ends are open
  (`CreditConservation`). What comes out is a prefix of what went in, and after a close by the
  peer it is all of it exactly when no late end of file and no failing write met the closing
  socket (`StreamIntegrity`). From every reachable state of an open stream every schedule delivers
  everything under way (`NoDeadlock`). Every stream of every reachable pair of processes is such a
  run, whatever the other streams do (`StreamsAreIndependent`), and opening one on an idle
  connection always gives such a stream (`OpeningCompletes`).
- Every event keeps the socket heap in order, including teardown loops that free what they walk
  over (`StepOk`, `CloseAllSockets`, `RunTransportDisconnects`), and sends and changes exactly
  what it should (`RunLaw`).
- The Windows pipe is a FIFO of 4096 bytes (`Transfer`), and no interleaving of a reader, a
  writer and a closer loses a wake-up (`NoLostWakeup`, `CloseWakesAll`).
- The event loop's table, sets, flags and pending list agree after every operation. In every run
  each callback gets exactly the events reported since its last one, less what `fdevent_set` took
  away, and no reported event is lost (`RunLoop`).
- Readers undo writers: packets, requests, pushed and pulled files, sparse downloads, archives.

Where the code departs from its own comments or documents, the model follows the code:

- `fdevent_set` subtracts the wanted events instead of keeping them (adb/fdevent.cpp:640-644);
  `SetSignalsUnwanted` gives the exact condition. As a result a closing socket can see a late
  read event and drop its queue: `ClosingSocketCanLoseBytes`.
- protocol.txt says that a CLOSE must not be answered; `handle_packet` answers it once, and the
  exchange still ends (`CloseIsAnsweredOnce`, `ClosesOnce`, `CloseQuiesces`).
- protocol.txt names a CRC; the code sums bytes (`CorruptionPassesIff`).
- adb/fdevent.cpp:446 clears fewer bytes than it added; new slots are modelled as null.
- One SEND may be answered by several FAIL messages; `Env.complaints` holds those of opening.
- A socket that hands data to a local peer is used afterwards although the peer may have freed
  it: `ReaderSurvivesIff` says exactly when. The model's heap is what is left; the program's
  next access is to freed memory.
- `sync_recv` keeps a size in a signed int, so that one of 2^31 or more passes the test against
  the buffer: `OverrunIff` says exactly which messages then overrun it.
- `sync_send` does not look at the result of `write_data_file`: after a read error the server has
  a prefix and the push counts as done (`PushAfterReadError`).
- `install_listener` cannot move a listener to or from no transport (`InstallDiesIff`). The
  program does not ask for it (`InstallNeverDies`); a listener without a transport is installed
  only when it starts.
- A download that failed leaves bytes that the next one sends first (`DownloadIsImage`).
- A file archived as `TRAILER!!!` hides itself and what follows it (`ArchiveRoundTrip`).
- The server opens an existing file without cutting it off; a pushed file is whole only because
  the file was emptied before, and `PushOverOldFile` says what happens when it could not be.
- The client checks a path against the length limit without the mode it appends
  (`PushTakenIff`).

`dafny verify dfyconfig.toml` checks the project.

## Model

| member | source | states |
|---|---|---|
| `StreamProtocol.StepInv` | adb/sockets.cpp:135-391 | every callback and every packet of either end keeps the life cycle, the credits and the byte order of both directions |
| `StreamProtocol.RunInv` | adb/adb.cpp:456-527 | the same for every run from a state in order |
| `StreamProtocol.ControlClose` | adb/sockets.cpp:223-258 | closing an end keeps the life cycle and the credits, and its A_CLSE is the last packet it sends |
| `StreamProtocol.CreditConservation` | adb/sockets.cpp:260-380 | over all runs: exactly one credit per direction while both ends are live, at most one afterwards, so never a second A_WRTE in flight or queued |
| `StreamProtocol.StreamIntegrity` | adb/sockets.cpp:135-186 | over all runs and all partial writes: bytes written are a prefix of bytes read; after the peer's A_CLSE they are all of them if and only if no late end of file and no failing write met the socket while it was closing |
| `StreamProtocol.LossRun` | adb/sockets.cpp:240-248 | in every run an end is destroyed with bytes queued if and only if such an event happened to it |
| `StreamProtocol.ClosingSocketCanLoseBytes` | adb/sockets.cpp:349-379 | a run in which end of file seen late on a closing socket loses a queued byte |
| `StreamProgress.NoDeadlock` | adb/sockets.cpp:188-193 | at any point of a run with both ends live the stream can settle, all that was read being written and both ends free to send; and every schedule without new reads and failures goes on until it has, within a number of steps fixed beforehand |
| `StreamProgress.EveryScheduleSettles` | adb/sockets.cpp:268-315 | however the descriptors divide the bytes and whatever the order of events, each step lowers the work left, nothing is closed or read, and no step is possible only when the stream has settled |
| `StreamProgress.CanSettle` | adb/sockets.cpp:478-487 | a schedule that settles the stream, from any state in order |
| `StreamProgress.WriteFollowsReady` | adb/sockets.cpp:318-371 | in every run the A_WRTEs an end sent, and its go-ahead if it still has it, are paid for by A_OKAYs it received or the go-ahead it started with |
| `StreamProgress.ClosesOnce` | adb/sockets.cpp:489-500 | in every run each end sends at most one A_CLSE |
| `StreamProgress.LeavesIff` | adb/sockets.cpp:135-315 | an open end leaves the list if and only if it is closed, its peer is lost, it receives A_CLSE, or a write to its descriptor fails |
| `StreamProgress.ClseSentIff` | adb/sockets.cpp:223-258 | the other end is told: A_CLSE is sent if and only if an open end leaves the list, unless its peer was gone first |
| `StreamProgress.EndsLeave` | adb/sockets.cpp:223-258 | each way of leaving is possible: an open end that closes sends A_CLSE, one whose peer is lost sends nothing, a late end of file destroys a closing one with its queue |
| `StreamProgress.CloseIsAnsweredOnce` | adb/adb.cpp:491-512 | an end that receives A_CLSE sends its own if and only if it was open, and from then on neither end is live |
| `StreamProgress.CloseQuiesces` | adb/adb.cpp:491-512 | over every run from a state in which neither end is live: the channels only drain, no A_CLSE is added, nothing is read |
| `StreamProgress.QuietStep` | adb/adb.cpp:491-512 | in such a state an arriving packet, an echoed A_CLSE among them, changes no socket |
| `LocalSocket.Asocket.WriteQueue` | adb/sockets.cpp:269-298 | for any results of adb_write: exactly the bytes taken are written, in order, and exactly the rest stays queued |
| `LocalSocket.Asocket.Enqueue` | adb/sockets.cpp:135-186 | for any results of adb_write the socket does the protocol's A_WRTE step |
| `LocalSocket.Asocket.Writable` | adb/sockets.cpp:268-315 | and the protocol's write step |
| `LocalSocket.Asocket.Readable` | adb/sockets.cpp:318-380 | for any sizes of adb_read everything there is, up to one payload, goes out as one A_WRTE; end of file closes the socket unless a full payload came first |
| `LocalSocket.ReadIsSteps` | adb/sockets.cpp:318-380 | a read event is at most two steps of the stream |
| `Mux.StepAOk` | adb/adb.cpp:456-527 | every step of a process keeps ids and bindings in order: sockets and messages name their partners, an A_OPEN is answered once |
| `Mux.ViewStep` | adb/adb.cpp:472-527 | for any two paired sockets a step of a process is exactly one event of the one-stream protocol: the socket's own events and the arrival of its partner's messages, and nothing for all else |
| `Mux.WorldRunOk` | adb/sockets.cpp:66-104 | both facts in every reachable pair of processes |
| `Mux.ConnectOpens` | adb/sockets.cpp:556-575 | a connect adds a waiting socket under a new id and sends its A_OPEN, and nothing else changes |
| `Mux.OpenIsAccepted` | adb/adb.cpp:456-470 | an A_OPEN for a service that exists links a new socket to the opener as a stream at its start, is answered with exactly A_OKAY(new id, x), and changes no other socket |
| `Mux.OpenIsRefused` | adb/adb.cpp:456-470 | any other is answered with exactly A_CLSE(0, x), and nothing else changes |
| `Mux.RefusalCloses` | adb/adb.cpp:491-512 | that answer takes the waiting opener off the list, sends nothing and changes no other socket |
| `Mux.OkayBinds` | adb/adb.cpp:472-489 | an A_OKAY binds the waiting opener to its sender and lets it send |
| `Mux.OpeningCompletes` | adb/adb.cpp:456-489 | on an idle connection of any reachable pair of processes, connect, A_OPEN and A_OKAY end with two linked open sockets, each free to send, and nothing under way |
| `Mux.StreamsAreIndependent` | adb/sockets.cpp:466-500 | each stream of a reachable pair of processes, whichever opened it, is a run of the one-stream protocol, so its bytes are in order and its credit is conserved |
| `Mux.EveryMoveHappens` | adb/adb.cpp:393-535 | at every point of every run each action of either process is exactly its event at its end of each stream |
| `Mux.IdsAreUnique` | adb/sockets.cpp:93-104 | ids are not 0, were given out, and an opener has at most one partner |
| `Sockets.CloseOk` | adb/sockets.cpp:196-258 | closing a socket and its peer keeps the heap in order, changes no other socket, and unlinks exactly what was freed |
| `Sockets.CloseShrinks` | adb/sockets.cpp:119-133 | each close shortens the list and spares sockets that do not concern the transport |
| `Sockets.CloseAll` | adb/sockets.cpp:119-133 | close_all_sockets ends; afterwards no listed socket is on the transport or has a peer there, and all others are unchanged |
| `Sockets.FreeListenerOk` | adb/adb_listeners.cpp:86-107 | freeing a listener keeps names, list and registrations in agreement |
| `Sockets.RebindOk` | adb/adb_listeners.cpp:207-219 | after rebinding the listener is registered with exactly its new transport |
| `Sockets.AddListenerOk` | adb/adb_listeners.cpp:223-269 | a listener under a new name is registered with exactly its transport |
| `Sockets.InstallOk` | adb/adb_listeners.cpp:188-274 | every outcome keeps one listener per local name and every registration in agreement; unless one was installed the heap is unchanged, and if one was it has the name, destination and transport asked for; listeners of other names are unchanged |
| `Sockets.InstallFailsIff` | adb/adb_listeners.cpp:188-274 | each failure, if and only if: a smart-socket listener has the name; another has it and must not be rebound; none has it and the name cannot be bound |
| `Sockets.InstallDiesIff` | adb/adb_listeners.cpp:214-218 | install_listener follows a null pointer if and only if it may rebind and is to move a listener of that name, not a smart-socket one, to or from no transport |
| `Sockets.InstallNeverDies` | adb/adb.cpp:760-768 | if only smart-socket listeners are ever installed without a transport, as the callers do, no install with a transport dies in any run |
| `Sockets.CallbackUnlinks` | adb/transport.cpp:83-93 | a disconnect callback removes its own entry and no other, so the saved next entry is still on the list |
| `Sockets.RunDisconnects` | adb/transport.cpp:83-93 | afterwards the transport's list is empty and other transports' lists are unchanged |
| `Sockets.DisconnectedIsUnreferenced` | adb/sockets.cpp:517-554 | afterwards no remote socket and no listener refers to the transport |
| `Sockets.AddLocalOk` | adb/sockets.cpp:93-104 | a new local socket gets an id no listed socket has, and keeps the heap in order |
| `Sockets.NewPairOk` | adb/adb.cpp:456-470 | accepting an A_OPEN, or a connection to a smart socket, keeps the heap in order |
| `Sockets.DataOk` | adb/adb.cpp:514-527 | every outcome of an A_WRTE keeps the heap in order |
| `Sockets.WritableOk` | adb/sockets.cpp:268-315 | every outcome of a write event keeps the heap in order |
| `Sockets.AttachOk` | adb/sockets.cpp:535-554 | binding a new remote or smart socket to a listed one keeps the heap in order |
| `Sockets.SmartRemoteOk` | adb/sockets.cpp:824-839 | handing a smart socket's peer to a transport keeps the heap in order |
| `Sockets.SetTransportOk` | adb/adb.cpp:829-833 | choosing a transport keeps the heap in order, and the transport then concerns the client |
| `Sockets.SmartHostOk` | adb/sockets.cpp:775-802 | handing it to a host service keeps the heap in order |
| `Sockets.Find` | adb/sockets.cpp:66-82 | what it returns is listed, has the id, and is bound to the peer id if one is asked for |
| `Sockets.StepOk` | adb/adb.cpp:456-527 | every packet, socket event, read handed to a local peer, teardown and listener operation keeps the heap in order |
| `Sockets.HeapInvariant` | adb/sockets.cpp:223-258 | in every reachable heap peers point at each other, every listed id is not 0 and was given out, listed ids are distinct, closing sockets have neither id nor peer, a remote socket is on its transport's list and on no other, once |
| `Sockets.ReaderSurvivesIff` | adb/sockets.cpp:344-379 | after a socket has handed data to a local peer it is still allocated, as the rest of the callback takes for granted, if and only if not all three hold: the write failed, the peer had nothing queued, the socket had nothing queued |
| `Sockets.ReaderCanBeFreed` | adb/sockets.cpp:135-163 | a reachable heap in which it is not: a host service with output for a client that has gone |
| `Sockets.IdsNeverReused` | adb/sockets.cpp:93-104 | over all runs a listed socket keeps its id, and a newly listed one has an id never given out before |
| `Sockets.Adb.FindLocal` | adb/sockets.cpp:66-82 | the search finds the socket, and when it returns null no listed socket matches |
| `Sockets.Adb.CloseSocket` | adb/sockets.cpp:223-258 | the state after close is the specified one, with every invariant kept |
| `Sockets.Adb.CloseAllSockets` | adb/sockets.cpp:119-133 | the loop that restarts after each close ends in the specified state |
| `Sockets.Adb.RunTransportDisconnects` | adb/transport.cpp:83-93 | the loop that saves the next entry never follows a stale one and ends in the specified state |
| `Sockets.Adb.InstallListener` | adb/adb_listeners.cpp:188-274 | status and new state in each case: found, not to be rebound, rebound, new, and the rebinding from or to no transport that is fatal |
| `Sockets.Adb.RemoveAllListeners` | adb/adb_listeners.cpp:176-186 | exactly the smart-socket listeners stay, unchanged, and no socket changes |
| `Sockets.Adb.Handle` | adb/adb.cpp:393-535 | any event moves the program's state as specified and keeps it in order |
| `Sockets.RunEvents` | adb/sockets.cpp:49-133 | so does any sequence of events from the start: the state is the one whose invariant is proved |
| `SocketLaws.FindIff` | adb/sockets.cpp:66-82 | find_local_socket returns a socket if and only if it is the listed one with that id, bound to the peer id if one is asked for |
| `SocketLaws.FindNone` | adb/sockets.cpp:66-82 | and null if and only if there is none |
| `SocketLaws.CloseSays` | adb/sockets.cpp:489-500 | closing a local socket with a remote peer sends exactly one A_CLSE, its own id first and then the peer's, and any other close sends nothing |
| `SocketLaws.CloseAllSays` | adb/sockets.cpp:119-133 | close_all_sockets sends exactly the A_CLSEs of the sockets it closes, in the order of the list |
| `SocketLaws.SentLaw` | adb/adb.cpp:456-527 | for every event, from the heap before it, exactly the packets sent: A_OKAY(own id, peer id) for data fully written and for a drained queue, the answer to an A_OPEN, the A_CLSEs of what is closed, and nothing else |
| `SocketLaws.CloseGone` | adb/sockets.cpp:223-258 | after a close the socket and its peer are off the list, freed or, if local with bytes queued, on the closing list; everything else is unchanged |
| `SocketLaws.DisconnectSpares` | adb/transport.cpp:83-93 | a disconnect changes no socket that is neither on the transport nor has a peer there |
| `SocketLaws.StepLaw` | adb/adb.cpp:456-527 | for every event, from the heap before it, what becomes of the sockets: A_OKAY binds a socket that waits, A_CLSE and end of file close the socket they are for, A_WRTE is queued, written or closes it, and no other socket changes |
| `SocketLaws.RunLaw` | adb/adb.cpp:393-535 | both laws at every point of every run |
| `BipBuffer.Bip.constructor` | adb/sysdeps_win32.cpp:889-904 | empty, writable, not readable |
| `BipBuffer.Bip.Close` | adb/sysdeps_win32.cpp:906-917 | both events are set and what is held stays |
| `BipBuffer.Bip.Write` | adb/sysdeps_win32.cpp:928-1014 | accepts exactly as many bytes as fit, at least one, at the end of the contents, open or closed, and fails exactly when closed and full; flags and events stay in agreement and the asserts hold |
| `BipBuffer.Bip.Read` | adb/sysdeps_win32.cpp:1017-1108 | returns exactly as many bytes as there are, at least one, oldest first, open or closed, and fails exactly when closed and empty; flags and events stay in agreement and the asserts hold |
| `BipBuffer.FifoOrder` | adb/sysdeps_win32.cpp:813-838 | what was accepted is what was delivered followed by what is held |
| `BipBuffer.Transfer` | adb/sysdeps_win32.cpp:928-1108 | every sequence of calls, before and after a close, does what a FIFO of 4096 bytes does |
| `BipWakeup.StepInv` | adb/sysdeps_win32.cpp:939-960 | every step of reader, writer or closer keeps flags, events, lock and bytes in agreement |
| `BipWakeup.RunInv` | adb/sysdeps_win32.cpp:1027-1054 | so does every interleaving |
| `BipWakeup.EventsAgree` | adb/sysdeps_win32.cpp:1002-1008 | before close, whenever the lock is free, each event is set exactly when its flag is, and each flag exactly when there is something to move |
| `BipWakeup.NoLostWakeup` | adb/sysdeps_win32.cpp:1091-1100 | no thread sleeps while it could move bytes and the lock is free |
| `BipWakeup.NeverBothBlocked` | adb/sysdeps_win32.cpp:939-960 | reader and writer are never both asleep |
| `BipWakeup.CloseWakesAll` | adb/sysdeps_win32.cpp:906-917 | after a close, which takes no lock, a thread that still sleeps is woken by the other's very next step |
| `BipWakeup.AssertsHold` | adb/sysdeps_win32.cpp:1056-1064 | a thread that found its flag set has at least one byte to move |
| `BipWakeup.OneInside` | adb/sysdeps_win32.cpp:939-940 | the lock excludes the two from each other |
| `BipWakeup.RunSound` | adb/sysdeps_win32.cpp:1027-1054 | every reachable state is in order as seen by either thread, which the following ask for |
| `BipWakeup.AloneRuns` | adb/sysdeps_win32.cpp:939-960 | the steps of one thread alone, of which the following speak, are turns of a run, for either thread |
| `BipWakeup.CallMoves` | adb/sysdeps_win32.cpp:962-1014 | a call that may enter and has something to move moves it and returns: the bytes change sides, its flag and event say whether any are left, the other's are set, the lock is free |
| `BipWakeup.CallWaits` | adb/sysdeps_win32.cpp:939-960 | a call that may enter and has nothing to move sleeps, or fails if the buffer is closed |
| `BipWakeup.CallEnters` | adb/sysdeps_win32.cpp:939-960 | a sleeper that is woken tries again, or fails if the buffer was closed |
| `BipWakeup.CloseFinishes` | adb/sysdeps_win32.cpp:906-917 | close, in five steps, sets both events and changes nothing else but the closed flag |
| `EventLoop.AfterSetBits` | adb/fdevent.cpp:626-650 | every bit afterwards: the mask is the one asked for, other flags are kept; if that is a change, a pending fdevent loses exactly the events asked for and stays pending if and only if some are left |
| `EventLoop.SetSignalsUnwanted` | adb/fdevent.cpp:626-650 | an unwanted event is not signalled if and only if every signalled event was wanted, and then, if the mask changes, none is signalled at all |
| `EventLoop.BitsIff` | adb/fdevent.cpp:405-417 | read, write and error events are those of the sets of that name, and no other is reported |
| `EventLoop.OwedIff` | adb/fdevent.cpp:503-511 | an event is owed to an fdevent if and only if it was reported and since then the fdevent was neither called nor renewed nor the event taken away |
| `EventLoop.NoneLost` | adb/fdevent.cpp:681-695 | a reported event is still owed, or was given to a call, or was taken away by fdevent_set or by removing the fdevent |
| `EventLoop.Loop.Grow` | adb/fdevent.cpp:423-450 | the table holds the descriptor, old slots are kept, new ones are null |
| `EventLoop.Loop.Install` | adb/fdevent.cpp:591-607 | exactly which descriptors are refused; the fdevent is then in its slot and everything else is as before |
| `EventLoop.Loop.Disconnect` | adb/fdevent.cpp:262-274 | select_n stays above every registered descriptor, the sets lose the descriptor |
| `EventLoop.Loop.Detach` | adb/fdevent.cpp:452-468 | an active fdevent is always found in its slot, so "out of sync" is not reached, and the slot is cleared |
| `EventLoop.Loop.Remove` | adb/fdevent.cpp:609-623 | any fdevent, active or not, is then off the table, the sets and the pending list |
| `EventLoop.Loop.Set` | adb/fdevent.cpp:626-650 | sets, flags and pending list agree with the new mask |
| `EventLoop.Loop.Signal` | adb/fdevent.cpp:405-417 | a descriptor with events is pending once, with those events added; "missing fde" is not reached |
| `EventLoop.Loop.FdCheck` | adb/fdevent.cpp:300-316 | exactly the registered descriptors that the system refuses |
| `EventLoop.Loop.Collect` | adb/fdevent.cpp:399-418 | the scan that stops after n bits misses no reported descriptor, and reports each once, in order |
| `EventLoop.Loop.Process` | adb/fdevent.cpp:360-419 | every registered descriptor gets exactly the reported events and is pending exactly when it was or got some |
| `EventLoop.Loop.Force` | adb/fdevent.cpp:513-570 | a forced read is added to a pending fdevent, or is delivered at once to one that had no events |
| `EventLoop.Loop.Perform` | adb/fdevent.cpp:591-650 | what one operation of a callback does to the fdevents: which installs succeed, what removing, setting or forcing one leaves of it, and that no other changes |
| `EventLoop.Loop.Callback` | adb/fdevent.cpp:503-511 | a callback does its operations one after the other; nothing is added to the pending list, its order is kept, and only fdevents that were removed or set are taken off |
| `EventLoop.Loop.Dequeue` | adb/fdevent.cpp:488-501 | the first pending fdevent, which is registered and has events |
| `EventLoop.Loop.CallNext` | adb/fdevent.cpp:503-511 | the callback of the first pending fdevent gets exactly the events reported since its last call, less what fdevent_set took away, never none; when it starts the fdevent has no events and is not pending |
| `EventLoop.Loop.Dispatch` | adb/fdevent.cpp:681-695 | the inner loop ends with nothing pending and no event left at any fdevent; the pending fdevents are called in order, each at most once, and one that is not called was removed or set by an earlier callback |
| `EventLoop.RunLoop` | adb/fdevent.cpp:681-695 | for any number of rounds and any callbacks: table, sets, flags and list agree, an fdevent that is not pending has no events, every round ends, every call gets exactly what is owed, and each report is followed by a call that gets it or by what took it away |
| `FdIo.ReadExactly` | adb/adb_io.cpp:46-73 | exactly len bytes however they arrive, or failure exactly when the input is shorter |
| `Packets.Checksum` | adb/transport.cpp:1077-1094 | the loop computes the byte sum modulo 32 bits, and no wrap happens up to the payload limit |
| `Packets.RemoteRead` | adb/transport_local.cpp:49-72 | succeeds exactly on a well-formed packet, however its bytes arrive, and stops behind it |
| `Packets.ParseEmit` | adb/transport.cpp:203-217 | a sent packet is read back with command, both ids, payload and length as sent, both checks pass, and the rest is untouched |
| `Packets.StreamRoundTrip` | adb/transport_local.cpp:49-84 | every sequence of packets survives the wire: as many, in order, the k-th with the command, ids, payload and length of the k-th sent |
| `Packets.WireLayout` | adb/transport.cpp:203-217 | the bytes on the wire: command, arg0, arg1, length, byte sum, complement of the command, payload |
| `Bytes.WordBytes` | adb/transport_local.cpp:49-84 | words go out with the least significant byte first |
| `Packets.ParseIff` | adb/transport.cpp:1062-1094 | a packet is taken if and only if header and payload are there, the magic is the complement, the length is within the limit and the sum agrees; the payload is then what follows the header |
| `Packets.OversizeRefused` | adb/transport.cpp:1062-1075 | a payload over the limit is never read back |
| `Packets.OneByteDetected` | adb/transport.cpp:1077-1094 | the change of any one payload byte makes check_data fail |
| `Packets.CorruptionPassesIff` | adb/transport.cpp:1077-1094 | a payload of the same length passes if and only if it has the same byte sum |
| `Requests.UnhexScan` | adb/sockets.cpp:598-625 | the value of the digits on 32 bits, or 0xffffffff if and only if a character is not a digit |
| `Requests.UnhexHex` | adb/adb_io.cpp:29-36 | unhex undoes the printed length |
| `HexText.DigitCases` | adb/sockets.cpp:598-625 | which characters are digits, in either case, and their values |
| `Requests.Smart.Enqueue` | adb/sockets.cpp:676-737 | the decision depends only on all the bytes collected so far, except for the payload limit |
| `Requests.Deliver` | adb/sockets.cpp:676-737 | the outcome of any sequence of packets |
| `Requests.PrefixWaits` | adb/sockets.cpp:705-737 | a proper prefix of a request waits, the whole is acted on |
| `Requests.ChunkingIsIrrelevant` | adb/sockets.cpp:676-737 | whatever the pieces, nothing happens before the last byte and then exactly the string sent is acted on |
| `Requests.BadLengthFails` | adb/sockets.cpp:708-712 | an empty or overlong string is refused as soon as its length is known |
| `Requests.NotALengthFails` | adb/sockets.cpp:705-712 | so is one whose first four characters are not all hexadecimal digits |
| `Requests.TrailingBytesIff` | adb/sockets.cpp:676-704 | bytes behind the request are ignored, if and only if they do not come in a packet that, with what was there before, exceeds one payload |
| `Requests.NoSerialIff` | adb/sockets.cpp:646-672 | no serial is found if and only if no colon follows, behind the word the string may start with |
| `Requests.PlainSerial` | adb/sockets.cpp:646-672 | a serial without a colon is found again if and only if it is not a prefix word and the command does not look like a port |
| `Requests.HostPortSerial` | adb/sockets.cpp:646-672 | a host:port serial is always found again |
| `Requests.QualifiedSerial` | adb/sockets.cpp:631-655 | so is a word:name serial |
| `Sync.FramingIgnoresErrors` | adb/file_sync_service.cpp:212-265 | where the next request starts does not depend on whether the file could be opened or written |
| `Sync.WholeIsAll` | adb/file_sync_service.cpp:212-250 | an upload that ends whole has all the bytes that an upload without errors has |
| `Sync.ReceiveFrames` | adb/file_sync_service.cpp:212-250 | the DATA messages of any pieces are put together again if and only if the file is open and each piece can be written; the server always ends behind DONE |
| `Sync.SplitFrames` | adb/file_sync_service.cpp:212-237 | any bytes are DATA messages up to DONE or up to where the next message is cut short or malformed |
| `Sync.ReceiveAcross` | adb/file_sync_service.cpp:212-250 | so every input is accounted for: the upload ends at that DONE, or breaks off, told if and only if the message was malformed |
| `Sync.StrToUlOct` | adb/file_sync_service.cpp:328-334 | a mode with a 0 in front is octal |
| `Sync.TargetRoundTrip` | adb/file_sync_service.cpp:322-345 | path and mode come back, whatever commas the path has |
| `Sync.PushOutcome` | adb/file_sync_service.cpp:322-371 | for every push and every error: the server is at the next request, with exactly the content and the replies, OKAY, FAIL with the reason or those of opening, that opening the file and writing its pieces decide |
| `Sync.PushIdentity` | adb/file_sync_client.cpp:337-401 | for every file and every pattern of short reads the server's file equals the client's, with path, requested mode and time, and the server is at the next request |
| `Sync.PushStores` | adb/file_sync_service.cpp:212-258 | without errors on the server it has exactly the bytes that were sent |
| `Sync.SendWithoutMode` | adb/file_sync_service.cpp:336-349 | a request without a mode stores the file with mode 0644 and does not empty it first |
| `Sync.BrokenUpload` | adb/file_sync_service.cpp:212-265 | an upload that breaks off leaves no file and ends the connection, with FAIL for a piece that could not be written and for a malformed message |
| `Sync.FailMsgsSnoc` | adb/file_sync_service.cpp:152-172 | each complaint is a FAIL message of its own, in order |
| `Sync.PushAfterReadError` | adb/file_sync_client.cpp:257-262 | if the client can read only some pieces, the server has exactly those bytes, a prefix that is the whole file if and only if no piece is missing, and still answers OKAY |
| `Sync.PushAllOrNothing` | adb/file_sync_service.cpp:174-265 | if the old file could be emptied or there was none, every pattern of open and write errors leaves the whole file, an empty one, or none, and no other path changes |
| `Sync.PushOverOldFile` | adb/file_sync_service.cpp:181-194 | if it could not, the file equals the client's if and only if the old one was not longer |
| `Sync.PushTakenIff` | adb/file_sync_service.cpp:422-440 | a push is taken if and only if path, comma and mode fit the server's limit |
| `Sync.ServeStat` | adb/file_sync_service.cpp:78-96 | a STAT request is answered for its path and the server is at what follows |
| `Sync.ServeBatch` | adb/file_sync_service.cpp:422-462 | a batch of STAT requests is answered in order |
| `Sync.BadRequestStops` | adb/file_sync_service.cpp:422-462 | a request that is cut short, too long or unknown ends the connection with FAIL and changes no file; QUIT ends it silently |
| `Sync.BatchedStat` | adb/file_sync_client.cpp:184-200 | the k-th reply read is the k-th entry's |
| `Sync.PipelinedStats` | adb/file_sync_client.cpp:700-717 | the answers after sending a whole batch are the files' stats in the order of the list |
| `Sync.PullIdentity` | adb/file_sync_client.cpp:422-514 | for every way the server reads its file the client gets exactly its bytes |
| `Sync.PullMissing` | adb/file_sync_service.cpp:373-382 | a file that is not there is refused: FAIL with the reason, no file changes, and the server is at the next request |
| `Sync.GotIff` | adb/file_sync_client.cpp:422-514 | a pull succeeds if and only if DATA messages and DONE arrive, and then with exactly their bytes and the rest unread |
| `Sync.PushThenPull` | adb/file_sync_service.cpp:373-411 | what was pushed is what is pulled |
| `Sync.WriteDataFile` | adb/file_sync_client.cpp:227-278 | one DATA message per read, in order, the whole file or all that was read before an error |
| `Sync.HandleSendFile` | adb/file_sync_service.cpp:174-265 | the loop computes the specified result and stops behind DONE |
| `Sync.ServeOne` | adb/file_sync_service.cpp:413-468 | one request, answered as specified |
| `Sync.FileSyncService` | adb/file_sync_service.cpp:413-468 | the whole connection, as specified |
| `Sync.SyncRecv` | adb/file_sync_client.cpp:422-514 | the loop computes the specified result, with the signed test of the size, and stops behind DONE |
| `Sync.OverrunIff` | adb/file_sync_client.cpp:487-498 | the buffer is overrun if and only if, after DATA messages that fit, one comes whose size has its top bit set with more bytes behind it than the buffer holds |
| `Sync.OneMessageOverruns` | adb/file_sync_client.cpp:487-498 | one such message is enough |
| `Sparse.ReblockKeeps` | fastboot/protocol.c:223-271 | one callback loses and reorders nothing, and each write is a whole number of blocks |
| `Sparse.HeldExactly` | fastboot/protocol.c:223-271 | exactly how many bytes a callback leaves in the buffer |
| `Sparse.ReblockAllKeeps` | fastboot/protocol.c:223-271 | the same for any sequence of callbacks |
| `Sparse.DownloadIsImage` | fastboot/protocol.c:288-314 | the device receives exactly the image if and only if the buffer was empty to begin with |
| `Sparse.Sender.Write` | fastboot/protocol.c:223-271 | the specified writes and buffer, or, exactly when a transfer fails or is short, what of it reached the device and what stays in the buffer; no "internal error" |
| `Sparse.Sender.Flush` | fastboot/protocol.c:273-286 | the buffer goes out and is empty, or it stays as it is, whatever part of it reached the device |
| `Sparse.Download` | fastboot/protocol.c:288-314 | the writes of a whole download, which leaves the buffer empty |
| `Cpio.Writer.Pad` | cpio/mkbootfs.c:96-99 | zeros up to the next multiple, and no further |
| `Cpio.Writer.Put` | cpio/mkbootfs.c:89-137 | total_size counts the bytes emitted modulo 32 bits, and the entry is as specified |
| `Cpio.EjectLayout` | cpio/mkbootfs.c:89-137 | header and data start at multiples of four, with the name between them |
| `Cpio.HeaderZeros` | cpio/mkbootfs.c:104-126 | owner, times, devices and checksum are 0 |
| `Cpio.HeaderRoundTrip` | cpio/mkbootfs.c:104-126 | inode number, mode, link count 1 and both sizes are read back from a header |
| `Cpio.ReadEntry` | cpio/mkbootfs.c:104-136 | a newc reader gets an entry of a longer archive back |
| `Cpio.ArchiveRoundTrip` | cpio/mkbootfs.c:89-149 | a newc reader gets exactly the entries back if and only if none has the trailer's name |
| `Cpio.ReadStops` | cpio/mkbootfs.c:139-149 | otherwise it gets exactly those before the first such entry |
| `Cpio.Aligned` | cpio/mkbootfs.c:89-149 | every entry is in its place in the finished archive, behind a header with its inode number counted from the first, its mode and its sizes; the length is a multiple of 256 |
| `Mkbootfs.SortPermutation` | cpio/mkbootfs.c:153-155 | sorting by strcmp forgets the order of its input |
| `Mkbootfs.LeIsStrcmp` | cpio/mkbootfs.c:153-155 | the order is strcmp's: a prefix, or smaller at the first difference |
| `Mkbootfs.ArchiveHoldsTree` | cpio/mkbootfs.c:157-271 | the archive of a directory has an entry exactly for each path below it that only kept names lead to, with the archive name, the fixed mode, and as data the file's bytes, the link's target cut to its buffer, or nothing for a directory |
| `Mkbootfs.OneEntryPerPath` | cpio/mkbootfs.c:204-224 | no two entries have the same name, so each path has exactly one |
| `Mkbootfs.DirectoryFirst` | cpio/mkbootfs.c:256-258 | each directory comes before everything in it |
| `Mkbootfs.NamesInOrder` | cpio/mkbootfs.c:204-224 | the entries of a directory's names stand in the order of the names |
| `Mkbootfs.TreeRoundTrip` | cpio/mkbootfs.c:273-282 | a reader gets exactly the tree's entries back if and only if no path in it is archived under the trailer's name |
| `Mkbootfs.WalkFailsIff` | cpio/mkbootfs.c:157-271 | the walk gives up if and only if the directory is not one, or kept names lead from it to something missing or of another kind |
| `Mkbootfs.ArgsFailIff` | cpio/mkbootfs.c:346-357 | the program gives up if and only if that holds of one of the directories given |
| `Mkbootfs.ArgsHold` | cpio/mkbootfs.c:346-357 | the archive has an entry, with that name, mode and data, exactly for each path below one of the directories given |
| `Mkbootfs.ImageRoundTrip` | cpio/mkbootfs.c:346-359 | a reader gets exactly the entries of all directories back from the image, in order, if and only if no path is archived under the trailer's name |
| `Mkbootfs.ImageContents` | cpio/mkbootfs.c:328-362 | what a reader gets from the image is exactly an entry with name, mode and data for each path below one of the directories given |
| `Mkbootfs.WalkDirSame` | cpio/mkbootfs.c:157-228 | two listings of one tree in different orders give the same entries in the same order |
| `Mkbootfs.ArchiveIgnoresReaddirOrder` | cpio/mkbootfs.c:157-228 | and byte-identical archives |
| `Mkbootfs.Archiver.EjectHere` | cpio/mkbootfs.c:89-137 | the name in the buffer always has the length carried along, so "ACK!" is not reached, and the entry has the file's name, fixed mode and data |
| `Mkbootfs.Archiver.ArchiveName` | cpio/mkbootfs.c:204-224 | the two path buffers, extended for one name, are restored behind the recursion |
| `Mkbootfs.Archiver.ArchiveDir` | cpio/mkbootfs.c:157-228 | ejects exactly the specified entries and leaves both buffers as they were |
| `Mkbootfs.Archiver.ArchiveOne` | cpio/mkbootfs.c:230-271 | the same for one path, and failure exactly where the specification fails |
| `Mkbootfs.Archiver.ArchiveTree` | cpio/mkbootfs.c:273-282 | a whole tree under a prefix |
| `Mkbootfs.Archiver.Finish` | cpio/mkbootfs.c:139-149 | the output is then the specified archive |
| `Mkbootfs.Image` | cpio/mkbootfs.c:328-362 | the whole program: the image is the specified archive of all directories given, from which a reader gets exactly the name, mode and data of each path below them; it gives up if and only if there is none, or one is no directory or leads to something that cannot be archived |

## Left out

- System calls, threads, USB and the clock: descriptors are byte strings, and the sizes of reads and writes, failures and select() results are parameters.
- Authentication, CONNECT and SYNC packets, and the online flag: the connection of `Mux` is up throughout; `Sockets.Step` has going offline as an event.
- The transport list, its reference counts and its registration.
- JDWP and device-tracker sockets, notification wrappers and the requests a smart socket dispatches to.
- The epoll variant of fdevent and the copy for Windows.
- What a LIST request lists, symbolic links in the sync protocol, names with a NUL in them, the ownership and permission bits that the server derives from the requested mode, directory creation, and the client's lists of files to copy.
- The canned configuration and fix_stat of mkbootfs: a function parameter.
- Parsing of sparse images, and the fastboot responses around a download.
- Command lines, logging and user interface.
- Mux.StepAOk: reaching the last 32-bit id, which is fatal in the program, is modelled as refusing new sockets.
- Sockets.StepOk: pointers are addresses into a map, and new addresses are parameters of the events.
- Sockets.InstallOk: a bind that fails is an address of 0, and memory does not run out.
- StreamProtocol.StepInv: a read event forced by the subprocess handler finds data only when reading is enabled.
- BipWakeup.RunInv: WaitForSingleObject does not fail, and a thread that takes nothing from the buffer is not modelled.
- EventLoop.Loop.Update: the descriptor sets have no size; fd_set ends at FD_SETSIZE, below the 32000 descriptors that are accepted.
- EventLoop.Loop.Install: the caller installs only on a free descriptor and an fdevent not in use; refused descriptors are fatal in the program.
- EventLoop.Loop.Dispatch: callbacks are lists of operations on the loop.
- Requests.Deliver: packets are at most the payload limit long, as their sender makes them.
- Sync.PushIdentity: the file system is a map from paths to regular files with the mode that was requested; a mode that is not a number counts as 0 rather than as its leading digits, and strtoul does not overflow.
- Mkbootfs.Archiver.ArchiveTree: paths fit the 8192-byte buffers, which the program does not check; the tree does not change during the walk and regular files are read whole.
