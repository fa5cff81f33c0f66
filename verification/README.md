# rmtdos: a model of the screen mirror, its buffers and its keymaps

rmtdos shows the text screen of a DOS machine in a terminal on Linux, over raw Ethernet, and sends
keystrokes the other way. This project models the parts of it where something can go wrong quietly: the
server's timer tick, which sends the screen a few rows at a time and only when its checksum has changed; the
client that pastes those rows into its copy; the session table with its leases; the pool of receive buffers
that an interrupt handler shares with the main program; the packet handlers on both sides; and the keymap
file, with its linked list and hash index.

Values (frames, tables, entries, runs) are datatypes and sequences. What the programs change in place (slot
array, send buffer, buffer pool, host list, keymap list and buckets) is arrays and classes, whose methods are
proved equal to specification functions; the theorems are about those functions and about all runs of steps
made of them.

## Modules

| file | contents |
|---|---|
| `Lists.dfy` | sequences that stand for linked lists: reversal, no duplicates |
| `Wire.dfy` | byte order, frame layout, the client's frame builders |
| `Sessions.dfy`, `Lease.dfy` | the session table as a map of leases; leases over whole runs; the client's refresh timer |
| `Video.dfy`, `Sweep.dfy` | the frame buffer checksum; which rows each tick sends, over runs of ticks |
| `Client.dfy` | the host list, the packet filter, the screen update, the timer |
| `PoolModel.dfy`, `PoolRuns.dfy`, `BufMgr.dfy` | the buffer pool as a value, under every interleaving with the driver, and in memory |
| `Server.dfy`, `Exchange.dfy`, `Serving.dfy` | the handlers, the tick and the drain in memory; what client and server make of each other's frames; what serving packets comes to over whole runs |
| `Framing.dfy` | every frame of the server's in numbers: lengths, places of the bytes, requests by type |
| `Idle.dfy` | ticks that find no session, in runs of ticks and of the whole system |
| `Mirror.dfy` | server, network and client as one system: safety in every run |
| `Sending.dfy`, `Copying.dfy` | what a run puts on the wire; what the client makes of what arrives: who wrote each byte last |
| `Convergence.dfy`, `View.dfy`, `Progress.dfy`, `Stale.dfy` | exactly when the copy comes to be the screen; the text size and the cursor; that it can; runs after which it never does |
| `KeymapText.dfy`, `KeymapFile.dfy`, `KeymapLines.dfy`, `Keymap.dfy` | trimming, tokens, numbers and hex; the file format; any line with five fields, and lines of the shipped keymaps; list, index and in-place reversal |

## Main results

* **The mirror never shows what was not there** (`Mirror.MirrorIsSafe`): with loss, repetition, reordering, other
  stations' frames, and screen and mode changes at any moment, each byte of the client's copy is blank or was on the
  screen at that place at some tick.
* **The mirror catches up** (`Convergence.MirrorConverges`, `Convergence.MirrorConvergesFromDifference`,
  `Convergence.MirrorConvergesThroughLoss`): if the screen holds still through one sweep and each of its frames is
  delivered at least once after the last differing frame that overlaps it, the copy equals the screen. Frames of an
  earlier sweep may be lost, and leftovers may arrive as long as they are overwritten. From any state with an unrecorded
  checksum a run that does this exists, on a clock that advances with every tick, and a lease just granted always
  suffices (`Progress.FreshLeaseSuffices`).
* **Exactly when it does** (`Convergence.MirrorConvergesIff`, byte by byte `Convergence.ByteMirroredIff`): on a still screen
  the copy comes to be right if and only if the checksum of the screen differs from the one recorded when the last sweep
  began, or the part above the row the sweep has reached is right already (all of it, if no sweep is under way). The
  checksum is global and a session start does not reset it (the field of that name in each session is written and never
  read), so a session that starts during a sweep gets the rows below and then silence, and one that starts after it gets
  nothing.
* **When it does not**: runs from the initial state that leave a served client with a wrong copy, which by
  `Stale.StaysStale` nothing repairs while the screen holds still and no older frame arrives: a session begun after the screen was shown to another, in
  every mode (`Stale.LateSessionInEveryMode`); a change taken back during its sweep with every frame delivered
  (`Stale.RevertedInCommonMode`, 25 rows of 80); a leftover frame that arrives last, in every mode
  (`Stale.LeftoverInEveryMode`). A change that
  keeps the checksum is possible in every mode with two cells (`Sweep.UnseenChange`).
* **Each byte is the last frame's** (`Copying.ByteIsRightIff`): in any run whatever, a byte of the copy is right at the end if
  and only if the last delivered frame that covers it carries the right byte, or none covers it and it was right. The same holds
  of the text size and the cursor (`View.PartIsRightIff`); a cursor that moves over a still screen is not sent
  (`View.CursorIsNotSent`).
* **A server left alone starts over** (`Idle.RestartAfterIdle`, `Idle.NextUpdateIsTheTop`): after a tick that found no
  session the next frames any tick sends begin at the first byte of the screen, and a session that starts then is sent
  exactly the chunks of the screen from the first on, or nothing if its checksum is on record.
* **Leases** (`Lease.SurvivesIffTimely`, `Lease.TwoLossesInThreeTolerated`): a session survives every moment of a run
  exactly when no tick finds its latest refresh more than 182 ticks old; with the client's timer, one start request in
  three is enough. Over any series of polls the client sends a server start requests at exactly those times
  (`Client.TargetsOverPolls`).
* **Exactly once** (`PoolRuns.ExactlyOnce`, `PoolRuns.CopiedPacketArrives`, `PoolRuns.ConsumedInOrderIff`,
  `Serving.InjectedOverRuns`, `Serving.BurstInjectedBackwards`): under every interleaving of interrupts each packet handed over is dispatched once, with
  the size the driver asked for and the bytes it copied; the ready list is a stack, so packets are handled in order of
  arrival if and only if no take ever finds two waiting, and the keystrokes of a burst are injected last packet first.
* **Keymaps** (`KeymapFile.SaveLoadRoundTrip`, `KeymapFile.LoadedKeymapRoundTrip`, `Keymap.SearchesAgree`): saving and
  loading undo each other exactly when every entry has a trimmed description on one line, without a bar, neither empty
  nor a comment, and a sequence of at most 127 bytes; the indexed search and the scan agree on an entry exactly when
  its sequence is unique.

## Where the code and its comments part ways

* The screen checksum is passed a byte count where a word count is asked for (`src/server/session.c:141`), so it reads
  twice the screen. It is modelled so; the frame buffer is therefore a whole 64 KiB segment.
* `src/lib16/video.s:321` says the count is "always 2"; it is the byte count of the screen.
* `keymap_find` returns the earliest loaded match and `_keymap_find` the latest, though both are introduced as the same
  lookup.
* A description consisting of blanks loads as an empty one (`KeymapFile.BlankFieldLoads`), which saving then loses.

## Model

| member | source | states |
|---|---|---|
| `Wire.HtonsInvolution` | src/server/util_asm.s:4-13 | swapping twice is the identity, and the swapped value lies in memory most significant byte first |
| `Wire.HtonlInvolution` | src/server/util_asm.s:16-27 | the same for 32 bits: network order is the two halves in network order, high half first |
| `Wire.SwappedLoads` | src/server/util_asm.s:4-27 | a field loaded little-endian and swapped is its network value, wherever it lies |
| `Wire.ByteOrders` | src/server/util_asm.s:4-27 | the two byte orders and the swap on given numbers |
| `Wire.HeaderParses` | src/common/protocol.h:79-107 | every header field of any frame that begins with a built header reads back as what was put in |
| `Wire.HeaderLayout` | src/common/protocol.h:79-107 | which byte of a header holds what: addresses, ethertype, the four signature bytes, session id, length and type, high bytes first |
| `Wire.SendPacket` | src/client/network.c:94-137 | the bytes of the frame: header for the given address or for six bytes 0xff, then exactly the payload |
| `Wire.SendKeystrokes` | src/client/network.c:154-158 | the bytes of a keystroke frame: four per key in list order, the flags word unswapped |
| `Sessions.Find` | src/server/session.c:42-53 | finds the first slot with this address and id, or says there is none |
| `Sessions.Start` | src/server/session.c:55-78 | the whole table afterwards is the specified one, and the slot is the one it chose |
| `Sessions.Prune` | src/server/session.c:100-115 | stale slots are zeroed, the others untouched, and the count is of those still in use |
| `Sessions.LeaseOf` | src/server/session.c:42-53 | under the invariant the table is a map: a key has a lease exactly when a slot serves it, dated by that slot |
| `Sessions.StartSetsLease` | src/server/session.c:55-78 | a start from a real sender keeps the invariant, sets the client's lease and no other, is refused exactly when the client is unknown and four leases are in force, and touches no other client's slot |
| `Sessions.StartTakesSlot` | src/server/session.c:55-78 | the slot a start takes is the client's own, else the first free one, and holds address, id, the time and no checksum afterwards |
| `Sessions.StartKeepsInvIff` | src/server/session.c:55-78 | exactly which starts keep the table in order: those from a nonzero address, those that find no free slot, and the one that writes a free slot over a free slot |
| `Sessions.PruneDropsStale` | src/server/session.c:100-115 | a tick keeps the invariant and drops exactly the leases the timeout test condemns; slot by slot, a stale one is zeroed and any other stays as it is |
| `Lease.InvariantOverRuns` | src/server/session.c:42-115 | in every run of starts and ticks keys stay distinct, free slots all zero, and leases at most four |
| `Lease.ZeroAddressSticks` | src/server/session.c:100-105 | a slot taken by a zero address with a nonzero id is in no run ever pruned or given to anyone else |
| `Lease.ExpiryTestExact` | src/server/session.c:107-112 | the 32-bit comparison means "older than 182 ticks" if and only if the sum does not overflow |
| `Lease.NoneOverdueInAnyRun` | src/server/session.c:100-115 | after every tick of every run no lease older than 182 ticks is left |
| `Lease.NoneOverdueAfterTick` | src/server/session.c:100-115 | one tick leaves no overdue lease and drops none that is not overdue |
| `Lease.TimelyKeepsLease` | src/server/session.c:74 | a client refreshed in time keeps its lease, dated by its latest refresh, whatever other clients do |
| `Lease.SurvivesIffTimely` | src/server/session.c:101-115 | a session survives every moment of a run if and only if no tick comes more than 182 ticks after its latest refresh |
| `Lease.SendsAtMostThreeSecondsApart` | src/client/main.c:55-59 | with polls at most a second apart the two-second timer sends at most three seconds apart |
| `Lease.TwoLossesInThreeTolerated` | src/client/main.c:270-279 | if of any three consecutive start requests one arrives, the session is in the table at every moment of the run |
| `Video.VideoChecksum` | src/lib16/video.s:302-340 | the register loop computes the checksum of the words from the offset on, with the index wrapping and a zero count running 65536 times |
| `Video.ChecksumVector` | src/lib16/video.s:324-331 | the checksum of given words: bytes swapped, carry lost, top bit back in at the bottom |
| `Video.CopyFromFrameBuffer` | src/lib16/video.s:259-294 | exactly the asked-for bytes of the frame buffer arrive at the destination and nothing else of it changes |
| `Video.StepInjective` | src/lib16/video.s:324-331 | one checksum step distinguishes any two accumulators and any two words |
| `Video.OneCellChangesChecksum` | src/lib16/video.s:324-331 | buffers that differ in exactly one cell have different checksums |
| `Video.TwoCellsMayCollide` | src/lib16/video.s:324-331 | two words can change and leave the checksum as it was |
| `Sweep.ChunkFits` | src/server/session.c:131-176 | in whatever mode and wherever the previous tick left off, a tick that sends sends at least one row, inside the screen, in a frame of at most 1514 bytes |
| `Sweep.ChunkIsFullest` | src/server/session.c:152-166 | a chunk ends the screen, or one more row of two bytes a cell would make its frame longer than 1514 bytes |
| `Sweep.ReachesLastRow` | src/server/session.c:152-179 | a sweep ends in tick ceil(rows / rows per frame) and in no earlier one |
| `Sweep.SweepsAreShort` | src/server/session.c:152-165 | no mode takes more than 34 ticks to be shown |
| `Sweep.ChunksTileScreen` | src/server/session.c:152-179 | each byte of the screen is in exactly one chunk of a sweep, and that chunk is among those sent |
| `Sweep.SweepUnderWay` | src/server/session.c:131-179 | from its first tick on a sweep sends its chunks one a tick in order, whatever happens to the screen, and records the checksum it started from |
| `Sweep.SweepSendsItsChunks` | src/server/session.c:131-179 | a stable screen is sent as exactly the chunks of one sweep, after which the sweep rests |
| `Sweep.RestingStaysSilent` | src/server/session.c:138-149 | an unchanged screen whose checksum is recorded is never sent again, to old sessions or new |
| `Sweep.SilentIffResting` | src/server/session.c:131-149 | served ticks of a still screen send nothing if and only if the sweep was already at rest |
| `Sweep.RevertedChangeIsNotResent` | src/server/session.c:138-149 | a screen that changes during its sweep and is back at the end is not sent again, whatever was sent of it |
| `Sweep.DifferentChecksumRestarts` | src/server/session.c:134-149 | a still screen with an unrecorded checksum: the sweep under way is finished and one starts at row 0 within the ticks of a sweep |
| `Sweep.SweepStartsIff` | src/server/session.c:134-149 | a still screen is sent from its first row if and only if its checksum is not the recorded one |
| `Sweep.SentBytesIff` | src/server/session.c:131-179 | exactly which bytes of a still screen are sent, from any state: all if the checksum is not on record, else those below the row a sweep under way has reached |
| `Sweep.OnlyRowsBelow` | src/server/session.c:134-149 | with the checksum on record no row above the sweep's place is sent, to anyone |
| `Sweep.OneCellChangeRestarts` | src/server/session.c:138-149 | a change in one cell since the last sweep began always starts another |
| `Sweep.ScreenIsChecked` | src/server/session.c:141 | every visible cell is among the words the checksum reads, and as many cells again beyond the screen |
| `Sweep.ChangeBeyondScreenIsSeen` | src/server/session.c:141 | a change of one cell anywhere in twice the screen changes the checksum, so one that nobody can see has the screen sent again |
| `Sweep.UnseenChange` | src/server/session.c:138-149 | in every mode with at least two cells, two screens that look different and have one checksum |
| `Sweep.LitCell` | src/server/session.c:138-149 | in every mode a screen that shows something and has a checksum other than the one on record at first |
| `Idle.TopComesFirst` | src/server/session.c:134-149 | from row 0, whatever modes and screens follow: the first chunk sent begins at row 0, and until then state and checksum stay |
| `Idle.RestartAfterIdle` | src/server/session.c:117-120 | a tick without a session in the middle of any run sends nothing, leaves the sweep at row 0 and the checksum as it was, and the next chunk any later tick sends begins at row 0 |
| `Idle.ServedFromTheTop` | src/server/session.c:134-179 | from row 0 served ticks of a still screen send nothing if its checksum is on record, else its chunks from the first on |
| `Idle.ServedAfterIdle` | src/server/session.c:117-179 | so what a session gets that starts after a tick which found none is exactly that, whatever came before the tick |
| `Idle.IdleTickInRun` | src/server/session.c:117-120 | in a run of the whole system: a tick after which no slot is in use sends nothing and leaves row 0 and the checksum on record |
| `Idle.NextUpdateIsTheTop` | src/server/session.c:117-179 | the next frames that any tick sends after it begin at the first byte of the screen, whatever becomes of screen, mode and sessions in between |
| `Client.HostList.FindByMac` | src/client/hostlist.c:40-48 | the first host with this address, or none |
| `Client.HostList.Allocate` | src/client/hostlist.c:58-67 | the first free place gets a blank host, or the list is full and unchanged |
| `Client.HostList.Register` | src/client/hostlist.c:83-109 | the whole list after a status response, known sender or not, list full or not |
| `Client.HostList.ProcessIncomingVideoText` | src/client/main.c:157-186 | the whole list after a screen update, the unknown sender and the out-of-bounds update included |
| `Client.HostList.ProcessSocketIo` | src/client/main.c:188-229 | the filter by address, signature and session id, and the whole list after any frame |
| `Client.IgnoredFrames` | src/client/main.c:188-229 | a frame for another address, without the signature bytes, for another session or of a type other than 4 and 6 changes nothing, nor does an update that reaches past 32768 bytes or comes from an unknown server, nor an unknown server's status response if the list is full |
| `Client.HostList.ProcessTimers` | src/client/main.c:270-284 | an address is sent a start request if and only if some host has it, is controlled and was last sent one more than 2,000,000 microseconds ago; exactly these hosts' timers restart, and nothing else of the list changes |
| `Client.DueInOrder` | src/client/main.c:270-279 | the targets are the addresses of the due hosts, each of these hosts once, in the order of the list |
| `Client.TargetsDistinct` | src/client/main.c:270-279 | no address is sent two requests at one poll |
| `Client.TargetsOverPolls` | src/client/main.c:270-279 | over any series of polls the times at which a controlled server is among the targets are those of the timer the lease argument is about, and any other server never is |
| `Client.TimerOfHost` | src/client/main.c:274-279 | the times at which a host is sent start requests are those of the timer the lease argument is about |
| `Client.ReceiveKeepsHosts` | src/client/hostlist.c:83-109 | no server ever appears twice, a frame changes no host but its sender's, and no host is forgotten |
| `Client.StatusRegistersSender` | src/client/hostlist.c:83-97 | after a status response its sender is known if and only if it was or a place was free |
| `PoolModel.AcquireKeepsInv` | src/server/bufmgr.c:69-86 | acquiring keeps the lists exact and the buffers clean, and hands out a zeroed buffer |
| `PoolModel.MarkReadyKeepsInv` | src/server/bufmgr.c:90-101 | marking keeps the invariant |
| `PoolModel.TakeKeepsInv` | src/server/bufmgr.c:103-117 | taking keeps the invariant |
| `PoolModel.ClearKeepsInv` | src/server/bufmgr.c:119-122 | clearing with interrupts still on keeps the invariant |
| `PoolModel.LinkKeepsInv` | src/server/bufmgr.c:123-130 | linking a cleared buffer keeps the invariant: free buffers are all zero |
| `PoolModel.CountsAddUp` | src/server/bufmgr.c:14-22 | free, ready, pending and user buffers add up to the pool |
| `PoolModel.ShortPacketsRejected` | src/server/protocol.c:163-164 | a clean buffer with fewer than 18 bytes of packet never carries our signature |
| `PoolRuns.InvariantOverRuns` | src/server/bufmgr.c:48-131 | in every interleaving each list holds exactly the buffers of its state once, the consumer owns exactly the buffer it works on, waiting packets are the driver's bytes, and every packet is accounted for |
| `PoolRuns.CallsAreCounted` | src/server/pktdrv.c:28-46 | in every run the driver is given a buffer at exactly the first calls that ask for at most 1504 bytes while one is free, and the two counters count these and the others |
| `PoolRuns.ExactlyOnce` | src/server/bufmgr.c:90-131 | each packet handed over is dispatched once, held, or waiting, never two of these; a dispatched one is what the driver's request and copies make of a zeroed buffer; with the list empty and the consumer idle all were dispatched and released |
| `PoolRuns.CopiedPacketArrives` | src/server/pktdrv.c:28-46 | a first call, one copy and a second call for one buffer, with anything in between: the handler is given the size asked for, the bytes copied, and zeros behind them |
| `PoolRuns.BuffersHandedOutClean` | src/server/bufmgr.c:69-86 | in every reachable state the driver is given a zeroed buffer |
| `PoolRuns.RuntsNeverPass` | src/server/protocol.c:163-164 | no packet shorter than 18 bytes that reaches the handler, in any run, passes the signature test |
| `PoolRuns.BurstStacksUp` | src/server/bufmgr.c:98-100 | with no take in between later arrivals wait in front of earlier ones |
| `PoolRuns.Drain` | src/server/protocol.c:155-188 | from any state with the consumer idle there is a continuation that empties the list front to back, releases each buffer, and stops |
| `PoolRuns.AlwaysDrains` | src/server/protocol.c:155-188 | however the consumer goes on while nothing arrives, it takes the waiting packets in their order, and after four events for each it is done |
| `PoolRuns.BurstConsumedInReverse` | src/server/bufmgr.c:98-110 | however the consumer goes on, a burst is consumed in the reverse of its order of arrival, then what waited before it |
| `PoolRuns.BurstSeenInReverse` | src/server/bufmgr.c:98-110 | however the consumer goes on, the handler is given the packets of a burst last one first |
| `PoolRuns.ConsumedInOrderIff` | src/server/bufmgr.c:98-110 | over a run with everything consumed: in order of arrival if and only if no take found two packets waiting |
| `BufMgr.BufferManager.MakeFreeList` | src/server/bufmgr.c:51-64 | the linking loop leaves one chain through all buffers, each zero, free and with data of its own |
| `BufMgr.BufferManager.constructor` | src/server/bufmgr.c:48-65 | the pool begins in the invariant with all buffers free |
| `BufMgr.BufferManager.BufferAcquire` | src/server/bufmgr.c:69-86 | pointers and fields afterwards are the modelled step; a buffer is given if and only if one is free and at most 1504 bytes are asked for |
| `BufMgr.BufferManager.BufferMarkReady` | src/server/bufmgr.c:90-101 | the buffer goes to the front of the ready list in memory as in the model |
| `BufMgr.BufferManager.BufferGetReady` | src/server/bufmgr.c:103-117 | the front of the ready list or null, and the modelled step |
| `BufMgr.BufferManager.ReleaseClear` | src/server/bufmgr.c:119-122 | the data is zeroed and nothing else changes |
| `BufMgr.BufferManager.ReleaseLink` | src/server/bufmgr.c:123-130 | the buffer goes to the front of the free list in memory as in the model |
| `BufMgr.Receiver.PktdrvReceiveFunc` | src/server/pktdrv.c:28-46 | the two calls told apart by AX, what each does to the pool, the answer, and which counter moves |
| `BufMgr.Receiver.ReceivePacket` | src/server/pktdrv.c:28-46 | both calls with the driver's copy in between, on the pool in memory, and both counters |
| `BufMgr.ReceivedWaits` | src/server/pktdrv.c:28-46 | a packet so received waits in front with its size, its bytes and zeros behind them, and nothing else changes |
| `Server.Server.PktdrvSend` | src/server/pktdrv.c:162-179 | with a handle the frame sent is the buffer up to the length or 60 bytes, whichever is more, without one nothing is sent |
| `Server.Server.PrepForReply` | src/server/protocol.c:50-67 | the reply goes to the sender with its session id, our address and signature, and a zeroed payload |
| `Server.Server.HandlePing` | src/server/protocol.c:69-96 | exactly the pong frame is sent, as long as the request or 60 bytes |
| `Server.Server.HandleStatusReq` | src/server/protocol.c:98-126 | exactly the status frame is sent: 60 bytes, with mode, page, rows, columns, cursor row and cursor column at bytes 26 to 31 |
| `Server.StatusReplyBytes` | src/server/protocol.c:98-126 | the status frame byte by byte: receiver, length 6, type 4, the six parts, zeros to 60 |
| `Server.Server.HandleInjectKeystroke` | src/server/protocol.c:128-151 | exactly the keystrokes of the packet are injected, in its order, each read from its four bytes |
| `Server.Server.Dispatch` | src/server/protocol.c:163-184 | table, injected keys and sent frames after one packet, foreign and unknown packets included |
| `Server.Server.ProtocolProcess` | src/server/protocol.c:155-188 | the loop ends with every ready packet handled front to back, every buffer released, and no other effect |
| `Server.DrainFreesAll` | src/server/protocol.c:155-188 | such a drain leaves nothing waiting and puts every buffer it found waiting on the free list, zero, the last taken in front |
| `Server.TraceEnds` | src/server/protocol.c:158-187 | handling packets one after another is handling them all |
| `Server.NoTruncation` | src/server/session.c:174-176 | offset, word count and payload length lose nothing to 16 bits |
| `Server.Server.ChooseRows` | src/server/session.c:131-179 | the sweep state and the rows sent are those of the specified tick |
| `Server.Server.FanOut` | src/server/session.c:209-217 | one frame to each session in use, in slot order, none to others, and all padded alike |
| `Server.Server.UpdateAll` | src/server/session.c:85-218 | the whole tick: table, sweep, and the frames sent, as one relation; with no slot in use afterwards row 0, the checksum as it was, and nothing sent |
| `Exchange.ReplyReachesItsRequester` | src/server/protocol.c:50-67 | a reply reads back as what was put in, is zero after its payload, and passes the filter of one client if and only if that client asked |
| `Exchange.PingIsEchoed` | src/server/protocol.c:69-96 | the pong to a client's ping passes its filter and carries its payload |
| `Exchange.StatusReplyReads` | src/server/protocol.c:104-115 | the client reads from the status reply exactly the video state it was made from |
| `Exchange.StatusOfKnownHost` | src/client/hostlist.c:83-109 | after the server's answer its client has mode, page, rows, columns, cursor row and cursor column each in its place; window, size, session and timer of that host stay, and so do all other hosts |
| `Exchange.StatusOfNewHost` | src/client/hostlist.c:83-109 | the same for a server not known before, in the first free place, blank otherwise and not controlled |
| `Exchange.ProbeRegistersServer` | src/client/main.c:263-268 | a broadcast probe makes the server known to the client that sent it, if its list has a place |
| `Exchange.KeystrokesArriveInOrder` | src/client/network.c:154-158 | the keys packed by the client are the keys decoded by the server, in order, with padding after them or not |
| `Exchange.KeyLayout` | src/common/protocol.h:142-156 | four bytes to a key: scan code, character, flags low byte first |
| `Serving.OneCall` | src/server/protocol.c:155-188 | one call of the loop serves all its packets at the same moment, which is the special case of serving each at its own |
| `Serving.InjectedInConsumptionOrder` | src/server/protocol.c:128-151 | what is injected is what the packets carry, concatenated in the order of consumption, whenever each is served |
| `Serving.InjectedOverRuns` | src/server/protocol.c:155-188 | over every run of driver and consumer what is injected is the keys of the packets the handler has seen, in that order |
| `Serving.BurstInjectedBackwards` | src/server/protocol.c:155-188 | however the server goes on and whenever it serves them, keystroke packets that arrive in one burst are injected last packet first, each packet's keys in order |
| `Serving.ServingIsALeaseRun` | src/server/protocol.c:177-179 | serving packets, each at its own moment, moves the session table as the start events they stand for |
| `Exchange.VideoFrameReads` | src/client/main.c:170-183 | the client reads from a screen frame the rows put into it, its bounds test never fires, and the filter passes it for its addressee only |
| `Exchange.VideoFrameUpdatesHost` | src/client/main.c:163-183 | the host list after a screen frame, byte by byte: the rows in place, text size, cursor row and column, nothing else |
| `Exchange.FanOutIsUniform` | src/server/session.c:209-217 | as many frames as sessions in use, each of at most 1514 bytes, and alike but for address and session id, padding included |
| `Framing.OthersIgnored` | src/server/protocol.c:163-184 | a packet without the four signature bytes, or of a type other than 1, 3, 5 and 7, does nothing |
| `Framing.PingAnswered` | src/server/protocol.c:69-96 | one of type 1 goes back to its sender as type 2, with its id, length and payload, zeros behind, and its own length or 60 bytes |
| `Framing.StatusAnswered` | src/server/protocol.c:98-126 | one of type 3 is answered with 60 bytes of type 4, the six parts of the video state at 26 to 31 |
| `Framing.SessionStarted` | src/server/protocol.c:177-179 | one of type 5 starts a session for the address at bytes 6 to 11 and the id at 18 to 21, and does nothing else |
| `Framing.KeysInjected` | src/server/protocol.c:128-151 | one of type 7 injects a key for every four bytes of its length, read from byte 26 on, and does nothing else |
| `Framing.HandleAllSends` | src/server/protocol.c:155-188 | one call of the loop only adds to what was sent: at most one frame for each packet, each a reply of 60 to 1514 bytes, and none without a handle |
| `Framing.VideoFrameLayout` | src/server/session.c:181-217 | a screen frame has 34 bytes and its data, or 60 if that is more, never over 1514; offset and count lie at bytes 30 to 33 high byte first, the data from 34 on |
| `Framing.TickFits` | src/server/pktdrv.c:158-168 | every frame of a tick has between 60 and 1514 bytes, 34 more than its count or 60 |
| `Framing.EveryFrameFits` | src/server/pktdrv.c:158-168 | in every run of the whole system every frame ever sent has between 60 and 1514 bytes, and every screen update has exactly 34 more than its count, or 60 |
| `Mirror.StepKeepsSentInv` | src/server/session.c:174-217 | every screen update ever sent lies inside the client's buffer and was on the screen, whole, at one tick |
| `Mirror.MirrorIsSafe` | src/client/main.c:163-176 | in every run each byte of the client's copy is blank or was on the screen, there, at some tick |
| `Sending.EmittedChunksAreSent` | src/server/session.c:209-217 | every chunk the sweep emits goes out to a client that is served at every tick |
| `Sending.SentFramesAreChunks` | src/server/session.c:174-217 | and every update sent to the client is one of those chunks |
| `Copying.LastWriter` | src/client/main.c:163-176 | a byte of the copy is what the last delivered frame that covers it carries |
| `Copying.ByteIsRightIff` | src/client/main.c:163-176 | in any run, when a byte of the copy is right at the end: if and only if the last frame to cover it carries the right byte, or none does and it was right |
| `Copying.DeliveredStays` | src/client/main.c:170-176 | a frame delivered after the last differing one that overlaps it is on the copy at the end |
| `Copying.FreshIsCurrent` | src/server/session.c:206 | updates sent since the screen came to hold still all show that screen |
| `Convergence.SweepReachesClient` | src/server/session.c:131-217 | every chunk of a sweep is among the frames sent to a client that is served at every tick |
| `Convergence.MirrorConverges` | src/server/session.c:134-217 | a sweep of a still screen, each of its frames delivered once after the last differing one that overlaps it, leaves the copy equal to the screen, whatever else is lost or delivered |
| `Convergence.MirrorConvergesFromDifference` | src/server/session.c:134-217 | so does any state in which the checksum of the screen is not the recorded one, within two sweeps; frames of the sweep under way may be lost |
| `Convergence.OneCellChangeIsMirrored` | src/server/session.c:138-149 | so does a change in one cell since the last sweep began |
| `Convergence.ByteMirroredIff` | src/server/session.c:134-217 | exactly which bytes of the copy of a still screen come to be right |
| `Convergence.MirrorConvergesIff` | src/server/session.c:134-217 | the copy of a still screen comes to be the screen if and only if the checksum is not on record or the part that will not be sent again is right already |
| `Convergence.LateSessionSeesNothing` | src/server/session.c:138-149 | with the screen's checksum recorded no row above the sweep's place is sent, and there the copy stays as it is; at rest that is all of it |
| `View.PartIsRightIff` | src/client/main.c:178-183 | in any run, when the text size or the cursor the client shows is right at the end: if and only if the last frame that brings it brings the right one, or none does and it was right |
| `View.SizeIsRightIff` | src/client/main.c:178-179 | on a still screen the client comes to show the server's text size if and only if the checksum is not on record, or a sweep is under way, or it did before |
| `View.CursorIsNotSent` | src/server/session.c:138-149 | a cursor that moves over a resting screen stays where it was on the client, unless a status response arrives |
| `Convergence.TableFollowsLeases` | src/server/session.c:42-115 | the system's session table is that of the lease run of its events |
| `Convergence.TimelyClientIsServed` | src/server/session.c:101-115 | a client refreshed in time is in the table at every tick |
| `Convergence.MirrorConvergesForTimelyClient` | src/server/session.c:85-218 | convergence from timely refreshes, wherever the sweep stands |
| `Convergence.MirrorConvergesThroughLoss` | src/client/main.c:270-279 | convergence from the client's timer and one start request in three |
| `Progress.CanTick` | src/server/session.c:85-218 | in every state with an admissible mode a tick with the frames the source asks for exists |
| `Progress.StartLeases` | src/server/session.c:64-74 | a start that is not refused keeps its client in the table through the next 182 ticks |
| `Progress.MirrorCanCatchUp` | src/server/resident.c:95-109 | from any state of sweep and copy with an unrecorded checksum and a lease for the ticks of two sweeps, a run of ticks on an advancing clock and deliveries makes the copy equal to the screen |
| `Progress.FreshLeaseSuffices` | src/server/globals.c:8 | a lease just granted is enough for that in every mode |
| `Stale.StaysStale` | src/server/session.c:138-149 | a copy that is wrong at rest stays wrong in every run in which the screen holds still and nothing older arrives |
| `Stale.LateSessionIsStale` | src/server/session.c:75 | from the initial state, for any screen with a nonzero checksum: a client that starts once it was shown to another is served, at rest and wrong |
| `Stale.LateSessionInEveryMode` | src/server/session.c:75 | such a run exists in every mode |
| `Stale.RevertedChangeIsStale` | src/server/session.c:138-149 | from the initial state, every frame delivered: a change taken back during its sweep leaves the changed bytes on the copy, at rest |
| `Stale.RevertedInCommonMode` | src/server/session.c:138-149 | such a run exists on a screen of 25 rows of 80 |
| `Stale.LeftoverIsStale` | src/client/main.c:170-176 | from the initial state: the copy is right, a leftover frame arrives last, and the copy is wrong, at rest |
| `Stale.LeftoverInEveryMode` | src/client/main.c:170-176 | such a run exists in every mode |
| `KeymapText.Trim` | src/client/keymaplib.c:20-31 | the string without its leading and trailing blanks |
| `KeymapText.TrimCore` | src/client/keymaplib.c:20-31 | blanks around a trimmed string are exactly what trimming removes |
| `KeymapText.ParseHexSequence` | src/client/keymaplib.c:36-74 | accepts and decodes exactly the specified hex texts, empty and malformed ones included |
| `KeymapText.HexRoundTrip` | src/client/keymaplib.c:36-74 | parsing printed hex gives the bytes back |
| `KeymapText.KeymapFormatSequenceHex` | src/client/keymaplib.c:350-358 | stays in the buffer, ends in a NUL, and prints whole groups of exactly the bytes that fit |
| `KeymapText.FormatRoundTrip` | src/client/keymaplib.c:350-358 | what was formatted into a buffer reads back as exactly the first bytes that fitted; all of them if and only if the buffer has room, and if not, not one more would have fitted |
| `KeymapFile.LineRoundTrip` | src/client/keymaplib.c:124-203 | a printed line reads back as its entry if and only if the entry has a trimmed description without a bar that is not empty and does not begin with two slashes, and a sequence of at most 127 bytes |
| `KeymapFile.HeaderSkipped` | src/client/keymaplib.c:231-234 | the three lines at the top of a saved file add no entry |
| `KeymapFile.SavedText` | src/client/keymaplib.c:231-301 | a saved file is three comment lines, spelled out, and the entries' lines |
| `KeymapFile.SaveLoadRoundTrip` | src/client/keymaplib.c:216-301 | loading what was saved gives the same entries in the same order if and only if every entry has such a description, on one line, and such a sequence |
| `KeymapFile.FirstLine` | src/client/keymaplib.c:120-124 | a line of up to 1023 characters is read as one line, its newline included or skipped after it |
| `KeymapFile.LongLineInPieces` | src/client/keymaplib.c:120-124 | a longer line is read in pieces of 1023 characters, each as a line of its own |
| `KeymapFile.LongDescriptionLost` | src/client/keymaplib.c:120-124 | a description of 1024 characters or more is lost, whatever else is saved |
| `KeymapFile.BlankFieldLoads` | src/client/keymaplib.c:129-156 | a line with a blank first field loads as an entry that saving loses |
| `KeymapFile.LoadedIsPlain` | src/client/keymaplib.c:122-156 | whatever the line, a loaded description is trimmed and has no bar or newline |
| `KeymapFile.LoadedKeymapRoundTrip` | src/client/keymaplib.c:114-301 | the round trip, both ways, for every keymap that any file loads as |
| `KeymapLines.LineReads` | src/client/keymaplib.c:124-203 | any line with five fields: skipped if its first two characters are slashes, else the entry of its trimmed fields in their order, the last one up to '#' or '/', or none if one of the last four does not read |
| `KeymapLines.LineSkips` | src/client/keymaplib.c:125-127 | a line that is blank, or whose first two characters are slashes, adds nothing, whatever follows |
| `KeymapLines.LineEnds` | src/client/keymaplib.c:122-124 | a line that ends in CR LF reads like one that ends in LF, or in nothing |
| `KeymapLines.CommentIsCut` | src/client/keymaplib.c:135-145 | a printed line reads as its entry with a comment after its flags too, bars in it and all |
| `KeymapLines.OneSlashSurvives` | src/client/keymaplib.c:125-127 | an entry whose description begins with one slash not followed by another reads back as it is |
| `KeymapLines.SlashKey` | src/tools/xterm.kmap:93 | the line of the slash key, which begins with one slash: it is how its entry is printed, and it reads as that entry |
| `KeymapLines.DecimalReads` | src/client/keymaplib.c:168-188 | three decimal digits are their number if that is at most 255, and nothing otherwise |
| `KeymapLines.OctalReads` | src/client/keymaplib.c:168-188 | with a leading 0 they are octal |
| `KeymapLines.HexReads` | src/client/keymaplib.c:168-188 | with a leading 0x or 0X hexadecimal, in either case |
| `KeymapLines.BadNumbers` | src/client/keymaplib.c:168-188 | the empty field is 0; a negative number or a character that is no digit spoils the line |
| `KeymapLines.GroupReads` | src/client/keymaplib.c:55-70 | exactly which groups of four characters read as a byte, and as which: the blanks and signs that `strtol` accepts included |
| `KeymapLines.SequenceReads` | src/client/keymaplib.c:36-74 | a sequence reads as these bytes if and only if it is four characters for each, group by group |
| `Keymap.HashSequence` | src/client/keymaplib.c:76-82 | the shift-and-add loop on 32 bits computes the bucket |
| `Keymap.HashVector` | src/client/keymaplib.c:76-82 | the bucket of two given bytes |
| `Keymap.LoadLine` | src/client/keymaplib.c:124-203 | the entry of a line, or none, on each of its error paths; `KeymapLines.LineReads` and `KeymapLines.LineSkips` say which, character by character |
| `Keymap.ReverseInPlace` | src/client/keymaplib.c:255-262 | the same nodes linked in the opposite order |
| `Keymap.KeymapTable.BuildHash` | src/client/keymaplib.c:85-110 | every bucket chains exactly the entries that hash to it, the earliest loaded first |
| `Keymap.KeymapTable.Load` | src/client/keymaplib.c:114-212 | the entries of the file are added after those already loaded, which stay the same nodes, and the index is right again |
| `Keymap.KeymapTable.KeymapFind` | src/client/keymaplib.c:318-332 | the earliest loaded entry with this sequence, or null if and only if there is none |
| `Keymap.KeymapTable.KeymapScan` | src/client/keymaplib.c:304-315 | the latest loaded entry with this sequence, or null if and only if there is none |
| `Keymap.BucketFindsFirst` | src/client/keymaplib.c:318-332 | looking in one bucket finds what looking everywhere would |
| `Keymap.FoundStaysFound` | src/client/keymaplib.c:205-209 | an entry once found is still the one found after any further load |
| `Keymap.SearchesAgree` | src/client/keymaplib.c:304-332 | index and scan agree on whether there is an entry always, and on which if and only if its sequence is unique |
| `Keymap.KeymapTable.DescriptionWidth` | src/client/keymaplib.c:236-249 | the longest description, at least 10 |
| `Keymap.KeymapTable.Save` | src/client/keymaplib.c:216-301 | the text is the entries in load order, and list, links and index are afterwards as before |

## Left out

- Server.Server.ProtocolProcess: no packet arrives while it runs; arrivals in between are the subject of `PoolRuns`, whose events interleave freely. It runs inside the timer interrupt (`src/server/resident.c:105`), before the BIOS advances the clock and with the foreground program stopped, so one clock reading and one video state serve all its packets; `Serving` lets each packet have its own.
- BufMgr.BufferManager.BufferMarkReady: asks for a pending buffer, where the source says it can only hope for one; the address arithmetic from data to buffer is replaced by the buffer itself.
- BufMgr.BufferManager.Valid: ties memory to the model; that the model stays in its invariant is proved beside it, by the `KeepsInv` lemmas and over runs.
- PoolRuns.InvariantOverRuns: a driver that writes more bytes than it asked for, or outside a buffer it holds, is excluded.
- Server.Server.HandlePing: a payload length that reaches past the packet is excluded by a precondition.
- Server.Server.HandleInjectKeystroke: likewise.
- Server.Server.Dispatch: likewise, for those two packet types only.
- Framing.PingAnswered: likewise.
- Framing.KeysInjected: likewise.
- Framing.HandleAllSends: likewise, for all the packets of the call.
- Client.HostList.ProcessSocketIo: so is a frame shorter than its type and count say.
- Sessions.StartSetsLease: senders have a nonzero address; `Sessions.StartKeepsInvIff` and `Lease.ZeroAddressSticks` say what a zero address does.
- Lease.InvariantOverRuns: likewise, nothing else being asked of the run.
- Lease.NoneOverdueInAnyRun: as the next line, and nonzero senders.
- Lease.NoneOverdueAfterTick: as the next line.
- Lease.TimelyKeepsLease: as the next line, and nonzero senders.
- Lease.SurvivesIffTimely: the clock stays 182 ticks below 32 bits (`Lease.ExpiryTestExact` says what happens otherwise), and the midnight reset of the BIOS counter is not modelled.
- Lease.TwoLossesInThreeTolerated: an ideal clock of 18.2065 ticks a second with no delay between sending and arrival.
- Video.VideoChecksum: an odd offset is excluded; the one caller passes 0.
- Video.CopyFromFrameBuffer: a copy past the end of the segment is excluded; `Sweep.ChunkFits` shows that none happens.
- Sweep.ChunkFits: text modes have at least one row and one column and fit 32 KiB.
- Server.Server.FanOut: bytes that pad a short screen frame to 60 are whatever the send buffer held; they are the same in all frames of a tick.
- Convergence.MirrorConvergesIff: every frame sent in the run arrives, and none older; the one-way theorems ask less.
- Mirror.MirrorIsSafe: pongs and status responses may be sent at any time with any content (`Framing.HandleSends` shows that the handlers send nothing else), and ticks may come with any clock readings, which allows more runs than a real clock; `Progress` and `Stale` build their runs on a clock that advances.
- KeymapFile.SaveLoadRoundTrip: printed lines have at most 1023 characters; a longer line is read in pieces, which loading models and the round trip excludes (`KeymapFile.LongDescriptionLost` is one way it fails).
- KeymapFile.LoadedKeymapRoundTrip: the same holds of the lines it prints.
- KeymapLines.LineReads: lines with at least five stretches of text between bars; adjacent bars count as one, which `KeymapFile.LineRoundTrip` meets in the empty description.
- KeymapText.Trim: strings are values; that `_trim` writes a NUL into its argument is not captured.
- Keymap.LoadLine: likewise for `strtok` and the comment cuts inside the one line buffer; a file holds no NUL characters.
- KeymapText.FormatRoundTrip: as the next line.
- KeymapText.KeymapFormatSequenceHex: buffer sizes below 5, for which the size minus 5 wraps around, are excluded; the one caller passes 512.
- `strtol` on numbers that overflow a long, and locales other than C.
- Keymap.KeymapTable.Save: write errors, with the early return that leaves the list reversed; likewise errors of opening, reading and allocating, and the freeing of memory.
- `keymap_format_sequence` and `keymap_free`.
- Client.HostList.Allocate: the `index` field of a host is its place in the array and is not stored again.
- Client.HostList.Register: the time of the last response, which only the display uses, is not kept.
- Client.HostList.ProcessIncomingVideoText: likewise, and a frame shorter than its count says is excluded.
- BufMgr.Receiver.PktdrvReceiveFunc: a second call that names a buffer which is not pending is excluded.
- Server.Server.PktdrvSend: the driver's error code, which no caller looks at.
- The broadcast probe timer, and everything drawn on the terminal.
- Sockets, the interrupt stubs and their stack, the packet driver's other calls, BIOS and DOS calls, TSR installation, and debugging code. The clock, the video state and the frame buffer are parameters; keys given to the BIOS and frames given to the driver are appended to a record.
- The keymap tools and the VGA demonstration, which add no protocol.
