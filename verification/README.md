# A verified model of the badvpn packet stack

The sakura-proxy service vendors badvpn, an event-driven packet stack written as C objects whose fields are changed in
place by handlers. This project models its hard core in Dafny and proves what the source only asserts or promises. It
covers:

- **Fragmentation**: cutting frames into chunks and rebuilding them from chunks that arrive in any order, late, or
  malformed, or get lost, with a fixed pool of frame slots and a 32-bit clock that is renormalised before it can wrap;
  and the whole datagram path, in which each packet of chunks is also encrypted, hashed, given a one-time password,
  and undone again.
- **The fair queue**: virtual-time scheduling with 64-bit times that are renormalised through deliberate wrap-around.
- **Frame routing**: the table of learned addresses, the multicast index with its elected masters, the enumeration of
  destinations, zero-copy routing to several buffers, the way of a frame from the device to those buffers, deferred
  detaching of flows, the receiving side with its relaying, and the choice of relays.
- **Codecs**: PacketProto framing, the generated bproto writers and parsers, SPProto packets with any cipher and hash,
  and the tables of one-time passwords.
- **Protocol machines**: the packet-pass interface over the job list, and the DHCP client core.

Each component has two parts. One is a specification on values: a state, a step for every event, an invariant kept by
every step, and theorems over all runs or all inputs. The other, in the files named after the object, is the object
itself: a class with the source's fields, whose methods follow the source closely, loops included, and are
proved to do exactly the specified step. The theorems about the specification are thereby theorems about the object.

The main machines also have an account of their events: what the callers did, folded from the calls, and for the fair
queue from which flow each completed send was, without a look at the machine's other fields. The account theorems say
that the machine does what the account says in every run: which sink a flow was last attached to, which packet a sender
handed over, which length a flow is charged for, what a client said to its server, which groups a peer reported. So the
theorems that speak of a machine's own fields, such as `Fairness` or `DoneSettles`, come down to what is seen from
outside. The codecs have their bytes written out in the same spirit, in `WireFormats`.

Handlers that call back into other components are events: what a callback does next is the next event of a run. Random
numbers, the clock and the data that arrives are parameters of the events. Trees are sorted sequences or maps, linked
lists are sequences without duplicates, and pools of entries are numbered slots.

Some properties one might expect do not hold of the code, and are settled exactly.

- Cancelling a frame in the disassembler does not advance the frame id, so the frame after a cancelled one can be lost.
  `LossReached` gives a run from the start in which it is. `CancelRunIff` shows that a run in which a frame is cancelled
  delivers everything if and only if nothing of the cancelled frame had been written or nothing was sent after it.
  `NetExact` says which frames get through with any number of cancellations, and `SecondCancelClears` how a second one
  can clear the way again.
- Frame ids have 16 bits and packets can be lost, so an id can come round to pieces of an old frame. `IdComesRound`
  gives a run in which the receiver then delivers a frame that nobody sent. `LossyExact` shows that it takes 65536
  frames begun while the receiver sees too few packets to time out an entry, and that otherwise exactly the frames of
  which nothing was lost are delivered. A cancellation and losses under one id can do the same (`CancelledMixes`).
- The table of frames under way is bounded, so a frame can be given up before it is whole. `OthersStand` says exactly
  which chunk makes which frame go, and `CountedUndisturbed` that a frame stands until num_frames other entries are
  taken after its own or more than num_frames packets pass it by; both can be counted on the traffic.
- A flow of the fair queue can be passed over for as long as new flows keep joining, because a new flow starts at time
  zero and its first packet is queued at the current time. `JoinersOvertake` gives the runs, one for every number of
  flows; `NoStarvation` and `PassedOverBounded` show that joining flows are the only way.

The current time of the fair queue falls back to zero when the queue is idle, so flows are not compared with an ideal
clock: `Fairness` speaks of two flows and is relative to the gap between them at the start.

Files: `Common` (bytes, lists, pools); `FragmentModel`, `FragmentAssembler`, `FragmentDisassembler`, `FragmentEndToEnd`,
`FragmentEviction`, `FragmentSending`, `FragmentCancel`, `FragmentSlots`, `FragmentLoss`, `FragmentNet`,
`FragmentNetCases`; `FairQueue`, `FairQueueRuns`, `FairQueueAccount`, `FairQueueObject`; `MacTable`, `MacTableObject`,
`MulticastIndex`, `MulticastRuns`, `MulticastWalk`, `FrameDecider`; `DataProto`, `DataProtoAccount`, `DataProtoObject`,
`RouteBuffer`, `Forwarding`, `DataReceive`; `Relays`, `RelayRuns`, `RelayChoice`, `RelayTable`; `PacketProto`; `BProto`,
`BProtoObject`; `SPProto`, `SPProtoObject`, `OtpTable`, `OtpObjects`, `OtpRuns`, `SecuredLink`, `SecuredNet`;
`PacketPass`, `PacketPassAccount`, `PacketPassObject`; `Dhcp`, `DhcpOptions`, `DhcpDialogue`, `DhcpObject`;
`WireFormats`. The command `dafny verify dfyconfig.toml` checks them all.

## Model

| member | source | states |
|---|---|---|
| `FragmentModel.ParseEncodeAll` | orbotservice/external/badvpn/client/FragmentProtoDisassembler.c:39-102 | a packet of chunks parses back to exactly the chunks written into it |
| `FragmentModel.CountingIsCovering` | orbotservice/external/badvpn/client/FragmentProtoAssembler.c:241-270 | the counter decides completeness: the sum of accepted chunk lengths reaches the frame length if and only if every byte is covered |
| `FragmentModel.CoveringPieceUnique` | orbotservice/external/badvpn/client/FragmentProtoAssembler.c:105-107 | no byte of a frame is covered by two accepted chunks |
| `FragmentModel.ByteAtCovering` | orbotservice/external/badvpn/client/FragmentProtoAssembler.c:255-256 | each assembled byte is the payload byte of the one chunk covering it |
| `FragmentModel.ProcessKeepsInv` | orbotservice/external/badvpn/client/FragmentProtoAssembler.c:155-285 | every chunk, however malformed, keeps the table: accepted chunks disjoint, within the length, one slot spare, at most num_frames frames, stamps not in the future |
| `FragmentModel.DeliveredIsExactTiling` | orbotservice/external/badvpn/client/FragmentProtoAssembler.c:197-278 | whatever arrives, a delivered frame is exactly tiled by the accepted chunks of its id, so the final assertion on sum and length holds |
| `FragmentModel.ProcessAllKeepsInv` | orbotservice/external/badvpn/client/FragmentProtoAssembler.c:287-325 | a whole packet of chunks keeps the table |
| `FragmentModel.EndPacketKeepsInv` | orbotservice/external/badvpn/client/FragmentProtoAssembler.c:327-341 | ending a packet, with or without renormalising the clock, keeps the table |
| `FragmentAssembler.Assembler.constructor` | orbotservice/external/badvpn/client/FragmentProtoAssembler.c:371-453 | a fresh assembler stands for the empty table |
| `FragmentAssembler.Assembler.FreeFrame` | orbotservice/external/badvpn/client/FragmentProtoAssembler.c:46-54 | unlinks exactly that frame from list and tree; free and used slots still partition the pool |
| `FragmentAssembler.Assembler.AllocateNewFrame` | orbotservice/external/badvpn/client/FragmentProtoAssembler.c:56-103 | takes a free slot, or evicts the frame whose entry was taken longest ago when there is none (FragmentEviction.OthersStand says what that means for the others) |
| `FragmentAssembler.Assembler.LookupFrame` | orbotservice/external/badvpn/client/FragmentProtoAssembler.c:180-195 | finds the frame by id, replacing it if timed out and creating it if absent |
| `FragmentAssembler.Assembler.ChunkIsGood` | orbotservice/external/badvpn/client/FragmentProtoAssembler.c:197-229 | true if and only if the chunk overlaps no stored chunk and fits the length bookkeeping |
| `FragmentAssembler.Assembler.AddChunk` | orbotservice/external/badvpn/client/FragmentProtoAssembler.c:231-285 | stores the chunk, drops the frame, or delivers it, exactly as the reference reassembler judges |
| `FragmentAssembler.Assembler.ProcessChunk` | orbotservice/external/badvpn/client/FragmentProtoAssembler.c:155-285 | the slot pool, tree and byte buffers refine the reference reassembler, for every chunk |
| `FragmentAssembler.Assembler.FreeTimedOut` | orbotservice/external/badvpn/client/FragmentProtoAssembler.c:116-139 | drops exactly the timed-out frames and finds the least time of the survivors |
| `FragmentAssembler.Assembler.SubtractTimes` | orbotservice/external/badvpn/client/FragmentProtoAssembler.c:141-152 | every survivor keeps its age when the clock goes back |
| `FragmentAssembler.Assembler.AdvanceTime` | orbotservice/external/badvpn/client/FragmentProtoAssembler.c:327-341 | the 32-bit clock never wraps; with or without renormalisation it stands for an unbounded clock |
| `FragmentAssembler.Assembler.ProcessInput` | orbotservice/external/badvpn/client/FragmentProtoAssembler.c:287-348 | each call hands out the next frame of the packet, or ends the packet once there is none |
| `FragmentAssembler.Assembler.HandlePacket` | orbotservice/external/badvpn/client/FragmentProtoAssembler.c:287-368 | over a whole packet the frames handed out are those of the reference reassembler, in order |
| `FragmentDisassembler.WritePieces` | orbotservice/external/badvpn/client/FragmentProtoDisassembler.c:39-102 | every chunk written is a slice of the frame at its own offset, and is marked last exactly at the frame's end |
| `FragmentDisassembler.HandlersKeep` | orbotservice/external/badvpn/client/FragmentProtoDisassembler.c:104-158 | every handler keeps the sender consistent; frame and output packet are never both left waiting |
| `FragmentDisassembler.Disassembler.constructor` | orbotservice/external/badvpn/client/FragmentProtoDisassembler.c:160-200 | a fresh sender has neither a frame nor an output packet |
| `FragmentDisassembler.Disassembler.WriteOne` | orbotservice/external/badvpn/client/FragmentProtoDisassembler.c:48-70 | one turn of the loop appends exactly the next chunk, header and payload, to the packet's bytes |
| `FragmentDisassembler.Disassembler.WriteLoop` | orbotservice/external/badvpn/client/FragmentProtoDisassembler.c:47-70 | the do-while loop writes exactly the chunks specified for the room left |
| `FragmentDisassembler.Disassembler.DoWriteChunks` | orbotservice/external/badvpn/client/FragmentProtoDisassembler.c:39-102 | the packet finished, if any, is the encoding of the chunks collected; frame id advances when the frame is used up |
| `FragmentDisassembler.Disassembler.InputSend` | orbotservice/external/badvpn/client/FragmentProtoDisassembler.c:104-119 | accepting a frame refines the sender's step |
| `FragmentDisassembler.Disassembler.OutputRecv` | orbotservice/external/badvpn/client/FragmentProtoDisassembler.c:132-146 | accepting an output packet refines the sender's step |
| `FragmentDisassembler.Disassembler.TimerExpired` | orbotservice/external/badvpn/client/FragmentProtoDisassembler.c:148-158 | the latency timer runs only with a partly filled packet and no frame, and sends what the packet has |
| `FragmentDisassembler.Disassembler.RequestCancel` | orbotservice/external/badvpn/client/FragmentProtoDisassembler.c:121-130 | cancelling drops the frame and nothing else; in particular the frame id stays |
| `FragmentEndToEnd.EndToEnd` | orbotservice/external/badvpn/client/FragmentProtoDisassembler.c:39-158 | for every run of both ends over an ordered channel, with every timing of packets and latency timer and with frames withdrawn before anything of them is written: frames delivered are a prefix of frames sent, and all of them once nothing waits |
| `FragmentEndToEnd.SenderSplits` | orbotservice/external/badvpn/client/FragmentProtoDisassembler.c:39-102 | the sender cuts every frame into disjoint chunks that cover it, wherever the first one lands in a packet |
| `FragmentEndToEnd.SplitPermutes` | orbotservice/external/badvpn/client/FragmentProtoAssembler.c:155-285 | being the chunks of a frame does not depend on their order |
| `FragmentEndToEnd.SplitCount` | orbotservice/external/badvpn/protocol/fragmentproto.h:92-98 | the number of chunks never exceeds the computed maximum per frame |
| `FragmentEndToEnd.AnyOrder` | orbotservice/external/badvpn/client/FragmentProtoAssembler.c:155-285 | chunks of a frame arriving each once, in any order, amid other traffic, deliver it once, byte for byte, exactly when the last one arrives |
| `FragmentEndToEnd.SentFrameRebuilds` | orbotservice/external/badvpn/client/DatagramPeerIO.c:199-202 | any permutation of the chunks the sender cuts rebuilds the frame with the table sized as the peer I/O sizes it |
| `FragmentCancel.LateCancelLosesNextFrame` | orbotservice/external/badvpn/client/FragmentProtoDisassembler.c:121-130 | after cancelling a partly written frame, the next frame, sent under the same id, is never delivered |
| `FragmentCancel.CancelHarmlessIff` | orbotservice/external/badvpn/client/FragmentProtoDisassembler.c:121-130 | amid any traffic, the frame following a cancelled one is delivered if and only if nothing of the cancelled one had been written |
| `FragmentCancel.AtMostOne` | orbotservice/external/badvpn/client/FragmentProtoAssembler.c:155-285 | the chunks of one call of write_chunks deliver at most one frame, whatever the receiver holds |
| `FragmentCancel.CancelRunIff` | orbotservice/external/badvpn/client/FragmentProtoDisassembler.c:121-130 | over whole runs: a frame is cancelled anywhere in a run, the run goes on with any frames and timing and ends with nothing waiting; everything sent has been delivered if and only if nothing of the cancelled frame had been written or nothing was sent after it |
| `FragmentCancel.LossReached` | orbotservice/external/badvpn/client/FragmentProtoDisassembler.c:121-130 | a run from the start, with one packet sent before the cancel, in which the next frame never arrives |
| `FragmentSlots.ProcessStanding` | orbotservice/external/badvpn/client/FragmentProtoAssembler.c:155-285 | a chunk is judged by the pieces that stand under its id and are not timed out, whatever else the table holds; of other ids entries are at most given up |
| `FragmentSlots.StandingIsOwn` | orbotservice/external/badvpn/client/FragmentProtoAssembler.c:180-195 | a chunk finds under its 16-bit id what its own frame left there and nothing of an earlier frame with the same id, as long as the id does not come round to pieces that have not timed out |
| `FragmentSlots.ArriveAll` | orbotservice/external/badvpn/client/FragmentProtoAssembler.c:287-348 | so every frame is treated as if it were alone, whatever was lost in between |
| `FragmentLoss.WriteInOrder` | orbotservice/external/badvpn/client/FragmentProtoDisassembler.c:39-102 | the chunks of a frame go out end to end, from packet to packet, and are no more than the receiver makes room for |
| `FragmentLoss.SlotOutcome` | orbotservice/external/badvpn/client/FragmentProtoAssembler.c:197-285 | a frame is delivered if and only if it is all there, no chunk of it was lost, and nothing stands under its id of frames cancelled before it |
| `FragmentNet.SlotsAlone` | orbotservice/external/badvpn/client/DatagramPeerIO.c:163-240 | over every run with any losses and any cancellations, the frames delivered are those that every frame number, taken alone, makes of its chunks that arrived |
| `FragmentNet.NetExact` | orbotservice/external/badvpn/client/DatagramPeerIO.c:163-240 | exactly which frames get through, over every run with any losses and any number of cancellations: those no packet of which was lost and under whose id nothing stands of cancelled frames; unaltered, in order, each once |
| `FragmentNet.LossyExact` | orbotservice/external/badvpn/client/DatagramPeerIO.c:163-240 | with losses alone: if fewer than 65536 frames are begun in any stretch in which the receiver sees too few packets to time out an entry, what is delivered is the subsequence of the frames sent of which nothing was lost |
| `FragmentNet.NetSubsequence` | orbotservice/external/badvpn/client/DatagramPeerIO.c:163-240 | what is delivered is a subsequence of what was sent, with cancellations as well |
| `FragmentNet.NetSmooth` | orbotservice/external/badvpn/client/FragmentProtoDisassembler.c:39-158 | with nothing lost and no frame cancelled late, what is delivered is a prefix of what was sent, and all of it once nothing waits, however often the ids come round |
| `FragmentNetCases.IdComesRound` | orbotservice/external/badvpn/client/FragmentProtoAssembler.c:180-195 | a run in which a loss of 65535 packets in a row lets an id come round to half a frame: the receiver delivers a frame that nobody sent |
| `FragmentNetCases.CancelledMixes` | orbotservice/external/badvpn/client/FragmentProtoDisassembler.c:121-130 | a run in which losses and a cancellation under one id make the receiver deliver a frame that nobody sent |
| `FragmentNetCases.SecondCancelClears` | orbotservice/external/badvpn/client/FragmentProtoDisassembler.c:121-130 | the first chunk of a second frame that is cancelled clears what was left of the first, so the frame after them finds nothing in its way |
| `SecuredNet.SecuredExact` | orbotservice/external/badvpn/client/DatagramPeerIO.c:163-240 | the secured path with datagrams lost: no datagram that arrives is refused for its password, however many others were lost, and exactly the frames of which none was lost get through |
| `SecuredNet.SecuredSmooth` | orbotservice/external/badvpn/client/DatagramPeerIO.c:163-240 | with nothing lost the frames delivered are a prefix of those sent, and in the end all |
| `SecuredNet.SecuredStepSame` | orbotservice/external/badvpn/client/SPProtoDecoder.c:157-182 | securing, losing, decoding and checking is to the two ends what the plain network does |
| `SecuredNet.WasteOk` | orbotservice/external/badvpn/client/SPProtoEncoder.c:79-83 | a password lost with its datagram leaves the others acceptable |
| `SecuredLink.SecuredEndToEnd` | orbotservice/external/badvpn/client/DatagramPeerIO.c:163-240 | the whole datagram path, cut, secured, decoded, password checked and rebuilt, with the sizes computed at setup: for every cipher, hash, seeds, order of passwords, vector and timing, frames delivered are a prefix of frames sent, and all of them once nothing waits; no password is refused |
| `SecuredLink.SpendOk` | orbotservice/external/badvpn/client/SPProtoDecoder.c:157-223 | the password the sender uses next is one the receiver accepts, and both stay in step |
| `SecuredLink.LinkStepOk` | orbotservice/external/badvpn/client/client.c:2107-2203 | so at every step of handing over a seed: while it is generated at the receiver, known there, and taken into use, two seeds kept are enough |
| `SecuredLink.DatagramFits` | orbotservice/external/badvpn/client/DatagramPeerIO.c:174-193 | every datagram fits the datagram buffers (effective_socket_mtu), which are no larger than what the socket takes |
| `SecuredLink.LinkStepSame` | orbotservice/external/badvpn/client/DatagramPeerIO.c:205-249 | securing packets, undoing it and checking the password is invisible to the assembler, step by step |
| `OtpTable.SomeUnused` | orbotservice/external/badvpn/security/OTPChecker.c:48-75 | a table twice as large as the number of passwords always has an unused entry where a search ends, so the closing assertions hold |
| `OtpTable.NotThere` | orbotservice/external/badvpn/security/OTPChecker.c:91-119 | a search that meets an unused entry has not missed the password anywhere |
| `OtpTable.AcceptedExactly` | orbotservice/external/badvpn/security/OTPChecker.c:91-119 | of any sequence of passwords checked, each is accepted if and only if it occurs among the seed's passwords more often than it was presented before |
| `OtpTable.AllAccepted` | orbotservice/external/badvpn/security/OTPChecker.c:91-119 | so the seed's passwords are all accepted, each once, in any order |
| `OtpRuns.AcceptedExactlyIf` | orbotservice/external/badvpn/security/OTPChecker.c:231-289 | after any run of seeds given, generated and removed and passwords checked, a password is accepted if and only if the newest seed of its number still has its table and the password was checked under it less often than the seed holds it |
| `OtpRuns.ReplayRefused` | orbotservice/external/badvpn/security/OTPChecker.c:91-119 | in every run a password is accepted at most as often as the newest seed of its number holds it |
| `OtpRuns.OutcomesAccepted` | orbotservice/external/badvpn/security/OTPChecker.c:270-289 | passwords checked one after the other under a number fare as in the table of its newest seed |
| `OtpRuns.Drive` | orbotservice/external/badvpn/security/OTPChecker.c:121-289 | the checker as an object takes exactly the steps of these runs and answers accordingly |
| `OtpObjects.TableAddOtp` | orbotservice/external/badvpn/security/OTPChecker.c:48-75 | linear probing adds exactly one occurrence of the password to the bag the table stands for |
| `OtpObjects.TableCheckOtp` | orbotservice/external/badvpn/security/OTPChecker.c:91-119 | accepts if and only if the password is still in the bag, and takes one occurrence out |
| `OtpObjects.TableGenerate` | orbotservice/external/badvpn/security/OTPChecker.c:77-89 | the table stands for exactly the passwords generated |
| `OtpObjects.OTPChecker.constructor` | orbotservice/external/badvpn/security/OTPChecker.c:151-210 | a fresh checker knows no seed |
| `OtpObjects.OTPChecker.AddSeed` | orbotservice/external/badvpn/security/OTPChecker.c:231-254 | the new seed is not known until generated; the oldest goes at once if all tables are in use |
| `OtpObjects.OTPChecker.WorkDone` | orbotservice/external/badvpn/security/OTPChecker.c:121-149 | the seed with all its passwords is the newest known, in front of the others |
| `OtpObjects.OTPChecker.RemoveSeeds` | orbotservice/external/badvpn/security/OTPChecker.c:256-268 | no seed is known |
| `OtpObjects.OTPChecker.FindSeed` | orbotservice/external/badvpn/security/OTPChecker.c:270-289 | walking the ring of tables backwards finds the newest seed of that number, ignoring the table being generated |
| `OtpObjects.OTPChecker.CheckOtp` | orbotservice/external/badvpn/security/OTPChecker.c:270-289 | accepts exactly a password unused under the newest seed of that number, and uses it up there and nowhere else |
| `OtpObjects.Shuffle` | orbotservice/external/badvpn/security/OTPCalculator.c:77-118 | the passwords come out permuted, whatever the random numbers |
| `OtpObjects.OTPGenerator.WorkDone` | orbotservice/external/badvpn/security/OTPGenerator.c:34-55 | exactly the new seed's passwords are to be handed out, in some order |
| `OtpObjects.OTPGenerator.GetOtp` | orbotservice/external/badvpn/security/OTPGenerator.c:153-159 | hands out the next password, each once |
| `FairQueue.InsertSorted` | orbotservice/external/badvpn/flow/PacketPassFairQueue.c:39-47 | inserting into the tree keeps it ordered by time, ties included |
| `FairQueue.SortedUnder` | orbotservice/external/badvpn/flow/PacketPassFairQueue.c:79-116 | lowering all keys in place by the same amount keeps the tree ordered |
| `FairQueue.RenormalisationExact` | orbotservice/external/badvpn/flow/PacketPassFairQueue.c:79-116 | renormalisation equals unbounded arithmetic: queued flows and the flow just sent keep all gaps and stay within the maximum time |
| `FairQueue.WrapAround` | orbotservice/external/badvpn/flow/PacketPassFairQueue.c:99-115 | the 64-bit subtraction that wraps followed by the addition gives the true result |
| `FairQueue.StepKeepsInv` | orbotservice/external/badvpn/flow/PacketPassFairQueue.c:118-217 | every event keeps the queue: the tree is ordered and is exactly the queued flows, the sending flow's time is least, waiting packets have a send or a decision pending |
| `FairQueueRuns.RunKeepsInv` | orbotservice/external/badvpn/flow/PacketPassFairQueue.c:118-217 | hence every reachable state |
| `FairQueueRuns.NeverIdleWhileWaiting` | orbotservice/external/badvpn/flow/PacketPassFairQueue.c:118-217 | in every reachable state a queued packet implies a send in progress or the job pending, and the sending flow's time is least |
| `FairQueueRuns.Fairness` | orbotservice/external/badvpn/flow/PacketPassFairQueue.c:79-217 | while two flows compete their time gap is exactly their difference in service and stays within the larger of the starting gap and one largest packet, across renormalisations |
| `FairQueueRuns.NoStarvation` | orbotservice/external/badvpn/flow/PacketPassFairQueue.c:118-217 | while a flow waits, sends that complete are bounded by a measure fixed at the start, plus its own time and one for every flow that joins meanwhile; in every run |
| `FairQueueRuns.DecisionsBounded` | orbotservice/external/badvpn/flow/PacketPassFairQueue.c:118-151 | each decision waits for the previous send |
| `FairQueueRuns.PassedOverBounded` | orbotservice/external/badvpn/flow/PacketPassFairQueue.c:118-217 | so a waiting flow is passed over a bounded number of times, the bound growing only with flows that join |
| `FairQueueRuns.JoinersOvertake` | orbotservice/external/badvpn/flow/PacketPassFairQueue.c:153-180 | and it does grow: for every n there is a run from the start in which n flows join and n sends complete while a flow waits throughout |
| `FairQueue.ScheduleKeeps` | orbotservice/external/badvpn/flow/PacketPassFairQueue.c:118-137 | the flow scheduled comes before every flow left in the queue, by time and then address, and the queue stays consistent |
| `FairQueueObject.PacketPassFairQueue.constructor` | orbotservice/external/badvpn/flow/PacketPassFairQueue.c:219-266 | a fresh queue is empty and valid |
| `FairQueueObject.PacketPassFairQueue.GetCurrentTime` | orbotservice/external/badvpn/flow/PacketPassFairQueue.c:52-77 | the sending flow's time, else the lesser of the first queued and the previous flow's, and zero when there is neither |
| `FairQueueObject.PacketPassFairQueue.SubtractFromAll` | orbotservice/external/badvpn/flow/PacketPassFairQueue.c:99-111 | the loop lowers every flow's time, stopping at zero except for the flow just sent, which may wrap |
| `FairQueueObject.PacketPassFairQueue.IncrementSentFlow` | orbotservice/external/badvpn/flow/PacketPassFairQueue.c:79-116 | the loop over flows computes the specified renormalisation, wrapping arithmetic included |
| `FairQueueObject.PacketPassFairQueue.ScheduleJobHandler` | orbotservice/external/badvpn/flow/PacketPassFairQueue.c:139-151 | refines the queue's step and keeps it valid |
| `FairQueueObject.PacketPassFairQueue.InputHandlerSend` | orbotservice/external/badvpn/flow/PacketPassFairQueue.c:153-180 | a new packet is queued at no less than the current time unless its flow was just served |
| `FairQueueObject.PacketPassFairQueue.OutputHandlerDone` | orbotservice/external/badvpn/flow/PacketPassFairQueue.c:182-217 | charges the flow just sent and refines the queue's step |
| `FairQueueObject.PacketPassFairQueue.FlowInit` | orbotservice/external/badvpn/flow/PacketPassFairQueue.c:296-321 | adds an idle flow at time zero |
| `FairQueueObject.PacketPassFairQueue.PrepareFree` | orbotservice/external/badvpn/flow/PacketPassFairQueue.c:281-287 | from then on the sending flow may be freed as well |
| `FairQueueObject.PacketPassFairQueue.FlowFree` | orbotservice/external/badvpn/flow/PacketPassFairQueue.c:323-351 | removes the flow from tree and list and forgets it as previous flow, and as sending flow when the queue is being freed; nothing else changes |
| `MacTable.LearnKeeps` | orbotservice/external/badvpn/client/FrameDecider.c:68-130 | learning keeps one owner per address and every peer's list bounded, and the learned address maps to its sender |
| `MacTable.OnlyOldestDisplaced` | orbotservice/external/badvpn/client/FrameDecider.c:68-130 | only the learned address changes hands and only the sender's oldest is forgotten, when full |
| `MacTable.HistoryConsistent` | orbotservice/external/badvpn/client/FrameDecider.c:68-130 | so after any history of frames, arrivals and departures |
| `MacTable.OwnerIsLatest` | orbotservice/external/badvpn/client/FrameDecider.c:530-536 | an address is only ever mapped to the peer that last sent with it |
| `MacTable.LatestIsOwner` | orbotservice/external/badvpn/client/FrameDecider.c:530-536 | and it is, while that peer is there and has used fewer than the limit of other addresses since |
| `MacTableObject.MacTables.constructor` | orbotservice/external/badvpn/client/FrameDecider.c:352-381 | a fresh table is empty |
| `MacTableObject.MacTables.AddMacToPeer` | orbotservice/external/badvpn/client/FrameDecider.c:68-130 | entry pool, lists and tree refine the model of one owner per address and one bounded list per peer |
| `MacTableObject.MacTables.Lookup` | orbotservice/external/badvpn/client/FrameDecider.c:530-536 | the tree gives the model's owner |
| `MacTableObject.MacTables.PeerInit` | orbotservice/external/badvpn/client/FrameDecider.c:594-661 | a new peer has only free entries |
| `MacTableObject.MacTables.PeerFree` | orbotservice/external/badvpn/client/FrameDecider.c:663-709 | exactly the peer's addresses go |
| `MulticastIndex.JoinGroupKeeps` | orbotservice/external/badvpn/client/FrameDecider.c:209-273 | joining adds exactly that membership; only the peer's oldest one is displaced, when full |
| `MulticastIndex.RemoveGroupKeeps` | orbotservice/external/badvpn/client/FrameDecider.c:275-308 | removing removes exactly that membership and re-elects a master if needed |
| `MulticastIndex.PeerLeavesKeeps` | orbotservice/external/badvpn/client/FrameDecider.c:663-709 | a leaving peer loses exactly its memberships |
| `MulticastIndex.AddKeeps` | orbotservice/external/badvpn/client/FrameDecider.c:143-174 | a listed entry joins the chain of its signature and the index is consistent again |
| `MulticastIndex.AddMaster` | orbotservice/external/badvpn/client/FrameDecider.c:143-174 | it becomes master if and only if no entry had the signature |
| `MulticastIndex.RemoveLeavesPending` | orbotservice/external/badvpn/client/FrameDecider.c:176-207 | an entry leaves the chain of its signature, and every other entry is still indexed, with exactly one master for each signature left |
| `MulticastIndex.ElectedIsNew` | orbotservice/external/badvpn/client/FrameDecider.c:176-207 | when the master goes and others remain, the one elected was not a master before |
| `MulticastWalk.RemoveWalk` | orbotservice/external/badvpn/structure/LinkedList3.h:230-243 | when a membership goes in the middle of an enumeration it is no longer to come, and the others still are, in order |
| `MulticastWalk.JoinWalkExact` | orbotservice/external/badvpn/structure/LinkedList3.h:204-215 | when one is added in the middle of an enumeration, whoever is still a member and was still to come still is, nobody comes twice and nobody but the new member is added |
| `MulticastWalk.LeaveWalk` | orbotservice/external/badvpn/structure/LinkedList3.h:230-243 | when a peer leaves, all its memberships are no longer to come, and the others are, in order |
| `MulticastIndex.ReachedInv` | orbotservice/external/badvpn/client/FrameDecider.c:143-350 | every reachable state: tree, masters and lists describe exactly the memberships |
| `MulticastIndex.OneMasterPerSignature` | orbotservice/external/badvpn/client/FrameDecider.c:143-207 | a signature has a master if and only if some membership has it, and then exactly one |
| `MulticastIndex.DestinationsExact` | orbotservice/external/badvpn/client/FrameDecider.c:511-592 | a frame for a signature goes to each peer exactly once per matching membership |
| `MulticastIndex.SignaturesAgree` | orbotservice/external/badvpn/client/FrameDecider.c:132-141 | the signature of the Ethernet address a group maps to (section 6.4 of RFC 1112) is the group's own, for all groups |
| `FrameDecider.GroupTables.constructor` | orbotservice/external/badvpn/client/FrameDecider.c:352-381 | a fresh index is empty |
| `FrameDecider.GroupTables.AddGroupToPeer` | orbotservice/external/badvpn/client/FrameDecider.c:209-273 | refines joining, keeps the index valid and moves an iterator as the list operations do |
| `FrameDecider.GroupTables.RemoveGroupEntry` | orbotservice/external/badvpn/client/FrameDecider.c:275-308 | refines removing, keeps the index valid and moves on an iterator that stands at the entry |
| `FrameDecider.GroupTables.LowerGroupTimers` | orbotservice/external/badvpn/client/FrameDecider.c:310-344 | a group query lowers exactly the timers of that group's members, never raising one |
| `FrameDecider.GroupTables.NextInWalk` | orbotservice/external/badvpn/structure/LinkedList3.h:333-360 | the iterator gives the entries from where it stands to the end of the list, each once |
| `FrameDecider.GroupTables.PeerInit` | orbotservice/external/badvpn/client/FrameDecider.c:594-661 | refines a peer joining |
| `FrameDecider.GroupTables.PeerFree` | orbotservice/external/badvpn/client/FrameDecider.c:663-709 | the loop removes exactly the peer's memberships |
| `FrameDecider.FrameDecider.constructor` | orbotservice/external/badvpn/client/FrameDecider.c:352-381 | no peers, and nothing decided |
| `FrameDecider.FrameDecider.PeerInit` | orbotservice/external/badvpn/client/FrameDecider.c:594-661 | a new peer is last in the list and in both tables; a flood under way reaches it as well |
| `FrameDecider.FrameDecider.PeerFree` | orbotservice/external/badvpn/client/FrameDecider.c:663-709 | a leaving peer is gone from the list, from both tables and from the destinations still to come, wherever an enumeration stands; the others stay, in order |
| `FrameDecider.FrameDecider.LearnMac` | orbotservice/external/badvpn/client/FrameDecider.c:711-727 | a source address is learned for that peer, and the tables stay about the same peers |
| `FrameDecider.FrameDecider.JoinsGroup` | orbotservice/external/badvpn/client/FrameDecider.c:754-767 | a membership report makes the peer a member, also in the middle of an enumeration, which goes on over the changed list |
| `FrameDecider.FrameDecider.GroupExpires` | orbotservice/external/badvpn/client/FrameDecider.c:346-350 | a membership that is not renewed ends, and is no longer to come in an enumeration under way |
| `FrameDecider.FrameDecider.AnalyzeAndDecide` | orbotservice/external/badvpn/client/FrameDecider.c:390-542 | the destinations left to enumerate are exactly the frame's targets: flood, known unicast, or the matching memberships; a group query lowers exactly the timers of the members of that group; after a multicast decision that was not drained the decider is left stale, as the code does |
| `FrameDecider.FrameDecider.NextDestination` | orbotservice/external/badvpn/client/FrameDecider.c:544-592 | gives the targets one by one, in order, then none |
| `FrameDecider.FrameDecider.Forward` | orbotservice/external/badvpn/client/client.c:2634-2650 | the forwarding loop routes to every target once, each but the last flagged that more follow, and drains the decision |
| `FrameDecider.TargetsPresent` | orbotservice/external/badvpn/client/FrameDecider.c:390-542 | every target is a peer that is there |
| `FrameDecider.FloodReachesAll` | orbotservice/external/badvpn/client/FrameDecider.c:504-541 | an IGMP or broadcast frame, or one for an address nobody is known to have, goes to every peer there is exactly once |
| `FrameDecider.MacKeyUnique` | orbotservice/external/badvpn/client/FrameDecider.c:53-57 | addresses are compared as numbers without confusing two of them |
| `FrameDecider.MulticastTargets` | orbotservice/external/badvpn/client/FrameDecider.c:511-592 | a frame for a group's Ethernet address reaches every peer once per membership with that address |
| `Forwarding.FrameEndsUp` | orbotservice/external/badvpn/client/client.c:2634-2650 | from the device to the buffers: after a frame is forwarded, every peer's buffer has its own header and the unmodified frame as often as the peer is a target, as far as it has room, and nothing else has changed in any buffer |
| `Forwarding.PushTimesFills` | orbotservice/external/badvpn/flow/RouteBuffer.c:209-256 | as often as the peer is a target, or as often as there is room |
| `Forwarding.TimesTarget` | orbotservice/external/badvpn/client/client.c:2634-2650 | for a group's address that is once per membership with the address |
| `Forwarding.DeviceFrame` | orbotservice/external/badvpn/client/client.c:2634-2650 | the decider and the router as objects: the loop leaves every buffer so, and the decision drained |
| `DataProto.UnwantedIsDetaching` | orbotservice/external/badvpn/client/DataProto.c:530-556 | a buffer on a sink its flow does not want is busy and is the sink's detaching buffer, so the branches for an idle one are never taken |
| `DataProto.DetachingUnique` | orbotservice/external/badvpn/client/DataProto.c:182-201 | the assertion of scheduling a detach: no other buffer of that sink is detaching |
| `DataProto.AttachFreshKeeps` | orbotservice/external/badvpn/client/DataProto.c:149-161 | attaching an unattached buffer where its flow now wants it keeps the invariant |
| `DataProto.DetachIdleKeeps` | orbotservice/external/badvpn/client/DataProto.c:163-180 | detaching a buffer that is not being sent, with its flow wanting it nowhere, keeps the invariant |
| `DataProto.FinishDetachSettles` | orbotservice/external/badvpn/client/DataProto.c:203-218 | when a detach is finished the buffer is where its flow wants it now, unattached, or gone if it has no flow; its sink has no detaching buffer left |
| `DataProto.DoneSettles` | orbotservice/external/badvpn/client/DataProto.c:203-226 | when the busy handler fires the buffer ends on the sink its flow wants now, unattached, or freed if orphaned; nothing else moves |
| `DataProto.SinkFreeKeeps` | orbotservice/external/badvpn/client/DataProto.c:307-346 | a freed sink leaves no buffer attached to it |
| `DataProto.StepKeeps` | orbotservice/external/badvpn/client/DataProto.c:149-226 | every operation keeps: each buffer is on its desired sink or is its sink's unique, busy, detaching buffer |
| `DataProto.Run` | orbotservice/external/badvpn/client/DataProto.c:149-578 | hence every state of every run |
| `DataProto.NoLeak` | orbotservice/external/badvpn/client/DataProto.c:472-497 | a buffer whose flow is gone is always being sent and detached, hence freed later |
| `DataProtoObject.DataProtoSystem.FlowBufferScheduleDetach` | orbotservice/external/badvpn/client/DataProto.c:182-201 | refines scheduling a detach, with its assertions as preconditions that callers meet |
| `DataProtoObject.DataProtoSystem.SinkFree` | orbotservice/external/badvpn/client/DataProto.c:307-346 | refines the step and keeps the invariant |
| `DataProtoObject.DataProtoSystem.FlowInit` | orbotservice/external/badvpn/client/DataProto.c:407-470 | refines the step and keeps the invariant |
| `DataProtoObject.DataProtoSystem.FlowFree` | orbotservice/external/badvpn/client/DataProto.c:472-497 | refines the step and keeps the invariant |
| `DataProtoObject.DataProtoSystem.FlowAttach` | orbotservice/external/badvpn/client/DataProto.c:530-556 | refines the step and keeps the invariant |
| `DataProtoObject.DataProtoSystem.FlowDetach` | orbotservice/external/badvpn/client/DataProto.c:558-578 | refines the step and keeps the invariant |
| `DataProtoObject.DataProtoSystem.QueueDone` | orbotservice/external/badvpn/client/DataProto.c:220-226 | the busy handler's effect, for every state in which it can fire |
| `DataProtoObject.ReportsAlternate` | orbotservice/external/badvpn/client/DataProto.c:71-114 | up and down are reported in strict alternation however often the view flips in between |
| `RouteBuffer.RouteKeeps` | orbotservice/external/badvpn/flow/RouteBuffer.c:209-256 | routing moves nodes so that none is owned twice, pushes the packet on that buffer if it has room and touches no other |
| `RouteBuffer.FlowRouteExact` | orbotservice/external/badvpn/client/DataProto.c:499-528 | the buffer gets its own header and the unmodified frame, and the frame is still there if more destinations follow |
| `RouteBuffer.RouteAllExact` | orbotservice/external/badvpn/client/client.c:2634-2650 | for any destinations, repeats included, and any full buffers: each buffer ends with exactly the packets due to it, in order, within capacity |
| `RouteBuffer.ReleaseKeeps` | orbotservice/external/badvpn/flow/RouteBuffer.c:80-117 | sending takes packets first in first out and gives the node back |
| `RouteBuffer.PacketRouter.BufferInit` | orbotservice/external/badvpn/flow/RouteBuffer.c:119-152 | a new buffer gets its own free nodes |
| `RouteBuffer.PacketRouter.RouteTo` | orbotservice/external/badvpn/flow/RouteBuffer.c:209-256 | refines routing; fails exactly when the buffer has no free node |
| `RouteBuffer.PacketRouter.DoFlowRoute` | orbotservice/external/badvpn/client/DataProto.c:499-528 | refines writing the header in place and routing |
| `RouteBuffer.PacketRouter.DoRouteAll` | orbotservice/external/badvpn/client/client.c:2634-2650 | the loop refines routing to all destinations |
| `RouteBuffer.PacketRouter.OutputHandlerDone` | orbotservice/external/badvpn/flow/RouteBuffer.c:105-117 | refines releasing the packet sent and sending the next |
| `PacketProto.Framing` | orbotservice/external/badvpn/flow/PacketProtoDecoder.c:46-128 | for any packets within the limit and any way the stream is cut into reads, the decoder outputs exactly those packets and reports no error |
| `PacketProto.FramingAfterReset` | orbotservice/external/badvpn/flow/PacketProtoDecoder.c:176-182 | after resets at any points of any streams, a packet still being sent included, the next stream is decoded exactly and without error |
| `PacketProto.RunConserves` | orbotservice/external/badvpn/flow/PacketProtoDecoder.c:46-128 | for any input without error, packets output and bytes kept are together exactly the bytes received |
| `PacketProto.FramingUnique` | orbotservice/external/badvpn/flow/PacketProtoEncoder.c:51-64 | a stream is the encoding of at most one list of packets |
| `PacketProto.NoError` | orbotservice/external/badvpn/flow/PacketProtoDecoder.c:64-69 | a prefix of an encoded stream never looks oversized |
| `PacketProto.Encoder.InputHandlerDone` | orbotservice/external/badvpn/flow/PacketProtoEncoder.c:51-64 | the header written in front of the packet in place makes the encoding |
| `PacketProto.PacketProtoDecoder.constructor` | orbotservice/external/badvpn/flow/PacketProtoDecoder.c:130-166 | a fresh decoder |
| `PacketProto.PacketProtoDecoder.Offer` | orbotservice/external/badvpn/flow/PacketProtoDecoder.c:97-98 | the room offered to the input is positive and within the buffer |
| `PacketProto.PacketProtoDecoder.Wrap` | orbotservice/external/badvpn/flow/PacketProtoDecoder.c:90-94 | moving the bytes to the front of the same buffer keeps them |
| `PacketProto.PacketProtoDecoder.ProcessData` | orbotservice/external/badvpn/flow/PacketProtoDecoder.c:46-105 | hands out the next packet in place, without moving a byte, or makes room for more; an oversized header is the error |
| `PacketProto.PacketProtoDecoder.InputHandlerDone` | orbotservice/external/badvpn/flow/PacketProtoDecoder.c:107-119 | refines receiving data |
| `PacketProto.PacketProtoDecoder.OutputHandlerDone` | orbotservice/external/badvpn/flow/PacketProtoDecoder.c:121-128 | refines going on after a packet is sent |
| `PacketProto.PacketProtoDecoder.Reset` | orbotservice/external/badvpn/flow/PacketProtoDecoder.c:176-182 | forgets exactly the unprocessed bytes, leaving the place offered to the input as it was |
| `BProto.DecodeEncode` | orbotservice/external/badvpn/bproto_generator/bproto_functions.php:404-470 | a record read where one was written is that record |
| `BProto.EncodingUnique` | orbotservice/external/badvpn/bproto_generator/bproto_functions.php:404-470 | bytes are the encoding of at most one list of records |
| `BProto.SpanNext` | orbotservice/external/badvpn/bproto_generator/bproto_functions.php:522-665 | start and span, updated record by record, always bracket exactly the records of the field |
| `BProto.CursorRecord` | orbotservice/external/badvpn/bproto_generator/bproto_functions.php:758-918 | after a successful init the getter always finds a whole record within its span, so its assertions hold |
| `BProto.AtEndIffConsumed` | orbotservice/external/badvpn/bproto_generator/bproto_functions.php:712-747 | position equals span if and only if no value of the field is left |
| `BProtoObject.Parser.Init` | orbotservice/external/badvpn/bproto_generator/bproto_functions.php:473-711 | succeeds if and only if the bytes encode records that fit the description, types, sizes and cardinalities included; then every value is still to be got |
| `BProtoObject.Parser.FindField` | orbotservice/external/badvpn/bproto_generator/bproto_functions.php:538-670 | finds the field of matching id, type and size, if and only if there is one |
| `BProtoObject.Parser.CheckCounts` | orbotservice/external/badvpn/bproto_generator/bproto_functions.php:678-711 | accepts if and only if every field occurs as often as its cardinality allows |
| `BProtoObject.Parser.Get` | orbotservice/external/badvpn/bproto_generator/bproto_functions.php:758-918 | gives the first value of the field not yet got, skipping records of other fields, and none when all are got |
| `BProtoObject.Parser.GetUint` | orbotservice/external/badvpn/bproto_generator/bproto_functions.php:792-850 | the same for integers, little-endian |
| `BProtoObject.Parser.Reset` | orbotservice/external/badvpn/bproto_generator/bproto_functions.php:920-925 | all values of the field are to be got again |
| `BProtoObject.Parser.Forward` | orbotservice/external/badvpn/bproto_generator/bproto_functions.php:927-934 | no value of the field is left |
| `BProtoObject.Parser.GotEverything` | orbotservice/external/badvpn/bproto_generator/bproto_functions.php:712-747 | true if and only if every field is fully consumed |
| `BProtoObject.Writer.constructor` | orbotservice/external/badvpn/bproto_generator/bproto_functions.php:334-355 | an empty message |
| `BProtoObject.Writer.Add` | orbotservice/external/badvpn/bproto_generator/bproto_functions.php:384-470 | appends exactly one record of the field |
| `BProtoObject.Writer.AddUint` | orbotservice/external/badvpn/bproto_generator/bproto_functions.php:407-421 | the record's integer reads back as the value given |
| `BProtoObject.Writer.Finish` | orbotservice/external/badvpn/bproto_generator/bproto_functions.php:357-383 | the bytes parse, and only as the records written |
| `BProtoObject.FinishedParses` | orbotservice/external/badvpn/bproto_generator/bproto_functions.php:357-383 | any records written within the cardinalities parse, as nothing else |
| `BProtoObject.ReadBack` | orbotservice/external/badvpn/bproto_generator/bproto_functions.php:332-938 | round trip: after finish and init every field has exactly the values written, in order |
| `Relays.RelayedThroughLinked` | orbotservice/external/badvpn/client/client.c:1796-1815 | a relayed peer's relay provides relaying over its own link: neither the peer itself nor a relayed one |
| `Relays.Assign` | orbotservice/external/badvpn/client/client.c:2652-2678 | ends, keeps the bookkeeping consistent, and leaves nobody waiting if there is a relay |
| `Relays.AssignExact` | orbotservice/external/badvpn/client/client.c:2652-2678 | the waiting peers become, in order, the last users of the first relay, and nobody else is touched |
| `Relays.Disconnect` | orbotservice/external/badvpn/client/client.c:1772-1784 | ends with no users, all of them waiting, in order |
| `Relays.DisableMoves` | orbotservice/external/badvpn/client/client.c:1765-1794 | a provider's users move in order to the first other provider, or wait if there is none |
| `Relays.DisableRoles` | orbotservice/external/badvpn/client/client.c:1765-1794 | nobody else changes role |
| `Relays.FreeLinkKeeps` | orbotservice/external/badvpn/client/client.c:1694-1725 | a link is freed only when no other peer's packets go through its sink |
| `RelayRuns.CleanupKeeps` | orbotservice/external/badvpn/client/client.c:1727-1743 | afterwards the peer is not reached in any way, as asserted |
| `RelayRuns.StepKeeps` | orbotservice/external/badvpn/client/client.c:1727-1886 | every step keeps: at most one of linked, relayed and waiting; relays linked; users the inverse of relays used; nobody waits while a relay exists |
| `RelayRuns.RunAgrees` | orbotservice/external/badvpn/client/client.c:1727-1886 | over every run, links, providers and requests are those an independent account of the events gives |
| `RelayRuns.EveryRun` | orbotservice/external/badvpn/client/client.c:1727-1886 | after every run a peer that asked for a relay is relayed through a linked provider if there is one and waits otherwise, and nobody else is relayed or waits |
| `RelayTable.Client.RegisterNeedRelay` | orbotservice/external/badvpn/client/client.c:1860-1872 | puts the peer on the waiting list |
| `RelayTable.Client.UnregisterNeedRelay` | orbotservice/external/badvpn/client/client.c:1874-1886 | takes the peer off the waiting list |
| `RelayTable.Client.InstallRelaying` | orbotservice/external/badvpn/client/client.c:1796-1815 | links user and relay both ways |
| `RelayTable.Client.DoFreeRelaying` | orbotservice/external/badvpn/client/client.c:1817-1837 | unlinks user and relay both ways |
| `RelayTable.Client.DoInitLink` | orbotservice/external/badvpn/client/client.c:1602-1692 | the peer is reached over its own sink |
| `RelayTable.Client.DoFreeLink` | orbotservice/external/badvpn/client/client.c:1694-1725 | refines freeing the link; no peer's packets go to the freed sink |
| `RelayTable.Client.AssignRelays` | orbotservice/external/badvpn/client/client.c:2652-2678 | the loop refines the assignment and ends |
| `RelayTable.Client.EnableRelayProvider` | orbotservice/external/badvpn/client/client.c:1745-1763 | refines enabling a provider |
| `RelayTable.Client.DisableRelayProvider` | orbotservice/external/badvpn/client/client.c:1765-1794 | refines disabling a provider, both loops included |
| `RelayTable.Client.DoNeedRelay` | orbotservice/external/badvpn/client/client.c:1839-1858 | refines asking for a relay |
| `RelayTable.Client.CleanupConnections` | orbotservice/external/badvpn/client/client.c:1727-1743 | refines the clean-up; the closing assertions hold |
| `RelayTable.Client.PeerRemove` | orbotservice/external/badvpn/client/client.c:1510-1523 | refines the departure |
| `RelayTable.Client.PeerReset` | orbotservice/external/badvpn/client/client.c:1888-1892 | refines the reset |
| `RelayTable.Client.GetFreshLink` | orbotservice/external/badvpn/client/client.c:2379-2386 | refines connecting afresh, failure included |
| `RelayTable.Client.DataProtoHandler` | orbotservice/external/badvpn/client/client.c:2595-2613 | refines coming up and going down |
| `RelayTable.Client.CannotBind` | orbotservice/external/badvpn/client/client.c:2090-2105 | refines turning to a relay |
| `Dhcp.StepKeeps` | orbotservice/external/badvpn/dhcpclient/BDHCPClientCore.c:204-677 | every event keeps: exactly the phase's timers run, counters are in range, reports alternate, the lease timers belong to the last acknowledgement |
| `Dhcp.RunKeeps` | orbotservice/external/badvpn/dhcpclient/BDHCPClientCore.c:204-677 | in every run UP and DOWN alternate, the user was last told UP exactly while there is a lease, about the client's present non-zero address |
| `Dhcp.StartXid` | orbotservice/external/badvpn/dhcpclient/BDHCPClientCore.c:568-591 | no transaction id drawn serves more than eight starts |
| `Dhcp.LeaseRespected` | orbotservice/external/badvpn/dhcpclient/BDHCPClientCore.c:629-677 | if no timer is served more than a given time late, the client is never up more than twice that time past the end of the lease last acknowledged; on time, never past it (section 4.4.5 of RFC 2131) |
| `Dhcp.UpExactly` | orbotservice/external/badvpn/dhcpclient/BDHCPClientCore.c:501-536 | a client that is not up comes up, telling the user once, exactly when its server grants the address it asked for |
| `Dhcp.DownExactly` | orbotservice/external/badvpn/dhcpclient/BDHCPClientCore.c:408-677 | a client that is up goes down, telling the user once, exactly when its server refuses or its lease timer expires |
| `Dhcp.RenewedExactly` | orbotservice/external/badvpn/dhcpclient/BDHCPClientCore.c:537-565 | a lease is renewed exactly when its server grants the address after a request for renewal, and runs from then |
| `Dhcp.RequestsExactly` | orbotservice/external/badvpn/dhcpclient/BDHCPClientCore.c:479-500 | an address is asked for exactly when one is offered to a client that is discovering, and it is the address offered |
| `Dhcp.AddressStays` | orbotservice/external/badvpn/dhcpclient/BDHCPClientCore.c:479-565 | address and server do not change while up |
| `DhcpOptions.ItemsPrefix` | orbotservice/external/badvpn/dhcpclient/BDHCPClientCore.c:272-309 | the bytes of an option list determine its items |
| `DhcpOptions.ParseOptions` | orbotservice/external/badvpn/dhcpclient/BDHCPClientCore.c:272-393 | succeeds if and only if the bytes are a list of options of the right sizes with one end mark, only padding after it; of every option the last occurrence counts |
| `DhcpOptions.ReadServers` | orbotservice/external/badvpn/dhcpclient/BDHCPClientCore.c:371-386 | the first sixteen name servers of the option |
| `DhcpOptions.ParseReply` | orbotservice/external/badvpn/dhcpclient/BDHCPClientCore.c:213-406 | a packet is read as the one reply it carries for this client, and ignored if and only if it carries none |
| `DhcpObject.BDHCPClientCore.constructor` | orbotservice/external/badvpn/dhcpclient/BDHCPClientCore.c:684-794 | starts the process at once |
| `DhcpObject.BDHCPClientCore.RecvHandlerDone` | orbotservice/external/badvpn/dhcpclient/BDHCPClientCore.c:204-566 | refines receiving a message and keeps the invariant |
| `DhcpObject.BDHCPClientCore.RecvPacket` | orbotservice/external/badvpn/dhcpclient/BDHCPClientCore.c:204-566 | any packet acts as the reply it carries, and changes nothing if it carries none |
| `DhcpObject.BDHCPClientCore.TimerHandler` | orbotservice/external/badvpn/dhcpclient/BDHCPClientCore.c:593-677 | refines each timer; the handlers' assertions hold |
| `DhcpObject.BDHCPClientCore.GetClientIP` | orbotservice/external/badvpn/dhcpclient/BDHCPClientCore.c:816-821 | the address last reported up |
| `PacketPass.StepKeeps` | orbotservice/external/badvpn/flow/PacketPassInterface.h:149-227 | every call and job keeps: each pending job matches its interface's state, and every packet's history is a prefix of an allowed one |
| `PacketPass.JobAsserts` | orbotservice/external/badvpn/flow/PacketPassInterface.c:32-68 | each job finds its interface in the state it asserts |
| `PacketPass.RunKeeps` | orbotservice/external/badvpn/flow/PacketPassInterface.h:149-227 | in every run, for any number of interfaces sharing the job list |
| `PacketPass.EveryRun` | orbotservice/external/badvpn/flow/PacketPassInterface.h:106-227 | from the start, whatever interfaces are made and freed in between: interfaces and jobs match, every packet's history is a prefix of an allowed one, one done callback per packet no longer under way, at most one cancel callback per packet |
| `PacketPass.FreeKeeps` | orbotservice/external/badvpn/flow/PacketPassInterface.h:130-138 | freeing an interface at any time leaves no job of it behind |
| `PacketPass.OncePerSend` | orbotservice/external/badvpn/flow/PacketPassInterface.h:149-227 | exactly one done callback per packet no longer under way; at most one cancel callback per packet |
| `PacketPass.NothingPending` | orbotservice/external/badvpn/base/BPending.c:63-84 | once the job list is empty every interface is ready, or its receiver is at work and has heard of any cancel request |
| `PacketPass.OlderJobsWait` | orbotservice/external/badvpn/base/BPending.c:63-162 | whatever a job brings about runs before the jobs that were already pending, which keep their order |
| `PacketPassObject.BPendingGroup.Set` | orbotservice/external/badvpn/base/BPending.c:130-146 | the job is pending once, in front |
| `PacketPassObject.BPendingGroup.Unset` | orbotservice/external/badvpn/base/BPending.c:148-162 | exactly that job is no longer pending |
| `PacketPassObject.BPendingGroup.TakeJob` | orbotservice/external/badvpn/base/BPending.c:63-84 | the job set last comes off first |
| `PacketPassObject.PacketPassInterface.constructor` | orbotservice/external/badvpn/flow/PacketPassInterface.h:106-128 | a ready interface without pending jobs |
| `PacketPassObject.PacketPassInterface.Free` | orbotservice/external/badvpn/flow/PacketPassInterface.h:130-138 | exactly the interface's jobs leave the list |
| `PacketPassObject.PacketPassInterface.SenderSend` | orbotservice/external/badvpn/flow/PacketPassInterface.h:181-198 | refines sending |
| `PacketPassObject.PacketPassInterface.SenderRequestCancel` | orbotservice/external/badvpn/flow/PacketPassInterface.h:200-227 | refines the cancel request in each state |
| `PacketPassObject.PacketPassInterface.Done` | orbotservice/external/badvpn/flow/PacketPassInterface.h:149-162 | refines the receiver's done; a pending cancel job goes |
| `PacketPassObject.PacketPassInterface.JobOperation` | orbotservice/external/badvpn/flow/PacketPassInterface.c:32-43 | the receiver gets exactly the packet sent |
| `PacketPassObject.PacketPassInterface.JobRequestCancel` | orbotservice/external/badvpn/flow/PacketPassInterface.c:45-55 | runs only while busy and asked to cancel |
| `PacketPassObject.PacketPassInterface.JobDone` | orbotservice/external/badvpn/flow/PacketPassInterface.c:57-68 | the sender is told and may send again |
| `SPProto.RoundTrip` | orbotservice/external/badvpn/client/SPProtoDecoder.c:42-155 | for every length-preserving invertible cipher, hash, block size and payload: decoding the encoding gives the payload and password back |
| `SPProto.OnlyEncodings` | orbotservice/external/badvpn/client/SPProtoDecoder.c:42-155 | conversely a packet that decodes is the encoding of what was decoded |
| `SPProto.PaddedEnd` | orbotservice/external/badvpn/client/SPProtoDecoder.c:87-106 | the backward scan stops exactly at the end of the plaintext, whatever its last bytes are |
| `SPProto.UnpaddedIsPadded` | orbotservice/external/badvpn/client/SPProtoDecoder.c:87-106 | what the scan accepts is exactly a padded plaintext |
| `SPProto.DecodesExactly` | orbotservice/external/badvpn/client/SPProtoDecoder.c:42-155 | a packet decodes if and only if it is the encoding of some payload that is not too long and there is a key if there is encryption |
| `SPProto.EncodeLength` | orbotservice/external/badvpn/client/SPProtoEncoder.c:97-163 | the length of an encoded packet depends on the payload's length only |
| `SPProto.PayloadMtuExact` | orbotservice/external/badvpn/protocol/spproto.h:152-163 | a payload fits a carrier packet if and only if it is within the computed maximum |
| `SPProto.CarrierMtuExact` | orbotservice/external/badvpn/protocol/spproto.h:173-193 | the computed carrier size is what the longest payload needs and suffices for shorter ones |
| `SPProto.AlignUpUnique` | orbotservice/external/badvpn/misc/balign.h:53-57 | aligning up gives the one multiple less than a step above |
| `SPProtoObject.SPProtoEncoder.WriteHeader` | orbotservice/external/badvpn/client/SPProtoEncoder.c:107-132 | header and hash are written in place in front of the payload, which stays |
| `SPProtoObject.SPProtoEncoder.WritePadding` | orbotservice/external/badvpn/client/SPProtoEncoder.c:137-144 | the loop makes the padded plaintext |
| `SPProtoObject.SPProtoEncoder.EncodeWork` | orbotservice/external/badvpn/client/SPProtoEncoder.c:97-163 | the output buffer holds the encoding of the payload, whatever was in the buffers otherwise |
| `SPProtoObject.SPProtoDecoder.ReadPadding` | orbotservice/external/badvpn/client/SPProtoDecoder.c:87-106 | finds the end of the plaintext if and only if the last block is properly padded |
| `SPProtoObject.SPProtoDecoder.CheckHash` | orbotservice/external/badvpn/client/SPProtoDecoder.c:132-150 | compares with the hash taken over the zeroed field and leaves the buffer as it was |
| `SPProtoObject.SPProtoDecoder.DecodeWork` | orbotservice/external/badvpn/client/SPProtoDecoder.c:42-155 | the result is the specified decoding, for every packet, and the input buffer is unchanged |
| `SPProtoObject.Exchange` | orbotservice/external/badvpn/client/SPProtoDecoder.c:42-155 | the two work functions together, on their own buffers, give the payload back |
| `FragmentEviction.OthersStand` | orbotservice/external/badvpn/client/FragmentProtoAssembler.c:56-103 | a chunk makes exactly one other frame go, the one whose entry was taken longest ago, if and only if it needs an entry and all are taken; every other frame stays as it is |
| `FragmentEviction.RoomForAll` | orbotservice/external/badvpn/client/FragmentProtoAssembler.c:69-103 | while fewer than num_frames frames are held, no chunk makes another frame go |
| `FragmentEviction.TimedOutStartsOver` | orbotservice/external/badvpn/client/FragmentProtoAssembler.c:180-195 | a chunk of a timed-out frame finds it as if nothing of it had come |
| `FragmentEviction.PurgeExact` | orbotservice/external/badvpn/client/FragmentProtoAssembler.c:116-139 | the end of a packet gives up exactly the timed-out frames, and only when the clock is renormalised |
| `FragmentEviction.OtherArrives` | orbotservice/external/badvpn/client/FragmentProtoAssembler.c:56-103 | another frame's chunk takes at most one entry behind a frame's own and makes it go only as the last of num_frames |
| `FragmentEviction.CountedUndisturbed` | orbotservice/external/badvpn/client/FragmentProtoAssembler.c:56-285 | over runs: a frame's entry stands until num_frames other entries are taken after it or more than num_frames packets pass without a chunk of it |
| `FragmentEviction.AnyOrderCounted` | orbotservice/external/badvpn/client/FragmentProtoAssembler.c:155-285 | a frame whose chunks come in any order amid any traffic is delivered once, with its last chunk, under conditions that can be counted on the traffic |
| `FragmentEviction.SparseCounted` | orbotservice/external/badvpn/client/FragmentProtoAssembler.c:56-103 | counting every chunk of another frame as taking an entry is enough, which needs no look at the table |
| `FragmentEviction.SentFrameRebuildsSparse` | orbotservice/external/badvpn/client/DatagramPeerIO.c:199-202 | a frame as the sender cuts it, its chunks permuted amid fewer than num_frames foreign chunks, is delivered once |
| `FragmentSending.SentWhenFull` | orbotservice/external/badvpn/client/FragmentProtoDisassembler.c:84-101 | a packet of chunks goes out if and only if no further chunk fits or no latency is allowed |
| `FragmentSending.DoneWhenWritten` | orbotservice/external/badvpn/client/FragmentProtoDisassembler.c:72-82 | the sender is told a frame is done exactly when its last byte is written; otherwise the packet went out full |
| `FragmentSending.DeliveredAtOnce` | orbotservice/external/badvpn/client/FragmentProtoDisassembler.c:39-158 | without latency the frames delivered are at all times all those sent, but for one not yet written to its end |
| `FairQueueAccount.SendHolds` | orbotservice/external/badvpn/flow/PacketPassFairQueue.c:153-180 | a packet handed over is held with its own length, being sent or waiting; the others' packets stay |
| `FairQueueAccount.StepAgrees` | orbotservice/external/badvpn/flow/PacketPassFairQueue.c:118-217 | every event keeps the account of packets handed over and sent true of the queue |
| `FairQueueAccount.SentAsHandedOver` | orbotservice/external/badvpn/flow/PacketPassFairQueue.c:118-217 | in every run the packet being sent is the one its sender handed over, with that length, and all earlier ones of the flow are sent |
| `FairQueueAccount.ServedIsSent` | orbotservice/external/badvpn/flow/PacketPassFairQueue.c:182-217 | over a run a flow is charged exactly for the packets sent in it, each the weight plus the length handed over |
| `FairQueueAccount.FairnessOfPackets` | orbotservice/external/badvpn/flow/PacketPassFairQueue.c:79-217 | after any run from the start, however long two flows compete, the packets of the two that are sent, weighed by the lengths their senders handed over, differ by a bounded weight |
| `FairQueueAccount.CurrentTimeLeast` | orbotservice/external/badvpn/flow/PacketPassFairQueue.c:52-77 | the current time is the least time of the flows waiting, being sent or just sent, and 0 without any |
| `FairQueueAccount.SendTimes` | orbotservice/external/badvpn/flow/PacketPassFairQueue.c:153-170 | a flow queues at the later of its own and the current time, or at its own if it was just sent; other times stay |
| `FairQueueAccount.DecisionExact` | orbotservice/external/badvpn/flow/PacketPassFairQueue.c:39-47 | a decision sends the waiting flow with the least time, and of equals the one with the least address |
| `FairQueueAccount.ChargedExactly` | orbotservice/external/badvpn/flow/PacketPassFairQueue.c:79-116 | while it fits, exactly the flow sent gains exactly the amount |
| `FairQueueAccount.LoweredExactly` | orbotservice/external/badvpn/flow/PacketPassFairQueue.c:79-116 | when it does not fit, all times fall so that the first waiting flow is at 0; no competing flow moves against another |
| `DataProtoAccount.FlowsExactly` | orbotservice/external/badvpn/client/DataProto.c:406-579 | each event changes the flows and the sink each wants exactly as it says, also while a buffer is busy or detaching |
| `DataProtoAccount.SendingExactly` | orbotservice/external/badvpn/client/DataProto.c:131-226 | a sink sends exactly what its queue started and has not finished |
| `DataProtoAccount.StepAgrees` | orbotservice/external/badvpn/client/DataProto.c:131-579 | the account of the events stays true of flows and sinks |
| `DataProtoAccount.EveryRun` | orbotservice/external/badvpn/client/DataProto.c:131-579 | after every run a flow wants the sink of its last attach, and its buffer is on the sink that is sending it, else on the wanted one, and gone once the flow is freed and nothing is being sent |
| `DataProtoAccount.MovesWhenDone` | orbotservice/external/badvpn/client/DataProto.c:538-553 | a flow attached elsewhere while its packet is being sent ends on that sink when the packet is done |
| `PacketPassAccount.StepAgrees` | orbotservice/external/badvpn/flow/PacketPassInterface.h:106-227 | the account of the calls stays true of every interface |
| `PacketPassAccount.EveryPacket` | orbotservice/external/badvpn/flow/PacketPassInterface.h:106-227 | in every run the packets of an interface are exactly those handed over since its initialisation, in order; the receiver got each as it was, unless withdrawn first |
| `PacketPassAccount.SendThenExecute` | orbotservice/external/badvpn/flow/PacketPassInterface.h:181-198 | after a send the next job hands the receiver exactly that packet |
| `PacketPassAccount.DoneThenExecute` | orbotservice/external/badvpn/flow/PacketPassInterface.h:149-162 | after the receiver is done the next job tells the sender, and a pending cancel call is dropped |
| `PacketPassAccount.CancelThenExecute` | orbotservice/external/badvpn/flow/PacketPassInterface.h:200-227 | a cancel request reaches a receiver at work next; a packet not yet passed on is withdrawn |
| `DhcpDialogue.SaysExactly` | orbotservice/external/badvpn/dhcpclient/BDHCPClientCore.c:71-195 | which message every event sends: to an offer, to a request timer, to renew the address the client has, or a discovery; nothing while one is being sent |
| `DhcpDialogue.SendingExactly` | orbotservice/external/badvpn/dhcpclient/BDHCPClientCore.c:71-202 | a message is being sent from when it goes out until the interface is done with it |
| `DhcpDialogue.FirstWords` | orbotservice/external/badvpn/dhcpclient/BDHCPClientCore.c:568-591 | a new client sends a discovery with the first id drawn and waits the reset time |
| `DhcpDialogue.XidExactly` | orbotservice/external/badvpn/dhcpclient/BDHCPClientCore.c:568-591 | a new id is drawn exactly on starting over after a refusal or a lost lease or with an id used up |
| `DhcpDialogue.PhaseExactly` | orbotservice/external/badvpn/dhcpclient/BDHCPClientCore.c:204-677 | where every event leads |
| `DhcpDialogue.TimersExactly` | orbotservice/external/badvpn/dhcpclient/BDHCPClientCore.c:440-677 | which timers run after every event and when each is due; renewal is due halfway through the lease, its end another half later |
| `DhcpDialogue.TakenExactly` | orbotservice/external/badvpn/dhcpclient/BDHCPClientCore.c:440-566 | address and server are those of the offer taken, lease, mask, router and servers those of the acknowledgement; nothing else changes them |
| `DhcpDialogue.HoldsFromOffer` | orbotservice/external/badvpn/dhcpclient/BDHCPClientCore.c:204-677 | from an offer on until it is given up, the client keeps its id, address and server and asks for nothing else |
| `DhcpDialogue.GivesUpExactly` | orbotservice/external/badvpn/dhcpclient/BDHCPClientCore.c:602-627 | an unanswered request is sent MAX_REQUESTS times in all and given up at exactly the next expiry |
| `MulticastRuns.ReportRecent` | orbotservice/external/badvpn/client/FrameDecider.c:209-273 | a reported group becomes the newest of its peer; another stays as recent as it was unless displaced |
| `MulticastRuns.EveryRun` | orbotservice/external/badvpn/client/FrameDecider.c:209-350 | over any history a standing membership was reported and times out as its last report or a query says; one reported stands while its peer reported fewer than the maximum of others since |
| `MulticastRuns.SameListSameMac` | orbotservice/external/badvpn/client/FrameDecider.c:132-141 | two groups share a list of memberships if and only if they share their Ethernet address |
| `FrameDecider.UnicastFollowsSender` | orbotservice/external/badvpn/client/FrameDecider.c:501-540 | a frame to one address goes only to the peer that last sent with it, and to all before anybody has |
| `DataReceive.FindPeer` | orbotservice/external/badvpn/client/DPReceive.c:43-53 | the first peer with the id, if and only if there is one |
| `DataReceive.ReceiverRecv` | orbotservice/external/badvpn/client/DPReceive.c:55-171 | exactly which packets are dropped, passed to the device, or relayed, and with which frame |
| `DataReceive.ReadsWhatIsWritten` | orbotservice/external/badvpn/client/DPReceive.c:72-105 | a receiver reads from a data packet exactly the ids, flags and frame its sender wrote |
| `DataReceive.ArrivesDirectly` | orbotservice/external/badvpn/client/DPReceive.c:107-123 | a frame addressed to a device is taken as its sender's if and only if the sender is known |
| `DataReceive.GoesThroughRelay` | orbotservice/external/badvpn/client/DPReceive.c:124-154 | a relay sends a frame on if and only if the sender is its client and the destination another known peer, unchanged and under the first sender's id |
| `DataReceive.RelayedOnce` | orbotservice/external/badvpn/client/DPReceive.c:130-134 | what a relay sends on is never relayed again |
| `RelayChoice.StepChooses` | orbotservice/external/badvpn/client/client.c:2652-2678 | a peer is only ever given the provider that has been one the longest, and keeps its relay while that is a provider |
| `RelayChoice.RunOrder` | orbotservice/external/badvpn/client/client.c:1745-1793 | after every run the providers are listed in the order in which they became ones |
| `WireFormats.DigitLE` | orbotservice/external/badvpn/misc/byteorder.h:107-152 | byte i of a little-endian integer is its digit of weight 256 to the i |
| `WireFormats.ChunkBytes` | orbotservice/external/badvpn/protocol/fragmentproto.h:56-79 | the bytes of a chunk, field by field |
| `WireFormats.PacketBytes` | orbotservice/external/badvpn/protocol/packetproto.h:55-64 | the bytes of a packet on a stream |
| `WireFormats.RecordBytes` | orbotservice/external/badvpn/bproto/BProto.h:41-84 | the bytes of a message entry, number or data |
| `WireFormats.DataHeaderBytes` | orbotservice/external/badvpn/client/DataProto.c:499-514 | the bytes of a data packet's header |
| `WireFormats.CardinalitiesMean` | orbotservice/external/badvpn/bproto_generator/bproto_functions.php:674-700 | which counts of each field a message needs |
| `WireFormats.PlaintextBytes` | orbotservice/external/badvpn/client/SPProtoEncoder.c:104-131 | password, hash and payload; the hash is of all three with zeros in its place |
| `WireFormats.EncryptedBytes` | orbotservice/external/badvpn/client/SPProtoEncoder.c:135-157 | initialization vector in the clear, then what decrypts to the plaintext, a one and zeros |
| `WireFormats.ForgeryIsCollision` | orbotservice/external/badvpn/client/SPProtoDecoder.c:132-150 | two different plaintexts accepted under one hash field are a collision of the hash, so the hash covers every byte |
| `SPProto.CarrierMtuRefuses` | orbotservice/external/badvpn/protocol/spproto.h:173-193 | no carrier size is given exactly if the packet with a block to spare leaves the range of an int |

## Left out

- Sockets, TLS, the operating system's side of timers, logging, argument parsing and failed memory allocation.
- PeerChat, StreamPeerIO, PasswordListener, the sockets and buffers of DatagramPeerIO, and the exchange of binding addresses in client.c, which only wire other parts together.
- IGMP and IPv4 parsing in FrameDecider.c: joining a group, a group query and a plain frame are events.
- The options the DHCP client writes into the messages it sends: a message sent is its type, transaction id, address and server.
- The cipher that turns a seed into one-time passwords: a seed is its list of passwords.
- The FIFO and priority queues, PacketBuffer, LineBuffer, connectors, copiers and notifiers, which are easier relatives of the parts modelled.
- dostest/StreamBuffer.c, a helper of a test tool.
- The storage of frame and chunk entries: frame slots are records in a sequence field, not separately allocated arrays, so aliasing between their buffers is not modelled. The same holds for the buffers of RouteBuffer nodes.
- The pool of group entry slots: a membership is named by its peer and group; the limit per peer and the displacement of the oldest are modelled.
- The freeing phase of the data protocol source, which only relaxes assertions.
- FragmentEndToEnd.EndToEnd: the channel keeps packets in order and loses none, and frames are cancelled only while nothing of them is written; lost packets and late cancellations are the subject of FragmentNet, reordered chunks of AnyOrder and SentFrameRebuilds, one frame at a time.
- FragmentCancel.CancelRunIff: speaks of one cancellation of a partly written frame; any number of them is the subject of FragmentNet.NetExact.
- FragmentNet.NetExact: packets that arrive do so in order and once. Its two conditions are sufficient; that each is needed is shown by a run.
- SecuredLink.SecuredEndToEnd: datagrams arrive in order and none is lost; losses are the subject of SecuredNet. Unbinding, which forgets all seeds, is not part of either.
- FragmentEndToEnd.AnyOrder: requires that the frame's entry is not evicted or timed out in between; FragmentEviction.AnyOrderCounted states the same under conditions counted on the traffic.
- BProtoObject.Writer.Add: takes the payload as an argument, where the generated code returns the place for the caller to fill.
- RelayTable.Client.GetFreshLink: whether setting up a link succeeds is a parameter; binding and connecting themselves are not modelled.
- The relay flows DPRelay.c makes for pairs of other peers on demand and frees after a time without traffic: DataReceive says which frames are relayed and what is sent on, not through which flow.
- DataReceive.ReceiverRecv: the analysis of a received frame, which learns addresses and groups, is FrameDecider's; the list of peers is a value here.
- Dhcp.LeaseRespected: speaks of the clock the timers use; drift against the server's clock is not modelled.
