# Verified model of the XDMA descriptor-ring protocol

A Dafny model of a userspace poll-mode driver for a scatter-gather DMA engine, and of the hardware it
drives. The driver hands work to a DMA channel through a ring of 32-byte descriptors and learns of
completion by polling a counter that the channel writes back to memory. A forwarding application
receives into one array of buffers and transmits the slice just received.

`dafny verify dfyconfig.toml` checks everything.

## How it is built

| file | what it holds |
|---|---|
| `words.dfy` | the 32-bit control word, its bit operations, and what is read out of it |
| `ring.dfy` | descriptors, addresses, next links, initialisation and clearing of a ring |
| `engine.dfy` | one engine: driver fields, shared counter, and the channel as a step relation |
| `transmit.dfy` | how a batch of packets becomes a descriptor list |
| `gather.dfy` | reading that list back, by links and by adjacency blocks |
| `send.dfy` | the transmit engine as two interleaved processes |
| `receive.dfy` | the receive engine as two interleaved processes |
| `polls.dfy` | what the polls of a receive call find, and when it gives up |
| `early.dfy` | when a receive call stops the engine |
| `stops.dfy` | what a device stop between receive calls loses |
| `idle.dfy` | what an engine that is not running looks like |
| `lengths.dfy` | which streams get their packet lengths right |
| `forward.dfy` | the forwarder as three interleaved processes, with buffer memory and the two wires |
| `progress.dfy` | which rounds of the forwarder come to an end |
| `reach.dfy` | runs of the receive engine as runs of the forwarder, and that harvests of every size happen |
| `registers.dfy` | the channel registers under interleaved starts and stops |
| `device.dfy` | classes for buffers, BAR and engines, and their routines, updated in place |
| `xmit.dfy`, `recv.dfy` | the transmit and the receive routine over those classes |
| `runs.dfy`, `loop.dfy` | the two calls of a round as runs of the forwarder, and the forwarding loop over the classes |
| `lifetime.dfy` | stop, close and removal, and what they release |
| `order.dfy` | the order in which they release it |
| `ports.dfy` | the same operations on a device object |
| `barload.dfy` | loading a file into a BAR window |

There are two layers. The machines of `send.dfy`, `receive.dfy` and `forward.dfy` are state machines
over values: one event is one step of the driver thread, one step of a channel, a call, or a device
stop, and a run is any sequence of events. The safety and progress results are about all runs. The
classes of `device.dfy` and the methods of `xmit.dfy`, `recv.dfy` and `loop.dfy` are the driver's
routines, loop by loop, over objects and arrays. Between any two of the driver's reads they let the
hardware take any steps. The contracts of `xmit.dfy` and `recv.dfy` say that a call is a run of the
machine of `send.dfy` or `receive.dfy`, and those of `loop.dfy` that the loop is a run of the machine of
`forward.dfy`, with both channels at work between the polls of a transmit call; so the results about
runs are results about them. A wait loop that may never end is observed for `patience` polls.

The ring size is any N from 2 to 64 (the adjacency field has six bits); the source fixes 32. Batches,
runs, calls and epochs are unbounded.

## What is assumed of the hardware

- A step transfers one descriptor, as one atomic event, and writes the count back to the address that
  the channel found in its registers when RUN went up, if poll mode was on then. It does so whenever the
  descriptor says COMPLETED; for one that does not, the environment chooses at each step. Descriptors are
  fetched by following next links from the address in the first-descriptor registers, the count is
  monotone while RUN is up, a descriptor that says STOPPED halts the channel, and so does clearing RUN,
  a wrong magic, and an address that names no slot of the ring.
- A descriptor of length zero on the transmit side either halts the channel uncounted or is counted as
  completed; the environment chooses at each step. Safety holds either way; the progress results are
  stated for channels that may count it and for channels that do not. On the receive side an empty descriptor never completes.
- A receive step puts between 1 and the descriptor's length of bytes into its buffer, and leaves the
  byte count at the descriptor's source address. The driver reads it from one slot behind the ring.
- Physical addresses are virtual addresses plus one constant, the zone is page-aligned, and the
  completion counter is zero when an engine is set up.
- One caller thread per engine. While a receive engine runs its callers pass the array that was armed,
  unchanged.

## Properties that are false as one might expect them, and when they hold

| expectation | holds exactly when | member |
|---|---|---|
| a transmit call can come to an end | the packet count is within what the programmed descriptors can complete | `Sending.ExitBoundary` |
| a transmit call for single-segment packets can come to an end | the batch is smaller than the ring, and either the channel counts empty descriptors or no packet is empty | `Sending.SingleSegmentBoundary` |
| a transmit call for fewer single-segment packets than the ring has descriptors must come to an end | no packet is empty and the channel does not count empty descriptors | `Sending.ExitInevitable` |
| leaving the transmit wait loop means the whole batch was sent | every packet has one segment, or the loop cannot be left | `Sending.CompletionNeedsSingleSegments` |
| the transmit routine's return value is the number of packets accepted | all segments fit the ring; a batch that overflows it and can still be left is misreported, as the two packets of `Sending.TwoReportedOneSent` are | `Sending.ReturnValue`, `Sending.MisreportsOverflow` |
| the first receive call after arming reports what has completed | it asked for the whole ring | `Receiving.TruthNeedsWholeRing` |
| a receive call gives up only when there is nothing to report | it has polled 101 times and no poll has read the same new count twice | `ReceivePolls.GivesUpExactlyWhen` |
| a receive call on a running engine stops it only when the whole ring has been reported | no call asks for less than the ring: one for `nb` can stop it as long as the count has not passed `nb`, and one for more than the ring never stops it | `EarlyStops.CanStopExactly` |
| a device stop between receive calls loses nothing | everything completed had been reported when it came | `DeviceStops.StopDiscards` |
| each harvested buffer carries its own packet's length | all packets have one length | `Lengths.OwnLengthsIffUniform` |
| a forwarding round can come to an end | the harvest is smaller than the ring, and one that is not is reachable (`ForwardRuns.StallReachable`) | `ForwardProgress.ForwardingBoundary` |
| a forwarding round must come to an end | the harvest is smaller than the ring and the transmit channel does not count empty descriptors | `ForwardProgress.ForwardingInevitable` |
| the driver's close may run twice | there are no queues | `Lifetime.BareCloseTwice` |

## Model

| member | source | states |
|---|---|---|
| `Words.ReadOfFlagSet` | drivers/net/xdma/xdma_rxtx.c:63-70 | an or-assignment to the control word sets exactly the named flags and leaves magic and adjacency alone |
| `Words.ReadOfAdjacentSet` | drivers/net/xdma/xdma_rxtx.c:134-140 | mask, shift and or-assignment replace the adjacency count and nothing else, for counts below 64 |
| `Words.FieldsIndependent` | drivers/net/xdma/xdma_access_common.c:11-19 | over any sequence of in-range flag and adjacency sets on any word, flags accumulate, adjacency is last-write-wins, everything else is unchanged |
| `Words.ViewInjective` | drivers/net/xdma/xdma.h:30-35 | the fields determine the word: the view used above loses nothing |
| `Words.BitPositions` | drivers/net/xdma/xdma.h:30-36 | which bits of the control word mean what |
| `Rings.InitRingLinked` | drivers/net/xdma/xdma_access_common.c:5-29 | initialisation links the slots, 32 bytes apart, into the simple path 0 to N-1 and then null, through split 64-bit addresses |
| `Engines.StepSound` | drivers/net/xdma/xdma_rxtx.c:219-231 | a hardware step touches neither ring nor driver state, and completes at most the descriptor after the last completed one; the polled count never runs ahead of the channel and is exact when the last descriptor completed says COMPLETED |
| `Engines.StopSound` | drivers/net/xdma/xdma_access_common.c:309-364 | a stop in any state leaves a sound, idle engine |
| `Transmit.AcceptsLongestPrefix` | drivers/net/xdma/xdma_rxtx.c:176-200 | the greedy loop accepts a prefix that fits, and no longer prefix fits |
| `Transmit.AcceptedFits` | drivers/net/xdma/xdma_rxtx.c:182-200 | accepted packets need at most N descriptors; the number accepted is the number passed if and only if all segments fit |
| `Transmit.FillAt` | drivers/net/xdma/xdma_rxtx.c:46-61 | item k goes to slot cursor + k and nowhere else, so a batch that fits takes no slot twice; the cursor wraps to 0 exactly at the end |
| `Transmit.AdjoinAt` | drivers/net/xdma/xdma_rxtx.c:204-207 | slot i of the first count - 1 gets adjacency count - 2 - i, every other slot is untouched |
| `Transmit.ProgramSeen` | drivers/net/xdma/xdma_rxtx.c:72-93 | what the hardware finds in every slot of a programmed ring: addresses, lengths, adjacency, links, EOP and COMPLETED exactly where a packet ends, the stop mark with COMPLETED behind the last item or on slot 0 of a full ring, and the rest untouched |
| `Gather.GatherRoundTrip` | drivers/net/xdma/xdma_rxtx.c:46-93 | walking links from the base to STOPPED and grouping at EOP decodes to exactly the packets, segment by segment, addresses rebuilt from their halves |
| `Gather.FetchRefinesChase` | drivers/net/xdma/xdma_rxtx.c:204-215 | block fetching by first-adjacent and Nxt_adj visits the same slots as pointer chasing, once each and in order; no block passes the stop mark or crosses a page |
| `Sending.ExecInv` | drivers/net/xdma/xdma_rxtx.c:142-242 | the transmit invariant (sound engine, ring describing the batch, transfers a prefix of it) over any interleaving of calls, stops and hardware steps |
| `Sending.SentExactly` | drivers/net/xdma/xdma_rxtx.c:182-241 | over the whole life of an engine: once the wait loop is left for n single-segment packets, n < N, exactly those have been transferred, once each and in order |
| `Sending.ExitBoundary` | drivers/net/xdma/xdma_rxtx.c:182-226 | for any batch at all, empty, overflowing or with empty segments, and for channels that may count empty descriptors as for those that do not: the wait loop can be left if and only if the packet count is within what the programmed descriptors can complete |
| `Sending.SingleSegmentBoundary` | drivers/net/xdma/xdma_rxtx.c:219-226 | for single-segment packets the exit is reachable if and only if n < N and, unless the channel may count empty descriptors, no packet is empty |
| `Sending.ExitInevitable` | drivers/net/xdma/xdma_rxtx.c:219-226 | for n < N single-segment packets: every schedule that gives the hardware n steps has the next poll leave the loop, if and only if no packet is empty and the channel does not count empty descriptors |
| `Sending.SinglesExact` | drivers/net/xdma/xdma_rxtx.c:88-89 | while single-segment packets are out, the driver finds the count the channel has, whatever the channel does for descriptors that do not say COMPLETED |
| `Sending.ExitOrMissed` | drivers/net/xdma/xdma_rxtx.c:219-226 | for n < N nonempty single-segment packets and any channel: after n hardware steps the next poll leaves the loop, or the count has passed n by the empty stop mark |
| `Sending.MissedForever` | drivers/net/xdma/xdma_rxtx.c:219-226 | once the count has passed what the loop compares it with, no schedule leaves the loop |
| `Sending.CompletionNeedsSingleSegments` | drivers/net/xdma/xdma_rxtx.c:221-223 | for any batch and either kind of channel: every exit under every schedule finds all segments transferred if and only if all packets have one segment or the loop cannot be left |
| `Sending.ReturnValue` | drivers/net/xdma/xdma_rxtx.c:182-241 | whenever a call is about to return, its value is the number of packets accepted if and only if all segments of the batch fit the ring |
| `Sending.MisreportsOverflow` | drivers/net/xdma/xdma_rxtx.c:182-241 | some schedule makes a call return more packets than it accepted if and only if the batch overflows the ring and its packet count is within what the descriptors can complete |
| `Sending.TwoReportedOneSent` | drivers/net/xdma/xdma_rxtx.c:182-241 | two packets of two and three segments on a ring of four: one is accepted, and the call returns 2 |
| `Receiving.ExecInv` | drivers/net/xdma/xdma_rxtx.c:244-309 | a receive engine stays sound over any calls, whatever counts they pass, any stops between calls, and any hardware steps |
| `Receiving.ArmAt` | drivers/net/xdma/xdma_rxtx.c:95-132 | buffer k is programmed into slot cursor + k and nowhere else; the cursor wraps to 0 exactly when the whole ring is armed |
| `Receiving.ArmedAfter` | drivers/net/xdma/xdma_rxtx.c:95-132 | every slot of an armed ring has length 64, the data address of its buffer as destination, the length slot the driver reads as source, COMPLETED, and STOPPED on the last slot only |
| `Lengths.Delivered` | drivers/net/xdma/xdma_rxtx.c:340-348 | on an armed ring every delivery is counted in the word the driver polls, and its length appears in the slot the driver reads |
| `Receiving.ReportedExactlyOnce` | drivers/net/xdma/xdma_rxtx.c:262-308 | with full-ring calls and no device stop, what callers were given is a prefix of what was delivered, all of it when the engine is stopped; a call returns the true increment; slots of an epoch are reported 0, 1, 2, ..., each naming the buffer programmed at that index |
| `DeviceStops.ReportedOrDiscarded` | drivers/net/xdma/xdma_rxtx.c:262-308 | the same with device stops between calls at any time: what callers were given is a prefix of the deliveries that no stop discarded, and kept and discarded together are all that was delivered |
| `DeviceStops.StopDiscards` | drivers/net/xdma/xdma_access_common.c:309-398 | a stop that finds the engine running discards exactly the deliveries completed and not yet reported, and what remains is what callers were given |
| `Receiving.StopLosesNothing` | drivers/net/xdma/xdma_rxtx.c:306-307 | when the routine is about to stop the engine, the channel has halted at the last descriptor and everything delivered was reported |
| `Receiving.EveryCallEnds` | drivers/net/xdma/xdma_rxtx.c:284-305 | under any schedule a call ends within 101 polls of two reads, N harvest steps and three more, whatever count it passes |
| `ReceivePolls.GivesUpExactlyWhen` | drivers/net/xdma/xdma_rxtx.c:284-305 | a call returns 0 if and only if it has made 202 reads in 101 polls and in no poll did both agree on a count other than the cursor; otherwise it returns what the first such poll read, less the cursor, and moves the cursor there |
| `ReceivePolls.StillPolling` | drivers/net/xdma/xdma_rxtx.c:284-305 | as long as no poll has found anything and fewer than 202 reads have been made, the call is still polling |
| `EarlyStops.CanStopExactly` | drivers/net/xdma/xdma_rxtx.c:306-307 | on an engine armed for the whole ring, a later call for nb buffers can stop it if and only if the count has not passed nb when the call begins and nb is at most N |
| `Receiving.TruthNeedsWholeRing` | drivers/net/xdma/xdma_rxtx.c:288-293 | the first call after arming tells the truth under every schedule if and only if it asked for at least N buffers |
| `Receiving.UniformLengths` | drivers/net/xdma/xdma_rxtx.c:311-366 | if the stream has one packet length, every harvested buffer is one closed segment with that length in both fields, the engine's port, and packet type, flags, VLAN tag and hash cleared |
| `Lengths.OwnLengthsIffUniform` | drivers/net/xdma/xdma_rxtx.c:339-348 | for streams with lengths between two bounds, every harvested buffer carries the length of its own transfer in every run if and only if the bounds are equal |
| `Lengths.TwoPacketsMix` | drivers/net/xdma/xdma_rxtx.c:286-293 | the run that shows it: two packets between two polls, and the first buffer gets the length of the second |
| `IdleState.TransmitIdle` | drivers/net/xdma/xdma_access_common.c:32-47 | whenever a transmit engine is not running, after any life, its ring is descriptor for descriptor the initial one, without the initial mark on the last descriptor once a call or stop has happened; cursor and counter are zero and the channel is halted |
| `IdleState.ReceiveIdle` | drivers/net/xdma/xdma_access_common.c:337-364 | likewise for a receive engine: zeroed, linked as a path, and only the last descriptor carries STOPPED |
| `Forwarding.HarvestMeetsTransmit` | drivers/net/xdma/xdma_rxtx.c:344-361 | harvested buffers are single-segment packets that the transmit routine accepts whole, and their items name the buffers' own addresses and lengths |
| `Forwarding.ForwardsInOrder` | examples/xdma_testapp/testapp_count.c:296-341 | at every moment of every run of the three processes, the payloads sent are a prefix of the payloads that arrived, with none lost, repeated or overwritten |
| `Forwarding.ForwardsExactly` | examples/xdma_testapp/testapp_count.c:296-341 | with one packet length the frames leave whole, length included |
| `Forwarding.CountersAgreeAtHead` | examples/xdma_testapp/testapp_count.c:298-341 | at every loop head the loop's cursor is the receive engine's hidden one, and packets received, transmitted and sent agree |
| `Forwarding.ExclusiveOwnership` | examples/xdma_testapp/testapp_count.c:296-335 | no buffer is ever in two hands among receive hardware, transmit hardware and application; one being transmitted lies below the receive count; nothing is in transmission when the loop arms or polls |
| `ForwardProgress.ForwardingBoundary` | examples/xdma_testapp/testapp_count.c:325-334 | a round can come to an end if and only if the harvest is smaller than the ring |
| `ForwardProgress.ForwardingInevitable` | examples/xdma_testapp/testapp_count.c:325-334 | every schedule that gives the transmit channel as many steps as the harvest has buffers, and then the application two, has been back at the loop head, if and only if the harvest is smaller than the ring and the channel does not count empty descriptors |
| `ForwardProgress.StallsForever` | drivers/net/xdma/xdma_rxtx.c:219-226 | once a whole ring has been handed to the transmit routine, the forwarder never gets back to its loop head |
| `ForwardRuns.EveryHarvestReachable` | drivers/net/xdma/xdma_rxtx.c:262-308 | for every m from 1 to N the forwarder reaches a harvest of m buffers from its start |
| `ForwardRuns.StallReachable` | examples/xdma_testapp/testapp_count.c:298-326 | it reaches the state it never gets out of, for every ring size and every packet length |
| `RoundRuns.ReceiveRun` | examples/xdma_testapp/testapp_count.c:298-324 | a receive call that takes the engine from arming or polling to its return takes the forwarder from its loop head to the harvest in hand, whatever comes in on the wire |
| `RoundRuns.TransmitRun` | examples/xdma_testapp/testapp_count.c:325-341 | the polls of a transmit call, both channels at work before each, take the forwarder from the harvest in hand back to its loop head, or into the wait |
| `Registers.RegistersApart` | drivers/net/xdma/xdma_regs.h:1-40 | no register serves two channels or two roles |
| `Registers.LayoutAgrees` | drivers/net/xdma/xdma.h:182-227 | the offsets used are those of the register blocks as the header lays them out, word by word, for each direction and channel |
| `Registers.ControlWord` | drivers/net/xdma/xdma_access_common.c:234-244 | the control word with and without RUN |
| `Registers.ChannelsIndependent` | drivers/net/xdma/xdma_access_common.c:193-307 | in any interleaving of register writes a channel's registers hold what its own writes alone would leave |
| `Registers.ReadyAtRun` | drivers/net/xdma/xdma_access_common.c:206-247 | at every write that raises RUN, in any interleaving, the registers already hold that start's first descriptor and writeback addresses, and its adjacency on the transmit side, and the write turns poll mode on |
| `Device.Bar.RegWrite` | drivers/net/xdma/xdma_platform.c:18-26 | the register map always holds what the history of writes says |
| `Device.XdmaEngine.constructor` | drivers/net/xdma/xdma_access_common.c:101-187 | a set-up engine is the machine's initial state |
| `Device.XdmaEngine.RingInit` | drivers/net/xdma/xdma_access_common.c:5-29 | the loop writes exactly the initial ring |
| `Device.XdmaEngine.RingClear` | drivers/net/xdma/xdma_access_common.c:32-47 | the loop writes exactly the cleared ring: links kept, control words reset on the transmit side only |
| `Device.XdmaEngine.GetDesc` | drivers/net/xdma/xdma_rxtx.c:46-61 | returns the old cursor and moves it to the next slot, from the last to 0 |
| `Device.XdmaEngine.ControlSet` | drivers/net/xdma/xdma_rxtx.c:63-70 | an or-assignment to the 32-bit control word of one descriptor: in what the hardware reads its flags accumulate and nothing else of it changes; every other descriptor is unchanged |
| `Device.XdmaEngine.AdjacentSet` | drivers/net/xdma/xdma_rxtx.c:134-140 | mask, shift and or-assignment on the 32-bit control word of one descriptor: in what the hardware reads its adjacency is replaced and nothing else of it changes; every other descriptor is unchanged |
| `Device.XdmaEngine.H2cDescSet` | drivers/net/xdma/xdma_rxtx.c:72-93 | the walk over a linked chain of buffer objects fills the ring with the packet's items from the cursor on |
| `Device.XdmaEngine.C2hDescSet` | drivers/net/xdma/xdma_rxtx.c:95-132 | one descriptor armed with the buffer's address, the writeback slot, length 64 and the completion flag |
| `Device.XdmaEngine.TxEngineStart` | drivers/net/xdma/xdma_access_common.c:193-250 | the register writes in order, and a channel that starts at the address it found in its registers and reports to the word just behind the ring |
| `Device.XdmaEngine.RxEngineStart` | drivers/net/xdma/xdma_access_common.c:252-307 | the same for the receive side, without adjacency |
| `Device.XdmaEngine.EngineStop` | drivers/net/xdma/xdma_access_common.c:309-364 | the stopped state, whatever the hardware does between the statements, since RUN goes down first |
| `Transmitting.LoadBatch` | drivers/net/xdma/xdma_rxtx.c:182-200 | the greedy loop takes exactly the accepted prefix, and fills the ring with its items |
| `Transmitting.MarkBatch` | drivers/net/xdma/xdma_rxtx.c:201-207 | the stop mark at the cursor, then the adjacency counts |
| `Transmitting.AwaitCount` | drivers/net/xdma/xdma_rxtx.c:219-226 | the wait loop is a run of polls with the hardware, and another channel, at work before each; it is left exactly when the machine leaves it |
| `Transmitting.XmitPkts` | drivers/net/xdma/xdma_rxtx.c:142-242 | a busy engine returns 65535 and nothing changes; otherwise the call is a run of the machine, with the hardware at work before every poll, and writes the registers of a start and on return those of a stop; the value returned is the number accepted if and only if all segments fit; if it returns for single-segment packets, the batch was smaller than the ring and the transfer history grew by exactly it |
| `Transmitting.ReturnedMeansSent` | drivers/net/xdma/xdma_rxtx.c:219-241 | a call that leaves its wait loop has appended its packets' transfers to the history, in order, and nothing else but possibly the empty stop mark |
| `Transmitting.ReturnsInTime` | drivers/net/xdma/xdma_rxtx.c:219-226 | given as many hardware steps as packets, the call returns, unless the channel has counted the empty stop mark before the driver looked |
| `ReceiveRoutine.ArmRing` | drivers/net/xdma/xdma_rxtx.c:266-271 | the arming loop programs the first buffers of the array, in order |
| `ReceiveRoutine.PrepareSegmentedPacket` | drivers/net/xdma/xdma_rxtx.c:328-366 | one buffer object is rewritten as a closed segment with the shared length, cut to 16 bits in one field, the port, and four fields cleared; no other buffer changes |
| `ReceiveRoutine.PreparePackets` | drivers/net/xdma/xdma_rxtx.c:311-326 | the harvest loop is a run of the machine, with the hardware at work between buffers; the array itself is not permuted |
| `ReceiveRoutine.Poll` | drivers/net/xdma/xdma_rxtx.c:284-305 | one round of the poll loop: two reads with the hardware at work before each, and a harvest, of at least one buffer, if they agree on something new; otherwise the next of 101 rounds |
| `ReceiveRoutine.RecvPkts` | drivers/net/xdma/xdma_rxtx.c:244-309 | a call is a run of the machine from arming or polling to its return, with the hardware at work between all reads; it returns 0 if and only if 101 polls found nothing, and otherwise what the first one found that found something; the status field says which; the engine is stopped exactly when the cursor has come to the count asked for; the array keeps its order, the buffers are as the machine says, and the register writes are those of a start and a stop |
| `ForwardLoop.ReceiveCall` | drivers/net/xdma/xdma_rxtx.c:262-308 | a full-ring call adds exactly the slots from the engine's cursor on, each a single closed segment reported under its own address |
| `ForwardLoop.SliceAddrs` | examples/xdma_testapp/testapp_count.c:325-334 | the addresses the slice adds to what is sent are those the receive call reported |
| `ForwardLoop.LoadsAppended` | drivers/net/xdma/xdma_rxtx.c:201-202 | a sent batch adds its addresses to the loads on the wire, and the empty stop mark adds none |
| `ForwardLoop.ForwardRound` | examples/xdma_testapp/testapp_count.c:296-343 | one round over the objects is a run of the forwarder, with both channels at work between the polls of the transmit call and any payloads coming in; it ends at the loop head, or in a transmit call that is still waiting |
| `ForwardLoop.FpgaToFpga` | examples/xdma_testapp/testapp_count.c:278-352 | the loop over the objects is a run of the forwarder, so every state it ends in is one its results hold of; at every return to its head the cursor is the receive engine's, the counters agree, and the transmit engine has carried exactly the reported buffers, in order, which are a prefix of those delivered |
| `ForwardLoop.Launch` | examples/xdma_testapp/testapp_count.c:429-447 | two fresh engines and an array of distinct buffers meet what the loop requires, and are a start of the forwarder if no two buffers share a data address |
| `Lifetime.DoAllConserves` | drivers/net/xdma/xdma_access_common.c:400-441 | conservation: over any sequence of starts, stops, closes, uninits and removals, released and still-held blocks together are the original ones |
| `Lifetime.DoAllQuiesces` | drivers/net/xdma/xdma_access_common.c:384-398 | over the same sequences, whatever is released is released after every engine was stopped |
| `Lifetime.ReleasedExactlyOnce` | examples/xdma_testapp/testapp_count.c:16-72 | no block is released twice or unheld, each release follows the stop of every engine, and after a removal every engine, software ring, zone and table has been released, although close runs twice |
| `ReleaseOrder.NothingDangles` | drivers/net/xdma/xdma_access_common.c:408-438 | over any sequence of operations: every stop of an engine and every release of its software ring and zone lies in the history before the release of the engine, and that before the release of the table that names it |
| `ReleaseOrder.ReleasedInOrder` | drivers/net/xdma/xdma_access_common.c:413-438 | over the same sequences: engines are released in table order, receive queues first |
| `Lifetime.ReleasesOnly` | drivers/net/xdma/xdma_access_common.c:413-438 | a table releases nothing of a queue of the other direction |
| `Lifetime.BareCloseTwice` | drivers/net/xdma/xdma_access_common.c:413-438 | the driver's close alone may run twice if and only if there are no queues |
| `Ports.EthDev.XdmaDevStop` | drivers/net/xdma/xdma_access_common.c:384-398 | the two loops stop every transmit engine, then every receive engine, one after the other |
| `Ports.EthDev.XdmaDevClose` | drivers/net/xdma/xdma_access_common.c:400-441 | stops a started device, then releases what the tables name, and leaves the tables as they are |
| `Ports.EthDev.RtePmdXdmaDevClose` | drivers/net/xdma/rte_pmd_xdma.c:36-56 | clears the started flag, closes, then empties and releases the tables; so by itself it stops no engine |
| `Ports.EthDev.XdmaEthDevUninit` | drivers/net/xdma/xdma_ethdev.c:303-345 | the second close, then the device's own blocks, each released once and its pointer cleared |
| `Ports.EthDev.ClosePort` | examples/xdma_testapp/testapp_count.c:16-42 | nothing on a removed port; otherwise the library's stop and the exported close |
| `Ports.EthDev.RemovePort` | examples/xdma_testapp/testapp_count.c:44-72 | nothing on a removed port; otherwise close, uninit, and detached for good: from a fresh device, everything it held is released exactly once, after every engine was stopped, nothing before what is reached through it, and the tables and the device's own blocks last |
| `BarLoad.CompleteIffMapped` | drivers/net/xdma/xdma_platform.c:69-77 | a load is complete if and only if every chunk of it can be mapped |
| `BarLoad.Load` | drivers/net/xdma/xdma_platform.c:52-91 | byte by byte, the window receives the first bytes of the file, the smaller of its length and the size asked for, and every other byte keeps its value; a failed mapping leaves whole chunks; mappings are at multiples of the 64 MB chunk, in order, none twice |

## Left out

- Forwarding.ExclusiveOwnership: assumes that no two buffers of the array share a data address, as a memory pool guarantees.
- Receiving.ReportedExactlyOnce: covers runs in which every call is for the whole ring and nobody stops the device; `DeviceStops.ReportedOrDiscarded` states it with device stops between calls, and `Receiving.TruthNeedsWholeRing` shows what other counts do. A device stop during a call is excluded throughout: one thread makes both.
- Sending.SentExactly: is about single-segment packets; `Sending.CompletionNeedsSingleSegments` shows that it fails for others.
- Transmitting.XmitPkts: watches the wait loop for a given number of polls, since the loop itself has no bound.
- ForwardLoop.FpgaToFpga: its one-second limit is a number of rounds, and it lets the transmit channel work only while a transmit call waits, as the channel does nothing when it is stopped.
- Device.XdmaEngine.ControlSet: a descriptor's fields other than the control word are unbounded numbers cut to 32 bits where the source cuts them.
- Ports.EthDev.XdmaDevStop: records the stop of an engine as an event; what a stop does to an engine is `Device.XdmaEngine.EngineStop`.
- Memory of the host library (pools, zones, tables, address translation) is represented by block numbers and by the constant offset between virtual and physical addresses.
- Containment of the shared writeback slot in the reserved zone is not claimed: the source computes its address with a 64-byte descriptor size and reserves with a 32-byte one.
- Queue setup failures (allocation returning null) are not modelled, as the source does not check for them.
- Register reads by the driver, interrupt enabling, BAR identification, device arguments, UART, terminal handling and the latency test program are plumbing and left out.
- Polling helpers and the by-value engine copies kept in the device structure are outside the data path.
- Buffer reclaiming is never called by the source.
- Prefetches, clocks, delays, logging, memory barriers and the test-bit check of the loop have no effect on the state modelled; register writes are sequential.
