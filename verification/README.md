# Packet machinery of badvpn in Dafny

badvpn is a peer-to-peer VPN built from event-driven packet components. This
project models the components whose correctness is least obvious and proves
what they promise. Each handler (send, done, timer, job) is one atomic step.

The specification of a component is a value with step functions and an
invariant; theorems are about every run of these steps. The component itself is
a class, and each of its methods is proved to be a step of the specification.
The classes of the fair queue, the disassembler, routing, FrameDecider, bproto,
PacketProto and SPProto have a representation of their own: wrapping 64-bit
times, byte arrays, packets shared by address, linked nodes with an iterator,
positions in a buffer. Those of the assembler and of the ownership, relay and
DHCP models hold the records of the specification in their fields and add the
order of the writes and the loops; their simple methods are the specification's
steps by construction and have no row below, and what these steps mean is stated
by the lemmas about the specification.

| component | specification and theorems | object |
|---|---|---|
| fair queue scheduler | `FairQueueModel`, `FairQueueTheorems` | `FairQueue` |
| FragmentProto | `FragmentModel`, `FragmentReference`, `FragmentRefinement`, `FragmentReduction`, `FragmentNoticed`, `FragmentDisassembler`, `FragmentRoundTrip`, `FragmentPieces`, `FragmentAnyOrder`, `FragmentAmongFew`, `FragmentIds` | `FragmentProto` |
| flow and sink ownership, relays | `DataProtoModel`, `RelayModel`, `RelayRuns` | `Relay` |
| zero-copy routing | `Routing` | `Routing`, `DeviceFrames` |
| FrameDecider | `FrameDeciderModel`, `FrameDeciderGroups`, `FrameDeciderRuns`, `FrameDeciderChanges` | `FrameDecider`, `NodeLists` |
| bproto writer and parser | `BProtoModel` | `BProto` |
| PacketProto | `PacketProto` | `PacketProto` |
| SPProto | `SPProtoModel` | `SPProto` |
| DHCP client core | `DhcpModel`, `DhcpIds`, `DhcpRequests` | `Dhcp` |

The main results:

- **Fair queue.** The rebase on overflow is exact although one counter wraps on
  the way (`RebaseIsExact`, `Queue64.IncrementSent`); two backlogged flows stay
  within one packet of each other or their starting gap, by the packets they
  submitted (`Fairness`); a queued
  flow is sent after a bounded number of sends (`NoStarvation`).
- **FragmentProto.** The assembler, with its reused buffers, delivers what a
  reference with whole chunk lists delivers, on every input (`RefinesReference`).
  Pulling back the clock also frees timed-out frames, and a run from the start
  shows that this can be noticed (`ReductionNoticed`); it goes unnoticed if and only if no live frame would
  otherwise be evicted while a timed-out one is held (`Unnoticed`,
  `ClockUnnoticed`), and never with at most two chunks per frame
  (`TwoChunksUnnoticed`). Disassembling and assembling is the identity (`RoundTrip`),
  also for chunks out of order over many packets and among other frames
  (`AnyOrder`); ids ascend, so losing packets harms only the frames they hold
  (`IdsAscend`, `DeliveredDespiteLoss`).
- **Ownership.** Deferred detaching never leaves a buffer on a freed sink, frees
  each buffer once and leaks none; relay assignment keeps every list, peer and
  flow in agreement in every reachable state (`EveryReachableState`), and every
  event does to its peer what it should and to the others nothing (`HandleMeans`).
- **Routing.** Handing packets over instead of copying them gives every flow what
  copying would give (`Router.Forward`); together with the decider, a multicast
  frame adds one packet per listening membership to each flow
  (`DeviceFrames.HandleMulticast`).
- **FrameDecider.** MAC learning is a bounded LRU, and a multicast frame goes out
  once per membership whose group maps to its MAC, after any run
  (`LearningIsLru`, `MulticastAfterAnyRun`); no decision leads to a peer that is
  gone, whatever changes while it is open, as long as no frame is analysed during
  a multicast one (`NeverToAbsent`, `RiskExactly`).
- **Codecs.** Parsers accept exactly what writers write and give back what was
  put in (`AcceptsExactlyWritten`, `BProto.Transfer`, `PacketProto.ReadPackets`,
  `SPProtoModel.RoundTrip`, `DecodeExact`).
- **DHCP.** Timers are a function of the state, every message is the right one
  at the right time (`EveryMessage`), reports alternate, and a lease
  lasts exactly as long as granted (`ReportsAlternate`, `AckToDown`); 8 discovers
  per transaction id are kept if and only if no id is generated twice
  (`EightExactly`).

Where the code does less than it seems to: `UndesiredSinkIsBusy` shows that the
branches of `DataProtoFlow_Free` and `DataProtoFlow_Attach` that detach a buffer
at once are never taken, because a flow that wants no sink can only have one
that is still busy with it. And analysing a frame during a multicast decision
does not close the decision but only unlinks its iterator (FrameDecider.c:374-376),
unlike what FrameDecider.h:150-167 says; `RiskExactly` is about what follows from it.

What comes from outside is a parameter or an event: the clock, random numbers,
malloc, hash and cipher. Of the cipher it is required that decryption undoes
encryption under the same key and initialization vector and that whole blocks
go to whole blocks; of the hash only its size.

## Model

| member | source | states |
|---|---|---|
| Bytes.ToLEAt | app/src/main/jni/badvpn/misc/byteorder.h:107-120 | byte i of a little-endian integer v is v / 256^i mod 256 |
| FairQueueTheorems.CurrentTimeIsLeastBusy | app/src/main/jni/badvpn/flow/PacketPassFairQueue.c:52-77 | get_current_time is the least time of any busy flow, attained by one, and 0 when no flow is busy |
| FairQueueTheorems.RebaseIsExact | app/src/main/jni/badvpn/flow/PacketPassFairQueue.c:79-116 | on overflow the finished flow ends at exactly time + amount − subtract inside [0, FAIRQUEUE_MAX_TIME], no queued flow is clamped, and the tree stays sorted while its keys change in place |
| FairQueueTheorems.StepKeepsInv | app/src/main/jni/badvpn/flow/PacketPassFairQueue.c:79-351 | every handler keeps: the tree is the queued flows in order, at most one of sending and previous, and the sending flow is never ahead of a queued one |
| FairQueueTheorems.BackloggedStep | app/src/main/jni/badvpn/flow/PacketPassFairQueue.c:79-217 | one step changes the gap between two busy flows by exactly the service they receive, and never beyond the larger of the old gap and one packet |
| FairQueueTheorems.Fairness | app/src/main/jni/badvpn/flow/PacketPassFairQueue.c:79-217 | over every run in which two flows stay backlogged, the gap of their times stays within max(gap at start, packet_weight + MTU), across joins and rebases, and what they got through, packet_weight and submitted length per completed packet, differs by exactly the change of the gap |
| FairQueueTheorems.ChargedAsSubmitted | app/src/main/jni/badvpn/flow/PacketPassFairQueue.c:118-217 | over every run a flow is charged, for each packet completed, exactly packet_weight and the length of its latest submission |
| FairQueueTheorems.RemembersSinceIdle | app/src/main/jni/badvpn/flow/PacketPassFairQueue.c:118-217 | whatever has happened since the queue was idle, the lengths it holds for queued flows and for the one being sent are those of their latest submissions |
| FairQueueTheorems.BusyUntilJob | app/src/main/jni/badvpn/flow/PacketPassFairQueue.c:139-217 | a busy flow stops being busy exactly if it leaves or the schedule job runs while it is neither queued nor being sent: resubmitting before the job keeps it backlogged |
| FairQueueTheorems.StartsLevel | app/src/main/jni/badvpn/flow/PacketPassFairQueue.c:153-180 | a flow that submits keeps its time if it was busy or not behind, and is otherwise raised to exactly the least time of a busy flow; no other time changes |
| FairQueueTheorems.NewStartsLevel | app/src/main/jni/badvpn/flow/PacketPassFairQueue.c:296-321 | a new flow that submits starts at the least time of any busy flow, or 0 |
| FairQueueTheorems.RebaseKeepsLead | app/src/main/jni/badvpn/flow/PacketPassFairQueue.c:100-110 | a rebase changes no flow's lead over a queued one, idle and clamped flows included, apart from the finished flow |
| FairQueueTheorems.RebaseIsFull | app/src/main/jni/badvpn/flow/PacketPassFairQueue.c:86-115 | after a rebase the first queued flow is at 0, or the finished flow at just what it is charged |
| FairQueueTheorems.FreeableWhenPrepared | app/src/main/jni/badvpn/flow/PacketPassFairQueue.c:281-287 | after PrepareFree exactly the flows' leaving remains possible, in any order and for the flow being sent too |
| FairQueueTheorems.DoneLowersLag | app/src/main/jni/badvpn/flow/PacketPassFairQueue.c:79-116 | a finished packet strictly lowers the total lag of the other flows behind a waiting flow, also through a rebase |
| FairQueueTheorems.WaitingStep | app/src/main/jni/badvpn/flow/PacketPassFairQueue.c:79-180 | no step raises the total lag of the other flows behind a queued flow, and each completed send lowers it |
| FairQueueTheorems.NoStarvation | app/src/main/jni/badvpn/flow/PacketPassFairQueue.c:79-180 | a queued flow is sent after at most the sum over other flows g of max(0, t − time_g + 1) completed sends, even when others go idle, come back or trigger a rebase, as long as no new flow joins |
| FairQueueTheorems.NeverStuck | app/src/main/jni/badvpn/flow/PacketPassFairQueue.c:118-180 | as long as something is queued, a send is in progress or the schedule job is pending |
| FairQueueModel.InsertSorted | app/src/main/jni/badvpn/flow/PacketPassFairQueue.c:39-47 | inserting by time and then address keeps the tree sorted when addresses are distinct |
| FairQueueModel.RemoveSorted | app/src/main/jni/badvpn/flow/PacketPassFairQueue.c:323-351 | removing a flow keeps the tree sorted |
| FairQueue.Queue64.Init | app/src/main/jni/badvpn/flow/PacketPassFairQueue.c:219-266 | fails exactly when packet_weight + MTU exceeds the 64-bit time range; otherwise the queue is empty and valid |
| FairQueue.Queue64.Join | app/src/main/jni/badvpn/flow/PacketPassFairQueue.c:296-321 | a new flow with time 0 joins; nothing else changes |
| FairQueue.Queue64.Leave | app/src/main/jni/badvpn/flow/PacketPassFairQueue.c:323-351 | the flow leaves the list, the tree and the sending and previous places, and the invariant holds on |
| FairQueue.Queue64.GetCurrentTime | app/src/main/jni/badvpn/flow/PacketPassFairQueue.c:52-77 | the loop-free choice among sending, first queued and previous flow computes the virtual time of the model |
| FairQueue.SubtractAll | app/src/main/jni/badvpn/flow/PacketPassFairQueue.c:100-110 | the rebase loop takes the amount from every flow but the finished one, clamping at 0, and touches nothing else |
| FairQueue.Queue64.IncrementSent | app/src/main/jni/badvpn/flow/PacketPassFairQueue.c:79-116 | in wrapping 64-bit arithmetic, with the intermediate underflow, the finished flow and all others get the exact integer times of the model |
| FairQueue.TreeInsert | app/src/main/jni/badvpn/flow/PacketPassFairQueue.c:160-174 | the insertion places a flow where the ordered tree keeps it |
| FairQueue.Queue64.Submit | app/src/main/jni/badvpn/flow/PacketPassFairQueue.c:153-180 | raising the time, queueing with the submitted length and starting the send refine the model step |
| FairQueue.Queue64.Done | app/src/main/jni/badvpn/flow/PacketPassFairQueue.c:182-217 | finishing a packet refines the model step: previous flow, job and rebased times |
| FairQueue.Queue64.RunJob | app/src/main/jni/badvpn/flow/PacketPassFairQueue.c:139-151 | the schedule job forgets the previous flow and starts the first queued one, with the length it was queued with |
| FragmentModel.ParseEncode | app/src/main/jni/badvpn/client/FragmentProtoAssembler.c:285-325 | parsing the chunks of an encoded packet gives back exactly the chunks that were written |
| FragmentModel.ChunkLayout | app/src/main/jni/badvpn/protocol/fragmentproto.h:56-80 | the chunk header byte by byte: frame id, start and length as 16-bit little-endian integers, the last flag, then the data |
| FragmentModel.ParsesExactly | app/src/main/jni/badvpn/client/FragmentProtoAssembler.c:285-325 | a chunk is taken from the front of a packet exactly if the packet begins with its encoding |
| FragmentReference.SumIsCoverage | app/src/main/jni/badvpn/client/FragmentProtoAssembler.c:197-268 | for pairwise disjoint spans inside [0, n): the lengths sum to at most n, and to n exactly when every position is covered |
| FragmentRefinement.CompleteSame | app/src/main/jni/badvpn/client/FragmentProtoAssembler.c:239-268 | the sum reaches the frame length exactly when the accepted chunks cover all of [0, length) |
| FragmentRefinement.DeliveredBytes | app/src/main/jni/badvpn/client/FragmentProtoAssembler.c:253-276 | every delivered byte is the byte of a chunk that covers its position, never a stale buffer byte |
| FragmentRefinement.ChunkKeepsInv | app/src/main/jni/badvpn/client/FragmentProtoAssembler.c:154-283 | any chunk, well formed or not, keeps: chunks disjoint and inside the known length, sum equal to their total, no frame complete or full, distinct ids, a constant number of frame entries |
| FragmentRefinement.SimChunk | app/src/main/jni/badvpn/client/FragmentProtoAssembler.c:154-283 | one chunk has the same effect and the same delivery as in a reference that keeps whole chunk lists and never reuses a buffer |
| FragmentRefinement.ReductionKeepsAges | app/src/main/jni/badvpn/client/FragmentProtoAssembler.c:117-152 | reduce_times at FPA_MAX_TIME frees exactly the timed-out frames, keeps the age of every other frame, and strictly lowers the clock |
| FragmentRefinement.TickKeepsInv | app/src/main/jni/badvpn/client/FragmentProtoAssembler.c:326-339 | after every packet frame times are at most the clock and the clock at most FPA_MAX_TIME, so no increment overflows |
| FragmentRefinement.SimTick | app/src/main/jni/badvpn/client/FragmentProtoAssembler.c:326-339 | the end of a packet is a tick of the reference, which drops its timed-out frames exactly if the packet found the assembler's clock at FPA_MAX_TIME |
| FragmentRefinement.RefinesReference | app/src/main/jni/badvpn/client/FragmentProtoAssembler.c:154-346 | on every sequence of packets the assembler delivers exactly what the reference delivers that drops its timed-out frames where the assembler's clock is pulled back: buffer reuse and the shifted times are invisible |
| FragmentReduction.Unnoticed | app/src/main/jni/badvpn/client/FragmentProtoAssembler.c:70-103 | dropping timed-out frames leaves the same delivery and the same live frames after every chunk, whenever it is done, if and only if without it allocate_new_frame never evicts a live oldest frame while a timed-out one is held; and if it is ever noticed, a single drop is |
| FragmentReduction.ClockUnnoticed | app/src/main/jni/badvpn/client/FragmentProtoAssembler.c:117-152 | under that condition the assembler delivers exactly what a reference delivers whose clock is never pulled back and which never drops a timed-out frame |
| FragmentReduction.GivenUp | app/src/main/jni/badvpn/client/FragmentProtoAssembler.c:197-283 | a frame is given up, and nothing else is, when a chunk covers a byte that has come, ends behind the known end, ends before a chunk that has come, is a second last one, or takes the last chunk entry in vain |
| FragmentNoticed.ReductionNoticed | app/src/main/jni/badvpn/client/FragmentProtoAssembler.c:57-152 | the condition can fail in a run from the start: with two entries of three chunks, after n empty packets, the same five packets deliver a frame exactly if the clock is at FPA_MAX_TIME at the end of the fourth, and lose it at any lower clock |
| FragmentNoticed.TwoChunksUnnoticed | app/src/main/jni/badvpn/client/FragmentProtoAssembler.c:57-152 | with room for at most two chunks per frame pulling the clock back is never noticed: from the start, every sequence of packets is delivered as by the reference that never drops a frame |
| FragmentDisassembler.CutPieces | app/src/main/jni/badvpn/client/FragmentProtoDisassembler.c:39-102 | write_chunks cuts the rest of a frame into consecutive non-empty pieces, with the last flag exactly on the piece that ends the frame |
| FragmentDisassembler.CutSize | app/src/main/jni/badvpn/client/FragmentProtoDisassembler.c:39-102 | a call makes progress, never exceeds the output MTU, and stops only when the frame is finished or no further chunk fits |
| FragmentDisassembler.StepKeepsReady | app/src/main/jni/badvpn/client/FragmentProtoDisassembler.c:104-162 | every handler keeps the sender ready, and every packet it puts out is non-empty and within the output MTU |
| FragmentDisassembler.CutWithin | app/src/main/jni/badvpn/client/FragmentProtoDisassembler.c:51-54 | no chunk is longer than the chunk MTU |
| FragmentDisassembler.HeldBack | app/src/main/jni/badvpn/client/FragmentProtoDisassembler.c:84-162 | a packet goes out only if no chunk fits behind it, no latency is allowed or the timer has expired; a part-filled one is held only with the timer running |
| FragmentRoundTrip.CountRoom | app/src/main/jni/badvpn/protocol/fragmentproto.h:92-98 | the chunks sent before the last one of a frame are fewer than fragmentproto_max_chunks_for_frame, or, with a chunk size limit, than 2·⌈m / (min(chunk_mtu, carrier_mtu − header) + 1)⌉ for frames of up to m bytes |
| FragmentRoundTrip.NoInputLost | app/src/main/jni/badvpn/client/FragmentProtoDisassembler.c:39-162 | in every step the packets finished and the one still waiting are exactly what was waiting and what came in, in order |
| FragmentRoundTrip.RoundTrip | app/src/main/jni/badvpn/client/FragmentProtoDisassembler.c:39-162 | for every sequence of packets, empty ones included, every output MTU and every timing without cancel, the assembler delivers the input packets in order |
| FragmentAnyOrder.AnyOrder | app/src/main/jni/badvpn/client/FragmentProtoAssembler.c:154-346 | the chunks of a frame, permuted at will and spread over any packets, among chunks of other frames and across clock reductions, are delivered once as the same bytes, if packets with its chunks are at most time_tolerance apart and free_oldest_frame is never called on it while it is live |
| FragmentAnyOrder.AnyOrderAlone | app/src/main/jni/badvpn/client/FragmentProtoAssembler.c:154-346 | when no other frame comes between, the frame is all that is delivered |
| FragmentAmongFew.AnyOrderAmongFew | app/src/main/jni/badvpn/client/FragmentProtoAssembler.c:57-103 | fewer chunks of other frames than there are frame entries never push the frame out, so it is delivered |
| FragmentIds.IdsAscend | app/src/main/jni/badvpn/client/FragmentProtoDisassembler.c:39-102 | in every run the chunks of the k-th input packet all carry id (first + k) mod 65536; those of a finished packet are a cut of it into no more chunks than the receiver has room for; and the output packets are exactly these chunks |
| FragmentIds.IdsDiffer | app/src/main/jni/badvpn/client/FragmentProtoDisassembler.c:73-80 | any 65536 consecutive packets have pairwise different ids |
| FragmentIds.DeliveredDespiteLoss | app/src/main/jni/badvpn/client/FragmentProtoDisassembler.c:39-162 | of the output packets of a run only some arrive, in any order: an input packet all of whose chunks are among them is delivered, under the conditions of AnyOrder, whatever is lost of the others |
| FragmentPieces.PieceFits | app/src/main/jni/badvpn/client/FragmentProtoAssembler.c:197-268 | whatever pieces of a frame have arrived, the next one overlaps none, and the frame is complete with the final one and not before |
| FragmentProto.FrameAssembler.ProcessOneChunk | app/src/main/jni/badvpn/client/FragmentProtoAssembler.c:154-283 | process_chunk refines the model step and reports whether a frame is to be delivered |
| FragmentProto.FrameAssembler.FreeTimedOut | app/src/main/jni/badvpn/client/FragmentProtoAssembler.c:119-134 | the first loop of reduce_times splits the used list into live and timed-out frames and finds the least live time |
| FragmentProto.FrameAssembler.Reduce | app/src/main/jni/badvpn/client/FragmentProtoAssembler.c:117-152 | the two loops of reduce_times compute the reduced state of the model |
| FragmentProto.FrameAssembler.ProcessInput | app/src/main/jni/badvpn/client/FragmentProtoAssembler.c:285-346 | the chunk loop stops at the first delivered frame and otherwise ends the packet with its clock tick |
| FragmentProto.FrameAssembler.InputSend | app/src/main/jni/badvpn/client/FragmentProtoAssembler.c:348-360 | a received packet is processed from its first chunk on |
| FragmentProto.FrameDisassembler.AppendChunks | app/src/main/jni/badvpn/client/FragmentProtoDisassembler.c:39-86 | the do-while loop writes exactly the encoded pieces of the model behind the bytes already in the output packet |
| FragmentProto.FrameDisassembler.Write | app/src/main/jni/badvpn/client/FragmentProtoDisassembler.c:39-102 | write_chunks refines the model: the next frame id once the frame is finished, input position, and whether the packet is finished or waits for the timer |
| FragmentProto.FrameDisassembler.SendInput | app/src/main/jni/badvpn/client/FragmentProtoDisassembler.c:104-120 | input_handler_send is a step of the model |
| FragmentProto.FrameDisassembler.RecvOutput | app/src/main/jni/badvpn/client/FragmentProtoDisassembler.c:134-149 | output_handler_recv is a step of the model |
| FragmentProto.FrameDisassembler.TimerExpired | app/src/main/jni/badvpn/client/FragmentProtoDisassembler.c:151-162 | timer_handler sends the part-written packet |
| DataProtoModel.StepKeepsInv | app/src/main/jni/badvpn/client/DataProto.c:127-566 | every call and queue event keeps: a buffer that is not detaching is on its flow's desired sink, a desired sink implies a current one, a buffer without a flow is the detaching busy buffer of its sink, one per sink |
| DataProtoModel.SinkUnreferenced | app/src/main/jni/badvpn/client/DataProto.c:297-337 | once its detaching buffer is released, no buffer refers to a sink that is being freed |
| DataProtoModel.EachBufferOnce | app/src/main/jni/badvpn/client/DataProto.c:127-144 | over every run each created buffer is either alive or freed, never both, and no buffer is freed twice |
| DataProtoModel.NoLeak | app/src/main/jni/badvpn/client/DataProto.c:458-484 | every living buffer belongs to a flow or is the busy detaching buffer of a sink, so none is left when flows and sinks are gone |
| DataProtoModel.UndesiredSinkIsBusy | app/src/main/jni/badvpn/client/DataProto.c:458-543 | a flow that wants no sink has no sink or is the detaching busy buffer of one: the branches that detach at once in DataProtoFlow_Free and DataProtoFlow_Attach are never taken |
| DataProtoModel.OpMeans | app/src/main/jni/badvpn/client/DataProto.c:268-566 | each call changes the desired sink of its flow, or adds or removes its flow or sink, and no other |
| DataProtoModel.BusyUntilDone | app/src/main/jni/badvpn/client/DataProto.c:180-225 | a sink is busy with a buffer from the start of a send to its end, whatever becomes of the flow meanwhile: no call cuts a send off |
| DataProtoModel.DoneFrees | app/src/main/jni/badvpn/client/DataProto.c:218-225 | when a send is done the sink is idle and detaches nothing, and no other buffer or sink has changed |
| Relay.DataProto.FreeFlow | app/src/main/jni/badvpn/client/DataProto.c:458-484 | refines the model step and keeps the invariant |
| Relay.DataProto.AttachFlow | app/src/main/jni/badvpn/client/DataProto.c:516-543 | refines the model step and keeps the invariant |
| Relay.DataProto.DetachFlow | app/src/main/jni/badvpn/client/DataProto.c:545-566 | refines the model step and keeps the invariant |
| Relay.DataProto.FreeSink | app/src/main/jni/badvpn/client/DataProto.c:297-337 | refines the model step: the detaching buffer is released before the sink goes |
| Relay.DataProto.FinishSend | app/src/main/jni/badvpn/client/DataProto.c:218-225 | when the busy buffer is done and detaching, its detach is finished |
| RelayModel.InstallKeepsCore | app/src/main/jni/badvpn/client/client.c:1802-1822 | installing a relay keeps the lists and flows in agreement with the peers |
| RelayModel.FreeRelayingKeepsCore | app/src/main/jni/badvpn/client/client.c:1824-1845 | freeing a relaying keeps the lists and flows in agreement with the peers |
| RelayModel.InitLinkKeepsCore | app/src/main/jni/badvpn/client/client.c:1606-1693 | a fresh link attaches the local flow to its own sink and keeps everything in agreement |
| RelayModel.FreeLinkKeepsCore | app/src/main/jni/badvpn/client/client.c:1695-1727 | a link without relay users can be freed, sink included, and everything stays in agreement |
| RelayModel.RegisterKeepsCore | app/src/main/jni/badvpn/client/client.c:1870-1883 | a peer without connection can be put on the waiting list |
| RelayModel.UnregisterKeepsCore | app/src/main/jni/badvpn/client/client.c:1885-1898 | a waiting peer can be taken off the waiting list |
| RelayRuns.AssignRelays | app/src/main/jni/badvpn/client/client.c:2684-2709 | ends with no peer waiting or no relay left, changing neither relays nor links |
| RelayRuns.FirstRelayTakes | app/src/main/jni/badvpn/client/client.c:2684-2709 | everyone who waits gets the first relay of the list |
| RelayRuns.EnableProvider | app/src/main/jni/badvpn/client/client.c:1750-1769 | the peer is listed last among the relays, links and relays are otherwise unchanged, and nobody is left waiting |
| RelayRuns.DisableProvider | app/src/main/jni/badvpn/client/client.c:1771-1800 | the peer is no relay any more and keeps its link, everything is in agreement, and nobody waits while a relay exists |
| RelayRuns.UsersMoveOn | app/src/main/jni/badvpn/client/client.c:1771-1800 | every peer that used the relay uses another one afterwards or waits |
| RelayRuns.Cleanup | app/src/main/jni/badvpn/client/client.c:1729-1748 | afterwards the peer has no link, no relay and does not wait, and is no relay itself |
| RelayRuns.NeedRelay | app/src/main/jni/badvpn/client/client.c:1847-1868 | afterwards the peer relays through some relay or waits |
| RelayRuns.Handle | app/src/main/jni/badvpn/client/client.c:1509-1898 | after every event at most one of linked, relaying, waiting per peer, all lists agree with the peers, and nobody waits while a relay exists |
| RelayRuns.ReportMeans | app/src/main/jni/badvpn/client/client.c:2626-2645 | a link that goes up makes a peer with the relay flag a relay and otherwise changes nothing; one that goes down ends that; every link stays, and everything about the other peers |
| RelayRuns.HandleMeans | app/src/main/jni/badvpn/client/client.c:1509-1898 | event by event: which peer is gone, unconnected, linked, a relay or served afterwards; every other peer keeps its link, its being a relay, and having or awaiting a relay |
| RelayRuns.EveryReachableState | app/src/main/jni/badvpn/client/client.c:1606-1898 | in every state reachable from the start: no peer relays through itself, relays are linked and list their users, and each local flow's desired sink is its own link's, its relay's, or none |
| Relay.RelayClient.Assign | app/src/main/jni/badvpn/client/client.c:2684-2709 | the loop over the waiting list computes the assignment of the model |
| Relay.RelayClient.DisableRelay | app/src/main/jni/badvpn/client/client.c:1771-1800 | the loop over the relay users refines the model |
| Relay.RelayClient.EnableRelay | app/src/main/jni/badvpn/client/client.c:1750-1769 | refines the model, waiting peers included |
| Relay.RelayClient.CleanupConnections | app/src/main/jni/badvpn/client/client.c:1729-1748 | refines the model step |
| Relay.RelayClient.NeedARelay | app/src/main/jni/badvpn/client/client.c:1847-1868 | refines the model step |
| Relay.RelayClient.FreshLink | app/src/main/jni/badvpn/client/client.c:2342-2355 | whatever connection the peer had is given up; it has a fresh link, or none if that fails, and everything is settled |
| Relay.RelayClient.LinkReport | app/src/main/jni/badvpn/client/client.c:2626-2645 | afterwards the peer is a relay exactly if its link is up and it can be or was one; with a new relay nobody waits; its link and the other peers stay |
| Routing.CopyAllIs | app/src/main/jni/badvpn/client/client.c:2666-2682 | plain copying gives each buffer one packet per occurrence among the destinations, in order, as far as it has room, and leaves every other buffer alone |
| Routing.Exchanged | app/src/main/jni/badvpn/flow/RouteBuffer.c:209-256 | swapping the current packet with a free packet of one buffer loses no packet and shares none |
| Routing.ExchangeApart | app/src/main/jni/badvpn/flow/RouteBuffer.c:209-243 | the swap queues exactly the routed bytes in one buffer, keeps free + used constant there, and changes no other buffer |
| Routing.WriteUnseen | app/src/main/jni/badvpn/flow/RouteBuffer.c:245-248 | writing the current packet or a flags byte changes no queued packet |
| Routing.Addressed | app/src/main/jni/badvpn/client/DataProto.c:494-501 | the packet with the header written in place is read by the receiver as the unmodified frame from the source id to the one destination id, whatever the flags byte |
| Routing.ReadAsSent | app/src/main/jni/badvpn/client/DPReceive.c:54-105 | a flow's packet, with any flags byte, is read as source id, one destination id and the frame: little-endian at offsets 1, 3 and 5, the frame from 7 on |
| Routing.Router.constructor | app/src/main/jni/badvpn/client/DataProto.c:360-385 | the source starts with one current packet and no buffer |
| Routing.Router.AddBuffer | app/src/main/jni/badvpn/flow/RouteBuffer.c:119-152 | a buffer made of newly allocated packets is empty, has buf_size room, and shares no packet |
| Routing.Router.Receive | app/src/main/jni/badvpn/flow/PacketRouter.c:32-45 | a received frame lies behind the header space of the current packet; queues are unchanged |
| Routing.Router.RoutePacket | app/src/main/jni/badvpn/flow/RouteBuffer.c:209-256 | the packet is queued or, when the buffer is full, nothing changes; the copied range survives in the new current packet; sending starts exactly on an empty buffer |
| Routing.Router.Route | app/src/main/jni/badvpn/client/DataProto.c:486-514 | the flow gains one packet, which the receiver reads as the frame from the flow's source to its destination, or nothing if it is full; the frame is still there if more destinations follow |
| Routing.Router.Forward | app/src/main/jni/badvpn/client/client.c:2666-2682 | for every destination list all buffers end up as if the frame had been copied to each destination in turn; the set of packets is unchanged and none is shared |
| Routing.Router.SetFlags | app/src/main/jni/badvpn/client/DataProto.c:81-98 | the packet about to go out is the flags byte followed by what is queued first; nothing queued changes |
| Routing.Router.OutputDone | app/src/main/jni/badvpn/flow/RouteBuffer.c:80-117 | the first packet leaves the queue, its memory is free again, and no packet is lost |
| FrameDeciderModel.SigIsGroupMac | app/src/main/jni/badvpn/client/FrameDecider.c:120-131 | a group and a MAC have the same signature exactly when section 6.4 of RFC 1112 maps the group to that MAC, bit 24 ignored |
| FrameDeciderModel.LearningIsLru | app/src/main/jni/badvpn/client/FrameDecider.c:69-118 | learning refines a bounded LRU per peer: most recent at this peer, gone from any other owner, and the oldest evicted only if the MAC was new and the peer full; the tree names the one owner of every MAC |
| NodeLists.Nodes.InitLonely | app/src/main/jni/badvpn/structure/LinkedList3.h:197-202 | a list of one node; all others and the iterator are as before |
| NodeLists.Nodes.InitAfter | app/src/main/jni/badvpn/structure/LinkedList3.h:204-215 | four pointer writes insert the node behind the reference node in its list; other lists are as before; the iterator visits the new node exactly if the reference node is still to come |
| NodeLists.Nodes.Free | app/src/main/jni/badvpn/structure/LinkedList3.h:230-243 | two pointer writes take the node out of its list; a linked iterator at it moves on, and what an iterator still visits is what it would have visited, without the node; only an unlinked iterator at the node is stranded |
| NodeLists.Nodes.IsLonely | app/src/main/jni/badvpn/structure/LinkedList3.h:245-248 | true exactly when the list has no other node |
| NodeLists.Nodes.Neighbour | app/src/main/jni/badvpn/structure/LinkedList3.h:261-270 | the node behind, or else the one before |
| NodeLists.Nodes.FirstOf | app/src/main/jni/badvpn/structure/LinkedList3.h:282-289 | following the previous pointers ends at the first node of the list |
| NodeLists.Nodes.Step | app/src/main/jni/badvpn/structure/LinkedList3.h:333-360 | yields the next node to visit and is linked to the one after it, or yields nothing when all are visited |
| FrameDeciderGroups.AddKeepsIndex | app/src/main/jni/badvpn/client/FrameDecider.c:133-164 | adding an entry keeps one list with one master per signature, and the tree pointing at it |
| FrameDeciderGroups.RemoveKeepsIndex | app/src/main/jni/badvpn/client/FrameDecider.c:166-197 | removing an entry, masters included, keeps one list with one master per signature |
| FrameDeciderGroups.ListIsExact | app/src/main/jni/badvpn/client/FrameDecider.c:482-496 | the list found through the tree holds each used entry with that signature exactly once, and there is none exactly when there are no such entries |
| FrameDeciderGroups.DropGroupKeeps | app/src/main/jni/badvpn/client/FrameDecider.c:254-279 | dropping a membership keeps the peers' lists and the index in agreement, and an open multicast decision free of dropped entries |
| FrameDeciderGroups.AddGroupKeeps | app/src/main/jni/badvpn/client/FrameDecider.c:199-252 | joining refines a bounded LRU of groups per peer, keeps the index exact, and keeps an open multicast decision on used entries, each once |
| FrameDeciderRuns.FreePeerKeeps | app/src/main/jni/badvpn/client/FrameDecider.c:626-669 | freeing a peer keeps every index exact, so none of its MACs and memberships is left in them |
| FrameDeciderRuns.DrainIs | app/src/main/jni/badvpn/client/FrameDecider.c:512-556 | draining a decision yields exactly the destinations decided and leaves no decision open |
| FrameDeciderRuns.MulticastDestinations | app/src/main/jni/badvpn/client/FrameDecider.c:482-496 | a drained multicast decision yields one destination per used entry whose group maps to the MAC of the frame, and no other |
| FrameDeciderRuns.EachPeerOnce | app/src/main/jni/badvpn/client/FrameDecider.c:482-496 | a multicast frame goes to exactly the peers with a membership that maps to its MAC, and once to each if and only if no peer has two such memberships |
| FrameDeciderRuns.OtherDestinations | app/src/main/jni/badvpn/client/FrameDecider.c:361-510 | a unicast frame goes to the owner of its MAC alone; unknown, broadcast and IGMP frames go once to every peer; a frame without a whole header goes nowhere |
| FrameDeciderRuns.StepKeepsInv | app/src/main/jni/badvpn/client/FrameDecider.c:69-669 | every event keeps both indexes equal to the relations they stand for, and an open decision on present peers and used entries, none twice |
| FrameDeciderRuns.MulticastAfterAnyRun | app/src/main/jni/badvpn/client/FrameDecider.c:361-669 | the multicast destinations are exact after any run from the empty decider |
| FrameDeciderRuns.NextIsPresent | app/src/main/jni/badvpn/client/FrameDecider.c:512-556 | whatever came and went since the decision, the next destination is a present peer, and for a multicast frame that of a membership still in use |
| FrameDeciderRuns.NeverToAbsent | app/src/main/jni/badvpn/client/FrameDecider.c:361-669 | after any run from the empty decider, also if peers and memberships change while a decision is open, the next destination of a decision that is not lost is a present peer; and no decision is lost if no frame is ever analysed during a multicast one |
| FrameDeciderRuns.RiskExactly | app/src/main/jni/badvpn/client/FrameDecider.c:366-379 | an event leaves an iterator that the loss of one membership can strand at an entry that is gone, exactly if it analyses a frame while a multicast decision has destinations left |
| FrameDeciderRuns.LosingRun | app/src/main/jni/badvpn/client/FrameDecider.c:361-379 | the run from the empty decider in which a peer joins a group, a frame for the group and a second frame are analysed and the membership times out ends with a lost decision |
| FrameDeciderChanges.ChangesFollowed | app/src/main/jni/badvpn/client/FrameDecider.c:133-279 | while a decision is open, peers that go are not visited, a peer that comes is visited by a flood that is not over, and of the memberships that stay exactly the same are still to come |
| FrameDeciderChanges.NewIsVisited | app/src/main/jni/badvpn/client/FrameDecider.c:133-164 | a new membership is visited by an open multicast decision exactly if the master of its signature is still to come |
| FrameDeciderChanges.LearnedIsReached | app/src/main/jni/badvpn/client/FrameDecider.c:69-118 | once a frame with a source MAC has come from a peer, frames to that MAC go to that peer alone |
| FrameDeciderChanges.ReportedIsReached | app/src/main/jni/badvpn/client/FrameDecider.c:199-279 | once a peer has reported a group, frames for the group go to it; once the membership has timed out, it no longer counts |
| FrameDecider.DeciderObject.AddMacToPeer | app/src/main/jni/badvpn/client/FrameDecider.c:69-118 | refines the learning step of the model |
| FrameDecider.DeciderObject.AddToMulticast | app/src/main/jni/badvpn/client/FrameDecider.c:133-164 | linking the entry behind the master, or alone, puts it into the one list of its signature; an iterator that has the master still to come will visit it |
| FrameDecider.DeciderObject.RemoveFromMulticast | app/src/main/jni/badvpn/client/FrameDecider.c:166-197 | unlinking the entry takes it out of the list of its signature; the next or previous node becomes master; an iterator never visits it again |
| FrameDecider.DeciderObject.AddGroupToPeer | app/src/main/jni/badvpn/client/FrameDecider.c:199-252 | refines the membership step of the model |
| FrameDecider.DeciderObject.RemoveGroupEntry | app/src/main/jni/badvpn/client/FrameDecider.c:254-279 | refines the membership step of the model |
| FrameDecider.DeciderObject.InitPeer | app/src/main/jni/badvpn/client/FrameDecider.c:558-624 | a new peer has empty tables and the configured room, and is reached by a flood that is not over |
| FrameDecider.DeciderObject.FreeAPeer | app/src/main/jni/badvpn/client/FrameDecider.c:626-669 | the loops over the used lists and the moves of the flood cursor and the iterator refine the model step |
| FrameDecider.DeciderObject.AnalyzeFrame | app/src/main/jni/badvpn/client/FrameDecider.c:361-510 | a flood cursor at the first peer, or an iterator at the first node of the signature's list, stands for the decision of the model; an open multicast decision is kept and its iterator unlinked |
| FrameDecider.DeciderObject.GetNext | app/src/main/jni/badvpn/client/FrameDecider.c:512-556 | following one link of the peer list or of the entry list is one step of draining |
| FrameDecider.DeciderObject.AllDestinations | app/src/main/jni/badvpn/client/client.c:2674-2681 | the one-ahead loop of the caller takes exactly the destinations decided and drains the decision |
| DeviceFrames.MulticastTimes | app/src/main/jni/badvpn/client/FrameDecider.c:482-556 | each peer is a destination of a multicast frame as often as it has groups that map to the MAC |
| DeviceFrames.Serve | app/src/main/jni/badvpn/client/client.c:2674-2681 | the loop that asks for the next destination before it serves this one leaves every queue as copying the frame to each destination in turn would, loses no packet and closes the decision |
| DeviceFrames.HandleFrame | app/src/main/jni/badvpn/client/client.c:2666-2682 | from the received bytes on: decider and router together queue the frame for exactly the destinations of the decision of the model, all of them peers |
| DeviceFrames.HandleMulticast | app/src/main/jni/badvpn/client/client.c:2666-2682 | after a multicast frame the flow of each peer has gained one packet with its own header per membership that maps to the MAC, as far as it has room, and no other queue has changed |
| BProtoModel.ReadEncode | app/src/main/jni/badvpn/bproto_generator/bproto_functions.php:348-400 | reading an encoded entry, whatever follows it, gives the entry back |
| BProtoModel.ReadIsEncode | app/src/main/jni/badvpn/bproto_generator/bproto_functions.php:457-531 | whatever can be read is the encoding of what was read |
| BProtoModel.EntryLayout | app/src/main/jni/badvpn/bproto/BProto.h:48-83 | an entry byte by byte: id and type as 16-bit little-endian integers, for data a 32-bit length, then the body |
| BProtoModel.TypesOnWire | app/src/main/jni/badvpn/bproto/BProto.h:41-83 | the type number on the wire and the size of an entry for each of the six types |
| BProtoModel.MatchIsHit | app/src/main/jni/badvpn/bproto_generator/bproto_functions.php:470-574 | in an unambiguous schema an entry is taken for schema entry k exactly when id and type agree and a constant-size value has the size declared |
| BProtoModel.AcceptsExactlyMessages | app/src/main/jni/badvpn/bproto_generator/bproto_functions.php:421-610 | a byte string is accepted exactly when it is the concatenation of matching entries that meets the cardinalities |
| BProtoModel.AcceptsExactlyWritten | app/src/main/jni/badvpn/bproto_generator/bproto_functions.php:342-610 | a byte string is accepted exactly when some sequence of additions that meets the cardinalities writes it |
| BProtoModel.AddedBodies | app/src/main/jni/badvpn/bproto_generator/bproto_functions.php:342-419 | the values of an entry in the written bytes are exactly the values added for it, in order |
| BProtoModel.RoundTrip | app/src/main/jni/badvpn/bproto_generator/bproto_functions.php:342-773 | for every unambiguous schema and every sequence of additions meeting the cardinalities, the written bytes are accepted and hold exactly the values added, entry by entry, in order |
| BProtoModel.ValueRoundTrip | app/src/main/jni/badvpn/bproto_generator/bproto_functions.php:364-371 | an integer of the declared width or data of the declared size is read back as itself |
| BProtoModel.BodyRoundTrip | app/src/main/jni/badvpn/bproto_generator/bproto_functions.php:680-706 | the bytes read as a value are exactly those written for it |
| BProtoModel.GivenDecoded | app/src/main/jni/badvpn/bproto_generator/bproto_functions.php:342-759 | what the getters of an entry decode is what was given to its Add function, in order |
| BProto.SpanHoldsAll | app/src/main/jni/badvpn/bproto_generator/bproto_functions.php:494-563 | the span of an entry contains all its values |
| BProto.AtEntry | app/src/main/jni/badvpn/bproto_generator/bproto_functions.php:648-756 | before the end of its span a getter is at a whole entry that ends inside the span, so none of its assertions can fail |
| BProto.NotAtEnd | app/src/main/jni/badvpn/bproto_generator/bproto_functions.php:648-759 | before the end of its span a value is still to come |
| BProto.AtEnd | app/src/main/jni/badvpn/bproto_generator/bproto_functions.php:648-759 | at the end of its span no value is left |
| BProto.Writer.Add | app/src/main/jni/badvpn/bproto_generator/bproto_functions.php:342-419 | the bytes grow by exactly the encoded entry, an integer in little-endian order |
| BProto.Writer.Finish | app/src/main/jni/badvpn/bproto_generator/bproto_functions.php:320-337 | the length returned is that of the bytes written, and the cardinalities hold |
| BProto.Parser.ScanBuffer | app/src/main/jni/badvpn/bproto_generator/bproto_functions.php:452-575 | the loop succeeds exactly when the buffer scans, and then start, span and count of every entry are those of its first and last occurrence |
| BProto.Parser.CheckCounts | app/src/main/jni/badvpn/bproto_generator/bproto_functions.php:580-605 | all cardinality conditions are met |
| BProto.Parser.Init | app/src/main/jni/badvpn/bproto_generator/bproto_functions.php:421-610 | accepts exactly the messages of the schema; every getter then stands before all values of its entry |
| BProto.Parser.GotEverything | app/src/main/jni/badvpn/bproto_generator/bproto_functions.php:612-637 | true exactly when no entry has a value left |
| BProto.Parser.Advance | app/src/main/jni/badvpn/bproto_generator/bproto_functions.php:656-755 | one turn of the getter loop passes exactly one entry and stays on entry boundaries inside the span |
| BProto.Parser.Get | app/src/main/jni/badvpn/bproto_generator/bproto_functions.php:648-759 | returns the next value, an integer in host order, or 0 exactly when none is left and then with the position at the span; other entries are untouched |
| BProto.Parser.GetAll | app/src/main/jni/badvpn/bproto_generator/bproto_functions.php:648-759 | repeated calls return exactly the remaining values, in order, and then 0 |
| BProto.Parser.Reset | app/src/main/jni/badvpn/bproto_generator/bproto_functions.php:761-764 | all values of the entry are to come again |
| BProto.Parser.Forward | app/src/main/jni/badvpn/bproto_generator/bproto_functions.php:766-769 | no value of the entry is left |
| BProto.WriteAll | app/src/main/jni/badvpn/bproto_generator/bproto_functions.php:320-419 | the additions and the final length check produce bytes that are accepted and scan to the entries written |
| BProto.ReadAll | app/src/main/jni/badvpn/bproto_generator/bproto_functions.php:612-759 | the getters together return all values of every entry and leave none |
| BProto.Transfer | app/src/main/jni/badvpn/bproto_generator/bproto_functions.php:320-759 | writer and parser objects end to end: what was added is accepted, each getter returns exactly the values added for its entry, in order, and got-everything is then true |
| PacketProto.LookPrefix | app/src/main/jni/badvpn/flow/PacketProtoDecoder.c:46-83 | whatever part of an encoded packet has arrived, the decoder waits for the rest or takes exactly that packet |
| PacketProto.LooksExactly | app/src/main/jni/badvpn/flow/PacketProtoDecoder.c:46-83 | the decoder takes a packet exactly if the bytes begin with its 16-bit little-endian length and itself, and fails exactly on a length above the MTU |
| PacketProto.LookEncode | app/src/main/jni/badvpn/flow/PacketProtoEncoder.c:51-64 | an encoded packet is taken for exactly its payload, whatever follows it: the header holds the payload length |
| PacketProto.EncodeInPlace | app/src/main/jni/badvpn/flow/PacketProtoEncoder.c:51-64 | the header is written before the payload that is in place: the packet becomes the encoding of the payload, and the bytes behind it stay |
| PacketProto.DrainPrefix | app/src/main/jni/badvpn/flow/PacketProtoDecoder.c:46-128 | from any prefix of an encoded stream come exactly the packets that are whole in it, and the rest is kept |
| PacketProto.AnySplit | app/src/main/jni/badvpn/flow/PacketProtoDecoder.c:46-128 | for every sequence of payloads within the MTU and every split of the stream into reads, exactly those payloads come out, in order, and nothing is kept |
| PacketProto.Decoder.constructor | app/src/main/jni/badvpn/flow/PacketProtoDecoder.c:130-166 | the output MTU is limited to the maximum payload, and the buffer holds one whole packet |
| PacketProto.Decoder.MoveToFront | app/src/main/jni/badvpn/flow/PacketProtoDecoder.c:90-94 | the kept bytes move to the front unchanged |
| PacketProto.Decoder.ProcessData | app/src/main/jni/badvpn/flow/PacketProtoDecoder.c:46-105 | delivers, waits or fails as the kept bytes demand; every receive posted is inside the buffer with positive length |
| PacketProto.Decoder.InputDone | app/src/main/jni/badvpn/flow/PacketProtoDecoder.c:107-119 | the received bytes follow the kept ones and are processed |
| PacketProto.Decoder.Absorb | app/src/main/jni/badvpn/flow/PacketProtoDecoder.c:46-128 | a read and the sends it leads to deliver exactly what the stream model drains |
| PacketProto.ReadStream | app/src/main/jni/badvpn/flow/PacketProtoDecoder.c:46-128 | over a whole stream, read in pieces of any size that fits the posted receives, the decoder delivers what the stream model delivers, up to an oversized packet if there is one |
| PacketProto.ReadPackets | app/src/main/jni/badvpn/flow/PacketProtoDecoder.c:46-128 | the decoder object gives back exactly the packets of an encoded stream, however it is read |
| PacketProto.Decoder.Reset | app/src/main/jni/badvpn/flow/PacketProtoDecoder.c:176-182 | the kept bytes are forgotten, and the receive already posted still fits |
| SPProtoModel.ScanFinds | app/src/main/jni/badvpn/client/SPProtoDecoder.c:93-106 | the padding scan finds a position exactly if it is the last 1 with only zeros behind it, inside the last block |
| SPProtoModel.UnpadExact | app/src/main/jni/badvpn/client/SPProtoDecoder.c:88-107 | unpadding whole blocks gives x exactly when they are the padding of x |
| SPProtoModel.CheckExact | app/src/main/jni/badvpn/client/SPProtoDecoder.c:110-154 | a plaintext is accepted for content c exactly when it is the plaintext the encoder makes of c and the payload is within the MTU |
| SPProtoModel.PlainLayout | app/src/main/jni/badvpn/protocol/spproto.h:41-55 | the plaintext byte by byte: seed id and OTP where used, the hash over all of the plaintext with the hash field zeroed, the payload |
| SPProtoModel.RoundTrip | app/src/main/jni/badvpn/client/SPProtoEncoder.c:87-152 | for every payload within the MTU, every block size and every combination of OTP, hash and encryption, decoding the encoding gives payload, seed id and OTP back |
| SPProtoModel.DecodeExact | app/src/main/jni/badvpn/client/SPProtoDecoder.c:42-155 | a packet is accepted for content c exactly when there is a key, if one is needed, and it decrypts to the padded plaintext of c |
| SPProtoModel.EncodeSize | app/src/main/jni/badvpn/protocol/spproto.h:173-193 | an encoded packet has exactly the carrier MTU computed for its payload |
| SPProtoModel.MtuExact | app/src/main/jni/badvpn/protocol/spproto.h:152-193 | a payload fits a carrier exactly when it is within the payload MTU computed for that carrier |
| SPProto.Encoder.WriteHash | app/src/main/jni/badvpn/client/SPProtoEncoder.c:112-122 | the hash over the plaintext with zeroed hash field is put in place; OTP and payload are untouched |
| SPProto.Encoder.WriteHeader | app/src/main/jni/badvpn/client/SPProtoEncoder.c:98-122 | the buffer begins with the plaintext of the model |
| SPProto.Encoder.WritePadding | app/src/main/jni/badvpn/client/SPProtoEncoder.c:130-134 | the padding loop appends 1 and zeros |
| SPProto.Encoder.Encode | app/src/main/jni/badvpn/client/SPProtoEncoder.c:87-152 | the output buffer holds exactly the encoding of the model, within the carrier MTU |
| SPProto.Decoder.FindPadding | app/src/main/jni/badvpn/client/SPProtoDecoder.c:93-106 | the backward loop computes the padding scan of the model |
| SPProto.Decoder.HashMatches | app/src/main/jni/badvpn/client/SPProtoDecoder.c:132-150 | true exactly when the hash field is the hash; the buffer is left as it was |
| SPProto.Decoder.Decode | app/src/main/jni/badvpn/client/SPProtoDecoder.c:42-155 | computes the decoding of the model, stays inside its buffer, and leaves the input packet as it was |
| DhcpModel.StepKeepsInv | app/src/main/jni/badvpn/dhcpclient/BDHCPClientCore.c:406-678 | every handler keeps: the running timers are exactly those of the state, 1 to 8 uses of the transaction id, 1 to 4 requests |
| DhcpModel.HandlerAsserts | app/src/main/jni/badvpn/dhcpclient/BDHCPClientCore.c:591-678 | a timer that can go off finds the client in the state its handler asserts |
| DhcpModel.RepliesHeeded | app/src/main/jni/badvpn/dhcpclient/BDHCPClientCore.c:394-563 | a reply changes the client exactly when it belongs to the transaction and is an awaited offer, an awaited ACK of the offer by its server, or a NAK by that server; any other reply has no effect at all |
| DhcpModel.RepliesMean | app/src/main/jni/badvpn/dhcpclient/BDHCPClientCore.c:406-563 | an offer leads to a request for it, an ACK to what it grants (lease, mask, router and DNS; only the lease on renewal) with UP exactly if the client was not up, a NAK to a fresh start with DOWN exactly if it was |
| DhcpModel.RunKeepsInv | app/src/main/jni/badvpn/dhcpclient/BDHCPClientCore.c:406-678 | the same over every run |
| DhcpModel.ReportsAlternate | app/src/main/jni/badvpn/dhcpclient/BDHCPClientCore.c:61-71 | in every run UP and DOWN strictly alternate, and the client is up exactly in the finished and renewing states |
| DhcpRequests.StepTells | app/src/main/jni/badvpn/dhcpclient/BDHCPClientCore.c:406-678 | every message follows from the replies heeded and the messages sent before it, and goes out when it is due |
| DhcpRequests.EveryMessage | app/src/main/jni/badvpn/dhcpclient/BDHCPClientCore.c:394-678 | in every run from the start each request asks for the address of the last offer taken, under the id of the last discover, from its server before the ACK and from no one by name after it; per offer there are at most 4, 3000 ms apart, then a discover; renewals start at half the lease and come every 20000 ms; and a message is sent exactly if none is pending |
| DhcpIds.StepDiscovers | app/src/main/jni/badvpn/dhcpclient/BDHCPClientCore.c:565-589 | the reuse counter counts the discovers since the id was generated, and every one of them carries that id |
| DhcpIds.AtMostEightEach | app/src/main/jni/badvpn/dhcpclient/BDHCPClientCore.c:565-589 | from any state on, at most 8 discovers carry an id for each time it is generated |
| DhcpIds.AtMostEightEver | app/src/main/jni/badvpn/dhcpclient/BDHCPClientCore.c:565-589 | in every run at most 8 discovers carry an id for each time it is generated |
| DhcpIds.EightReached | app/src/main/jni/badvpn/dhcpclient/BDHCPClientCore.c:565-678 | the bound is attained: for every sequence of generated ids some run sends 8 discovers for each |
| DhcpIds.EightExactly | app/src/main/jni/badvpn/dhcpclient/BDHCPClientCore.c:565-589 | no run has more than 8 discovers with one id if and only if the generator gives no id twice |
| DhcpIds.GeneratorFails | app/src/main/jni/badvpn/dhcpclient/BDHCPClientCore.c:565-589 | with the constant that stands in when the generator fails, any number of discovers can carry one id |
| DhcpModel.AckSetsDue | app/src/main/jni/badvpn/dhcpclient/BDHCPClientCore.c:500-562 | an accepted ACK puts the end of the lease 1000 ms per second of lease time ahead |
| DhcpModel.LeaseRunsOut | app/src/main/jni/badvpn/dhcpclient/BDHCPClientCore.c:628-678 | without a further ACK or NAK the client stays up until exactly the due time, plus what the renew and lease timers were late |
| DhcpModel.AckToDown | app/src/main/jni/badvpn/dhcpclient/BDHCPClientCore.c:44-51 | from an accepted ACK to DOWN the timer delays total exactly 1000·lease ms (section 4.4.5 of RFC 2131) |
| Dhcp.Core.constructor | app/src/main/jni/badvpn/dhcpclient/BDHCPClientCore.c:764-780 | the client starts by sending a discover with a new transaction id |
| Dhcp.Core.SendMessage | app/src/main/jni/badvpn/dhcpclient/BDHCPClientCore.c:73-86 | nothing is sent while a send is pending |
| Dhcp.Core.TimerExpired | app/src/main/jni/badvpn/dhcpclient/BDHCPClientCore.c:591-678 | each timer handler refines the model step, whose message and due time `EveryMessage` gives, and keeps the invariant |
| Dhcp.Core.ReplyReceived | app/src/main/jni/badvpn/dhcpclient/BDHCPClientCore.c:394-563 | each reply refines the model step and keeps the invariant |
| Dhcp.Core.SendDone | app/src/main/jni/badvpn/dhcpclient/BDHCPClientCore.c:200-206 | a send has completed |

## Left out

- Sockets, TLS, certificates, threads, the reactor, the TAP device and the JNI loader: their callbacks are events.
- AVL trees are maps. The lists of LinkedList1.h (peers, frames, flows, used and free entries) are sequences; only the LinkedList3 nodes of FrameDecider's signature lists have their pointers modelled, as maps from entry to neighbour.
- Objects of `DataProto.c`, `client.c`, `FrameDecider.c` and the assembler's frame entries are values under ids in the fields of one object, not heap objects; `Routing` does the same with packets, as addresses into a memory, so that sharing would show.
- Cancelling a half-sent packet in the disassembler (FragmentProtoDisassembler.c:122-132): it does not advance the frame id, and the round trip is stated without it.
- FragmentRoundTrip.RoundTrip: packets have at most 65535 bytes, as DatagramPeerIO.c:176-179 demands for the 16-bit chunk offsets; with a chunk size limit, which the client never sets (DatagramPeerIO.c:226) and fragmentproto_max_chunks_for_frame does not know of, the room required is the bound of `CountRoom`.
- Delivery across a detach and reattach of a flow: a connector keeps its packet, and exactly-once delivery is not claimed.
- Keepalives, the receive side of DataProto beyond the reading of a packet's header, and the relaying of frames received for another peer.
- Membership timers and the shortening of them on a query in FrameDecider (FrameDecider.c:281-314): a timeout is an event that may come at any time.
- Parsing of IPv4 and IGMP headers in FrameDecider: a join or report is an event, and whether a frame from the device is IGMP is a parameter.
- FrameDeciderRuns.MulticastDestinations: the memberships do not change between the decision and its last destination, as in the loop of device_dpsource_handler; `NextIsPresent` and `StepKeepsInv` cover a decision during which they change.
- What NextDestination and AnalyzeAndDecide do once an iterator stands at an entry that is gone (`Lost`): these events are not enabled then. `RiskExactly` and `NeverToAbsent` say when this cannot happen; the one caller drains every decision before the next frame.
- Parsing and writing of DHCP option bytes (BDHCPClientCore.c:88-197, 253-388): a reply is given by its parsed fields.
- int overflow of the lengths in bproto (`used`, `pos`) and in the SPProto size functions: lengths are unbounded integers.
- The OTP check after decoding (SPProtoDecoder.c:167-173) and the exchange of OTP seeds.
- Busy handlers and cancel requests of the fair queue (PacketPassFairQueue.c:372-398): the busy handler's effect is part of the ownership model.
- Arp probing, line and single-packet buffers, FIFO and priority queues, connectors, copiers: only easy members.
