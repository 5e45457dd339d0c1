# Verified models of PQUIC

PQUIC is a QUIC stack (draft 14 of the IETF transport) whose protocol operations can be
replaced by plugins. This project models its self-contained algorithms in Dafny and proves
what they are for. `dafny verify dfyconfig.toml` checks all of it.

- **Stream transfer**: `Varint`, `StreamFrame`, `StreamSend`, `FlowControl`, `Reassembly`,
  `MaxStreamData` and, as a two-party protocol over a network that loses, repeats and reorders
  frames, `StreamTransfer`.
- **The ACK loop**: `SackList`, `AckFrame`, `AckOfAck` and, as a protocol between two ends,
  `AckLoop`.
- **The FQ-CoDel scheduler**: `FqCodel` (the functions and their invariant), `CodelLaw` (what
  CoDel promises), `Fairness`, `FlowRuns` and `Starvation` (runs), and `Scheduler` (the arrays
  and loops).
- **Pointers and memory**: the splay tree (`SplayShape` for the shape of the links,
  `SplayDelete`, `SplayLinks` for the pointers, `SplayTree` for the tree, `SplayCost` for
  its amortised cost), the block allocator (`Pool`), memory copy and fill (`MemMove`).
- **Arithmetic and control**: `PacketNumber`, `NewReno` and the dispatcher of protocol
  operations (`Dispatcher`, `DispatchLaw`).

Code that updates state in place is a class or a method on arrays, proved against functions on
values; the laws are lemmas about those functions, over every input or every run. Integers are
unbounded except where the width of a word matters, and there the wrap-around is written out.

Where the code does less than its comments say, or a natural law does not hold, the model
follows the code, and the exact condition is proved:

- the receive buffer keeps only the first missing part of a frame (`Reassembly.StoredWholeIff`,
  `Reassembly.BytesBeyondAChunkAreDropped`); frames cut as the sender cuts them are safe
  (`Reassembly.InsertWhole`);
- a STREAM frame without a length field comes back only at the end of its packet
  (`StreamFrame.RecoveredIff`);
- the comment on the allocator says that it checks whether a freed block is allocated; it
  reports and goes on, and after a second free the same block is handed out twice
  (`Pool.FreeSoundIff`, `Pool.HandedOutTwice`);
- data queued after the end of the stream was sent is accepted, sent, and refused by
  a receiver that knows the end (`StreamTransfer.LateDataIsRefused`); without it the announced
  end is the end of all data (`StreamTransfer.EndMeansWholeStream`);
- an end of stream below data that has arrived is not refused, and is moved to the end of that
  data (`Reassembly.EndTakenIff`, `Reassembly.EndBelowDataIsMoved`);
- a stream whose limit is zero is never granted more (`StreamTransfer.StalledWantsMoreIff`);
- a CoDel discard that empties a queue does not move the schedule on (`CodelLaw.EmptiedStaysDue`);
- a packet number in the first window above the expected one is not moved down
  (`PacketNumber.RecoverIff`);
- twice the initial slow-start threshold does not fit in a word (`NewReno.SpuriousIff`,
  `NewReno.WindowCanCollapse`); otherwise the window is bounded by what was acknowledged
  (`NewReno.RunWithin`);
- the comment in the dispatcher says that all inputs are restored; only the counted ones are
  (`Dispatcher.AllInputsRestoredIff`).

## Model

| member | source | states |
|---|---|---|
| Varint.VarintEncode | picoquic/intformat.c:62-98 | writes exactly the bytes of Encode when they fit, otherwise nothing; bytes outside are untouched |
| Varint.VarintDecode | picoquic/intformat.c:108-127 | the accumulating loop reads exactly the number that the bytes stand for, or nothing when they are too few |
| Varint.Encode | picoquic/intformat.c:62-98 | one, two, four or eight bytes, as many as picoquic_varint_len says for numbers below 2^62 |
| Varint.RoundTrip | picoquic/intformat.c:62-127 | every number below 2^62 is read back, whatever bytes follow |
| Varint.DecodeEncode | picoquic/intformat.c:62-127 | on all 64-bit numbers: the length comes back, the value never grows, and it is the same exactly below 2^62 |
| Varint.DecodedBelow | picoquic/intformat.c:108-127 | whatever the bytes, a decoded number is below 2^62 |
| Varint.DecodeAllEncodeAll | picoquic/frames.c:83-101 | a list of numbers written one after the other is read back, each cut to 62 bits |
| Varint.DecodeAllSplit | picoquic/frames.c:83-101 | reading n + m numbers is reading n and then m from where the first stopped |
| SackList.AddNormal | picoquic/sacks.c:66-175 | insertion into a normal list (descending, disjoint, at least one number missing between ranges) gives a normal list with the larger top |
| SackList.AddHas | picoquic/sacks.c:66-175 | insertion is union of the numbers represented |
| SackList.Canonical | picoquic/sacks.c:66-175 | a set of numbers has exactly one normal list |
| SackList.AddUnique | picoquic/sacks.c:66-175 | any normal list that represents the union is the result of the insertion |
| SackList.Sacks.Update | picoquic/sacks.c:66-175 | the in-place loop, with its merges in both directions, computes the insertion for every normal list and range, and returns 1 exactly when the range was contained |
| SackList.Sacks.Visit | picoquic/sacks.c:78-171 | one turn of that loop: done with the insertion, or the rest of the range is still to be inserted further down |
| SackList.Sacks.Record | picoquic/sacks.c:177-202 | a received number is inserted; the result tells duplicates and new highest numbers apart |
| SackList.Sacks.IsReceived | picoquic/sacks.c:38-59 | exactly membership |
| SackList.Sacks.Check | picoquic/sacks.c:204-238 | -1 exactly when the range is contained |
| AckFrame.ParseFrameBytes | picoquic/frames.c:2178-2263 | an encodable ACK frame is read back from its bytes among others; only a delay of 2^62 or more comes back smaller |
| AckFrame.ParseFrame | picoquic/frames.c:2178-2263 | the parser accepts exactly the byte strings that hold a frame, and returns that frame and its length |
| AckFrame.ParseBody | picoquic/frames.c:2239-2259 | the loop over the blocks reads the first range and all gap/range pairs or reports failure |
| AckFrame.ExpandNormal | picoquic/frames.c:2296-2347 | whatever frame arrives, the ranges it is expanded to form a normal list that begins with the first one |
| AckFrame.ExpandBlocksOf | picoquic/frames.c:2296-2347 | the ranges computed from the gaps of a normal list are that list; no range or gap error is reported |
| AckFrame.BlocksOf62 | picoquic/frames.c:2579-2606 | no gap or range of a normal list below 2^62 underflows or exceeds 62 bits |
| AckFrame.AckRoundTrip | picoquic/frames.c:2482-2657 | list to frame to bytes to frame to list: for every normal list of at most 64 ranges below 2^62 the same list comes back, among whatever other bytes |
| AckFrame.PrefixRoundTrip | picoquic/frames.c:2482-2657 | the bytes written for the first n ranges of any list are read back as exactly these ranges |
| AckFrame.Prepare | picoquic/frames.c:2482-2657 | for every normal list and buffer size: success exactly when the header fits, and then the bytes are those of the frame for the first n ranges, n stopping only at the end of the list, at 1 + 63 or for want of room |
| AckFrame.PrepareBlocks | picoquic/frames.c:2576-2606 | the loop appends gap and range of as many ranges as fit |
| AckFrame.PrepareHeader | picoquic/frames.c:2513-2574 | the header with the first range fits exactly when its encodings do |
| AckFrame.FrameBytesOf | picoquic/frames.c:2482-2657 | the bytes written field by field are the bytes of the frame |
| AckOfAck.PruneNormal | picoquic/frames.c:1828-1860 | pruning by an acknowledged range keeps normal form and the largest recorded number |
| AckOfAck.PruneExact | picoquic/frames.c:1828-1860 | exactly what pruning loses: the acknowledged range, if the first range starts where it does, however far that has grown since, or if it is one of the others; never the largest number |
| AckOfAck.PruneHas | picoquic/frames.c:1828-1860 | so only numbers inside the range are lost, and none are added |
| AckOfAck.PruneAllNormal | picoquic/frames.c:1869-1962 | the same for all ranges of a frame |
| AckOfAck.PruneAllHas | picoquic/frames.c:1869-1962 | numbers outside the frame's ranges stay, none are added |
| AckOfAck.PruneAllExact | picoquic/frames.c:1869-1962 | exactly what a whole acknowledged frame makes a list forget, whatever has become of the list since |
| AckOfAck.OwnFrame | picoquic/frames.c:1869-1962 | pruning by one's own first k ranges leaves exactly the largest number and the ranges that were not encoded |
| AckOfAck.WalkOwnFrame | picoquic/frames.c:1869-1962 | the walk over the bytes of a frame this end sent visits exactly the ranges of the frame |
| AckOfAck.OwnWalk | picoquic/frames.c:1888-1956 | the walk over the bytes written for the first n ranges of a list visits exactly these |
| AckOfAck.OwnBytes | picoquic/frames.c:1869-1962 | from bytes to list: the acknowledgement of one's own ACK frame, among other bytes, leaves exactly the largest number and the ranges that were not encoded |
| AckOfAck.PruneRange | picoquic/frames.c:1828-1860 | the in-place list walk computes the pruning function |
| AckOfAck.PruneWalk | picoquic/frames.c:1895-1956 | the loop prunes range after range as it reads the bytes, also when they turn out malformed |
| AckOfAck.ProcessAckOfAck | picoquic/frames.c:1869-1962 | result and list for every byte string and normal list |
| AckLoop.WithoutAllMember | picoquic/frames.c:2112-2165 | exactly the packets outside the ranges stay queued |
| AckLoop.Sender.ProcessRange | picoquic/frames.c:2112-2165 | from a cursor above the range, the walk removes exactly the packets of the range and leaves a cursor for the next one |
| AckLoop.Sender.TopPacket | picoquic/frames.c:1735-1748 | the starting cursor: only packets above the largest acknowledged are before it |
| AckLoop.Sender.ProcessBlocks | picoquic/frames.c:2296-2347 | each range resumes from the previous cursor, yet all ranges after the first are removed exactly |
| AckLoop.Sender.ProcessFrame | picoquic/frames.c:2265-2351 | a frame removes exactly the queued packets in its ranges, on every frame, also erroneous ones up to the error; frames for unsent numbers change nothing |
| AckLoop.HonestAck | picoquic/frames.c:2178-2351 | a frame written for the recorded numbers, arriving among other bytes, is read without error and removes exactly its ranges |
| AckLoop.StepKeeps | picoquic/frames.c:2112-2351 | sending, losing, receiving, acknowledging, delivering and forgetting keep the invariant of the two ends |
| AckLoop.RunKeeps | picoquic/frames.c:2112-2351 | the invariant holds throughout every run with ACK frames delayed, repeated and reordered |
| AckLoop.RecordedMeansReceived | picoquic/sacks.c:177-202 | in every run a recorded number was received earlier |
| AckLoop.NoFalseAcknowledgement | picoquic/frames.c:2112-2351 | in every run a packet that an ACK takes off the retransmit queue had been received |
| AckLoop.AckTakesExactlyItsRanges | picoquic/frames.c:2265-2351 | in every run one ACK frame removes exactly the queued packets of the ranges it was written for |
| AckLoop.FrameWasWritten | picoquic/frames.c:2482-2657 | in every run a frame on the wire was written at an earlier step for leading ranges of the list as it was then |
| AckLoop.AckReportsTheList | picoquic/frames.c:2265-2351 | in every run an arriving ACK frame removes exactly the queued packets in the ranges that were reported of the other end's list at that earlier step |
| AckLoop.ForgetsExactly | picoquic/frames.c:1869-1962 | in every run the acknowledgement of such a frame makes the list forget exactly the reported ranges it still holds, whole or as the start of its first range, and never its largest number |
| AckLoop.ForgottenWasReported | picoquic/frames.c:1828-1962 | in every run a received number that is missing from the list was reported in an ACK frame that was itself acknowledged |
| StreamFrame.ParseFrameBytes | picoquic/frames.c:693-749 | a STREAM frame is read back from its bytes; without a length field it takes all that follows |
| StreamFrame.RecoveredIff | picoquic/frames.c:693-749 | it comes back exactly when it carries a length or nothing follows |
| StreamFrame.ParseFrame | picoquic/frames.c:900-930 | the parser accepts exactly the byte strings that hold a frame |
| StreamSend.Sender.AddToStream | picoquic/sender.c:50-132 | data is appended to what is pending; a second end of stream with data is refused |
| StreamSend.Sender.Prepare | picoquic/frames.c:1057-1192 | a frame is made exactly when there is data or an end to send, the header fits, and some data is within both limits and, with its length if that is written, within the buffer; it carries exactly so many of the next pending bytes, at the sent offset, with the end marked exactly when all is sent; the connection counts exactly the bytes carried, on 64 bits; otherwise nothing changes, and the answer tells lack of room from lack of work |
| StreamSend.Sender.FillFrame | picoquic/frames.c:1105-1185 | the same for the part after the header |
| StreamSend.Sender.PlanFrame | picoquic/frames.c:1105-1185 | the length field is written and there is something to send after it, exactly under that condition |
| StreamSend.Sender.BeginFrame | picoquic/frames.c:1083-1104 | type, identifier and offset are written exactly when they fit |
| StreamSend.Sender.ChooseLength | picoquic/frames.c:1105-1152 | the exact length after the trial and error over the length field, when it is written, and when it fails |
| StreamSend.PutLength | picoquic/frames.c:1130-1151 | succeeds exactly when the length field leaves a byte of room; a shorter length, encoded again, still fits |
| StreamSend.Sender.TakeData | picoquic/frames.c:1154-1174 | the bytes taken are the next pending ones, leave the queue, and are counted for the connection |
| StreamSend.Sender.FinishFrame | picoquic/frames.c:1154-1180 | data and end-of-stream bit as written, and the new state |
| FlowControl.AdmitIff | picoquic/frames.c:367-391 | an offset is admitted exactly when it is within the stream's limit and its new bytes within the connection's |
| FlowControl.StepKeeps | picoquic/frames.c:367-391 | arrivals on any stream, refused or not, and raised limits keep the counters in agreement |
| FlowControl.CountersAgree | picoquic/frames.c:367-391 | in every run the connection's byte count is the sum of the streams' highest offsets and stays within its limit |
| Reassembly.InsertOrdered | picoquic/frames.c:788-849 | the buffered chunks stay sorted, disjoint and above the consumed offset |
| Reassembly.InsertAgrees | picoquic/frames.c:788-849 | chunks of a stream stay chunks of that stream |
| Reassembly.InsertCovers | picoquic/frames.c:788-849 | nothing buffered is lost and nothing outside the frame is added |
| Reassembly.StoredWholeIff | picoquic/frames.c:788-849 | a frame is held in full afterwards exactly when what was missing of it was one gap |
| Reassembly.KeptWholeIff | picoquic/frames.c:788-849 | the same from the consumed offset on |
| Reassembly.BytesBeyondAChunkAreDropped | picoquic/frames.c:817-842 | an input where bytes beyond a buffered chunk are not kept |
| Reassembly.EndTakenIff | picoquic/frames.c:851-898 | an accepted end of stream is the end of its own frame exactly when nothing beyond was seen before; otherwise it is the highest offset seen |
| Reassembly.EndBelowDataIsMoved | picoquic/frames.c:869-879 | an input where it is not: the second byte arrives, then the first with the end, and the end is announced after the second |
| Reassembly.InputCounts | picoquic/frames.c:367-391 | what a frame, refused or not, uses up of the connection's limit is what it adds to the highest offset of its stream |
| Reassembly.InsertWhole | picoquic/frames.c:788-849 | a frame cut where the sender cut the stream is always kept in full |
| Reassembly.DeliverGood | picoquic/frames.c:751-785 | delivery keeps the receiver's invariant and leaves nothing deliverable or announceable behind |
| Reassembly.DeliverHas | picoquic/frames.c:751-785 | delivery loses no byte |
| Reassembly.AcceptGood | picoquic/frames.c:851-898 | an admitted frame of the stream keeps the invariant |
| Reassembly.AcceptHas | picoquic/frames.c:851-898 | an admitted frame leaves every byte it carries, and every earlier byte, with the receiver |
| Reassembly.InputCalls | picoquic/frames.c:851-898 | calls of the application are never taken back |
| Reassembly.StreamHead.QueueInput | picoquic/frames.c:788-849 | the search loop and the cut of the new chunk compute the insertion |
| Reassembly.StreamHead.DataCallback | picoquic/frames.c:751-785 | the delivery loop computes the delivery function |
| Reassembly.StreamHead.NetworkInput | picoquic/frames.c:851-898 | result, stream and connection counters for every arriving frame, the error cases included |
| Reassembly.StreamHead.CheckOffset | picoquic/frames.c:367-391 | the admission rule, in place |
| MaxStreamData.ParseGrantBytes | picoquic/frames.c:3065-3091 | a MAX_STREAM_DATA frame is read back; a limit of 2^62 or more comes back smaller, never larger |
| MaxStreamData.PrepareGrant | picoquic/frames.c:3043-3060 | a grant is written exactly when it is wanted and fits, with the limit that the receiver then enforces; otherwise nothing changes |
| StreamTransfer.StepKeeps | picoquic/frames.c:751-898 | every step of the two-party protocol keeps its invariant, also data queued after the end was sent |
| StreamTransfer.RunInv | picoquic/frames.c:751-898 | the invariant holds throughout every run with frames lost, repeated and reordered |
| StreamTransfer.DeliveredInOrder | picoquic/frames.c:751-849 | in every run the bytes given to the application are a prefix of those queued by the sender's, each once, in order, never taken back |
| StreamTransfer.AllAcceptedMeansAllDelivered | picoquic/frames.c:788-898 | in every run, once all emitted frames have been accepted, in any order, everything sent is delivered and, if the end was sent, the last call of the application announced it |
| StreamTransfer.EndAnnouncedOnceAndLast | picoquic/frames.c:755-784 | in every run the end of stream is announced at most once, after all data up to the final offset, and nothing follows it |
| StreamTransfer.EndMeansWholeStream | picoquic/frames.c:755-784 | as long as no data is queued after an end that was sent, the announced end is the end of all that was ever queued, and no final-offset error occurs |
| StreamTransfer.RunOneEnd | picoquic/frames.c:863-879 | under that condition, in every state of a run, all frames that end the stream and the receiver agree on where |
| StreamTransfer.RefusedIff | picoquic/frames.c:863-867 | in every run a frame is answered with a final-offset error exactly when it contradicts the end known to the receiver, which then keeps what it has |
| StreamTransfer.NeverOverStreamLimit | picoquic/frames.c:367-391 | in every run, a frame that arrives ends within what was sent, that within the limit the sender knows, and that within the limit the receiver enforces, however grants are lost or reordered; so it gets a flow control error exactly when the receiver does not know the end yet and the connection's own limit is passed, and the only other error is a contradicted end |
| StreamTransfer.SenderWithinLimit | picoquic/frames.c:1115-1118 | in every state of every run what was sent is within the sender's limit, and that within the receiver's |
| StreamTransfer.StalledWantsMoreIff | picoquic/frames.c:3043-3060 | in every run, when everything up to the receiver's limit has been read and no end is known, a strictly larger limit is granted exactly when the limit is not zero |
| StreamTransfer.StalledMovesOn | picoquic/frames.c:3043-3091 | and then the grant can be sent, on arrival it is the sender's limit, and waiting data can be sent |
| StreamTransfer.CountedOnce | picoquic/frames.c:367-391 | in every run, while other streams rest, the connection counts every byte below the highest offset once |
| StreamTransfer.AlwaysReady | picoquic/frames.c:3116-3158 | the conditions of the steps hold in every run |
| StreamTransfer.LateDataIsRefused | picoquic/frames.c:863-867 | the other half: the next frame with data queued after the end is refused by a receiver that knows the end |
| FqCodel.CodelConserves | picoquic/fqCoDel.c:206-268 | CoDel takes frames off the head only: first those it discards, all late, then the one it hands out; it hands out nothing only from an emptied queue |
| CodelLaw.LookTracks | picoquic/fqCoDel.c:184-203 | CoDel agrees to discard a frame exactly when it and all frames looked at since more than an interval before were late |
| CodelLaw.DropWhileSchedule | picoquic/fqCoDel.c:219-242 | the dropping loop discards exactly the ripe frames whose times have passed, each time following the last by the interval divided by the count |
| CodelLaw.CodelCall | picoquic/fqCoDel.c:206-268 | every call of codel_dequeue, whatever it has looked at before: an unripe frame is handed out and ends the dropping state; outside that state one ripe frame goes and the state begins; inside it the schedule is kept |
| CodelLaw.OverdueIsDiscarded | picoquic/fqCoDel.c:217-242 | in the dropping state a ripe frame is discarded once the clock is past the scheduled time |
| CodelLaw.EmptiedStaysDue | picoquic/fqCoDel.c:225-227 | a discard that empties the queue does not move the schedule on, so the next ripe frame goes at once |
| FqCodel.TurnKeeps | picoquic/fqCoDel.c:272-319 | a turn of the scheduler keeps accounts and lists |
| FqCodel.TurnProgress | picoquic/fqCoDel.c:272-319 | every turn that hands out nothing lowers the measure: new flows, active flows, rounds of credit owed |
| FqCodel.GrantLowersDebt | picoquic/fqCoDel.c:288-293 | a grant lowers the rounds of credit owed by exactly one |
| FqCodel.DequeueTotal | picoquic/fqCoDel.c:272-319 | dequeue ends for every state and clock; NULL means every queue is empty; each flow loses only frames from its head |
| FqCodel.IdleMeansEmpty | picoquic/fqCoDel.c:272-319 | no listed flow means no queued byte |
| FqCodel.Largest | picoquic/fqCoDel.c:62-71 | the first largest backlog |
| FqCodel.AppendKeeps | picoquic/fqCoDel.c:106-134 | enqueue keeps the invariant and leaves a positive divisor |
| FqCodel.DropKeeps | picoquic/fqCoDel.c:58-103 | dropping any number of heads of a largest queue keeps the invariant |
| FqCodel.DropIsSafe | picoquic/fqCoDel.c:58-134 | when the limit is exceeded the largest queue is not empty |
| FqCodel.PeekKeeps | picoquic/fqCoDel.c:137-156 | peek keeps the invariant |
| Fairness.StepKeeps | picoquic/fqCoDel.c:58-166 | every operation keeps accounts and lists |
| Fairness.RunKeeps | picoquic/fqCoDel.c:58-319 | after every mix of operations from the start: backlogs are byte counts of their queues, the total is their sum, queued flows are listed exactly once and counted |
| Fairness.CanAlwaysEnqueue | picoquic/fqCoDel.c:106-134 | enqueue is possible in every such state |
| Fairness.RunBounded | picoquic/fqCoDel.c:272-319 | credits stay between 1 - M and one quantum in every run with blocks of at most M bytes from a state in which they are |
| Fairness.StretchBounded | picoquic/fqCoDel.c:272-367 | every stretch of every run from the initial scheduler is such a run |
| Fairness.CreditLaw | picoquic/fqCoDel.c:272-319 | over a busy run, credit plus bytes sent is the starting credit plus all grants |
| Fairness.GrantsAlternate | picoquic/fqCoDel.c:272-319 | two busy flows are granted quanta in turn |
| Fairness.Fair | picoquic/fqCoDel.c:272-319 | over any such run grants of two busy flows differ by at most one and their bytes by at most three quanta and two blocks |
| FlowRuns.Fifo | picoquic/fqCoDel.c:58-319 | first in, first out: in every run, for every flow, the frames that left it, in order, followed by its queue are the frames enqueued to it, in order |
| FlowRuns.SentLeavesLast | picoquic/fqCoDel.c:272-319 | the frame a turn hands out is the last of those that leave with it |
| FlowRuns.EveryFrameCounted | picoquic/fqCoDel.c:58-319 | in every run, every frame ever enqueued was sent, is counted as dropped, or is queued |
| FlowRuns.DropsIff | picoquic/fqCoDel.c:58-134 | frames are dropped over the limit exactly when the flow's bytes, with the new frame, reach its share of the buffer, and then from a flow with the most bytes |
| FlowRuns.RunTracks | picoquic/fqCoDel.c:184-268 | in every run CoDel's memory of every flow is that of the frames it has looked at |
| FlowRuns.RunLaw | picoquic/fqCoDel.c:206-268 | in every run every call of codel_dequeue keeps CoDel's law |
| FlowRuns.DiscardedOnlyRipe | picoquic/fqCoDel.c:184-268 | in every run a frame is discarded only if it and every frame looked at since more than an interval before were late |
| FlowRuns.RipeIsDiscarded | picoquic/fqCoDel.c:244-265 | and outside the dropping state such a frame is discarded |
| FlowRuns.OnSchedule | picoquic/fqCoDel.c:217-242 | throughout a dropping state, over many calls, the next discard after N is due at the N-th time of the schedule |
| FlowRuns.OnTime | picoquic/fqCoDel.c:217-242 | and each call discards exactly those whose times have passed by its clock |
| Starvation.JoinsAsNew | picoquic/fqCoDel.c:106-134 | a flow that gets a frame without being listed becomes the last new flow with a full quantum; nothing else is listed or credited |
| Starvation.TurnLists | picoquic/fqCoDel.c:272-319 | which flow a turn serves and where it goes: exhausted flows and empty new flows to the end of the old ones, other empty flows off the lists |
| Starvation.NewServedFirst | picoquic/fqCoDel.c:44-56 | in every run, as long as a flow is among the new ones, only those that were ahead of it and the flow itself have turns |
| Starvation.NoStarvation | picoquic/fqCoDel.c:272-319 | over every stretch of every run, no flow, even one that leaves and comes back as new again and again, gets more than two quanta, or twice the bytes, of a busy old flow, give or take a constant |
| Starvation.StretchSolvent | picoquic/fqCoDel.c:272-367 | every stretch of every run from the initial scheduler is of that kind |
| Starvation.PeekFinds | picoquic/fqCoDel.c:137-156 | peeking again and again gets to the first listed flow that has a frame, after as many calls as there are empty flows before it, and stays there |
| Scheduler.Scheduler.constructor | picoquic/fqCoDel.c:323-367 | the initial scheduler |
| Scheduler.Scheduler.DequeueFrame | picoquic/fqCoDel.c:158-166 | takes the head frame and its bytes off the accounts |
| Scheduler.Scheduler.DropLoop | picoquic/fqCoDel.c:219-242 | the dropping loop computes its specification |
| Scheduler.Scheduler.EnterDrop | picoquic/fqCoDel.c:244-265 | entering the dropping state |
| Scheduler.Scheduler.TakeFrame | picoquic/fqCoDel.c:206-268 | codel_dequeue on the arrays |
| Scheduler.Scheduler.OneTurn | picoquic/fqCoDel.c:272-319 | one turn of the loop |
| Scheduler.Scheduler.Dequeue | picoquic/fqCoDel.c:272-319 | the loop, with its termination, computes the dequeue function; NULL only when nothing is queued |
| Scheduler.Scheduler.PeekFrame | picoquic/fqCoDel.c:137-156 | shows the head frame of the first flow and moves an empty new flow on |
| Scheduler.Scheduler.FindLargest | picoquic/fqCoDel.c:62-71 | the loop finds a largest backlog |
| Scheduler.Scheduler.DropFrames | picoquic/fqCoDel.c:58-103 | k heads of a largest queue go, and their bytes with them |
| Scheduler.Scheduler.Enqueue | picoquic/fqCoDel.c:106-134 | the frame is queued, its flow listed, and the overlimit drop taken when it is due |
| SplayShape.RotateTree | picoquic/picosplay.c:256-285 | a rotation keeps a well-formed tree, every node in its place, and gives the node its parent's interval |
| SplayShape.SplayStepTree | picoquic/picosplay.c:42-80 | zig, zig-zig and zig-zag keep the tree and strictly widen the node's interval |
| SplayShape.SplayKeepsTree | picoquic/picosplay.c:42-80 | splaying keeps the tree and puts the node at the root |
| SplayShape.InOrderIsInterval | picoquic/picosplay.c:208-223 | the in-order walk along the links visits the interval of the subtree in order |
| SplayShape.SplayKeepsOrder | picoquic/picosplay.c:42-80 | splaying any node leaves the in-order sequence as it was |
| SplayCost.RotatePotential | picoquic/picosplay.c:256-285 | the change of the potential by a rotation |
| SplayCost.TurnPays | picoquic/picosplay.c:42-80 | a zig-zig or zig-zag, each in its own way, costs at most three times what the node gains in rank; a zig one more |
| SplayCost.SplayPays | picoquic/picosplay.c:42-80 | so one splay costs at most three times the logarithm of the size, and one, net of the potential |
| SplayCost.Amortized | picoquic/picosplay.c:42-80 | any series of m splays in a tree of n nodes takes at most m (3 log n + 1) + n log n turns, from any shape |
| SplayShape.AddLeafTree | picoquic/picosplay.c:101-138 | a new leaf where there is none keeps the tree |
| SplayShape.Apart | picoquic/picosplay.c:170-197 | subtrees stay on their side of the root |
| SplayDelete.ThinTree | picoquic/picosplay.c:174-181 | removing a root with at most one child leaves a tree of the others |
| SplayDelete.ThickTree | picoquic/picosplay.c:182-195 | removing a root with two children, its successor moving up, leaves a tree of the others |
| SplayDelete.TopSuccessor | picoquic/picosplay.c:182-190 | the successor of such a root has no left child and is a left child unless it hangs on the root |
| SplayLinks.MarkGrandparent | picoquic/picosplay.c:275-285 | the pointers after mark_gp |
| SplayLinks.Rotate | picoquic/picosplay.c:256-273 | the pointers after a rotation are those of the rotated shape |
| SplayLinks.SplayTurn | picoquic/picosplay.c:42-80 | one turn of the loop of splay, on the pointers |
| SplayLinks.SplayUp | picoquic/picosplay.c:42-60 | the loop, with its termination |
| SplayLinks.AttachLeaf | picoquic/picosplay.c:127-132 | the pointers after a new leaf is linked in |
| SplayLinks.Leftmost | picoquic/picosplay.c:287-294 | the first node of the subtree, or NULL |
| SplayLinks.DetachThin | picoquic/picosplay.c:174-181 | the pointers after the removal of a root with at most one child |
| SplayLinks.DetachThick | picoquic/picosplay.c:182-195 | the pointers after the removal of a root with two children |
| SplayTree.Search | picoquic/picosplay.c:113-126 | the insertion search ends below a free link that splits the nodes into those not above the value and those above |
| SplayTree.Lookup | picoquic/picosplay.c:141-152 | a node equal to the value, or NULL only when there is none |
| SplayTree.Next | picoquic/picosplay.c:217-223 | the node after the given one, NULL after the last |
| SplayTree.WithoutTopTree | picoquic/picosplay.c:170-197 | removing the root leaves a tree with one node less |
| SplayTree.InsertSorted | picoquic/picosplay.c:101-138 | a node inserted at the split keeps the order, equal nodes included |
| SplayTree.OrderedTree.constructor | picoquic/picosplay.c:83-87 | the empty tree |
| SplayTree.OrderedTree.Splay | picoquic/picosplay.c:42-60 | the node comes to the root, the node sequence unchanged |
| SplayTree.OrderedTree.Add | picoquic/picosplay.c:101-138 | the new node is inserted after all nodes not above it, comes to the root, and the size counts it |
| SplayTree.OrderedTree.Find | picoquic/picosplay.c:141-161 | found exactly when present, and then at the root; the node sequence unchanged |
| SplayTree.OrderedTree.DeleteHint | picoquic/picosplay.c:170-197 | exactly that node leaves the sequence, the others keep their order; NULL changes nothing |
| SplayTree.OrderedTree.Delete | picoquic/picosplay.c:164-167 | one equal node leaves, if there is one |
| SplayTree.OrderedTree.First | picoquic/picosplay.c:208-210 | the first node of the sequence |
| SplayTree.OrderedTree.Empty | picoquic/picosplay.c:199-206 | deleting roots ends with the empty tree |
| Pool.MallocCorrect | picoquic/memory.c:72-112 | a request that fits fails exactly when all blocks are live; otherwise the block was not live; a failed request changes nothing |
| Pool.Conserved | picoquic/memory.c:72-144 | live blocks plus num_free_blocks is num_of_blocks |
| Pool.FreeSoundIff | picoquic/memory.c:120-144 | freeing leaves a pool exactly when the block was live: a second free, which is only reported, closes the chain into a ring |
| Pool.MarkedIff | picoquic/memory.c:120-124 | in a pool of fewer blocks than the mark, a block ever touched bears the mark exactly when it is live, so the report of a bad free is right |
| Pool.WalkChain | picoquic/memory.c:94-102 | in a pool the links from next run through the chain |
| Pool.SecondFreeRing | picoquic/memory.c:120-144 | after a second free the links lead from next through the chain up to the block and back to it |
| Pool.HandedOutTwice | picoquic/memory.c:72-144 | the harm of a second free of the m-th block of the chain: the next m + 2 requests get it, all blocks before it, and it once more |
| Pool.FreshInOrder | picoquic/memory.c:72-118 | a fresh pool hands out its blocks in order |
| Pool.LastFreedFirst | picoquic/memory.c:72-144 | the block freed last is handed out next, and once every block has been touched the two calls undo each other |
| Pool.RunSound | picoquic/memory.c:72-197 | after every sequence of requests and returns the chain completed by the untouched tail is exactly the non-live blocks, each once |
| Pool.LinksInRange | picoquic/memory.c:94-102 | the links followed by an allocation stay inside the pool |
| Pool.AddressIndex | picoquic/memory.c:16-22 | address and index are inverse, also inside a block |
| Pool.MemoryPool.constructor | picoquic/memory.c:179-197 | the fresh pool of 16 MiB in blocks of 2100 bytes |
| Pool.MemoryPool.MallocBlock | picoquic/memory.c:72-112 | allocation in place computes its specification, eight bytes into the block |
| Pool.MemoryPool.FreeBlock | picoquic/memory.c:120-144 | release in place, telling whether the mark of a live block was there |
| MemMove.MovedForward | picoquic/memcpy.c:66-89 | a move towards lower addresses can be split from the front, whatever the overlap |
| MemMove.MovedBackward | picoquic/memcpy.c:90-111 | a move towards higher addresses can be split from the back |
| MemMove.HeadForward | picoquic/memcpy.c:70-82 | after the single bytes, both operands are aligned or nothing is left |
| MemMove.HeadBackward | picoquic/memcpy.c:96-106 | the same from the end |
| MemMove.WordsForward | picoquic/memcpy.c:86-87 | word copies, forward |
| MemMove.WordsBackward | picoquic/memcpy.c:107-108 | word copies, backward |
| MemMove.CopyForward | picoquic/memcpy.c:66-89 | head, words and tail together are one move |
| MemMove.CopyBackward | picoquic/memcpy.c:90-111 | the same, backward |
| MemMove.MemCpy | picoquic/memcpy.c:51-114 | for every pair of addresses, alignment, overlap and length the destination holds the old source bytes and nothing else changes |
| MemMove.FillWords | picoquic/memcpy.c:157-162 | the word loop of memset |
| MemMove.MemSet | picoquic/memcpy.c:128-165 | exactly n bytes get the value, although head, tail and words overlap |
| PacketNumber.MergeIsWords | picoquic/packet.c:314-316 | bit by bit, masking a word drops its low bits and the bitwise or puts the given ones there |
| PacketNumber.GetPacketNumber64 | picoquic/packet.c:312-335 | the code on 64-bit words, with its bit operations, computes the recovery function for each of the three masks |
| PacketNumber.NearestIff | picoquic/packet.c:318-332 | the choice among the merged number and its neighbours |
| PacketNumber.RecoverIff | picoquic/packet.c:312-335 | for all 64-bit inputs and the three windows: a truncated number comes back exactly when it is in the half-open window around the expected one, or in the first window above it, or past the wrap at 2^64 |
| PacketNumber.ReadEncode32 | picoquic/intformat.c:149-184 | the four header bytes carry the number modulo 2^30 |
| PacketNumber.HeadintEncode32 | picoquic/intformat.c:149-157 | writes exactly these four bytes |
| PacketNumber.HeadintDecode | picoquic/intformat.c:159-184 | agrees with the switch of the receiver on every buffer, and returns nothing when too few bytes are given |
| PacketNumber.EndToEnd | picoquic/packet.c:381-401 | sender's encoding, receiver's switch and recovery composed: the exact condition for the number to come back |
| PacketNumber.ReceivesWhatWasSent | picoquic/packet.c:312-335 | over every sequence of packets lost, repeated and reordered by less than 2^29, every number is recovered |
| NewReno.NotifyIff | picoquic/newreno.c:90-180 | a notification keeps the window at or above the minimum and the residue below the window, and an acknowledgement never shrinks the window, exactly when the addition to the window does not overflow |
| NewReno.RunSane | picoquic/newreno.c:43-180 | so over every run without overflow |
| NewReno.SpuriousIff | picoquic/newreno.c:134-144 | a spurious repeat never shrinks the window; within a round trip it makes it the larger of the window and twice the threshold exactly when that fits in a word; later it changes nothing |
| NewReno.RunWithin | picoquic/newreno.c:43-180 | over every run whose packet size times acknowledged bytes is a word with room for the initial window, and without a report of a spurious repeat within a round trip of the last recovery while the threshold is all ones, the window stays within that and nothing overflows |
| NewReno.WindowCanCollapse | picoquic/newreno.c:117-144 | an input where it does not: before the first loss and within one round trip of the clock's zero the window becomes 2^64 - 2, and enough acknowledgements of ordinary packets then make it zero |
| NewReno.AvoidBalance | picoquic/newreno.c:117-123 | the residue pays exactly for the growth: each byte costs at least the smallest and at most the largest window |
| NewReno.OnePacketPerWindow | picoquic/newreno.c:117-123 | any split of at most a window of bytes grows the window by at most one packet, and by at least the share due less one |
| NewReno.AckAllIsAvoid | picoquic/newreno.c:105-126 | a list of acknowledgement notifications computes that arithmetic while the words are wide enough |
| NewReno.OnePacketPerWindowOfAcks | picoquic/newreno.c:105-126 | the bound for the notifications themselves, also when the product of bytes and packet size wraps around |
| NewReno.RecoveryUndone | picoquic/newreno.c:59-82 | loss and spurious repeat within one round trip: the window comes back to the byte exactly when it was even and at least twice the minimum |
| NewReno.SlowStartGrows | picoquic/newreno.c:105-116 | while the window is in use, slow start adds every acknowledged byte, and ends exactly with the acknowledgement that takes the window to the threshold |
| NewReno.UnusedWindowStays | picoquic/newreno.c:105-109 | while it is not in use, acknowledgements change nothing |
| NewReno.AfterTimeout | picoquic/newreno.c:59-132 | after a timeout the window restarts from the minimum, grows by every acknowledged byte up to half of what it was, and then follows congestion avoidance |
| NewReno.AfterRepeat | picoquic/newreno.c:59-132 | after a repeat it is halved and follows congestion avoidance at once |
| NewReno.OneCutPerRoundTrip | picoquic/newreno.c:127-144 | in every run, between losses more than a round trip apart the window never shrinks, whatever is reported |
| NewReno.DelayEndsFirstSlowStart | picoquic/newreno.c:145-179 | in every run a measured delay ends slow start exactly before the first loss |
| NewReno.Controller.constructor | picoquic/newreno.c:43-55 | the initial state |
| NewReno.Controller.Recover | picoquic/newreno.c:59-82 | entering recovery, in place |
| NewReno.Controller.Handle | picoquic/newreno.c:90-180 | a notification, in place, keeps the controller sane unless the window overflows |
| Dispatcher.RunRestores | picoquic/plugin.c:1098-1254 | for every tree of nested calls the caller gets back its inputs, saved outputs, both counts, plugin, operation, anchor and all running flags, the callee's status, and as outputs the last ones the callee's own code saved |
| Dispatcher.RunClears | picoquic/plugin.c:1193-1254 | two fields are not put back: after a call that was not refused the status kept for observers is 0 and the previous plugin is the one that replaced the operation, or none |
| DispatchLaw.RunReturnsIff | picoquic/plugin.c:1084-1254 | a call returns, rather than ending the program, exactly when it has too many inputs, or its entry exists, has the caller's intern flag, is not running, has a replacement or core, and all calls of its observers and code return |
| DispatchLaw.RunExecutes | picoquic/plugin.c:1161-1212 | every call that returns has executed exactly the observers before, the replacement or core, and the observers after, in order and at every depth, each with its plugin, anchor, operation and inputs, and with the status for the observers after |
| Dispatcher.ScriptKeeps | picoquic/plugin.c:1098-1254 | code keeps its context over all its nested calls, and its outputs are the last it saved |
| Dispatcher.RunNests | picoquic/plugin.c:1161-1168 | every call, whether it returns or ends in the exit of the program, nests no deeper than there are entries not yet running; one that returns nests as deep as its tree |
| Dispatcher.RunSlot | picoquic/plugin.c:1098-1254 | every input slot after every call that returns: the counted ones are put back, the others hold the last value that the call, its code or its nested calls left there |
| Dispatcher.AllInputsRestoredIff | picoquic/plugin.c:1093-1109 | the whole input array comes back exactly when the call leaves every slot beyond the caller's count as it found it |
| Dispatcher.SilentCallRestoresIff | picoquic/plugin.c:1093-1109 | for a call that does nothing: exactly when its inputs beyond the caller's count were there already |
| Dispatcher.Connection.Execute | picoquic/picoquic_internal.h:836-849 | what code does to the context, in place |
| Dispatcher.Connection.RunObservers | picoquic/plugin.c:1170-1178 | the loops over observers |
| Dispatcher.Connection.RunOperation | picoquic/plugin.c:1180-1199 | the replacing pluglet or the core |
| Dispatcher.Connection.RestoreCaller | picoquic/plugin.c:1232-1251 | the saved context is put back |
| Dispatcher.Connection.RunProtoop | picoquic/plugin.c:1084-1254 | the dispatcher, recursive through the code it runs, computes its specification, or halts where the program exits |

## Left out

- Sockets, TLS, packet protection, uBPF execution, archives, logging and the applications: foreign code or plumbing.
- Failures of malloc: every allocation succeeds.
- Linked lists other than the splay tree: SACK items, chunks, packets, flows and frames are sequences held in fields, so node allocation and aliasing of list cells are not captured.
- The ECN form of the ACK frame: at picoquic/frames.c:2545 the encoder advances by the length of the wrong counter, so that frame does not round-trip in general.
- The acknowledgement delay: it is carried through the round trip as a number, without the exponent that is applied on one side only.
- Stream-level SACK lists, retransmission of lost frames and the list of retransmitted packets.
- RESET_STREAM and STOP_SENDING: streams are neither reset nor asked to stop.
- Duplicate detection after pruning: membership is about the numbers still in the list.
- StreamSend.Sender.Prepare: offsets and buffer sizes are below 2^62.
- SackList.Sacks.Update: numbers are unbounded, so a range that starts at 2^64 - 1, which the program uses to mark an empty list, or ends there, where its sums wrap around, is treated as any other; packet numbers are below 2^62.
- StreamTransfer.NeverOverStreamLimit: the connection's limit may still be exceeded, since the sender of stream 0 does not observe it.
- Scheduler.Scheduler.Enqueue: the flow that a frame is classified into and the number of frames dropped are inputs, and there are at most as many flows as the queue limit has bytes.
- Scheduler.Scheduler.DropFrames: the number of frames to drop is an input.
- FqCodel.DropKeeps: the loop of fqcodel_drop is a drop of some number of heads of a largest queue; its own arithmetic subtracts running totals and is not modelled, nor that it reaches the limit or ends.
- CodelLaw.CodelCall: times and counts are unbounded integers. As in the source, the next drop time divides the interval by the count, where CoDel has its square root.
- SplayTree.OrderedTree.Add: the ordering function is a total preorder, without which no order is promised; picosplay_last is left out as the mirror image of picosplay_first.
- Pool.MemoryPool.FreeBlock: pointers outside the pool are not modelled, nor what a plugin writes into its blocks; the dynamic allocator and my_realloc_block are left out.
- MemMove.MemCpy: both operands lie in one array of bytes and neither wraps around the address space.
- PacketNumber.EndToEnd: header protection is left out; the bytes arrive as they were written.
- NewReno.Controller.Handle: the decision to leave slow start from round-trip samples is an input; pacing is left out. CUBIC is left out.
- NewReno.OnePacketPerWindowOfAcks: requires that a window larger by one packet is a word; past that the window itself wraps around (NewReno.NotifyIff).
- Dispatcher.RunRestores: the lookup of the entry, its parameter and its default is an input; the code of an operation is any finite tree of saves, input writes and calls, each save of at most sixteen values.
- Inserting and removing plugins: operations are stored under the hash of their name (picoquic/plugin.c:155), while the removal looks them up by the name itself (picoquic/plugin.c:180).
- The hash tables, getset, HTTP/0.9, tickets and the scheduling plugins: only easy members.
