# Verification of the measurement tools, the 5G probe and the dashboard

A Dafny model of the parts of this repository that keep unbounded state, compute modulo 2^32, parse
bytes or run beside other threads, with proofs of what their callers rely on. `dafny verify
dfyconfig.toml` checks all of it. Times and rates are `real`, integers are unbounded and every
wrap-around is written out; rounding (`Rounding.dfy`) is Python's, to nearest and ties to even.

| file | what it is about |
|---|---|
| `StreamClient`, `StreamProtocol` | the WebSocket reader of the position stream and section 5 of RFC 6455 |
| `Capture`, `BrRan`, `Retransmissions`, `SequenceRanges`, `Bisect` | TCP segments on br-ran: the 32-bit tracker, what its retransmissions are, the second unwrapping, the bytes actually seen |
| `ServerReport`, `Windows`, `WeightedSums`, `Rounding` | iperf3 intervals turned into one-second means |
| `HopAggregate`, `HopSums` | call trees inferred from hop lines, and self costs |
| `QueueWorker`, `QueueDrain`, `PlanRuns`, `Expansion` | the probe's run queue, plan runs over crashes, torn writes and resumes, bandwidth ranges |
| `Pcap`, `PcapFile` | GTP-U decapsulation and capture files |
| `Rtt`, `RttPoints` | echo accounting and the parts of the core |
| `NetworkPolicy` | the NetworkPolicy evaluator |
| `Footprint`, `GapCheck` | CPU and memory groups, and the check for missing samples |
| `Sanitizer`, `LogLines`, `LogConsumer`, `LogStream` | control characters, lines and messages of the log stream, and the whole way from the bytes to the lines shown |
| `Bytes`, `Numbers` | bytes, integers in bytes, options and searches; minima, maxima and powers of two |

Python's lists, dicts and loops are `seq`, `map` and methods with loops; each such method is proved to
compute a function or to meet a predicate on its inputs, and the theorems are about those. Every lemma
carries `{:induction false}`: its body is its whole proof.
The run queue is a state machine: one step per lock section of the worker, and one per handler.

## What the proofs found

Where a property that one would expect does not hold, the code is kept as it is and the exact condition is proved.

- A pong that arrives inside a fragmented message makes the reader yield the message cut there
  (`StreamProtocol.RoundTrip`, `PongCutsMessage`): what was sent is yielded if and only if no fragment
  with data follows a pong inside its message.
- A ping of more than 125 bytes, which RFC 6455 forbids, gets a malformed pong (`ClientFrameDecodes`), and one of
  256 bytes or more ends the reader with a ValueError.
- `gtpu_inner` reads the next-extension byte although the E flag is clear: the packet comes back if and
  only if that byte is then 0 (`Pcap.DecapsulateEncapsulated`, `SpareByteMisread`).
- Two hops with the same receipt, reply and span contain each other: parent chains reach a root if and only if no
  such pair comes first among the hops of its class (`HopAggregate.ForestIff`, `LeadingTwinsLoop`).
- A window without data raises ZeroDivisionError (`Windows.Means` gives None exactly then).
- A plan run is stored as "completed" with something not completed, and is never resumed, if and only if everything
  the pass came to before it was stopped went well, nothing after that had failed before, and something after that
  never ran (`PlanRuns.WronglyDoneIff`, `AbortedRunStoredAsCompleted`).
- A run is still there, with its completed results, if and only if no pass or cleanup dies inside a write of its run.json, which is
  overwritten in place, and no new pass of the plan starts in the second that names it: that one overwrites the file
  (`PlanRuns.CompletedForEver`, `LostIff`, `TornRunIsLost`, `SameSecondIsLost`). A queued plan that is repeated without
  a pause and takes less than a second does that.
- The queue's reported total is the initial length throughout if and only if no item that has nothing
  left to run precedes one that has (`QueueDrain.TotalsIff`).
- The integral of a pod's CPU is last minus first usage if and only if the changes over the pairs of samples left out
  cancel: with every sample at its own time, that the counter never fell; for a counter that never fell, that it
  stands still between samples at one time (`Footprint.IntegralIsGrowthIff`).
- The gap check can raise a false alarm because of a sample just outside the window (`GapCheck.FalseAlarm`);
  it is silent if and only if the window and the samples just outside it have no stretch above 2 s without one (`SilentIff`).
- The log streamer's progress notes are all for multiples of 500 if and only if no plain line comes right after a line
  of a network function whose number is such a multiple (`LogConsumer.NotesOnBeatIff`, `NoteOffBeat`).
- The sanitizer keeps control sequences with intermediate bytes before parameter bytes, and the C1 controls. Its result
  is made of control sequences, layout and characters that are no controls if and only if the text has neither
  (`Sanitizer.ResultInGrammarIff`, `MixedIsKept`, `C1IsKept`).
- `retransmitted` also counts segments whose bytes were never seen: exactly those that fill a hole below their flow's
  highest end, so that a loss before br-ran can show as one (`Retransmissions.FlaggedIff`, `HoleFillerIsFlagged`).
  In flows without gaps only segments all of whose bytes were seen are counted (`FlaggedIffSeen`).
- A bandwidth range never ends if and only if its step, made an integer, is less than 1 and its start is not past its
  end: a negative step, but also 0.5 and the text "0", which the form sends and the test before the loop lets through
  (`Expansion.EndsIff`, `ZeroAsText`).
- An echo whose first time is 0.0 is overwritten by a later one in `point_times` but not in `split`
  (`RttPoints.FirstTimeIff`).

## Model

| member | source | states |
|---|---|---|
| StreamClient.RecvExact | experiments/exposure/stream_client.py:64-71 | exactly n bytes off the socket however `recv` cuts them, or a ConnectionError when fewer come before the close |
| StreamClient.SendFrame | experiments/exposure/stream_client.py:74-78 | one masked client frame appended to what was sent; ValueError, and nothing sent, from 256 bytes on |
| StreamClient.ReceiveFrame | experiments/exposure/stream_client.py:86-93 | the next frame of the byte stream for every chunking, and None exactly when it is incomplete |
| StreamClient.Messages | experiments/exposure/stream_client.py:81-106 | for every chunking, what is yielded, the pongs sent and the end are those of the reading of the bytes alone |
| StreamClient.MaskedTwice | experiments/exposure/stream_client.py:77-78 | masking is its own inverse (section 5.3 of RFC 6455) |
| StreamProtocol.ParseEncoded | experiments/exposure/stream_client.py:86-93 | a frame in any of the three length encodings, followed by anything, is read back |
| StreamProtocol.ParseAllEncoded | experiments/exposure/stream_client.py:85-93 | a list of frames is read back whatever bytes follow |
| StreamProtocol.ReadStream | experiments/exposure/stream_client.py:81-106 | any legal stream: one message per message sent, the close last, one pong per ping in order |
| StreamProtocol.RoundTrip | experiments/exposure/stream_client.py:81-106 | for every fragmentation, length encoding and placing of controls: exactly the messages sent come out if and only if no data follows a pong inside one message |
| StreamProtocol.PongCutsMessage | experiments/exposure/stream_client.py:101-106 | a stream on which the reader yields a cut message |
| StreamProtocol.YieldedIffSent | experiments/exposure/stream_client.py:101-106 | what is yielded is what was sent exactly for messages whose pongs are harmless |
| StreamProtocol.ReadPrefix | experiments/exposure/stream_client.py:81-106 | more frames never take back a message or a pong, and nothing is read after a close |
| StreamProtocol.CutConnection | experiments/exposure/stream_client.py:64-71 | a connection cut at any byte delivers a prefix of what the whole one does |
| StreamProtocol.ClientFrameDecodes | experiments/exposure/stream_client.py:74-78 | a client frame is read by a server as meant if and only if its payload has at most 125 bytes |
| StreamProtocol.PongsDecode | experiments/exposure/stream_client.py:94-97 | the server reads every pong with its ping's payload, in order |
| Capture.LookupsAgree | experiments/network/throughput.py:125-134 | bisection over the sorted runs and the scan in file order give the same run when windows share no instant |
| Capture.BisectFinds | experiments/network/throughput.py:132-134 | the bisection finds the window holding a time, or none does |
| BrRan.Track | experiments/network/throughput.py:119-158 | the packet loop computes the tracker's state as a function of the packets |
| BrRan.SerialComparison | experiments/network/throughput.py:153-154 | the modular comparison is "not beyond" within half the space, and fails one step outside on either side |
| BrRan.HighestEndIsMax | experiments/network/throughput.py:156-157 | the highest end is at least e exactly when some segment seen reached e |
| BrRan.TopExact | experiments/network/throughput.py:148-157 | every flow's top is its largest true end modulo 2^32, across any number of wraps |
| BrRan.OldIffReached | experiments/network/throughput.py:153-155 | a segment counts as retransmitted exactly when an earlier one of its flow reached as far, across wraps |
| BrRan.CountsExact | experiments/network/throughput.py:145-157 | segments, payload bytes and segments not beyond their flow's highest end, per run and direction, are those of the true positions |
| Retransmissions.FlaggedIff | experiments/network/throughput.py:119-124 | a segment counts as retransmitted exactly when every byte of it was seen, or it carries an unseen byte and an earlier one of its flow reached as far |
| Retransmissions.FlaggedIffSeen | experiments/network/throughput.py:121-122 | in a flow without gaps, exactly when every byte of it was seen |
| Retransmissions.RetransmittedIs | experiments/network/throughput.py:145-157 | the number reported is the segments with nothing new plus those that fill a hole |
| Retransmissions.NoGapsNoHoles | experiments/network/throughput.py:123-124 | without gaps there are none of the latter |
| Retransmissions.HoleFillerIsFlagged | experiments/network/throughput.py:123-124 | a segment counted as retransmitted of which no byte was seen |
| SequenceRanges.Flows | experiments/validation/throughput_bytes.py:33-58 | the flow dict after the loop, and the struct.error exactly on a short TCP header |
| SequenceRanges.Sums | experiments/validation/throughput_bytes.py:59-62 | the runs with a flow, each with the sum of its flows' ranges |
| SequenceRanges.UnwrapExact | experiments/validation/throughput_bytes.py:54-56 | unwrapping gives the true distance if and only if it lies in [-2^31, 2^31) |
| SequenceRanges.EntryExact | experiments/validation/throughput_bytes.py:53-58 | low and top are the flow's true lowest start and highest end, relative to its first byte |
| SequenceRanges.RangeAgainstBytes | experiments/validation/throughput_bytes.py:31-62 | a run's number is at least the distinct bytes seen, with equality exactly when no flow has a hole |
| SequenceRanges.TrackersAgree | experiments/validation/throughput_bytes.py:53-58 | with disjoint windows, a flow in its run's direction that stays in the window and has its ports to itself there gets the same top, modulo 2^32, as br_ran's over the sorted runs |
| SequenceRanges.SameSegments | experiments/validation/throughput_bytes.py:37-52 | with disjoint windows both files book each data segment under the same run; the only ones left out here go against the run's direction |
| ServerReport.CloseGaps | experiments/network/throughput.py:47-52 | the loop in place: each start a rounding gap after the last end becomes that end, nothing else changes |
| ServerReport.ClosedKeeps | experiments/network/throughput.py:39-52 | positive lengths, sequence, ends and rates are kept |
| ServerReport.ClosedHolds | experiments/network/throughput.py:39-52 | the closed report holds exactly the instants of the report and of the closed gaps |
| ServerReport.ClosedOnce | experiments/network/throughput.py:48-51 | closing twice is closing once |
| Windows.Means | experiments/network/throughput.py:73-92 | one rounded mean per window, and the ZeroDivisionError exactly when some window has no data; the loop ends |
| Windows.CountBounds | experiments/network/throughput.py:83-88 | a window is reported exactly when it ends by the last interval's end plus 1e-6 |
| Windows.MeanBetweenRates | experiments/network/throughput.py:89-91 | a mean lies between the smallest and largest rate its window touches; no data exactly when it touches none |
| Windows.CollectedIsOverlap | experiments/network/throughput.py:86-89 | over all windows an interval loses at most what lies within 1e-9 of its ends |
| Windows.WindowsAreIntervals | experiments/network/throughput.py:86-91 | summing over windows and over intervals is the same |
| Windows.WindowsConserve | experiments/network/throughput.py:73-92 | means times covered times add up to the data that all intervals hold in the windows, up to stated bounds for the two filters and the rounding |
| HopSums.KidsAreHeld | experiments/exposure/hop_aggregate.py:118-123 | children counted under their callers are hops counted by themselves |
| HopSums.ServicesCover | experiments/exposure/hop_aggregate.py:118-124 | splitting costs by service loses and doubles nothing |
| HopSums.Conservation | experiments/exposure/hop_aggregate.py:109-124 | self costs over services are the root spans plus the excess of children, with equality to the root spans exactly when no hop is outlasted |
| HopSums.OneRoot | experiments/exposure/hop_aggregate.py:109-125 | with one root and nothing outlasted the self costs are the root's span |
| HopSums.DisjointFit | experiments/exposure/hop_aggregate.py:122-123 | calls of one hop that do not overlap take no longer than the interval that holds them |
| HopAggregate.CallTree | experiments/exposure/hop_aggregate.py:109-117 | children and roots, by the smallest containing hop, the first of equals |
| HopAggregate.ParentIsPreferred | experiments/exposure/hop_aggregate.py:112-116 | the parent contains the hop and no container has a smaller span, or no hop contains it |
| HopAggregate.ByService | experiments/exposure/hop_aggregate.py:118-124 | costs added up per service |
| HopAggregate.Charges | experiments/exposure/hop_aggregate.py:122-123 | each hop's span less its children's, not below 0 |
| HopAggregate.SelfCosts | experiments/exposure/hop_aggregate.py:102-126 | self and whole spans of every service, and the largest root span |
| HopAggregate.SelfCostsConserve | experiments/exposure/hop_aggregate.py:102-126 | conservation for the inferred callers, for every trace |
| HopAggregate.SelfCostsMakeEndToEnd | experiments/exposure/hop_aggregate.py:102-126 | with one root, calls that do not overlap and spans from the clock, the self costs add up to the end-to-end time |
| HopAggregate.ForestIff | experiments/exposure/hop_aggregate.py:105-117 | every parent chain reaches a root if and only if no two twins lead their class |
| HopAggregate.DistinctTriplesMakeForest | experiments/exposure/hop_aggregate.py:105-117 | distinct (receive, emit, span) triples make a forest |
| HopAggregate.LeadingTwinsLoop | experiments/exposure/hop_aggregate.py:105-116 | leading twins are each other's parents for ever |
| QueueWorker.InvAlways | 5g-probe/probe/application.py:3972-4051 | the worker's locals agree with the item it holds after every interleaving with the handlers |
| QueueWorker.AccountedAlways | 5g-probe/probe/application.py:4005-4021 | an item has run as often as its count grew, one more only between the run and the mark, and never more than its repeats |
| QueueWorker.WhyItemsLeave | 5g-probe/probe/application.py:3987-4021 | an item leaves the queue only by a replace or clear, or at the head, dropped by the worker that holds it once its repeats are done |
| QueueWorker.WorkerKeepsOrder | 5g-probe/probe/application.py:3987-4021 | after any run of steps without a replace or clear, what is left of the queue is its end, in order |
| QueueDrain.TotalsIff | 5g-probe/probe/application.py:3993-4003 | the reported total never exceeds the length and stays at it exactly when no exhausted item precedes a live one |
| QueueDrain.UndisturbedRun | 5g-probe/probe/application.py:3972-4065 | without interference each item runs its remaining repeats in order and the queue ends empty |
| PlanRuns.Executor.SaveRun | 5g-probe/probe/application.py:3048-3056 | a save overwrites the file in place: it is there whole, torn when the process dies in it, or not at all when the process had died |
| PlanRuns.Executor.RunExperiment | 5g-probe/probe/application.py:3730-3852 | one experiment, saved as it starts and as it settles |
| PlanRuns.Executor.ExecutePlan | 5g-probe/probe/application.py:3605-3890 | the files after a pass that dies between any two saves or inside one: over the run resumed, over one of the same second, or as a new one; none when the run's file cannot be read |
| PlanRuns.Executor.CleanupStuckPlans | 5g-probe/probe/application.py:4087-4115 | every stuck experiment of every run that can be read becomes failed, nothing else changes; or the death before or inside a write |
| PlanRuns.PassWritesAreSound | 5g-probe/probe/application.py:3643-3732 | every snapshot written has at most one running experiment, and a resumed one keeps every completed one |
| PlanRuns.LatestIs | 5g-probe/probe/application.py:3111-3118 | the run resumed is one that is not over, and none of these was started later |
| PlanRuns.ResumeFindsIt | 5g-probe/probe/application.py:3623-3640 | a resume reads and writes the file of that run |
| PlanRuns.OpKeeps | 5g-probe/probe/application.py:3605-3890 | a pass or cleanup keeps soundness and every run with its completed experiments, but for one whose write is torn, which cannot be read, and one that a new pass replaces, which holds that pass's results alone; after a cleanup nothing runs |
| PlanRuns.HistoryIsSound | 5g-probe/probe/application.py:3605-3890 | at most one running experiment per run, and one file per id, after any sequence of passes, crashes, cleanups and resumes |
| PlanRuns.CompletedForEver | 5g-probe/probe/application.py:3621-3703 | whatever follows, a completed experiment never runs again and never loses its result, unless some operation dies inside a write of its run's file or a new pass starts in the run's second |
| PlanRuns.LostIff | 5g-probe/probe/application.py:3621-3703 | exactly then, as long as no pass is given the time, to the microsecond, at which the run was started |
| PlanRuns.SameSecondIsLost | 5g-probe/probe/application.py:3624-3627 | a completed run lost to a second run of its plan in the same second |
| PlanRuns.TornRunIsLost | 5g-probe/probe/application.py:3048-3056 | a resumed run lost to a death inside the first save |
| PlanRuns.FinishedPass | 5g-probe/probe/application.py:3886-3890 | a finished pass leaves nothing running; unaborted, completed plus failed is the total and "completed" means all completed |
| PlanRuns.StatusMeansNoFailure | 5g-probe/probe/application.py:3886-3889 | the stored status says whether anything failed |
| PlanRuns.WronglyDoneIff | 5g-probe/probe/application.py:3699-3890 | from what a pass is given (start list, resume, outcomes, when it is stopped): it is stored as "completed" with something not completed exactly when all it came to went well, nothing later had failed and something later never ran; no resume takes it up |
| PlanRuns.AbortedRunStoredAsCompleted | 5g-probe/probe/application.py:3699-3701 | any new run stopped before its first experiment is stored as "completed" with nothing run, and is not resumed |
| Expansion.ExpandAll | 5g-probe/probe/application.py:3155-3200 | the loops compute the expansion of all templates, or raise exactly when `int` does for one of them |
| Expansion.EntriesAre | 5g-probe/probe/application.py:3165-3199 | a range gives floor((end - start) / step) + 1 entries, one per rate in order, numbered on |
| Expansion.LastRate | 5g-probe/probe/application.py:3167-3182 | the last rate does not pass the end and the next would |
| Expansion.EndsIff | 5g-probe/probe/application.py:3165-3183 | the loop of a range ends if and only if the step is at least 1 as an integer or the start is past the end: exactly when some rate passes the end |
| Expansion.ZeroAsText | 5g-probe/probe/application.py:3165-3183 | a range from 10 to 20 with the text "0" as its step is a range, and no rate passes its end |
| Expansion.ExpandLength | 5g-probe/probe/application.py:3155-3200 | as many entries as the templates give together |
| Expansion.InOrder | 5g-probe/probe/application.py:3155-3200 | each template's entries stand together, in the templates' order |
| Expansion.Numbered | 5g-probe/probe/application.py:3158-3200 | the entries are numbered 1, 2, 3 and so on, without a range, labelled, and with every key of a new entry |
| Expansion.Idempotent | 5g-probe/probe/application.py:3155-3200 | expanding an expanded plan changes nothing |
| Pcap.GtpuInner | experiments/network/pcap.py:110-136 | the packet inside, None or the exception, for every frame; the header loop ends |
| Pcap.LinkStripped | experiments/network/pcap.py:98-107 | Ethernet, VLAN and cooked headers are taken off |
| Pcap.WalkChain | experiments/network/pcap.py:128-134 | walking any chain of extension headers ends right after it |
| Pcap.WalkMovesOn | experiments/network/pcap.py:129-134 | a walk that starts moves on by 4 bytes at least |
| Pcap.GtpuStripped | experiments/network/pcap.py:121-136 | the inner packet comes back if and only if the E flag is set, no field is there, or the spare byte is 0 |
| Pcap.DecapsulateEncapsulated | experiments/network/pcap.py:110-136 | the same through any link header, IPv4 header length, optional fields and chain |
| Pcap.IpPacketDecapsulates | experiments/network/pcap.py:139-145 | `ip_packet` gives the inner packet under the same condition, although it falls back on the outer one |
| Pcap.PlainPacketStays | experiments/network/pcap.py:139-145 | a packet that is not UDP is given as it is, through any link header |
| Pcap.SpareByteMisread | experiments/network/pcap.py:126-134 | a packet that is lost to a spare byte |
| Pcap.InnerIsSuffix | experiments/network/pcap.py:110-136 | a packet found is the end of the frame, with at least 30 bytes of headers gone, and starts as IPv4 |
| PcapFile.ReadPcap | experiments/network/pcap.py:21-42 | the packets of a file, for any bytes |
| PcapFile.ReadRecord | experiments/network/pcap.py:36-42 | one record, or none with fewer than 16 bytes left |
| PcapFile.RoundTrip | experiments/network/pcap.py:21-42 | a written file is read back, in either byte order and either precision |
| PcapFile.CutFile | experiments/network/pcap.py:36-42 | a file cut anywhere gives every packet whose record ends before the cut, and one more with a shortened frame exactly when the cut falls after that record's header and inside its data |
| Rtt.Read | experiments/network/rtt.py:55-72 | the first time of every request and reply, the requests in order of appearance, and the sources counted |
| Rtt.MostCommon | experiments/network/rtt.py:75 | a source of most requests, the first seen of several |
| Rtt.FlowsOf | experiments/network/rtt.py:76-86 | the flows as a function of the sorted requests |
| Rtt.FlowsAre | experiments/network/rtt.py:76-86 | a flow's requests are its distinct sequence numbers, paired plus unpaired |
| Rtt.Split | experiments/network/rtt.py:52-90 | the UE with most requests, and for each ICMP id distinct requests = paired + unpaired, each core time from first request to first reply, and the earliest request |
| RttPoints.ReadPoint | experiments/network/rtt.py:112-132 | request and reply time of every echo at one point |
| RttPoints.FirstTimeIff | experiments/network/rtt.py:127-131 | `e or t` keeps the first time if and only if it is not 0, or all are |
| RttPoints.ReadersAgree | experiments/network/rtt.py:112-132 | on a GTP-U-only capture without time 0 both readers give the same core time for every echo |
| RttPoints.PartsTelescope | experiments/network/rtt.py:140-144 | the parts add up to reply minus request at the first point, for any number of points |
| RttPoints.SegmentsTelescope | experiments/network/rtt.py:135-144 | after rounding they do within half a unit of the last decimal per part |
| RttPoints.CoreIsSumOfParts | experiments/network/rtt.py:135-144 | the five parts add up to the core time of `split` within 0.00025 ms |
| NetworkPolicy.NetworkIsRange | dashboard/backend/app/services/netpol_eval.py:40-46 | membership in a block as written is one aligned range of addresses (section 3.1 of RFC 4632) |
| NetworkPolicy.PeerIff | dashboard/backend/app/services/netpol_eval.py:49-62 | a peer matches exactly when it accepts the other end, exceptions carved out |
| NetworkPolicy.PortsIff | dashboard/backend/app/services/netpol_eval.py:65-76 | the port loop finds a match exactly when some entry accepts the port |
| NetworkPolicy.TypesIff | dashboard/backend/app/services/netpol_eval.py:83-87 | unset policyTypes mean Ingress, and Egress with egress rules |
| NetworkPolicy.SelectingIff | dashboard/backend/app/services/netpol_eval.py:90-94 | the selecting policies are those that isolate the pod in the direction |
| NetworkPolicy.SideIff | dashboard/backend/app/services/netpol_eval.py:110-146 | a side is refused exactly when something isolates it and nothing that does lets the flow through; the policy named is one that decides |
| NetworkPolicy.EvaluateIff | dashboard/backend/app/services/netpol_eval.py:149-157 | a flow passes exactly when both ends are open |
| NetworkPolicy.DenialNamesAPolicy | dashboard/backend/app/services/netpol_eval.py:97-100 | a denial names a policy that isolates the end it is about |
| NetworkPolicy.OrderDoesNotMatter | dashboard/backend/app/services/netpol_eval.py:110-157 | policies, rules, peers and ports in any order give the same verdict |
| NetworkPolicy.PermutedPolicies | dashboard/backend/app/services/netpol_eval.py:90-94 | a permutation of the policies does |
| NetworkPolicy.AddingAPolicy | dashboard/backend/app/services/netpol_eval.py:149-157 | one more policy blocks a passing flow exactly when it is the first to isolate an end and does not let the flow through |
| NetworkPolicy.AddingARule | dashboard/backend/app/services/netpol_eval.py:110-146 | one more rule in a covered direction never blocks |
| NetworkPolicy.IrrelevantPolicy | dashboard/backend/app/services/netpol_eval.py:90-94 | a policy that isolates neither end changes nothing in the answer |
| Footprint.Steps | experiments/resource-use/footprint.py:158-167 | a pod's intervals, with their rates, and its memory samples |
| Footprint.AddPod | experiments/resource-use/footprint.py:177-182 | what one pod adds to a group at a grid point |
| Footprint.Group | experiments/resource-use/footprint.py:170-187 | the rounded sums at the grid points that have one |
| Footprint.StepsAreOrdered | experiments/resource-use/footprint.py:161-167 | intervals have positive length and do not overlap, counter resets or not |
| Footprint.LookupIsScan | experiments/resource-use/footprint.py:177-179 | bisection finds the unique interval (start, end] holding the point, or none, as a scan does |
| Footprint.MemoryIff | experiments/resource-use/footprint.py:180-182 | there is a memory value exactly when some sample is at most 1.5 s older |
| Footprint.MemoryIsLastSample | experiments/resource-use/footprint.py:180-182 | it is the last sample's not after the point |
| Footprint.IntegralTelescopes | experiments/resource-use/footprint.py:161-166 | the integral is last minus first usage less the change over pairs left out |
| Footprint.IntegralIsGrowthIff | experiments/resource-use/footprint.py:161-166 | for any samples it is last minus first usage exactly when the changes left out cancel; with growing times, when the counter never fell; for a counter that never fell, when it stands still wherever time does |
| Footprint.GroupsAdd | experiments/resource-use/footprint.py:170-187 | a group's value is the sum of any two parts of it |
| GapCheck.Gap | experiments/validation/check_run.py:369-380 | the worst step of the first examined window with one above 2 s; silent exactly when there is none, and then every stretch above 2 s of each examined window has a sample |
| GapCheck.SilentWindowIsCovered | experiments/validation/check_run.py:375-378 | soundness for edges in any order |
| GapCheck.SilentIff | experiments/validation/check_run.py:375-378 | a window is silent if and only if the stretch its steps span is covered |
| GapCheck.SilentIffCovered | experiments/validation/check_run.py:375-378 | with no sample just outside, if and only if the window is covered |
| GapCheck.FalseAlarm | experiments/validation/check_run.py:375-379 | a covered window that is reported |
| Sanitizer.Sanitize | dashboard/backend/app/routers/logs_ws.py:19-43 | place by place: the text without NUL and BEL, other control characters as dots but for layout and starts of control sequences |
| Sanitizer.Match | dashboard/backend/app/routers/logs_ws.py:16 | the length of the regex match at a place, and 0 when nothing there matches |
| Sanitizer.SameSequences | dashboard/backend/app/routers/logs_ws.py:27-32 | the result has a match exactly where the text without NUL and BEL has one, the same one |
| Sanitizer.Idempotent | dashboard/backend/app/routers/logs_ws.py:19-43 | sanitizing twice is sanitizing once |
| Sanitizer.NeverLonger | dashboard/backend/app/routers/logs_ws.py:22-43 | the result is shorter by the NULs and BELs exactly |
| Sanitizer.LeftAloneIff | dashboard/backend/app/routers/logs_ws.py:19-43 | the texts left alone are exactly the concatenations of regex matches, layout and characters the code does not replace |
| Sanitizer.ResultSplits | dashboard/backend/app/routers/logs_ws.py:19-43 | every result is such a concatenation |
| Sanitizer.SequenceIff | dashboard/backend/app/routers/logs_ws.py:16 | a regex match is a control sequence of section 5.4 of ECMA-48 exactly when no intermediate byte comes before a parameter byte |
| Sanitizer.SequenceIsKept | dashboard/backend/app/routers/logs_ws.py:27-32 | every control sequence of ECMA-48 is kept in its place |
| Sanitizer.ResultInGrammarIff | dashboard/backend/app/routers/logs_ws.py:19-43 | the result is made of ECMA-48 control sequences, layout and characters outside C0, DEL and C1 exactly when the text has no C1 control and no match with a byte below 0x30 before one from 0x30 to 0x3f |
| Sanitizer.MixedIsKept | dashboard/backend/app/routers/logs_ws.py:16 | ESC [ space 0 m, no control sequence, is kept whole |
| Sanitizer.C1IsKept | dashboard/backend/app/routers/logs_ws.py:35-41 | U+009B 31m passes unchanged |
| LogLines.Drain | dashboard/backend/app/routers/logs_ws.py:116-125 | the complete lines of the buffer are queued, the rest stays; or the line the queue refused |
| LogLines.Produce | dashboard/backend/app/routers/logs_ws.py:98-144 | what is queued for every chunking and every way to stop |
| LogLines.LinesIff | dashboard/backend/app/routers/logs_ws.py:117-132 | the lines are the unique ones without newlines that spell the text, its last line ended |
| LogLines.QueuedIsPrefix | dashboard/backend/app/routers/logs_ws.py:113-132 | however a stream ends, the beginning of the text's lines was queued, each whole and once |
| LogConsumer.Consumer.Flush | dashboard/backend/app/routers/logs_ws.py:152-157 | what waited is shown after what was shown, in one message at most, and nothing waits; the count is that of the lines shown |
| LogConsumer.Consumer.Handle | dashboard/backend/app/routers/logs_ws.py:161-178 | shown lines plus waiting batch grow by this line at the end, and every note stays true; a network function's line is sent as a message of its own and nothing waits; nothing sent is taken back |
| LogConsumer.Consumer.Consume | dashboard/backend/app/routers/logs_ws.py:160-179 | at the end marker every line was shown once, in order, the count is theirs and every note is true |
| LogConsumer.SplitJoin | dashboard/backend/app/routers/logs_ws.py:155 | a batch shows the lines put in it |
| LogConsumer.NothingLost | dashboard/backend/app/routers/logs_ws.py:159-179 | at every moment the lines shown and the waiting batch are the lines handled, in order, the count is true and so is every note |
| LogConsumer.AllShown | dashboard/backend/app/routers/logs_ws.py:159-179 | at the end every line was shown once, in order |
| LogConsumer.LastTimestamp | dashboard/backend/app/routers/logs_ws.py:164-173 | the time to resume from is the last one a line gave |
| LogConsumer.NotesOnBeatIff | dashboard/backend/app/routers/logs_ws.py:174-178 | every note is for a multiple of 500 if and only if no plain line comes right after 500n lines the last of which is a network function's |
| LogConsumer.NoteOffBeat | dashboard/backend/app/routers/logs_ws.py:174-178 | there, the plain line brings a second note, of 500n + 1 |
| LogStream.FormatLogLine | dashboard/backend/app/routers/logs_ws.py:46-55 | a line without Kubernetes' time stamp is sanitized; with one, its content is, after the time in grey unless the content has a stamp of its own |
| LogStream.FormattedInLine | dashboard/backend/app/routers/logs_ws.py:46-55 | a formatted line is one line |
| LogStream.ShownIsTheText | dashboard/backend/app/routers/logs_ws.py:98-179 | however the bytes are cut into chunks and the lines into messages, what is shown is the text's lines, each decoded and formatted, once and in order; the first of them when the stream is stopped |

## Left out

- Sockets, files, gzip, subprocesses, HTTP routes, Kubernetes clients and the browser: what they deliver is a parameter.
- Text parsing by regular expression (iperf3, ping, journalctl): the model starts from parsed rows.
- LogStream.ShownIsTheText: UTF-8 decoding, and what a regular expression takes for a digit or a space, are parameters; decoding makes no newline of other bytes, and a newline is no digit.
- Floating-point error: times and rates are reals, rounding to decimals is modelled.
- The handshake, receipt times, socket timeouts and reserved or mask bits of the WebSocket stream, which `messages` does not look at.
- StreamProtocol.ReadStream: streams end with a close frame; other ends are StreamProtocol.CutConnection's.
- BrRan.Track: an inner packet shorter than its IPv4 header, which raises an exception in the code, is not a row here.
- BrRan.CountsExact and the Retransmissions lemmas: for segments that end within 2^31 of their flow's highest end; BrRan.SerialComparison shows both limits are tight.
- SequenceRanges.TrackersAgree: throughput_bytes.py keys a flow by its run and ports, br_ran by hosts and ports, so a flow that leaves its run's window, or shares its ports there with another host, is cut differently by the two; SequenceRanges.SameSegments holds for every packet.
- SequenceRanges.RangeAgainstBytes: for segments that start within 2^31 of their flow's first one; SequenceRanges.UnwrapExact shows that no others are unwrapped truly.
- Windows.WindowsConserve: for intervals of positive length and rates that are not negative; they may overlap or leave gaps.
- counter_delta, samples, failure, the statistics of `lib/stats.py` and all summaries and tables: they would only add easy members.
- Rtt.Read: an inner packet shorter than its IPv4 header, which raises an exception in the code, is not a row here.
- The foreign packets of `split`, `_merge`, and the choice of a run's flow in `summarize`.
- pod_series, node_series, vm_series and `_inside` of footprint.py: comprehensions over the same pairs of samples.
- QueueWorker is a state machine and not a class, since handlers of other threads change the queue between the worker's steps; the delay between runs, messages but for positions and totals, and the plan that a repeat runs are not in it.
- QueueWorker.InvAlways: one worker at a time; the start checks of `handle_start_queue` are not atomic with the start of the thread, so two starts at once are not in the model.
- PlanRuns.Executor.ExecutePlan: an explicit run id, which no caller passes, runs deleted, and templates that carry states of their own are not modelled; a binding that is refused leaves no trace, as a death before the first save; what an experiment measures is an outcome given from outside.
- PlanRuns.Executor.CleanupStuckPlans: the order of the directory is that of the sequence, and new files come last; a run directory without a run.json, which `_list_runs` rebuilds from its template, is not a run here.
- PlanRuns.CompletedForEver: an experiment that completes on resume keeps the error text of its earlier failure, as in the code.
- Expansion.ExpandAll: a JSON value is what the code looks at, its truth and what `int` makes of it, and labels are kept as their parts; the texts made of them are not formed. A range that does not end has no result, so it is excluded by Expansion.EndsIff's condition.
- NetworkPolicy: explanatory texts, and the parsing of addresses and blocks, which raises an exception on a malformed one.
- GapCheck.Gap: a pod is not examined in windows where it has no sample, as the code intends; labels and the list shared by all calls are left out.
- LogLines.Produce: the bounded queue itself; a put that is refused, and may still arrive late, ends the producer.
- LogConsumer: exceptions of the WebSocket, and the live polling that follows the backlog.
- Sanitizer.SequenceIff: control sequences in their 7-bit form, ESC [; the 8-bit introducer is a C1 control here.
- GapCheck.FalseAlarm, StreamProtocol.PongCutsMessage, Pcap.SpareByteMisread, PlanRuns.SameSecondIsLost, PlanRuns.TornRunIsLost, Expansion.ZeroAsText, Sanitizer.MixedIsKept, Sanitizer.C1IsKept, Retransmissions.HoleFillerIsFlagged, LogConsumer.NoteOffBeat: one input or family each; the general statements are the members named beside them above.
- Netns isolation, terminals, tunnels, status pages, `ran_chain.py`, role checks and unit conversions.
