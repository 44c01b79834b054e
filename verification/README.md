# Favonius in Dafny

Favonius moves files over UDP. A sender cuts a file into chunks, gives each stream a range of them, and
sends until every chunk is acknowledged; a daemon writes what arrives and reports it back in bitmap ACKs.
This project models the parts of Favonius whose correctness is not visible from any one function, and
proves what they promise for every input and every run.

`dafny verify dfyconfig.toml` checks everything.

## What is modelled

**The reliable transfer.** `StreamSpec` is one sender stream without speed-ups: ACKs, NACKs, timeout scans
and the chunk picker as functions that sweep the whole chunk space. `StreamState` (module `SenderStream`)
is the stream as the sender keeps it, with its acked counter, its two cursors and its wrapping 32-bit send
stamps; every method is proved equal to the sweep. `Receiver` is the daemon's per-stream state and the ACK
it builds. `Protocol` puts streams, daemon, output file and a network together as a step system: a packet
in the network may arrive any number of times, in any order or never, everything in it may be lost at
once, and any NACK whatever may arrive. `ProtocolSafety` and `ProtocolClock` prove what holds over all runs.
`SendLoop` adds the send loop's own limits (window, rotation, scan interval, stall limit), `Recovery` is what
one stream keeps while lost chunks are resent, `StreamLaws` what a loss report does to it, and `ProtocolProgress` shows that the loop survives the loss of
everything in the network. `StreamRun` drives the stream objects through whole runs, so that those results are
about the objects too. `Sender` is what works across streams: the division of the chunks, pre-marking, the
start of a transfer, and the retransmit scan, whose bytes-in-flight recount `InFlight` explains.

**The paced sender** (`PacedRing`). A producer and a pacer thread share a ring of slots. Each atomic access
of either thread is one action; the results hold for every interleaving.

**Congestion control.** `ClassicSpec` is the Classic controller as a transition system, `ClassicSafety`
what its runs satisfy, `ClassicLaws` what each callback does to the window in bytes, rates and delays, and
`ClassicControl` the controller object that takes those transitions field by
field, computing in seconds where the source does (`Seconds`). `RoundTrip`, `Bandwidth`, `Delivery` and `Loss` are the four estimators.

**Trees and layouts.** `Glob` is the pattern matcher, `Manifest` the chunk layout and the hashed byte stream
(with `Utf8` for how a path is rendered into it), `SyncPlan` the planner, `Holes` the sparse-file segmentation and the hashing loop built on it.

## Reading the model

- Times are unbounded whole numbers (microseconds for send stamps, nanoseconds elsewhere). The 32-bit stamps
  are truncations of them, and arithmetic on stamps and on wire packet numbers wraps as in the source.
- Values that the source computes in floating point are exact here: reals in the controller object, and
  cross-multiplied whole numbers in the specifications. Conversions to integers round down.
- Counters and windows other than those are unbounded integers.
- Instants never run backwards between calls of one estimator; `checked_sub` before the start of time
  keeps everything.
- A transfer starts with a daemon that holds at least the chunks the sender has marked. `Sender.StartTransfer`
  gives both ends the same marks, because the daemon marks the resume bitmap and the manifest's zero runs
  exactly as the sender does; only Karn's rule needs that (`ProtocolSafety.ExtraChunkIsSampled`).
- In `SendLoop` sending, delivering and answering take no time of their own; time passes only while the loop
  waits. Its limits restrict a run to what the loop does, so a run that obeys them is one it can take.
- Paths are byte strings, as on Unix.
- Compression, encryption and packet encoding are the identity on a chunk; a corrupted packet counts as lost.
- Atomic accesses in `PacedRing` are sequentially consistent.

Where the code and its comments differ, the model follows the code:

- `rto_with_min` adds four times the larger of the variance and 1 ms, not the larger of four variances and
  1 ms (`crates/ahp-congestion/src/metrics.rs:129`).
- In a glob, `**` before a slash stands, together with that slash, for any run of bytes, whether or not the
  run ends at a directory boundary: `a/**/c` accepts `a/xc` (`crates/ahp-cli/src/fs_tree.rs:301-329`).
- Remembered lost packet ids do not all expire with the window: a duplicate report renews an id's stamp
  without queueing it (`crates/ahp-congestion/src/metrics.rs:204-207`). `Loss.IdForgottenIff` gives the
  exact condition.
- The maximum-bandwidth filter equals the maximum over its window while the window's start does not move
  back; an RTT increase moves it back. `Bandwidth.BandwidthEstimator.WindowedMaxBandwidth` states exactly when
  its reading is right, and `Bandwidth.ForgottenPeak` runs it to a wrong one.
- The manifest hash does not cover the path but its rendering as text, so paths that are not valid UTF-8 can
  collide. `Manifest.SeparatesIff` states exactly when the hashed stream tells manifests apart.
- The contiguous-prefix cursor of an ACK is a pure speed-up exactly while no ACK starts above the cursor past
  an unacked chunk; ACKs the daemon builds never do (`SenderStream.StreamState.ProcessAck`), and
  `SenderStream.CursorCanSkip` shows two ACKs that leave a chunk unmarked.
- The send loop gives up 30 s after the last newly acked chunk (`crates/ahp-cli/src/net_sender.rs:3895-3947`), so
  not every state after a loss can be recovered: `SendLoop.GapStalls` is a run after which nothing can be.
  `ProtocolProgress.LoopRecovers` gives a condition under which every loss can: enough time before the limit, and
  no unacked chunk sent or queued more than 8192 past its stream's first unacked one. That condition is
  sufficient, not necessary: otherwise it depends on the window and on the order of the queue.
- `build_streams` covers the chunks for any positive stream count; with no streams it covers only an empty
  file (`Sender.BuildStreams`).

## Model

| member | source | states |
|---|---|---|
| ProtocolSafety.FinishedMeansDelivered | crates/ahp-cli/src/net_sender.rs:3222-3312 | From any start whose daemon holds at least what the sender has marked, in every run with loss, duplication and reordering, when the transfer loop's counters let it exit the daemon's output equals the file byte for byte |
| ProtocolSafety.RunIsSafe | crates/ahp-cli/src/net_sender.rs:4559-4637 | In every reachable state a chunk counts as acked only if the daemon holds it and has written its bytes, every ACK in flight reports only held chunks, and no RTT sample is of a chunk sent twice |
| ProtocolSafety.SamplesAreUnambiguous | crates/ahp-cli/src/net_sender.rs:409-418 | When both ends start with the same marks, every RTT sample of every run is of a chunk sent exactly once |
| ProtocolSafety.ExtraChunkIsSampled | crates/ahp-cli/src/net_sender.rs:409-418 | Otherwise one ACK of a chunk only the daemon had marked samples a chunk never sent |
| ProtocolSafety.StepKeeps | crates/ahp-cli/src/net_sender.rs:3264-3312 | Every event of the step system keeps the safety invariant |
| ProtocolSafety.SumAckedFull | crates/ahp-cli/src/net_sender.rs:3223 | The acked counters add up to the chunk count if and only if every chunk of every stream is acked |
| ProtocolClock.StampsActUnbounded | crates/ahp-cli/src/net_sender.rs:328-336 | While live ages stay below 2^32 microseconds, the wrapping stamps drive a whole run exactly as an unbounded clock would, and each sample is the true age, at least 1 |
| ProtocolProgress.LoopRecovers | crates/ahp-cli/src/net_sender.rs:3222-3277 | After any run the send loop can take, even if everything in the network is then lost, and for any timer up to 5 s, window and rotation computed from the history, some continuation it can take finishes with the output equal to the file after at most 10.02 s of waiting (5.02 s when all unacked chunks are within 8192 of their stream's first one), provided that much time is left before the 30 s stall limit and the unacked chunks sent or queued are within 8192 of the first one; streams may be of any length |
| ProtocolProgress.LossIsRecoverable | crates/ahp-cli/src/net_sender.rs:3222-3277 | The same after any run of the step system, whatever is counted as in flight, when the ages the next scan reads fit 32 bits |
| ProtocolProgress.CanFinish | crates/ahp-cli/src/net_sender.rs:3222-3277 | The recovery itself: sending whenever the window is open and a stream has work, scanning every 20 ms otherwise, ends with every chunk acked before the recovery's deadline |
| ProtocolProgress.Wait | crates/ahp-cli/src/net_sender.rs:3729-3771 | While a chunk is unacked and nothing can be sent, waiting one scan interval and scanning is within the stall limit and keeps the recovery invariant |
| ProtocolProgress.ScanSound | crates/ahp-cli/src/net_sender.rs:3729-3771 | A scan with any timer up to the cap keeps every stream recovering, and 5 s after the last unanswered send nothing counts as in flight |
| ProtocolProgress.Round | crates/ahp-cli/src/net_sender.rs:3264-3312 | Whichever stream the rotation names, a send that is answered at once leaves fewer chunks unacked, or as many and fewer unsent, or as many of both and fewer queued |
| ProtocolProgress.LoopIsPunctual | crates/ahp-cli/src/net_sender.rs:3717-3771 | In every run the send loop can take, at each scan no chunk stays outstanding longer than the largest timeout |
| ProtocolProgress.PunctualAgesFit | crates/ahp-cli/src/net_sender.rs:328-336 | So the ages a scan reads always fit the 32-bit clock |
| SendLoop.StalledIsOver | crates/ahp-cli/src/net_sender.rs:3895-3947 | More than 30 s after the last newly acked chunk the sender changes no stream any more, and the transfer ends finished if and only if it already was |
| SendLoop.GapStalls | crates/ahp-cli/src/net_sender.rs:3895-3947 | A run with such a gap, after which an unfinished transfer is never finished |
| SendLoop.FindWorkFails | crates/ahp-cli/src/net_sender.rs:3264-3277 | When the rotation finds no stream, none has work |
| Recovery.ScanOutstanding | crates/ahp-cli/src/net_sender.rs:431-452 | While ages fit, a scan leaves a sent, unacked and unqueued chunk so if and only if its age does not exceed the timeout |
| Recovery.PickSplits | crates/ahp-cli/src/net_sender.rs:3287-3312 | What the picker drops from the queue or passes over is acked, but for the one chunk it takes; the queue goes first |
| Recovery.ScanKeepsNearFirst | crates/ahp-cli/src/net_sender.rs:431-452 | No scan queues a chunk lost within an ACK's reach behind one sent later beyond it |
| Recovery.RoundRecovers | crates/ahp-cli/src/net_sender.rs:3264-3312 | A send whose packet is answered keeps the recovery invariant: what lies beyond reach is held by the daemon, and is acked as soon as the prefix gets there |
| Recovery.UnansweredWaits | crates/ahp-cli/src/net_sender.rs:4589-4612 | A packet that its ACK does not report was a new chunk sent beyond reach while an earlier one was outstanding |
| StreamRun.Drive | crates/ahp-cli/src/net_sender.rs:341-350 | Over any sequence of sends, ACKs from the stream's base, NACKs and scans on an advancing clock, the cursor-based object has the states of full sweeps and gives the same picks, reports and lost lists |
| StreamRun.RunProjects | crates/ahp-cli/src/net_sender.rs:4589-4612 | Seen from one stream, every run of the whole transfer is such a sequence, its ACKs starting at the stream's base |
| StreamRun.FollowRun | crates/ahp-cli/src/net_sender.rs:341-350 | So the object driven through any run of the transfer ends in that run's stream and gives that run's answers, the safety invariant holds of it, and with equal marks at the start every report it gives obeys Karn's rule |
| StreamRun.ReportsObeyKarn | crates/ahp-cli/src/net_sender.rs:4559-4637 | In every run from equal marks, each chunk an ACK reports carries a sample if and only if no scan or NACK ever queued it; the sample is then the time since the one and only send of the chunk, read on the 32-bit clock and floored at 1 |
| StreamRun.ReportsAreSamples | crates/ahp-cli/src/net_sender.rs:409-418 | The reports that carry a sample are exactly the samples the same ACK adds to the transfer's |
| StreamRun.NewlyAckedIsReported | crates/ahp-cli/src/net_sender.rs:4589-4636 | Every chunk an ACK newly marks is reported |
| StreamRun.FlagHistory | crates/ahp-cli/src/net_sender.rs:385-452 | A chunk is flagged as retransmitted if and only if some earlier scan or NACK of the run reported it lost, or it was so at the start |
| StreamRun.SendHistory | crates/ahp-cli/src/net_sender.rs:3287-3312 | The counted sends of a chunk are the ones the run answered, and the stamp of a chunk sent once is the time of that send |
| Protocol.StepShaped | crates/ahp-cli/src/net_sender.rs:431-452 | Every event keeps each stream's queue free of duplicates with the in-retransmit flag set exactly for its members, and changes neither the file nor the division into streams |
| SenderStream.StreamState.constructor | crates/ahp-cli/src/net_sender.rs:356-371 | A fresh stream: nothing sent, nothing acked, nothing queued |
| SenderStream.StreamState.MarkAcked | crates/ahp-cli/src/net_sender.rs:385-397 | Marks a chunk once, keeps the counter equal to the number of acked chunks and the scan cursor at the least unacked one |
| SenderStream.StreamState.RttSampleOf | crates/ahp-cli/src/net_sender.rs:409-418 | No sample for a chunk ever queued for retransmission, else the wrapped age floored at 1 |
| SenderStream.StreamState.ProcessAck | crates/ahp-cli/src/net_sender.rs:4577-4636 | The exact state from any cursor; from a sound cursor the full sweep's state, each newly acked chunk reported once with its sample, and the cursor stays sound if and only if the ACK skips no chunk unacked before the call |
| SenderStream.CursorCanSkip | crates/ahp-cli/src/net_sender.rs:4589-4612 | Two ACKs after which a chunk is unmarked that a full sweep would mark |
| SenderStream.StreamState.QueueTimedOut | crates/ahp-cli/src/net_sender.rs:431-452 | Scanning from the cursor queues, flags and reports exactly what a scan of the whole sent range does, in the same order |
| SenderStream.StreamState.PickChunk | crates/ahp-cli/src/net_sender.rs:3287-3312 | Pops past chunks acked while queued, then past acked fresh ones; picks only an unacked chunk and terminates |
| SenderStream.StreamState.StampSent | crates/ahp-cli/src/net_sender.rs:3433-3434 | Stamping a sent chunk changes that chunk's send time and nothing else |
| SenderStream.StreamState.ProcessNack | crates/ahp-cli/src/net_sender.rs:4669-4708 | Queues the named chunks of this stream that are unacked, unqueued and not stamped within 50 ms, each at the front, for any ranges at all |
| StreamLaws.NackIs | crates/ahp-cli/src/net_sender.rs:4669-4708 | A loss report queues exactly the chunks it names that are unacked, unqueued and at least 50 ms old on the 32-bit clock, ahead of everything queued before |
| StreamLaws.NackedGoesNext | crates/ahp-cli/src/net_sender.rs:4669-4708 | The last chunk a report queues is the next one picked |
| StreamSpec.BitTargetIsInverse | crates/ahp-cli/src/net_sender.rs:4616-4626 | With wrapping packet numbers, each bit of an ACK names at most one chunk of the stream and each chunk at most one bit |
| StreamSpec.Scan | crates/ahp-cli/src/net_sender.rs:431-452 | A scan keeps the queue without duplicates, holding exactly the flagged chunks |
| Receiver.StreamRecvState.constructor | crates/ahp-daemon/src/net_receiver.rs:197-211 | A fresh daemon stream has received nothing |
| Receiver.StreamRecvState.MarkReceived | crates/ahp-daemon/src/net_receiver.rs:216-225 | Marks one chunk, counts it even if marked before, and keeps the prefix equal to the longest received run from the start |
| Receiver.StreamRecvState.OnChunk | crates/ahp-daemon/src/net_receiver.rs:3199-3273 | An arriving chunk is written if and only if it belongs to the stream and is not yet held, so none is counted twice |
| Receiver.StreamRecvState.BuildAck | crates/ahp-daemon/src/net_receiver.rs:615-645 | The packed ACK is the one for the stream's received marks |
| Receiver.AckReportsReceived | crates/ahp-daemon/src/net_receiver.rs:600-645 | That ACK, read back by the sender, reports a chunk if and only if it was received and lies within 8192 chunks of the prefix, also when the prefix field wraps |
| Sender.BuildStreams | crates/ahp-cli/src/net_sender.rs:502-518 | Streams own consecutive near-equal ranges that cover all chunks, if and only if there is a stream or nothing to cover |
| Sender.ResumeStream | crates/ahp-cli/src/net_sender.rs:2812-2824 | Marks exactly the stream's chunks the resume bitmap has, and counts the newly marked |
| Sender.BitmapHasIs | crates/ahp-cli/src/net_sender.rs:2812-2824 | The bitmap has a chunk if and only if its binary digit is set, least significant bit of each byte first |
| Sender.PreMarkResume | crates/ahp-cli/src/net_sender.rs:2809-2825 | Over all streams a chunk is marked if and only if it was before or the bitmap has it; nothing else changes |
| Sender.PreMarkZeroRuns | crates/ahp-cli/src/net_sender.rs:2832-2845 | A chunk is marked if and only if it was before or lies in a zero run; nothing else changes |
| Sender.StartTransfer | crates/ahp-cli/src/net_sender.rs:2809-2845 | Dividing and pre-marking, with a daemon that marks the same chunks, gives exactly a start from which the results about runs hold |
| Sender.Counted | crates/ahp-cli/src/net_sender.rs:3734-3757 | The recount is wire size times sent less acked less queued, each subtraction stopping at zero |
| Sender.RetransmitScan | crates/ahp-cli/src/net_sender.rs:3733-3771 | The recomputed bytes in flight never exceed the wire size of the chunks still outstanding, and equal it when acked and queued chunks are tidy; every stream is scanned and the lost list is exact |
| InFlight.RecountIsOutstanding | crates/ahp-cli/src/net_sender.rs:3734-3771 | The recount is at most the wire size of what is outstanding after the scan, with equality for tidy streams |
| InFlight.OutstandingTotal | crates/ahp-cli/src/net_sender.rs:3733-3771 | Summed over streams, sent less acked less queued less lost is at most the outstanding chunks, with equality for tidy streams |
| PacedRing.RingIsSafe | crates/ahp-cli/src/net_sender.rs:1223-1359 | For every interleaving: no slot is written while it is sent, the claim of a received slot succeeds, an offered slot finds room, and the packets handed over are the accepted ones as staged, in order, once each |
| PacedRing.StepKeeps | crates/ahp-cli/src/net_sender.rs:1236-1359 | Every atomic action of either thread keeps slot ownership, staged bytes and packets in transit consistent |
| PacedRing.TakeSucceeds | crates/ahp-cli/src/net_sender.rs:1243-1252 | The READY to SENDING claim never fails |
| PacedRing.ChannelHasRoom | crates/ahp-cli/src/net_sender.rs:1350-1358 | No slot is queued twice, so the channel is never full when a slot is offered |
| RoundTrip.EstimatorBounds | crates/ahp-congestion/src/metrics.rs:48-135 | For any samples: the minimum is exact, minimum at most smoothed at most the largest mean, and the timeout lies between the smoothed RTT plus 4 ms and five times the largest mean (or 4 ms above it), floor included |
| RoundTrip.SampleIs | crates/ahp-congestion/src/metrics.rs:59-86 | A sample moves the smoothed RTT by an eighth of the way and the variance, against the old smoothed RTT, by a quarter, rounding down; the first one sets them |
| RoundTrip.SmoothingConverges | crates/ahp-congestion/src/metrics.rs:59-86 | After n equal samples the distance of the smoothed RTT to them is at most (7/8)^n of what it was, plus seven nanoseconds of rounding |
| RoundTrip.RtoIs | crates/ahp-congestion/src/metrics.rs:126-135 | The timeout is the least value not below the floor, the smoothed RTT plus 4 ms, and the smoothed RTT plus four variances |
| RoundTrip.RttEstimator.constructor | crates/ahp-congestion/src/metrics.rs:24-31 | No samples yet |
| RoundTrip.RttEstimator.UpdateSample | crates/ahp-congestion/src/metrics.rs:59-86 | One sample updates minimum, variance and smoothed RTT as specified |
| RoundTrip.RttEstimator.UpdateFromBatch | crates/ahp-congestion/src/metrics.rs:48-56 | A batch's mean drives the smoothed RTT, its minimum the minimum |
| Bandwidth.BandwidthEstimator.constructor | crates/ahp-congestion/src/metrics.rs:305-313 | An empty filter with a 100 ms RTT |
| Bandwidth.BandwidthEstimator.AddSample | crates/ahp-congestion/src/metrics.rs:336-347 | After every sample the deque's front is the brute-force maximum of all samples since the latest cutoff ever applied, and pops plus kept equal pushes; while the window has not moved back it is the greatest rate sampled at most the RTT times the window count ago |
| Bandwidth.BandwidthEstimator.ExpireOld | crates/ahp-congestion/src/metrics.rs:405-421 | Expiry keeps the deque covering everything since the cutoff |
| Bandwidth.BandwidthEstimator.UpdateRtt | crates/ahp-congestion/src/metrics.rs:350-354 | A zero RTT is ignored |
| Bandwidth.BandwidthEstimator.WindowedMaxBandwidth | crates/ahp-congestion/src/metrics.rs:395-403 | The first live entry is the brute-force maximum since the horizon; it is the window's maximum if and only if every dropped sample in the window is matched, so always while the cutoff has not moved back, and then the greatest rate sampled at most the RTT times the window count ago |
| Bandwidth.FirstLiveIsMax | crates/ahp-congestion/src/metrics.rs:389-403 | In a falling deque that dominates all samples, the first live entry is the maximum of everything live |
| Bandwidth.ForgottenPeak | crates/ahp-congestion/src/metrics.rs:336-421 | Six calls after which the filter reads 1 while the maximum over its window is 9 |
| Bandwidth.ForgottenReadsLow | crates/ahp-congestion/src/metrics.rs:405-421 | What the filter keeps can only read low, and is exact if and only if every dropped sample still in the window is matched by a later one |
| Delivery.DeliveryRateEstimator.constructor | crates/ahp-congestion/src/metrics.rs:447-456 | Nothing measured yet |
| Delivery.DeliveryRateEstimator.OnSent | crates/ahp-congestion/src/metrics.rs:497-508 | The send trail keeps capped running totals of the latest sends |
| Delivery.DeliveryRateEstimator.OnAck | crates/ahp-congestion/src/metrics.rs:521-571 | When the span is positive and half a window, the estimate is the greatest whole 64-bit rate that the acked bytes carry over their trail and, where at least one byte per second was sent, the sent bytes over theirs; otherwise it stays; under one fixed window, or while the trail is whole or windows never reach further back, the span is at least the window or the time since the first ACK |
| Delivery.DeliveryRateEstimator.EstimateBounded | crates/ahp-congestion/src/metrics.rs:520-571 | If the path passes at most C·s + B in any s, the estimate is at most C + 2B/W, however ACKs clump |
| Delivery.DeliveryRateEstimator.EstimateKeepsUp | crates/ahp-congestion/src/metrics.rs:520-571 | If the path passes at least C·s − B in any s, no less is sent, and sends and ACKs share one window W that sending began half of before, a measured estimate is at least C − 2B/W − 1 |
| Delivery.RateIsGreatest | crates/ahp-congestion/src/metrics.rs:511-541 | A rate over a span is the greatest whole 64-bit rate the bytes carry |
| Delivery.TrimmedIs | crates/ahp-congestion/src/metrics.rs:526-533 | Trimming keeps a suffix whose front is at least a window old whenever anything was dropped |
| Loss.LossTracker.constructor | crates/ahp-congestion/src/metrics.rs:175-185 | An empty tracker |
| Loss.LossTracker.ExpireOld | crates/ahp-congestion/src/metrics.rs:255-281 | Exactly the stale entries go; afterwards only ids renewed by a duplicate can be older than the cutoff |
| Loss.LossTracker.OnPacketSent | crates/ahp-congestion/src/metrics.rs:189-194 | Adds one live entry and re-arms the index |
| Loss.LossTracker.OnPacketsLost | crates/ahp-congestion/src/metrics.rs:201-216 | Each index not already remembered counts once and lengthens the lost prefix by one, up to the window |
| Loss.LossTracker.RecentLossRate | crates/ahp-congestion/src/metrics.rs:238-253 | The scanned rate is the number of lost entries over the number of entries at most a window old, equals the closed form from the lost prefix and the stale count, and lies in [0, 1] |
| Loss.ScanCounts | crates/ahp-congestion/src/metrics.rs:238-253 | Live and live-lost counts of the scan in closed form |
| Loss.RenewedIdOverstays | crates/ahp-congestion/src/metrics.rs:189-281 | Four calls after which an id older than the window is still remembered, however late the expiry |
| Loss.IdForgottenIff | crates/ahp-congestion/src/metrics.rs:265-279 | Expiry forgets an id if and only if its latest stamp is older than the cutoff and stands in the queue |
| ClassicSafety.ClassicIsSafe | crates/ahp-congestion/src/classic.rs:490-499 | In every reachable state there are at most two plateau strikes and fewer than closed rounds, so a plateau alone never admits a loss; the window is at least 4 MTU; slow start never returns |
| ClassicSafety.RoundKeeps | crates/ahp-congestion/src/classic.rs:676-739 | The third strike needs a fourth round, so the call that counts it also takes the plateau exit |
| ClassicSafety.CutsIff | crates/ahp-congestion/src/classic.rs:977-1008 | A report cuts if and only if it names three packets, there is evidence, and it opens a new epoch by index or by the 16-RTT deadline; otherwise nothing changes |
| ClassicSafety.CutsAreSpaced | crates/ahp-congestion/src/classic.rs:318-330 | Whatever happens between two successive cuts, the second report starts above everything sent by the first or comes 16 smoothed RTTs later |
| ClassicSafety.BrakeCannotBeBlocked | crates/ahp-congestion/src/classic.rs:287-330 | k evidenced reports past the deadline, with no ACK between, leave the window at 4 MTU or at most (7/8)^k of its start, however stale their indices |
| ClassicSafety.NoAckRunDecays | crates/ahp-congestion/src/classic.rs:336-437 | In any run without ACKs the window falls by at least an eighth at each cut, down to the floor |
| ClassicSafety.TargetBounds | crates/ahp-congestion/src/classic.rs:342-437 | A cut lands between the floor and the larger of the floor and seven eighths |
| ClassicSafety.SlowStartIsBounded | crates/ahp-congestion/src/classic.rs:846-889 | Throughout slow start the window is at most 128 MTU or three times largest rate times largest RTT, and the averages stay within their samples |
| ClassicSafety.DivisorIsPositive | crates/ahp-congestion/src/classic.rs:891-896 | With RTT samples floored at a microsecond, no run ever divides the window by zero microseconds |
| ClassicLaws.CutsWhen | crates/ahp-congestion/src/classic.rs:480-553 | A report cuts if and only if it names three packets; there are three strikes, or a window takes more than two unloaded delays at the measured rate, or the queue adds more than 8 ms and a quarter of the unloaded delay; and its first index is above the mark or 16 smoothed RTTs (50 ms each without one) have passed |
| ClassicLaws.CutLands | crates/ahp-congestion/src/classic.rs:342-447 | A cut leaves the floor or the greatest window that is not above seven eighths, nor above the best round while striking or when the ramp is past twice the BDP, nor above the BDP when it is so after four rounds |
| ClassicLaws.PlainCut | crates/ahp-congestion/src/classic.rs:342-343 | Outside slow start and without strikes a cut leaves exactly seven eighths, rounded down, or the floor |
| ClassicLaws.AvoidanceAckIs | crates/ahp-congestion/src/classic.rs:891-953 | In congestion avoidance an ACK raises the window exactly when a window's worth was delivered since the last raise: by one MTU past twice the BDP; with headroom by a quarter of the bytes that bring window over RTT to the measured rate, at least one MTU; with a slack queue by a sixteenth, at least one MTU; else by one MTU |
| ClassicLaws.GrowthAccount | crates/ahp-congestion/src/classic.rs:891-953 | Over any loss-free run in avoidance every delivered byte buys a raise, at a window each, or is still on account |
| ClassicLaws.RaisesAdd | crates/ahp-congestion/src/classic.rs:891-953 | In such a run n raises add at least n MTU and the window never shrinks |
| ClassicLaws.WindowsRaise | crates/ahp-congestion/src/classic.rs:897-904 | In such a run whose ACKs each deliver at most a window, k windows' worth of delivered bytes raise the window at least k times, by at least k MTU |
| ClassicLaws.OneRaisePerAck | crates/ahp-congestion/src/classic.rs:947-953 | One ACK raises the window once however many windows it delivers, so the bound needs that condition; the rest stays on account |
| ClassicLaws.PastBdpIsAdditive | crates/ahp-congestion/src/classic.rs:897-906 | Past twice the BDP the window grows by exactly one MTU a raise |
| ClassicLaws.SlackGrowthIsGeometric | crates/ahp-congestion/src/classic.rs:914-941 | While the queue is slack and there is no headroom, n raises grow the window at least (18/17)^n times |
| ClassicLaws.AckAfterCutRests | crates/ahp-congestion/src/classic.rs:853-859 | The first ACK after a cut only measures |
| ClassicLaws.AckMeasures | crates/ahp-congestion/src/classic.rs:814-851 | Bandwidth and ACK cadence are averages with weight one eighth on the newest reading; ACKs within 2 ms of the last batch belong to it |
| ClassicLaws.RampGrows | crates/ahp-congestion/src/classic.rs:860-880 | In slow start an ACK takes the window to the greatest value not above window plus delivery nor above three bandwidth-delay products, the floor and the window itself |
| ClassicLaws.RampEnds | crates/ahp-congestion/src/classic.rs:613-674 | Slow start then ends if and only if the window reached the threshold, or the smoothed RTT is above five unloaded delays and was so in an earlier batch |
| ClassicLaws.ThirdStrikeSettles | crates/ahp-congestion/src/classic.rs:676-739 | A third strike ends the ramp at once at what the best round delivered |
| ClassicLaws.RoundIs | crates/ahp-congestion/src/classic.rs:676-739 | A round counts a strike exactly when slow start opened the window and less than a quarter more came through than in the best round |
| ClassicLaws.MarkIsHighest | crates/ahp-congestion/src/classic.rs:962-965 | Over any run the mark that opens an epoch is the highest index sent |
| ClassicControl.ClassicController.constructor | crates/ahp-congestion/src/classic.rs:252-283 | The initial controller state |
| ClassicControl.ClassicController.OnAckReceived | crates/ahp-congestion/src/classic.rs:814-960 | Takes the ACK transition and keeps the run invariant |
| ClassicControl.ClassicController.TrackRound | crates/ahp-congestion/src/classic.rs:676-739 | Accumulates, closes and judges feedback rounds as specified |
| ClassicControl.ClassicController.CheckDelaySignal | crates/ahp-congestion/src/classic.rs:613-657 | The delay exit needs inflation in two feedback batches |
| ClassicControl.ClassicController.ApplyLoss | crates/ahp-congestion/src/classic.rs:287-447 | Cuts once per epoch, to the specified target |
| ClassicControl.ClassicController.SettleTarget | crates/ahp-congestion/src/classic.rs:342-437 | The target as computed cap by cap |
| ClassicControl.ClassicController.WindowExceedsBdp | crates/ahp-congestion/src/classic.rs:584-611 | Computed in seconds, the window test is the whole-number one |
| ClassicControl.ClassicController.QueueIsEmpty | crates/ahp-congestion/src/classic.rs:556-574 | Computed in seconds, the empty-queue test is the whole-number one |
| ClassicControl.ClassicController.CongestionEvidence | crates/ahp-congestion/src/classic.rs:490-542 | The first branch that fires, as specified |
| ClassicControl.ClassicController.EpochExpired | crates/ahp-congestion/src/classic.rs:319-327 | Sixteen smoothed RTTs, or of 50 ms without one, since the last cut |
| ClassicControl.ClassicController.Ramped | crates/ahp-congestion/src/classic.rs:861-884 | The ramped window with its truncated cap |
| ClassicControl.ClassicController.Increase | crates/ahp-congestion/src/classic.rs:891-945 | The increase by headroom, by an empty queue, or by one packet |
| Seconds.BytesInDelay | crates/ahp-congestion/src/classic.rs:870-872 | Truncating rate times seconds equals the whole-number product over 10^9 |
| ClassicControl.ClassicController.OnPacketSent | crates/ahp-congestion/src/classic.rs:962-975 | Raises the high-water mark and arms the first round |
| ClassicControl.ClassicController.OnPacketLost | crates/ahp-congestion/src/classic.rs:977-1008 | Takes the loss transition and keeps the run invariant |
| ClassicControl.ClassicController.OnRttUpdate | crates/ahp-congestion/src/classic.rs:1022-1029 | Takes the RTT transition and keeps the run invariant |
| ClassicControl.ClassicController.OnRttBatch | crates/ahp-congestion/src/classic.rs:1031-1033 | Takes the batch transition and keeps the run invariant |
| Glob.GlobToks | crates/ahp-cli/src/fs_tree.rs:291-334 | The two-row program with stale rows and recursive sub-match decides exactly the recursive meaning of the tokens, for every pattern and text |
| Glob.DoubleStarSlash | crates/ahp-cli/src/fs_tree.rs:301-329 | A double star before a slash accepts exactly when the rest matches some suffix of the text |
| Glob.DoubleStarSlashSplitsNames | crates/ahp-cli/src/fs_tree.rs:301-329 | A concrete match that ends inside a name rather than at a directory boundary |
| Glob.SlashesAgree | crates/ahp-cli/src/fs_tree.rs:291-334 | Without a double star, a matched text has exactly as many slashes as the pattern has literal slash tokens |
| Glob.PlainPatternKeepsDepth | crates/ahp-cli/src/fs_tree.rs:207-289 | The same for pattern text without two adjacent stars |
| Glob.ParseClass | crates/ahp-cli/src/fs_tree.rs:253-276 | The index loop finds the class and its end, or that it is never closed |
| Glob.Tokenize | crates/ahp-cli/src/fs_tree.rs:207-249 | The index loop yields the tokens of the pattern |
| Glob.RenderRoundTrip | crates/ahp-cli/src/fs_tree.rs:207-276 | Every canonical token list survives being written as a pattern and tokenized again |
| Glob.GlobMatch | crates/ahp-cli/src/fs_tree.rs:182-190 | Accepts if and only if the pattern accepts the text, or has no slash and accepts the base name |
| Glob.ClassAccepts | crates/ahp-cli/src/fs_tree.rs:252-290 | A bracket expression accepts exactly the single bytes that one of its items takes, or none when negated, and never a slash |
| Glob.RangeAccepts | crates/ahp-cli/src/fs_tree.rs:314-321 | `[x-y]` accepts exactly the bytes from x to y, `[!x-y]` and `[^x-y]` exactly the others, and none accepts a slash |
| Glob.SingleAccepts | crates/ahp-cli/src/fs_tree.rs:314-321 | `[x]` accepts exactly x, unless it is a slash |
| Glob.PlainAccepts | crates/ahp-cli/src/fs_tree.rs:207-248 | A pattern without special bytes accepts itself and nothing else |
| Glob.BaseNameIs | crates/ahp-cli/src/fs_tree.rs:182-190 | The base name is the longest suffix without a slash |
| Manifest.ChunksForSizeIsCeiling | crates/ahp-api/src/manifest.rs:160-177 | The count is the least that holds the file; it fails if and only if the chunk size is zero or the count exceeds 32 bits |
| Manifest.RangesTileFile | crates/ahp-api/src/manifest.rs:222-227 | A file's byte ranges are non-empty, follow one another from 0 to its size, and are empty past the last chunk |
| Manifest.ByteHasOneChunk | crates/ahp-api/src/manifest.rs:222-227 | Every byte lies in exactly one chunk |
| Manifest.Build | crates/ahp-api/src/manifest.rs:108-147 | Succeeds if and only if every file can be chunked; entries describe the inputs in order and their chunk ranges tile the global space |
| Manifest.ChunkHasOneFile | crates/ahp-api/src/manifest.rs:108-147 | Every global chunk belongs to exactly one file |
| Manifest.LayoutFits | crates/ahp-api/src/manifest.rs:108-147 | With fewer than 2^32 files no chunk index overflows 64 bits |
| Manifest.FeedManifest | crates/ahp-api/src/manifest.rs:196-219 | The hasher is fed the length-prefixed stream, each path as rendered text |
| Utf8.LossyIffIllFormed | crates/ahp-api/src/manifest.rs:210 | Rendering a path as text changes it if and only if it is not well-formed UTF-8 |
| Utf8.KeptIffEncoded | crates/ahp-api/src/manifest.rs:210 | The paths kept as they are are exactly the encodings of sequences of Unicode scalar values |
| Utf8.IllFormedIsMaximal | crates/ahp-api/src/manifest.rs:210 | Each replaced piece is one byte or the longest start of a character |
| Manifest.StreamInjective | crates/ahp-api/src/manifest.rs:179-219 | With lengths and file count below 2^32, streams are equal if and only if id, mode, chunk size and all file entries are, paths compared as rendered |
| Manifest.SeparatesIff | crates/ahp-api/src/manifest.rs:196-219 | Over any set of paths, equal streams mean equal manifests if and only if rendering tells the paths apart |
| Manifest.WellFormedPathsSeparate | crates/ahp-api/src/manifest.rs:196-219 | Among manifests whose paths are well-formed UTF-8, streams are equal if and only if the manifests are |
| Manifest.IllFormedPathsCollide | crates/ahp-api/src/manifest.rs:210 | Two different one-byte paths with the same stream |
| SyncPlan.MakePlan | crates/ahp-cli/src/sync_plan.rs:118-180 | The plan holds one verdict per local file, counts that add up to the listing, and in mirror mode the sorted permutation of the extra paths |
| SyncPlan.PlanConverges | crates/ahp-cli/src/sync_plan.rs:21-33 | Applied, a mirror plan leaves the source's paths and no others; source files compare equal; one-way and append-only delete nothing; append-only alters no existing file |
| SyncPlan.PlanIsIdempotent | crates/ahp-cli/src/sync_plan.rs:118-180 | Planning again from any listing of the result gives an empty plan |
| SyncPlan.EveryFileIsCounted | crates/ahp-cli/src/sync_plan.rs:132-166 | Transfers, unchanged and protected add up to the local listing |
| SyncPlan.ActionsAre | crates/ahp-cli/src/sync_plan.rs:132-166 | A planned transfer creates what the destination lacks and updates what it has |
| SyncPlan.VerdictIs | crates/ahp-cli/src/sync_plan.rs:132-166 | A file the destination has is protected in append-only mode, else unchanged if and only if it compares equal |
| SyncPlan.LexIs | crates/ahp-cli/src/sync_plan.rs:168-180 | Deletions are ordered by the first difference, a prefix first |
| Holes.PartitionPoint | crates/ahp-cli/src/holes.rs:58 | The first hole that ends after the start |
| Holes.Segments | crates/ahp-cli/src/holes.rs:54-76 | An ordered gap-free partition of the range, each piece wholly inside or wholly outside the holes |
| Holes.FeedWindows | crates/ahp-cli/src/net_sender.rs:2467-2497 | The hasher is fed the file with zeros in its holes, which is the file if and only if the holes read as zero |

## Left out

- Sockets, batching, memory mapping, prefetching and the other send backends: foreign calls and I/O.
- Handshake, encryption, header protection, tickets, key rotation, compression and the Merkle tree: treated as the identity on chunks or left opaque.
- Packet encoding and decoding: ACKs and NACKs arrive as decoded values; a packet that does not decode is ignored by the sender.
- The choice of stream, the window test, the scan interval and the stall limit of the send loop constrain `SendLoop` and `ProtocolProgress` only; the safety results let any stream send and any scan happen at any time, which covers them. Full send buffers, the burst quantum and pacing sleeps, which end a pass early or stretch it, are left out.
- ProtocolProgress.LoopRecovers: the condition is one-way. States with unacked chunks further apart than an ACK reports, or with less time before the stall limit, can recover or not depending on the window.
- The pacing rate and `update_pacing_rate`: they set a rate and decide nothing modelled here.
- Diagnostics of the Classic controller (exit reason, gate reason and snapshot): never read by its logic.
- The other congestion controllers and the loss advice: they would add only easy members.
- The search for holes with `SEEK_HOLE` and the directory walk: operating-system calls; the segmentation takes sorted disjoint holes as the search returns them.
- `Filters::accepts` and command-line parsing: easy combinations of the matcher.
- Machine overflow of window sizes, byte counters and rates near 2^64, and the rounding of floating point.
- ClassicSpec.CurrentRate: a smoothed RTT above zero but below a microsecond makes the source divide by zero; the model reads the rate as zero there. `ClassicSafety.DivisorIsPositive` shows that it cannot happen with samples floored at a microsecond, as the sender's are.
- Path encodings other than Unix byte strings.
- PacedRing.StepKeeps: weak memory orderings are not modelled.
