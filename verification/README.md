# Verified models of PowerDEVS atomic models

PowerDEVS simulates networks of atomic DEVS models. Each one is a small state machine with `init`, `dint`
(internal transition), `dext` (external transition), `lambda` (output) and a time advance `sigma`. This project
models ten of them, and the expression library `mathexpr` some of them use, in Dafny and proves what they are for,
over every run.

A run alternates external steps, where `dext` is called with an elapsed time of at most `sigma`, and internal
steps, where `lambda` and then `dint` are called when `sigma` has elapsed; on a tie either may come first
(`src/engine/common/simulator.cpp`, `coupling.cpp`, `root_simulator.cpp`). `double` is idealised as `real`, an
infinite time advance is a value of its own, and C++ undefined behaviour (popping an empty container, indexing out
of range, reading through a null pointer) is the explicit outcome `Undefined`; the results
show that no run reaches it, or exhibit a run that does.

Each model that updates fields is a class whose methods perform the updates of the C++ source and are proved equal
to a function on states; the properties of whole runs are lemmas about those functions.

| file | models |
|---|---|
| `Devs.dfy` | time advances, outcomes |
| `TcpSender.dfy`, `TcpReceiver.dfy` | `packettcpsnd`, `packettcprcv` |
| `TcpSystem.dfy`, `TcpProgress.dfy`, `TcpWindow.dfy`, `TcpAdaptation.dfy`, `TcpTiming.dfy` | both over lossy, duplicating, reordering channels: safety, progress, congestion window, round-trip estimate, time |
| `TcpReactions.dfy`, `TcpPhases.dfy` | what one event changes: losses and congestion, phases and timers |
| `Seq32.dfy`, `TcpSenderExt.dfy`, `TcpReceiverExt.dfy`, `TcpSystemExt.dfy`, `TcpMarksExt.dfy`, `TcpSessionsExt.dfy`, `TcpTimingExt.dfy`, `TcpReactionsExt.dfy`, `TcpPhasesExt.dfy` | the extended pair with cumulative, delayed acknowledgements modulo 2^32: safety, progress, congestion marks, short and long sessions, time, and what one event changes |
| `ReorderBuffer.dfy` | `TcpRcvBuffer` |
| `SharedQueue.dfy` | `packetSharedQueue` |
| `LinkBandwidth.dfy`, `HybridLink.dfy` | `packetLinkBandwidth`, `hybridizationLink` |
| `Expr.dfy`, `ExprCompiler.dfy`, `ExprMachine.dfy` | `mathexpr`: trees, their code, the arrays and the machine that runs it |
| `ExprSimplify.dfy`, `Calculus.dfy`, `CalculusChain.dfy`, `ExprSlopes.dfy`, `ExprPrimitives.dfy`, `ExprDiff.dfy` | `mathexpr`: simplifying operators, symbolic derivative |
| `Brackets.dfy` | `mathexpr`: bracket and operator search |
| `WeightedSum.dfy`, `QssIntegrator.dfy` | `wsum`, the first-order case of `integrator_sci` |

## Where the code falls short

Each of these is a lemma with a concrete run or an exact condition.

- The base TCP sender accepts only the acknowledgement it expects. One lost acknowledgement, with the receiver two
  packets ahead, stops the session for good (`TcpProgress.OneLostAckWedges`, `TcpProgress.ProgressIffNotWedged`).
- The congestion window can fall below one packet for exactly the configurations named in `TcpWindow.WindowBounds`.
- The extended sender ignores congestion marks until its first fast retransmit, except on the number 2^32 - 1
  (`TcpMarksExt.DeafUntilFastRetransmit`). Afterwards it compares wire numbers where it should compare distances, and is
  wrong exactly as `TcpMarksExt.MarkHalvesIff` says: a mark of the same window can act again
  (`TcpMarksExt.MarkActsTooEarly`), and one beyond it can be ignored (`TcpMarksExt.MarkActsTooLate`).
- An old acknowledgement or packet is misread by modular comparison exactly as `TcpSystemExt.StaleAckMisread` and
  `TcpSystemExt.DataMistakenIff` say: one stale duplicate can release packets that were never sent
  (`TcpSessionsExt.StaleAckReleasesUnsent`) or be accepted as a new packet (`TcpSessionsExt.StaleDataIsAccepted`).
- Nothing bounds the send buffer, and with 2^32 buffered bytes nothing is acceptable
  (`TcpSenderExt.FullSpaceRefusesEverything`, `TcpSessionsExt.FullSpaceIsReachable`). When less than a segment is left of
  the space, a duplicate is accepted as new (`TcpSenderExt.AcceptanceIsRfc793`).
- The extended sender does not back off (`TcpTimingExt.RetransmitsForEver`), can retransmit for ever in no time
  (`TcpTimingExt.TimeDivergesIff`, `TcpTimingExt.TimeStopsInReach`), and lets arriving data postpone a time-out for ever
  (`TcpTimingExt.TimeoutPostponedForEver`).
- The reorder buffer fails after the last number of the grid below 2^32, and exactly then
  (`ReorderBuffer.PromiseSurvivesIff`): it delivers the first packet again (`ReorderBuffer.OldPacketDeliveredIff`,
  `ReorderBuffer.WrapDeliversTwice`) or nothing ever again (`ReorderBuffer.SilentForever`).
- The shared queue pops an empty queue after exactly the requests named in `SharedQueue.RequestPopsEmptyIff`
  (`SharedQueue.EarlyRequestPopsEmptyQueue`).
- The two modes of the hybrid link can differ exactly when a packet arrives at a completion
  (`HybridLink.ModesAgreeIff`).
- A function with a repeated parameter does not restore the variables (`ExprMachine.RestoredIffDistinct`).
- A zero base to the literal power zero simplifies to 1 but evaluates to 0 (`ExprSimplify.PowerKeepsMeaning`).
- The symbolic derivative is wrong for a zero base exactly as `ExprSlopes.FirstPowerOfZeroIff` says, misses a variable that
  only a called function reads (`ExprDiff.HiddenReadIsMissed`), and is an error for roots of negative numbers
  (`ExprDiff.RootOfNegativeIsMissed`).
- The weighted sum forgets the time of a wake-up without input (`WeightedSum.WakeUpIsHarmlessIff`,
  `WeightedSum.WakeUpSendsTheSumIff`).
- The integrator sends a wrong level when the input reverses at the instant of a due output, and first of all when it
  starts off the grid of quanta or its input comes before the first output (`QssIntegrator.OutputIsExactIff`,
  `QssIntegrator.ReversalSendsTheWrongLevel`, `QssIntegrator.FirstOutputMayBeWrong`).

## Model

| member | source | states |
|---|---|---|
| TcpSender.PacketTcpSnd.constructor | atomics/network/packettcpsnd.cpp:108-149 | the fields after `init`: window of one packet, first acceptable acknowledgement MSS + 1, RTO at least `MIN_RTO` |
| TcpSender.PacketTcpSnd.OnLambda | atomics/network/packettcpsnd.cpp:754-834 | the output and the new `pout`; sending reads `SendBuffer.at(WND_NXT_SND-1)` only when that index exists |
| TcpSender.PacketTcpSnd.OnDint | atomics/network/packettcpsnd.cpp:154-267 | the whole state after an internal transition in each of the four phases, including time-out, back-off and the start of a measuring cycle |
| TcpSender.PacketTcpSnd.OnDext | atomics/network/packettcpsnd.cpp:321-752 | the whole state after data or an acknowledgement arrives: the composition of acceptance or rejection, congestion mark and change of phase |
| TcpSender.PacketTcpSnd.ReleaseHead | atomics/network/packettcpsnd.cpp:395-419 | an expected acknowledgement pops exactly the head and moves the expected number and the send pointer |
| TcpSender.PacketTcpSnd.AdjustWindow | atomics/network/packettcpsnd.cpp:421-506 | an accepted acknowledgement leaves fast recovery or, inside a measuring cycle, closes it; the duplicate count restarts |
| TcpSender.PacketTcpSnd.FinishCycle | atomics/network/packettcpsnd.cpp:437-503 | RTT smoothing, RTO with its minimum, slow start or congestion avoidance, and the end of the cycle |
| TcpSender.PacketTcpSnd.RejectAck | atomics/network/packettcpsnd.cpp:507-594 | duplicate counting, fast retransmit at the limit, window inflation beyond it |
| TcpSender.PacketTcpSnd.ReactToMark | atomics/network/packettcpsnd.cpp:596-627 | a congestion mark halves the window only at or beyond the number fixed by the last reduction |
| TcpSender.PacketTcpSnd.ChangePhaseAfterData | atomics/network/packettcpsnd.cpp:665-740 | phase and timer after data |
| TcpSender.PacketTcpSnd.ChangePhaseAfterAck | atomics/network/packettcpsnd.cpp:665-731 | phase and timer after an acknowledgement |
| TcpReceiver.PacketTcpRcv.OnDext | atomics/network/packettcprcv.cpp:51-94 | only the expected number is accepted; a packet while an acknowledgement is owed throws and changes nothing |
| TcpReceiver.PacketTcpRcv.OnLambda | atomics/network/packettcprcv.cpp:127-165 | the acknowledgement number is the last accepted number plus MSS |
| TcpReceiver.PacketTcpRcv.OnDint | atomics/network/packettcprcv.cpp:44-49 | the receiver waits again |
| TcpSystem.StepKeepsInv | atomics/network/packettcpsnd.cpp:321-752 | every event of sender, receiver or channel keeps the invariant that ties buffer, counters, receiver and everything in flight together, and is defined |
| TcpSystem.ExpectedMeansAccepted | atomics/network/packettcpsnd.cpp:395-410 | if the number the sender waits for is in flight, the buffer is not empty and the receiver has accepted its head |
| TcpSystem.AckBound | atomics/network/packettcprcv.cpp:79-89 | no acknowledgement in flight exceeds what the receiver accepted |
| TcpSystem.EveryRunIsSafe | atomics/network/packettcpsnd.cpp:343-419 | over channels that lose, duplicate and reorder: released is a prefix of accepted, accepted a prefix of submitted; the buffer holds consecutive numbers ending at `SEQ_NXT`; no transition of any run is undefined |
| TcpProgress.WedgedForever | atomics/network/packettcpsnd.cpp:395-410 | once the receiver is two packets ahead and the one acknowledgement the sender accepts is lost, no continuation releases anything |
| TcpProgress.HeadGetsSent | atomics/network/packettcpsnd.cpp:154-267 | from every reachable state with a buffered packet, internal steps alone put the head of the buffer in flight |
| TcpProgress.ProgressIffNotWedged | atomics/network/packettcpsnd.cpp:395-410 | in every reachable state with a nonempty buffer some continuation releases a packet if and only if the state is not wedged |
| TcpProgress.OneLostAckWedges | atomics/network/packettcpsnd.cpp:395-410 | a concrete run in which losing a single acknowledgement wedges the session: this sender does not take a later cumulative acknowledgement |
| TcpWindow.WindowBounds | atomics/network/packettcpsnd.cpp:425-565 | `WND_CWND >= 1` in all reachable states if and only if `WND_CWND_MAX >= 1` and the duplicate limit or the initial threshold is at least one |
| TcpWindow.DuplicatesReachCap | atomics/network/packettcpsnd.cpp:556-565 | with a cap below one, some run of duplicates brings the window down to the cap |
| TcpWindow.MarksActOncePerWindow | atomics/network/packettcpsnd.cpp:525-616 | after a reduction at acknowledgement a under window w, the next reduction caused by a mark is at an acknowledgement of at least floor(a + w * MSS) (section 6.1.2 of RFC 3168) |
| TcpTiming.ReachableIsReady | atomics/network/packettcpsnd.cpp:186-198 | in every reachable state the send pointer is between 1 and |SendBuffer| + 1 when the buffer is nonempty, `T_RTO >= MIN_RTO`, and `pout` is set wherever the sending phase reads it |
| TcpTiming.SenderIsLegitimate | atomics/network/packettcpsnd.cpp:186-243 | without input, even with zero inter-packet times, at most |SendBuffer| + 4 internal steps precede a wait of at least `MIN_RTO` or an endless one |
| TcpTiming.TimeoutsRecur | atomics/network/packettcpsnd.cpp:186-267 | with a nonempty buffer, n internal steps contain k time-outs with n < StepsToTimeout + 3k: the sender never stops trying |
| TcpTiming.BackOffTime | atomics/network/packettcpsnd.cpp:255 | k consecutive time-outs take at least (2^k - 1) times the RTO they started from |
| TcpTiming.BackOff | atomics/network/packettcpsnd.cpp:243-267 | both together, from `MIN_RTO` (the back-off of section 5 of RFC 6298) |
| TcpTiming.TimeDiverges | atomics/network/packettcpsnd.cpp:226 | for every bound, some number of internal steps takes longer: the sender alone has no Zeno run |
| TcpAdaptation.RunAdapts | atomics/network/packettcpsnd.cpp:421-506 | over every run without time-out, fast retransmit or mark reaction, window and estimate are functions of the closing acknowledgements alone |
| TcpAdaptation.SlowStart | atomics/network/packettcpsnd.cpp:458-462 | over every run without loss events, n closing acknowledgements below the threshold add exactly n packets: a window of them doubles the window |
| TcpAdaptation.CongestionAvoidance | atomics/network/packettcpsnd.cpp:470-475 | over such a run, n of them above the threshold, at most a window w, add between n/(w+1) and n/w packets: at most one packet per window |
| TcpAdaptation.EstimateConverges | atomics/network/packettcpsnd.cpp:437-441 | over such a run with a constant measured round trip, n closing acknowledgements shrink the error of the estimate to `RTT_alfa`^n of what it was |
| TcpAdaptation.EstimateStaysBetween | atomics/network/packettcpsnd.cpp:437-441 | over such a run the estimate never leaves the range of what it started from and what was measured |
| TcpAdaptation.TimeoutCoversRoundTrip | atomics/network/packettcpsnd.cpp:441-450 | a computed RTO is at least `MIN_RTO` and at least the estimated round trip |
| TcpReactions.OtherAckIsCounted | atomics/network/packettcpsnd.cpp:507-594 | an acknowledgement that is neither expected nor at the duplicate limit changes nothing but the duplicate count, and that only if it repeats the last one accepted |
| TcpReactions.FastRetransmitEffect | atomics/network/packettcpsnd.cpp:525-552 | the duplicate that reaches the limit sets the threshold to half the old window, at least 1, and the window to that half plus 3, and points at the oldest packet |
| TcpReactions.FastRetransmitSendsHead | atomics/network/packettcpsnd.cpp:321-834 | in every reachable state with a nonempty buffer, sending or waiting for an acknowledgement, the next output after that duplicate is the oldest packet, sent again |
| TcpReactions.DuplicatesRetransmitHead | atomics/network/packettcpsnd.cpp:507-594 | so as many repetitions of one acknowledgement as the limit says end in that retransmission |
| TcpReactions.RecoveryInflates | atomics/network/packettcpsnd.cpp:561-583 | each later duplicate adds one packet to the window, up to the cap, and moves nothing else |
| TcpReactions.RecoveryEnds | atomics/network/packettcpsnd.cpp:395-435 | the expected acknowledgement ends recovery with a window of the threshold and leaves the estimate alone |
| TcpReactions.MarkHalvesWindow | atomics/network/packettcpsnd.cpp:596-627 | a congestion mark changes the delivery it comes on if and only if its number has reached the bound outside fast recovery; then window and threshold are half of what the unmarked delivery leaves, at least one packet |
| TcpReactions.TimeoutEffect | atomics/network/packettcpsnd.cpp:210-262 | a time-out halves the threshold (at least 1), leaves a window of 1, doubles the time-out and starts again with the oldest packet at once |
| TcpReactions.EveryPacketIsAnswered | atomics/network/packettcprcv.cpp:51-165 | every packet is accepted if and only if it is the next one, and answered at once with the number that follows what is accepted |
| TcpReactions.OutOfOrderIsADuplicate | atomics/network/packettcprcv.cpp:86-165 | so a packet beyond a missing one is answered with a duplicate, in the sense in which the sender counts duplicates |
| TcpPhases.SessionBegins | atomics/network/packettcpsnd.cpp:108-149 | a session begins by asking for data, with a window of one packet and the time-out its parameters call for |
| TcpPhases.OutputOfPhase | atomics/network/packettcpsnd.cpp:754-834 | in every state of the invariant a request is put out exactly while asking, a packet exactly while sending with the pointer inside buffer and window, and it is the one at the pointer |
| TcpPhases.FiringOfPhase | atomics/network/packettcpsnd.cpp:154-207 | the whole change when a timer ends, by phase; the first packet after a closed or broken cycle starts the next one |
| TcpPhases.DataOfPhase | atomics/network/packettcpsnd.cpp:343-394 | new data is numbered by its place in the submitted stream and wakes only a sender waiting for the application |
| TcpPhases.AckOfPhase | atomics/network/packettcpsnd.cpp:665-731 | which acknowledgements end a wait, which start the retransmission, and that all other timers keep running |
| TcpPhases.ExpectedAckTeaches | atomics/network/packettcpsnd.cpp:395-506 | outside recovery the expected acknowledgement releases the head; inside the measured cycle the estimates keep `RTT_alfa` of their distance from the sample, the time-out follows, the window grows by one packet or by 1/window |
| Seq32.CheckWindowIsCircular | atomics/network/packettcpsnd_ext.cpp:838-844 | `checkWindow` is membership of the half-open circular interval modulo 2^32 |
| TcpSenderExt.PacketTcpSndExt.constructor | atomics/network/packettcpsnd_ext.cpp:113-155 | the fields after `init` |
| TcpSenderExt.PacketTcpSndExt.OnLambda | atomics/network/packettcpsnd_ext.cpp:736-809 | the output; sending reads the buffer only inside its bounds |
| TcpSenderExt.PacketTcpSndExt.OnDint | atomics/network/packettcpsnd_ext.cpp:159-262 | the whole state after an internal transition |
| TcpSenderExt.PacketTcpSndExt.OnData | atomics/network/packettcpsnd_ext.cpp:305-360 | the whole state after data arrives |
| TcpSenderExt.PacketTcpSndExt.OnAck | atomics/network/packettcpsnd_ext.cpp:361-734 | the whole state after an acknowledgement arrives |
| TcpSenderExt.PacketTcpSndExt.ReleaseLoop | atomics/network/packettcpsnd_ext.cpp:386-490 | the cumulative loop computes the recursive release and terminates |
| TcpSenderExt.PacketTcpSndExt.ReleaseHead | atomics/network/packettcpsnd_ext.cpp:391-406 | one turn of the loop |
| TcpSenderExt.PacketTcpSndExt.Measure | atomics/network/packettcpsnd_ext.cpp:431-484 | RTT, RTO and window growth of one turn |
| TcpSenderExt.PacketTcpSndExt.RejectAck | atomics/network/packettcpsnd_ext.cpp:491-572 | duplicates, fast retransmit and inflation |
| TcpSenderExt.PacketTcpSndExt.ReactToMark | atomics/network/packettcpsnd_ext.cpp:576-610 | reaction to a congestion mark with an unsigned bound |
| TcpSenderExt.AcceptableIffInsideBuffer | atomics/network/packettcpsnd_ext.cpp:376 | the acceptance test is membership of a circular interval as long as the buffer, modulo 2^32 |
| TcpSenderExt.FullSpaceRefusesEverything | atomics/network/packettcpsnd_ext.cpp:376 | with exactly 2^32 buffered bytes no acknowledgement is acceptable, so the size bound of the other results is needed |
| TcpSenderExt.LoopTurn | atomics/network/packettcpsnd_ext.cpp:386-409 | each turn pops one packet of a nonempty buffer and either ends the loop or brings the acknowledgement one packet nearer |
| TcpSenderExt.LoopReleases | atomics/network/packettcpsnd_ext.cpp:386-488 | after the loop exactly the covered packets are gone and the counters agree again |
| TcpSenderExt.ReleasedCount | atomics/network/packettcpsnd_ext.cpp:376-488 | below 2^32 buffered bytes an acceptable acknowledgement releases exactly 1 + ((ACK - left) mod 2^32) / MSS packets and the loop ends without popping an empty buffer |
| TcpSenderExt.AcceptanceIsRfc793 | atomics/network/packettcpsnd_ext.cpp:376-377 | for acknowledgements on the sender's grid and below 2^32 buffered bytes the test is SND.UNA < SEG.ACK <= SND.NXT of section 3.3 of RFC 793, as distances from SND.UNA, if and only if it is not a duplicate of SND.UNA or a whole segment is left of the sequence space |
| TcpMarksExt.DeafUntilFastRetransmit | atomics/network/packettcpsnd_ext.cpp:576-610 | in every run without a fast retransmit, taking all marks off changes no state if and only if no marked acknowledgement reached the initial bound 2^32 - 1 outside fast recovery; with a duplicate limit of at least one, if and only if none with that number was delivered |
| TcpMarksExt.FirstMarkIsIgnored | atomics/network/packettcpsnd_ext.cpp:576-610 | a reachable marked acknowledgement, the first of a session, that lets the window grow as if unmarked |
| TcpMarksExt.MarkHalvesIff | atomics/network/packettcpsnd_ext.cpp:507-596 | in every run, after a reduction whose window ends at the number B = 1 + a * MSS + floor(w * MSS) counted without wrap-around, the next marked acknowledgement outside fast recovery, for k packets, halves window and threshold against the unmarked delivery if and only if (1 + k * MSS) mod 2^32 >= B mod 2^32, and otherwise has no effect; this is 1 + k * MSS >= B if and only if both lie in the same lap of 2^32 or their residues lie the right way round |
| TcpMarksExt.MarksActOncePerWindow | atomics/network/packettcpsnd_ext.cpp:507-596 | so in every session whose numbers and window end stay below 2^32, marks act at most once per window (section 6.1.2 of RFC 3168) |
| TcpMarksExt.MarkActsTooEarly | atomics/network/packettcpsnd_ext.cpp:507-596 | a run in which a fast retransmit at packet 2 is followed by a second reduction at packet 1, inside the same window |
| TcpMarksExt.MarkActsTooLate | atomics/network/packettcpsnd_ext.cpp:576-590 | a run in which the marked acknowledgement for packet 4, beyond the window that ended at packet 3, has no effect |
| TcpReactionsExt.OtherAckIsCounted | atomics/network/packettcpsnd_ext.cpp:491-572 | an acknowledgement that covers nothing new and is not at the duplicate limit changes nothing but the duplicate count, and that only if it repeats the last number accepted |
| TcpReactionsExt.FastRetransmitEffect | atomics/network/packettcpsnd_ext.cpp:509-536 | the duplicate that reaches the limit sets the threshold to half the old window, at least 1, and the window to that half plus 3, and points at the oldest packet |
| TcpReactionsExt.FastRetransmitSendsHead | atomics/network/packettcpsnd_ext.cpp:361-809 | in every reachable state with a nonempty buffer, sending or waiting for an acknowledgement, the next output after that duplicate is the oldest packet, sent again |
| TcpReactionsExt.RecoveryInflates | atomics/network/packettcpsnd_ext.cpp:537-560 | each later duplicate adds one packet to the window, up to the cap, and moves nothing else |
| TcpReactionsExt.MarkHalvesWindow | atomics/network/packettcpsnd_ext.cpp:576-610 | a congestion mark changes the delivery it comes on if and only if its number has reached the stored bound outside fast recovery; then window and threshold are half of what the unmarked delivery leaves, at least one packet |
| TcpReactionsExt.TimeoutEffect | atomics/network/packettcpsnd_ext.cpp:212-259 | a time-out halves the threshold (at least 1), leaves a window of 1 and the time-out unchanged, and starts again with the oldest packet at once |
| TcpPhasesExt.SessionBegins | atomics/network/packettcpsnd_ext.cpp:113-155 | a session begins by asking for data, with a window of one packet, the time-out its parameters call for and the mark bound 2^32 - 1 |
| TcpPhasesExt.OutputOfPhase | atomics/network/packettcpsnd_ext.cpp:736-809 | in every state of the invariant a request is put out exactly while asking, a packet exactly while sending with the pointer inside buffer and window, and it is the one at the pointer |
| TcpPhasesExt.FiringOfPhase | atomics/network/packettcpsnd_ext.cpp:159-211 | the whole change when a timer ends, by phase |
| TcpPhasesExt.DataOfPhase | atomics/network/packettcpsnd_ext.cpp:305-360 | new data is numbered by its place in the submitted stream; it wakes a sender waiting for the application and restarts the wait of one waiting for an acknowledgement |
| TcpPhasesExt.AckOfPhase | atomics/network/packettcpsnd_ext.cpp:645-720 | which acknowledgements end a wait, which start the retransmission, and that all other timers keep running |
| TcpPhasesExt.NewAckTeaches | atomics/network/packettcpsnd_ext.cpp:386-488 | an acknowledgement that releases n packets teaches its lesson n times in a row: the first leaves recovery if there was one, every other moves the estimates towards the sample and grows the window; afterwards it is the number that duplicates repeat |
| TcpReceiverExt.PacketTcpRcvExt.OnDext | atomics/network/packettcprcv_ext.cpp:56-116 | in-order acceptance modulo 2^32; the first held packet starts the delay and later ones leave it running |
| TcpReceiverExt.PacketTcpRcvExt.OnLambda | atomics/network/packettcprcv_ext.cpp:141-155 | the cumulative acknowledgement is the next expected number |
| TcpReceiverExt.PacketTcpRcvExt.OnDint | atomics/network/packettcprcv_ext.cpp:49-54 | the receiver waits again |
| TcpReceiverExt.AckLeavesAfterDelay | atomics/network/packettcprcv_ext.cpp:100-108 | however many packets arrive meanwhile, the acknowledgement leaves exactly the delay after the first of them and answers the last |
| TcpSystemExt.FreshAckIsUnderstood | atomics/network/packettcpsnd_ext.cpp:376-386 | for a fresh acknowledgement the modular test decides what ideal numbers say, and measures the exact distance |
| TcpSystemExt.StaleAckMisread | atomics/network/packettcpsnd_ext.cpp:376-386 | an old acknowledgement for k packets, when n are released and total submitted, is taken for a new one if and only if ((k - n - 1) * MSS) mod 2^32 < (total - n) * MSS; for ages below one sequence space, if and only if it is not fresh |
| TcpSystemExt.DataMistakenIff | atomics/network/packettcprcv_ext.cpp:83-92 | packet k is taken for the next expected one if and only if it lies a whole number of sequence spaces from it |
| TcpSystemExt.FreshDataIsUnderstood | atomics/network/packettcprcv_ext.cpp:83-92 | a fresh packet is accepted exactly when it is the next one |
| TcpSystemExt.ShortSessionsAreFresh | atomics/network/packettcpsnd_ext.cpp:838-844 | in a session shorter than one sequence space every message in flight is fresh |
| TcpSessionsExt.EveryShortRunIsSafe | atomics/network/packettcpsnd_ext.cpp:376-488 | every session shorter than one wrap is safe whatever the channels deliver, with no assumption on age |
| TcpSessionsExt.StaleAckReleasesUnsent | atomics/network/packettcpsnd_ext.cpp:376-409 | a run of fresh deliveries after which one stale duplicate releases two packets that were never sent |
| TcpSessionsExt.StaleDataIsAccepted | atomics/network/packettcprcv_ext.cpp:83-92 | a run of fresh deliveries after which an old copy of the first packet is accepted again as a third one |
| TcpSessionsExt.FullSpaceIsReachable | atomics/network/packettcpsnd_ext.cpp:305-330 | four submissions of 2^30 bytes lead to a state in which no acknowledgement number at all is acceptable |
| TcpSystemExt.StepKeepsInv | atomics/network/packettcpsnd_ext.cpp:305-734 | every event keeps the invariant of the extended pair and is defined |
| TcpSystemExt.EveryFreshRunIsSafe | atomics/network/packettcpsnd_ext.cpp:376-488 | in every run of fresh deliveries: released is a prefix of accepted, accepted of submitted, an acknowledgement releases exactly what it covers, nothing is undefined |
| TcpSystemExt.ReleasedByAck | atomics/network/packettcpsnd_ext.cpp:386-409 | delivering a fresh acknowledgement for k packets leaves max(k, released) packets released |
| TcpSystemExt.AlwaysCanRelease | atomics/network/packettcpsnd_ext.cpp:376-488 | from every reachable state with a nonempty buffer some continuation releases a packet: cumulative acknowledgements never wedge |
| TcpTimingExt.ReachableIsReady | atomics/network/packettcpsnd_ext.cpp:159-262 | in every reachable state the send pointer is inside the buffer or just behind it, the time-out is at least `MIN_RTO`, and only a sender with nothing to send waits without a timer |
| TcpTimingExt.TimeoutOccurs | atomics/network/packettcpsnd_ext.cpp:186-262 | with a nonempty buffer and no input the next time-out happens after exactly StepsToTimeout internal steps |
| TcpTimingExt.RetransmitsForEver | atomics/network/packettcpsnd_ext.cpp:186-262 | and then every third step, always `INTERPACKET_SND_TIME` + `T_RTO` apart, and each time the oldest packet is sent again: unlike section 5.5 of RFC 6298 asks, the time-out never grows |
| TcpTimingExt.TimeDivergesIff | atomics/network/packettcpsnd_ext.cpp:186-262 | with a nonempty buffer and no input time passes every bound if and only if `INTERPACKET_SND_TIME` or `T_RTO` is positive |
| TcpTimingExt.EmptyBufferRests | atomics/network/packettcpsnd_ext.cpp:159-262 | with an empty buffer the sender rests after at most four internal steps |
| TcpTimingExt.TimeStopsInReach | atomics/network/packettcpsnd_ext.cpp:143-149 | a reachable state, with a forced time-out and a `MIN_RTO` of zero, from which no time ever passes |
| TcpTimingExt.DataPostponesIff | atomics/network/packettcpsnd_ext.cpp:722-728 | while the sender waits for an acknowledgement, any sequence of arriving data delays the time-out if and only if no gap exceeds `T_RTO`; each arrival starts a full wait and nothing is sent |
| TcpTimingExt.TimeoutPostponedForEver | atomics/network/packettcpsnd_ext.cpp:722-728 | for every bound some arrivals postpone the time-out beyond it |
| ReorderBuffer.TcpRcvBuffer.OnDext | atomics/network/TcpRcvBuffer.cpp:30-59 | queue, held packets and timer after an arrival |
| ReorderBuffer.TcpRcvBuffer.ProcessTcpPacket | atomics/network/TcpRcvBuffer.cpp:86-119 | duplicates are dropped, early packets held, the expected one forwarded with everything it frees |
| ReorderBuffer.TcpRcvBuffer.ForwardHeld | atomics/network/TcpRcvBuffer.cpp:100-115 | the loop that forwards held packets while the first key is the expected one |
| ReorderBuffer.TcpRcvBuffer.OnLambda | atomics/network/TcpRcvBuffer.cpp:61-83 | the head of the queue leaves it |
| ReorderBuffer.TcpRcvBuffer.OnDint | atomics/network/TcpRcvBuffer.cpp:22-28 | the timer runs exactly while the queue is nonempty |
| ReorderBuffer.DrainKeepsSorted | atomics/network/TcpRcvBuffer.cpp:100-115 | forwarding ends with the expected number not held, and keeps the stream in sequence and every received packet accounted for |
| ReorderBuffer.ProcessKeepsSorted | atomics/network/TcpRcvBuffer.cpp:86-119 | so does handling any arrival on the grid |
| ReorderBuffer.OrderedPortIsLongestPrefix | atomics/network/TcpRcvBuffer.cpp:86-119 | for every interleaving of outputs and arrivals on the grid, until all its numbers below 2^32 were received, the ordered port carries 1, 1 + MSS, ... once each, the longest contiguous prefix of what was received, each by its earliest copy; exactly the received packets beyond it are held |
| ReorderBuffer.EveryPacketLeavesOnItsPort | atomics/network/TcpRcvBuffer.cpp:30-59 | in every run the other two ports carry, or will carry, exactly the packets that arrived, once each and in order: TCP packets on one, all others on the other |
| ReorderBuffer.PromiseSurvivesIff | atomics/network/TcpRcvBuffer.cpp:88-98 | this survives every further arrival if and only if the longest received prefix of n packets has not run past the last number: 1 + n * MSS < 2^32 |
| ReorderBuffer.OldPacketDeliveredIff | atomics/network/TcpRcvBuffer.cpp:88-98 | beyond that point an arrival is forwarded if and only if it is packet 1 and the expected number has come back to 1 |
| ReorderBuffer.SilentForever | atomics/network/TcpRcvBuffer.cpp:88-98 | when the expected number does not come back to 1, no continuation carries anything on the ordered port again |
| ReorderBuffer.WrapDeliversTwice | atomics/network/TcpRcvBuffer.cpp:88-98 | a run of five arrivals with segments of 2^30 bytes that delivers the first packet twice |
| SharedQueue.RoundedIsLeast | atomics/network/packetSharedQueue.cpp:184-187 | the buffered size is the least multiple of the cell that holds the packet |
| SharedQueue.PacketSharedQueue.OnDext | atomics/network/packetSharedQueue.cpp:71-150 | even ports carry packets, odd ports requests; the whole new state |
| SharedQueue.PacketSharedQueue.OnPacket | atomics/network/packetSharedQueue.cpp:76-131 | admission, accounting and immediate grant |
| SharedQueue.PacketSharedQueue.OnRequest | atomics/network/packetSharedQueue.cpp:132-149 | grant if a packet waits, otherwise a pending request |
| SharedQueue.PacketSharedQueue.OnLambda | atomics/network/packetSharedQueue.cpp:152-175 | the oldest grant takes the head of its port and gives the memory back |
| SharedQueue.PacketSharedQueue.OnDint | atomics/network/packetSharedQueue.cpp:52-60 | the timer is zero exactly while grants are pending |
| SharedQueue.StepKeepsConserved | atomics/network/packetSharedQueue.cpp:85-122 | every event keeps all counters equal to the sums of what is queued and within their limits |
| SharedQueue.BufferIsConserved | atomics/network/packetSharedQueue.cpp:62-175 | after every run each port's own and shared counter and the global one equal the cell-rounded sizes queued, no capacity or quota is exceeded, every port is FIFO, no server waits at a port with a packet, `sigma` is zero exactly when a grant is pending |
| SharedQueue.RefusedIffNoRoom | atomics/network/packetSharedQueue.cpp:62-68 | a packet is refused exactly when what is queued leaves room in neither pool |
| SharedQueue.OwnPoolFirst | atomics/network/packetSharedQueue.cpp:104-113 | in every run an accepted packet goes to the end of its port and is charged to the shared pool exactly when what the port's own pool holds leaves it no room there |
| SharedQueue.AskKeepsCoveredIff | atomics/network/packetSharedQueue.cpp:132-149 | a request keeps every grant backed by a packet if and only if the port is empty or has more packets than grants |
| SharedQueue.GrantsCanFireIff | atomics/network/packetSharedQueue.cpp:152-157 | the pending grants can all be served if and only if every port has a packet for each of its grants |
| SharedQueue.RequestPopsEmptyIff | atomics/network/packetSharedQueue.cpp:132-157 | from every state of every run whose grants are covered, a request leads to a pop of an empty queue by serving the grants if and only if the port has packets but no more of them than grants |
| SharedQueue.StepKeepsOneToken | atomics/network/packetSharedQueue.cpp:124-147 | with disciplined servers each known port has exactly one token: a waiting request, a grant or a packet being served |
| SharedQueue.DisciplinedServersAreServed | atomics/network/packetSharedQueue.cpp:152-157 | when each server asks again only after receiving a packet, no run pops an empty queue: the check asked for in the FIXME at line 154 |
| SharedQueue.EarlyRequestPopsEmptyQueue | atomics/network/packetSharedQueue.cpp:124-157 | without that discipline a run does: one request too early |
| LinkBandwidth.PacketLinkBandwidth.OnDint | atomics/network/packetLinkBandwidth.cpp:25-39 | the head leaves and the countdown restarts for the next packet |
| LinkBandwidth.PacketLinkBandwidth.OnDext | atomics/network/packetLinkBandwidth.cpp:41-60 | a packet is queued and the countdown continues, or starts if the link was idle; other ports are ignored |
| LinkBandwidth.PacketLinkBandwidth.OnLambda | atomics/network/packetLinkBandwidth.cpp:62-68 | the head of the queue is what leaves |
| LinkBandwidth.EveryRunFollowsRecursion | atomics/network/packetLinkBandwidth.cpp:25-60 | in every interleaving, ties included, the k-th packet leaves at D(k) = max(A(k), D(k-1)) + L(k)/bw, a busy link is due exactly at the next D, and no transition is undefined |
| LinkBandwidth.DepartureIsLatest | atomics/network/packetLinkBandwidth.cpp:70-72 | the recursion equals its closed form: the latest of A(j) plus the work from j to k |
| LinkBandwidth.DeparturesAreLindley | atomics/network/packetLinkBandwidth.cpp:25-72 | so every departure of every run has that closed form |
| LinkBandwidth.SentInBits | atomics/network/packetLinkBandwidth.cpp:25-72 | in every run the k-th packet sent is the k-th that arrived, and leaves at the least time by which the link, at its bandwidth, can have served the bits of every stretch of packets j to k since the arrival of j |
| LinkBandwidth.BusyLinkSendsBits | atomics/network/packetLinkBandwidth.cpp:25-72 | in every run each departure ends a busy period of the run: (departure of k - arrival of j) * bandwidth is the sum of the bits of packets j to k, and no packet of the period found the link idle |
| HybridLink.TableIsAfter | atomics/network/hybridizationLink.cpp:36-46 | the transition table has an entry for every mode and state, in the documented order |
| HybridLink.HybridizationLink.OnDint | atomics/network/hybridizationLink.cpp:55-86 | the whole state after each phase |
| HybridLink.HybridizationLink.OnDext | atomics/network/hybridizationLink.cpp:88-109 | a packet is queued; an idle link starts at once |
| HybridLink.HybridizationLink.OnLambda | atomics/network/hybridizationLink.cpp:111-135 | rate, packet, reset, or nothing when another packet waits |
| HybridLink.StepKeepsInv | atomics/network/hybridizationLink.cpp:55-135 | every step keeps: queue nonempty exactly when not waiting, packets handed over once each in order at their time, rate signal as specified, countdown up to the completion |
| HybridLink.RunKeepsInv | atomics/network/hybridizationLink.cpp:55-135 | so in both modes over every run, and no transition is undefined |
| HybridLink.ModesAgree | atomics/network/hybridizationLink.cpp:51-135 | for the same arrivals, none at the instant the packet before completes, both modes have emitted the same rate signal by any time; packet times differ by exactly the packet's service time |
| HybridLink.RatesOfRun | atomics/network/hybridizationLink.cpp:55-135 | the rate signal of every run in either mode is fixed by the arrivals and by which ties were taken arrival first |
| HybridLink.RunInBits | atomics/network/hybridizationLink.cpp:51-148 | in every run the emitted rate rises when a packet begins and falls when one completes, both told by the bits that arrived, and each packet is handed over when it begins or completes, as the mode says |
| HybridLink.ModesAgreeIff | atomics/network/hybridizationLink.cpp:51-135 | for every sequence of arrivals in time order, all pairs of runs of the two modes have emitted the same rate signal by any later time if and only if no packet arrives at the instant the one before it completes |
| HybridLink.TieSplitsModes | atomics/network/hybridizationLink.cpp:111-127 | one such pair, with two packets of one second, written out |
| ExprCompiler.CodeComputesValue | atomics/continuous/mathexpr.cpp:1062-1208 | in front of any other code, the code of a tree pushes its values and nothing else, within the cells allocated for it |
| ExprCompiler.CompilerIsCorrect | atomics/continuous/mathexpr.cpp:1049-1208 | running the code of a well-formed tree leaves exactly its values, consumes `pvals` and `pfuncpile` exactly and stays within `ppile` |
| ExprCompiler.RunStaysInside | atomics/continuous/mathexpr.cpp:1049-1061 | whatever the code, a run that is defined never leaves the cells allocated for it |
| ExprCompiler.OneCellPerOperand | atomics/continuous/mathexpr.cpp:1062-1208 | exactly one cell is allocated for each operand of the code |
| ExprMachine.CountCells | atomics/continuous/mathexpr.cpp:1081-1083 | the scan for the end of a fresh stack finds its size |
| ExprMachine.Splice | atomics/continuous/mathexpr.cpp:1062-1080 | the counting and copying loops join two terminated arrays and add entries |
| ExprMachine.BCDouble | atomics/continuous/mathexpr.cpp:1062-1092 | the arrays of a binary node hold the joined code |
| ExprMachine.BCSimple | atomics/continuous/mathexpr.cpp:1094-1142 | the arrays of a unary node or a call hold the extended code |
| ExprMachine.BuildCode | atomics/continuous/mathexpr.cpp:1144-1208 | the arrays built for a tree hold exactly its code |
| ExprMachine.Val | atomics/continuous/mathexpr.cpp:1049-1061 | the pointer loop returns the value of the tree, whatever the stack was used for before, and leaves the variables and all code as they were |
| ExprMachine.Prepare | atomics/continuous/mathexpr.cpp:110-125 | the code of every user function an expression calls is built once |
| ExprMachine.Evaluate | atomics/continuous/mathexpr.cpp:1049-1061 | one built expression, evaluated for any number of variable values, gives the value of the tree each time |
| ExprMachine.Advance | atomics/continuous/mathexpr.cpp:1049-1061 | one turn of that loop is one instruction of the machine |
| ExprMachine.OperateInPlace | atomics/continuous/mathexpr.cpp:985-1048 | operators work through the stack pointer in place |
| ExprMachine.CallInPlace | atomics/continuous/mathexpr.cpp:1049-1061 | a call replaces its arguments by the result |
| ExprMachine.FuncVal | atomics/continuous/mathexpr.cpp:167-181 | a user function runs the code built for its body with the parameters bound and restores the variables |
| ExprMachine.SaveAndAssign | atomics/continuous/mathexpr.cpp:171-178 | the loop that saves and overwrites the parameters' cells |
| ExprMachine.RestoreUndoesBind | atomics/continuous/mathexpr.cpp:167-181 | restoring undoes binding when the parameters are distinct |
| ExprMachine.RestoredIffDistinct | atomics/continuous/mathexpr.cpp:167-181 | the store is put back for every store and arguments if and only if the parameters are distinct |
| ExprSimplify.NegKeepsMeaning | atomics/continuous/mathexpr.cpp:255-260 | unary minus keeps the value |
| ExprSimplify.FromRealMeaning | atomics/continuous/mathexpr.cpp:199-206 | the conversion from a double keeps its value |
| ExprSimplify.PlusKeepsMeaning | atomics/continuous/mathexpr.cpp:269-278 | `+` keeps the value of the unsimplified sum, errors included; its mutual recursion with `-` ends |
| ExprSimplify.MinusKeepsMeaning | atomics/continuous/mathexpr.cpp:280-289 | `-` likewise |
| ExprSimplify.TimesKeepsMeaning | atomics/continuous/mathexpr.cpp:291-301 | `*` keeps the value wherever the product is defined |
| ExprSimplify.OverKeepsMeaning | atomics/continuous/mathexpr.cpp:303-311 | `/` keeps the value wherever the quotient is defined |
| ExprSimplify.PowerKeepsMeaning | atomics/continuous/mathexpr.cpp:313-321 | `^` keeps the value of a defined power if and only if it is not a base other than the literal 0 that evaluates to zero, raised to the literal 0 (line 315 gives 1, line 1007 gives 0) |
| ExprSimplify.PowerIsNumberIff | atomics/continuous/mathexpr.cpp:1005-1009 | a power of a nonzero number is a number if and only if the base is positive or the exponent an integer; integer powers are repeated products and their inverses |
| Calculus.DerivativeIsUnique | atomics/continuous/mathexpr.cpp:786-801 | the notion of derivative used below determines the derivative |
| Calculus.ProductRule | atomics/continuous/mathexpr.cpp:796 | the product rule, with a bounded quadratic remainder |
| Calculus.QuotientRule | atomics/continuous/mathexpr.cpp:797-798 | the quotient rule at a nonzero divisor |
| Calculus.PowerRule | atomics/continuous/mathexpr.cpp:799-801 | the power rule for natural exponents |
| CalculusChain.ChainRule | atomics/continuous/mathexpr.cpp:802-815 | the chain rule, with a bounded quadratic remainder |
| CalculusChain.IntPowerRule | atomics/continuous/mathexpr.cpp:799-801 | the power rule for every integer exponent at a nonzero base |
| ExprSlopes.EvalStandsStill | atomics/continuous/mathexpr.cpp:714-720 | whatever the operators mean, an expression that does not read a cell, itself or in the body of a function it calls, does not change with it |
| ExprSlopes.ContainsIsLeaf | atomics/continuous/mathexpr.cpp:714-720 | `ContainVar` finds a variable if and only if it is one of the leaves of the tree, those of call arguments included |
| ExprSlopes.NotFoundStandsStill | atomics/continuous/mathexpr.cpp:714-720 | so an expression in which it does not find x, and which calls no function whose body reads x, has the same value for every value of x |
| ExprSlopes.FirstPowerOfZeroIff | atomics/continuous/mathexpr.cpp:799-801 | for a base that is zero and an unmoving exponent that evaluates to one, what `Diff` builds is the derivative if and only if the exponent less one simplifies to the literal 0 or the derivative is zero |
| ExprPrimitives.UnaryValue | atomics/continuous/mathexpr.cpp:802-815 | what `Diff` builds for each function of one argument evaluates to the derivative of the function times that of the argument |
| ExprPrimitives.SlopesOfPrimitive | atomics/continuous/mathexpr.cpp:802-815 | so it is the derivative wherever the function has, at its argument, the derivative that calculus gives it |
| ExprPrimitives.SlopesOfMovingPow | atomics/continuous/mathexpr.cpp:799-800 | for a positive base and an exponent that moves, what `Diff` builds is the derivative |
| ExprDiff.DiffIsDerivative | atomics/continuous/mathexpr.cpp:786-815 | wherever an expression is regular, what `Diff` returns evaluates to the derivative of its value: variables, `+`, `-`, negation, `*`, `/`, powers, roots, powers of ten and the functions of one argument in any composition, around parts in which `ContainVar` does not find the variable, which may be anything whose called functions do not read it either |
| ExprDiff.HiddenReadIsMissed | atomics/continuous/mathexpr.cpp:714-720 | a call whose function reads the variable has derivative 1 where `Diff` returns 0, because `ContainVar` does not look into functions |
| ExprDiff.RootOfNegativeIsMissed | atomics/continuous/mathexpr.cpp:803 | for every literal index n > 1 and every negative value of the variable, the derivative built for the n-th root evaluates to an error, also where line 1014 gives odd roots a value |
| Brackets.SearchCorOpenbracket | atomics/continuous/mathexpr.cpp:392-400 | the first closing position after n, or -1 if there is none |
| Brackets.SearchCorClosebracket | atomics/continuous/mathexpr.cpp:402-410 | the last opening position before n, or -1 if there is none |
| Brackets.SearchesAreInverse | atomics/continuous/mathexpr.cpp:392-410 | from an opening bracket to its closing one and back: each search inverts the other |
| Brackets.SearchOperator | atomics/continuous/mathexpr.cpp:412-433 | on a balanced string the last operator outside all brackets, or -1 if there is none; a minus counts only after a closing bracket |
| Brackets.SplitIsBalanced | atomics/continuous/mathexpr.cpp:412-433 | cutting there leaves two balanced strings |
| WeightedSum.Wsum.OnDext | atomics/continuous/wsum.cpp:39-69 | in every order, the tracked polynomials are those a full second-order model would hold after the input |
| WeightedSum.Wsum.AdvanceLinear | atomics/continuous/wsum.cpp:50-55 | the loop of order 2 over the other ports |
| WeightedSum.Wsum.AdvanceQuadratic | atomics/continuous/wsum.cpp:58-66 | the loop of order 3 over the other ports |
| WeightedSum.Wsum.OnLambda | atomics/continuous/wsum.cpp:70-96 | the emitted value, slope and second coefficient are those of the full-order weighted sum |
| WeightedSum.Wsum.OnDint | atomics/continuous/wsum.cpp:36-38 | nothing but the wait changes |
| WeightedSum.ShiftIsSamePolynomial | atomics/continuous/wsum.cpp:58-66 | advancing a port by e leaves the polynomial itself: for every h, its value at h afterwards is its value at e + h before |
| WeightedSum.WakeUpIsHarmlessIff | atomics/continuous/wsum.cpp:36-38 | a wake-up without input keeps the tracked polynomials current if and only if no time passed or all of them are constant |
| WeightedSum.WakeUpSendsTheSumIff | atomics/continuous/wsum.cpp:36-38 | what a wake-up sends agrees at every later instant with the weighted sum of what the ports received if and only if no time passed or that sum is constant |
| WeightedSum.LongWaitSendsStaleValue | atomics/continuous/wsum.cpp:36-38 | a run in which the output after a long wait is wrong |
| WeightedSum.EveryRunSendsTheSum | atomics/continuous/wsum.cpp:39-96 | over every run whose wake-ups are harmless, the polynomial of each output agrees, h after the sending and for every h, with the sum of k(i) * (x + m * t + p * t * t), t being the time since port i received (x, m, p) |
| QssIntegrator.IntegratorQss.constructor | atomics/continuous/integrator_sci.cpp:19-22 | the initial state and its quantisation |
| QssIntegrator.IntegratorQss.OnDint | atomics/continuous/integrator_sci.cpp:54-63 | state, quantised value and next wait |
| QssIntegrator.IntegratorQss.OnDext | atomics/continuous/integrator_sci.cpp:130-144 | state, new slope and next wait, which stays zero if an output was due |
| QssIntegrator.IntegratorQss.OnLambda | atomics/continuous/integrator_sci.cpp:421-427 | the level sent |
| QssIntegrator.WithinOneQuantum | atomics/continuous/integrator_sci.cpp:54-63 | |X - q| <= dQ at every instant of a wait |
| QssIntegrator.EveryRunStaysWithinOneQuantum | atomics/continuous/integrator_sci.cpp:19-144 | in every run, at and between events, the exact integral of the input is within dQ of the quantised value and `sigma` is never negative |
| QssIntegrator.QuantumTakesTime | atomics/continuous/integrator_sci.cpp:60-62 | after an output the next full quantum takes positive time |
| QssIntegrator.PositiveWaitSendsState | atomics/continuous/integrator_sci.cpp:421-427 | an output after a positive wait equals the state at that instant and the next q |
| QssIntegrator.InputKeepsOutputExact | atomics/continuous/integrator_sci.cpp:130-144 | so does an output that an input made due at once |
| QssIntegrator.SimultaneousInputIsHarmlessIff | atomics/continuous/integrator_sci.cpp:130-144 | a further input at the instant of a due exact output keeps it exact if and only if the direction stays the same |
| QssIntegrator.OutputIsExactIff | atomics/continuous/integrator_sci.cpp:130-144 | in every run: an output after a positive wait is the state; one sent at once is so if and only if the direction is still that of the input that made it due; the very first one if and only if X0 is a multiple of dQ and no nonzero input came before it |
| QssIntegrator.FirstOutputMayBeWrong | atomics/continuous/integrator_sci.cpp:19-22 | started at one half with a quantum of one, the model first sends 0 although its state and next q are one half |
| QssIntegrator.OutputError | atomics/continuous/integrator_sci.cpp:421-427 | no output is further than 2 dQ from the state |
| QssIntegrator.ReversalSendsTheWrongLevel | atomics/continuous/integrator_sci.cpp:130-144 | a run that reaches that bound: the input reverses at the instant of a due output |

## Left out

- Rounding, overflow and special values of `double`: reals are ideal. The magnitude clamps of the operators in
  `mathexpr` and its transcendental functions are parameters of the compiler results.
- Logging, parameter reading, packet contents beyond what a transition reads, fields that are only written, and the
  disabled experimental load factor of the TCP senders (`NchangeFactor`).
- Address, port and route validation in the TCP models: packets are taken to be addressed to the session. The round
  trip measured from echoed time stamps is arbitrary.
- Sequence numbers of the base TCP pair are ideal integers; wrap-around is modelled in the extended pair only.
- In the base receiver a packet that arrives before the previous acknowledgement left throws; such an arrival ends
  the run and is not an enabled event.
- In the extended pair, runs with 2^32 or more buffered bytes or with stale messages beyond what
  `TcpSenderExt.FullSpaceRefusesEverything`, `TcpSystemExt.StaleAckMisread`, `TcpSystemExt.DataMistakenIff` and the runs
  of `TcpSessionsExt` say. The overflow flag of the extended receiver compares an unsigned number with zero, never fires, and is not
  modelled. The bound for congestion marks is stored modulo 2^32, where C++ leaves the conversion of a `double` beyond
  that range undefined. The counter of duplicates and the threshold do not wrap. A window of zero, which a cap or a
  threshold of zero allows, is not grown, where C++ would divide by it.
- Sender and receiver of a TCP pair keep separate clocks: no common time is kept, and measured round trips are arbitrary.
  Every run with a common clock is one of the runs here, so what holds of all runs is not affected. That some
  continuation releases a packet (TcpProgress.ProgressIffNotWedged, TcpSystemExt.AlwaysCanRelease) and the sample runs
  are not shown for a common clock.
- TcpProgress.ProgressIffNotWedged: the releasing continuation is not shown to exist under a common clock.
- TcpSystemExt.AlwaysCanRelease: likewise.
- ReorderBuffer.TcpRcvBuffer.OnLambda: on the ordered port the last fragment of a packetised message is swapped for the
  original packet and the other fragments produce no output; the model forwards every queued packet as it is.
- `TcpRcvBuffer`: the protocol class that decides the port split is not part of this model, so packets come in already
  classified; sequence numbers off the sender's grid and segment sizes below one are not considered in the results.
- `packetSharedQueue`: a cell size of zero bits (division by zero); the length of a queued packet does not change.
- `packetLinkBandwidth`, `hybridizationLink`: a bandwidth that is not positive.
- `LinkBandwidth.EveryRunFollowsRecursion`: events on ports other than 0, which reset the elapsed time without moving
  the countdown.
- `mathexpr`: recursive functions, multi-valued function bodies, the per-component functions of `NthMember`, copying and
  destruction of trees, `Substitute`, and the string parser. Code is built with freshly built children, because the scan
  at line 1081 stops at an error value left in a used stack. The buffer in which a function saves its parameters is
  local to the call.
- ExprDiff.DiffIsDerivative: argument lists, the arc tangent of two arguments and calls that contain the variable. That
  roots, logarithms, exponentials and trigonometric functions themselves have the derivatives calculus gives them, that
  powers of positive numbers are exponentials, and that a root or a power of ten agrees with the power it is rewritten
  to, are conditions at the point of the derivative. Variables are told apart by their cell, not also by their name.
- Brackets.SearchCorClosebracket: positions beyond the end of the string, where the C function reads past it.
- `wsum`: input vectors with fewer than three entries, and more than eight ports.
- `integrator_sci`: the methods QSS2, QSS3, BQSS and CQSS. Its infinite wait, 1e20 in `src/engine/common/vars.h`, does
  not end.
- The composition of models through the coordinator, beyond the channels above; selectors, forwarders, samplers, other
  queues, hardware acquisition and the remaining atomic models.

