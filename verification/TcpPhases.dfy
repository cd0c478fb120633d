/** The phases of the basic sender, event by event: what it puts out, when it acts next, which packet a measuring cycle
    waits for, and what the acknowledgement that closes the cycle teaches it. Each statement gives the whole change. */
module TcpPhases {
  import opened Devs
  import opened TcpSender
  import opened TcpReceiver
  import opened TcpSystem
  import opened TcpReactions

  /** The lower bound of the time-out in seconds. */
  const LEAST_TIMEOUT := 0.2

  /** The time-out that an estimated round trip and its deviation call for, unless it is forced. */
  ghost predicate IsTimeout(p: Params, rto: real, rtt: real, deviation: real) {
    && rto >= LEAST_TIMEOUT
    && (p.forcedRto >= 0.0 ==> rto == LEAST_TIMEOUT > p.forcedRto || rto == p.forcedRto)
    && (p.forcedRto < 0.0 ==> rto == LEAST_TIMEOUT > rtt + 4.0 * deviation || rto == rtt + 4.0 * deviation)
  }

  /** A session begins by asking the application for data, at once, with a window of one packet. */
  lemma SessionBegins(p: Params)
    ensures var s := Start(p).snd;
            && Enabled(p, Start(p), SenderFires) && s.sigma == Finite(0.0) && Lambda(s) == Defined((Request, s))
            && s.buffer == [] && s.cwnd == 1.0 && s.threshold == p.initialThreshold && s.dupAcks == 0
            && s.rtt == p.initialRtt && s.rttDeviation == 0.0 && IsTimeout(p, s.rto, p.initialRtt, 0.0)
            && s.lastValidAck == 1 && s.nextToSend == 0 && s.cycleAck == 0
  {
  }

  /** The packet at the pointer may go: the pointer is inside the buffer and inside the window. */
  predicate MaySend(s: Sender) {
    1 <= s.nextToSend <= |s.buffer| && s.nextToSend as real <= s.cwnd
  }

  /** Only a sender that asks puts out a request, only one that sends puts out a packet, the one at its pointer. */
  lemma OutputOfPhase(p: Params, s: System)
    requires p.Valid() && Inv(p, s)
    ensures var out := Lambda(s.snd);
            && out.Defined?
            && out.value.0 == (match s.snd.phase
                               case RequestApp => Request
                               case Sending =>
                                 if MaySend(s.snd) then Segment(s.snd.buffer[s.snd.nextToSend - 1]) else Nothing
                               case _ => Nothing)
  {
  }

  /** At the end of its timer. A sender that asked waits for the application; with data it sends a packet every
      INTERPACKET_SND_TIME while window and buffer allow, then waits for an acknowledgement as long as the time-out
      says; without data it waits for the application for good. The first packet sent after a cycle was closed, or
      broken off, starts the next one. */
  lemma FiringOfPhase(p: Params, s: System)
    requires p.Valid() && Inv(p, s) && Enabled(p, s, SenderFires) && !s.snd.phase.WaitAck?
    ensures Apply(p, s, SenderFires).Defined?
    ensures var t, u := Apply(p, s, SenderFires).value.snd, s.snd;
            match u.phase
            case RequestApp => t == u.(phase := WaitApp, sigma := Finite(p.interRequestTime))
            case WaitApp =>
              t == if u.buffer == [] then u.(sigma := Infinite)
                   else u.(phase := Sending, sigma := Finite(p.interpacketTime))
            case Sending =>
              if MaySend(u) then
                var packet := u.buffer[u.nextToSend - 1];
                t == u.(nextToSend := u.nextToSend + 1, sigma := Finite(p.interpacketTime), lastSent := Some(packet),
                        cycleAck := if u.cycleAck == 0 then packet.seqNumber + p.segmentSize else u.cycleAck)
              else
                && u.lastSent.Some?
                && t == u.(phase := WaitAck, sigma := Finite(u.rto),
                           cycleAck := if u.cycleAck == 0 then u.lastSent.value.seqNumber + p.segmentSize else u.cycleAck)
            case WaitAck => true
  {
    StepKeepsInv(p, s, SenderFires);
    hide SeqOf;
  }

  /** New data goes to the end of the buffer. It wakes a sender that waits for the application: to ask for more while
      the window has room, and to send otherwise; any other timer keeps running. */
  lemma DataOfPhase(p: Params, s: System, payload: int, e: real)
    requires p.Valid() && Inv(p, s) && Enabled(p, s, Submit(payload, e))
    ensures Apply(p, s, Submit(payload, e)).Defined?
    ensures var t, u := Apply(p, s, Submit(payload, e)).value.snd, s.snd;
            && t == u.(buffer := u.buffer + [Packet(SeqOf(p, |s.submitted|), payload)],
                       nextSeq := SeqOf(p, |s.submitted| + 1),
                       nextToSend := if u.buffer == [] then 1 else u.nextToSend, phase := t.phase, sigma := t.sigma)
            && if u.phase.WaitApp? then
                 if (|u.buffer| + 1) as real < u.cwnd then t.phase.RequestApp? && t.sigma == Finite(0.0)
                 else t.phase.Sending? && t.sigma == Finite(p.interpacketTime)
               else t.phase == u.phase && t.sigma == u.sigma.Minus(e)
  {
    SeqOfOrder(p, 0, |s.submitted|);
    hide SeqOf;
  }

  /** The expected acknowledgement makes a sender that waits for it ask for data, at once; one at the duplicate limit
      makes it send; any other timer keeps running, except that a sender waiting for the application starts its timer
      again. */
  lemma AckOfPhase(p: Params, s: System, ack: int, marked: bool, measuredRtt: real, e: real)
    requires p.Valid() && Inv(p, s) && Enabled(p, s, DeliverAck(ack, marked, measuredRtt, e))
    ensures Apply(p, s, DeliverAck(ack, marked, measuredRtt, e)).Defined?
    ensures var t, u := Apply(p, s, DeliverAck(ack, marked, measuredRtt, e)).value.snd, s.snd;
            && t.lastSent == u.lastSent && t.nextSeq == u.nextSeq
            && if u.phase.WaitAck? && ack == u.expectedAck then t.phase.RequestApp? && t.sigma == Finite(0.0)
               else if u.phase.WaitAck? && AtLimit(p, u, ack) then t.phase.Sending? && t.sigma == Finite(p.interpacketTime)
               else t.phase == u.phase && t.sigma == if u.phase.WaitApp? then u.sigma else u.sigma.Minus(e)
  {
    StepKeepsInv(p, s, DeliverAck(ack, marked, measuredRtt, e));
    if ack == s.snd.expectedAck {
      ExpectedMeansAccepted(p, s);
    }
    hide Inv, Smooth, Grown, NextEcn, Trunc, Rto;
  }

  /** Outside recovery the expected acknowledgement releases the head, and nothing else changes unless it lies inside
      the measured cycle; then the round trip and its deviation move towards what was measured, the time-out follows
      them, the window grows, and the cycle is closed. */
  lemma ExpectedAckTeaches(p: Params, s: System, measuredRtt: real, e: real)
    requires p.Valid() && Inv(p, s) && Enabled(p, s, DeliverAck(s.snd.expectedAck, false, measuredRtt, e))
    requires s.snd.dupAcks < p.dupAckLimit
    ensures Apply(p, s, DeliverAck(s.snd.expectedAck, false, measuredRtt, e)).Defined? && s.snd.buffer != []
    ensures var t, u := Apply(p, s, DeliverAck(s.snd.expectedAck, false, measuredRtt, e)).value.snd, s.snd;
            && t == u.(buffer := u.buffer[1..], lastValidAck := u.expectedAck, expectedAck := u.expectedAck + p.segmentSize,
                       nextToSend := if u.nextToSend <= 2 then 1 else u.nextToSend - 1, dupAcks := 0,
                       phase := t.phase, sigma := t.sigma,
                       rtt := t.rtt, rttDeviation := t.rttDeviation, rto := t.rto, cwnd := t.cwnd, cycleAck := t.cycleAck)
            && if u.expectedAck <= u.cycleAck then
                 && Moved(p.rttAlfa, u.rtt, measuredRtt, t.rtt)
                 && Moved(p.rttAlfa, u.rttDeviation, AbsReal(t.rtt - measuredRtt), t.rttDeviation)
                 && IsTimeout(p, t.rto, t.rtt, t.rttDeviation) && t.cycleAck == 0
                 && (u.cwnd < u.threshold as real ==> t.cwnd == u.cwnd + 1.0)
                 && (u.cwnd >= u.threshold as real && u.cwnd != 0.0 ==> (t.cwnd - u.cwnd) * u.cwnd == 1.0)
               else
                 && t.rtt == u.rtt && t.rttDeviation == u.rttDeviation && t.rto == u.rto && t.cwnd == u.cwnd
                 && t.cycleAck == u.cycleAck
  {
    StepKeepsInv(p, s, DeliverAck(s.snd.expectedAck, false, measuredRtt, e));
    ExpectedMeansAccepted(p, s);
    hide Inv, NextEcn, Trunc;
    GrowthStep(s.snd.cwnd, s.snd.threshold);
    SmoothMoves(p.rttAlfa, s.snd.rtt, measuredRtt);
    var rtt := Smooth(p.rttAlfa, s.snd.rtt, measuredRtt);
    SmoothMoves(p.rttAlfa, s.snd.rttDeviation, AbsReal(rtt - measuredRtt));
    TimeoutOf(p, rtt, Smooth(p.rttAlfa, s.snd.rttDeviation, AbsReal(rtt - measuredRtt)));
    hide Smooth, Grown, Rto, IsTimeout, Moved;
  }

  /** The average keeps `alfa` of its distance from the sample. */
  ghost predicate Moved(alfa: real, average: real, sample: real, moved: real) {
    moved - sample == alfa * (average - sample)
  }

  lemma SmoothMoves(alfa: real, average: real, sample: real)
    ensures Moved(alfa, average, sample, Smooth(alfa, average, sample))
  {
  }

  lemma TimeoutOf(p: Params, rtt: real, deviation: real)
    ensures IsTimeout(p, Rto(p, rtt, deviation), rtt, deviation)
  {
  }

  lemma GrowthStep(cwnd: real, threshold: int)
    ensures cwnd < threshold as real ==> Grown(cwnd, threshold) == cwnd + 1.0
    ensures cwnd >= threshold as real && cwnd != 0.0 ==> (Grown(cwnd, threshold) - cwnd) * cwnd == 1.0
  {
    if cwnd >= threshold as real && cwnd != 0.0 {
      var q := 1.0 / cwnd;
      assert q * cwnd == 1.0;
    }
  }
}
