/** The phases of the extended sender, event by event: what it puts out, when it acts next, and what an acknowledgement
    for several packets teaches it. Each statement gives the whole change. */
module TcpPhasesExt {
  import opened Devs
  import opened Seq32
  import opened TcpSender
  import opened TcpSenderExt
  import opened TcpSystemExt
  import opened TcpReactionsExt
  import TcpPhases

  /** The time-out that an estimated round trip and its deviation call for, unless it is forced. */
  ghost predicate IsTimeout(p: ExtParams, rto: real, rtt: real, deviation: real) {
    var wanted := if p.base.forcedRto >= 0.0 then p.base.forcedRto else rtt + 4.0 * deviation;
    rto >= p.minRto && rto >= wanted && (rto == p.minRto || rto == wanted)
  }

  lemma TimeoutOf(p: ExtParams, rtt: real, deviation: real)
    ensures IsTimeout(p, ExtRto(p, rtt, deviation), rtt, deviation)
  {
  }

  /** A session begins by asking the application for data, at once, with a window of one packet. */
  lemma SessionBegins(c: Session)
    ensures var s := Start(c).snd;
            && Enabled(c, Start(c), SenderFires) && s.sigma == Finite(0.0) && ExtLambda(s) == Defined(Request)
            && s.buffer == [] && s.cwnd == 1.0 && s.threshold == c.p.base.initialThreshold && s.dupAcks == 0
            && s.rtt == c.p.base.initialRtt && s.rttDeviation == 0.0 && IsTimeout(c.p, s.rto, c.p.base.initialRtt, 0.0)
            && s.lastValidAck == 1 && s.nextToSend == 0 && s.ecnFrom == MODULUS - 1
  {
  }

  /** The packet at the pointer may go: the pointer is inside the buffer and inside the window. */
  predicate MaySend(s: ExtSender) {
    1 <= s.nextToSend <= |s.buffer| && s.nextToSend as real <= s.cwnd
  }

  /** Only a sender that asks puts out a request, only one that sends puts out a packet, the one at its pointer. */
  lemma OutputOfPhase(c: Session, s: System)
    requires c.Valid() && Inv(c, s)
    ensures ExtLambda(s.snd)
            == Defined(match s.snd.phase
                       case RequestApp => Request
                       case Sending => if MaySend(s.snd) then Segment(s.snd.buffer[s.snd.nextToSend - 1]) else Nothing
                       case _ => Nothing)
  {
    hide Bytes, Wire;
  }

  /** At the end of its timer. A sender that asked waits for the application; with data it sends a packet every
      INTERPACKET_SND_TIME while window and buffer allow, then waits for an acknowledgement as long as the time-out
      says; without data it waits for the application for good. */
  lemma FiringOfPhase(c: Session, s: System)
    requires c.Valid() && Inv(c, s) && Enabled(c, s, SenderFires) && !s.snd.phase.WaitAck?
    ensures Apply(c, s, SenderFires).Defined?
    ensures var t, u, p := Apply(c, s, SenderFires).value.snd, s.snd, c.p.base;
            match u.phase
            case RequestApp => t == u.(phase := WaitApp, sigma := Finite(p.interRequestTime))
            case WaitApp =>
              t == if u.buffer == [] then u.(sigma := Infinite)
                   else u.(phase := Sending, sigma := Finite(p.interpacketTime))
            case Sending =>
              t == if MaySend(u) then u.(nextToSend := u.nextToSend + 1, sigma := Finite(p.interpacketTime))
                   else u.(phase := WaitAck, sigma := Finite(u.rto))
            case WaitAck => true
  {
    SenderFiresKeepsInv(c, s);
    BufferIsShort(c.p, |s.snd.buffer|);
    if s.snd.nextToSend <= |s.snd.buffer| {
      WrapSmall(s.snd.nextToSend + 1);
    }
    hide Bytes, Wire, Wrap;
  }

  /** New data goes to the end of the buffer. It wakes a sender that waits for the application: to ask for more if the
      window has room and the upper queue has more, and to send otherwise; while the sender waits for an acknowledgement
      it starts the wait again; any other timer keeps running. */
  lemma DataOfPhase(c: Session, s: System, payload: int, upperQueue: real, e: real)
    requires c.Valid() && Inv(c, s) && Enabled(c, s, Submit(payload, upperQueue, e))
    ensures Apply(c, s, Submit(payload, upperQueue, e)).Defined?
    ensures var t, u := Apply(c, s, Submit(payload, upperQueue, e)).value.snd, s.snd;
            && t == u.(buffer := u.buffer + [Packet(Wire(c.p, |s.submitted|), payload)],
                       nextSeq := Wire(c.p, |s.submitted| + 1),
                       nextToSend := if u.buffer == [] then 1 else u.nextToSend, phase := t.phase, sigma := t.sigma)
            && if u.phase.WaitApp? then
                 if (|u.buffer| + 1) as real < u.cwnd && upperQueue > 0.0 then
                   t.phase.RequestApp? && t.sigma == Finite(0.0)
                 else t.phase.Sending? && t.sigma == Finite(c.p.base.interpacketTime)
               else t.phase == u.phase && t.sigma == if u.phase.WaitAck? then Finite(u.rto) else u.sigma.Minus(e)
  {
    WireStep(c.p, |s.submitted|, 1);
    BytesOrder(c.p, 1, 1);
    hide Bytes, Wire, Wrap;
  }

  /** A new acknowledgement makes a sender that waits for one ask for data, at once; one at the duplicate limit makes it
      send; any other timer keeps running. */
  lemma AckOfPhase(c: Session, s: System, m: AckMessage, marked: bool, measuredRtt: real, e: real)
    requires c.Valid() && Inv(c, s) && Enabled(c, s, DeliverAck(m, marked, measuredRtt, e))
    ensures Apply(c, s, DeliverAck(m, marked, measuredRtt, e)).Defined?
    ensures var t, u := Apply(c, s, DeliverAck(m, marked, measuredRtt, e)).value.snd, s.snd;
            && t.nextSeq == u.nextSeq
            && if u.phase.WaitAck? && m.upTo > |s.released| then t.phase.RequestApp? && t.sigma == Finite(0.0)
               else if u.phase.WaitAck? && AtLimitExt(c.p, s, m) then
                 t.phase.Sending? && t.sigma == Finite(c.p.base.interpacketTime)
               else t.phase == u.phase && t.sigma == u.sigma.Minus(e)
  {
    StepKeepsInv(c, s, DeliverAck(m, marked, measuredRtt, e));
    OldIsNotAcceptable(c, s, m);
    if m.upTo > |s.released| {
      LoopKeepsRest(c.p, s.snd, m.ack, measuredRtt);
      LoopKeepsNextSeq(c.p, s.snd, m.ack, measuredRtt);
    }
    hide Inv, Acceptable, FreshAck, ReleaseAll, ExtNextEcn, Trunc, AtLimitExt, ExtLimitReached;
  }

  lemma {:induction false} LoopKeepsNextSeq(p: ExtParams, s: ExtSender, ack: U32, measuredRtt: real)
    requires ReleaseAll(p, s, ack, measuredRtt).Defined?
    ensures ReleaseAll(p, s, ack, measuredRtt).value.nextSeq == s.nextSeq
    decreases |s.buffer|
  {
    hide Smooth, Grown, ExtRto, CheckWindow, Wrap;
    if Acceptable(p, s, ack) {
      LoopKeepsNextSeq(p, ReleaseOne(p, s, ack, measuredRtt), ack, measuredRtt);
    }
  }

  // ----- what the turns of the loop teach -----

  /** What one released packet changes. */
  datatype Lesson = Lesson(rtt: real, rttDeviation: real, rto: real, cwnd: real)

  function LessonOf(s: ExtSender): Lesson {
    Lesson(s.rtt, s.rttDeviation, s.rto, s.cwnd)
  }

  /** In recovery the window becomes the threshold; outside it round trip and deviation move towards what was measured,
      the time-out follows them, and the window grows. */
  ghost predicate Teaches(p: ExtParams, threshold: int, measuredRtt: real, recovering: bool, u: Lesson, t: Lesson) {
    if recovering then t == u.(cwnd := threshold as real)
    else
      && TcpPhases.Moved(p.base.rttAlfa, u.rtt, measuredRtt, t.rtt)
      && TcpPhases.Moved(p.base.rttAlfa, u.rttDeviation, AbsReal(t.rtt - measuredRtt), t.rttDeviation)
      && IsTimeout(p, t.rto, t.rtt, t.rttDeviation)
      && (u.cwnd < threshold as real ==> t.cwnd == u.cwnd + 1.0)
      && (u.cwnd >= threshold as real && u.cwnd != 0.0 ==> (t.cwnd - u.cwnd) * u.cwnd == 1.0)
  }

  lemma TurnTeaches(p: ExtParams, s: ExtSender, ack: U32, measuredRtt: real)
    requires s.buffer != []
    ensures var t := ReleaseOne(p, s, ack, measuredRtt);
            && Teaches(p, s.threshold, measuredRtt, s.dupAcks >= p.base.dupAckLimit, LessonOf(s), LessonOf(t))
            && t.threshold == s.threshold && t.dupAcks == 0 && t.lastValidAck == ack
            && (s.nextToSend >= 1 ==> t.nextToSend == if s.nextToSend == 1 then 1 else s.nextToSend - 1)
  {
    TcpPhases.GrowthStep(s.cwnd, s.threshold);
    var alfa, rtt := p.base.rttAlfa, Smooth(p.base.rttAlfa, s.rtt, measuredRtt);
    TcpPhases.SmoothMoves(alfa, s.rtt, measuredRtt);
    TcpPhases.SmoothMoves(alfa, s.rttDeviation, AbsReal(rtt - measuredRtt));
    TimeoutOf(p, rtt, Smooth(alfa, s.rttDeviation, AbsReal(rtt - measuredRtt)));
    WrapSmall(s.nextToSend - 1);
    hide Smooth, Grown, ExtRto, IsTimeout, TcpPhases.Moved, Wrap;
  }

  /** The lessons of one acknowledgement, one for each packet it releases; only the first can be in recovery, unless
      the limit is zero. */
  ghost predicate Lessons(p: ExtParams, threshold: int, measuredRtt: real, dupAcks: int, lessons: seq<Lesson>) {
    forall i :: 0 <= i < |lessons| - 1 ==>
      Teaches(p, threshold, measuredRtt, (if i == 0 then dupAcks else 0) >= p.base.dupAckLimit, lessons[i], lessons[i + 1])
  }

  lemma {:induction false} LoopTeaches(p: ExtParams, s: ExtSender, ack: U32, measuredRtt: real)
    returns (lessons: seq<Lesson>)
    requires ReleaseAll(p, s, ack, measuredRtt).Defined? && (s.buffer != [] ==> s.nextToSend >= 1)
    ensures var t := ReleaseAll(p, s, ack, measuredRtt).value;
            && t.nextToSend == (if Acceptable(p, s, ack) then MaxInt(1, s.nextToSend - |s.buffer| + |t.buffer|)
                                else s.nextToSend)
            && |t.buffer| <= |s.buffer| && |lessons| == |s.buffer| - |t.buffer| + 1
            && lessons[0] == LessonOf(s) && lessons[|lessons| - 1] == LessonOf(t)
            && Lessons(p, s.threshold, measuredRtt, s.dupAcks, lessons) && t.threshold == s.threshold
            && (Acceptable(p, s, ack) ==> t.dupAcks == 0 && t.lastValidAck == ack)
            && (!Acceptable(p, s, ack) ==> t.dupAcks == s.dupAcks && t.lastValidAck == s.lastValidAck)
    decreases |s.buffer|
  {
    hide Teaches, CheckWindow, Wrap, ReleaseOne;
    if Acceptable(p, s, ack) {
      KeepsBuffer(p, s, ack, measuredRtt);
      TurnTeaches(p, s, ack, measuredRtt);
      var rest := LoopTeaches(p, ReleaseOne(p, s, ack, measuredRtt), ack, measuredRtt);
      lessons := [LessonOf(s)] + rest;
    } else {
      lessons := [LessonOf(s)];
    }
  }

  /** Main result: a new acknowledgement releases what it covers, repeats its lesson once for each released packet, and
      becomes the number that duplicates repeat. */
  lemma NewAckTeaches(c: Session, s: System, m: AckMessage, measuredRtt: real, e: real) returns (lessons: seq<Lesson>)
    requires c.Valid() && Inv(c, s) && Enabled(c, s, DeliverAck(m, false, measuredRtt, e)) && m.upTo > |s.released|
    ensures Apply(c, s, DeliverAck(m, false, measuredRtt, e)).Defined?
    ensures var t, u, n := Apply(c, s, DeliverAck(m, false, measuredRtt, e)).value.snd, s.snd, m.upTo - |s.released|;
            && n <= |u.buffer| && t.buffer == u.buffer[n..] && |lessons| == n + 1
            && lessons[0] == LessonOf(u) && lessons[n] == LessonOf(t)
            && Lessons(c.p, u.threshold, measuredRtt, u.dupAcks, lessons)
            && t.threshold == u.threshold && t.dupAcks == 0 && t.lastValidAck == m.ack && t.ecnFrom == u.ecnFrom
            && t.nextToSend == if u.nextToSend <= n then 1 else u.nextToSend - n
  {
    var count := m.upTo - |s.released|;
    FreshAckDecided(c, s, m);
    SenderIsAligned(c, s);
    BytesStep(c.p, count);
    LoopReleases(c.p, s.snd, m.ack, measuredRtt, count);
    LoopKeepsLimit(c.p, s.snd, m.ack, measuredRtt);
    lessons := LoopTeaches(c.p, s.snd, m.ack, measuredRtt);
    StepKeepsInv(c, s, DeliverAck(m, false, measuredRtt, e));
    hide Inv, Acceptable, FreshAck, ReleaseAll, Lessons, ExtNextEcn, Trunc, ExtLimitReached;
  }
}
