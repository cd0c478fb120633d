/** What the basic pair does about losses and congestion, event by event: duplicate acknowledgements, fast
    retransmit, fast recovery, congestion marks and time-outs. */
module TcpReactions {
  import opened Devs
  import opened TcpSender
  import opened TcpReceiver
  import opened TcpSystem
  import opened TcpProgress

  /** Half of a window in whole packets, at least one. */
  predicate HalfOf(n: int, w: real) {
    if w < 2.0 then n == 1 else 2.0 * n as real <= w < 2.0 * (n + 1) as real
  }

  lemma TruncatedHalf(w: real)
    ensures HalfOf(MaxInt(1, Trunc(w / 2.0)), w)
  {
  }

  lemma ReachableIsSound(p: Params, s: System)
    requires p.Valid() && Reachable(p, s)
    ensures Inv(p, s)
  {
    hide Inv, Runs;
    var evs :| Runs(p, Start(p), evs, s);
    StartInv(p);
    RunKeepsInv(p, Start(p), evs, s);
  }

  // ----- duplicates -----

  /** The acknowledgement repeats the last one accepted. */
  predicate Repeats(s: Sender, ack: int) {
    ack == s.lastValidAck && ack != s.expectedAck
  }

  /** It is the duplicate that reaches the limit, or one after that. */
  predicate AtLimit(p: Params, s: Sender, ack: int) {
    Repeats(s, ack) && (s.dupAcks + 1 == p.dupAckLimit || (s.dupAcks + 1 > p.dupAckLimit && ack > 0))
  }

  /** A duplicate below the limit is only counted, an acknowledgement that is neither expected nor a duplicate not
      even that. */
  lemma OtherAckIsCounted(p: Params, s: System, ack: int, measuredRtt: real, e: real)
    requires p.Valid() && Inv(p, s) && Enabled(p, s, DeliverAck(ack, false, measuredRtt, e))
    requires ack != s.snd.expectedAck && !AtLimit(p, s.snd, ack)
    ensures var t := Apply(p, s, DeliverAck(ack, false, measuredRtt, e));
            && t.Defined?
            && t.value == s.(snd := s.snd.(dupAcks := if Repeats(s.snd, ack) then s.snd.dupAcks + 1 else s.snd.dupAcks,
                                           sigma := t.value.snd.sigma))
            && (s.snd.phase.WaitApp? || t.value.snd.sigma == s.snd.sigma.Minus(e))
  {
    StepKeepsInv(p, s, DeliverAck(ack, false, measuredRtt, e));
    hide Inv, Trunc, NextEcn;
    assert s.released + [] == s.released;
  }

  /** The duplicate that reaches the limit: the threshold becomes half the window, the window that half and three
      packets more, and a sender waiting for acknowledgements goes back to sending. */
  lemma FastRetransmitEffect(p: Params, s: System, ack: int, marked: bool, measuredRtt: real, e: real)
    requires p.Valid() && Inv(p, s) && Enabled(p, s, DeliverAck(ack, marked, measuredRtt, e))
    requires Repeats(s.snd, ack) && s.snd.dupAcks + 1 == p.dupAckLimit
    ensures var t := Apply(p, s, DeliverAck(ack, marked, measuredRtt, e));
            && t.Defined? && Inv(p, t.value) && t.value == s.(snd := t.value.snd)
            && HalfOf(t.value.snd.threshold, s.snd.cwnd)
            && 2.0 * t.value.snd.cwnd == AbsReal(s.snd.cwnd) + 6.0
            && t.value.snd.dupAcks == p.dupAckLimit && t.value.snd.buffer == s.snd.buffer
            && t.value.snd.nextToSend == 1 && t.value.snd.cycleAck == 0
            && t.value.snd.phase == if s.snd.phase.WaitAck? then Sending else s.snd.phase
  {
    StepKeepsInv(p, s, DeliverAck(ack, marked, measuredRtt, e));
    TruncatedHalf(s.snd.cwnd);
    hide Inv, Trunc, NextEcn, HalfOf;
    assert s.released + [] == s.released;
  }

  lemma SenderSendsHead(p: Params, s: System)
    requires p.Valid() && Inv(p, s) && s.snd.buffer != [] && s.snd.phase.Sending? && s.snd.nextToSend == 1
    requires s.snd.cwnd >= 1.0
    ensures Enabled(p, s, SenderFires)
    ensures var t := Apply(p, s, SenderFires);
            && t.Defined? && t.value.dataChannel == s.dataChannel + {s.snd.buffer[0]}
            && t.value.snd.buffer == s.snd.buffer && t.value.snd.nextToSend == 2
  {
    hide Internal;
    InternalEffect(p, s.snd);
  }

  /** Main result: in every reachable state with something in the buffer, whether the sender is sending or waiting for
      an acknowledgement, the duplicate that reaches the limit makes it send the oldest packet again, next. */
  lemma FastRetransmitSendsHead(p: Params, s: System, ack: int, marked: bool, measuredRtt: real, e: real)
    requires p.Valid() && Reachable(p, s) && Enabled(p, s, DeliverAck(ack, marked, measuredRtt, e))
    requires Repeats(s.snd, ack) && s.snd.dupAcks + 1 == p.dupAckLimit
    requires s.snd.buffer != [] && s.snd.phase in {Sending, WaitAck}
    ensures Apply(p, s, DeliverAck(ack, marked, measuredRtt, e)).Defined?
    ensures var t := Apply(p, s, DeliverAck(ack, marked, measuredRtt, e)).value;
            && Enabled(p, t, SenderFires) && Apply(p, t, SenderFires).Defined?
            && Apply(p, t, SenderFires).value.dataChannel == s.dataChannel + {s.snd.buffer[0]}
  {
    ReachableIsSound(p, s);
    hide Reachable, Inv, Apply, HalfOf;
    FastRetransmitEffect(p, s, ack, marked, measuredRtt, e);
    SenderSendsHead(p, Apply(p, s, DeliverAck(ack, marked, measuredRtt, e)).value);
  }

  /** So as many duplicates as the limit says, one after the other, end in a retransmission. */
  lemma {:induction false} DuplicatesRetransmitHead(p: Params, s: System, ack: int) returns (evs: seq<Event>, t: System)
    requires p.Valid() && Inv(p, s) && ack in s.ackChannel && Repeats(s.snd, ack) && s.snd.dupAcks < p.dupAckLimit
    requires s.snd.buffer != [] && s.snd.phase in {Sending, WaitAck}
    ensures Runs(p, s, evs, t) && |evs| == p.dupAckLimit - s.snd.dupAcks + 1
    ensures forall i :: 0 <= i < |evs| - 1 ==> evs[i] == DeliverAck(ack, false, 0.0, 0.0)
    ensures evs[|evs| - 1] == SenderFires && t.dataChannel == s.dataChannel + {s.snd.buffer[0]}
    decreases p.dupAckLimit - s.snd.dupAcks
  {
    hide Inv, Runs, HalfOf;
    var ev := DeliverAck(ack, false, 0.0, 0.0);
    assert Enabled(p, s, ev) by {
      TimerAllowsNow(p, s);
    }
    var u := OneStep(p, s, ev);
    if s.snd.dupAcks + 1 == p.dupAckLimit {
      FastRetransmitEffect(p, s, ack, false, 0.0, 0.0);
      SenderSendsHead(p, u);
      t := OneStep(p, u, SenderFires);
      evs := [ev] + [SenderFires];
      RunsThen(p, s, [ev], u, [SenderFires], t);
    } else {
      OtherAckIsCounted(p, s, ack, 0.0, 0.0);
      var rest;
      rest, t := DuplicatesRetransmitHead(p, u, ack);
      evs := [ev] + rest;
      RunsThen(p, s, [ev], u, rest, t);
    }
  }

  lemma TimerAllowsNow(p: Params, s: System)
    requires Inv(p, s)
    ensures s.snd.sigma.Allows(0.0)
  {
  }

  // ----- fast recovery -----

  /** Each further duplicate adds a packet to the window, up to the cap. */
  lemma RecoveryInflates(p: Params, s: System, ack: int, marked: bool, measuredRtt: real, e: real)
    requires p.Valid() && Inv(p, s) && Enabled(p, s, DeliverAck(ack, marked, measuredRtt, e))
    requires Repeats(s.snd, ack) && s.snd.dupAcks + 1 > p.dupAckLimit && ack > 0
    ensures var t := Apply(p, s, DeliverAck(ack, marked, measuredRtt, e));
            && t.Defined? && t.value == s.(snd := t.value.snd)
            && t.value.snd.cwnd <= p.cwndMax as real
            && (t.value.snd.cwnd == s.snd.cwnd + 1.0 || t.value.snd.cwnd == p.cwndMax as real < s.snd.cwnd + 1.0)
            && t.value.snd.threshold == s.snd.threshold && t.value.snd.dupAcks == s.snd.dupAcks + 1
            && t.value.snd.nextToSend == s.snd.nextToSend
            && t.value.snd.phase == if s.snd.phase.WaitAck? then Sending else s.snd.phase
  {
    StepKeepsInv(p, s, DeliverAck(ack, marked, measuredRtt, e));
    hide Inv, Trunc, NextEcn;
    assert s.released + [] == s.released;
  }

  /** The expected acknowledgement ends recovery with a window of the threshold, and does not touch the estimate. */
  lemma RecoveryEnds(p: Params, s: System, measuredRtt: real, e: real)
    requires p.Valid() && Inv(p, s) && Enabled(p, s, DeliverAck(s.snd.expectedAck, false, measuredRtt, e))
    requires s.snd.dupAcks >= p.dupAckLimit
    ensures var t := Apply(p, s, DeliverAck(s.snd.expectedAck, false, measuredRtt, e));
            && t.Defined? && s.snd.buffer != []
            && t.value.snd.buffer == s.snd.buffer[1..] && t.value.snd.lastValidAck == s.snd.expectedAck
            && t.value.snd.cwnd == s.snd.threshold as real && t.value.snd.dupAcks == 0 && t.value.snd.cycleAck == 0
            && t.value.snd.threshold == s.snd.threshold && t.value.snd.rtt == s.snd.rtt && t.value.snd.rto == s.snd.rto
  {
    StepKeepsInv(p, s, DeliverAck(s.snd.expectedAck, false, measuredRtt, e));
    ExpectedMeansAccepted(p, s);
    hide Inv, Trunc, NextEcn, Smooth, Grown;
  }

  // ----- congestion marks -----

  /** Main result: a congestion mark at or beyond the number fixed by the last reduction, outside fast recovery,
      halves the window that the unmarked acknowledgement would have left, down to one packet, and sets the threshold
      to half of it; any other mark has no effect. */
  lemma MarkHalvesWindow(p: Params, s: System, ack: int, measuredRtt: real, e: real)
    requires p.Valid() && Inv(p, s) && Enabled(p, s, DeliverAck(ack, true, measuredRtt, e))
    ensures Apply(p, s, DeliverAck(ack, true, measuredRtt, e)).Defined?
    ensures Enabled(p, s, DeliverAck(ack, false, measuredRtt, e))
    ensures Apply(p, s, DeliverAck(ack, false, measuredRtt, e)).Defined?
    ensures var t, u := Apply(p, s, DeliverAck(ack, true, measuredRtt, e)).value,
                        Apply(p, s, DeliverAck(ack, false, measuredRtt, e)).value;
            if ack >= s.snd.ecnFrom && !AtLimit(p, s.snd, ack) then
              && t == u.(snd := u.snd.(cwnd := t.snd.cwnd, threshold := t.snd.threshold, ecnFrom := t.snd.ecnFrom,
                                       dupAcks := 0))
              && 2.0 * t.snd.cwnd == MaxReal(2.0, AbsReal(u.snd.cwnd)) && HalfOf(t.snd.threshold, u.snd.cwnd)
            else t == u
  {
    StepKeepsInv(p, s, DeliverAck(ack, true, measuredRtt, e));
    StepKeepsInv(p, s, DeliverAck(ack, false, measuredRtt, e));
    if ack == s.snd.expectedAck {
      ExpectedMeansAccepted(p, s);
    }
    hide Inv, HalfOf;
    MarkedSender(p, s.snd, ack, measuredRtt, e);
  }

  lemma MarkedSender(p: Params, s: Sender, ack: int, measuredRtt: real, e: real)
    requires ack == s.expectedAck ==> s.buffer != []
    ensures var t, u := Dext(p, s, AckIn(ack, true, measuredRtt), e), Dext(p, s, AckIn(ack, false, measuredRtt), e);
            && t.Defined? && u.Defined?
            && if ack >= s.ecnFrom && !AtLimit(p, s, ack) then
                 && t.value == u.value.(cwnd := t.value.cwnd, threshold := t.value.threshold, ecnFrom := t.value.ecnFrom,
                                        dupAcks := 0)
                 && 2.0 * t.value.cwnd == MaxReal(2.0, AbsReal(u.value.cwnd))
                 && HalfOf(t.value.threshold, u.value.cwnd)
               else t == u
  {
    hide Smooth, Grown, Rto, HalfOf;
    TruncatedHalf(AckHandled(p, s, ack, measuredRtt).cwnd);
    hide Trunc, NextEcn;
  }

  // ----- time-outs -----

  /** A time-out halves the threshold, leaves a window of one packet, doubles the time-out, forgets the duplicates and
      starts again with the oldest packet, at once. */
  lemma TimeoutEffect(p: Params, s: System)
    requires p.Valid() && Inv(p, s) && s.snd.phase.WaitAck?
    ensures Enabled(p, s, SenderFires)
    ensures var t := Apply(p, s, SenderFires);
            && t.Defined? && t.value == s.(snd := t.value.snd)
            && HalfOf(t.value.snd.threshold, s.snd.cwnd) && t.value.snd.cwnd == 1.0
            && t.value.snd.rto == 2.0 * s.snd.rto && t.value.snd.dupAcks == 0 && t.value.snd.lastValidAck == -1
            && t.value.snd.cycleAck == 0 && t.value.snd.buffer == s.snd.buffer && t.value.snd.nextToSend == 1
            && t.value.snd.sigma == Finite(0.0)
            && t.value.snd.phase == if s.snd.buffer == [] then RequestApp else Sending
  {
    StepKeepsInv(p, s, SenderFires);
    TruncatedHalf(s.snd.cwnd);
    hide Trunc, HalfOf, SeqOf;
  }

  // ----- the receiver's part -----

  /** Every packet is answered, at once, with the number after the last one accepted: a packet out of order, or a
      repeated one, with the same number as the packet before it. */
  lemma EveryPacketIsAnswered(p: Params, s: System, k: nat)
    requires p.Valid() && Inv(p, s) && k < |s.submitted|
    requires Enabled(p, s, DeliverData(Travelling(p, s.submitted, k)))
    ensures var t := Apply(p, s, DeliverData(Travelling(p, s.submitted, k)));
            && t.Defined? && Enabled(p, t.value, ReceiverFires) && t.value.rcv.sigma == Finite(0.0)
            && t.value.accepted == (if k == |s.accepted| then s.accepted + [s.submitted[k]] else s.accepted)
            && var u := Apply(p, t.value, ReceiverFires);
               && u.Defined? && u.value.accepted == t.value.accepted && u.value.rcv.arrived.None?
               && exists ack :: Acks(p, ack, |t.value.accepted|) && u.value.ackChannel == s.ackChannel + {ack}
  {
    hide SeqOf;
    SeqOfOrder(p, k, |s.accepted|);
    SeqOfOrder(p, 0, |s.accepted| - 1);
    var t := Apply(p, s, DeliverData(Travelling(p, s.submitted, k))).value;
    var ack := t.rcv.lastValid + p.segmentSize;
    assert Apply(p, t, ReceiverFires).value.ackChannel == s.ackChannel + {ack};
    assert Acks(p, ack, |t.accepted|);
  }

  /** So once everything accepted is released and acknowledged, each packet beyond a missing one makes the receiver
      send a duplicate of the last acknowledgement: what fast retransmit counts. */
  lemma OutOfOrderIsADuplicate(p: Params, s: System, k: nat)
    requires p.Valid() && Inv(p, s) && |s.accepted| < k < |s.submitted|
    requires Enabled(p, s, DeliverData(Travelling(p, s.submitted, k)))
    requires 1 <= |s.accepted| == |s.released| && s.snd.lastValidAck == SeqOf(p, |s.accepted|)
    ensures var t := Apply(p, s, DeliverData(Travelling(p, s.submitted, k)));
            && t.Defined? && Enabled(p, t.value, ReceiverFires)
            && var u := Apply(p, t.value, ReceiverFires);
               && u.Defined? && u.value == s.(rcv := u.value.rcv, ackChannel := s.ackChannel + {s.snd.lastValidAck})
               && Repeats(u.value.snd, s.snd.lastValidAck)
  {
    hide SeqOf;
    EveryPacketIsAnswered(p, s, k);
    SeqOfOrder(p, k, |s.accepted|);
    SeqOfOrder(p, |s.accepted|, |s.accepted| + 1);
  }
}
