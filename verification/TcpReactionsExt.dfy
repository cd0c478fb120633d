/** What the extended sender does about losses and congestion, event by event: duplicate acknowledgements, fast
    retransmit, fast recovery, congestion marks and time-outs. Duplicates are told by ideal numbers. */
module TcpReactionsExt {
  import opened Devs
  import opened Seq32
  import opened TcpSender
  import opened TcpReactions
  import opened TcpSenderExt
  import opened TcpSystemExt

  // ----- duplicates -----

  /** The acknowledgement covers nothing new and repeats the last number accepted. */
  predicate RepeatsExt(s: System, m: AckMessage) {
    m.upTo <= |s.released| && m.ack == s.snd.lastValidAck
  }

  predicate AtLimitExt(p: ExtParams, s: System, m: AckMessage) {
    && RepeatsExt(s, m)
    && (s.snd.dupAcks + 1 == p.base.dupAckLimit || (s.snd.dupAcks + 1 > p.base.dupAckLimit && m.ack > 0))
  }

  lemma OldIsNotAcceptable(c: Session, s: System, m: AckMessage)
    requires c.Valid() && Inv(c, s) && m in s.ackChannel && FreshAck(c.p, s, m)
    ensures Acceptable(c.p, s.snd, m.ack) <==> m.upTo > |s.released|
    ensures ExtLimitReached(c.p, s.snd, m.ack) <==> AtLimitExt(c.p, s, m)
  {
    hide Inv, Acceptable, FreshAck;
    FreshAckDecided(c, s, m);
  }

  lemma NothingReleased(s: System)
    ensures s.released + Payloads(s.snd.buffer[..0]) == s.released
  {
  }

  lemma OtherAckIsCounted(c: Session, s: System, m: AckMessage, measuredRtt: real, e: real)
    requires c.Valid() && Inv(c, s) && Enabled(c, s, DeliverAck(m, false, measuredRtt, e))
    requires m.upTo <= |s.released| && !AtLimitExt(c.p, s, m)
    ensures var t := Apply(c, s, DeliverAck(m, false, measuredRtt, e));
            && t.Defined?
            && t.value == s.(snd := s.snd.(dupAcks := if RepeatsExt(s, m) then s.snd.dupAcks + 1 else s.snd.dupAcks,
                                           sigma := s.snd.sigma.Minus(e)))
  {
    StepKeepsInv(c, s, DeliverAck(m, false, measuredRtt, e));
    OldIsNotAcceptable(c, s, m);
    NothingReleased(s);
    hide Inv, Trunc, ExtNextEcn, Acceptable, FreshAck, ReleaseAll;
  }

  /** The duplicate that reaches the limit: the threshold becomes half the window, the window that half and three
      packets more, and a sender waiting for acknowledgements goes back to sending. */
  lemma FastRetransmitEffect(c: Session, s: System, m: AckMessage, marked: bool, measuredRtt: real, e: real)
    requires c.Valid() && Inv(c, s) && Enabled(c, s, DeliverAck(m, marked, measuredRtt, e))
    requires RepeatsExt(s, m) && s.snd.dupAcks + 1 == c.p.base.dupAckLimit
    ensures var t := Apply(c, s, DeliverAck(m, marked, measuredRtt, e));
            && t.Defined? && Inv(c, t.value) && t.value == s.(snd := t.value.snd)
            && HalfOf(t.value.snd.threshold, s.snd.cwnd)
            && 2.0 * t.value.snd.cwnd == AbsReal(s.snd.cwnd) + 6.0
            && t.value.snd.dupAcks == c.p.base.dupAckLimit && t.value.snd.buffer == s.snd.buffer
            && t.value.snd.nextToSend == 1
            && t.value.snd.phase == if s.snd.phase.WaitAck? then Sending else s.snd.phase
  {
    StepKeepsInv(c, s, DeliverAck(m, marked, measuredRtt, e));
    OldIsNotAcceptable(c, s, m);
    TruncatedHalf(s.snd.cwnd);
    NothingReleased(s);
    hide Inv, Trunc, ExtNextEcn, HalfOf, Acceptable, FreshAck, ReleaseAll;
  }

  lemma SenderSendsHead(c: Session, s: System)
    requires c.Valid() && Inv(c, s) && s.snd.buffer != [] && s.snd.phase.Sending? && s.snd.nextToSend == 1
    requires s.snd.cwnd >= 1.0
    ensures Enabled(c, s, SenderFires)
    ensures var t := Apply(c, s, SenderFires);
            && t.Defined? && t.value.dataChannel == s.dataChannel + {DataMessage(s.snd.buffer[0], |s.released|)}
            && t.value.snd.buffer == s.snd.buffer && t.value.snd.nextToSend == 2
  {
    SenderFiresKeepsInv(c, s);
    WrapSmall(2);
    hide Bytes, Wire;
  }

  lemma ReachableInv(c: Session, s: System)
    requires c.Valid() && Reachable(c, s)
    ensures Inv(c, s)
  {
    hide Inv, Runs;
    var evs :| Runs(c, Start(c), evs, s);
    StartInv(c);
    RunKeepsInv(c, Start(c), evs, s);
  }

  /** Main result: in every reachable state with something in the buffer, whether the sender is sending or waiting for
      an acknowledgement, the duplicate that reaches the limit makes it send the oldest packet again, next. */
  lemma FastRetransmitSendsHead(c: Session, s: System, m: AckMessage, marked: bool, measuredRtt: real, e: real)
    requires c.Valid() && Reachable(c, s) && Enabled(c, s, DeliverAck(m, marked, measuredRtt, e))
    requires RepeatsExt(s, m) && s.snd.dupAcks + 1 == c.p.base.dupAckLimit
    requires s.snd.buffer != [] && s.snd.phase in {Sending, WaitAck}
    ensures Apply(c, s, DeliverAck(m, marked, measuredRtt, e)).Defined?
    ensures var t := Apply(c, s, DeliverAck(m, marked, measuredRtt, e)).value;
            && Enabled(c, t, SenderFires) && Apply(c, t, SenderFires).Defined?
            && Apply(c, t, SenderFires).value.dataChannel
               == s.dataChannel + {DataMessage(s.snd.buffer[0], |s.released|)}
  {
    ReachableInv(c, s);
    hide Reachable, Inv, Apply, HalfOf;
    FastRetransmitEffect(c, s, m, marked, measuredRtt, e);
    SenderSendsHead(c, Apply(c, s, DeliverAck(m, marked, measuredRtt, e)).value);
  }

  // ----- fast recovery -----

  /** Each further duplicate adds a packet to the window, up to the cap. */
  lemma RecoveryInflates(c: Session, s: System, m: AckMessage, marked: bool, measuredRtt: real, e: real)
    requires c.Valid() && Inv(c, s) && Enabled(c, s, DeliverAck(m, marked, measuredRtt, e))
    requires RepeatsExt(s, m) && s.snd.dupAcks + 1 > c.p.base.dupAckLimit && m.ack > 0
    ensures var t, cap := Apply(c, s, DeliverAck(m, marked, measuredRtt, e)), c.p.base.cwndMax as real;
            && t.Defined? && t.value == s.(snd := t.value.snd) && t.value.snd.cwnd <= cap
            && (t.value.snd.cwnd == s.snd.cwnd + 1.0 || t.value.snd.cwnd == cap < s.snd.cwnd + 1.0)
            && t.value.snd.threshold == s.snd.threshold && t.value.snd.dupAcks == s.snd.dupAcks + 1
            && t.value.snd.nextToSend == s.snd.nextToSend
            && t.value.snd.phase == if s.snd.phase.WaitAck? then Sending else s.snd.phase
  {
    StepKeepsInv(c, s, DeliverAck(m, marked, measuredRtt, e));
    OldIsNotAcceptable(c, s, m);
    NothingReleased(s);
    hide Inv, Trunc, ExtNextEcn, Acceptable, FreshAck, ReleaseAll;
  }

  // ----- congestion marks -----

  /** Main result: a congestion mark whose number is at or beyond the stored bound, outside fast recovery, halves the
      window that the unmarked acknowledgement would have left, down to one packet, and sets the threshold to half of
      it; any other mark has no effect. */
  lemma MarkHalvesWindow(c: Session, s: System, m: AckMessage, measuredRtt: real, e: real)
    requires c.Valid() && Inv(c, s) && Enabled(c, s, DeliverAck(m, true, measuredRtt, e))
    ensures Apply(c, s, DeliverAck(m, true, measuredRtt, e)).Defined?
    ensures Enabled(c, s, DeliverAck(m, false, measuredRtt, e))
    ensures Apply(c, s, DeliverAck(m, false, measuredRtt, e)).Defined?
    ensures var t, u := Apply(c, s, DeliverAck(m, true, measuredRtt, e)).value,
                        Apply(c, s, DeliverAck(m, false, measuredRtt, e)).value;
            if m.ack >= s.snd.ecnFrom && !AtLimitExt(c.p, s, m) then
              && t == u.(snd := u.snd.(cwnd := t.snd.cwnd, threshold := t.snd.threshold, ecnFrom := t.snd.ecnFrom,
                                       dupAcks := 0))
              && 2.0 * t.snd.cwnd == MaxReal(2.0, AbsReal(u.snd.cwnd)) && HalfOf(t.snd.threshold, u.snd.cwnd)
            else t == u
  {
    StepKeepsInv(c, s, DeliverAck(m, true, measuredRtt, e));
    StepKeepsInv(c, s, DeliverAck(m, false, measuredRtt, e));
    OldIsNotAcceptable(c, s, m);
    hide Inv, HalfOf, ExtDextAck, AtLimitExt, ExtLimitReached;
    MarkedSender(c.p, s.snd, m.ack, measuredRtt, e);
  }

  lemma BoundIsKept(p: ExtParams, s: ExtSender, ack: U32, measuredRtt: real)
    requires ExtAckHandled(p, s, ack, measuredRtt).Defined? && !ExtLimitReached(p, s, ack)
    ensures ExtAckHandled(p, s, ack, measuredRtt).value.ecnFrom == s.ecnFrom
  {
    hide Acceptable, ReleaseAll;
    if Acceptable(p, s, ack) {
      LoopKeepsLimit(p, s, ack, measuredRtt);
    }
  }

  lemma MarkedSender(p: ExtParams, s: ExtSender, ack: U32, measuredRtt: real, e: real)
    requires ExtDextAck(p, s, ack, true, measuredRtt, e).Defined?
    ensures var t, u := ExtDextAck(p, s, ack, true, measuredRtt, e), ExtDextAck(p, s, ack, false, measuredRtt, e);
            && u.Defined? && t.value.buffer == u.value.buffer
            && if ack >= s.ecnFrom && !ExtLimitReached(p, s, ack) then
                 && t.value == u.value.(cwnd := t.value.cwnd, threshold := t.value.threshold, ecnFrom := t.value.ecnFrom,
                                        dupAcks := 0)
                 && 2.0 * t.value.cwnd == MaxReal(2.0, AbsReal(u.value.cwnd))
                 && HalfOf(t.value.threshold, u.value.cwnd)
               else t == u
  {
    hide ExtAckHandled, ExtLimitReached, HalfOf;
    if !ExtLimitReached(p, s, ack) {
      BoundIsKept(p, s, ack, measuredRtt);
    }
    TruncatedHalf(ExtAckHandled(p, s, ack, measuredRtt).value.cwnd);
    hide Trunc, ExtNextEcn, Acceptable;
  }

  // ----- time-outs -----

  /** A time-out halves the threshold, leaves a window of one packet and the time-out as it was, forgets the
      duplicates and starts again with the oldest packet, at once. */
  lemma TimeoutEffect(c: Session, s: System)
    requires c.Valid() && Inv(c, s) && s.snd.phase.WaitAck?
    ensures Enabled(c, s, SenderFires)
    ensures var t := Apply(c, s, SenderFires);
            && t.Defined? && t.value == s.(snd := t.value.snd)
            && HalfOf(t.value.snd.threshold, s.snd.cwnd) && t.value.snd.cwnd == 1.0
            && t.value.snd.rto == s.snd.rto && t.value.snd.dupAcks == 0 && t.value.snd.lastValidAck == MODULUS - 1
            && t.value.snd.buffer == s.snd.buffer && t.value.snd.nextToSend == 1 && t.value.snd.sigma == Finite(0.0)
            && t.value.snd.phase == if s.snd.buffer == [] then RequestApp else Sending
  {
    TruncatedHalf(s.snd.cwnd);
    hide Trunc, HalfOf, Bytes, Wire;
  }
}
