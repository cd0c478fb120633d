/** The congestion window of the sender: when it stays at least one packet, and how often congestion marks
    may reduce it. */
module TcpWindow {
  import opened Devs
  import opened TcpSender
  import opened TcpSystem
  import opened TcpProgress

  // ----- the window never falls below one packet -----

  ghost predicate WindowInv(p: Params, s: Sender) {
    && s.cwnd >= 1.0
    && s.dupAcks >= 0
    && (p.initialThreshold >= 1 || s.dupAcks >= p.dupAckLimit ==> s.threshold >= 1)
  }

  /** The configurations under which the window is sound. */
  predicate SoundConfiguration(p: Params) {
    p.cwndMax >= 1 && (p.dupAckLimit >= 1 || p.initialThreshold >= 1)
  }

  lemma AckKeepsWindow(p: Params, s: Sender, ack: int, marked: bool, measuredRtt: real, e: real)
    requires SoundConfiguration(p) && WindowInv(p, s) && (ack == s.expectedAck ==> s.buffer != [])
    ensures WindowInv(p, Dext(p, s, AckIn(ack, marked, measuredRtt), e).value)
  {
    hide Smooth, Rto, NextEcn;
    assert Grown(s.cwnd, s.threshold) >= s.cwnd;
  }

  lemma StepKeepsWindow(p: Params, s: System, ev: Event)
    requires p.Valid() && SoundConfiguration(p) && Inv(p, s) && WindowInv(p, s.snd) && Enabled(p, s, ev)
    ensures Apply(p, s, ev).Defined? && WindowInv(p, Apply(p, s, ev).value.snd)
  {
    StepKeepsInv(p, s, ev);
    match ev
    case DeliverAck(ack, marked, measuredRtt, e) =>
      hide Dext;
      if ack == s.snd.expectedAck {
        ExpectedMeansAccepted(p, s);
      }
      AckKeepsWindow(p, s.snd, ack, marked, measuredRtt, e);
    case _ =>
  }

  lemma {:induction false} RunKeepsWindow(p: Params, s: System, evs: seq<Event>, t: System)
    requires p.Valid() && SoundConfiguration(p) && Inv(p, s) && WindowInv(p, s.snd) && Runs(p, s, evs, t)
    ensures WindowInv(p, t.snd)
    decreases |evs|
  {
    if evs != [] {
      StepKeepsInv(p, s, evs[0]);
      StepKeepsWindow(p, s, evs[0]);
      RunKeepsWindow(p, Apply(p, s, evs[0]).value, evs[1..], t);
    }
  }

  // ----- every other configuration has a run that breaks the window -----

  /** One packet goes through and is acknowledged once. */
  lemma FirstAck(p: Params) returns (evs: seq<Event>, t: System)
    requires p.Valid()
    ensures Runs(p, Start(p), evs, t) && Inv(p, t)
    ensures SeqOf(p, 1) in t.ackChannel && t.snd.lastValidAck == SeqOf(p, 1) && t.snd.expectedAck == SeqOf(p, 2)
    ensures t.snd.cwnd == if p.dupAckLimit <= 0 then p.initialThreshold as real else 2.0
  {
    hide Runs, Inv;
    StartInv(p);
    t := OneStep(p, Start(p), SenderFires);
    evs := [SenderFires];
    evs, t := Extend(p, Start(p), evs, t, Submit(0, 0.0));
    evs, t := Extend(p, Start(p), evs, t, SenderFires);
    evs, t := Extend(p, Start(p), evs, t, SenderFires);
    evs, t := Extend(p, Start(p), evs, t, DeliverData(Packet(1, 0)));
    evs, t := Extend(p, Start(p), evs, t, ReceiverFires);
    evs, t := Extend(p, Start(p), evs, t, DeliverAck(SeqOf(p, 1), false, 1.0, 0.0));
  }

  /** Duplicates of the last acknowledgement reach fast recovery, which applies the cap. */
  lemma {:induction false} DuplicatesReachCap(p: Params, s: System) returns (evs: seq<Event>, t: System)
    requires p.Valid() && Inv(p, s) && p.cwndMax < 1
    requires s.snd.lastValidAck in s.ackChannel && 0 < s.snd.lastValidAck != s.snd.expectedAck
    ensures Runs(p, s, evs, t) && t.snd.cwnd < 1.0
    decreases MaxInt(0, p.dupAckLimit - s.snd.dupAcks)
  {
    if s.snd.cwnd < 1.0 {
      evs, t := [], s;
    } else {
      var ev := DeliverAck(s.snd.lastValidAck, false, 0.0, 0.0);
      var u := OneStep(p, s, ev);
      if Recovers(p, s.snd, s.snd.lastValidAck) {
        evs, t := [ev], u;
      } else {
        var rest;
        rest, t := DuplicatesReachCap(p, u);
        evs := [ev] + rest;
        RunsThen(p, s, [ev], u, rest, t);
      }
    }
  }

  /** Main result: the window is at least one packet in every reachable state exactly for the sound
      configurations; so 1 / WND_CWND and the first transmission never meet a window below one. */
  lemma WindowBounds(p: Params)
    requires p.Valid()
    ensures (forall s :: Reachable(p, s) ==> s.snd.cwnd >= 1.0) <==> SoundConfiguration(p)
  {
    if SoundConfiguration(p) {
      forall s | Reachable(p, s)
        ensures s.snd.cwnd >= 1.0
      {
        var evs :| Runs(p, Start(p), evs, s);
        StartInv(p);
        RunKeepsWindow(p, Start(p), evs, s);
      }
    } else {
      var evs, t := FirstAck(p);
      assert Reachable(p, t);
      if p.cwndMax < 1 {
        SeqOfOrder(p, 1, 2);
        var more, u := DuplicatesReachCap(p, t);
        RunsThen(p, Start(p), evs, t, more, u);
        assert Reachable(p, u);
      }
    }
  }

  // ----- at most one reaction to congestion marks per window of data -----

  /** The congestion mark of this delivery halves the window. */
  ghost predicate HalvesOnMark(p: Params, s: System, ev: Event) {
    ev.DeliverAck? && (ev.ack == s.snd.expectedAck ==> s.snd.buffer != []) &&
    EcnReduces(p, s.snd, ev.ack, ev.marked, ev.measuredRtt)
  }

  /** This delivery reduces the window, by a congestion mark or by a fast retransmit. */
  ghost predicate Reduces(p: Params, s: System, ev: Event) {
    HalvesOnMark(p, s, ev) || (ev.DeliverAck? && FastRetransmits(p, s.snd, ev.ack))
  }

  /** The window in force when the reduction happens. */
  function WindowBefore(p: Params, s: System, ev: Event): real
    requires ev.DeliverAck? && (ev.ack == s.snd.expectedAck ==> s.snd.buffer != [])
  {
    if FastRetransmits(p, s.snd, ev.ack) then s.snd.cwnd else AckHandled(p, s.snd, ev.ack, ev.measuredRtt).cwnd
  }

  /** No event of the run reduces the window. */
  ghost predicate Quiet(p: Params, s: System, evs: seq<Event>)
    decreases |evs|
  {
    evs == [] || (Enabled(p, s, evs[0]) && Apply(p, s, evs[0]).Defined? && !Reduces(p, s, evs[0]) &&
                  Quiet(p, Apply(p, s, evs[0]).value, evs[1..]))
  }

  lemma ReductionSetsLimit(p: Params, s: System, ev: Event)
    requires p.Valid() && Inv(p, s) && Enabled(p, s, ev) && Reduces(p, s, ev)
    ensures ev.DeliverAck? && (ev.ack == s.snd.expectedAck ==> s.snd.buffer != []) && Apply(p, s, ev).Defined?
    ensures Apply(p, s, ev).value.snd.ecnFrom == NextEcn(ev.ack, WindowBefore(p, s, ev), p.segmentSize)
  {
    hide NextEcn, Smooth, Rto, Grown, Trunc;
    StepKeepsInv(p, s, ev);
    if ev.ack == s.snd.expectedAck {
      ExpectedMeansAccepted(p, s);
    }
  }

  lemma QuietStep(p: Params, s: System, ev: Event)
    requires p.Valid() && Inv(p, s) && Enabled(p, s, ev) && !Reduces(p, s, ev)
    ensures Apply(p, s, ev).Defined? && Apply(p, s, ev).value.snd.ecnFrom == s.snd.ecnFrom
  {
    hide NextEcn, Smooth, Rto, Grown, Trunc;
    StepKeepsInv(p, s, ev);
    if ev.DeliverAck? && ev.ack == s.snd.expectedAck {
      ExpectedMeansAccepted(p, s);
    }
  }

  lemma {:induction false} QuietRun(p: Params, s: System, evs: seq<Event>, t: System)
    requires p.Valid() && Inv(p, s) && Runs(p, s, evs, t) && Quiet(p, s, evs)
    ensures t.snd.ecnFrom == s.snd.ecnFrom
    decreases |evs|
  {
    if evs != [] {
      StepKeepsInv(p, s, evs[0]);
      QuietStep(p, s, evs[0]);
      QuietRun(p, Apply(p, s, evs[0]).value, evs[1..], t);
    }
  }

  /** Main result: after a reduction at acknowledgement `a` under a window of `w` packets, the next reduction,
      if a congestion mark causes it, happens at an acknowledgement of at least floor(a + w * MSS). */
  lemma MarksActOncePerWindow(p: Params, s: System, ev: Event, quiet: seq<Event>, m: System, next: Event)
    requires p.Valid() && Reachable(p, s)
    requires Enabled(p, s, ev) && Reduces(p, s, ev) && Apply(p, s, ev).Defined?
    requires Runs(p, Apply(p, s, ev).value, quiet, m) && Quiet(p, Apply(p, s, ev).value, quiet)
    requires Enabled(p, m, next) && HalvesOnMark(p, m, next)
    ensures ev.DeliverAck? && (ev.ack == s.snd.expectedAck ==> s.snd.buffer != [])
    ensures next.ack >= (ev.ack as real + WindowBefore(p, s, ev) * p.segmentSize as real).Floor
  {
    hide Runs, Quiet, Dext, Internal, Apply, Enabled;
    var evs :| Runs(p, Start(p), evs, s);
    StartInv(p);
    RunKeepsInv(p, Start(p), evs, s);
    ReductionSetsLimit(p, s, ev);
    StepKeepsInv(p, s, ev);
    QuietRun(p, Apply(p, s, ev).value, quiet, m);
    RejectKeepsLimit(p, m.snd, next.ack, next.measuredRtt);
  }

  lemma RejectKeepsLimit(p: Params, s: Sender, ack: int, measuredRtt: real)
    requires (ack == s.expectedAck ==> s.buffer != []) && !LimitReached(p, s, ack)
    ensures AckHandled(p, s, ack, measuredRtt).ecnFrom == s.ecnFrom
  {
    hide Smooth, Rto, Grown;
  }
}
