/** When can the sender still release its oldest packet?

    The receiver acknowledges cumulatively, but the sender only understands the acknowledgement of its
    oldest packet. If that acknowledgement is lost after the receiver has gone further, it is never sent
    again, and no retransmission helps. */
module TcpProgress {
  import opened Devs
  import opened TcpSender
  import opened TcpReceiver
  import opened TcpSystem

  /** The receiver is at least two packets ahead of the sender's oldest one, whose acknowledgement is
      no longer under way. */
  ghost predicate Wedged(s: System) {
    |s.accepted| >= |s.released| + 2 && s.snd.expectedAck !in s.ackChannel
  }

  ghost predicate CanRelease(p: Params, s: System) {
    exists evs, t :: Runs(p, s, evs, t) && |t.released| > |s.released|
  }

  lemma WedgedStep(p: Params, s: System, ev: Event)
    requires p.Valid() && Inv(p, s) && Wedged(s) && Enabled(p, s, ev)
    ensures var t := Apply(p, s, ev);
            t.Defined? && Wedged(t.value) && t.value.released == s.released
  {
    hide Dext, Internal;
    StepKeepsInv(p, s, ev);
    match ev
    case Submit(payload, e) => DataEffect(p, s.snd, payload, e);
    case DeliverAck(ack, marked, measuredRtt, e) => AckEffect(p, s.snd, ack, marked, measuredRtt, e);
    case SenderFires => assert Apply(p, s, ev).value.snd.expectedAck == SeqOf(p, |s.released| + 1);
    case DeliverData(packet) =>
    case ReceiverFires =>
      SeqOfOrder(p, |s.accepted|, |s.released| + 1);
      SeqOfOrder(p, 0, |s.accepted| - 1);
    case LoseData(_) =>
    case LoseAck(_) =>
  }

  lemma {:induction false} WedgedForever(p: Params, s: System, evs: seq<Event>, t: System)
    requires p.Valid() && Inv(p, s) && Wedged(s) && Runs(p, s, evs, t)
    ensures Wedged(t) && t.released == s.released
    decreases |evs|
  {
    if evs != [] {
      WedgedStep(p, s, evs[0]);
      StepKeepsInv(p, s, evs[0]);
      WedgedForever(p, Apply(p, s, evs[0]).value, evs[1..], t);
    }
  }

  // ----- otherwise a cooperative channel lets the oldest packet through -----

  lemma {:induction false} RunsThen(p: Params, s: System, before: seq<Event>, m: System, after: seq<Event>, t: System)
    requires Runs(p, s, before, m) && Runs(p, m, after, t)
    ensures Runs(p, s, before + after, t)
    decreases |before|
  {
    if before == [] {
      assert before + after == after;
    } else {
      RunsThen(p, Apply(p, s, before[0]).value, before[1..], m, after, t);
      assert (before + after)[1..] == before[1..] + after;
    }
  }

  lemma OneStep(p: Params, s: System, ev: Event) returns (t: System)
    requires p.Valid() && Inv(p, s) && Enabled(p, s, ev)
    ensures Apply(p, s, ev) == Defined(t) && Runs(p, s, [ev], t) && Inv(p, t)
  {
    StepKeepsInv(p, s, ev);
    t := Apply(p, s, ev).value;
    assert Runs(p, t, [ev][1..], t);
  }

  /** Internal steps left before the sender sends the head of its buffer. */
  ghost function StepsToHead(s: Sender): nat
    requires s.buffer != [] && 1 <= s.nextToSend <= |s.buffer| + 1
  {
    match s.phase
    case Sending => if s.nextToSend == 1 && CanSend(s) then 0 else 3 + |s.buffer| - s.nextToSend
    case WaitAck => 1
    case WaitApp => |s.buffer| + 4
    case RequestApp => |s.buffer| + 5
  }

  /** Left alone, the sender retransmits the head of its buffer. */
  lemma {:induction false} HeadGetsSent(p: Params, s: System) returns (evs: seq<Event>, t: System)
    requires p.Valid() && Inv(p, s) && s.snd.buffer != []
    ensures Runs(p, s, evs, t) && Inv(p, t)
    ensures s.snd.buffer[0] in t.dataChannel
    ensures t == s.(snd := t.snd, dataChannel := t.dataChannel)
    ensures t.snd.buffer == s.snd.buffer && t.snd.expectedAck == s.snd.expectedAck
    decreases StepsToHead(s.snd)
  {
    hide Internal;
    InternalEffect(p, s.snd);
    var u := OneStep(p, s, SenderFires);
    if StepsToHead(s.snd) == 0 {
      evs, t := [SenderFires], u;
    } else {
      assert StepsToHead(u.snd) < StepsToHead(s.snd) by {
        if s.snd.phase.WaitAck? {
          TimeoutSendsHead(p, s.snd);
        }
      }
      var rest;
      rest, t := HeadGetsSent(p, u);
      evs := [SenderFires] + rest;
      RunsThen(p, s, [SenderFires], u, rest, t);
    }
  }

  lemma TimeoutSendsHead(p: Params, s: Sender)
    requires s.phase.WaitAck? && s.buffer != []
    ensures Internal(p, s).Defined?
    ensures var t := Internal(p, s).value.1;
            t.buffer == s.buffer && t.phase.Sending? && t.nextToSend == 1 && CanSend(t)
  {
    hide Trunc;
  }

  /** The receiver sends any acknowledgement it owes and is ready for a packet. */
  lemma ReceiverGetsReady(p: Params, s: System) returns (evs: seq<Event>, t: System)
    requires p.Valid() && Inv(p, s)
    ensures Runs(p, s, evs, t) && Inv(p, t) && t.rcv.arrived.None?
    ensures t == s.(rcv := t.rcv, ackChannel := t.ackChannel)
  {
    if s.rcv.arrived.Some? {
      t := OneStep(p, s, ReceiverFires);
      evs := [ReceiverFires];
    } else {
      evs, t := [], s;
    }
  }

  lemma ReleaseOnAck(p: Params, s: System) returns (evs: seq<Event>, t: System)
    requires p.Valid() && Inv(p, s) && s.snd.expectedAck in s.ackChannel
    ensures Runs(p, s, evs, t) && |t.released| == |s.released| + 1
  {
    ExpectedMeansAccepted(p, s);
    var ev := DeliverAck(s.snd.expectedAck, false, 0.0, 0.0);
    t := OneStep(p, s, ev);
    evs := [ev];
  }

  /** The head reaches a receiver that is ready, and the receiver answers. */
  lemma DeliverAndAnswer(p: Params, s: System) returns (evs: seq<Event>, t: System)
    requires p.Valid() && Inv(p, s) && s.snd.buffer != [] && s.snd.buffer[0] in s.dataChannel && s.rcv.arrived.None?
    requires |s.accepted| <= |s.released| + 1
    ensures Runs(p, s, evs, t) && Inv(p, t)
    ensures t.released == s.released && t.snd.expectedAck in t.ackChannel
  {
    hide Runs, Dext, Internal;
    var head := s.snd.buffer[0];
    SeqOfOrder(p, |s.released|, |s.accepted|);
    SeqOfOrder(p, 0, |s.released|);
    SeqOfOrder(p, 0, |s.released| + 1);
    hide SeqOf;
    var s1 := OneStep(p, s, DeliverData(head));
    assert |s1.accepted| == |s.released| + 1;
    t := OneStep(p, s1, ReceiverFires);
    RunsThen(p, s, [DeliverData(head)], s1, [ReceiverFires], t);
    evs := [DeliverData(head)] + [ReceiverFires];
  }

  /** Retransmit the head, deliver it, and let the receiver answer. */
  lemma RetransmitAndAnswer(p: Params, s: System) returns (evs: seq<Event>, t: System)
    requires p.Valid() && Inv(p, s) && s.snd.buffer != [] && |s.accepted| <= |s.released| + 1
    ensures Runs(p, s, evs, t) && Inv(p, t)
    ensures t.released == s.released && t.snd.expectedAck in t.ackChannel
  {
    hide Runs, Inv;
    var e1, s1 := ReceiverGetsReady(p, s);
    var e2, s2 := HeadGetsSent(p, s1);
    var e3, s3 := DeliverAndAnswer(p, s2);
    RunsThen(p, s1, e2, s2, e3, s3);
    RunsThen(p, s, e1, s1, e2 + e3, s3);
    evs, t := e1 + (e2 + e3), s3;
  }

  lemma Release(p: Params, s: System) returns (evs: seq<Event>, t: System)
    requires p.Valid() && Inv(p, s) && s.snd.buffer != [] && !Wedged(s)
    ensures Runs(p, s, evs, t) && |t.released| == |s.released| + 1
  {
    if s.snd.expectedAck in s.ackChannel {
      evs, t := ReleaseOnAck(p, s);
    } else {
      var e1, s1 := RetransmitAndAnswer(p, s);
      var e2, s2 := ReleaseOnAck(p, s1);
      RunsThen(p, s, e1, s1, e2, s2);
      evs, t := e1 + e2, s2;
    }
  }

  /** Main result: exactly the wedged states are those from which the oldest packet can never be released,
      whatever the channels do from then on. */
  lemma ProgressIffNotWedged(p: Params, s: System)
    requires p.Valid() && Reachable(p, s) && s.snd.buffer != []
    ensures CanRelease(p, s) <==> !Wedged(s)
  {
    var evs0 :| Runs(p, Start(p), evs0, s);
    StartInv(p);
    RunKeepsInv(p, Start(p), evs0, s);
    if Wedged(s) {
      forall evs, t | Runs(p, s, evs, t)
        ensures |t.released| == |s.released|
      {
        WedgedForever(p, s, evs, t);
      }
    } else {
      var evs, t := Release(p, s);
    }
  }

  // ----- wedged states do occur -----

  const SAMPLE := Params(500, 64, 32, 0.0, 1.0, 3, -1.0, 0.0, 0.0)

  /** One packet is sent, acknowledged and released; the window is now two packets. */
  function Warmed(): System {
    System(Sender([], 1, 1001, 501, 0, 2.0, 32, 0, 501, -1, 1.0, 0.0, 1.0, Some(Packet(1, 10)), RequestApp, Finite(0.0)),
           Receiver(501, 1, None, Infinite), {Packet(1, 10)}, {501}, [10], [10], [10])
  }

  /** A run grows by one event. */
  lemma Extend(p: Params, s: System, evs: seq<Event>, m: System, ev: Event) returns (longer: seq<Event>, t: System)
    requires p.Valid() && Runs(p, s, evs, m) && Inv(p, m) && Enabled(p, m, ev)
    ensures Apply(p, m, ev) == Defined(t) && Runs(p, s, longer, t) && Inv(p, t)
  {
    t := OneStep(p, m, ev);
    RunsThen(p, s, evs, m, [ev], t);
    longer := evs + [ev];
  }

  lemma WarmUp() returns (evs: seq<Event>)
    ensures Runs(SAMPLE, Start(SAMPLE), evs, Warmed()) && Inv(SAMPLE, Warmed())
  {
    hide Runs, Inv;
    var p := SAMPLE;
    StartInv(p);
    var t := OneStep(p, Start(p), SenderFires);
    evs := [SenderFires];
    evs, t := Extend(p, Start(p), evs, t, Submit(10, 0.0));
    evs, t := Extend(p, Start(p), evs, t, SenderFires);
    evs, t := Extend(p, Start(p), evs, t, SenderFires);
    evs, t := Extend(p, Start(p), evs, t, DeliverData(Packet(1, 10)));
    evs, t := Extend(p, Start(p), evs, t, ReceiverFires);
    evs, t := Extend(p, Start(p), evs, t, DeliverAck(501, false, 1.0, 0.0));
    assert t == Warmed();
  }

  /** Two packets of one window are sent and accepted; the acknowledgement of the first one is lost. */
  function AckLost(): System {
    System(Sender([Packet(501, 20), Packet(1001, 30)], 3, 1001, 501, 0, 2.0, 32, 1001, 1501, -1, 1.0, 0.0, 1.0,
                  Some(Packet(1001, 30)), Sending, Finite(0.0)),
           Receiver(1501, 1001, None, Infinite), {Packet(1, 10), Packet(501, 20), Packet(1001, 30)}, {501, 1501},
           [10, 20, 30], [10, 20, 30], [10])
  }

  /** Both packets are sent, none has arrived. */
  function TwoSent(): System {
    var s := AckLost();
    s.(rcv := Warmed().rcv, ackChannel := {501}, accepted := [10])
  }

  lemma SendTwo(before: seq<Event>) returns (evs: seq<Event>)
    requires Runs(SAMPLE, Start(SAMPLE), before, Warmed()) && Inv(SAMPLE, Warmed())
    ensures Runs(SAMPLE, Start(SAMPLE), evs, TwoSent()) && Inv(SAMPLE, TwoSent())
  {
    hide Runs, Inv, Start;
    var p := SAMPLE;
    var t;
    evs, t := Extend(p, Start(p), before, Warmed(), SenderFires);
    evs, t := Extend(p, Start(p), evs, t, Submit(20, 0.0));
    evs, t := Extend(p, Start(p), evs, t, SenderFires);
    evs, t := Extend(p, Start(p), evs, t, Submit(30, 0.0));
    evs, t := Extend(p, Start(p), evs, t, SenderFires);
    evs, t := Extend(p, Start(p), evs, t, SenderFires);
    assert t == TwoSent();
  }

  lemma LoseOneAck(before: seq<Event>) returns (evs: seq<Event>)
    requires Runs(SAMPLE, Start(SAMPLE), before, Warmed()) && Inv(SAMPLE, Warmed())
    ensures Runs(SAMPLE, Start(SAMPLE), evs, AckLost())
  {
    hide Runs, Inv, Start;
    var p := SAMPLE;
    evs := SendTwo(before);
    var t;
    evs, t := Extend(p, Start(p), evs, TwoSent(), DeliverData(Packet(501, 20)));
    evs, t := Extend(p, Start(p), evs, t, ReceiverFires);
    evs, t := Extend(p, Start(p), evs, t, DeliverData(Packet(1001, 30)));
    evs, t := Extend(p, Start(p), evs, t, ReceiverFires);
    evs, t := Extend(p, Start(p), evs, t, LoseAck(1001));
    assert t == AckLost();
  }

  /** The loss of a single acknowledgement stops the session: nothing is ever released again. */
  lemma OneLostAckWedges()
    ensures SAMPLE.Valid() && Reachable(SAMPLE, AckLost())
    ensures AckLost().snd.buffer != [] && !CanRelease(SAMPLE, AckLost())
  {
    hide Runs, Warmed, Apply, Enabled;
    var before := WarmUp();
    var evs := LoseOneAck(before);
    ProgressIffNotWedged(SAMPLE, AckLost());
  }
}
