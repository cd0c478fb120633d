/** Sessions of the extended pair without any assumption on delivery: short ones are safe, and a long one shows
    what a stale message does. */
module TcpSessionsExt {
  import opened Devs
  import opened Seq32
  import opened TcpSender
  import opened TcpSenderExt
  import opened TcpReceiverExt
  import opened TcpSystemExt

  // ----- short sessions -----

  /** The environment may let this event happen, however old a delivered message is. */
  predicate Deliverable(s: System, ev: Event) {
    match ev
    case Submit(_, _, e) => s.snd.sigma.Allows(e)
    case DeliverAck(m, _, _, e) => m in s.ackChannel && s.snd.sigma.Allows(e)
    case SenderFires => s.snd.sigma.Finite?
    case DeliverData(m, e) => m in s.dataChannel && s.rcv.sigma.Allows(e)
    case ReceiverFires => s.rcv.sigma.Finite?
    case LoseData(m) => m in s.dataChannel
    case LoseAck(m) => m in s.ackChannel
  }

  predicate FreeRuns(c: Session, s: System, evs: seq<Event>, t: System)
    decreases |evs|
  {
    if evs == [] then s == t
    else Deliverable(s, evs[0]) && Apply(c, s, evs[0]).Defined? && FreeRuns(c, Apply(c, s, evs[0]).value, evs[1..], t)
  }

  lemma SubmittedGrows(c: Session, s: System, ev: Event)
    requires Apply(c, s, ev).Defined?
    ensures |Apply(c, s, ev).value.submitted| == |s.submitted| + if ev.Submit? then 1 else 0
  {
    hide ExtDextAck, ExtDextData, ExtDint, ExtLambda, ExtReceive;
  }

  lemma {:induction false} SubmittedGrowsOverRun(c: Session, s: System, evs: seq<Event>, t: System)
    requires FreeRuns(c, s, evs, t)
    ensures |s.submitted| <= |t.submitted|
    decreases |evs|
  {
    hide Apply;
    if evs != [] {
      SubmittedGrows(c, s, evs[0]);
      SubmittedGrowsOverRun(c, Apply(c, s, evs[0]).value, evs[1..], t);
    }
  }

  lemma ShortMeansEnabled(c: Session, s: System, ev: Event)
    requires c.Valid() && Inv(c, s) && Deliverable(s, ev)
    requires Bytes(c.p, |s.submitted| + 1 + if ev.Submit? then 1 else 0) <= MODULUS
    ensures Enabled(c, s, ev)
  {
    hide Bytes, Wire;
    BytesMonotone(c.p, |s.submitted| + 1, |s.submitted| + 1 + if ev.Submit? then 1 else 0);
    ShortSessionsAreFresh(c, s);
    SenderIsAligned(c, s);
    BytesMonotone(c.p, |s.snd.buffer| + 1, |s.submitted| + 1);
    BytesOrder(c.p, |s.submitted| + 1, |s.submitted| + 2);
  }

  /** As long as what is submitted, and one packet more, fits in the sequence space, every run is a run of fresh
      deliveries. */
  lemma {:induction false} ShortRunsAreFresh(c: Session, s: System, evs: seq<Event>, t: System)
    requires c.Valid() && Inv(c, s) && FreeRuns(c, s, evs, t) && Bytes(c.p, |t.submitted| + 1) <= MODULUS
    ensures Runs(c, s, evs, t)
    decreases |evs|
  {
    hide Bytes, Inv, Apply, Enabled, Deliverable;
    if evs != [] {
      var u := Apply(c, s, evs[0]).value;
      SubmittedGrows(c, s, evs[0]);
      SubmittedGrowsOverRun(c, u, evs[1..], t);
      BytesMonotone(c.p, |u.submitted| + 1, |t.submitted| + 1);
      ShortMeansEnabled(c, s, evs[0]);
      StepKeepsInv(c, s, evs[0]);
      ShortRunsAreFresh(c, u, evs[1..], t);
    }
  }

  /** Main result: every session shorter than one wrap is safe, whatever the channels do: no assumption on the
      age of what is delivered is left. */
  lemma EveryShortRunIsSafe(c: Session, evs: seq<Event>, s: System)
    requires c.Valid() && FreeRuns(c, Start(c), evs, s) && Bytes(c.p, |s.submitted| + 1) <= MODULUS
    ensures s.released <= s.accepted <= s.submitted
    ensures s.submitted == s.released + Payloads(s.snd.buffer)
    ensures forall ev :: Deliverable(s, ev) && !ev.Submit? ==> Apply(c, s, ev).Defined?
  {
    hide FreeRuns, Runs, Apply, Enabled, Deliverable, Bytes;
    StartInv(c);
    ShortRunsAreFresh(c, Start(c), evs, s);
    EveryFreshRunIsSafe(c, evs, s);
    RunKeepsInv(c, Start(c), evs, s);
    forall ev | Deliverable(s, ev) && !ev.Submit?
      ensures Apply(c, s, ev).Defined?
    {
      ShortMeansEnabled(c, s, ev);
    }
  }

  // ----- a stale acknowledgement -----

  /** Segments of 2^31 - 1 bytes, so that two packets nearly fill the sequence space. */
  const HUGE := Session(ExtParams(Params(0x7FFF_FFFF, 64, 32, 0.0, 1.0, 3, -1.0, 0.0, 0.0), 0.2), 0.0)

  /** A duplicate of the first acknowledgement, delivered when two more packets have been submitted, releases
      both of them although neither was ever sent. Every delivery before it is fresh. */
  lemma StaleAckReleasesUnsent() returns (evs: seq<Event>, s: System, m: AckMessage)
    ensures HUGE.Valid() && Runs(HUGE, Start(HUGE), evs, s)
    ensures Deliverable(s, DeliverAck(m, false, 1.0, 0.0)) && !FreshAck(HUGE.p, s, m)
    ensures s.accepted == [10] && s.dataChannel == {DataMessage(Packet(1, 10), 0)}
    ensures var t := Apply(HUGE, s, DeliverAck(m, false, 1.0, 0.0));
            t.Defined? && t.value.released == [10, 20, 30]
  {
    hide Runs, Inv;
    var c := HUGE;
    StartInv(c);
    EmptyRun(c, Start(c));
    evs, s := Extend(c, Start(c), [], Start(c), SenderFires);
    evs, s := Extend(c, Start(c), evs, s, Submit(10, 0.0, 0.0));
    evs, s := Extend(c, Start(c), evs, s, SenderFires);
    evs, s := Extend(c, Start(c), evs, s, DeliverData(DataMessage(Packet(1, 10), 0), 0.0));
    evs, s := Extend(c, Start(c), evs, s, ReceiverFires);
    m := AckMessage(0x8000_0000, 1);
    evs, s := Extend(c, Start(c), evs, s, DeliverAck(m, false, 1.0, 0.0));
    evs, s := Extend(c, Start(c), evs, s, Submit(20, 0.0, 0.0));
    evs, s := Extend(c, Start(c), evs, s, Submit(30, 0.0, 0.0));
    StaleDelivery(s, m);
  }

  lemma StaleDelivery(s: System, m: AckMessage)
    requires s.snd.buffer == [Packet(0x8000_0000, 20), Packet(0xFFFF_FFFF, 30)] && s.released == [10]
    requires s.snd.expectedAck == 0xFFFF_FFFF && s.snd.nextSeq == 0x7FFF_FFFE && m.ack == 0x8000_0000
    ensures var t := ReceiveAck(HUGE, s, m, false, 1.0, 0.0); t.Defined? && t.value.released == [10, 20, 30]
  {
    hide Smooth, ExtRto, Grown, Trunc;
    var p := HUGE.p;
    var u := ReleaseOne(p, s.snd, m.ack, 1.0);
    assert Acceptable(p, s.snd, m.ack) && u.buffer == [Packet(0xFFFF_FFFF, 30)] && u.expectedAck == 0x7FFF_FFFE;
    var v := ReleaseOne(p, u, m.ack, 1.0);
    assert Acceptable(p, u, m.ack) && v.buffer == [] && v.expectedAck == 0xFFFF_FFFD;
    assert !Acceptable(p, v, m.ack);
    assert ReleaseAll(p, v, m.ack, 1.0) == Defined(v);
    assert ReleaseAll(p, s.snd, m.ack, 1.0) == Defined(v);
    assert Payloads(s.snd.buffer[..2]) == [20, 30];
  }

  // ----- stale data -----

  /** Two segments fill the sequence space, and one duplicate starts a fast retransmit. */
  const HALF := Session(ExtParams(Params(0x8000_0000, 64, 32, 0.0, 1.0, 1, -1.0, 0.0, 0.0), 0.2), 0.0)

  /** The first packet was sent and acknowledged. */
  function OneDone(): System {
    System(ExtSender([], 1, 1, 0x8000_0001, 0, 2.0, 32, 0x8000_0001, 0xFFFF_FFFF, 1.0, 0.0, 1.0, Sending, Finite(0.0)),
           ExtReceiver(0x8000_0001, None, Infinite), {DataMessage(Packet(1, 10), 0)}, {AckMessage(0x8000_0001, 1)},
           [10], [10], [10])
  }

  /** And so was the second. */
  function TwoDone(): System {
    System(ExtSender([], 1, 0x8000_0001, 1, 0, 3.0, 32, 1, 0xFFFF_FFFF, 1.0, 0.0, 1.0, Sending, Finite(0.0)),
           ExtReceiver(1, None, Infinite),
           {DataMessage(Packet(1, 10), 0)} + {DataMessage(Packet(0x8000_0001, 20), 1)},
           {AckMessage(0x8000_0001, 1)} + {AckMessage(1, 2)}, [10, 20], [10, 20], [10, 20])
  }

  lemma FirstOfTwo() returns (evs: seq<Event>)
    ensures HALF.Valid() && Runs(HALF, Start(HALF), evs, OneDone()) && Inv(HALF, OneDone())
  {
    hide Runs, Inv;
    var c := HALF;
    StartInv(c);
    EmptyRun(c, Start(c));
    var s;
    evs, s := Extend(c, Start(c), [], Start(c), SenderFires);
    evs, s := Extend(c, Start(c), evs, s, Submit(10, 0.0, 0.0));
    evs, s := Extend(c, Start(c), evs, s, SenderFires);
    evs, s := Extend(c, Start(c), evs, s, DeliverData(DataMessage(Packet(1, 10), 0), 0.0));
    evs, s := Extend(c, Start(c), evs, s, ReceiverFires);
    evs, s := Extend(c, Start(c), evs, s, DeliverAck(AckMessage(0x8000_0001, 1), false, 1.0, 0.0));
    var t := OneDone();
    assert s.snd == t.snd;
    assert s.rcv == t.rcv && s.dataChannel == t.dataChannel && s.ackChannel == t.ackChannel;
    assert s.submitted == t.submitted && s.accepted == t.accepted && s.released == t.released;
    assert s == t;
  }

  lemma SecondOfTwo() returns (evs: seq<Event>)
    ensures HALF.Valid() && Runs(HALF, Start(HALF), evs, TwoDone()) && Inv(HALF, TwoDone())
  {
    evs := FirstOfTwo();
    hide Runs, Inv;
    var c, s := HALF, OneDone();
    evs, s := Extend(c, Start(c), evs, s, Submit(20, 0.0, 0.0));
    evs, s := Extend(c, Start(c), evs, s, SenderFires);
    evs, s := Extend(c, Start(c), evs, s, DeliverData(DataMessage(Packet(0x8000_0001, 20), 1), 0.0));
    evs, s := Extend(c, Start(c), evs, s, ReceiverFires);
    evs, s := Extend(c, Start(c), evs, s, DeliverAck(AckMessage(1, 2), false, 1.0, 0.0));
    var t := TwoDone();
    assert s.snd == t.snd;
    assert s.rcv == t.rcv && s.dataChannel == t.dataChannel && s.ackChannel == t.ackChannel;
    assert s.submitted == t.submitted && s.accepted == t.accepted && s.released == t.released;
    assert s == t;
  }

  /** In the session of two segments the receiver then expects the number of the first packet again, and takes an old
      copy of it for a third one, although only two were submitted. */
  lemma StaleDataIsAccepted() returns (evs: seq<Event>, s: System, m: DataMessage)
    ensures HALF.Valid() && Runs(HALF, Start(HALF), evs, s)
    ensures Deliverable(s, DeliverData(m, 0.0)) && !FreshData(HALF.p, s, m)
    ensures s.submitted == s.accepted == [10, 20]
    ensures var t := Apply(HALF, s, DeliverData(m, 0.0)); t.Defined? && t.value.accepted == [10, 20, 10]
  {
    evs := SecondOfTwo();
    s, m := TwoDone(), DataMessage(Packet(1, 10), 0);
    assert [10, 20] + [10] == [10, 20, 10];
  }

  // ----- a full sequence space -----

  /** Four segments fill the sequence space. */
  const QUARTER := Session(ExtParams(Params(0x4000_0000, 64, 32, 0.0, 1.0, 1, -1.0, 0.0, 0.0), 0.2), 0.0)

  /** Nothing bounds the buffer: after four submissions it holds exactly 2^32 bytes, and no acknowledgement number
      whatsoever is acceptable. */
  lemma FullSpaceIsReachable() returns (evs: seq<Event>, s: System)
    ensures QUARTER.Valid() && FreeRuns(QUARTER, Start(QUARTER), evs, s)
    ensures Bytes(QUARTER.p, |s.snd.buffer|) == MODULUS && s.released == []
    ensures forall ack :: !Acceptable(QUARTER.p, s.snd, ack)
  {
    hide FreeRuns, Acceptable;
    var c := QUARTER;
    s := Start(c);
    EmptyFreeRun(c, s);
    evs, s := ExtendFree(c, Start(c), [], s, Submit(10, 0.0, 0.0));
    evs, s := ExtendFree(c, Start(c), evs, s, Submit(20, 0.0, 0.0));
    evs, s := ExtendFree(c, Start(c), evs, s, Submit(30, 0.0, 0.0));
    evs, s := ExtendFree(c, Start(c), evs, s, Submit(40, 0.0, 0.0));
    forall ack
      ensures !Acceptable(c.p, s.snd, ack)
    {
      FullSpaceRefusesEverything(c.p, s.snd, ack);
    }
  }

  lemma EmptyFreeRun(c: Session, s: System)
    ensures FreeRuns(c, s, [], s)
  {
  }

  lemma {:induction false} FreeRunsThen(c: Session, s: System, evs: seq<Event>, m: System, ev: Event)
    requires FreeRuns(c, s, evs, m) && Deliverable(m, ev) && Apply(c, m, ev).Defined?
    ensures FreeRuns(c, s, evs + [ev], Apply(c, m, ev).value)
    decreases |evs|
  {
    hide Deliverable, Apply;
    if evs == [] {
      assert FreeRuns(c, Apply(c, m, ev).value, [ev][1..], Apply(c, m, ev).value);
      assert evs + [ev] == [ev];
    } else {
      FreeRunsThen(c, Apply(c, s, evs[0]).value, evs[1..], m, ev);
      assert (evs + [ev])[1..] == evs[1..] + [ev];
    }
  }

  lemma ExtendFree(c: Session, s: System, evs: seq<Event>, m: System, ev: Event) returns (longer: seq<Event>, t: System)
    requires FreeRuns(c, s, evs, m) && Deliverable(m, ev) && Apply(c, m, ev).Defined?
    ensures Apply(c, m, ev) == Defined(t) && FreeRuns(c, s, longer, t)
  {
    hide Deliverable, Apply, FreeRuns;
    t, longer := Apply(c, m, ev).value, evs + [ev];
    FreeRunsThen(c, s, evs, m, ev);
  }
}
