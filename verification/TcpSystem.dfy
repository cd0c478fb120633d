/** Sender and receiver joined by two channels that may lose, duplicate and reorder everything.

    A channel is the set of messages that can still arrive. Delivering a message leaves it in the set
    (duplication, reordering); `LoseData` and `LoseAck` take messages out (loss). Congestion marks and
    measured round trips are chosen by the environment at delivery. Each model keeps its own elapsed
    time, so every run of the engine is among the runs considered here. Sequence numbers are ideal
    integers. */
module TcpSystem {
  import opened Devs
  import opened TcpSender
  import opened TcpReceiver

  /** `submitted`, `accepted` and `released` are the observer's logs: payloads handed over by the
      application, payloads the receiver accepted, and payloads that left the sender's buffer. */
  datatype System = System(
    snd: Sender,
    rcv: Receiver,
    dataChannel: set<Packet>,
    ackChannel: set<int>,
    submitted: seq<int>,
    accepted: seq<int>,
    released: seq<int>)

  datatype Event =
    | Submit(payload: int, e: real)
    | DeliverAck(ack: int, marked: bool, measuredRtt: real, e: real)
    | SenderFires
    | DeliverData(packet: Packet)
    | ReceiverFires
    | LoseData(packet: Packet)
    | LoseAck(ack: int)

  function Start(p: Params): System {
    System(Init(p), InitReceiver(), {}, {}, [], [], [])
  }

  /** The environment may let this event happen now. An arrival at a receiver that still owes an
      acknowledgement throws, which ends the run. */
  predicate Enabled(p: Params, s: System, ev: Event) {
    match ev
    case Submit(_, e) => s.snd.sigma.Allows(e)
    case DeliverAck(ack, _, _, e) => ack in s.ackChannel && s.snd.sigma.Allows(e)
    case SenderFires => s.snd.sigma.Finite?
    case DeliverData(packet) => packet in s.dataChannel && s.rcv.arrived.None?
    case ReceiverFires => s.rcv.sigma.Finite?
    case LoseData(packet) => packet in s.dataChannel
    case LoseAck(ack) => ack in s.ackChannel
  }

  function FireSender(p: Params, s: System): Outcome<System> {
    match Internal(p, s.snd)
    case Undefined => Undefined
    case Defined((out, snd)) =>
      var channel := if out.Segment? then s.dataChannel + {out.packet} else s.dataChannel;
      Defined(s.(snd := snd, dataChannel := channel))
  }

  function ReceiveAck(p: Params, s: System, ack: int, marked: bool, measuredRtt: real, e: real): Outcome<System> {
    match Dext(p, s.snd, AckIn(ack, marked, measuredRtt), e)
    case Undefined => Undefined
    case Defined(snd) =>
      var gone := if ack == s.snd.expectedAck && s.snd.buffer != [] then [s.snd.buffer[0].payload] else [];
      Defined(s.(snd := snd, released := s.released + gone))
  }

  function ReceiveData(p: Params, s: System, packet: Packet): Outcome<System>
    requires s.rcv.arrived.None?
  {
    var rcv := Receive(p.segmentSize, s.rcv, packet).value;
    var taken := if packet.seqNumber == s.rcv.nextExpected then [packet.payload] else [];
    Defined(s.(rcv := rcv, accepted := s.accepted + taken))
  }

  function FireReceiver(p: Params, s: System): Outcome<System> {
    match Acknowledge(p.segmentSize, s.rcv)
    case Undefined => Undefined
    case Defined(ack) => Defined(s.(rcv := Forget(s.rcv), ackChannel := s.ackChannel + {ack}))
  }

  function Apply(p: Params, s: System, ev: Event): Outcome<System>
    requires Enabled(p, s, ev)
  {
    match ev
    case Submit(payload, e) =>
      (match Dext(p, s.snd, DataIn(payload), e)
       case Undefined => Undefined
       case Defined(snd) => Defined(s.(snd := snd, submitted := s.submitted + [payload])))
    case DeliverAck(ack, marked, measuredRtt, e) => ReceiveAck(p, s, ack, marked, measuredRtt, e)
    case SenderFires => FireSender(p, s)
    case DeliverData(packet) => ReceiveData(p, s, packet)
    case ReceiverFires => FireReceiver(p, s)
    case LoseData(packet) => Defined(s.(dataChannel := s.dataChannel - {packet}))
    case LoseAck(ack) => Defined(s.(ackChannel := s.ackChannel - {ack}))
  }

  /** The events lead from `s` to `t`, and none of them is undefined behaviour. */
  predicate Runs(p: Params, s: System, evs: seq<Event>, t: System)
    decreases |evs|
  {
    if evs == [] then s == t
    else Enabled(p, s, evs[0]) && Apply(p, s, evs[0]).Defined? && Runs(p, Apply(p, s, evs[0]).value, evs[1..], t)
  }

  ghost predicate Reachable(p: Params, s: System) {
    exists evs :: Runs(p, Start(p), evs, s)
  }

  // ----- the invariant -----

  /** Sequence number of the k-th packet of the session. */
  function SeqOf(p: Params, k: int): int {
    1 + k * p.segmentSize
  }

  lemma SeqOfOrder(p: Params, j: int, k: int)
    requires p.segmentSize >= 1
    ensures SeqOf(p, j) == SeqOf(p, k) <==> j == k
    ensures SeqOf(p, j) < SeqOf(p, k) <==> j < k
    ensures SeqOf(p, k + 1) == SeqOf(p, k) + p.segmentSize
    ensures 0 <= k ==> SeqOf(p, k) >= 1
  {
    if j < k {
      assert (k - j) * p.segmentSize >= 1;
    } else if k < j {
      assert (j - k) * p.segmentSize >= 1;
    }
    if 0 <= k {
      assert k * p.segmentSize >= 0;
    }
  }

  /** The k-th packet as it travels. */
  function Travelling(p: Params, submitted: seq<int>, k: nat): Packet
    requires k < |submitted|
  {
    Packet(SeqOf(p, k), submitted[k])
  }

  ghost predicate SenderConsistent(p: Params, s: System) {
    && s.released + Payloads(s.snd.buffer) == s.submitted
    && (forall i :: 0 <= i < |s.snd.buffer| ==> s.snd.buffer[i].seqNumber == SeqOf(p, |s.released| + i))
    && s.snd.expectedAck == SeqOf(p, |s.released| + 1)
    && s.snd.nextSeq == SeqOf(p, |s.submitted|)
  }

  ghost predicate ReceiverConsistent(p: Params, s: System) {
    && s.accepted <= s.submitted
    && s.rcv.nextExpected == SeqOf(p, |s.accepted|)
    && s.rcv.lastValid == (if s.accepted == [] then 0 else SeqOf(p, |s.accepted| - 1))
    && (s.rcv.arrived.Some? <==> s.rcv.sigma.Finite?)
  }

  ghost predicate DataHonest(p: Params, s: System) {
    forall q :: q in s.dataChannel ==> exists k: nat :: k < |s.submitted| && q == Travelling(p, s.submitted, k)
  }

  /** The number of packets acknowledged by `ack`; the receiver sends `segmentSize` before it accepted any. */
  ghost predicate Acks(p: Params, ack: int, k: nat) {
    if k == 0 then ack == p.segmentSize else ack == SeqOf(p, k)
  }

  ghost predicate AcksHonest(p: Params, s: System) {
    forall a :: a in s.ackChannel ==> exists k: nat :: k <= |s.accepted| && Acks(p, a, k)
  }

  /** The pointer into the buffer, and what is known before anything was sent. */
  ghost predicate PointerConsistent(s: System) {
    && 0 <= s.snd.nextToSend <= |s.snd.buffer| + 1
    && (s.snd.buffer != [] ==> s.snd.nextToSend >= 1)
    && (s.snd.sigma.Infinite? ==> s.snd.phase.WaitApp? && s.snd.buffer == [])
    && (s.snd.lastSent.None? ==>
          && s.dataChannel == {} && s.ackChannel == {} && s.rcv.arrived.None? && s.accepted == []
          && s.snd.nextToSend <= 1 && s.snd.cwnd == 1.0
          && !s.snd.phase.WaitAck? && (s.snd.phase.Sending? ==> s.snd.buffer != []))
  }

  ghost predicate TimersConsistent(s: Sender) {
    s.rto >= MIN_RTO && s.sigma.AtLeast(0.0)
  }

  ghost predicate Inv(p: Params, s: System) {
    && TimersConsistent(s.snd)
    && SenderConsistent(p, s)
    && ReceiverConsistent(p, s)
    && |s.released| <= |s.accepted|
    && DataHonest(p, s)
    && AcksHonest(p, s)
    && PointerConsistent(s)
  }

  // ----- what one call does to the fields the invariant speaks of -----

  lemma DataEffect(p: Params, s: Sender, payload: int, e: real)
    ensures Dext(p, s, DataIn(payload), e).Defined?
    ensures var t := Dext(p, s, DataIn(payload), e).value;
            && t.buffer == s.buffer + [Packet(s.nextSeq, payload)]
            && t.nextSeq == s.nextSeq + p.segmentSize
            && t.expectedAck == s.expectedAck && t.lastSent == s.lastSent && t.cwnd == s.cwnd
            && t.nextToSend == (if s.buffer == [] then 1 else s.nextToSend)
            && (t.phase == s.phase || (s.phase.WaitApp? && t.phase in {RequestApp, Sending}))
            && (t.sigma.Infinite? ==> s.sigma.Infinite? && !s.phase.WaitApp?)
            && (p.Valid() && TimersConsistent(s) && s.sigma.Allows(e) ==> TimersConsistent(t))
  {
  }

  lemma AckEffect(p: Params, s: Sender, ack: int, marked: bool, measuredRtt: real, e: real)
    requires ack == s.expectedAck ==> s.buffer != []
    ensures Dext(p, s, AckIn(ack, marked, measuredRtt), e).Defined?
    ensures var t := Dext(p, s, AckIn(ack, marked, measuredRtt), e).value;
            && t.nextSeq == s.nextSeq && t.lastSent == s.lastSent
            && (ack == s.expectedAck ==>
                  && t.buffer == s.buffer[1..] && t.expectedAck == s.expectedAck + p.segmentSize
                  && t.nextToSend == MaxInt(1, s.nextToSend - 1))
            && (ack != s.expectedAck ==>
                  && t.buffer == s.buffer && t.expectedAck == s.expectedAck
                  && (t.nextToSend == s.nextToSend || t.nextToSend == 1))
            && (t.sigma.Infinite? ==> s.sigma.Infinite? && t.phase == s.phase)
            && (p.Valid() && TimersConsistent(s) && s.sigma.Allows(e) ==> TimersConsistent(t))
  {
    hide Smooth, Grown, NextEcn, Trunc;
  }

  lemma InternalEffect(p: Params, s: Sender)
    requires s.phase.Sending? && CanSend(s) ==> s.nextToSend >= 1
    requires s.phase.Sending? && !CanSend(s) ==> s.lastSent.Some?
    ensures Internal(p, s).Defined?
    ensures var (out, t) := Internal(p, s).value;
            && t.buffer == s.buffer && t.nextSeq == s.nextSeq && t.expectedAck == s.expectedAck
            && (t.sigma.Infinite? ==> t.phase.WaitApp? && s.phase.WaitApp? && t.buffer == [])
            && (p.Valid() && TimersConsistent(s) ==> TimersConsistent(t))
            && (if s.phase.Sending? && CanSend(s) then
                  && out == Segment(s.buffer[s.nextToSend - 1]) && t.lastSent == Some(out.packet)
                  && t.nextToSend == s.nextToSend + 1 && t.phase.Sending?
                else
                  && !out.Segment? && t.lastSent == s.lastSent
                  && (s.phase.WaitAck? ==> t.nextToSend == 1 && t.phase != WaitAck)
                  && (!s.phase.WaitAck? ==> t.nextToSend == s.nextToSend && t.cwnd == s.cwnd)
                  && (s.phase.Sending? ==> t.phase.WaitAck?)
                  && (s.phase.RequestApp? ==> t.phase.WaitApp?)
                  && (s.phase.WaitApp? ==> if s.buffer == [] then t.phase.WaitApp? else t.phase.Sending?))
  {
    hide Trunc;
  }

  // ----- every event keeps the invariant -----

  lemma StartInv(p: Params)
    ensures Inv(p, Start(p))
  {
  }

  lemma SubmitKeepsInv(p: Params, s: System, payload: int, e: real)
    requires p.Valid() && Inv(p, s) && Enabled(p, s, Submit(payload, e))
    ensures Apply(p, s, Submit(payload, e)).Defined?
    ensures Inv(p, Apply(p, s, Submit(payload, e)).value)
  {
    hide Dext, SeqOf;
    DataEffect(p, s.snd, payload, e);
    var t := Apply(p, s, Submit(payload, e)).value;
    SeqOfOrder(p, 0, |s.submitted|);
    assert s.released + Payloads(t.snd.buffer) == (s.released + Payloads(s.snd.buffer)) + [payload];
    forall q | q in t.dataChannel
      ensures exists k: nat :: k < |t.submitted| && q == Travelling(p, t.submitted, k)
    {
      var k: nat :| k < |s.submitted| && q == Travelling(p, s.submitted, k);
      assert q == Travelling(p, t.submitted, k);
    }
  }

  /** An honest acknowledgement that is the expected one speaks of the head of the buffer. */
  lemma ExpectedMeansAccepted(p: Params, s: System)
    requires p.Valid() && Inv(p, s) && s.snd.expectedAck in s.ackChannel
    ensures |s.released| < |s.accepted| && s.snd.buffer != []
  {
    assert (|s.released| + 1) * p.segmentSize >= p.segmentSize;
    var k: nat :| k <= |s.accepted| && Acks(p, s.snd.expectedAck, k);
    SeqOfOrder(p, k, |s.released| + 1);
  }

  lemma ReleasedHead(p: Params, s: System, t: System)
    requires p.Valid() && SenderConsistent(p, s) && s.snd.buffer != []
    requires t.snd.buffer == s.snd.buffer[1..] && t.released == s.released + [s.snd.buffer[0].payload]
    requires t.submitted == s.submitted && t.snd.nextSeq == s.snd.nextSeq
    requires t.snd.expectedAck == s.snd.expectedAck + p.segmentSize
    ensures SenderConsistent(p, t)
  {
    hide SeqOf, Payloads;
    SeqOfOrder(p, 0, |s.released| + 1);
    StreamKept(s.released, s.snd.buffer);
    forall i | 0 <= i < |t.snd.buffer|
      ensures t.snd.buffer[i].seqNumber == SeqOf(p, |t.released| + i)
    {
      assert t.snd.buffer[i] == s.snd.buffer[i + 1];
    }
  }

  lemma StreamKept(released: seq<int>, buffer: seq<Packet>)
    requires buffer != []
    ensures released + [buffer[0].payload] + Payloads(buffer[1..]) == released + Payloads(buffer)
  {
    PayloadsOfRest(buffer);
    var rest := Payloads(buffer[1..]);
    hide Payloads;
    assert released + [buffer[0].payload] + rest == released + ([buffer[0].payload] + rest);
  }

  lemma PayloadsOfRest(buffer: seq<Packet>)
    requires buffer != []
    ensures Payloads(buffer) == [buffer[0].payload] + Payloads(buffer[1..])
  {
  }

  lemma ExpectedAckKeepsInv(p: Params, s: System, marked: bool, measuredRtt: real, e: real)
    requires p.Valid() && Inv(p, s) && Enabled(p, s, DeliverAck(s.snd.expectedAck, marked, measuredRtt, e))
    ensures ReceiveAck(p, s, s.snd.expectedAck, marked, measuredRtt, e).Defined?
    ensures Inv(p, ReceiveAck(p, s, s.snd.expectedAck, marked, measuredRtt, e).value)
  {
    hide Dext, SeqOf, SenderConsistent;
    ExpectedMeansAccepted(p, s);
    AckEffect(p, s.snd, s.snd.expectedAck, marked, measuredRtt, e);
    ReleasedHead(p, s, ReceiveAck(p, s, s.snd.expectedAck, marked, measuredRtt, e).value);
  }

  lemma OtherAckKeepsInv(p: Params, s: System, ack: int, marked: bool, measuredRtt: real, e: real)
    requires p.Valid() && Inv(p, s) && Enabled(p, s, DeliverAck(ack, marked, measuredRtt, e))
    requires ack != s.snd.expectedAck
    ensures ReceiveAck(p, s, ack, marked, measuredRtt, e).Defined?
    ensures Inv(p, ReceiveAck(p, s, ack, marked, measuredRtt, e).value)
  {
    hide Dext, SeqOf;
    AckEffect(p, s.snd, ack, marked, measuredRtt, e);
    assert s.released + [] == s.released;
  }

  lemma SenderFiresKeepsInv(p: Params, s: System)
    requires p.Valid() && Inv(p, s) && Enabled(p, s, SenderFires)
    ensures FireSender(p, s).Defined? && Inv(p, FireSender(p, s).value)
  {
    hide Internal, SeqOf;
    InternalEffect(p, s.snd);
    var t := FireSender(p, s).value;
    if s.snd.phase.Sending? && CanSend(s.snd) {
      var i := s.snd.nextToSend - 1;
      var k: nat := |s.released| + i;
      assert s.submitted[k] == Payloads(s.snd.buffer)[i];
      assert s.snd.buffer[i] == Travelling(p, s.submitted, k);
    }
  }

  lemma DeliverDataKeepsInv(p: Params, s: System, packet: Packet)
    requires p.Valid() && Inv(p, s) && Enabled(p, s, DeliverData(packet))
    ensures ReceiveData(p, s, packet).Defined? && Inv(p, ReceiveData(p, s, packet).value)
  {
    hide SeqOf;
    var t := ReceiveData(p, s, packet).value;
    var k: nat :| k < |s.submitted| && packet == Travelling(p, s.submitted, k);
    SeqOfOrder(p, k, |s.accepted|);
    SeqOfOrder(p, |s.accepted|, |s.accepted|);
    if packet.seqNumber == s.rcv.nextExpected {
      assert t.accepted == s.submitted[..k + 1];
    }
  }

  lemma ReceiverFiresKeepsInv(p: Params, s: System)
    requires p.Valid() && Inv(p, s) && Enabled(p, s, ReceiverFires)
    ensures FireReceiver(p, s).Defined? && Inv(p, FireReceiver(p, s).value)
  {
    hide SeqOf;
    SeqOfOrder(p, 0, |s.accepted| - 1);
    assert Acks(p, s.rcv.lastValid + p.segmentSize, |s.accepted|);
  }

  lemma StepKeepsInv(p: Params, s: System, ev: Event)
    requires p.Valid() && Inv(p, s) && Enabled(p, s, ev)
    ensures Apply(p, s, ev).Defined? && Inv(p, Apply(p, s, ev).value)
  {
    match ev
    case Submit(payload, e) => SubmitKeepsInv(p, s, payload, e);
    case DeliverAck(ack, marked, measuredRtt, e) =>
      if ack == s.snd.expectedAck {
        ExpectedAckKeepsInv(p, s, marked, measuredRtt, e);
      } else {
        OtherAckKeepsInv(p, s, ack, marked, measuredRtt, e);
      }
    case SenderFires => SenderFiresKeepsInv(p, s);
    case DeliverData(packet) => DeliverDataKeepsInv(p, s, packet);
    case ReceiverFires => ReceiverFiresKeepsInv(p, s);
    case LoseData(_) =>
    case LoseAck(_) =>
  }

  lemma {:induction false} RunKeepsInv(p: Params, s: System, evs: seq<Event>, t: System)
    requires p.Valid() && Inv(p, s) && Runs(p, s, evs, t)
    ensures Inv(p, t)
    decreases |evs|
  {
    if evs != [] {
      StepKeepsInv(p, s, evs[0]);
      RunKeepsInv(p, Apply(p, s, evs[0]).value, evs[1..], t);
    }
  }

  // ----- safety of every run -----

  /** Nothing in flight acknowledges more than the receiver accepted. */
  lemma AckBound(p: Params, s: System, ack: int)
    requires p.Valid() && Inv(p, s) && ack in s.ackChannel
    ensures ack <= MaxInt(p.segmentSize, s.rcv.nextExpected)
  {
    var k: nat :| k <= |s.accepted| && Acks(p, ack, k);
    SeqOfOrder(p, k, |s.accepted|);
  }

  /** Main result: in every run, over every behaviour of the channels, packets leave the send buffer only
      after the receiver accepted them, the receiver accepts the application's stream in order without gap
      or repetition, the buffer holds consecutive sequence numbers, and no transition is undefined. */
  lemma EveryRunIsSafe(p: Params, evs: seq<Event>, s: System)
    requires p.Valid() && Runs(p, Start(p), evs, s)
    ensures s.released <= s.accepted <= s.submitted
    ensures s.submitted == s.released + Payloads(s.snd.buffer)
    ensures forall i :: 0 <= i < |s.snd.buffer| ==>
              s.snd.buffer[i].seqNumber == s.snd.expectedAck - p.segmentSize + i * p.segmentSize
    ensures s.snd.nextSeq == s.snd.expectedAck - p.segmentSize + |s.snd.buffer| * p.segmentSize
    ensures forall ack :: ack in s.ackChannel ==> ack <= MaxInt(p.segmentSize, s.rcv.nextExpected)
    ensures forall ev :: Enabled(p, s, ev) ==> Apply(p, s, ev).Defined?
  {
    StartInv(p);
    RunKeepsInv(p, Start(p), evs, s);
    var n := |s.released|;
    assert s.released == s.submitted[..n] == s.accepted[..n];
    SeqOfOrder(p, n, n);
    forall i | 0 <= i <= |s.snd.buffer|
      ensures SeqOf(p, n + i) == s.snd.expectedAck - p.segmentSize + i * p.segmentSize
    {
      assert (n + i) * p.segmentSize == n * p.segmentSize + i * p.segmentSize;
    }
    forall ack | ack in s.ackChannel
      ensures ack <= MaxInt(p.segmentSize, s.rcv.nextExpected)
    {
      AckBound(p, s, ack);
    }
    forall ev | Enabled(p, s, ev)
      ensures Apply(p, s, ev).Defined?
    {
      StepKeepsInv(p, s, ev);
    }
  }
}
