/** The extended sender and receiver over channels that lose, duplicate and reorder.

    Sequence numbers on the wire are modulo 2^32. Each message in flight also carries the ideal number it
    stands for; the tag is an observer's note that neither side reads. A run is restricted only by
    freshness: a delivered message may not be a whole sequence space behind. */
module TcpSystemExt {
  import opened Devs
  import opened Seq32
  import opened TcpSender
  import opened TcpSenderExt
  import opened TcpReceiverExt

  datatype DataMessage = DataMessage(packet: Packet, index: nat)
  datatype AckMessage = AckMessage(ack: U32, upTo: nat)

  datatype System = System(
    snd: ExtSender,
    rcv: ExtReceiver,
    dataChannel: set<DataMessage>,
    ackChannel: set<AckMessage>,
    submitted: seq<int>,
    accepted: seq<int>,
    released: seq<int>)

  datatype Event =
    | Submit(payload: int, upperQueue: real, e: real)
    | DeliverAck(message: AckMessage, marked: bool, measuredRtt: real, e: real)
    | SenderFires
    | DeliverData(data: DataMessage, e: real)
    | ReceiverFires
    | LoseData(data: DataMessage)
    | LoseAck(message: AckMessage)

  datatype Session = Session(p: ExtParams, delay: real) {
    ghost predicate Valid() {
      p.Valid() && delay >= 0.0
    }
  }

  function Start(c: Session): System {
    System(ExtInit(c.p), InitExtReceiver(), {}, {}, [], [], [])
  }

  /** The number on the wire for the k-th packet. */
  function Wire(p: ExtParams, k: int): U32 {
    Wrap(1 + Bytes(p, k))
  }

  // ----- freshness -----

  /** The receiver is less than one sequence space away from this packet. */
  predicate FreshData(p: ExtParams, s: System, m: DataMessage) {
    -MODULUS < Bytes(p, m.index - |s.accepted|) < MODULUS
  }

  /** Everything submitted since this acknowledgement, and one packet more, fits in one sequence space. */
  predicate FreshAck(p: ExtParams, s: System, m: AckMessage) {
    Bytes(p, |s.submitted| + 1 - m.upTo) <= MODULUS
  }

  /** The sender's buffer stays below 2^32 bytes. */
  predicate Enabled(c: Session, s: System, ev: Event) {
    match ev
    case Submit(_, _, e) => s.snd.sigma.Allows(e) && Bytes(c.p, |s.snd.buffer| + 1) < MODULUS
    case DeliverAck(m, _, _, e) => m in s.ackChannel && s.snd.sigma.Allows(e) && FreshAck(c.p, s, m)
    case SenderFires => s.snd.sigma.Finite?
    case DeliverData(m, e) => m in s.dataChannel && s.rcv.sigma.Allows(e) && FreshData(c.p, s, m)
    case ReceiverFires => s.rcv.sigma.Finite?
    case LoseData(m) => m in s.dataChannel
    case LoseAck(m) => m in s.ackChannel
  }

  // ----- one event -----

  /** The ideal number of the packet at the sender's pointer. */
  function SendingIndex(s: System): int {
    |s.released| + s.snd.nextToSend - 1
  }

  function FireSender(c: Session, s: System): Outcome<System> {
    match ExtLambda(s.snd)
    case Undefined => Undefined
    case Defined(out) =>
      var channel :=
        if out.Segment? then s.dataChannel + {DataMessage(out.packet, MaxInt(0, SendingIndex(s)))} else s.dataChannel;
      Defined(s.(snd := ExtDint(c.p, s.snd), dataChannel := channel))
  }

  function ReceiveAck(c: Session, s: System, m: AckMessage, marked: bool, measuredRtt: real, e: real): Outcome<System> {
    match ExtDextAck(c.p, s.snd, m.ack, marked, measuredRtt, e)
    case Undefined => Undefined
    case Defined(snd) =>
      var gone := |s.snd.buffer| - |snd.buffer|;
      if 0 <= gone then Defined(s.(snd := snd, released := s.released + Payloads(s.snd.buffer[..gone])))
      else Undefined
  }

  function ReceiveData(c: Session, s: System, m: DataMessage, e: real): System {
    var taken := if m.packet.seqNumber == s.rcv.nextExpected then [m.packet.payload] else [];
    s.(rcv := ExtReceive(c.p.base.segmentSize, c.delay, s.rcv, m.packet, e), accepted := s.accepted + taken)
  }

  function FireReceiver(c: Session, s: System): Outcome<System> {
    match ExtAcknowledge(s.rcv)
    case Undefined => Undefined
    case Defined(ack) =>
      Defined(s.(rcv := ExtForget(s.rcv), ackChannel := s.ackChannel + {AckMessage(ack, |s.accepted|)}))
  }

  function Apply(c: Session, s: System, ev: Event): Outcome<System> {
    match ev
    case Submit(payload, upperQueue, e) =>
      Defined(s.(snd := ExtDextData(c.p, s.snd, payload, upperQueue, e), submitted := s.submitted + [payload]))
    case DeliverAck(m, marked, measuredRtt, e) => ReceiveAck(c, s, m, marked, measuredRtt, e)
    case SenderFires => FireSender(c, s)
    case DeliverData(m, e) => Defined(ReceiveData(c, s, m, e))
    case ReceiverFires => FireReceiver(c, s)
    case LoseData(m) => Defined(s.(dataChannel := s.dataChannel - {m}))
    case LoseAck(m) => Defined(s.(ackChannel := s.ackChannel - {m}))
  }

  predicate Runs(c: Session, s: System, evs: seq<Event>, t: System)
    decreases |evs|
  {
    if evs == [] then s == t
    else Enabled(c, s, evs[0]) && Apply(c, s, evs[0]).Defined? && Runs(c, Apply(c, s, evs[0]).value, evs[1..], t)
  }

  ghost predicate Reachable(c: Session, s: System) {
    exists evs :: Runs(c, Start(c), evs, s)
  }

  // ----- the invariant -----

  ghost predicate SenderConsistent(p: ExtParams, s: System) {
    && s.released + Payloads(s.snd.buffer) == s.submitted
    && (forall i :: 0 <= i < |s.snd.buffer| ==> s.snd.buffer[i].seqNumber == Wire(p, |s.released| + i))
    && s.snd.expectedAck == Wire(p, |s.released| + 1)
    && s.snd.nextSeq == Wire(p, |s.submitted|)
    && Bytes(p, |s.snd.buffer|) < MODULUS
  }

  ghost predicate ReceiverConsistent(p: ExtParams, s: System) {
    && s.accepted <= s.submitted
    && s.rcv.nextExpected == Wire(p, |s.accepted|)
    && (s.rcv.arrived.Some? <==> s.rcv.sigma.Finite?)
  }

  ghost predicate ChannelsHonest(p: ExtParams, s: System) {
    && (forall m :: m in s.dataChannel ==>
          m.index < |s.submitted| && m.packet == Packet(Wire(p, m.index), s.submitted[m.index]))
    && (forall m :: m in s.ackChannel ==> m.upTo <= |s.accepted| && m.ack == Wire(p, m.upTo))
  }

  ghost predicate TimersConsistent(c: Session, s: System) {
    && s.snd.rto >= 0.0 && s.snd.sigma.AtLeast(0.0) && s.rcv.sigma.AtLeast(0.0)
    && (s.snd.sigma.Infinite? ==> s.snd.phase.WaitApp? && s.snd.buffer == [])
  }

  ghost predicate PointerConsistent(s: ExtSender) {
    s.nextToSend <= |s.buffer| + 1 && (s.buffer != [] ==> s.nextToSend >= 1)
  }

  ghost predicate Inv(c: Session, s: System) {
    && SenderConsistent(c.p, s)
    && ReceiverConsistent(c.p, s)
    && |s.released| <= |s.accepted|
    && ChannelsHonest(c.p, s)
    && TimersConsistent(c, s)
    && PointerConsistent(s.snd)
  }

  // ----- acknowledgements read through the modular window -----

  /** What the sender decides about a fresh acknowledgement is what ideal numbers say. */
  lemma FreshAckIsUnderstood(p: ExtParams, n: nat, total: nat, k: nat)
    requires p.Valid() && n <= total && k <= total && Bytes(p, total - n) < MODULUS
    requires Bytes(p, total + 1 - k) <= MODULUS
    ensures CheckWindow(Wire(p, n + 1), Wire(p, k), Wrap(Wire(p, total) + p.base.segmentSize)) <==> k > n
    ensures k > n ==> Wrap(Wire(p, k) - Wire(p, n + 1)) == Bytes(p, k - n - 1)
  {
    hide Bytes, Wrap, CheckWindow;
    WireDistances(p, n, total, k);
    var right := Wrap(Wire(p, total) + p.base.segmentSize);
    CheckWindowIsCircular(Wire(p, n + 1), Wire(p, k), right);
    BytesOrder(p, total, n);
    BytesOrder(p, total - n, 0);
    WrapSmall(Bytes(p, total - n));
    BytesOrder(p, k - n - 1, 0);
    BytesOrder(p, k - n - 1, total - n);
    BytesOrder(p, total + 1 - k, n + 1 - k);
    BytesOrder(p, 0, n + 1 - k);
    BytesOrder(p, 0, total - n);
    WrapSmall(Bytes(p, k - n - 1));
  }

  lemma WireDistances(p: ExtParams, n: nat, total: nat, k: nat)
    requires p.Valid()
    ensures Wrap(Wire(p, k) - Wire(p, n + 1)) == Wrap(Bytes(p, k - n - 1))
    ensures Wrap(Wrap(Wire(p, total) + p.base.segmentSize) - Wire(p, n + 1)) == Wrap(Bytes(p, total - n))
  {
    hide Bytes, Wrap;
    WrapDifference(1 + Bytes(p, k), 1 + Bytes(p, n + 1));
    BytesOrder(p, k, n + 1);
    WrapDifference(1 + Bytes(p, total), p.base.segmentSize);
    BytesOrder(p, total, 1);
    WrapDifference(1 + Bytes(p, total + 1), 1 + Bytes(p, n + 1));
    BytesOrder(p, total + 1, n + 1);
  }

  /** When an old acknowledgement is taken for a new one, at any age; and for the ages below one sequence space,
      exactly when it is not fresh. */
  lemma StaleAckMisread(p: ExtParams, n: nat, total: nat, k: nat)
    requires p.Valid() && k <= n <= total && Bytes(p, total - n) < MODULUS
    ensures CheckWindow(Wire(p, n + 1), Wire(p, k), Wrap(Wire(p, total) + p.base.segmentSize))
            <==> Wrap(Bytes(p, k - n - 1)) < Bytes(p, total - n)
    ensures Bytes(p, n + 1 - k) < MODULUS ==>
              (CheckWindow(Wire(p, n + 1), Wire(p, k), Wrap(Wire(p, total) + p.base.segmentSize))
               <==> Bytes(p, total + 1 - k) > MODULUS)
  {
    hide Bytes, Wrap, CheckWindow;
    WireDistances(p, n, total, k);
    CheckWindowIsCircular(Wire(p, n + 1), Wire(p, k), Wrap(Wire(p, total) + p.base.segmentSize));
    BytesOrder(p, total - n, 0);
    WrapSmall(Bytes(p, total - n));
    BytesOrder(p, k - n - 1, 0);
    BytesOrder(p, 0, n + 1 - k);
    if Bytes(p, n + 1 - k) < MODULUS {
      WrapSmall(Bytes(p, k - n - 1));
    }
    BytesOrder(p, total + 1 - k, n + 1 - k);
  }

  /** A data packet is taken for the next one exactly when it is a whole number of sequence spaces away from it. */
  lemma DataMistakenIff(p: ExtParams, k: nat, accepted: nat)
    requires p.Valid()
    ensures Wire(p, k) == Wire(p, accepted) <==> Wrap(Bytes(p, k - accepted)) == 0
  {
    hide Bytes, Wrap;
    WrapDifference(1 + Bytes(p, k), 1 + Bytes(p, accepted));
    BytesOrder(p, k, accepted);
    SameResidueIff(1 + Bytes(p, k), 1 + Bytes(p, accepted));
  }

  lemma SameResidueIff(x: int, y: int)
    ensures Wrap(x) == Wrap(y) <==> Wrap(x - y) == 0
  {
    var a, b := x / MODULUS, y / MODULUS;
    assert x == a * MODULUS + Wrap(x) && y == b * MODULUS + Wrap(y);
    WrapShift(Wrap(x) - Wrap(y), a - b);
    assert x - y == Wrap(x) - Wrap(y) + (a - b) * MODULUS;
    WrapSmall(Wrap(x) - Wrap(y));
  }

  /** So a fresh packet is accepted exactly when it is the next one. */
  lemma FreshDataIsUnderstood(p: ExtParams, k: nat, accepted: nat)
    requires p.Valid() && -MODULUS < Bytes(p, k - accepted) < MODULUS
    ensures Wire(p, k) == Wire(p, accepted) <==> k == accepted
  {
    hide Bytes, Wrap;
    DataMistakenIff(p, k, accepted);
    BytesOrder(p, k - accepted, 0);
    WrapSmall(Bytes(p, k - accepted));
  }

  /** In a session shorter than one sequence space every message is fresh. */
  lemma ShortSessionsAreFresh(c: Session, s: System)
    requires c.Valid() && Inv(c, s) && Bytes(c.p, |s.submitted| + 1) <= MODULUS
    ensures forall m :: m in s.dataChannel ==> FreshData(c.p, s, m)
    ensures forall m :: m in s.ackChannel ==> FreshAck(c.p, s, m)
  {
    hide Bytes, Wire;
    var p := c.p;
    forall m | m in s.dataChannel
      ensures FreshData(p, s, m)
    {
      BytesOrder(p, m.index - |s.accepted|, |s.submitted| + 1);
      BytesOrder(p, |s.accepted| - m.index, |s.submitted| + 1);
      BytesOrder(p, 0, |s.accepted| - m.index);
    }
    forall m | m in s.ackChannel
      ensures FreshAck(p, s, m)
    {
      BytesMonotone(p, |s.submitted| + 1 - m.upTo, |s.submitted| + 1);
    }
  }

  // ----- every event keeps the invariant -----

  lemma StartInv(c: Session)
    requires c.Valid()
    ensures Inv(c, Start(c))
  {
  }

  lemma WireStep(p: ExtParams, k: int, n: int)
    requires p.Valid()
    ensures Wire(p, k + n) == Wrap(Wire(p, k) + Bytes(p, n))
  {
    hide Bytes, Wrap;
    BytesOrder(p, k, n);
    WrapDifference(1 + Bytes(p, k), Bytes(p, n));
  }

  lemma SenderIsAligned(c: Session, s: System)
    requires c.Valid() && Inv(c, s)
    ensures Aligned(c.p, s.snd) && |s.submitted| == |s.released| + |s.snd.buffer|
  {
    hide Bytes, Wrap, Wire;
    var p := c.p;
    var n, mss := |s.released|, p.base.segmentSize;
    WireStep(p, n + 1, |s.snd.buffer| - 1);
    BytesOrder(p, |s.snd.buffer|, 1);
  }

  lemma SubmitKeepsInv(c: Session, s: System, payload: int, upperQueue: real, e: real)
    requires c.Valid() && Inv(c, s) && Enabled(c, s, Submit(payload, upperQueue, e))
    ensures Inv(c, Apply(c, s, Submit(payload, upperQueue, e)).value)
  {
    hide Bytes, Wrap, Wire;
    var p := c.p;
    var t := Apply(c, s, Submit(payload, upperQueue, e)).value;
    WireStep(p, |s.submitted|, 1);
    BytesOrder(p, 1, 1);
    assert s.released + Payloads(t.snd.buffer) == (s.released + Payloads(s.snd.buffer)) + [payload];
  }

  /** The fields the loop leaves alone, and the pointer it moves. */
  lemma {:induction false} LoopKeepsRest(p: ExtParams, s: ExtSender, ack: U32, measuredRtt: real)
    requires p.Valid() && PointerConsistent(s) && s.rto >= 0.0 && ReleaseAll(p, s, ack, measuredRtt).Defined?
    ensures var t := ReleaseAll(p, s, ack, measuredRtt).value;
            PointerConsistent(t) && t.rto >= 0.0 && t.phase == s.phase && t.sigma == s.sigma
    decreases |s.buffer|
  {
    hide Smooth, Grown, CheckWindow;
    if Acceptable(p, s, ack) {
      LoopKeepsRest(p, ReleaseOne(p, s, ack, measuredRtt), ack, measuredRtt);
    }
  }

  /** Neither a rejected acknowledgement nor the mark or the phase change touches the stream. */
  lemma TailEffect(p: ExtParams, s: ExtSender, t: ExtSender, ack: U32, marked: bool, valid: bool, limit: bool, e: real)
    requires p.Valid() && t.rto >= 0.0 && t.sigma.AtLeast(0.0) && t.sigma.Allows(e) && PointerConsistent(t)
    ensures var u := ExtAfterAck(p, ExtMarked(p, t, ack, marked, limit), valid, limit, e);
            && u.buffer == t.buffer && u.expectedAck == t.expectedAck && u.nextSeq == t.nextSeq
            && u.rto == t.rto && u.sigma.AtLeast(0.0) && PointerConsistent(u)
            && (u.sigma.Infinite? ==> t.sigma.Infinite? && (u.phase == t.phase))
  {
    hide ExtNextEcn, Trunc;
  }

  lemma FreshAckDecided(c: Session, s: System, m: AckMessage)
    requires c.Valid() && Inv(c, s) && m in s.ackChannel && FreshAck(c.p, s, m)
    ensures Acceptable(c.p, s.snd, m.ack) <==> m.upTo > |s.released|
    ensures m.upTo > |s.released| ==> Offset(s.snd, m.ack) == Bytes(c.p, m.upTo - |s.released| - 1)
    ensures m.upTo <= |s.released| + |s.snd.buffer|
  {
    hide Bytes, Wrap, Wire, CheckWindow;
    SenderIsAligned(c, s);
    FreshAckIsUnderstood(c.p, |s.released|, |s.submitted|, m.upTo);
  }

  lemma NewAckKeepsInv(c: Session, s: System, m: AckMessage, marked: bool, measuredRtt: real, e: real)
    requires c.Valid() && Inv(c, s) && Enabled(c, s, DeliverAck(m, marked, measuredRtt, e)) && m.upTo > |s.released|
    ensures ReceiveAck(c, s, m, marked, measuredRtt, e).Defined?
    ensures var t := ReceiveAck(c, s, m, marked, measuredRtt, e).value; Inv(c, t) && |t.released| == m.upTo
  {
    hide Bytes, Wrap, Wire, CheckWindow, ReleaseAll, ExtReject, ExtMarked, ExtAfterAck;
    var p := c.p;
    var count := m.upTo - |s.released|;
    FreshAckDecided(c, s, m);
    SenderIsAligned(c, s);
    BytesStep(p, count);
    LoopReleases(p, s.snd, m.ack, measuredRtt, count);
    LoopKeepsRest(p, s.snd, m.ack, measuredRtt);
    var u := ReleaseAll(p, s.snd, m.ack, measuredRtt).value;
    TailEffect(p, s.snd, u, m.ack, marked, true, ExtLimitReached(p, s.snd, m.ack), e);
    var t := ReceiveAck(c, s, m, marked, measuredRtt, e).value;
    WireStep(p, |s.released| + 1, count);
    BytesMonotone(p, |u.buffer|, |s.snd.buffer|);
    ReleasedPrefix(s, count);
  }

  lemma ReleasedPrefix(s: System, count: nat)
    requires count <= |s.snd.buffer|
    ensures s.released + Payloads(s.snd.buffer[..count]) + Payloads(s.snd.buffer[count..])
         == s.released + Payloads(s.snd.buffer)
  {
  }

  lemma OldAckKeepsInv(c: Session, s: System, m: AckMessage, marked: bool, measuredRtt: real, e: real)
    requires c.Valid() && Inv(c, s) && Enabled(c, s, DeliverAck(m, marked, measuredRtt, e)) && m.upTo <= |s.released|
    ensures ReceiveAck(c, s, m, marked, measuredRtt, e).Defined?
    ensures Inv(c, ReceiveAck(c, s, m, marked, measuredRtt, e).value)
  {
    hide Bytes, Wrap, Wire, CheckWindow, ReleaseAll, ExtMarked, ExtAfterAck, ExtNextEcn, Trunc;
    FreshAckDecided(c, s, m);
    var u := ExtReject(c.p, s.snd, m.ack);
    TailEffect(c.p, s.snd, u, m.ack, marked, false, ExtLimitReached(c.p, s.snd, m.ack), e);
    assert s.released + Payloads(s.snd.buffer[..0]) == s.released;
  }

  lemma SenderFiresKeepsInv(c: Session, s: System)
    requires c.Valid() && Inv(c, s) && Enabled(c, s, SenderFires)
    ensures FireSender(c, s).Defined? && Inv(c, FireSender(c, s).value)
  {
    hide Bytes, Wire, Trunc;
    var t := FireSender(c, s).value;
    SenderIsAligned(c, s);
    BytesOrder(c.p, |s.snd.buffer| + 1, 0);
    if s.snd.phase.Sending? && ExtCanSend(s.snd) {
      var i := s.snd.nextToSend - 1;
      assert s.submitted[|s.released| + i] == Payloads(s.snd.buffer)[i];
      BufferIsShort(c.p, |s.snd.buffer|);
      WrapSmall(s.snd.nextToSend + 1);
    }
  }

  lemma BufferIsShort(p: ExtParams, n: nat)
    requires p.Valid() && Bytes(p, n) < MODULUS
    ensures n + 1 < MODULUS
  {
    assert n * (p.base.segmentSize - 2) >= 0;
    assert Bytes(p, n) == 2 * n + n * (p.base.segmentSize - 2);
  }

  lemma DeliverDataKeepsInv(c: Session, s: System, m: DataMessage, e: real)
    requires c.Valid() && Inv(c, s) && Enabled(c, s, DeliverData(m, e))
    ensures Inv(c, ReceiveData(c, s, m, e))
    ensures m.packet.seqNumber == s.rcv.nextExpected <==> m.index == |s.accepted|
  {
    hide Bytes, Wire, Wrap;
    FreshDataIsUnderstood(c.p, m.index, |s.accepted|);
    WireStep(c.p, |s.accepted|, 1);
    BytesOrder(c.p, 1, 1);
    if m.index == |s.accepted| {
      assert s.accepted + [m.packet.payload] == s.submitted[..m.index + 1];
    }
  }

  lemma ReceiverFiresKeepsInv(c: Session, s: System)
    requires c.Valid() && Inv(c, s) && Enabled(c, s, ReceiverFires)
    ensures FireReceiver(c, s).Defined? && Inv(c, FireReceiver(c, s).value)
  {
    hide Bytes, Wire;
  }

  lemma StepKeepsInv(c: Session, s: System, ev: Event)
    requires c.Valid() && Inv(c, s) && Enabled(c, s, ev)
    ensures Apply(c, s, ev).Defined? && Inv(c, Apply(c, s, ev).value)
  {
    hide Bytes, Wire, Wrap, ReceiveAck, FireSender, FireReceiver, ReceiveData;
    match ev
    case Submit(payload, upperQueue, e) => SubmitKeepsInv(c, s, payload, upperQueue, e);
    case DeliverAck(m, marked, measuredRtt, e) =>
      if m.upTo > |s.released| {
        NewAckKeepsInv(c, s, m, marked, measuredRtt, e);
      } else {
        OldAckKeepsInv(c, s, m, marked, measuredRtt, e);
      }
    case SenderFires => SenderFiresKeepsInv(c, s);
    case DeliverData(m, e) => DeliverDataKeepsInv(c, s, m, e);
    case ReceiverFires => ReceiverFiresKeepsInv(c, s);
    case LoseData(_) =>
    case LoseAck(_) =>
  }

  lemma {:induction false} RunKeepsInv(c: Session, s: System, evs: seq<Event>, t: System)
    requires c.Valid() && Inv(c, s) && Runs(c, s, evs, t)
    ensures Inv(c, t)
    decreases |evs|
  {
    hide Inv, Enabled, Apply;
    if evs != [] {
      StepKeepsInv(c, s, evs[0]);
      RunKeepsInv(c, Apply(c, s, evs[0]).value, evs[1..], t);
    }
  }

  /** Main result: in every run of fresh deliveries, however long, packets leave the send buffer only after
      the receiver accepted them, the receiver accepts the stream in order without gap or repetition, an
      acknowledgement releases exactly the packets it covers, and no transition is undefined. */
  lemma EveryFreshRunIsSafe(c: Session, evs: seq<Event>, s: System)
    requires c.Valid() && Runs(c, Start(c), evs, s)
    ensures s.released <= s.accepted <= s.submitted
    ensures s.submitted == s.released + Payloads(s.snd.buffer)
    ensures forall ev :: Enabled(c, s, ev) ==> Apply(c, s, ev).Defined?
    ensures forall m, marked, measuredRtt, e :: Enabled(c, s, DeliverAck(m, marked, measuredRtt, e)) ==>
              |Apply(c, s, DeliverAck(m, marked, measuredRtt, e)).value.released| == MaxInt(m.upTo, |s.released|)
  {
    hide Runs, Enabled, Apply;
    StartInv(c);
    RunKeepsInv(c, Start(c), evs, s);
    assert s.released == s.submitted[..|s.released|] == s.accepted[..|s.released|];
    forall ev | Enabled(c, s, ev)
      ensures Apply(c, s, ev).Defined?
    {
      StepKeepsInv(c, s, ev);
    }
    forall m, marked, measuredRtt, e | Enabled(c, s, DeliverAck(m, marked, measuredRtt, e))
      ensures |Apply(c, s, DeliverAck(m, marked, measuredRtt, e)).value.released| == MaxInt(m.upTo, |s.released|)
    {
      ReleasedByAck(c, s, m, marked, measuredRtt, e);
    }
  }

  lemma ReleasedByAck(c: Session, s: System, m: AckMessage, marked: bool, measuredRtt: real, e: real)
    requires c.Valid() && Inv(c, s) && Enabled(c, s, DeliverAck(m, marked, measuredRtt, e))
    ensures var t := Apply(c, s, DeliverAck(m, marked, measuredRtt, e));
            t.Defined? && |t.value.released| == MaxInt(m.upTo, |s.released|)
  {
    hide Bytes, Wrap, Wire, CheckWindow, ReleaseAll, ExtMarked, ExtAfterAck, ExtNextEcn, Trunc;
    if m.upTo > |s.released| {
      NewAckKeepsInv(c, s, m, marked, measuredRtt, e);
    } else {
      FreshAckDecided(c, s, m);
      var u := ExtReject(c.p, s.snd, m.ack);
      TailEffect(c.p, s.snd, u, m.ack, marked, false, ExtLimitReached(c.p, s.snd, m.ack), e);
    }
  }

  // ----- the extended pair never wedges -----

  lemma {:induction false} RunsThen(c: Session, s: System, before: seq<Event>, m: System, after: seq<Event>, t: System)
    requires Runs(c, s, before, m) && Runs(c, m, after, t)
    ensures Runs(c, s, before + after, t)
    decreases |before|
  {
    hide Enabled, Apply;
    if before == [] {
      assert before + after == after;
    } else {
      RunsThen(c, Apply(c, s, before[0]).value, before[1..], m, after, t);
      assert (before + after)[1..] == before[1..] + after;
    }
  }

  lemma Extend(c: Session, s: System, evs: seq<Event>, m: System, ev: Event) returns (longer: seq<Event>, t: System)
    requires c.Valid() && Runs(c, s, evs, m) && Inv(c, m) && Enabled(c, m, ev)
    ensures Apply(c, m, ev) == Defined(t) && Runs(c, s, longer, t) && Inv(c, t)
  {
    hide Inv, Enabled, Apply;
    StepKeepsInv(c, m, ev);
    t := Apply(c, m, ev).value;
    assert Runs(c, t, [ev][1..], t);
    RunsThen(c, s, evs, m, [ev], t);
    longer := evs + [ev];
  }

  ghost function StepsToHead(s: ExtSender): nat
    requires s.buffer != [] && PointerConsistent(s)
  {
    match s.phase
    case Sending => if s.nextToSend == 1 && ExtCanSend(s) then 0 else 3 + |s.buffer| - s.nextToSend
    case WaitAck => 1
    case WaitApp => |s.buffer| + 4
    case RequestApp => |s.buffer| + 5
  }

  lemma FiringTowardsHead(c: Session, s: System)
    requires c.Valid() && Inv(c, s) && s.snd.buffer != []
    ensures FireSender(c, s).Defined? && Inv(c, FireSender(c, s).value)
    ensures var t := FireSender(c, s).value;
            && t == s.(snd := t.snd, dataChannel := t.dataChannel) && t.snd.buffer == s.snd.buffer
            && if StepsToHead(s.snd) == 0 then DataMessage(s.snd.buffer[0], |s.released|) in t.dataChannel
               else StepsToHead(t.snd) < StepsToHead(s.snd)
  {
    hide Bytes, Wire, Trunc;
    SenderFiresKeepsInv(c, s);
    if s.snd.phase.Sending? && ExtCanSend(s.snd) {
      BufferIsShort(c.p, |s.snd.buffer|);
      WrapSmall(s.snd.nextToSend + 1);
    }
  }

  /** Left alone, the sender retransmits the head of its buffer. */
  lemma {:induction false} HeadGetsSent(c: Session, s0: System, evs0: seq<Event>, s: System)
    returns (evs: seq<Event>, t: System)
    requires c.Valid() && Runs(c, s0, evs0, s) && Inv(c, s) && s.snd.buffer != []
    ensures Runs(c, s0, evs, t) && Inv(c, t)
    ensures DataMessage(s.snd.buffer[0], |s.released|) in t.dataChannel
    ensures t == s.(snd := t.snd, dataChannel := t.dataChannel) && t.snd.buffer == s.snd.buffer
    decreases StepsToHead(s.snd)
  {
    hide Runs, FireSender;
    FiringTowardsHead(c, s);
    var evs1, u := Extend(c, s0, evs0, s, SenderFires);
    if StepsToHead(s.snd) == 0 {
      evs, t := evs1, u;
    } else {
      evs, t := HeadGetsSent(c, s0, evs1, u);
    }
  }

  /** Main result: from every state of every fresh run with a nonempty buffer, letting one retransmission and
      its acknowledgement through releases at least the oldest packet. Compare TcpProgress.OneLostAckWedges. */
  lemma AlwaysCanRelease(c: Session, s: System)
    requires c.Valid() && Reachable(c, s) && s.snd.buffer != []
    ensures exists evs, t :: Runs(c, s, evs, t) && |t.released| > |s.released|
  {
    hide Runs, Apply, Enabled, Bytes, Wire;
    var evs0 :| Runs(c, Start(c), evs0, s);
    StartInv(c);
    RunKeepsInv(c, Start(c), evs0, s);
    assert Runs(c, s, [], s) by {
      EmptyRun(c, s);
    }
    var e1, s1 := HeadGetsSent(c, s, [], s);
    var m := DataMessage(s.snd.buffer[0], |s.released|);
    var e2, s2 := DeliverHead(c, s, e1, s1, m);
    var e3, s3 := Answer(c, s, e2, s2);
    var ack := AckMessage(Wire(c.p, |s2.accepted|), |s2.accepted|);
    HeadAckIsFresh(c, s3, ack);
    ReleasedByAck(c, s3, ack, false, 0.0, 0.0);
    var e4, s4 := Extend(c, s, e3, s3, DeliverAck(ack, false, 0.0, 0.0));
  }

  lemma EmptyRun(c: Session, s: System)
    ensures Runs(c, s, [], s)
  {
  }

  lemma DeliverHead(c: Session, s0: System, evs0: seq<Event>, s: System, m: DataMessage)
    returns (evs: seq<Event>, t: System)
    requires c.Valid() && Runs(c, s0, evs0, s) && Inv(c, s) && m in s.dataChannel && m.index == |s.released|
    requires s.snd.buffer != []
    ensures Runs(c, s0, evs, t) && Inv(c, t) && t == s.(rcv := t.rcv, accepted := t.accepted)
    ensures |t.accepted| > |s.released| && t.rcv.arrived.Some?
  {
    hide Runs, Wire, Bytes, Wrap;
    SenderIsAligned(c, s);
    BytesOrder(c.p, 0, |s.accepted| - m.index);
    BytesMonotone(c.p, |s.accepted| - m.index, |s.snd.buffer|);
    BytesMonotone(c.p, m.index - |s.accepted|, 0);
    BytesStep(c.p, 0);
    DeliverDataKeepsInv(c, s, m, 0.0);
    evs, t := Extend(c, s0, evs0, s, DeliverData(m, 0.0));
  }

  lemma Answer(c: Session, s0: System, evs0: seq<Event>, s: System) returns (evs: seq<Event>, t: System)
    requires c.Valid() && Runs(c, s0, evs0, s) && Inv(c, s) && s.rcv.arrived.Some?
    ensures Runs(c, s0, evs, t) && Inv(c, t) && t == s.(rcv := t.rcv, ackChannel := t.ackChannel)
    ensures AckMessage(Wire(c.p, |s.accepted|), |s.accepted|) in t.ackChannel
  {
    hide Runs, Wire, Bytes;
    evs, t := Extend(c, s0, evs0, s, ReceiverFires);
  }

  lemma HeadAckIsFresh(c: Session, s: System, m: AckMessage)
    requires c.Valid() && Inv(c, s) && m in s.ackChannel && m.upTo == |s.accepted| > |s.released|
    ensures Enabled(c, s, DeliverAck(m, false, 0.0, 0.0))
  {
    hide Bytes, Wire;
    SenderIsAligned(c, s);
    BytesMonotone(c.p, |s.submitted| + 1 - m.upTo, |s.snd.buffer|);
  }
}
