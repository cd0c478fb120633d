/** The extended TCP sender of `packettcpsnd_ext`: sequence numbers wrap at 2^32, and one acknowledgement
    may release several packets. Formulas shared with the basic sender come from TcpSender. */
module TcpSenderExt {
  import opened Devs
  import opened Seq32
  import opened TcpSender

  /** With segments of one byte the pointer into a buffer of 2^32 - 1 packets would wrap as well. The limit, the cap
      and the threshold are unsigned numbers. */
  datatype ExtParams = ExtParams(base: Params, minRto: real) {
    ghost predicate Valid() {
      && base.Valid() && 2 <= base.segmentSize < MODULUS && minRto >= 0.0
      && base.dupAckLimit >= 0 && base.cwndMax >= 0 && base.initialThreshold >= 0
    }
  }

  /** The fields of the basic sender, without the cycle marker and the copy of the last packet, which no
      branch of the extended sender reads. */
  datatype ExtSender = ExtSender(
    buffer: seq<Packet>,
    nextToSend: U32,
    expectedAck: U32,
    lastValidAck: U32,
    dupAcks: int,
    cwnd: real,
    threshold: int,
    nextSeq: U32,
    ecnFrom: U32,
    rtt: real,
    rttDeviation: real,
    rto: real,
    phase: Phase,
    sigma: Duration)

  // ----- specification -----

  function ExtRto(p: ExtParams, rtt: real, deviation: real): real {
    MaxReal(p.minRto, if p.base.forcedRto >= 0.0 then p.base.forcedRto else rtt + 4.0 * deviation)
  }

  /** The bound for congestion marks starts at -1, which is 2^32 - 1 as an unsigned number. */
  function ExtInit(p: ExtParams): ExtSender {
    ExtSender([], 0, Wrap(p.base.segmentSize + 1), 1, 0, 1.0, p.base.initialThreshold, 1, Wrap(-1),
              p.base.initialRtt, 0.0, ExtRto(p, p.base.initialRtt, 0.0), RequestApp, Finite(0.0))
  }

  predicate ExtCanSend(s: ExtSender) {
    s.buffer != [] && s.nextToSend <= |s.buffer| && s.nextToSend as real <= s.cwnd
  }

  function ExtLambda(s: ExtSender): Outcome<Output> {
    match s.phase
    case RequestApp => Defined(Request)
    case WaitApp => Defined(Nothing)
    case WaitAck => Defined(Nothing)
    case Sending =>
      if !ExtCanSend(s) then Defined(Nothing)
      else if s.nextToSend < 1 then Undefined
      else Defined(Segment(s.buffer[s.nextToSend - 1]))
  }

  function ExtTimeout(s: ExtSender): ExtSender {
    var t := s.(dupAcks := 0, threshold := MaxInt(1, Trunc(s.cwnd / 2.0)), cwnd := 1.0, nextToSend := 1,
                lastValidAck := Wrap(-1), sigma := Finite(0.0));
    if |s.buffer| as real < 1.0 then t.(phase := RequestApp) else t.(phase := Sending)
  }

  function ExtDint(p: ExtParams, s: ExtSender): ExtSender {
    match s.phase
    case RequestApp => s.(phase := WaitApp, sigma := Finite(p.base.interRequestTime))
    case WaitApp =>
      if s.buffer != [] then s.(phase := Sending, sigma := Finite(p.base.interpacketTime))
      else s.(sigma := Infinite)
    case Sending =>
      if ExtCanSend(s) then s.(nextToSend := Wrap(s.nextToSend + 1), sigma := Finite(p.base.interpacketTime))
      else s.(phase := WaitAck, sigma := Finite(s.rto))
    case WaitAck => ExtTimeout(s)
  }

  function ExtEnqueue(p: ExtParams, s: ExtSender, payload: int): ExtSender {
    var buffer := s.buffer + [Packet(s.nextSeq, payload)];
    s.(buffer := buffer, nextSeq := Wrap(s.nextSeq + p.base.segmentSize),
       nextToSend := if |buffer| == 1 then 1 else s.nextToSend)
  }

  /** The acceptance test for an acknowledgement number. */
  predicate Acceptable(p: ExtParams, s: ExtSender, ack: U32) {
    CheckWindow(s.expectedAck, ack, Wrap(s.nextSeq + p.base.segmentSize))
  }

  /** One turn of the loop: the head leaves, and the window follows. */
  function ReleaseOne(p: ExtParams, s: ExtSender, ack: U32, measuredRtt: real): ExtSender
    requires s.buffer != []
  {
    ExtResize(p, ExtPopHead(p, s, ack), measuredRtt)
  }

  function ExtPopHead(p: ExtParams, s: ExtSender, ack: U32): ExtSender
    requires s.buffer != []
  {
    s.(buffer := s.buffer[1..], lastValidAck := ack, expectedAck := Wrap(s.expectedAck + p.base.segmentSize),
       nextToSend := MaxInt(1, Wrap(s.nextToSend - 1)))
  }

  function ExtResize(p: ExtParams, s: ExtSender, measuredRtt: real): ExtSender {
    var t :=
      if s.dupAcks >= p.base.dupAckLimit then s.(cwnd := s.threshold as real)
      else ExtMeasure(p, s, measuredRtt);
    t.(dupAcks := 0)
  }

  function ExtMeasure(p: ExtParams, s: ExtSender, measuredRtt: real): ExtSender {
    var rtt := Smooth(p.base.rttAlfa, s.rtt, measuredRtt);
    var deviation := Smooth(p.base.rttAlfa, s.rttDeviation, AbsReal(rtt - measuredRtt));
    s.(rtt := rtt, rttDeviation := deviation, rto := ExtRto(p, rtt, deviation), cwnd := Grown(s.cwnd, s.threshold))
  }

  lemma KeepsBuffer(p: ExtParams, s: ExtSender, ack: U32, measuredRtt: real)
    requires s.buffer != []
    ensures ReleaseOne(p, s, ack, measuredRtt).buffer == s.buffer[1..]
  {
    hide Smooth, ExtRto, Grown, Wrap;
  }

  /** The whole loop; popping an empty buffer is undefined. */
  function ReleaseAll(p: ExtParams, s: ExtSender, ack: U32, measuredRtt: real): Outcome<ExtSender>
    decreases |s.buffer|
  {
    if !Acceptable(p, s, ack) then Defined(s)
    else if s.buffer == [] then Undefined
    else ReleaseAll(p, ReleaseOne(p, s, ack, measuredRtt), ack, measuredRtt)
  }

  /** The bound for congestion marks is stored as an unsigned number. */
  function ExtNextEcn(ack: U32, cwnd: real, segmentSize: int): U32 {
    Wrap(NextEcn(ack, cwnd, segmentSize))
  }

  lemma BoundInBytes(ack: U32, cwnd: real, segmentSize: int)
    ensures ExtNextEcn(ack, cwnd, segmentSize) == Wrap(Trunc(ack as real + cwnd * segmentSize as real))
  {
  }

  predicate ExtFastRetransmits(p: ExtParams, s: ExtSender, ack: U32) {
    !Acceptable(p, s, ack) && ack == s.lastValidAck && s.dupAcks + 1 == p.base.dupAckLimit
  }

  predicate ExtRecovers(p: ExtParams, s: ExtSender, ack: U32) {
    !Acceptable(p, s, ack) && ack == s.lastValidAck && s.dupAcks + 1 > p.base.dupAckLimit && ack > 0
  }

  function ExtReject(p: ExtParams, s: ExtSender, ack: U32): ExtSender {
    if ExtFastRetransmits(p, s, ack) then
      s.(dupAcks := s.dupAcks + 1, ecnFrom := ExtNextEcn(ack, s.cwnd, p.base.segmentSize),
         threshold := MaxInt(1, Trunc(s.cwnd / 2.0)), cwnd := MaxReal(1.0, AbsReal(s.cwnd / 2.0) + 3.0), nextToSend := 1)
    else if ExtRecovers(p, s, ack) then
      s.(dupAcks := s.dupAcks + 1,
         cwnd := if s.cwnd + 1.0 > p.base.cwndMax as real then p.base.cwndMax as real else s.cwnd + 1.0)
    else if ack == s.lastValidAck then s.(dupAcks := s.dupAcks + 1)
    else s
  }

  function ExtAckHandled(p: ExtParams, s: ExtSender, ack: U32, measuredRtt: real): Outcome<ExtSender> {
    if Acceptable(p, s, ack) then ReleaseAll(p, s, ack, measuredRtt) else Defined(ExtReject(p, s, ack))
  }

  predicate ExtLimitReached(p: ExtParams, s: ExtSender, ack: U32) {
    ExtFastRetransmits(p, s, ack) || ExtRecovers(p, s, ack)
  }

  /** The state after the congestion mark. */
  function ExtMarked(p: ExtParams, s: ExtSender, ack: U32, marked: bool, limit: bool): ExtSender {
    if marked && ack >= s.ecnFrom && !limit then
      s.(ecnFrom := ExtNextEcn(ack, s.cwnd, p.base.segmentSize), threshold := MaxInt(1, Trunc(s.cwnd / 2.0)),
         cwnd := MaxReal(1.0, AbsReal(s.cwnd / 2.0)), dupAcks := 0)
    else s
  }

  function ExtAfterData(p: ExtParams, s: ExtSender, upperQueue: real, e: real): ExtSender {
    match s.phase
    case WaitApp =>
      if |s.buffer| as real < s.cwnd && upperQueue > 0.0 then s.(phase := RequestApp, sigma := Finite(0.0))
      else s.(phase := Sending, sigma := Finite(p.base.interpacketTime))
    case WaitAck => s.(sigma := Finite(s.rto))
    case _ => s.(sigma := s.sigma.Minus(e))
  }

  /** While waiting for the application an acknowledgement falls through to the next case. */
  function ExtAfterAck(p: ExtParams, s: ExtSender, valid: bool, limit: bool, e: real): ExtSender {
    if s.phase.WaitAck? && valid then s.(phase := RequestApp, sigma := Finite(0.0))
    else if s.phase.WaitAck? && limit then s.(phase := Sending, sigma := Finite(p.base.interpacketTime))
    else s.(sigma := s.sigma.Minus(e))
  }

  function ExtDextData(p: ExtParams, s: ExtSender, payload: int, upperQueue: real, e: real): ExtSender {
    ExtAfterData(p, ExtEnqueue(p, s, payload), upperQueue, e)
  }

  function ExtDextAck(p: ExtParams, s: ExtSender, ack: U32, marked: bool, measuredRtt: real, e: real): Outcome<ExtSender> {
    match ExtAckHandled(p, s, ack, measuredRtt)
    case Undefined => Undefined
    case Defined(t) =>
      var limit := ExtLimitReached(p, s, ack);
      Defined(ExtAfterAck(p, ExtMarked(p, t, ack, marked, limit), Acceptable(p, s, ack), limit, e))
  }

  // ----- how many packets an acknowledgement releases -----

  /** The length of n packets. */
  function Bytes(p: ExtParams, n: int): int {
    n * p.base.segmentSize
  }

  lemma BytesOrder(p: ExtParams, m: int, n: int)
    requires p.Valid()
    ensures Bytes(p, 0) == 0 && Bytes(p, 1) == p.base.segmentSize
    ensures Bytes(p, m) + Bytes(p, n) == Bytes(p, m + n) && Bytes(p, m) - Bytes(p, n) == Bytes(p, m - n)
    ensures m < n <==> Bytes(p, m) < Bytes(p, n)
    ensures m == n <==> Bytes(p, m) == Bytes(p, n)
  {
    if m < n {
      assert (n - m) * p.base.segmentSize >= 1;
    } else if n < m {
      assert (m - n) * p.base.segmentSize >= 1;
    }
  }

  lemma BytesStep(p: ExtParams, n: int)
    ensures Bytes(p, n) == Bytes(p, n - 1) + p.base.segmentSize && Bytes(p, 0) == 0
  {
  }

  lemma BytesMonotone(p: ExtParams, m: int, n: int)
    requires p.Valid() && m <= n
    ensures Bytes(p, m) <= Bytes(p, n)
  {
    BytesOrder(p, m, n);
  }

  /** The three counters agree: the buffer holds the packets between them. */
  ghost predicate Aligned(p: ExtParams, s: ExtSender) {
    s.nextSeq == Wrap(s.expectedAck - p.base.segmentSize + Bytes(p, |s.buffer|))
  }

  /** How far the acknowledgement lies beyond the first acceptable number. */
  function Offset(s: ExtSender, ack: U32): U32 {
    Wrap(ack - s.expectedAck)
  }

  /** The acceptance test is membership of a circular interval as long as the buffer, modulo 2^32. */
  lemma AcceptableIffInsideBuffer(p: ExtParams, s: ExtSender, ack: U32)
    requires Aligned(p, s)
    ensures Acceptable(p, s, ack) <==> Offset(s, ack) < Wrap(Bytes(p, |s.buffer|))
  {
    hide Bytes, Wrap, CheckWindow;
    var mss, length := p.base.segmentSize, Bytes(p, |s.buffer|);
    var right := Wrap(s.nextSeq + mss);
    CheckWindowIsCircular(s.expectedAck, ack, right);
    WrapDifference(s.expectedAck - mss + length, mss);
    assert right == Wrap(s.expectedAck + length);
    WrapDifference(s.expectedAck + length, s.expectedAck);
    WrapSmall(s.expectedAck);
    assert Wrap(right - s.expectedAck) == Wrap(length);
  }

  /** When 2^32 bytes or more are buffered the test measures the wrong interval: with exactly 2^32 bytes
      no acknowledgement at all is acceptable. */
  lemma FullSpaceRefusesEverything(p: ExtParams, s: ExtSender, ack: U32)
    requires Aligned(p, s) && Bytes(p, |s.buffer|) == MODULUS
    ensures !Acceptable(p, s, ack)
  {
    hide Bytes, CheckWindow;
    AcceptableIffInsideBuffer(p, s, ack);
  }

  lemma ReleaseKeepsAligned(p: ExtParams, s: ExtSender, ack: U32, measuredRtt: real)
    requires p.Valid() && Aligned(p, s) && s.buffer != []
    ensures Aligned(p, ReleaseOne(p, s, ack, measuredRtt))
  {
    hide Bytes, Wrap, Smooth, ExtRto, Grown;
    var mss := p.base.segmentSize;
    var rest := Bytes(p, |s.buffer| - 1);
    BytesOrder(p, |s.buffer|, 1);
    WrapDifference(s.expectedAck + mss, -mss + rest);
  }

  lemma OffsetAfterRelease(p: ExtParams, s: ExtSender, u: ExtSender, ack: U32)
    requires p.Valid() && u.expectedAck == Wrap(s.expectedAck + p.base.segmentSize)
    ensures var offset := Offset(s, ack);
            Offset(u, ack) == offset - p.base.segmentSize + if offset < p.base.segmentSize then MODULUS else 0
  {
    hide Wrap;
    var mss := p.base.segmentSize;
    WrapDifference(ack, s.expectedAck + mss);
    WrapSmall(ack);
    assert Offset(u, ack) == Wrap(ack - s.expectedAck - mss);
    WrapDifference(ack - s.expectedAck, -mss);
    WrapSmall(Offset(s, ack) - mss);
  }

  /** One turn of the loop either finishes it or brings the acknowledgement one packet nearer. */
  lemma LoopTurn(p: ExtParams, s: ExtSender, ack: U32, measuredRtt: real)
    requires p.Valid() && Aligned(p, s) && Bytes(p, |s.buffer|) < MODULUS && Offset(s, ack) < Bytes(p, |s.buffer|)
    ensures Acceptable(p, s, ack) && s.buffer != []
    ensures var u := ReleaseOne(p, s, ack, measuredRtt);
            && u.buffer == s.buffer[1..] && u.nextSeq == s.nextSeq
            && u.expectedAck == Wrap(s.expectedAck + p.base.segmentSize)
            && Aligned(p, u) && Bytes(p, |u.buffer|) == Bytes(p, |s.buffer|) - p.base.segmentSize
            && if Offset(s, ack) < p.base.segmentSize then !Acceptable(p, u, ack)
               else Offset(u, ack) == Offset(s, ack) - p.base.segmentSize && Acceptable(p, u, ack)
  {
    hide Bytes, CheckWindow, Smooth, ExtRto, Grown, Wrap;
    BytesOrder(p, |s.buffer|, 0);
    WrapSmall(Bytes(p, |s.buffer|));
    AcceptableIffInsideBuffer(p, s, ack);
    var u := ReleaseOne(p, s, ack, measuredRtt);
    ReleaseKeepsAligned(p, s, ack, measuredRtt);
    OffsetAfterRelease(p, s, u, ack);
    BytesOrder(p, |s.buffer|, 1);
    BytesOrder(p, |u.buffer|, 0);
    WrapSmall(Bytes(p, |u.buffer|));
    AcceptableIffInsideBuffer(p, u, ack);
  }

  lemma {:induction false} LoopReleases(p: ExtParams, s: ExtSender, ack: U32, measuredRtt: real, count: nat)
    requires p.Valid() && Aligned(p, s) && Bytes(p, |s.buffer|) < MODULUS && 1 <= count <= |s.buffer|
    requires Bytes(p, count - 1) <= Offset(s, ack) < Bytes(p, count)
    ensures ReleaseAll(p, s, ack, measuredRtt).Defined?
    ensures var t := ReleaseAll(p, s, ack, measuredRtt).value;
            && t.buffer == s.buffer[count..] && t.nextSeq == s.nextSeq && Aligned(p, t)
            && t.expectedAck == Wrap(s.expectedAck + Bytes(p, count))
    decreases count
  {
    hide Bytes, Acceptable, ReleaseOne, Wrap, Aligned, Offset;
    BytesMonotone(p, count, |s.buffer|);
    LoopTurn(p, s, ack, measuredRtt);
    var u := ReleaseOne(p, s, ack, measuredRtt);
    BytesStep(p, 1);
    if count == 1 {
      assert ReleaseAll(p, s, ack, measuredRtt) == Defined(u);
    } else {
      BytesStep(p, count - 1);
      BytesStep(p, count);
      BytesMonotone(p, 1, count - 1);
      LoopReleases(p, u, ack, measuredRtt, count - 1);
      WrapDifference(s.expectedAck + p.base.segmentSize, Bytes(p, count - 1));
      assert s.buffer[1..][count - 1..] == s.buffer[count..];
    }
  }

  /** Packets released by an acceptable acknowledgement. */
  function ReleaseCount(p: ExtParams, s: ExtSender, ack: U32): int
    requires p.base.segmentSize >= 1
  {
    1 + Offset(s, ack) / p.base.segmentSize
  }

  lemma DivideBounds(x: nat, d: nat)
    requires d >= 1
    ensures x / d >= 0 && x / d * d <= x < (x / d + 1) * d
  {
    var q, r := x / d, x % d;
    assert x == d * q + r && 0 <= r < d;
    assert (q + 1) * d == q * d + d;
  }

  lemma ReleaseCountBounds(p: ExtParams, s: ExtSender, ack: U32)
    requires p.Valid()
    ensures var count := ReleaseCount(p, s, ack);
            count >= 1 && Bytes(p, count - 1) <= Offset(s, ack) < Bytes(p, count)
  {
    hide Offset;
    DivideBounds(Offset(s, ack), p.base.segmentSize);
  }

  lemma {:induction false} LoopEnds(p: ExtParams, s: ExtSender, ack: U32, measuredRtt: real)
    requires ReleaseAll(p, s, ack, measuredRtt).Defined?
    ensures !Acceptable(p, ReleaseAll(p, s, ack, measuredRtt).value, ack)
    decreases |s.buffer|
  {
    hide CheckWindow, Smooth, ExtRto, Grown, Wrap;
    if Acceptable(p, s, ack) {
      LoopEnds(p, ReleaseOne(p, s, ack, measuredRtt), ack, measuredRtt);
    }
  }

  /** Main result: while less than 2^32 bytes are buffered, an acceptable acknowledgement releases exactly
      1 + ((ACK - left) mod 2^32) / MSS packets, the loop ends, and it never pops an empty buffer. */
  lemma ReleasedCount(p: ExtParams, s: ExtSender, ack: U32, measuredRtt: real)
    requires p.Valid() && Aligned(p, s) && Bytes(p, |s.buffer|) < MODULUS && Acceptable(p, s, ack)
    ensures ReleaseAll(p, s, ack, measuredRtt).Defined?
    ensures var t := ReleaseAll(p, s, ack, measuredRtt).value;
            var count := ReleaseCount(p, s, ack);
            && 1 <= count <= |s.buffer| && t.buffer == s.buffer[count..] && !Acceptable(p, t, ack)
            && t.expectedAck == Wrap(s.expectedAck + Bytes(p, count))
  {
    hide Bytes, Acceptable, Wrap, ReleaseAll, Aligned, Offset, ReleaseCount;
    BytesOrder(p, |s.buffer|, 0);
    WrapSmall(Bytes(p, |s.buffer|));
    AcceptableIffInsideBuffer(p, s, ack);
    ReleaseCountBounds(p, s, ack);
    var count := ReleaseCount(p, s, ack);
    BytesOrder(p, count - 1, |s.buffer|);
    LoopReleases(p, s, ack, measuredRtt, count);
    LoopEnds(p, s, ack, measuredRtt);
  }

  /** For acknowledgements on the sender's grid, below 2^32 buffered bytes, this is the acceptance test of section
      3.3 of RFC 793, SND.UNA < SEG.ACK <= SND.NXT read as distances from SND.UNA, except in exactly one case: when
      less than a segment is left of the sequence space, a duplicate of SND.UNA is accepted as well. */
  lemma AcceptanceIsRfc793(p: ExtParams, s: ExtSender, una: U32, ack: U32, k: nat)
    requires p.Valid() && Aligned(p, s) && Bytes(p, |s.buffer|) < MODULUS
    requires s.expectedAck == Wrap(una + p.base.segmentSize)
    requires ack == Wrap(una + Bytes(p, k)) && Bytes(p, k) < MODULUS
    ensures (Acceptable(p, s, ack) <==> 0 < Wrap(ack - una) <= Wrap(s.nextSeq - una))
            <==> k > 0 || Bytes(p, |s.buffer|) + p.base.segmentSize <= MODULUS
  {
    hide Bytes, CheckWindow, Wrap;
    var mss, n := p.base.segmentSize, |s.buffer|;
    AcceptableIffInsideBuffer(p, s, ack);
    BytesOrder(p, n, 0);
    BytesOrder(p, k, 0);
    BytesOrder(p, k, 1);
    BytesOrder(p, k - 1, n);
    BytesOrder(p, k, n);
    WrapSmall(Bytes(p, n));
    WrapSmall(Bytes(p, k));
    WrapSmall(Bytes(p, k - 1));
    WrapDifference(una + Bytes(p, k), una);
    WrapDifference(una + Bytes(p, k), una + mss);
    WrapSmall(una);
    WrapDifference(una + mss, -mss + Bytes(p, n));
    WrapDifference(una + Bytes(p, n), una);
  }

  lemma {:induction false} LoopKeepsLimit(p: ExtParams, s: ExtSender, ack: U32, measuredRtt: real)
    requires ReleaseAll(p, s, ack, measuredRtt).Defined?
    ensures ReleaseAll(p, s, ack, measuredRtt).value.ecnFrom == s.ecnFrom
    ensures ReleaseAll(p, s, ack, measuredRtt).value.phase == s.phase
    ensures ReleaseAll(p, s, ack, measuredRtt).value.sigma == s.sigma
    decreases |s.buffer|
  {
    hide Smooth, ExtRto, Grown, CheckWindow;
    if Acceptable(p, s, ack) {
      LoopKeepsLimit(p, ReleaseOne(p, s, ack, measuredRtt), ack, measuredRtt);
    }
  }

  // ----- the imperative model -----

  class PacketTcpSndExt {
    const p: ExtParams
    var sendBuffer: seq<Packet>
    var bufSize: int
    var wndNxtSnd: U32
    var seqNextExpectedAck: U32
    var seqLastValidAck: U32
    var wndDupAck: int
    var wndCwnd: real
    var wndSsthresh: int
    var seqNxt: U32
    var seqNextAcceptedEcnMark: U32
    var tRtt: real
    var tRttDeviation: real
    var tRto: real
    var myState: Phase
    var sigma: Duration

    ghost predicate Valid()
      reads this
    {
      bufSize == |sendBuffer|
    }

    ghost function State(): ExtSender
      reads this
    {
      ExtSender(sendBuffer, wndNxtSnd, seqNextExpectedAck, seqLastValidAck, wndDupAck, wndCwnd, wndSsthresh,
                seqNxt, seqNextAcceptedEcnMark, tRtt, tRttDeviation, tRto, myState, sigma)
    }

    constructor (params: ExtParams)
      ensures p == params && Valid() && State() == ExtInit(params)
    {
      p := params;
      sendBuffer := [];
      bufSize := 0;
      wndNxtSnd := 0;
      seqNextExpectedAck := Wrap(params.base.segmentSize + 1);
      seqLastValidAck := 1;
      wndDupAck := 0;
      wndCwnd := 1.0;
      wndSsthresh := params.base.initialThreshold;
      seqNxt := 1;
      seqNextAcceptedEcnMark := Wrap(-1);
      tRtt := params.base.initialRtt;
      tRttDeviation := 0.0;
      tRto := ExtRto(params, params.base.initialRtt, 0.0);
      myState := RequestApp;
      sigma := Finite(0.0);
    }

    method OnLambda() returns (out: Output)
      requires Valid() && ExtLambda(State()).Defined?
      ensures ExtLambda(State()) == Defined(out)
    {
      out := Nothing;
      match myState {
        case RequestApp => out := Request;
        case Sending =>
          if bufSize > 0 && wndNxtSnd <= bufSize && wndNxtSnd as real <= wndCwnd {
            out := Segment(sendBuffer[wndNxtSnd - 1]);
          }
        case _ =>
      }
    }

    method OnDint()
      requires Valid()
      modifies this
      ensures Valid() && State() == ExtDint(p, old(State()))
    {
      hide ExtTimeout, Wrap;
      match myState {
        case RequestApp =>
          myState := WaitApp;
          sigma := Finite(p.base.interRequestTime);
        case WaitApp =>
          if bufSize > 0 {
            myState := Sending;
            sigma := Finite(p.base.interpacketTime);
          } else {
            sigma := Infinite;
          }
        case Sending =>
          if bufSize > 0 && wndNxtSnd <= bufSize && wndNxtSnd as real <= wndCwnd {
            wndNxtSnd := Wrap(wndNxtSnd + 1);
            sigma := Finite(p.base.interpacketTime);
          } else {
            myState := WaitAck;
            sigma := Finite(tRto);
          }
        case WaitAck => OnTimeout();
      }
    }

    method OnTimeout()
      requires Valid()
      modifies this
      ensures Valid() && State() == ExtTimeout(old(State()))
    {
      hide Trunc, MaxInt;
      ShrinkToOne();
      wndDupAck := 0;
      wndNxtSnd := 1;
      seqLastValidAck := Wrap(-1);
      if bufSize as real < wndCwnd {
        myState := RequestApp;
      } else {
        myState := Sending;
      }
      sigma := Finite(0.0);
    }

    /** The window of one packet after a time-out, and half the old one as threshold. */
    method ShrinkToOne()
      modifies this`wndSsthresh, this`wndCwnd
      ensures wndCwnd == 1.0 && wndSsthresh == MaxInt(1, Trunc(old(wndCwnd) / 2.0))
    {
      wndSsthresh := Trunc(wndCwnd / 2.0);
      wndSsthresh := MaxInt(1, wndSsthresh);
      wndCwnd := 1.0;
    }

    method OnData(payload: int, upperQueue: real, e: real)
      requires Valid()
      modifies this
      ensures Valid() && State() == ExtDextData(p, old(State()), payload, upperQueue, e)
    {
      hide ExtAfterData, Wrap;
      var packet := Packet(seqNxt, payload);
      seqNxt := Wrap(seqNxt + p.base.segmentSize);
      sendBuffer := sendBuffer + [packet];
      bufSize := |sendBuffer|;
      if bufSize == 1 {
        wndNxtSnd := 1;
      }
      ChangePhaseAfterData(upperQueue, e);
    }

    method ChangePhaseAfterData(upperQueue: real, e: real)
      requires Valid()
      modifies this`myState, this`sigma
      ensures Valid() && State() == ExtAfterData(p, old(State()), upperQueue, e)
    {
      match myState {
        case WaitApp =>
          if bufSize as real < wndCwnd && upperQueue > 0.0 {
            myState := RequestApp;
            sigma := Finite(0.0);
          } else {
            myState := Sending;
            sigma := Finite(p.base.interpacketTime);
          }
        case WaitAck => sigma := Finite(tRto);
        case _ => sigma := sigma.Minus(e);
      }
    }

    method OnAck(ack: U32, marked: bool, measuredRtt: real, e: real)
      requires Valid() && ExtDextAck(p, State(), ack, marked, measuredRtt, e).Defined?
      modifies this
      ensures Valid() && ExtDextAck(p, old(State()), ack, marked, measuredRtt, e) == Defined(State())
    {
      hide CheckWindow, ExtReject, ExtMarked, ReleaseAll;
      var valid := CheckWindow(seqNextExpectedAck, ack, Wrap(seqNxt + p.base.segmentSize));
      var limit := false;
      if valid {
        ReleaseLoop(ack, measuredRtt);
      } else {
        limit := RejectAck(ack);
      }
      ReactToMark(ack, marked, limit);
      if myState.WaitAck? && valid {
        myState := RequestApp;
        sigma := Finite(0.0);
      } else if myState.WaitAck? && limit {
        myState := Sending;
        sigma := Finite(p.base.interpacketTime);
      } else {
        sigma := sigma.Minus(e);
      }
    }

    /** The loop of the source: pop, advance, resize, until the number is no longer acceptable. */
    method ReleaseLoop(ack: U32, measuredRtt: real)
      requires Valid() && ReleaseAll(p, State(), ack, measuredRtt).Defined?
      modifies this
      ensures Valid() && ReleaseAll(p, old(State()), ack, measuredRtt) == Defined(State())
    {
      hide CheckWindow, ReleaseOne;
      while CheckWindow(seqNextExpectedAck, ack, Wrap(seqNxt + p.base.segmentSize))
        invariant Valid()
        invariant ReleaseAll(p, State(), ack, measuredRtt) == ReleaseAll(p, old(State()), ack, measuredRtt)
        decreases |sendBuffer|
      {
        ReleaseHead(ack, measuredRtt);
      }
    }

    method ReleaseHead(ack: U32, measuredRtt: real)
      requires Valid() && sendBuffer != []
      modifies this
      ensures Valid() && State() == ReleaseOne(p, old(State()), ack, measuredRtt) && sendBuffer == old(sendBuffer[1..])
    {
      hide ExtMeasure, ExtPopHead, ExtResize;
      PopHead(ack);
      Resize(measuredRtt);
      KeepsBuffer(p, old(State()), ack, measuredRtt);
    }

    method PopHead(ack: U32)
      requires Valid() && sendBuffer != []
      modifies this`sendBuffer, this`bufSize, this`seqLastValidAck, this`seqNextExpectedAck, this`wndNxtSnd
      ensures Valid() && State() == ExtPopHead(p, old(State()), ack)
    {
      hide Wrap;
      sendBuffer := sendBuffer[1..];
      bufSize := |sendBuffer|;
      seqLastValidAck := ack;
      seqNextExpectedAck := Wrap(seqNextExpectedAck + p.base.segmentSize);
      wndNxtSnd := Wrap(wndNxtSnd - 1);
      wndNxtSnd := MaxInt(1, wndNxtSnd);
    }

    method Resize(measuredRtt: real)
      requires Valid()
      modifies this`tRtt, this`tRttDeviation, this`tRto, this`wndCwnd, this`wndDupAck
      ensures Valid() && State() == ExtResize(p, old(State()), measuredRtt)
    {
      hide ExtMeasure;
      if wndDupAck >= p.base.dupAckLimit {
        wndCwnd := wndSsthresh as real;
      } else {
        Measure(measuredRtt);
      }
      wndDupAck := 0;
    }

    method Measure(measuredRtt: real)
      requires Valid()
      modifies this`tRtt, this`tRttDeviation, this`tRto, this`wndCwnd
      ensures Valid() && State() == ExtMeasure(p, old(State()), measuredRtt)
    {
      hide Smooth, ExtRto, Grown;
      UpdateRoundTrip(measuredRtt);
      UpdateTimeout();
      GrowWindow();
    }

    /** The smoothed round trip and its deviation. */
    method UpdateRoundTrip(measuredRtt: real)
      modifies this`tRtt, this`tRttDeviation
      ensures tRtt == Smooth(p.base.rttAlfa, old(tRtt), measuredRtt)
      ensures tRttDeviation == Smooth(p.base.rttAlfa, old(tRttDeviation), AbsReal(tRtt - measuredRtt))
    {
      tRtt := p.base.rttAlfa * tRtt + (1.0 - p.base.rttAlfa) * measuredRtt;
      tRttDeviation := p.base.rttAlfa * tRttDeviation + (1.0 - p.base.rttAlfa) * AbsReal(tRtt - measuredRtt);
    }

    method UpdateTimeout()
      modifies this`tRto
      ensures tRto == ExtRto(p, tRtt, tRttDeviation)
    {
      if p.base.forcedRto >= 0.0 {
        tRto := p.base.forcedRto;
      } else {
        tRto := tRtt + 4.0 * tRttDeviation;
      }
      tRto := MaxReal(p.minRto, tRto);
    }

    /** Slow start or congestion avoidance. */
    method GrowWindow()
      modifies this`wndCwnd
      ensures wndCwnd == Grown(old(wndCwnd), wndSsthresh)
    {
      if wndCwnd < wndSsthresh as real {
        wndCwnd := wndCwnd + 1.0;
      } else if wndCwnd != 0.0 {
        wndCwnd := wndCwnd + 1.0 / wndCwnd;
      }
    }

    /** The acknowledgement plus a window of bytes, stored as an unsigned number. */
    method NextMarkAfter(ack: U32) returns (bound: U32)
      ensures bound == ExtNextEcn(ack, wndCwnd, p.base.segmentSize)
    {
      hide Wrap, Trunc, NextEcn;
      var cwnd, size := wndCwnd, p.base.segmentSize;
      BoundInBytes(ack, cwnd, size);
      bound := Wrap(Trunc(ack as real + cwnd * size as real));
    }

    method RejectAck(ack: U32) returns (limit: bool)
      requires Valid() && !Acceptable(p, State(), ack)
      modifies this
      ensures Valid() && State() == ExtReject(p, old(State()), ack)
      ensures limit <==> ExtLimitReached(p, old(State()), ack)
    {
      hide CheckWindow, Wrap;
      limit := false;
      if ack == seqLastValidAck {
        wndDupAck := wndDupAck + 1;
        if wndDupAck == p.base.dupAckLimit {
          limit := true;
          seqNextAcceptedEcnMark := NextMarkAfter(ack);
          wndSsthresh := Trunc(wndCwnd / 2.0);
          wndSsthresh := MaxInt(1, wndSsthresh);
          wndCwnd := MaxReal(1.0, AbsReal(wndCwnd / 2.0) + 3.0);
          wndNxtSnd := 1;
        } else if wndDupAck > p.base.dupAckLimit && ack > 0 {
          wndCwnd := wndCwnd + 1.0;
          if wndCwnd > p.base.cwndMax as real {
            wndCwnd := p.base.cwndMax as real;
          }
          limit := true;
        }
      }
    }

    method ReactToMark(ack: U32, marked: bool, limit: bool)
      requires Valid()
      modifies this`seqNextAcceptedEcnMark, this`wndSsthresh, this`wndCwnd, this`wndDupAck
      ensures Valid() && State() == ExtMarked(p, old(State()), ack, marked, limit)
    {
      hide Wrap;
      if marked && ack >= seqNextAcceptedEcnMark && !limit {
        seqNextAcceptedEcnMark := NextMarkAfter(ack);
        wndSsthresh := Trunc(wndCwnd / 2.0);
        wndSsthresh := MaxInt(1, wndSsthresh);
        wndCwnd := MaxReal(1.0, AbsReal(wndCwnd / 2.0));
        wndDupAck := 0;
      }
    }
  }
}
