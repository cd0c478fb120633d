/** The TCP sender of `packettcpsnd`: one acknowledgement releases exactly one packet.

    `Sender` is the value of the fields that influence behaviour; `Lambda`, `Dint` and `Dext` say what
    one call does to it. The class `PacketTcpSnd` performs the same calls field by field, in the order
    of the C++ source, and is proved to agree. */
module TcpSender {
  import opened Devs

  const MIN_RTO := 0.2

  /** Model parameters. `segmentSize` is MSS in bytes. */
  datatype Params = Params(
    segmentSize: int,
    cwndMax: int,
    initialThreshold: int,
    rttAlfa: real,
    initialRtt: real,
    dupAckLimit: int,
    forcedRto: real,
    interpacketTime: real,
    interRequestTime: real)
  {
    ghost predicate Valid() {
      segmentSize >= 1 && interpacketTime >= 0.0 && interRequestTime >= 0.0
    }
  }

  datatype Packet = Packet(seqNumber: int, payload: int)

  /** The enumeration STATE. */
  datatype Phase = WaitApp | WaitAck | Sending | RequestApp

  /** Field by field: SendBuffer, WND_NXT_SND, SEQ_NEXT_Expected_ACK, SEQ_LAST_Valid_ACK, WND_DUP_ACK,
      WND_CWND, WND_SSTHRESH, SEQ_CYCLE_ACK, SEQ_NXT, SEQ_NextAcceptedECNMark, T_RTT, T_RTT_DEVIATION,
      T_RTO, pout, mystate, sigma. */
  datatype Sender = Sender(
    buffer: seq<Packet>,
    nextToSend: int,
    expectedAck: int,
    lastValidAck: int,
    dupAcks: int,
    cwnd: real,
    threshold: int,
    cycleAck: int,
    nextSeq: int,
    ecnFrom: int,
    rtt: real,
    rttDeviation: real,
    rto: real,
    lastSent: Option<Packet>,
    phase: Phase,
    sigma: Duration)

  /** `AckIn` carries the acknowledgement number, the congestion mark and the round trip measured from
      the echoed time stamp. */
  datatype Input = DataIn(payload: int) | AckIn(ack: int, marked: bool, measuredRtt: real)

  datatype Output = Nothing | Request | Segment(packet: Packet)

  // ----- specification -----

  /** What the packets carry, in order. */
  function Payloads(ps: seq<Packet>): (r: seq<int>)
    ensures |r| == |ps| && forall i :: 0 <= i < |ps| ==> r[i] == ps[i].payload
  {
    seq(|ps|, i requires 0 <= i < |ps| => ps[i].payload)
  }

  /** The moving average kept for the round trip and for its deviation. */
  function Smooth(alfa: real, average: real, sample: real): real {
    alfa * average + (1.0 - alfa) * sample
  }

  function Rto(p: Params, rtt: real, deviation: real): real {
    MaxReal(MIN_RTO, if p.forcedRto >= 0.0 then p.forcedRto else rtt + 4.0 * deviation)
  }

  function Init(p: Params): Sender {
    Sender([], 0, p.segmentSize + 1, 1, 0, 1.0, p.initialThreshold, 0, 1, -1,
           p.initialRtt, 0.0, Rto(p, p.initialRtt, 0.0), None, RequestApp, Finite(0.0))
  }

  /** The guard shared by `lambda` and `dint` in the sending phase. */
  predicate CanSend(s: Sender) {
    s.buffer != [] && s.nextToSend <= |s.buffer| && s.nextToSend as real <= s.cwnd
  }

  function Lambda(s: Sender): Outcome<(Output, Sender)> {
    match s.phase
    case RequestApp => Defined((Request, s))
    case WaitApp => Defined((Nothing, s))
    case WaitAck => Defined((Nothing, s))
    case Sending =>
      if !CanSend(s) then Defined((Nothing, s))
      else if s.nextToSend < 1 then Undefined
      else
        var packet := s.buffer[s.nextToSend - 1];
        Defined((Segment(packet), s.(lastSent := Some(packet))))
  }

  /** What a time-out resets. */
  function Restarted(s: Sender): Sender {
    s.(dupAcks := 0, threshold := MaxInt(1, Trunc(s.cwnd / 2.0)), cwnd := 1.0, nextToSend := 1,
       lastValidAck := -1, cycleAck := 0, rto := 2.0 * s.rto, sigma := Finite(0.0))
  }

  lemma OneAfterRestart(s: Sender)
    ensures Restarted(s).buffer == s.buffer && Restarted(s).cwnd == 1.0
  {
    hide Trunc, MaxInt;
  }

  function Timeout(s: Sender): Sender {
    var t := Restarted(s);
    if |s.buffer| as real < t.cwnd then t.(phase := RequestApp) else t.(phase := Sending)
  }

  function Dint(p: Params, s: Sender): Outcome<Sender> {
    match s.phase
    case RequestApp => Defined(s.(phase := WaitApp, sigma := Finite(p.interRequestTime)))
    case WaitApp =>
      if s.buffer != [] then Defined(s.(phase := Sending, sigma := Finite(p.interpacketTime)))
      else Defined(s.(sigma := Infinite))
    case WaitAck => Defined(Timeout(s))
    case Sending =>
      if s.cycleAck == 0 && s.lastSent.None? then Undefined
      else
        var t := if s.cycleAck == 0 then s.(cycleAck := s.lastSent.value.seqNumber + p.segmentSize) else s;
        if CanSend(t) then
          Defined(t.(nextToSend := t.nextToSend + 1, sigma := Finite(p.interpacketTime)))
        else
          Defined(t.(phase := WaitAck, sigma := Finite(t.rto)))
  }

  /** The engine runs `lambda` and then `dint` when `sigma` has elapsed. */
  function Internal(p: Params, s: Sender): Outcome<(Output, Sender)> {
    match Lambda(s)
    case Undefined => Undefined
    case Defined((out, t)) =>
      match Dint(p, t)
      case Undefined => Undefined
      case Defined(u) => Defined((out, u))
  }

  function Enqueue(p: Params, s: Sender, payload: int): Sender {
    var buffer := s.buffer + [Packet(s.nextSeq, payload)];
    s.(buffer := buffer, nextSeq := s.nextSeq + p.segmentSize,
       nextToSend := if |buffer| == 1 then 1 else s.nextToSend)
  }

  /** Slow start below the threshold, congestion avoidance above it. */
  function Grown(cwnd: real, threshold: int): real {
    if cwnd < threshold as real then cwnd + 1.0
    else if cwnd == 0.0 then 0.0 // 1/0 is an infinity in C++; no window is ever zero, see WindowBounds
    else cwnd + 1.0 / cwnd
  }

  /** An acknowledgement inside the measured cycle: new time-out, larger window. */
  function CloseCycle(p: Params, s: Sender, measuredRtt: real): Sender {
    var rtt := Smooth(p.rttAlfa, s.rtt, measuredRtt);
    var deviation := Smooth(p.rttAlfa, s.rttDeviation, AbsReal(rtt - measuredRtt));
    s.(rtt := rtt, rttDeviation := deviation, rto := Rto(p, rtt, deviation),
       cwnd := Grown(s.cwnd, s.threshold), cycleAck := 0)
  }

  /** The head of the buffer leaves; the pointer into the buffer follows it, saturating at one. */
  function PopHead(p: Params, s: Sender): Sender
    requires s.buffer != []
  {
    s.(buffer := s.buffer[1..], lastValidAck := s.expectedAck, expectedAck := s.expectedAck + p.segmentSize,
       nextToSend := MaxInt(1, s.nextToSend - 1))
  }

  /** The window after a packet was released: leave fast recovery, or close a measurement cycle. */
  function Resize(p: Params, s: Sender, ack: int, measuredRtt: real): Sender {
    var t :=
      if s.dupAcks >= p.dupAckLimit then s.(cwnd := s.threshold as real, cycleAck := 0)
      else if ack <= s.cycleAck then CloseCycle(p, s, measuredRtt)
      else s;
    t.(dupAcks := 0)
  }

  /** The acknowledgement is the expected one. */
  function Accept(p: Params, s: Sender, measuredRtt: real): Sender
    requires s.buffer != []
  {
    Resize(p, PopHead(p, s), s.expectedAck, measuredRtt)
  }

  /** First byte whose acknowledgement may again reduce the window, when one reduction happens at `ack`. */
  function NextEcn(ack: int, cwnd: real, segmentSize: int): int {
    Trunc(ack as real + cwnd * segmentSize as real)
  }

  /** This acknowledgement starts a fast retransmit. */
  predicate FastRetransmits(p: Params, s: Sender, ack: int) {
    ack != s.expectedAck && ack == s.lastValidAck && s.dupAcks + 1 == p.dupAckLimit
  }

  /** This acknowledgement arrives during fast recovery. */
  predicate Recovers(p: Params, s: Sender, ack: int) {
    ack != s.expectedAck && ack == s.lastValidAck && s.dupAcks + 1 > p.dupAckLimit && ack > 0
  }

  predicate LimitReached(p: Params, s: Sender, ack: int) {
    FastRetransmits(p, s, ack) || Recovers(p, s, ack)
  }

  /** Any acknowledgement other than the expected one. */
  function Reject(p: Params, s: Sender, ack: int): Sender {
    if FastRetransmits(p, s, ack) then
      s.(dupAcks := s.dupAcks + 1, ecnFrom := NextEcn(ack, s.cwnd, p.segmentSize), threshold := MaxInt(1, Trunc(s.cwnd / 2.0)),
         cwnd := MaxReal(1.0, AbsReal(s.cwnd / 2.0) + 3.0), nextToSend := 1, cycleAck := 0)
    else if Recovers(p, s, ack) then
      s.(dupAcks := s.dupAcks + 1,
         cwnd := if s.cwnd + 1.0 > p.cwndMax as real then p.cwndMax as real else s.cwnd + 1.0)
    else if ack == s.lastValidAck then s.(dupAcks := s.dupAcks + 1)
    else s
  }

  function Halve(p: Params, s: Sender, ack: int): Sender {
    s.(ecnFrom := NextEcn(ack, s.cwnd, p.segmentSize), threshold := MaxInt(1, Trunc(s.cwnd / 2.0)),
       cwnd := MaxReal(1.0, AbsReal(s.cwnd / 2.0)), dupAcks := 0)
  }

  /** The state once the acknowledgement number has been handled, before the congestion mark. */
  function AckHandled(p: Params, s: Sender, ack: int, measuredRtt: real): Sender
    requires ack == s.expectedAck ==> s.buffer != []
  {
    if ack == s.expectedAck then Accept(p, s, measuredRtt) else Reject(p, s, ack)
  }

  /** The congestion mark of this acknowledgement makes the sender halve its window. */
  predicate EcnReduces(p: Params, s: Sender, ack: int, marked: bool, measuredRtt: real)
    requires ack == s.expectedAck ==> s.buffer != []
  {
    marked && ack >= AckHandled(p, s, ack, measuredRtt).ecnFrom && !LimitReached(p, s, ack)
  }

  /** What the phase and `sigma` become after an input; `valid` and `limit` describe an acknowledgement. */
  function AfterData(p: Params, s: Sender, e: real): Sender {
    match s.phase
    case WaitApp =>
      if |s.buffer| as real < s.cwnd then s.(phase := RequestApp, sigma := Finite(0.0))
      else s.(phase := Sending, sigma := Finite(p.interpacketTime))
    case WaitAck => s.(sigma := if s.sigma.Finite? then Finite(MaxReal(0.0, s.sigma.secs - e)) else Infinite)
    case _ => s.(sigma := s.sigma.Minus(e))
  }

  function AfterAck(p: Params, s: Sender, valid: bool, limit: bool, e: real): Sender {
    match s.phase
    case WaitApp => s
    case WaitAck =>
      if valid then s.(phase := RequestApp, sigma := Finite(0.0))
      else if limit then s.(phase := Sending, sigma := Finite(p.interpacketTime))
      else s.(sigma := s.sigma.Minus(e))
    case _ => s.(sigma := s.sigma.Minus(e))
  }

  function Dext(p: Params, s: Sender, input: Input, e: real): Outcome<Sender> {
    match input
    case DataIn(payload) => Defined(AfterData(p, Enqueue(p, s, payload), e))
    case AckIn(ack, marked, measuredRtt) =>
      if ack == s.expectedAck && s.buffer == [] then Undefined
      else
        var t := AckHandled(p, s, ack, measuredRtt);
        var u := if EcnReduces(p, s, ack, marked, measuredRtt) then Halve(p, t, ack) else t;
        Defined(AfterAck(p, u, ack == s.expectedAck, LimitReached(p, s, ack), e))
  }

  // ----- the imperative model -----

  class PacketTcpSnd {
    const p: Params
    var sendBuffer: seq<Packet>
    var bufSize: int
    var wndNxtSnd: int
    var seqNextExpectedAck: int
    var seqLastValidAck: int
    var wndDupAck: int
    var wndCwnd: real
    var wndSsthresh: int
    var seqCycleAck: int
    var seqNxt: int
    var seqNextAcceptedEcnMark: int
    var tRtt: real
    var tRttDeviation: real
    var tRto: real
    var pout: Option<Packet>
    var myState: Phase
    var sigma: Duration

    /** The separate size field always agrees with the container. */
    ghost predicate Valid()
      reads this
    {
      bufSize == |sendBuffer|
    }

    ghost function State(): Sender
      reads this
    {
      Sender(sendBuffer, wndNxtSnd, seqNextExpectedAck, seqLastValidAck, wndDupAck, wndCwnd, wndSsthresh,
             seqCycleAck, seqNxt, seqNextAcceptedEcnMark, tRtt, tRttDeviation, tRto, pout, myState, sigma)
    }

    constructor (params: Params)
      ensures p == params && Valid() && State() == Init(params)
    {
      p := params;
      wndSsthresh := params.initialThreshold;
      tRtt := params.initialRtt;
      seqNextAcceptedEcnMark := -1;
      pout := None;
      sendBuffer := [];
      bufSize := 0;
      wndNxtSnd := 0;
      seqNextExpectedAck := params.segmentSize + 1;
      seqLastValidAck := 1;
      wndDupAck := 0;
      wndCwnd := 1.0;
      seqCycleAck := 0;
      seqNxt := 1;
      tRttDeviation := 0.0;
      tRto := Rto(params, params.initialRtt, 0.0);
      myState := RequestApp;
      sigma := Finite(0.0);
    }

    method OnLambda() returns (out: Output)
      requires Valid() && Lambda(State()).Defined?
      modifies this`pout
      ensures Valid() && Lambda(old(State())) == Defined((out, State()))
    {
      match myState {
        case RequestApp => out := Request;
        case WaitApp => out := Nothing;
        case WaitAck => out := Nothing;
        case Sending =>
          if bufSize > 0 && wndNxtSnd <= bufSize && wndNxtSnd as real <= wndCwnd {
            var packetToSend := sendBuffer[wndNxtSnd - 1];
            pout := Some(packetToSend);
            out := Segment(packetToSend);
          } else {
            out := Nothing;
          }
      }
    }

    method OnDint()
      requires Valid() && Dint(p, State()).Defined?
      modifies this
      ensures Valid() && Dint(p, old(State())) == Defined(State())
    {
      hide Timeout;
      match myState {
        case RequestApp =>
          myState := WaitApp;
          sigma := Finite(p.interRequestTime);
        case WaitApp =>
          if bufSize > 0 {
            myState := Sending;
            sigma := Finite(p.interpacketTime);
          } else {
            sigma := Infinite;
          }
        case Sending =>
          if seqCycleAck == 0 {
            seqCycleAck := pout.value.seqNumber + p.segmentSize;
          }
          if bufSize > 0 && wndNxtSnd <= bufSize && wndNxtSnd as real <= wndCwnd {
            wndNxtSnd := wndNxtSnd + 1;
            sigma := Finite(p.interpacketTime);
          } else {
            myState := WaitAck;
            sigma := Finite(tRto);
          }
        case WaitAck => OnTimeout();
      }
    }

    method OnTimeout()
      requires Valid()
      modifies this
      ensures Valid() && State() == Timeout(old(State()))
    {
      hide Restarted;
      OneAfterRestart(State());
      Restart();
      if bufSize as real < wndCwnd {
        myState := RequestApp;
      } else {
        myState := Sending;
      }
    }

    method Restart()
      requires Valid()
      modifies this
      ensures Valid() && State() == Restarted(old(State()))
    {
      hide Trunc, MaxInt;
      ShrinkToOne();
      wndDupAck := 0;
      wndNxtSnd := 1;
      seqLastValidAck := -1;
      seqCycleAck := 0;
      tRto := 2.0 * tRto;
      sigma := Finite(0.0);
    }

    /** The window of one packet after a time-out, and half the old one as threshold. */
    method ShrinkToOne()
      modifies this`wndSsthresh, this`wndCwnd
      ensures wndCwnd == 1.0 && wndSsthresh == MaxInt(1, Trunc(old(wndCwnd) / 2.0))
    {
      wndSsthresh := Trunc(wndCwnd / 2.0);
      wndSsthresh := MaxInt(1, wndSsthresh);
      wndCwnd := 1.0;
    }

    method OnDext(input: Input, e: real)
      requires Valid() && Dext(p, State(), input, e).Defined?
      modifies this
      ensures Valid() && Dext(p, old(State()), input, e) == Defined(State())
    {
      hide CloseCycle, PopHead, Resize, Halve, Reject, AfterAck, AfterData;
      match input {
        case DataIn(payload) =>
          var packet := Packet(seqNxt, payload);
          seqNxt := seqNxt + p.segmentSize;
          sendBuffer := sendBuffer + [packet];
          bufSize := |sendBuffer|;
          if bufSize == 1 {
            wndNxtSnd := 1;
          }
          ChangePhaseAfterData(e);
        case AckIn(ack, marked, measuredRtt) =>
          var valid := ack == seqNextExpectedAck;
          var limit := false;
          if valid {
            ReleaseHead(ack);
            AdjustWindow(ack, measuredRtt);
          } else {
            limit := RejectAck(ack);
          }
          ReactToMark(ack, marked, limit);
          ChangePhaseAfterAck(valid, limit, e);
      }
    }

    /** The expected acknowledgement: the head leaves the buffer. */
    method ReleaseHead(ack: int)
      requires Valid() && ack == seqNextExpectedAck && sendBuffer != []
      modifies this`sendBuffer, this`bufSize, this`seqLastValidAck, this`seqNextExpectedAck, this`wndNxtSnd
      ensures Valid() && State() == PopHead(p, old(State()))
    {
      sendBuffer := sendBuffer[1..];
      seqLastValidAck := ack;
      seqNextExpectedAck := seqNextExpectedAck + p.segmentSize;
      wndNxtSnd := wndNxtSnd - 1;
      if wndNxtSnd < 1 {
        wndNxtSnd := 1;
      }
      bufSize := |sendBuffer|;
    }

    method AdjustWindow(ack: int, measuredRtt: real)
      requires Valid()
      modifies this`tRtt, this`tRttDeviation, this`tRto, this`wndCwnd, this`seqCycleAck, this`wndDupAck
      ensures Valid() && State() == Resize(p, old(State()), ack, measuredRtt)
    {
      hide CloseCycle;
      if wndDupAck >= p.dupAckLimit {
        wndCwnd := wndSsthresh as real;
        seqCycleAck := 0;
      } else if ack <= seqCycleAck {
        FinishCycle(measuredRtt);
      }
      wndDupAck := 0;
    }

    method FinishCycle(measuredRtt: real)
      requires Valid()
      modifies this`tRtt, this`tRttDeviation, this`tRto, this`wndCwnd, this`seqCycleAck
      ensures Valid() && State() == CloseCycle(p, old(State()), measuredRtt)
    {
      hide Smooth, Rto, Grown;
      UpdateRoundTrip(measuredRtt);
      UpdateTimeout();
      GrowWindow();
      seqCycleAck := 0;
    }

    /** The smoothed round trip and its deviation. */
    method UpdateRoundTrip(measuredRtt: real)
      modifies this`tRtt, this`tRttDeviation
      ensures tRtt == Smooth(p.rttAlfa, old(tRtt), measuredRtt)
      ensures tRttDeviation == Smooth(p.rttAlfa, old(tRttDeviation), AbsReal(tRtt - measuredRtt))
    {
      tRtt := p.rttAlfa * tRtt + (1.0 - p.rttAlfa) * measuredRtt;
      tRttDeviation := p.rttAlfa * tRttDeviation + (1.0 - p.rttAlfa) * AbsReal(tRtt - measuredRtt);
    }

    method UpdateTimeout()
      modifies this`tRto
      ensures tRto == Rto(p, tRtt, tRttDeviation)
    {
      if p.forcedRto >= 0.0 {
        tRto := p.forcedRto;
      } else {
        tRto := tRtt + 4.0 * tRttDeviation;
      }
      tRto := MaxReal(MIN_RTO, tRto);
    }

    /** Slow start or congestion avoidance. */
    method GrowWindow()
      modifies this`wndCwnd
      ensures wndCwnd == Grown(old(wndCwnd), wndSsthresh)
    {
      if wndCwnd < wndSsthresh as real {
        wndCwnd := wndCwnd + 1.0;
      } else if wndCwnd != 0.0 {
        wndCwnd := wndCwnd + 1.0 / wndCwnd;
      }
    }

    /** Any other acknowledgement: count duplicates, start or continue fast recovery. */
    method RejectAck(ack: int) returns (limit: bool)
      requires Valid() && ack != seqNextExpectedAck
      modifies this
      ensures Valid() && State() == Reject(p, old(State()), ack)
      ensures limit <==> LimitReached(p, old(State()), ack)
    {
      hide NextEcn, Trunc, MaxReal, MaxInt, AbsReal;
      limit := false;
      if ack == seqLastValidAck {
        wndDupAck := wndDupAck + 1;
        if wndDupAck == p.dupAckLimit {
          limit := true;
          seqNextAcceptedEcnMark := NextEcn(ack, wndCwnd, p.segmentSize);
          EnterRecovery();
          wndNxtSnd := 1;
          seqCycleAck := 0;
        } else if wndDupAck > p.dupAckLimit && ack > 0 {
          wndCwnd := wndCwnd + 1.0;
          if wndCwnd > p.cwndMax as real {
            wndCwnd := p.cwndMax as real;
          }
          limit := true;
        }
      }
    }

    /** Half the window as threshold, and three packets more as window. */
    method EnterRecovery()
      modifies this`wndSsthresh, this`wndCwnd
      ensures wndSsthresh == MaxInt(1, Trunc(old(wndCwnd) / 2.0))
      ensures wndCwnd == MaxReal(1.0, AbsReal(old(wndCwnd) / 2.0) + 3.0)
    {
      wndSsthresh := Trunc(wndCwnd / 2.0);
      wndSsthresh := MaxInt(1, wndSsthresh);
      wndCwnd := MaxReal(1.0, AbsReal(wndCwnd / 2.0) + 3.0);
    }

    /** Lines 597-628 of the source: the congestion mark. */
    method ReactToMark(ack: int, marked: bool, limit: bool)
      requires Valid()
      modifies this`seqNextAcceptedEcnMark, this`wndSsthresh, this`wndCwnd, this`wndDupAck
      ensures Valid()
      ensures State() == if marked && ack >= old(seqNextAcceptedEcnMark) && !limit
                         then Halve(p, old(State()), ack) else old(State())
    {
      if marked && ack >= seqNextAcceptedEcnMark && !limit {
        seqNextAcceptedEcnMark := NextEcn(ack, wndCwnd, p.segmentSize);
        wndSsthresh := Trunc(wndCwnd / 2.0);
        wndSsthresh := MaxInt(1, wndSsthresh);
        wndCwnd := MaxReal(1.0, AbsReal(wndCwnd / 2.0));
        wndDupAck := 0;
      }
    }

    method ChangePhaseAfterData(e: real)
      requires Valid()
      modifies this`myState, this`sigma
      ensures Valid() && State() == AfterData(p, old(State()), e)
    {
      match myState {
        case WaitApp =>
          if bufSize as real < wndCwnd {
            myState := RequestApp;
            sigma := Finite(0.0);
          } else {
            myState := Sending;
            sigma := Finite(p.interpacketTime);
          }
        case RequestApp => sigma := sigma.Minus(e);
        case Sending => sigma := sigma.Minus(e);
        case WaitAck =>
          if sigma.Finite? {
            sigma := Finite(MaxReal(0.0, sigma.secs - e));
          }
      }
    }

    method ChangePhaseAfterAck(valid: bool, limit: bool, e: real)
      requires Valid()
      modifies this`myState, this`sigma
      ensures Valid() && State() == AfterAck(p, old(State()), valid, limit, e)
    {
      match myState {
        case WaitApp =>
        case RequestApp => sigma := sigma.Minus(e);
        case Sending => sigma := sigma.Minus(e);
        case WaitAck =>
          if valid {
            myState := RequestApp;
            sigma := Finite(0.0);
          } else if limit {
            myState := Sending;
            sigma := Finite(p.interpacketTime);
          } else {
            sigma := sigma.Minus(e);
          }
      }
    }
  }
}
