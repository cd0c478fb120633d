/** The extended sender left alone. Its time-out does not back off, so it retransmits at a constant period, and it
    may even do so for ever in no time: the lower bound of the time-out is a parameter here and may be zero. */
module TcpTimingExt {
  import opened Devs
  import opened Seq32
  import opened TcpSender
  import opened TcpSenderExt
  import opened TcpSystemExt

  // ----- what every reachable sender satisfies -----

  ghost predicate Ready(p: ExtParams, s: ExtSender) {
    && PointerConsistent(s) && |s.buffer| + 1 < MODULUS
    && (s.sigma.Infinite? ==> s.phase.WaitApp? && s.buffer == [])
    && s.sigma.AtLeast(0.0) && s.rto >= p.minRto
  }

  lemma {:induction false} LoopKeepsRto(p: ExtParams, s: ExtSender, ack: U32, measuredRtt: real)
    requires s.rto >= p.minRto && ReleaseAll(p, s, ack, measuredRtt).Defined?
    ensures ReleaseAll(p, s, ack, measuredRtt).value.rto >= p.minRto
    decreases |s.buffer|
  {
    hide Smooth, Grown, CheckWindow, Wrap;
    if Acceptable(p, s, ack) {
      LoopKeepsRto(p, ReleaseOne(p, s, ack, measuredRtt), ack, measuredRtt);
    }
  }

  lemma StepKeepsRto(c: Session, s: System, ev: Event)
    requires c.Valid() && Inv(c, s) && Enabled(c, s, ev) && s.snd.rto >= c.p.minRto
    ensures Apply(c, s, ev).Defined? && Apply(c, s, ev).value.snd.rto >= c.p.minRto
  {
    StepKeepsInv(c, s, ev);
    hide ReleaseAll, CheckWindow, Wrap, Trunc, Inv, ExtLimitReached, ExtNextEcn;
    if ev.DeliverAck? && Acceptable(c.p, s.snd, ev.message.ack) {
      LoopKeepsRto(c.p, s.snd, ev.message.ack, ev.measuredRtt);
    }
  }

  lemma {:induction false} RunKeepsRto(c: Session, s: System, evs: seq<Event>, t: System)
    requires c.Valid() && Inv(c, s) && s.snd.rto >= c.p.minRto && Runs(c, s, evs, t)
    ensures Inv(c, t) && t.snd.rto >= c.p.minRto
    decreases |evs|
  {
    hide Inv, Enabled, Apply;
    if evs != [] {
      StepKeepsInv(c, s, evs[0]);
      StepKeepsRto(c, s, evs[0]);
      RunKeepsRto(c, Apply(c, s, evs[0]).value, evs[1..], t);
    }
  }

  lemma ReachableIsReady(c: Session, s: System)
    requires c.Valid() && Reachable(c, s)
    ensures Ready(c.p, s.snd)
  {
    hide Runs, Bytes, Wire;
    var evs :| Runs(c, Start(c), evs, s);
    StartInv(c);
    RunKeepsRto(c, Start(c), evs, s);
    BufferIsShort(c.p, |s.snd.buffer|);
  }

  // ----- internal steps -----

  /** One internal step; Ready is what makes its output defined. */
  function Next(p: ExtParams, s: ExtSender): (t: ExtSender)
    requires p.Valid() && Ready(p, s)
    ensures Ready(p, t) && t.buffer == s.buffer && t.rto == s.rto && ExtLambda(s).Defined?
  {
    hide Trunc;
    ExtDint(p, s)
  }

  function After(p: ExtParams, s: ExtSender, n: nat): (t: ExtSender)
    requires p.Valid() && Ready(p, s)
    ensures Ready(p, t) && t.buffer == s.buffer && t.rto == s.rto
    decreases n
  {
    if n == 0 then s else After(p, Next(p, s), n - 1)
  }

  /** Time taken by n internal steps; `None` once the sender waits for the application without a timer. */
  function Elapsed(p: ExtParams, s: ExtSender, n: nat): Option<real>
    requires p.Valid() && Ready(p, s)
    decreases n
  {
    if n == 0 then Some(0.0)
    else if s.sigma.Infinite? then None
    else
      match Elapsed(p, Next(p, s), n - 1)
      case None => None
      case Some(time) => Some(s.sigma.secs + time)
  }

  lemma {:induction false} BothParts(p: ExtParams, s: ExtSender, m: nat, n: nat)
    requires p.Valid() && Ready(p, s) && Elapsed(p, s, m).Some? && Elapsed(p, After(p, s, m), n).Some?
    ensures After(p, s, m + n) == After(p, After(p, s, m), n)
    ensures Elapsed(p, s, m + n) == Some(Elapsed(p, s, m).value + Elapsed(p, After(p, s, m), n).value)
    decreases m
  {
    hide Next, Ready;
    if m > 0 {
      BothParts(p, Next(p, s), m - 1, n);
    }
  }

  // ----- time-outs recur at a constant period -----

  /** Packets still to be sent before the window or the buffer is exhausted. */
  function Unsent(s: ExtSender): nat {
    var end := if |s.buffer| < s.cwnd.Floor then |s.buffer| else s.cwnd.Floor;
    MaxInt(0, end + 1 - s.nextToSend)
  }

  /** Internal steps up to and including the next time-out. */
  function StepsToTimeout(s: ExtSender): nat {
    match s.phase
    case WaitAck => 1
    case Sending => Unsent(s) + 2
    case WaitApp => Unsent(s) + 3
    case RequestApp => Unsent(s) + 4
  }

  /** The state right after a time-out with something to retransmit. */
  predicate TimedOut(s: ExtSender) {
    s.buffer != [] && s.phase.Sending? && s.nextToSend == 1 && s.cwnd == 1.0 && s.sigma == Finite(0.0)
  }

  lemma NextCountsDown(p: ExtParams, s: ExtSender)
    requires p.Valid() && Ready(p, s) && s.buffer != []
    ensures s.sigma.Finite?
    ensures if s.phase.WaitAck? then TimedOut(Next(p, s)) else StepsToTimeout(Next(p, s)) == StepsToTimeout(s) - 1
  {
    hide Trunc;
    assert s.nextToSend as real <= s.cwnd <==> s.nextToSend <= s.cwnd.Floor;
    if s.nextToSend <= |s.buffer| {
      WrapSmall(s.nextToSend + 1);
    }
  }

  lemma {:induction false} TimeoutOccurs(p: ExtParams, s: ExtSender)
    requires p.Valid() && Ready(p, s) && s.buffer != []
    ensures var n := StepsToTimeout(s); TimedOut(After(p, s, n)) && Elapsed(p, s, n).Some?
    ensures Elapsed(p, s, StepsToTimeout(s)).value >= 0.0
    decreases StepsToTimeout(s)
  {
    NextCountsDown(p, s);
    hide Next, TimedOut, Unsent;
    var t := Next(p, s);
    if s.phase.WaitAck? {
      assert After(p, s, 1) == After(p, t, 0) == t;
      assert Elapsed(p, t, 0) == Some(0.0);
    } else {
      TimeoutOccurs(p, t);
    }
  }

  lemma NextAfterTimeout(p: ExtParams, s: ExtSender)
    requires p.Valid() && Ready(p, s) && TimedOut(s)
    ensures ExtLambda(s) == Defined(Segment(s.buffer[0]))
    ensures Next(p, s) == s.(nextToSend := 2, sigma := Finite(p.base.interpacketTime))
    ensures Next(p, Next(p, s)) == s.(nextToSend := 2, phase := WaitAck, sigma := Finite(s.rto))
    ensures TimedOut(Next(p, Next(p, Next(p, s))))
  {
    hide Trunc;
  }

  function Period(p: ExtParams, s: ExtSender): real {
    p.base.interpacketTime + s.rto
  }

  lemma Cycle(p: ExtParams, s: ExtSender)
    requires p.Valid() && Ready(p, s) && TimedOut(s)
    ensures TimedOut(After(p, s, 3)) && Elapsed(p, s, 3) == Some(Period(p, s))
  {
    NextAfterTimeout(p, s);
    hide Next, Ready;
    var t := Next(p, s);
    var u := Next(p, t);
    var v := Next(p, u);
    assert After(p, u, 1) == After(p, v, 0) == v && After(p, t, 2) == v && After(p, s, 3) == v;
    assert Elapsed(p, v, 0) == Some(0.0);
    assert Elapsed(p, u, 1) == Some(s.rto);
    assert Elapsed(p, t, 2) == Some(p.base.interpacketTime + s.rto);
  }

  /** Time taken by k periods. */
  function Periods(k: nat, period: real): real {
    k as real * period
  }

  lemma OneMorePeriod(k: nat, period: real)
    ensures Periods(0, period) == 0.0 && Periods(k + 1, period) == period + Periods(k, period)
  {
  }

  lemma {:induction false} Cycles(p: ExtParams, s: ExtSender, k: nat)
    requires p.Valid() && Ready(p, s) && TimedOut(s)
    ensures TimedOut(After(p, s, 3 * k)) && Elapsed(p, s, 3 * k) == Some(Periods(k, Period(p, s)))
    decreases k
  {
    hide Next, Ready, TimedOut, Periods;
    if k == 0 {
      OneMorePeriod(0, Period(p, s));
    } else {
      Cycle(p, s);
      var t := After(p, s, 3);
      Cycles(p, t, k - 1);
      BothParts(p, s, 3, 3 * (k - 1));
      OneMorePeriod(k - 1, Period(p, s));
    }
  }

  /** Main result: with something in the buffer and no input, the sender times out after StepsToTimeout steps and
      every third step from then on, and sends the oldest packet each time, always one period apart: the time-out
      does not grow. Compare TcpTiming.BackOff and section 5.5 of RFC 6298. */
  lemma RetransmitsForEver(p: ExtParams, s: ExtSender, k: nat)
    requires p.Valid() && Ready(p, s) && s.buffer != []
    ensures var first, n := StepsToTimeout(s), StepsToTimeout(s) + 3 * k;
            && TimedOut(After(p, s, n)) && ExtLambda(After(p, s, n)) == Defined(Segment(s.buffer[0]))
            && Elapsed(p, s, first).Some?
            && Elapsed(p, s, n) == Some(Elapsed(p, s, first).value + Periods(k, Period(p, s)))
  {
    hide Next, Ready, TimedOut, Elapsed, StepsToTimeout, After, Periods;
    TimeoutOccurs(p, s);
    var t := After(p, s, StepsToTimeout(s));
    Cycles(p, t, k);
    BothParts(p, s, StepsToTimeout(s), 3 * k);
    NextAfterTimeout(p, After(p, t, 3 * k));
  }

  // ----- when time passes at all -----

  ghost predicate Passes(p: ExtParams, s: ExtSender, n: nat, bound: nat)
    requires p.Valid() && Ready(p, s)
  {
    Elapsed(p, s, n).Some? && Elapsed(p, s, n).value >= bound as real
  }

  ghost predicate PassesBound(p: ExtParams, s: ExtSender, bound: nat)
    requires p.Valid() && Ready(p, s)
  {
    exists n: nat :: Passes(p, s, n, bound)
  }

  /** Time passes every bound. */
  ghost predicate Diverges(p: ExtParams, s: ExtSender)
    requires p.Valid() && Ready(p, s)
  {
    forall bound: nat :: PassesBound(p, s, bound)
  }

  lemma EnoughPeriods(bound: nat, period: real) returns (k: nat)
    requires period > 0.0
    ensures Periods(k, period) >= bound as real
  {
    var q := bound as real / period;
    assert q * period == bound as real;
    assert q >= 0.0;
    k := q.Floor + 1;
    LongerTakesMore(q, k as real, period);
  }

  lemma LongerTakesMore(q: real, k: real, period: real)
    requires q <= k && period > 0.0
    ensures q * period <= k * period
  {
    assert (k - q) * period == k * period - q * period;
  }

  /** With no period, everything still to be waited for is the current wait and one request. */
  function Transient(p: ExtParams, s: ExtSender): real
    requires s.sigma.Finite?
  {
    s.sigma.secs + if s.phase.RequestApp? then p.base.interRequestTime else 0.0
  }

  lemma TransientShrinks(p: ExtParams, s: ExtSender)
    requires p.Valid() && Ready(p, s) && s.buffer != [] && Period(p, s) == 0.0
    ensures var t := Next(p, s);
            s.sigma.Finite? && t.sigma.Finite? && Transient(p, s) == s.sigma.secs + Transient(p, t)
  {
    hide Trunc;
    assert p.base.interpacketTime == 0.0 && s.rto == 0.0;
  }

  lemma {:induction false} ElapsedIsBounded(p: ExtParams, s: ExtSender, n: nat)
    requires p.Valid() && Ready(p, s) && s.buffer != [] && Period(p, s) == 0.0
    ensures s.sigma.Finite? && Elapsed(p, s, n).Some? && Elapsed(p, s, n).value <= Transient(p, s)
    decreases n
  {
    TransientShrinks(p, s);
    hide Next;
    if n > 0 {
      ElapsedIsBounded(p, Next(p, s), n - 1);
    }
  }

  /** Main result: with something in the buffer and no input, the sender is legitimate, that is, time passes every
      bound, if and only if the time-out or the time between packets is not zero. */
  lemma TimeDivergesIff(p: ExtParams, s: ExtSender)
    requires p.Valid() && Ready(p, s) && s.buffer != []
    ensures Diverges(p, s) <==> p.base.interpacketTime > 0.0 || s.rto > 0.0
  {
    hide Next, TimedOut, Elapsed, StepsToTimeout;
    if Period(p, s) > 0.0 {
      forall bound: nat
        ensures PassesBound(p, s, bound)
      {
        var k := EnoughPeriods(bound, Period(p, s));
        TimeoutOccurs(p, s);
        RetransmitsForEver(p, s, k);
        assert Passes(p, s, StepsToTimeout(s) + 3 * k, bound);
      }
    } else {
      ElapsedIsBounded(p, s, 0);
      var bound: nat := MaxInt(0, Transient(p, s).Floor + 1);
      forall n: nat
        ensures !Passes(p, s, n, bound)
      {
        ElapsedIsBounded(p, s, n);
      }
      assert !PassesBound(p, s, bound);
    }
  }

  /** With an empty buffer it comes to rest in at most four steps. */
  lemma EmptyBufferRests(p: ExtParams, s: ExtSender)
    requires p.Valid() && Ready(p, s) && s.buffer == []
    ensures exists n: nat :: n <= 4 && After(p, s, n).sigma.Infinite?
  {
    hide Trunc;
    var n := if s.sigma.Infinite? then 0
             else match s.phase case WaitApp => 1 case RequestApp => 2 case WaitAck => 3 case Sending => 4;
    assert After(p, s, n).sigma.Infinite?;
  }

  // ----- a sender that retransmits in no time -----

  const INSTANT := Session(ExtParams(Params(500, 64, 32, 0.0, 1.0, 3, 0.0, 0.0, 0.0), 0.0), 0.0)

  /** A forced time-out of zero, with no lower bound, is a parameter the source takes as it is: after the first
      packet no time passes any more. */
  lemma TimeStopsInReach() returns (evs: seq<Event>, s: System)
    ensures INSTANT.Valid() && Runs(INSTANT, Start(INSTANT), evs, s) && s.snd.buffer == [Packet(1, 10)]
    ensures Ready(INSTANT.p, s.snd) && !Diverges(INSTANT.p, s.snd)
  {
    hide Runs, Inv, Diverges;
    var c := INSTANT;
    StartInv(c);
    EmptyRun(c, Start(c));
    evs, s := Extend(c, Start(c), [], Start(c), SenderFires);
    evs, s := Extend(c, Start(c), evs, s, Submit(10, 0.0, 0.0));
    assert Reachable(c, s);
    ReachableIsReady(c, s);
    TimeDivergesIff(c.p, s.snd);
  }

  // ----- data that arrives while the sender waits for an acknowledgement -----

  /** A payload, the queue it left behind, and the time since the sender's previous event. */
  datatype Arrival = Arrival(payload: int, upperQueue: real, e: real)

  function Arrive(p: ExtParams, s: ExtSender, a: Arrival): ExtSender {
    ExtDextData(p, s, a.payload, a.upperQueue, a.e)
  }

  function ArriveAll(p: ExtParams, s: ExtSender, arrivals: seq<Arrival>): ExtSender
    decreases |arrivals|
  {
    if arrivals == [] then s else ArriveAll(p, Arrive(p, s, arrivals[0]), arrivals[1..])
  }

  /** Every arrival comes before the timer ends the wait. */
  predicate NoTimeout(p: ExtParams, s: ExtSender, arrivals: seq<Arrival>)
    decreases |arrivals|
  {
    arrivals == [] || (s.sigma.Allows(arrivals[0].e) && NoTimeout(p, Arrive(p, s, arrivals[0]), arrivals[1..]))
  }

  function Total(arrivals: seq<Arrival>): real {
    if arrivals == [] then 0.0 else arrivals[0].e + Total(arrivals[1..])
  }

  predicate Within(a: Arrival, limit: real) {
    0.0 <= a.e <= limit
  }

  /** Main result: data arriving while the sender waits for an acknowledgement restarts its timer, so however much
      time they take together, no time-out happens if and only if no gap between them exceeds the time-out; nothing
      is sent meanwhile. */
  lemma {:induction false} DataPostponesIff(p: ExtParams, s: ExtSender, arrivals: seq<Arrival>)
    requires s.phase.WaitAck? && s.sigma == Finite(s.rto)
    ensures NoTimeout(p, s, arrivals) <==> forall i :: 0 <= i < |arrivals| ==> Within(arrivals[i], s.rto)
    ensures var t := ArriveAll(p, s, arrivals);
            && t.phase.WaitAck? && t.sigma == Finite(s.rto) && t.rto == s.rto
            && |t.buffer| == |s.buffer| + |arrivals| && s.buffer <= t.buffer && t.cwnd == s.cwnd
            && (s.buffer != [] ==> t.nextToSend == s.nextToSend)
    decreases |arrivals|
  {
    hide Wrap;
    if arrivals != [] {
      var rest := arrivals[1..];
      DataPostponesIff(p, Arrive(p, s, arrivals[0]), rest);
      assert forall i :: 1 <= i < |arrivals| ==> arrivals[i] == rest[i - 1];
      assert (forall i :: 0 <= i < |arrivals| ==> Within(arrivals[i], s.rto))
             <==> Within(arrivals[0], s.rto) && forall i :: 0 <= i < |rest| ==> Within(rest[i], s.rto);
    }
  }

  /** Arrivals half a time-out apart. */
  function Steady(n: nat, rto: real): seq<Arrival> {
    seq(n, i => Arrival(0, 0.0, rto / 2.0))
  }

  lemma {:induction false} SteadyTotal(n: nat, rto: real)
    ensures Total(Steady(n, rto)) == Periods(n, rto / 2.0)
    decreases n
  {
    hide Periods;
    if n == 0 {
      OneMorePeriod(0, rto / 2.0);
    } else {
      SteadyTotal(n - 1, rto);
      assert Steady(n, rto)[1..] == Steady(n - 1, rto);
      OneMorePeriod(n - 1, rto / 2.0);
    }
  }

  /** So an unacknowledged packet may wait beyond any bound although its timer is running. */
  lemma TimeoutPostponedForEver(p: ExtParams, s: ExtSender, bound: nat)
    requires s.phase.WaitAck? && s.sigma == Finite(s.rto) && s.rto > 0.0
    ensures exists arrivals :: NoTimeout(p, s, arrivals) && Total(arrivals) >= bound as real
  {
    var n := EnoughPeriods(bound, s.rto / 2.0);
    SteadyTotal(n, s.rto);
    DataPostponesIff(p, s, Steady(n, s.rto));
    assert forall i :: 0 <= i < n ==> Within(Steady(n, s.rto)[i], s.rto);
  }
}
