/** The link of `hybridizationLink`: it sends every packet, and a rate signal that is the bandwidth while a
    packet is being transmitted. A transition table decides whether the packet leaves with its first or
    with its last bit. */
module HybridLink {
  import opened Devs
  import opened LinkBandwidth

  datatype Mode = WithFirstBit | WithLastBit
  datatype Phase = Waiting | SendInputRate | SendPacket | SendInputRateReset

  datatype Hybrid = Hybrid(queue: seq<Packet>, phase: Phase, sigma: Duration)

  /** The null event, the packet on port 0, or the rate (bandwidth or zero) on port 1. */
  datatype Output = Nothing | Send(packet: Packet) | Rate(on: bool)

  const TABLE: map<(Mode, Phase), Phase> := map[
    (WithLastBit, Waiting) := SendInputRate,
    (WithLastBit, SendInputRate) := SendPacket,
    (WithLastBit, SendPacket) := SendInputRateReset,
    (WithLastBit, SendInputRateReset) := Waiting,
    (WithFirstBit, Waiting) := SendPacket,
    (WithFirstBit, SendPacket) := SendInputRate,
    (WithFirstBit, SendInputRate) := SendInputRateReset,
    (WithFirstBit, SendInputRateReset) := Waiting
  ]

  function After(mode: Mode, phase: Phase): Phase {
    if mode == WithFirstBit then
      match phase
      case Waiting => SendPacket
      case SendPacket => SendInputRate
      case SendInputRate => SendInputRateReset
      case SendInputRateReset => Waiting
    else
      match phase
      case Waiting => SendInputRate
      case SendInputRate => SendPacket
      case SendPacket => SendInputRateReset
      case SendInputRateReset => Waiting
  }

  lemma TableIsAfter(mode: Mode, phase: Phase)
    ensures (mode, phase) in TABLE && TABLE[(mode, phase)] == After(mode, phase)
  {
  }

  const START := Hybrid([], Waiting, Infinite)

  /** `Undefined` also stands for the exception thrown in the waiting state. */
  function Internal(mode: Mode, bw: real, k: Hybrid): Outcome<Hybrid>
    requires bw > 0.0
  {
    var next := After(mode, k.phase);
    match k.phase
    case Waiting => Undefined
    case SendInputRate =>
      if k.queue == [] then Undefined
      else Defined(k.(phase := next, sigma := Finite(ServiceTime(k.queue[0], bw))))
    case SendPacket => Defined(k.(phase := next, sigma := Finite(0.0)))
    case SendInputRateReset =>
      if k.queue == [] then Undefined
      else
        var rest := k.queue[1..];
        Defined(if rest != [] then Hybrid(rest, After(mode, Waiting), Finite(0.0)) else Hybrid(rest, next, Infinite))
  }

  function External(mode: Mode, k: Hybrid, p: Packet, e: real): Hybrid {
    var queue := k.queue + [p];
    if |queue| == 1 then Hybrid(queue, After(mode, Waiting), Finite(0.0))
    else k.(queue := queue, sigma := k.sigma.Minus(e))
  }

  function Lambda(k: Hybrid): Outcome<Output> {
    match k.phase
    case Waiting => Undefined
    case SendInputRate => Defined(Rate(true))
    case SendPacket => if k.queue == [] then Undefined else Defined(Send(k.queue[0]))
    case SendInputRateReset => Defined(if |k.queue| > 1 then Nothing else Rate(false))
  }

  class HybridizationLink {
    const mode: Mode
    const bw: real
    const transitionTable: map<(Mode, Phase), Phase>
    var packetQueue: seq<Packet>
    var sendState: Phase
    var sigma: Duration

    ghost function State(): Hybrid
      reads this
    {
      Hybrid(packetQueue, sendState, sigma)
    }

    ghost predicate Valid()
      reads this
    {
      bw > 0.0 && transitionTable == TABLE
    }

    constructor (m: Mode, bandwidth: real)
      requires bandwidth > 0.0
      ensures Valid() && mode == m && bw == bandwidth && State() == START
    {
      mode, bw, transitionTable := m, bandwidth, TABLE;
      packetQueue, sendState, sigma := [], Waiting, Infinite;
    }

    method OnDint()
      requires Valid() && Internal(mode, bw, State()).Defined?
      modifies this
      ensures Internal(mode, bw, old(State())) == Defined(State())
    {
      TableIsAfter(mode, sendState);
      TableIsAfter(mode, Waiting);
      var nextState := transitionTable[(mode, sendState)];
      match sendState
      case SendInputRate =>
        sendState := nextState;
        sigma := Finite(packetQueue[0].bits as real / bw);
      case SendPacket =>
        sendState := nextState;
        sigma := Finite(0.0);
      case SendInputRateReset =>
        packetQueue := packetQueue[1..];
        if |packetQueue| > 0 {
          sigma := Finite(0.0);
          sendState := transitionTable[(mode, Waiting)];
        } else {
          sigma := Infinite;
          sendState := nextState;
        }
    }

    method OnDext(packet: Packet, e: real)
      requires Valid()
      modifies this
      ensures State() == External(mode, old(State()), packet, e)
    {
      TableIsAfter(mode, Waiting);
      packetQueue := packetQueue + [packet];
      if |packetQueue| == 1 {
        sigma := Finite(0.0);
        sendState := transitionTable[(mode, Waiting)];
      } else {
        sigma := sigma.Minus(e);
      }
    }

    method OnLambda() returns (event: Output)
      requires Lambda(State()).Defined?
      ensures Lambda(State()) == Defined(event)
    {
      match sendState
      case SendInputRate => event := Rate(true);
      case SendPacket => event := Send(packetQueue[0]);
      case SendInputRateReset =>
        if |packetQueue| > 1 {
          return Nothing;
        }
        event := Rate(false);
    }
  }

  // ----- what the link should emit -----

  /** Transmission of packet k starts when it is there and the previous one is through. */
  function Start(arrivals: seq<Arrival>, bw: real, k: nat): real
    requires bw > 0.0 && k < |arrivals|
  {
    Departure(arrivals, bw, k) - ServiceTime(arrivals[k].packet, bw)
  }

  datatype Level = Level(time: real, on: bool)

  /** Packet k arrives at the very instant the one before it completes. */
  ghost predicate IsTie(arrivals: seq<Arrival>, bw: real, k: int)
    requires bw > 0.0
  {
    0 < k < |arrivals| && arrivals[k].time == Departure(arrivals, bw, k - 1)
  }

  ghost predicate Untied(arrivals: seq<Arrival>, bw: real)
    requires bw > 0.0
  {
    forall k :: !IsTie(arrivals, bw, k)
  }

  /** The rate signal of the first n packets: on at every start, off at the end unless the next packet is there.
      `quiet` names the packets that came with the completion before them and were there before the reset. */
  ghost function Signal(arrivals: seq<Arrival>, bw: real, n: nat, quiet: set<nat>): seq<Level>
    requires bw > 0.0 && n <= |arrivals|
  {
    if n == 0 then []
    else
      var d := Departure(arrivals, bw, n - 1);
      Signal(arrivals, bw, n - 1, quiet)
      + [Level(Start(arrivals, bw, n - 1), true)]
      + (if n < |arrivals| && (arrivals[n].time < d || n in quiet) then [] else [Level(d, false)])
  }

  /** When packet k is handed over. */
  function SendTime(mode: Mode, arrivals: seq<Arrival>, bw: real, k: nat): real
    requires bw > 0.0 && k < |arrivals|
  {
    if mode == WithFirstBit then Start(arrivals, bw, k) else Departure(arrivals, bw, k)
  }

  // ----- runs -----

  datatype Step = Enter(packet: Packet, e: real) | Tick

  datatype Hybrids = Hybrids(link: Hybrid, now: real, arrivals: seq<Arrival>, rates: seq<Level>, sent: seq<Sent>)

  predicate Possible(w: Hybrids, step: Step) {
    match step
    case Enter(_, e) => w.link.sigma.Allows(e)
    case Tick => w.link.sigma.Finite?
  }

  function Next(mode: Mode, bw: real, w: Hybrids, step: Step): Outcome<Hybrids>
    requires bw > 0.0 && Possible(w, step)
  {
    match step
    case Enter(p, e) =>
      Defined(w.(link := External(mode, w.link, p, e), now := w.now + e, arrivals := w.arrivals + [Arrival(w.now + e, p)]))
    case Tick =>
      var t := w.now + w.link.sigma.secs;
      var output, link := Lambda(w.link), Internal(mode, bw, w.link);
      if output.Undefined? || link.Undefined? then Undefined
      else Defined(Emit(w.(link := link.value, now := t), t, output.value))
  }

  function Emit(w: Hybrids, t: real, output: Output): Hybrids {
    match output
    case Nothing => w
    case Send(p) => w.(sent := w.sent + [Sent(t, p)])
    case Rate(on) => w.(rates := w.rates + [Level(t, on)])
  }

  ghost predicate Reaches(mode: Mode, bw: real, w: Hybrids, steps: seq<Step>, end: Hybrids)
    requires bw > 0.0
    decreases |steps|
  {
    if steps == [] then w == end
    else
      && Possible(w, steps[0])
      && Next(mode, bw, w, steps[0]).Defined?
      && Reaches(mode, bw, Next(mode, bw, w, steps[0]).value, steps[1..], end)
  }

  // ----- the invariant -----

  /** The number of packets completely handled. */
  ghost function Done(w: Hybrids): int {
    |w.arrivals| - |w.link.queue|
  }

  /** The queue holds the packets not completed, in arrival order; it is empty exactly when waiting. */
  ghost predicate QueueInv(bw: real, w: Hybrids)
    requires bw > 0.0
  {
    var n := Done(w);
    && n >= 0
    && (forall i :: 0 <= i < |w.link.queue| ==> w.link.queue[i] == w.arrivals[n + i].packet)
    && (forall i :: 0 <= i < |w.arrivals| ==> w.arrivals[i].time <= w.now)
    && (n > 0 ==> Departure(w.arrivals, bw, n - 1) <= w.now)
    && (w.link.queue == [] <==> w.link.phase == Waiting)
  }

  /** Whether the packet at the head is being transmitted, and whether it has been handed over. */
  ghost predicate RateIsOn(mode: Mode, phase: Phase) {
    phase == SendInputRateReset || (mode == WithLastBit && phase == SendPacket)
  }

  ghost predicate HeadIsSent(mode: Mode, phase: Phase) {
    phase == SendInputRateReset || (mode == WithFirstBit && phase == SendInputRate)
  }

  /** The countdown: none when waiting, none left in the immediate phases, and otherwise up to the completion. */
  ghost predicate ClockInv(mode: Mode, bw: real, w: Hybrids)
    requires bw > 0.0 && QueueInv(bw, w)
  {
    if w.link.phase == Waiting then w.link.sigma == Infinite
    else
      && w.link.sigma.Finite? && w.link.sigma.secs >= 0.0
      && if RateIsOn(mode, w.link.phase) then
           && w.now + w.link.sigma.secs == Departure(w.arrivals, bw, Done(w))
           && (mode == WithLastBit && w.link.phase == SendInputRateReset ==> w.link.sigma.secs == 0.0)
         else w.link.sigma.secs == 0.0 && w.now == Start(w.arrivals, bw, Done(w))
  }

  /** The signal of the n packets completed and, if it is on, of the one being transmitted. */
  ghost function SignalSoFar(arrivals: seq<Arrival>, bw: real, n: nat, quiet: set<nat>, on: bool): seq<Level>
    requires bw > 0.0 && n <= |arrivals|
  {
    Signal(arrivals, bw, n, quiet) + if on && n < |arrivals| then [Level(Start(arrivals, bw, n), true)] else []
  }

  /** Only completed ties are quiet. */
  ghost predicate QuietTies(bw: real, w: Hybrids, quiet: set<nat>)
    requires bw > 0.0
  {
    forall k :: k in quiet ==> k <= Done(w) && IsTie(w.arrivals, bw, k)
  }

  ghost predicate RatesInv(mode: Mode, bw: real, w: Hybrids, quiet: set<nat>)
    requires bw > 0.0 && QueueInv(bw, w)
  {
    && QuietTies(bw, w, quiet)
    && w.rates == SignalSoFar(w.arrivals, bw, Done(w), quiet, RateIsOn(mode, w.link.phase))
  }

  /** A reset that finds a packet which came at this very instant keeps quiet about it. */
  ghost function QuietAfter(w: Hybrids, step: Step, quiet: set<nat>): set<nat>
    requires Done(w) >= 0
  {
    var n := Done(w);
    if step.Tick? && w.link.phase == SendInputRateReset && w.link.sigma.Finite? && n + 1 < |w.arrivals|
       && w.arrivals[n + 1].time == w.now + w.link.sigma.secs
    then quiet + {n + 1} else quiet
  }

  ghost predicate SentInv(mode: Mode, bw: real, w: Hybrids)
    requires bw > 0.0 && QueueInv(bw, w)
  {
    && |w.sent| == Done(w) + (if HeadIsSent(mode, w.link.phase) then 1 else 0) <= |w.arrivals|
    && (forall k :: 0 <= k < |w.sent| ==>
                      w.sent[k] == Sent(SendTime(mode, w.arrivals, bw, k), w.arrivals[k].packet))
  }

  ghost predicate Inv(mode: Mode, bw: real, w: Hybrids)
    requires bw > 0.0
  {
    QueueInv(bw, w) && ClockInv(mode, bw, w) && SentInv(mode, bw, w)
  }

  // ----- preservation -----

  lemma StartIsMax(arrivals: seq<Arrival>, bw: real, k: nat)
    requires bw > 0.0 && k < |arrivals|
    ensures Start(arrivals, bw, k)
            == if k == 0 then arrivals[k].time else MaxReal(arrivals[k].time, Departure(arrivals, bw, k - 1))
  {
  }

  lemma PrefixKeepsTimes(arrivals: seq<Arrival>, a: Arrival, bw: real)
    requires bw > 0.0
    ensures forall k :: 0 <= k < |arrivals| ==> Departure(arrivals + [a], bw, k) == Departure(arrivals, bw, k)
    ensures forall k :: 0 <= k < |arrivals| ==> Start(arrivals + [a], bw, k) == Start(arrivals, bw, k)
  {
    forall k | 0 <= k < |arrivals|
      ensures Departure(arrivals + [a], bw, k) == Departure(arrivals, bw, k)
    {
      DepartureOfPrefix(arrivals, a, bw, k);
    }
  }

  /** An arrival after the completions so far does not change their signal. */
  lemma {:induction false} PrefixKeepsSignal(arrivals: seq<Arrival>, a: Arrival, bw: real, n: nat, quiet: set<nat>)
    requires bw > 0.0 && n <= |arrivals|
    requires n == |arrivals| && n > 0 ==> a.time >= Departure(arrivals, bw, n - 1) && n !in quiet
    ensures Signal(arrivals + [a], bw, n, quiet) == Signal(arrivals, bw, n, quiet)
    decreases n
  {
    hide Departure, Start;
    PrefixKeepsTimes(arrivals, a, bw);
    if n > 0 {
      PrefixKeepsSignal(arrivals, a, bw, n - 1, quiet);
    }
  }

  lemma ArriveKeepsQueue(mode: Mode, bw: real, w: Hybrids, p: Packet, e: real)
    requires bw > 0.0 && QueueInv(bw, w) && Possible(w, Enter(p, e))
    ensures QueueInv(bw, Next(mode, bw, w, Enter(p, e)).value)
    ensures Done(Next(mode, bw, w, Enter(p, e)).value) == Done(w)
  {
    hide Departure, Start;
    PrefixKeepsTimes(w.arrivals, Arrival(w.now + e, p), bw);
  }

  lemma ArriveKeepsClock(mode: Mode, bw: real, w: Hybrids, p: Packet, e: real)
    requires bw > 0.0 && QueueInv(bw, w) && ClockInv(mode, bw, w) && SentInv(mode, bw, w) && Possible(w, Enter(p, e))
    ensures var w' := Next(mode, bw, w, Enter(p, e)).value;
            QueueInv(bw, w') && ClockInv(mode, bw, w') && SentInv(mode, bw, w')
  {
    var w' := Next(mode, bw, w, Enter(p, e)).value;
    hide Departure, Start;
    ArriveKeepsQueue(mode, bw, w, p, e);
    PrefixKeepsTimes(w.arrivals, Arrival(w.now + e, p), bw);
    if w.link.queue == [] {
      StartIsMax(w'.arrivals, bw, |w.arrivals|);
    }
  }

  lemma ArriveKeepsSignal(bw: real, w: Hybrids, a: Arrival, quiet: set<nat>, on: bool, on': bool)
    requires bw > 0.0 && QueueInv(bw, w) && w.now <= a.time && QuietTies(bw, w, quiet)
    requires if w.link.queue == [] then !on' else on == on'
    ensures SignalSoFar(w.arrivals + [a], bw, Done(w), quiet, on') == SignalSoFar(w.arrivals, bw, Done(w), quiet, on)
  {
    hide Departure, Start, Signal;
    PrefixKeepsTimes(w.arrivals, a, bw);
    PrefixKeepsSignal(w.arrivals, a, bw, Done(w), quiet);
  }

  lemma ArriveKeepsRates(mode: Mode, bw: real, w: Hybrids, p: Packet, e: real, quiet: set<nat>)
    requires bw > 0.0 && QueueInv(bw, w) && RatesInv(mode, bw, w, quiet) && Possible(w, Enter(p, e))
    ensures var w' := Next(mode, bw, w, Enter(p, e)).value; QueueInv(bw, w') && RatesInv(mode, bw, w', quiet)
  {
    var a := Arrival(w.now + e, p);
    hide Departure, Start, SignalSoFar;
    ArriveKeepsQueue(mode, bw, w, p, e);
    var w' := Next(mode, bw, w, Enter(p, e)).value;
    PrefixKeepsTimes(w.arrivals, a, bw);
    ArriveKeepsSignal(bw, w, a, quiet, RateIsOn(mode, w.link.phase), RateIsOn(mode, w'.link.phase));
  }

  lemma TickKeepsQueue(mode: Mode, bw: real, w: Hybrids)
    requires bw > 0.0 && QueueInv(bw, w) && ClockInv(mode, bw, w) && Possible(w, Tick)
    ensures Next(mode, bw, w, Tick).Defined?
    ensures var w' := Next(mode, bw, w, Tick).value;
            QueueInv(bw, w') && Done(w') == Done(w) + if w.link.phase == SendInputRateReset then 1 else 0
  {
    hide Departure, Start;
  }

  /** The two facts about start and completion a tick needs. */
  lemma StartFacts(arrivals: seq<Arrival>, bw: real, n: nat)
    requires bw > 0.0 && n < |arrivals|
    ensures Departure(arrivals, bw, n) == Start(arrivals, bw, n) + ServiceTime(arrivals[n].packet, bw)
    ensures ServiceTime(arrivals[n].packet, bw) >= 0.0
    ensures n + 1 < |arrivals| && arrivals[n + 1].time <= Departure(arrivals, bw, n) ==>
              Start(arrivals, bw, n + 1) == Departure(arrivals, bw, n)
  {
    ServiceTimeIsNonnegative(arrivals[n].packet, bw);
    if n + 1 < |arrivals| {
      StartIsMax(arrivals, bw, n + 1);
    }
  }

  lemma TickKeepsClock(mode: Mode, bw: real, w: Hybrids)
    requires bw > 0.0 && QueueInv(bw, w) && ClockInv(mode, bw, w) && Possible(w, Tick)
    ensures Next(mode, bw, w, Tick).Defined?
    ensures var w' := Next(mode, bw, w, Tick).value; QueueInv(bw, w') && ClockInv(mode, bw, w')
  {
    TickKeepsQueue(mode, bw, w);
    hide Departure, ServiceTime, Start;
    StartFacts(w.arrivals, bw, Done(w));
  }

  lemma TickKeepsSent(mode: Mode, bw: real, w: Hybrids)
    requires bw > 0.0 && QueueInv(bw, w) && ClockInv(mode, bw, w) && SentInv(mode, bw, w) && Possible(w, Tick)
    ensures Next(mode, bw, w, Tick).Defined?
    ensures var w' := Next(mode, bw, w, Tick).value; QueueInv(bw, w') && SentInv(mode, bw, w')
  {
    TickKeepsQueue(mode, bw, w);
    hide Departure, ServiceTime, Start;
    StartFacts(w.arrivals, bw, Done(w));
  }

  lemma SignalOfOneMore(arrivals: seq<Arrival>, bw: real, n: nat, now: real, quiet: set<nat>, quiet': set<nat>)
    requires bw > 0.0 && n < |arrivals| && now == Departure(arrivals, bw, n) && forall k :: k in quiet ==> k <= n
    requires forall i :: 0 <= i < |arrivals| ==> arrivals[i].time <= now
    requires quiet' == if n + 1 < |arrivals| && arrivals[n + 1].time == now then quiet + {n + 1} else quiet
    ensures SignalSoFar(arrivals, bw, n + 1, quiet', false)
            == SignalSoFar(arrivals, bw, n, quiet, true) + if n + 1 == |arrivals| then [Level(now, false)] else []
  {
    hide Start;
    LaterQuietIsIgnored(arrivals, bw, n, quiet, quiet');
  }

  /** What is quiet later does not change the signal before. */
  lemma {:induction false} LaterQuietIsIgnored(arrivals: seq<Arrival>, bw: real, n: nat, quiet: set<nat>, quiet': set<nat>)
    requires bw > 0.0 && n <= |arrivals| && forall k :: 0 <= k <= n ==> (k in quiet <==> k in quiet')
    ensures Signal(arrivals, bw, n, quiet) == Signal(arrivals, bw, n, quiet')
    decreases n
  {
    hide Departure, Start;
    if n > 0 {
      LaterQuietIsIgnored(arrivals, bw, n - 1, quiet, quiet');
    }
  }

  /** The reset ends the signal of the head, except when the next packet is there. */
  lemma ResetKeepsRates(mode: Mode, bw: real, w: Hybrids, quiet: set<nat>)
    requires bw > 0.0 && Inv(mode, bw, w) && RatesInv(mode, bw, w, quiet) && Possible(w, Tick)
    requires w.link.phase == SendInputRateReset
    ensures Next(mode, bw, w, Tick).Defined?
    ensures var w' := Next(mode, bw, w, Tick).value;
            QueueInv(bw, w') && RatesInv(mode, bw, w', QuietAfter(w, Tick, quiet))
  {
    TickKeepsQueue(mode, bw, w);
    var n, t := Done(w), w.now + w.link.sigma.secs;
    assert forall i :: 0 <= i < |w.arrivals| ==> w.arrivals[i].time <= t;
    SignalOfOneMore(w.arrivals, bw, n, t, quiet, QuietAfter(w, Tick, quiet));
    assert w.rates == SignalSoFar(w.arrivals, bw, n, quiet, true);
    assert t == Departure(w.arrivals, bw, n);
    ResetEffect(mode, bw, w);
    hide Departure, Start, SignalSoFar, SentInv, ClockInv, Next;
  }

  lemma ResetEffect(mode: Mode, bw: real, w: Hybrids)
    requires bw > 0.0 && w.link.phase == SendInputRateReset && w.link.queue != [] && Possible(w, Tick)
    ensures Next(mode, bw, w, Tick).Defined?
    ensures var w' := Next(mode, bw, w, Tick).value;
            && w'.arrivals == w.arrivals && |w'.link.queue| == |w.link.queue| - 1 && !RateIsOn(mode, w'.link.phase)
            && w'.rates == w.rates + if |w.link.queue| == 1 then [Level(w.now + w.link.sigma.secs, false)] else []
  {
  }

  lemma RiseAtStart(arrivals: seq<Arrival>, bw: real, n: nat, quiet: set<nat>)
    requires bw > 0.0 && n < |arrivals|
    ensures SignalSoFar(arrivals, bw, n, quiet, true)
            == SignalSoFar(arrivals, bw, n, quiet, false) + [Level(Start(arrivals, bw, n), true)]
  {
  }

  lemma TickKeepsRates(mode: Mode, bw: real, w: Hybrids, quiet: set<nat>)
    requires bw > 0.0 && Inv(mode, bw, w) && RatesInv(mode, bw, w, quiet) && Possible(w, Tick)
    ensures Next(mode, bw, w, Tick).Defined?
    ensures var w' := Next(mode, bw, w, Tick).value;
            QueueInv(bw, w') && RatesInv(mode, bw, w', QuietAfter(w, Tick, quiet))
  {
    if w.link.phase == SendInputRateReset {
      ResetKeepsRates(mode, bw, w, quiet);
    } else {
      TickKeepsQueue(mode, bw, w);
      RiseAtStart(w.arrivals, bw, Done(w), quiet);
      hide Departure, Start, SignalSoFar, SentInv;
    }
  }

  lemma StepKeepsInv(mode: Mode, bw: real, w: Hybrids, step: Step)
    requires bw > 0.0 && Inv(mode, bw, w) && Possible(w, step)
    ensures Next(mode, bw, w, step).Defined? && Inv(mode, bw, Next(mode, bw, w, step).value)
  {
    hide QueueInv, ClockInv, SentInv;
    match step
    case Enter(p, e) => ArriveKeepsClock(mode, bw, w, p, e);
    case Tick =>
      TickKeepsClock(mode, bw, w);
      TickKeepsSent(mode, bw, w);
  }

  lemma StepKeepsRates(mode: Mode, bw: real, w: Hybrids, step: Step, quiet: set<nat>)
    requires bw > 0.0 && Inv(mode, bw, w) && RatesInv(mode, bw, w, quiet) && Possible(w, step)
    ensures Next(mode, bw, w, step).Defined?
    ensures var w' := Next(mode, bw, w, step).value;
            Inv(mode, bw, w') && RatesInv(mode, bw, w', QuietAfter(w, step, quiet))
  {
    StepKeepsInv(mode, bw, w, step);
    hide ClockInv, SentInv, RatesInv;
    match step
    case Enter(p, e) => ArriveKeepsRates(mode, bw, w, p, e, quiet);
    case Tick => TickKeepsRates(mode, bw, w, quiet);
  }

  /** In both modes, every run keeps the invariant and never reaches an undefined transition. */
  lemma {:induction false} RunKeepsInv(mode: Mode, bw: real, w: Hybrids, steps: seq<Step>, end: Hybrids)
    requires bw > 0.0 && Inv(mode, bw, w) && Reaches(mode, bw, w, steps, end)
    ensures Inv(mode, bw, end)
    ensures forall step :: Possible(end, step) ==> Next(mode, bw, end, step).Defined?
    decreases |steps|
  {
    hide Inv;
    if steps == [] {
      forall step | Possible(end, step)
        ensures Next(mode, bw, end, step).Defined?
      {
        StepKeepsInv(mode, bw, end, step);
      }
    } else {
      StepKeepsInv(mode, bw, w, steps[0]);
      RunKeepsInv(mode, bw, Next(mode, bw, w, steps[0]).value, steps[1..], end);
    }
  }

  /** The rate signal of every run, in either mode, is fixed by the arrivals and by which ties were taken
      arrival first. */
  lemma {:induction false} RatesOfRun(mode: Mode, bw: real, w: Hybrids, quiet: set<nat>, steps: seq<Step>, end: Hybrids)
    returns (quiet': set<nat>)
    requires bw > 0.0 && Inv(mode, bw, w) && RatesInv(mode, bw, w, quiet) && Reaches(mode, bw, w, steps, end)
    ensures Inv(mode, bw, end) && RatesInv(mode, bw, end, quiet')
    decreases |steps|
  {
    assert Done(w) >= 0;
    hide Inv, RatesInv, Possible, Next;
    if steps == [] {
      quiet' := quiet;
    } else {
      StepKeepsRates(mode, bw, w, steps[0], quiet);
      quiet' := RatesOfRun(mode, bw, Next(mode, bw, w, steps[0]).value, QuietAfter(w, steps[0], quiet), steps[1..], end);
    }
  }

  // ----- the levels in bits -----

  /** t is the earliest time at which the transmission of packet k can begin. */
  ghost predicate Begins(arrivals: seq<Arrival>, bw: real, k: nat, t: real)
    requires bw > 0.0 && k < |arrivals|
  {
    && (forall j :: 0 <= j <= k ==> EnoughBefore(arrivals, bw, j, k, t))
    && (exists j :: 0 <= j <= k && ExactBefore(arrivals, bw, j, k, t))
  }

  /** By time t the link can have sent the bits of packets j to k - 1. */
  ghost predicate EnoughBefore(arrivals: seq<Arrival>, bw: real, j: nat, k: nat, t: real)
    requires j <= k < |arrivals|
  {
    (t - arrivals[j].time) * bw >= (Bits(arrivals, j, k) - arrivals[k].packet.bits) as real
  }

  ghost predicate ExactBefore(arrivals: seq<Arrival>, bw: real, j: nat, k: nat, t: real)
    requires j <= k < |arrivals|
  {
    (t - arrivals[j].time) * bw == (Bits(arrivals, j, k) - arrivals[k].packet.bits) as real
  }

  lemma StartBegins(arrivals: seq<Arrival>, bw: real, k: nat)
    requires bw > 0.0 && k < |arrivals|
    ensures Begins(arrivals, bw, k, Start(arrivals, bw, k))
  {
    hide Departure, EnoughBefore, ExactBefore, EnoughTime, ExactTime, ServiceTime;
    DepartureCompletes(arrivals, bw, k);
    var t := Departure(arrivals, bw, k);
    forall j | 0 <= j <= k
      ensures EnoughBefore(arrivals, bw, j, k, Start(arrivals, bw, k))
      ensures ExactTime(arrivals, bw, j, k, t) ==> ExactBefore(arrivals, bw, j, k, Start(arrivals, bw, k))
    {
      OneServiceEarlier(arrivals, bw, j, k, t);
    }
  }

  lemma OneServiceEarlier(arrivals: seq<Arrival>, bw: real, j: nat, k: nat, t: real)
    requires bw > 0.0 && j <= k < |arrivals|
    ensures var u := t - ServiceTime(arrivals[k].packet, bw);
            && (EnoughTime(arrivals, bw, j, k, t) ==> EnoughBefore(arrivals, bw, j, k, u))
            && (ExactTime(arrivals, bw, j, k, t) ==> ExactBefore(arrivals, bw, j, k, u))
  {
    ServedBits(arrivals[k].packet, bw);
    hide ServiceTime, Bits;
    var service := ServiceTime(arrivals[k].packet, bw);
    Distributes(t - service - arrivals[j].time, service, bw);
  }

  /** How often the signal goes on. */
  function Ons(rates: seq<Level>): nat {
    if rates == [] then 0 else Ons(rates[..|rates| - 1]) + if rates[|rates| - 1].on then 1 else 0
  }

  lemma OnsSnoc(rates: seq<Level>, l: Level)
    ensures Ons(rates + [l]) == Ons(rates) + if l.on then 1 else 0
  {
    assert (rates + [l])[..|rates|] == rates;
  }

  /** The k-th time the signal goes on, the transmission of packet k begins; when it goes off after that, that
      transmission ends. */
  ghost predicate LevelIsRight(arrivals: seq<Arrival>, bw: real, rates: seq<Level>, i: nat)
    requires bw > 0.0 && i < |rates|
  {
    var k := Ons(rates[..i]);
    if rates[i].on then k < |arrivals| && Begins(arrivals, bw, k, rates[i].time)
    else 0 < k <= |arrivals| && Completes(arrivals, bw, k - 1, rates[i].time)
  }

  ghost predicate LevelsAreRight(arrivals: seq<Arrival>, bw: real, rates: seq<Level>)
    requires bw > 0.0
  {
    forall i :: 0 <= i < |rates| ==> LevelIsRight(arrivals, bw, rates, i)
  }

  lemma AnotherLevel(arrivals: seq<Arrival>, bw: real, rates: seq<Level>, l: Level)
    requires bw > 0.0 && LevelsAreRight(arrivals, bw, rates)
    requires var k := Ons(rates);
             if l.on then k < |arrivals| && Begins(arrivals, bw, k, l.time)
             else 0 < k <= |arrivals| && Completes(arrivals, bw, k - 1, l.time)
    ensures LevelsAreRight(arrivals, bw, rates + [l]) && Ons(rates + [l]) == Ons(rates) + if l.on then 1 else 0
  {
    hide Begins, Completes, Ons;
    OnsSnoc(rates, l);
    forall i | 0 <= i < |rates + [l]|
      ensures LevelIsRight(arrivals, bw, rates + [l], i)
    {
      assert (rates + [l])[..i] == rates[..i];
      assert i < |rates| ==> LevelIsRight(arrivals, bw, rates, i);
      assert rates[..|rates|] == rates;
    }
  }

  lemma {:induction false} SignalIsRight(arrivals: seq<Arrival>, bw: real, n: nat, quiet: set<nat>)
    requires bw > 0.0 && n <= |arrivals|
    ensures LevelsAreRight(arrivals, bw, Signal(arrivals, bw, n, quiet)) && Ons(Signal(arrivals, bw, n, quiet)) == n
    decreases n
  {
    hide Departure, Start, Begins, Completes, LevelsAreRight;
    if n == 0 {
      assert LevelsAreRight(arrivals, bw, []) by {
        NoLevels(arrivals, bw);
      }
    } else {
      SignalIsRight(arrivals, bw, n - 1, quiet);
      StartBegins(arrivals, bw, n - 1);
      DepartureCompletes(arrivals, bw, n - 1);
      var before, d := Signal(arrivals, bw, n - 1, quiet), Departure(arrivals, bw, n - 1);
      var on := Level(Start(arrivals, bw, n - 1), true);
      AnotherLevel(arrivals, bw, before, on);
      AnotherLevel(arrivals, bw, before + [on], Level(d, false));
      assert before + [on] + [] == before + [on];
    }
  }

  lemma NoLevels(arrivals: seq<Arrival>, bw: real)
    requires bw > 0.0
    ensures LevelsAreRight(arrivals, bw, [])
  {
  }

  /** Main result, in bits and seconds only: in every run of either mode the signal is on from the instant the
      transmission of a packet begins and goes off only when one ends; the packets leave in arrival order, with the
      first bit when their transmission begins and with the last bit when it ends. */
  lemma RunInBits(mode: Mode, bw: real, start: real, steps: seq<Step>, w: Hybrids)
    requires bw > 0.0 && Reaches(mode, bw, Fresh(start), steps, w)
    ensures LevelsAreRight(w.arrivals, bw, w.rates)
    ensures |w.sent| <= |w.arrivals|
    ensures forall k :: 0 <= k < |w.sent| ==>
              && w.sent[k].packet == w.arrivals[k].packet
              && if mode == WithFirstBit then Begins(w.arrivals, bw, k, w.sent[k].time)
                 else Completes(w.arrivals, bw, k, w.sent[k].time)
  {
    var quiet := RatesOfRun(mode, bw, Fresh(start), {}, steps, w);
    hide Reaches, Departure, Start, Begins, Completes, LevelsAreRight, Signal;
    SoFarIsRight(w.arrivals, bw, Done(w), quiet, RateIsOn(mode, w.link.phase));
    forall k | 0 <= k < |w.sent|
      ensures w.sent[k].packet == w.arrivals[k].packet
      ensures if mode == WithFirstBit then Begins(w.arrivals, bw, k, w.sent[k].time)
              else Completes(w.arrivals, bw, k, w.sent[k].time)
    {
      StartBegins(w.arrivals, bw, k);
      DepartureCompletes(w.arrivals, bw, k);
    }
  }

  lemma SoFarIsRight(arrivals: seq<Arrival>, bw: real, n: nat, quiet: set<nat>, on: bool)
    requires bw > 0.0 && n <= |arrivals|
    ensures LevelsAreRight(arrivals, bw, SignalSoFar(arrivals, bw, n, quiet, on))
  {
    hide Departure, Start, Begins, Completes, LevelsAreRight, Signal;
    SignalIsRight(arrivals, bw, n, quiet);
    var rates := Signal(arrivals, bw, n, quiet);
    if on && n < |arrivals| {
      StartBegins(arrivals, bw, n);
      AnotherLevel(arrivals, bw, rates, Level(Start(arrivals, bw, n), true));
    } else {
      assert rates + [] == rates;
    }
  }

  // ----- the two modes compared -----

  /** Everything due up to time t has happened and nothing later has. */
  predicate RunUntil(w: Hybrids, t: real) {
    w.now <= t && (w.link.sigma.Finite? ==> t < w.now + w.link.sigma.secs)
  }

  function Fresh(start: real): Hybrids {
    Hybrids(START, start, [], [], [])
  }

  lemma {:induction false} DeparturesGrow(arrivals: seq<Arrival>, bw: real, j: nat, k: nat)
    requires bw > 0.0 && j <= k < |arrivals|
    ensures Departure(arrivals, bw, j) <= Departure(arrivals, bw, k)
    decreases k
  {
    if j < k {
      ServiceTimeIsNonnegative(arrivals[k].packet, bw);
      DeparturesGrow(arrivals, bw, j, k - 1);
    }
  }

  /** At rest at time t, the completed packets are those whose completion is due, in either mode. */
  lemma CompletedByThen(mode: Mode, bw: real, w: Hybrids, t: real)
    requires bw > 0.0 && Inv(mode, bw, w) && RunUntil(w, t)
    ensures Done(w) > 0 ==> Departure(w.arrivals, bw, Done(w) - 1) <= t
    ensures Done(w) < |w.arrivals| ==> t < Departure(w.arrivals, bw, Done(w)) && RateIsOn(mode, w.link.phase)
    ensures |w.sent| == Done(w) + if mode == WithFirstBit && Done(w) < |w.arrivals| then 1 else 0
  {
    hide Departure, Start;
  }

  /** Both modes have completed the same packets by then. */
  lemma SameDone(bw: real, w1: Hybrids, w2: Hybrids, t: real)
    requires bw > 0.0 && Inv(WithFirstBit, bw, w1) && Inv(WithLastBit, bw, w2)
    requires w1.arrivals == w2.arrivals && RunUntil(w1, t) && RunUntil(w2, t)
    ensures Done(w1) == Done(w2)
  {
    CompletedByThen(WithFirstBit, bw, w1, t);
    CompletedByThen(WithLastBit, bw, w2, t);
    if Done(w1) < Done(w2) {
      DeparturesGrow(w1.arrivals, bw, Done(w1), Done(w2) - 1);
    } else if Done(w2) < Done(w1) {
      DeparturesGrow(w1.arrivals, bw, Done(w2), Done(w1) - 1);
    }
  }

  /** For the same arrivals, none of them at the instant the packet before completes, both modes have emitted
      the same rate signal by any time t. The packets leave once each in arrival order: by their start with
      the first bit, by their completion with the last bit, which is exactly one service time later. */
  lemma ModesAgree(bw: real, start: real, first: seq<Step>, last: seq<Step>, w1: Hybrids, w2: Hybrids, t: real)
    requires bw > 0.0
    requires Reaches(WithFirstBit, bw, Fresh(start), first, w1) && Reaches(WithLastBit, bw, Fresh(start), last, w2)
    requires w1.arrivals == w2.arrivals && RunUntil(w1, t) && RunUntil(w2, t)
    ensures Untied(w1.arrivals, bw) ==> w1.rates == w2.rates
    ensures |w2.sent| <= |w1.sent| <= |w1.arrivals|
    ensures forall k :: 0 <= k < |w2.sent| ==>
              && w1.sent[k].packet == w2.sent[k].packet == w1.arrivals[k].packet
              && w2.sent[k].time == w1.sent[k].time + ServiceTime(w1.arrivals[k].packet, bw)
  {
    var quiet1 := RatesOfRun(WithFirstBit, bw, Fresh(start), {}, first, w1);
    var quiet2 := RatesOfRun(WithLastBit, bw, Fresh(start), {}, last, w2);
    assert Untied(w1.arrivals, bw) ==> quiet1 == {} == quiet2;
    SameDone(bw, w1, w2, t);
    CompletedByThen(WithFirstBit, bw, w1, t);
    CompletedByThen(WithLastBit, bw, w2, t);
    hide Departure, ServiceTime, Signal, Untied, Reaches, ClockInv, Possible, Next;
  }

  // ----- every tie can be taken either way -----

  /** Arrivals in time order from `start` to t. */
  ghost predicate InOrder(start: real, arrivals: seq<Arrival>, t: real) {
    && start <= t
    && (forall i :: 0 <= i < |arrivals| ==> start <= arrivals[i].time <= t)
    && (forall i, j :: 0 <= i <= j < |arrivals| ==> arrivals[i].time <= arrivals[j].time)
  }

  /** With ticks first, whoever waits came before the completion of the head. With arrivals first, every tie so
      far is quiet and none is about to be missed. */
  ghost predicate OrderInv(ticksFirst: bool, bw: real, w: Hybrids, rest: seq<Arrival>, quiet: set<nat>)
    requires bw > 0.0 && QueueInv(bw, w)
  {
    var n := Done(w);
    if ticksFirst then
      && quiet == {}
      && (forall i :: n < i < |w.arrivals| ==> w.arrivals[i].time < Departure(w.arrivals, bw, n))
    else
      && (forall k :: IsTie(w.arrivals, bw, k) && k <= n ==> k in quiet)
      && (n > 0 && n == |w.arrivals| && rest != [] ==> rest[0].time > Departure(w.arrivals, bw, n - 1))
  }

  /** Ticks before the queue is empty. */
  function TicksLeft(mode: Mode, w: Hybrids): int {
    var first := After(mode, Waiting);
    3 * |w.link.queue| - (if w.link.phase == SendInputRateReset then 2
                          else if w.link.phase == first || w.link.phase == Waiting then 0 else 1)
  }

  /** The tick comes before the next arrival. */
  predicate TickIsNext(ticksFirst: bool, w: Hybrids, rest: seq<Arrival>, t: real) {
    w.link.sigma.Finite? &&
    var due := w.now + w.link.sigma.secs;
    if rest == [] then due <= t else if ticksFirst then due <= rest[0].time else due < rest[0].time
  }

  lemma TickKeepsOrder(mode: Mode, ticksFirst: bool, bw: real, w: Hybrids, rest: seq<Arrival>, t: real, quiet: set<nat>)
    requires bw > 0.0 && Inv(mode, bw, w) && TickIsNext(ticksFirst, w, rest, t)
    requires OrderInv(ticksFirst, bw, w, rest, quiet)
    ensures Next(mode, bw, w, Tick).Defined?
    ensures var w' := Next(mode, bw, w, Tick).value;
            && QueueInv(bw, w') && w'.arrivals == w.arrivals && w'.now == w.now + w.link.sigma.secs
            && TicksLeft(mode, w') < TicksLeft(mode, w)
            && OrderInv(ticksFirst, bw, w', rest, QuietAfter(w, Tick, quiet))
  {
    TickKeepsQueue(mode, bw, w);
    var n := Done(w);
    if n + 1 < |w.arrivals| {
      DeparturesGrow(w.arrivals, bw, n, n + 1);
    }
    hide Departure, Start, ServiceTime, SentInv;
  }

  lemma EnterKeepsOrder(mode: Mode, ticksFirst: bool, bw: real, w: Hybrids, rest: seq<Arrival>, t: real, quiet: set<nat>)
    requires bw > 0.0 && Inv(mode, bw, w) && rest != [] && InOrder(w.now, rest, t) && !TickIsNext(ticksFirst, w, rest, t)
    requires OrderInv(ticksFirst, bw, w, rest, quiet)
    ensures var step := Enter(rest[0].packet, rest[0].time - w.now);
            && Possible(w, step)
            && var w' := Next(mode, bw, w, step).value;
               && QueueInv(bw, w') && w'.arrivals == w.arrivals + [rest[0]] && w'.now == rest[0].time
               && OrderInv(ticksFirst, bw, w', rest[1..], quiet)
  {
    var a := rest[0];
    hide Departure, Start, ServiceTime, SentInv;
    assert Arrival(w.now + (a.time - w.now), a.packet) == a;
    ArriveKeepsQueue(mode, bw, w, a.packet, a.time - w.now);
    PrefixKeepsTimes(w.arrivals, a, bw);
  }

  /** A run that takes all arrivals, with every tie decided the same way, and rests at t. */
  lemma {:induction false} Schedule(mode: Mode, ticksFirst: bool, bw: real, w: Hybrids, rest: seq<Arrival>, t: real,
                                    quiet: set<nat>)
    returns (steps: seq<Step>, end: Hybrids, quiet': set<nat>)
    requires bw > 0.0 && Inv(mode, bw, w) && RatesInv(mode, bw, w, quiet) && InOrder(w.now, rest, t)
    requires OrderInv(ticksFirst, bw, w, rest, quiet)
    ensures Reaches(mode, bw, w, steps, end) && RunUntil(end, t) && end.arrivals == w.arrivals + rest
    ensures Inv(mode, bw, end) && RatesInv(mode, bw, end, quiet') && OrderInv(ticksFirst, bw, end, [], quiet')
    decreases |rest|, TicksLeft(mode, w)
  {
    hide QueueInv, ClockInv, SentInv, RatesInv, OrderInv, TicksLeft, Next;
    assert Done(w) >= 0 && (w.link.sigma.Finite? ==> w.link.sigma.secs >= 0.0) && TicksLeft(mode, w) >= 0 by {
      ScheduleFacts(mode, bw, w);
    }
    if TickIsNext(ticksFirst, w, rest, t) {
      TickKeepsOrder(mode, ticksFirst, bw, w, rest, t, quiet);
      StepKeepsRates(mode, bw, w, Tick, quiet);
      var w' := Next(mode, bw, w, Tick).value;
      steps, end, quiet' := Schedule(mode, ticksFirst, bw, w', rest, t, QuietAfter(w, Tick, quiet));
      steps := Prepend(mode, bw, w, Tick, steps, end);
    } else if rest == [] {
      steps, end, quiet' := [], w, quiet;
      assert end.arrivals == w.arrivals + rest;
    } else {
      var step := Enter(rest[0].packet, rest[0].time - w.now);
      EnterKeepsOrder(mode, ticksFirst, bw, w, rest, t, quiet);
      StepKeepsRates(mode, bw, w, step, quiet);
      steps, end, quiet' := Schedule(mode, ticksFirst, bw, Next(mode, bw, w, step).value, rest[1..], t, quiet);
      assert w.arrivals + [rest[0]] + rest[1..] == w.arrivals + rest;
      steps := Prepend(mode, bw, w, step, steps, end);
    }
  }

  lemma ScheduleFacts(mode: Mode, bw: real, w: Hybrids)
    requires bw > 0.0 && Inv(mode, bw, w)
    ensures Done(w) >= 0 && (w.link.sigma.Finite? ==> w.link.sigma.secs >= 0.0) && TicksLeft(mode, w) >= 0
  {
  }

  lemma Prepend(mode: Mode, bw: real, w: Hybrids, step: Step, steps: seq<Step>, end: Hybrids) returns (longer: seq<Step>)
    requires bw > 0.0 && Possible(w, step) && Next(mode, bw, w, step).Defined?
    requires Reaches(mode, bw, Next(mode, bw, w, step).value, steps, end)
    ensures Reaches(mode, bw, w, longer, end)
  {
    longer := [step] + steps;
    assert longer[1..] == steps;
  }

  lemma {:induction false} QuietShortens(arrivals: seq<Arrival>, bw: real, n: nat, quiet: set<nat>)
    requires bw > 0.0 && n <= |arrivals|
    ensures |Signal(arrivals, bw, n, quiet)| <= |Signal(arrivals, bw, n, {})|
    ensures (exists k :: k in quiet && k <= n && IsTie(arrivals, bw, k)) ==>
              |Signal(arrivals, bw, n, quiet)| < |Signal(arrivals, bw, n, {})|
    decreases n
  {
    hide Departure, Start;
    if n > 0 {
      QuietShortens(arrivals, bw, n - 1, quiet);
    }
  }

  lemma FreshIsSound(mode: Mode, bw: real, start: real, rest: seq<Arrival>, ticksFirst: bool)
    requires bw > 0.0
    ensures Inv(mode, bw, Fresh(start)) && RatesInv(mode, bw, Fresh(start), {})
    ensures OrderInv(ticksFirst, bw, Fresh(start), rest, {})
  {
  }

  /** Both modes agree on every pair of runs over these arrivals that rest at t. */
  ghost predicate AlwaysAgree(bw: real, start: real, arrivals: seq<Arrival>, t: real)
    requires bw > 0.0
  {
    forall first, last, w1, w2 ::
      && Reaches(WithFirstBit, bw, Fresh(start), first, w1) && Reaches(WithLastBit, bw, Fresh(start), last, w2)
      && w1.arrivals == arrivals == w2.arrivals && RunUntil(w1, t) && RunUntil(w2, t)
      ==> w1.rates == w2.rates
  }

  /** By time t, every tie lies among the completed packets. */
  lemma TieIsDone(mode: Mode, bw: real, w: Hybrids, t: real, k: nat)
    requires bw > 0.0 && Inv(mode, bw, w) && RunUntil(w, t) && IsTie(w.arrivals, bw, k) && w.arrivals[k].time <= t
    ensures k <= Done(w)
  {
    CompletedByThen(mode, bw, w, t);
    if Done(w) < k {
      DeparturesGrow(w.arrivals, bw, Done(w), k - 1);
    }
  }

  /** A tie makes two runs differ: ticks first with the first bit, arrivals first with the last bit. */
  lemma TieMakesModesDiffer(bw: real, start: real, arrivals: seq<Arrival>, t: real, k: nat)
    requires bw > 0.0 && InOrder(start, arrivals, t) && IsTie(arrivals, bw, k)
    ensures !AlwaysAgree(bw, start, arrivals, t)
  {
    hide Reaches, Departure, Start, Inv, Signal;
    FreshIsSound(WithFirstBit, bw, start, arrivals, true);
    FreshIsSound(WithLastBit, bw, start, arrivals, false);
    var first, w1, quiet1 := Schedule(WithFirstBit, true, bw, Fresh(start), arrivals, t, {});
    var last, w2, quiet2 := Schedule(WithLastBit, false, bw, Fresh(start), arrivals, t, {});
    assert w1.arrivals == arrivals == w2.arrivals;
    SameDone(bw, w1, w2, t);
    CompletedByThen(WithFirstBit, bw, w1, t);
    CompletedByThen(WithLastBit, bw, w2, t);
    TieIsDone(WithLastBit, bw, w2, t, k);
    QuietShortens(arrivals, bw, Done(w2), quiet2);
    assert |w1.rates| > |w2.rates|;
  }

  /** Main result: for every sequence of arrivals in time order, all pairs of runs of the two modes agree on the
      rate signal if and only if no packet arrives at the instant the one before it completes. */
  lemma ModesAgreeIff(bw: real, start: real, arrivals: seq<Arrival>, t: real)
    requires bw > 0.0 && InOrder(start, arrivals, t)
    ensures AlwaysAgree(bw, start, arrivals, t) <==> Untied(arrivals, bw)
  {
    hide Reaches, IsTie;
    if Untied(arrivals, bw) {
      forall first, last, w1, w2 |
        && Reaches(WithFirstBit, bw, Fresh(start), first, w1) && Reaches(WithLastBit, bw, Fresh(start), last, w2)
        && w1.arrivals == arrivals == w2.arrivals && RunUntil(w1, t) && RunUntil(w2, t)
        ensures w1.rates == w2.rates
      {
        ModesAgree(bw, start, first, last, w1, w2, t);
      }
    } else {
      var k :| IsTie(arrivals, bw, k);
      assert k >= 0 by {
        TieIsIndex(arrivals, bw, k);
      }
      TieMakesModesDiffer(bw, start, arrivals, t, k);
    }
  }

  lemma TieIsIndex(arrivals: seq<Arrival>, bw: real, k: int)
    requires bw > 0.0 && IsTie(arrivals, bw, k)
    ensures 0 < k < |arrivals|
  {
  }

  // ----- a tie, concretely -----

  predicate SameFields(w: Hybrids, v: Hybrids) {
    && w.link.queue == v.link.queue && w.link.phase == v.link.phase && w.link.sigma == v.link.sigma
    && w.now == v.now && w.arrivals == v.arrivals && w.rates == v.rates && w.sent == v.sent
  }

  lemma OneStep(mode: Mode, w: Hybrids, step: Step, w': Hybrids, rest: seq<Step>, end: Hybrids)
    requires Possible(w, step) && Next(mode, 1.0, w, step).Defined? && SameFields(Next(mode, 1.0, w, step).value, w')
    requires Reaches(mode, 1.0, w', rest, end)
    ensures Reaches(mode, 1.0, w, [step] + rest, end)
  {
    assert ([step] + rest)[1..] == rest;
    assert Next(mode, 1.0, w, step) == Defined(w');
  }

  lemma AlreadyThere(mode: Mode, w: Hybrids)
    ensures Reaches(mode, 1.0, w, [], w)
  {
  }

  /** What is emitted when a second packet of one second arrives just as the first completes. */
  lemma TieWithFirstBit(p: Packet) returns (steps: seq<Step>, w: Hybrids)
    requires p.bits == 1
    ensures Reaches(WithFirstBit, 1.0, Fresh(0.0), steps, w) && RunUntil(w, 1.0)
    ensures w.arrivals == [Arrival(0.0, p), Arrival(1.0, p)]
    ensures w.rates == [Level(0.0, true), Level(1.0, false), Level(1.0, true)]
  {
    assert ServiceTime(p, 1.0) == 1.0;
    hide ServiceTime, Reaches;
    var one := [Arrival(0.0, p)];
    var s0 := [Sent(0.0, p)];
    var w1 := Hybrids(Hybrid([p], SendPacket, Finite(0.0)), 0.0, one, [], []);
    var w2 := Hybrids(Hybrid([p], SendInputRate, Finite(0.0)), 0.0, one, [], s0);
    var w3 := Hybrids(Hybrid([p], SendInputRateReset, Finite(1.0)), 0.0, one, [Level(0.0, true)], s0);
    var w4 := Hybrids(START, 1.0, one, [Level(0.0, true), Level(1.0, false)], s0);
    var two := [Arrival(0.0, p), Arrival(1.0, p)];
    var w5 := w4.(link := w1.link, arrivals := two);
    var w6 := w5.(link := w2.link, sent := [Sent(0.0, p), Sent(1.0, p)]);
    w := w6.(link := w3.link, rates := [Level(0.0, true), Level(1.0, false), Level(1.0, true)]);
    AlreadyThere(WithFirstBit, w);
    OneStep(WithFirstBit, w6, Tick, w, [], w);
    OneStep(WithFirstBit, w5, Tick, w6, [Tick], w);
    OneStep(WithFirstBit, w4, Enter(p, 0.0), w5, [Tick, Tick], w);
    steps := [Enter(p, 0.0)] + [Tick, Tick];
    OneStep(WithFirstBit, w3, Tick, w4, steps, w);
    OneStep(WithFirstBit, w2, Tick, w3, [Tick] + steps, w);
    OneStep(WithFirstBit, w1, Tick, w2, [Tick] + ([Tick] + steps), w);
    steps := [Tick] + ([Tick] + ([Tick] + steps));
    OneStep(WithFirstBit, Fresh(0.0), Enter(p, 0.0), w1, steps, w);
    steps := [Enter(p, 0.0)] + steps;
  }

  lemma TieWithLastBit(p: Packet) returns (steps: seq<Step>, w: Hybrids)
    requires p.bits == 1
    ensures Reaches(WithLastBit, 1.0, Fresh(0.0), steps, w) && RunUntil(w, 1.0)
    ensures w.arrivals == [Arrival(0.0, p), Arrival(1.0, p)]
    ensures w.rates == [Level(0.0, true), Level(1.0, true)]
  {
    assert ServiceTime(p, 1.0) == 1.0;
    hide ServiceTime, Reaches;
    var one, on, s0 := [Arrival(0.0, p)], [Level(0.0, true)], [Sent(1.0, p)];
    var two := [Arrival(0.0, p), Arrival(1.0, p)];
    var w1 := Hybrids(Hybrid([p], SendInputRate, Finite(0.0)), 0.0, one, [], []);
    var w2 := Hybrids(Hybrid([p], SendPacket, Finite(1.0)), 0.0, one, on, []);
    var w3 := Hybrids(Hybrid([p], SendInputRateReset, Finite(0.0)), 1.0, one, on, s0);
    var w4 := Hybrids(Hybrid([p, p], SendInputRateReset, Finite(0.0)), 1.0, two, on, s0);
    var w5 := Hybrids(Hybrid([p], SendInputRate, Finite(0.0)), 1.0, two, on, s0);
    w := Hybrids(Hybrid([p], SendPacket, Finite(1.0)), 1.0, two, [Level(0.0, true), Level(1.0, true)], s0);
    AlreadyThere(WithLastBit, w);
    OneStep(WithLastBit, w5, Tick, w, [], w);
    OneStep(WithLastBit, w4, Tick, w5, [Tick], w);
    OneStep(WithLastBit, w3, Enter(p, 0.0), w4, [Tick, Tick], w);
    steps := [Enter(p, 0.0)] + [Tick, Tick];
    OneStep(WithLastBit, w2, Tick, w3, steps, w);
    OneStep(WithLastBit, w1, Tick, w2, [Tick] + steps, w);
    steps := [Tick] + ([Tick] + steps);
    OneStep(WithLastBit, Fresh(0.0), Enter(p, 0.0), w1, steps, w);
    steps := [Enter(p, 0.0)] + steps;
  }

  /** The arrivals must be apart from the completions: a packet arriving just as the one before it completes
      can find the signal reset with the first bit and not yet reset with the last bit. */
  lemma TieSplitsModes() returns (first: seq<Step>, last: seq<Step>, w1: Hybrids, w2: Hybrids)
    ensures Reaches(WithFirstBit, 1.0, Fresh(0.0), first, w1) && Reaches(WithLastBit, 1.0, Fresh(0.0), last, w2)
    ensures w1.arrivals == w2.arrivals && RunUntil(w1, 1.0) && RunUntil(w2, 1.0) && w1.rates != w2.rates
  {
    first, w1 := TieWithFirstBit(Packet(0, 1));
    last, w2 := TieWithLastBit(Packet(0, 1));
    assert |w1.rates| != |w2.rates|;
  }
}
