/** How the sender adapts: the growth of the congestion window over many acknowledgements, and the round trip
    it estimates. */
module TcpAdaptation {
  import opened Devs
  import opened TcpSender
  import opened TcpSystem

  // ----- runs that only adapt -----

  /** An accepted acknowledgement inside a measuring cycle, outside fast recovery. */
  predicate Closes(p: Params, s: System, ev: Event) {
    ev.DeliverAck? && ev.ack == s.snd.expectedAck && s.snd.dupAcks < p.dupAckLimit && ev.ack <= s.snd.cycleAck
  }

  /** Neither a time-out, nor fast retransmit or recovery, nor a reaction to a mark. */
  predicate Steady(p: Params, s: System, ev: Event) {
    match ev
    case SenderFires => !s.snd.phase.WaitAck?
    case DeliverAck(ack, marked, measuredRtt, _) =>
      && !LimitReached(p, s.snd, ack)
      && (ack == s.snd.expectedAck ==> s.snd.buffer != [] && s.snd.dupAcks < p.dupAckLimit)
      && !EcnReduces(p, s.snd, ack, marked, measuredRtt)
    case _ => true
  }

  ghost predicate SteadyRun(p: Params, s: System, evs: seq<Event>)
    decreases |evs|
  {
    evs == [] || (Steady(p, s, evs[0]) && Enabled(p, s, evs[0]) && Apply(p, s, evs[0]).Defined? &&
                  SteadyRun(p, Apply(p, s, evs[0]).value, evs[1..]))
  }

  /** The round trips measured by the closing acknowledgements of a run. */
  ghost function Samples(p: Params, s: System, evs: seq<Event>): seq<real>
    decreases |evs|
  {
    if evs == [] || !Enabled(p, s, evs[0]) || Apply(p, s, evs[0]).Undefined? then []
    else
      (if Closes(p, s, evs[0]) then [evs[0].measuredRtt] else [])
      + Samples(p, Apply(p, s, evs[0]).value, evs[1..])
  }

  /** The estimate after some samples. */
  function Averaged(alfa: real, average: real, samples: seq<real>): real
    decreases |samples|
  {
    if samples == [] then average else Averaged(alfa, Smooth(alfa, average, samples[0]), samples[1..])
  }

  lemma AckAdapts(p: Params, s: Sender, ack: int, marked: bool, measuredRtt: real, e: real)
    requires !LimitReached(p, s, ack) && (ack == s.expectedAck ==> s.buffer != [] && s.dupAcks < p.dupAckLimit)
    requires !EcnReduces(p, s, ack, marked, measuredRtt)
    ensures Dext(p, s, AckIn(ack, marked, measuredRtt), e).Defined?
    ensures var t := Dext(p, s, AckIn(ack, marked, measuredRtt), e).value;
            && t.threshold == s.threshold
            && if ack == s.expectedAck && ack <= s.cycleAck then
                 t.cwnd == Grown(s.cwnd, s.threshold) && t.rtt == Smooth(p.rttAlfa, s.rtt, measuredRtt)
               else t.cwnd == s.cwnd && t.rtt == s.rtt
  {
    hide Smooth, Rto, Grown, NextEcn, Trunc;
  }

  lemma StepAdapts(p: Params, s: System, ev: Event)
    requires p.Valid() && Inv(p, s) && Enabled(p, s, ev) && Steady(p, s, ev)
    ensures Apply(p, s, ev).Defined?
    ensures var t := Apply(p, s, ev).value.snd;
            && t.threshold == s.snd.threshold
            && if Closes(p, s, ev) then
                 t.cwnd == Grown(s.snd.cwnd, s.snd.threshold) && t.rtt == Smooth(p.rttAlfa, s.snd.rtt, ev.measuredRtt)
               else t.cwnd == s.snd.cwnd && t.rtt == s.snd.rtt
  {
    StepKeepsInv(p, s, ev);
    hide Inv, Smooth, Grown, Trunc;
    if ev.DeliverAck? {
      AckAdapts(p, s.snd, ev.ack, ev.marked, ev.measuredRtt, ev.e);
      hide Dext, LimitReached, EcnReduces;
    }
  }

  /** Along such a run window and estimate are functions of the closing acknowledgements alone. */
  lemma {:induction false} RunAdapts(p: Params, s: System, evs: seq<Event>, t: System)
    requires p.Valid() && Inv(p, s) && Runs(p, s, evs, t) && SteadyRun(p, s, evs)
    ensures t.snd.threshold == s.snd.threshold
    ensures t.snd.cwnd == GrownBy(s.snd.cwnd, s.snd.threshold, |Samples(p, s, evs)|)
    ensures t.snd.rtt == Averaged(p.rttAlfa, s.snd.rtt, Samples(p, s, evs))
    decreases |evs|
  {
    hide Inv, Enabled, Apply, Steady, Smooth, Grown;
    if evs != [] {
      StepAdapts(p, s, evs[0]);
      StepKeepsInv(p, s, evs[0]);
      var u := Apply(p, s, evs[0]).value;
      RunAdapts(p, u, evs[1..], t);
      if Closes(p, s, evs[0]) {
        assert Samples(p, s, evs) == [evs[0].measuredRtt] + Samples(p, u, evs[1..]);
        assert Samples(p, s, evs)[1..] == Samples(p, u, evs[1..]);
      } else {
        assert Samples(p, s, evs) == [] + Samples(p, u, evs[1..]) == Samples(p, u, evs[1..]);
      }
    }
  }

  // ----- the window -----

  /** The window after n acknowledgements that close a measuring cycle. */
  function GrownBy(cwnd: real, threshold: int, n: nat): real
    decreases n
  {
    if n == 0 then cwnd else GrownBy(Grown(cwnd, threshold), threshold, n - 1)
  }

  /** Below the threshold every closing acknowledgement adds a packet. */
  lemma {:induction false} SlowStartFormula(cwnd: real, threshold: int, n: nat)
    requires cwnd + n as real - 1.0 < threshold as real
    ensures GrownBy(cwnd, threshold, n) == cwnd + n as real
    decreases n
  {
    if n > 0 {
      SlowStartFormula(cwnd + 1.0, threshold, n - 1);
    }
  }

  lemma InverseOrder(a: real, b: real)
    requires 0.0 < a <= b
    ensures 0.0 < 1.0 / b <= 1.0 / a
  {
    var x, y := 1.0 / a, 1.0 / b;
    assert x * a == 1.0 && y * b == 1.0;
    assert x > 0.0 && y > 0.0;
    assert (x - y) * a == y * (b - a);
  }

  /** n equal steps. */
  function Steps(n: nat, step: real): real {
    if n == 0 then 0.0 else step + Steps(n - 1, step)
  }

  lemma OneMoreTime(a: real, step: real)
    ensures (a + 1.0) * step == a * step + step
  {
  }

  lemma {:induction false} StepsIsProduct(n: nat, step: real)
    ensures Steps(n, step) == n as real * step
    decreases n
  {
    if n > 0 {
      StepsIsProduct(n - 1, step);
      OneMoreTime((n - 1) as real, step);
    }
  }

  lemma {:induction false} StepsNonnegative(n: nat, step: real)
    requires step >= 0.0
    ensures Steps(n, step) >= 0.0
    decreases n
  {
    if n > 0 {
      StepsNonnegative(n - 1, step);
    }
  }

  /** Above the threshold and near w, one acknowledgement adds between 1 / (w + 1) and 1 / w. */
  lemma GrowthStep(w: real, cwnd: real, threshold: int)
    requires 1.0 <= w <= cwnd <= w + 1.0 && w >= threshold as real
    ensures cwnd + 1.0 / (w + 1.0) <= Grown(cwnd, threshold) <= cwnd + 1.0 / w
    ensures 1.0 / (w + 1.0) > 0.0
  {
    InverseOrder(w, cwnd);
    InverseOrder(cwnd, w + 1.0);
  }

  lemma {:induction false} GrowthBetween(w: real, cwnd: real, threshold: int, n: nat)
    requires 1.0 <= w <= cwnd && w >= threshold as real && cwnd + Steps(n, 1.0 / w) <= w + 1.0
    ensures cwnd + Steps(n, 1.0 / (w + 1.0)) <= GrownBy(cwnd, threshold, n) <= cwnd + Steps(n, 1.0 / w)
    decreases n
  {
    if n > 0 {
      InverseOrder(w, w);
      StepsNonnegative(n, 1.0 / w);
      GrowthStep(w, cwnd, threshold);
      hide Grown;
      GrowthBetween(w, Grown(cwnd, threshold), threshold, n - 1);
    }
  }

  /** Above it n of them, at most a window w, add between n / (w + 1) and n / w packets. */
  lemma AvoidanceFormula(cwnd: real, threshold: int, n: nat)
    requires cwnd >= 1.0 && cwnd >= threshold as real && n as real <= cwnd
    ensures cwnd + n as real / (cwnd + 1.0) <= GrownBy(cwnd, threshold, n) <= cwnd + n as real / cwnd <= cwnd + 1.0
  {
    QuotientAsProduct(n as real, cwnd);
    QuotientAsProduct(n as real, cwnd + 1.0);
    AtMostOne(n as real, cwnd);
    StepsIsProduct(n, 1.0 / cwnd);
    StepsIsProduct(n, 1.0 / (cwnd + 1.0));
    GrowthBetween(cwnd, cwnd, threshold, n);
  }

  lemma QuotientAsProduct(a: real, b: real)
    requires b > 0.0
    ensures a / b == a * (1.0 / b)
  {
    var q := 1.0 / b;
    assert q * b == 1.0;
    assert (a * q) * b == a;
  }

  lemma AtMostOne(a: real, b: real)
    requires 0.0 < b && a <= b
    ensures a / b <= 1.0
  {
    var q := a / b;
    assert q * b == a;
    assert (1.0 - q) * b >= 0.0;
  }

  /** Slow start: over a run, n closing acknowledgements below the threshold add exactly n packets to the window,
      so that a window of them doubles it. */
  lemma SlowStart(p: Params, s: System, evs: seq<Event>, t: System)
    requires p.Valid() && Reachable(p, s) && Runs(p, s, evs, t) && SteadyRun(p, s, evs)
    requires s.snd.cwnd + |Samples(p, s, evs)| as real - 1.0 < s.snd.threshold as real
    ensures t.snd.cwnd == s.snd.cwnd + |Samples(p, s, evs)| as real
  {
    hide Runs, SteadyRun, Inv, Samples, Grown;
    ReachableIsSound(p, s);
    RunAdapts(p, s, evs, t);
    SlowStartFormula(s.snd.cwnd, s.snd.threshold, |Samples(p, s, evs)|);
  }

  lemma ReachableIsSound(p: Params, s: System)
    requires p.Valid() && Reachable(p, s)
    ensures Inv(p, s)
  {
    hide Inv, Runs;
    var evs :| Runs(p, Start(p), evs, s);
    StartInv(p);
    RunKeepsInv(p, Start(p), evs, s);
  }

  /** Congestion avoidance: over a run, n closing acknowledgements above the threshold, at most a window w of them,
      add between n / (w + 1) and n / w packets: never more than one packet per window. */
  lemma CongestionAvoidance(p: Params, s: System, evs: seq<Event>, t: System)
    requires p.Valid() && Reachable(p, s) && Runs(p, s, evs, t) && SteadyRun(p, s, evs)
    requires s.snd.cwnd >= 1.0 && s.snd.cwnd >= s.snd.threshold as real && |Samples(p, s, evs)| as real <= s.snd.cwnd
    ensures var w, n := s.snd.cwnd, |Samples(p, s, evs)| as real;
            w + n / (w + 1.0) <= t.snd.cwnd <= w + n / w <= w + 1.0
  {
    hide Runs, SteadyRun, Inv, Samples, Grown;
    ReachableIsSound(p, s);
    RunAdapts(p, s, evs, t);
    AvoidanceFormula(s.snd.cwnd, s.snd.threshold, |Samples(p, s, evs)|);
  }

  // ----- the round trip -----

  function Decay(alfa: real, n: nat): real {
    if n == 0 then 1.0 else alfa * Decay(alfa, n - 1)
  }

  lemma SmoothedError(alfa: real, average: real, sample: real, d: real)
    ensures d * (Smooth(alfa, average, sample) - sample) == (alfa * d) * (average - sample)
  {
    assert Smooth(alfa, average, sample) - sample == alfa * (average - sample);
  }

  lemma {:induction false} ConstantSamples(alfa: real, average: real, sample: real, samples: seq<real>)
    requires forall i :: 0 <= i < |samples| ==> samples[i] == sample
    ensures Averaged(alfa, average, samples) - sample == Decay(alfa, |samples|) * (average - sample)
    decreases |samples|
  {
    if samples != [] {
      ConstantSamples(alfa, Smooth(alfa, average, sample), sample, samples[1..]);
      SmoothedError(alfa, average, sample, Decay(alfa, |samples| - 1));
      hide Smooth;
    }
  }

  /** A constant round trip is learnt geometrically: over a run with n closing acknowledgements that all measure it,
      the error of the estimate becomes alfa^n of what it was. */
  lemma EstimateConverges(p: Params, s: System, evs: seq<Event>, t: System, sample: real)
    requires p.Valid() && Reachable(p, s) && Runs(p, s, evs, t) && SteadyRun(p, s, evs)
    requires forall i :: 0 <= i < |Samples(p, s, evs)| ==> Samples(p, s, evs)[i] == sample
    ensures t.snd.rtt - sample == Decay(p.rttAlfa, |Samples(p, s, evs)|) * (s.snd.rtt - sample)
  {
    hide Runs, SteadyRun, Inv, Samples;
    ReachableIsSound(p, s);
    RunAdapts(p, s, evs, t);
    ConstantSamples(p.rttAlfa, s.snd.rtt, sample, Samples(p, s, evs));
  }

  lemma SmoothStaysBetween(alfa: real, average: real, sample: real, low: real, high: real)
    requires 0.0 <= alfa <= 1.0 && low <= average <= high && low <= sample <= high
    ensures low <= Smooth(alfa, average, sample) <= high
  {
    assert alfa * (average - low) >= 0.0 && (1.0 - alfa) * (sample - low) >= 0.0;
    assert alfa * (high - average) >= 0.0 && (1.0 - alfa) * (high - sample) >= 0.0;
  }

  lemma {:induction false} AverageStaysBetween(alfa: real, average: real, samples: seq<real>, low: real, high: real)
    requires 0.0 <= alfa <= 1.0 && low <= average <= high
    requires forall i :: 0 <= i < |samples| ==> low <= samples[i] <= high
    ensures low <= Averaged(alfa, average, samples) <= high
    decreases |samples|
  {
    hide Smooth;
    if samples != [] {
      SmoothStaysBetween(alfa, average, samples[0], low, high);
      AverageStaysBetween(alfa, Smooth(alfa, average, samples[0]), samples[1..], low, high);
    }
  }

  /** Over a run the estimate never leaves the range of what it started from and what was measured. */
  lemma EstimateStaysBetween(p: Params, s: System, evs: seq<Event>, t: System, low: real, high: real)
    requires p.Valid() && Reachable(p, s) && Runs(p, s, evs, t) && SteadyRun(p, s, evs) && 0.0 <= p.rttAlfa <= 1.0
    requires low <= s.snd.rtt <= high
    requires forall i :: 0 <= i < |Samples(p, s, evs)| ==> low <= Samples(p, s, evs)[i] <= high
    ensures low <= t.snd.rtt <= high
  {
    hide Runs, SteadyRun, Inv, Samples;
    ReachableIsSound(p, s);
    RunAdapts(p, s, evs, t);
    AverageStaysBetween(p.rttAlfa, s.snd.rtt, Samples(p, s, evs), low, high);
  }

  /** A computed time-out is never shorter than the estimated round trip, nor than the minimum. */
  lemma TimeoutCoversRoundTrip(p: Params, s: Sender, measuredRtt: real)
    requires 0.0 <= p.rttAlfa <= 1.0 && p.forcedRto < 0.0 && s.rttDeviation >= 0.0
    ensures var t := CloseCycle(p, s, measuredRtt);
            t.rto >= MIN_RTO && t.rto >= t.rtt && t.rttDeviation >= 0.0
  {
    var rtt := Smooth(p.rttAlfa, s.rtt, measuredRtt);
    var spread := AbsReal(rtt - measuredRtt);
    assert p.rttAlfa * s.rttDeviation >= 0.0 && (1.0 - p.rttAlfa) * spread >= 0.0;
  }
}
