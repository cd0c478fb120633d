/** The sender left alone: how many internal transitions fit in no time, and how fast time passes.

    The engine stops a model that makes too many transitions at one instant; the model's own comments call
    such a model illegitimate. Both inter-packet times may be zero here. */
module TcpTiming {
  import opened Devs
  import opened TcpSender
  import opened TcpSystem

  /** What every reachable sender satisfies and an internal step needs. */
  ghost predicate Ready(s: Sender) {
    && TimersConsistent(s)
    && 0 <= s.nextToSend <= |s.buffer| + 1
    && (s.buffer != [] ==> s.nextToSend >= 1)
    && (s.sigma.Infinite? ==> s.phase.WaitApp? && s.buffer == [])
    && (s.lastSent.None? ==>
          !s.phase.WaitAck? && s.nextToSend <= 1 && s.cwnd == 1.0 && (s.phase.Sending? ==> s.buffer != []))
  }

  lemma ReachableIsReady(p: Params, s: System)
    requires p.Valid() && Reachable(p, s)
    ensures Ready(s.snd)
  {
    var evs :| Runs(p, Start(p), evs, s);
    StartInv(p);
    RunKeepsInv(p, Start(p), evs, s);
  }

  /** One internal step; Ready is what makes it defined. */
  function Next(p: Params, s: Sender): (t: Sender)
    requires p.Valid() && Ready(s)
    ensures Internal(p, s).Defined? && t == Internal(p, s).value.1
    ensures Ready(t) && t.buffer == s.buffer
  {
    InternalEffect(p, s);
    Internal(p, s).value.1
  }

  /** Packets still to be sent before the window or the buffer is exhausted. */
  function Unsent(s: Sender): nat {
    var end := if |s.buffer| < s.cwnd.Floor then |s.buffer| else s.cwnd.Floor;
    if s.buffer == [] then 0 else MaxInt(0, end + 1 - s.nextToSend)
  }

  /** Internal steps up to and including the next time-out. */
  function StepsToTimeout(s: Sender): nat {
    match s.phase
    case WaitAck => 1
    case Sending => Unsent(s) + 2
    case WaitApp => Unsent(s) + 3
    case RequestApp => Unsent(s) + 4
  }

  lemma NextCountsDown(p: Params, s: Sender)
    requires p.Valid() && Ready(s) && s.sigma.Finite?
    ensures var t := Next(p, s);
            if s.phase.WaitAck? then
              && t.rto == 2.0 * s.rto && !t.phase.WaitAck?
              && (s.buffer != [] ==> StepsToTimeout(t) == 3)
            else
              && t.rto == s.rto && (t.phase.WaitAck? ==> t.sigma == Finite(t.rto))
              && (t.sigma.Finite? ==> StepsToTimeout(t) == StepsToTimeout(s) - 1)
  {
    hide Trunc;
    assert s.nextToSend as real <= s.cwnd <==> s.nextToSend <= s.cwnd.Floor;
  }

  // ----- legitimacy -----

  function After(p: Params, s: Sender, n: nat): (t: Sender)
    requires p.Valid() && Ready(s)
    ensures Ready(t) && t.buffer == s.buffer
    decreases n
  {
    if n == 0 then s else After(p, Next(p, s), n - 1)
  }

  /** An upper bound on the steps before a wait of at least MIN_RTO. */
  function StepsToWait(s: Sender): nat
    requires s.nextToSend <= |s.buffer| + 1
  {
    match s.phase
    case Sending => MaxInt(1, |s.buffer| + 2 - s.nextToSend)
    case WaitApp => |s.buffer| + 2
    case RequestApp => |s.buffer| + 3
    case WaitAck => |s.buffer| + 4
  }

  lemma StepTowardsWait(p: Params, s: Sender)
    requires p.Valid() && Ready(s)
    ensures var t := Next(p, s); t.sigma.AtLeast(MIN_RTO) || StepsToWait(t) < StepsToWait(s)
  {
    hide Trunc;
  }

  /** Main result: with no input, at most |SendBuffer| + 4 internal steps separate the sender from a wait
      of at least MIN_RTO (or from waiting for the application for good). */
  lemma {:induction false} SenderIsLegitimate(p: Params, s: Sender)
    requires p.Valid() && Ready(s)
    ensures exists n: nat :: n <= StepsToWait(s) <= |s.buffer| + 4 && After(p, s, n).sigma.AtLeast(MIN_RTO)
    decreases StepsToWait(s)
  {
    if s.sigma.AtLeast(MIN_RTO) {
      assert After(p, s, 0) == s;
    } else {
      var t := Next(p, s);
      StepTowardsWait(p, s);
      if t.sigma.AtLeast(MIN_RTO) {
        assert After(p, t, 0) == t;
        assert After(p, s, 1).sigma.AtLeast(MIN_RTO);
      } else {
        SenderIsLegitimate(p, t);
        var n: nat :| n <= StepsToWait(t) && After(p, t, n).sigma.AtLeast(MIN_RTO);
        assert After(p, s, n + 1) == After(p, t, n);
      }
    }
  }

  // ----- exponential back-off -----

  /** Time taken by n internal steps, and how many of them are time-outs; `None` once the sender waits for
      the application without a timer. */
  function Lasting(p: Params, s: Sender, n: nat): Option<(real, nat)>
    requires p.Valid() && Ready(s)
    decreases n
  {
    if n == 0 then Some((0.0, 0))
    else if s.sigma.Infinite? then None
    else
      match Lasting(p, Next(p, s), n - 1)
      case None => None
      case Some((time, timeouts)) =>
        Some((s.sigma.secs + time, timeouts + if s.phase.WaitAck? then 1 else 0))
  }

  function Pow2(k: nat): nat {
    if k == 0 then 1 else 2 * Pow2(k - 1)
  }

  lemma Doubling(k: nat, r: real)
    requires k >= 1
    ensures (Pow2(k) - 1) as real * r == r + (Pow2(k - 1) - 1) as real * (2.0 * r)
  {
    var q := Pow2(k - 1) as real;
    assert (Pow2(k) - 1) as real == 2.0 * q - 1.0;
    assert (2.0 * q - 1.0) * r == r + (q - 1.0) * (2.0 * r);
  }

  /** The wait of k consecutive time-outs doubles each time. */
  lemma {:induction false} BackOffTime(p: Params, s: Sender, n: nat)
    requires p.Valid() && Ready(s) && (s.phase.WaitAck? ==> s.sigma == Finite(s.rto))
    requires Lasting(p, s, n).Some?
    ensures var (time, timeouts) := Lasting(p, s, n).value;
            time >= (Pow2(timeouts) - 1) as real * s.rto
    decreases n
  {
    hide Internal, StepsToTimeout;
    if n > 0 {
      NextCountsDown(p, s);
      BackOffTime(p, Next(p, s), n - 1);
      if s.phase.WaitAck? {
        Doubling(Lasting(p, s, n).value.1, s.rto);
      }
    }
  }

  /** While the buffer is not empty the sender never rests, and it times out at least every third step. */
  lemma {:induction false} TimeoutsRecur(p: Params, s: Sender, n: nat)
    requires p.Valid() && Ready(s) && s.buffer != []
    ensures Lasting(p, s, n).Some? && n < StepsToTimeout(s) + 3 * Lasting(p, s, n).value.1
    decreases n
  {
    hide Internal, Unsent;
    if n > 0 {
      NextCountsDown(p, s);
      TimeoutsRecur(p, Next(p, s), n - 1);
    }
  }

  lemma {:induction false} Pow2Grows(k: nat)
    ensures Pow2(k) - 1 >= k
  {
    if k > 0 {
      Pow2Grows(k - 1);
    }
  }

  lemma ProductMonotone(q: real, a: real, b: real)
    requires q >= 0.0 && a <= b
    ensures q * a <= q * b
  {
    assert q * b - q * a == q * (b - a);
  }

  lemma WithMinimalRto(time: real, k: nat, rto: real)
    requires time >= (Pow2(k) - 1) as real * rto && rto >= MIN_RTO
    ensures time >= (Pow2(k) - 1) as real * MIN_RTO
  {
    Pow2Grows(k);
    ProductMonotone((Pow2(k) - 1) as real, MIN_RTO, rto);
  }

  /** Main result: n internal steps without input contain k time-outs with n < StepsToTimeout + 3k, and take
      at least (2^k - 1) * MIN_RTO. */
  lemma BackOff(p: Params, s: Sender, n: nat)
    requires p.Valid() && Ready(s) && s.buffer != [] && (s.phase.WaitAck? ==> s.sigma == Finite(s.rto))
    ensures Lasting(p, s, n).Some?
    ensures var (time, timeouts) := Lasting(p, s, n).value;
            n < StepsToTimeout(s) + 3 * timeouts && time >= (Pow2(timeouts) - 1) as real * MIN_RTO
  {
    hide StepsToTimeout, Lasting, Pow2, Internal;
    TimeoutsRecur(p, s, n);
    BackOffTime(p, s, n);
    WithMinimalRto(Lasting(p, s, n).value.0, Lasting(p, s, n).value.1, s.rto);
  }

  /** Time diverges: no run of the sender alone is a Zeno run. */
  lemma TimeDiverges(p: Params, s: Sender, bound: nat)
    requires p.Valid() && Ready(s) && s.buffer != [] && (s.phase.WaitAck? ==> s.sigma == Finite(s.rto))
    ensures exists n: nat :: Lasting(p, s, n).Some? && Lasting(p, s, n).value.0 >= bound as real * MIN_RTO
  {
    hide StepsToTimeout;
    var n := StepsToTimeout(s) + 3 * bound;
    BackOff(p, s, n);
    var (time, timeouts) := Lasting(p, s, n).value;
    Pow2Grows(timeouts);
    assert (Pow2(timeouts) - 1) as real >= bound as real;
    assert time >= bound as real * MIN_RTO;
  }
}
