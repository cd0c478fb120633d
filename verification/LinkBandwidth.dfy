/** The link server of `packetLinkBandwidth`: packets wait in a FIFO and each occupies the link for its
    length divided by the bandwidth. The server only ever updates a countdown; every run of it follows the
    departure recursion of a FIFO queue, and so the closed form of that recursion. */
module LinkBandwidth {
  import opened Devs

  datatype Packet = Packet(id: int, bits: nat)

  /** The fields of the atomic model. */
  datatype Link = Link(queue: seq<Packet>, sigma: Duration)

  function ServiceTime(p: Packet, bw: real): real
    requires bw > 0.0
  {
    p.bits as real / bw
  }

  // ----- what the transitions do -----

  const IDLE := Link([], Infinite)

  function Dint(k: Link, bw: real): Outcome<Link>
    requires bw > 0.0
  {
    if k.queue == [] then Undefined
    else
      var rest := k.queue[1..];
      Defined(Link(rest, if rest == [] then Infinite else Finite(ServiceTime(rest[0], bw))))
  }

  function Dext(k: Link, bw: real, p: Packet, e: real): Link
    requires bw > 0.0
  {
    var queue := k.queue + [p];
    Link(queue, if |queue| == 1 then Finite(ServiceTime(p, bw)) else Remaining(k.sigma, e))
  }

  /** What is left of a countdown, never negative. */
  function Remaining(sigma: Duration, e: real): Duration {
    if sigma.Finite? then Finite(MaxReal(0.0, sigma.secs - e)) else Infinite
  }

  class PacketLinkBandwidth {
    const bw: real
    var packetQueue: seq<Packet>
    var sigma: Duration

    ghost function State(): Link
      reads this
    {
      Link(packetQueue, sigma)
    }

    constructor (bandwidth: real)
      ensures bw == bandwidth && State() == IDLE
    {
      bw := bandwidth;
      packetQueue, sigma := [], Infinite;
    }

    method OnDint()
      requires bw > 0.0 && packetQueue != []
      modifies this
      ensures Dint(old(State()), bw) == Defined(State())
    {
      packetQueue := packetQueue[1..];
      sigma := Infinite;
      if packetQueue != [] {
        sigma := Finite(GetServiceTime(packetQueue[0]));
      }
    }

    /** Events on other ports are ignored, and with them the time that has passed. */
    method OnDext(port: int, packet: Packet, e: real)
      requires bw > 0.0
      modifies this
      ensures State() == if port == 0 then Dext(old(State()), bw, packet, e) else old(State())
    {
      if port == 0 {
        packetQueue := packetQueue + [packet];
        sigma := if sigma.Finite? then Finite(MaxReal(0.0, sigma.secs - e)) else Infinite;
        if |packetQueue| == 1 {
          sigma := Finite(GetServiceTime(packet));
        }
      }
    }

    method OnLambda() returns (packet: Packet)
      requires packetQueue != []
      ensures packet == packetQueue[0]
    {
      packet := packetQueue[0];
    }

    function GetServiceTime(packet: Packet): (r: real)
      requires bw > 0.0
      ensures r == ServiceTime(packet, bw)
    {
      packet.bits as real / bw
    }
  }

  // ----- the departure recursion -----

  datatype Arrival = Arrival(time: real, packet: Packet)

  /** D(k) = max(A(k), D(k-1)) + L(k) / bw. */
  function Departure(arrivals: seq<Arrival>, bw: real, k: nat): real
    requires bw > 0.0 && k < |arrivals|
  {
    var a := arrivals[k];
    (if k == 0 then a.time else MaxReal(a.time, Departure(arrivals, bw, k - 1))) + ServiceTime(a.packet, bw)
  }

  /** The time the link needs for packets j to k. */
  function Work(arrivals: seq<Arrival>, bw: real, j: nat, k: nat): real
    requires bw > 0.0 && j <= k < |arrivals|
    decreases k
  {
    ServiceTime(arrivals[k].packet, bw) + if j == k then 0.0 else Work(arrivals, bw, j, k - 1)
  }

  /** Lindley's closed form: the departure of k is the latest of A(j) + Work(j, k) over all j up to k. The j
      that attains it is the packet that started the busy period. */
  lemma {:induction false} DepartureIsLatest(arrivals: seq<Arrival>, bw: real, k: nat)
    requires bw > 0.0 && k < |arrivals|
    ensures forall j :: 0 <= j <= k ==> arrivals[j].time + Work(arrivals, bw, j, k) <= Departure(arrivals, bw, k)
    ensures exists j :: 0 <= j <= k && arrivals[j].time + Work(arrivals, bw, j, k) == Departure(arrivals, bw, k)
  {
    hide ServiceTime;
    if k == 0 {
      assert arrivals[0].time + Work(arrivals, bw, 0, 0) == Departure(arrivals, bw, 0);
    } else {
      DepartureIsLatest(arrivals, bw, k - 1);
      var d := Departure(arrivals, bw, k - 1);
      forall j | 0 <= j <= k
        ensures arrivals[j].time + Work(arrivals, bw, j, k) <= Departure(arrivals, bw, k)
      {
        assert j < k ==> arrivals[j].time + Work(arrivals, bw, j, k - 1) <= d;
      }
      if arrivals[k].time < d {
        var j :| 0 <= j <= k - 1 && arrivals[j].time + Work(arrivals, bw, j, k - 1) == d;
        assert arrivals[j].time + Work(arrivals, bw, j, k) == Departure(arrivals, bw, k);
      } else {
        assert arrivals[k].time + Work(arrivals, bw, k, k) == Departure(arrivals, bw, k);
      }
    }
  }

  /** Later arrivals do not change earlier departures. */
  lemma {:induction false} DepartureOfPrefix(arrivals: seq<Arrival>, a: Arrival, bw: real, k: nat)
    requires bw > 0.0 && k < |arrivals|
    ensures Departure(arrivals + [a], bw, k) == Departure(arrivals, bw, k)
    decreases k
  {
    if k > 0 {
      DepartureOfPrefix(arrivals, a, bw, k - 1);
    }
  }

  // ----- runs -----

  /** An input after `e` seconds, or the end of the countdown. */
  datatype Event = Arrive(packet: Packet, e: real) | Depart

  datatype Sent = Sent(time: real, packet: Packet)

  /** The link, the clock at its last event, and everything that went in and out. */
  datatype World = World(link: Link, now: real, arrivals: seq<Arrival>, sent: seq<Sent>)

  /** The engine delivers an input no later than the end of the countdown (either order on a tie), and runs
      lambda and dint when a finite countdown ends. */
  predicate Possible(w: World, event: Event) {
    match event
    case Arrive(_, e) => w.link.sigma.Allows(e)
    case Depart => w.link.sigma.Finite?
  }

  function Next(w: World, bw: real, event: Event): Outcome<World>
    requires bw > 0.0 && Possible(w, event)
  {
    match event
    case Arrive(p, e) =>
      Defined(World(Dext(w.link, bw, p, e), w.now + e, w.arrivals + [Arrival(w.now + e, p)], w.sent))
    case Depart =>
      var t := w.now + w.link.sigma.secs;
      match Dint(w.link, bw)
      case Undefined => Undefined
      case Defined(link) => Defined(World(link, t, w.arrivals, w.sent + [Sent(t, w.link.queue[0])]))
  }

  ghost predicate Reaches(w: World, bw: real, events: seq<Event>, end: World)
    requires bw > 0.0
    decreases |events|
  {
    if events == [] then w == end
    else
      && Possible(w, events[0])
      && Next(w, bw, events[0]).Defined?
      && Reaches(Next(w, bw, events[0]).value, bw, events[1..], end)
  }

  /** The k-th packet sent is the k-th that arrived, at the time the recursion gives. */
  ghost predicate FollowsRecursion(w: World, bw: real)
    requires bw > 0.0
  {
    && |w.sent| <= |w.arrivals|
    && (forall k :: 0 <= k < |w.sent| ==>
                      w.sent[k] == Sent(Departure(w.arrivals, bw, k), w.arrivals[k].packet))
  }

  /** The queue holds what arrived and was not sent; the countdown ends at the next departure of the recursion. */
  ghost predicate Inv(w: World, bw: real)
    requires bw > 0.0
  {
    var n := |w.sent|;
    && FollowsRecursion(w, bw)
    && |w.link.queue| == |w.arrivals| - n
    && (forall i :: 0 <= i < |w.link.queue| ==> w.link.queue[i] == w.arrivals[n + i].packet)
    && (forall i :: 0 <= i < |w.arrivals| ==> w.arrivals[i].time <= w.now)
    && (n > 0 ==> Departure(w.arrivals, bw, n - 1) <= w.now)
    && (if w.link.queue == [] then w.link.sigma == Infinite
        else w.link.sigma.Finite? && w.link.sigma.secs >= 0.0
             && w.now + w.link.sigma.secs == Departure(w.arrivals, bw, n))
  }

  lemma ServiceTimeIsNonnegative(p: Packet, bw: real)
    requires bw > 0.0
    ensures ServiceTime(p, bw) >= 0.0
  {
  }

  lemma ArriveKeepsInv(w: World, bw: real, p: Packet, e: real)
    requires bw > 0.0 && Inv(w, bw) && Possible(w, Arrive(p, e))
    ensures Inv(Next(w, bw, Arrive(p, e)).value, bw)
  {
    hide ServiceTime;
    ServiceTimeIsNonnegative(p, bw);
    var w' := Next(w, bw, Arrive(p, e)).value;
    forall k | 0 <= k < |w.arrivals|
      ensures Departure(w'.arrivals, bw, k) == Departure(w.arrivals, bw, k)
    {
      DepartureOfPrefix(w.arrivals, Arrival(w.now + e, p), bw, k);
    }
  }

  lemma DepartKeepsInv(w: World, bw: real)
    requires bw > 0.0 && Inv(w, bw) && Possible(w, Depart)
    ensures Next(w, bw, Depart).Defined? && Inv(Next(w, bw, Depart).value, bw)
  {
    hide ServiceTime;
    if |w.link.queue| > 1 {
      ServiceTimeIsNonnegative(w.link.queue[1], bw);
    }
  }

  /** In every run, whatever the interleaving, no transition is undefined and the departures are those of the
      recursion; whenever the link is busy, its next departure is due at the recursion's time. */
  lemma {:induction false} EveryRunFollowsRecursion(w: World, bw: real, events: seq<Event>, end: World)
    requires bw > 0.0 && Inv(w, bw) && Reaches(w, bw, events, end)
    ensures Inv(end, bw)
    ensures forall event :: Possible(end, event) ==> Next(end, bw, event).Defined?
    decreases |events|
  {
    if events == [] {
      forall event | Possible(end, event)
        ensures Next(end, bw, event).Defined?
      {
        if event.Depart? {
          DepartKeepsInv(end, bw);
        }
      }
    } else {
      if events[0].Arrive? {
        ArriveKeepsInv(w, bw, events[0].packet, events[0].e);
      } else {
        DepartKeepsInv(w, bw);
      }
      EveryRunFollowsRecursion(Next(w, bw, events[0]).value, bw, events[1..], end);
    }
  }

  lemma StartSatisfiesInv(start: real, bw: real)
    requires bw > 0.0
    ensures Inv(World(IDLE, start, [], []), bw)
  {
  }

  /** From an idle link: packet k leaves at the latest of A(j) + Work(j, k), the sum of the closed form. */
  lemma DeparturesAreLindley(start: real, bw: real, events: seq<Event>, end: World, k: nat)
    requires bw > 0.0 && Reaches(World(IDLE, start, [], []), bw, events, end) && k < |end.sent|
    ensures |end.sent| <= |end.arrivals| && end.sent[k].packet == end.arrivals[k].packet
    ensures forall j :: 0 <= j <= k ==> end.arrivals[j].time + Work(end.arrivals, bw, j, k) <= end.sent[k].time
    ensures exists j :: 0 <= j <= k && end.arrivals[j].time + Work(end.arrivals, bw, j, k) == end.sent[k].time
  {
    StartSatisfiesInv(start, bw);
    EveryRunFollowsRecursion(World(IDLE, start, [], []), bw, events, end);
    DepartureIsLatest(end.arrivals, bw, k);
  }

  // ----- departures in bits -----

  /** The bits of packets j to k. */
  function Bits(arrivals: seq<Arrival>, j: nat, k: nat): nat
    requires j <= k < |arrivals|
    decreases k
  {
    arrivals[k].packet.bits + if j == k then 0 else Bits(arrivals, j, k - 1)
  }

  /** The link sends `bw` bits in a second. */
  lemma ServedBits(p: Packet, bw: real)
    requires bw > 0.0
    ensures ServiceTime(p, bw) * bw == p.bits as real
  {
  }

  lemma {:induction false} WorkInBits(arrivals: seq<Arrival>, bw: real, j: nat, k: nat)
    requires bw > 0.0 && j <= k < |arrivals|
    ensures Work(arrivals, bw, j, k) * bw == Bits(arrivals, j, k) as real
    decreases k
  {
    ServedBits(arrivals[k].packet, bw);
    hide ServiceTime;
    if j < k {
      WorkInBits(arrivals, bw, j, k - 1);
      Distributes(ServiceTime(arrivals[k].packet, bw), Work(arrivals, bw, j, k - 1), bw);
    }
  }

  lemma Distributes(x: real, y: real, c: real)
    ensures (x + y) * c == x * c + y * c
  {
  }

  /** By time t the link can have sent the bits of packets j to k, had it been busy with them since j arrived. */
  ghost predicate EnoughTime(arrivals: seq<Arrival>, bw: real, j: nat, k: nat, t: real)
    requires j <= k < |arrivals|
  {
    (t - arrivals[j].time) * bw >= Bits(arrivals, j, k) as real
  }

  ghost predicate ExactTime(arrivals: seq<Arrival>, bw: real, j: nat, k: nat, t: real)
    requires j <= k < |arrivals|
  {
    (t - arrivals[j].time) * bw == Bits(arrivals, j, k) as real
  }

  /** t is the earliest time at which packet k can be through: exact for the packet that started the busy period,
      enough for every other. */
  ghost predicate Completes(arrivals: seq<Arrival>, bw: real, k: nat, t: real)
    requires k < |arrivals|
  {
    && (forall j :: 0 <= j <= k ==> EnoughTime(arrivals, bw, j, k, t))
    && (exists j :: 0 <= j <= k && ExactTime(arrivals, bw, j, k, t))
  }

  lemma InBits(t: real, a: real, work: real, bits: real, bw: real)
    requires bw > 0.0 && work * bw == bits
    ensures a + work <= t ==> (t - a) * bw >= bits
    ensures a + work == t ==> (t - a) * bw == bits
  {
    if a + work <= t {
      var d := t - a - work;
      assert d * bw >= 0.0;
      Distributes(d, work, bw);
    }
  }

  lemma WorkIsTime(arrivals: seq<Arrival>, bw: real, j: nat, k: nat, t: real)
    requires bw > 0.0 && j <= k < |arrivals|
    ensures arrivals[j].time + Work(arrivals, bw, j, k) <= t ==> EnoughTime(arrivals, bw, j, k, t)
    ensures arrivals[j].time + Work(arrivals, bw, j, k) == t ==> ExactTime(arrivals, bw, j, k, t)
  {
    WorkInBits(arrivals, bw, j, k);
    hide Work, Bits;
    InBits(t, arrivals[j].time, Work(arrivals, bw, j, k), Bits(arrivals, j, k) as real, bw);
  }

  lemma DepartureCompletes(arrivals: seq<Arrival>, bw: real, k: nat)
    requires bw > 0.0 && k < |arrivals|
    ensures Completes(arrivals, bw, k, Departure(arrivals, bw, k))
  {
    hide Departure, Work, EnoughTime, ExactTime;
    var t := Departure(arrivals, bw, k);
    DepartureIsLatest(arrivals, bw, k);
    forall j | 0 <= j <= k
      ensures EnoughTime(arrivals, bw, j, k, t)
      ensures arrivals[j].time + Work(arrivals, bw, j, k) == t ==> ExactTime(arrivals, bw, j, k, t)
    {
      WorkIsTime(arrivals, bw, j, k, t);
    }
  }

  /** Main result, in bits and seconds only: in every run from an idle link the k-th packet sent is the k-th that
      arrived, and it leaves at the earliest time that leaves `bw` bits a second for what came before it. */
  lemma SentInBits(start: real, bw: real, events: seq<Event>, end: World, k: nat)
    requires bw > 0.0 && Reaches(World(IDLE, start, [], []), bw, events, end) && k < |end.sent|
    ensures |end.sent| <= |end.arrivals| && end.sent[k].packet == end.arrivals[k].packet
    ensures Completes(end.arrivals, bw, k, end.sent[k].time)
  {
    StartSatisfiesInv(start, bw);
    EveryRunFollowsRecursion(World(IDLE, start, [], []), bw, events, end);
    DepartureCompletes(end.arrivals, bw, k);
  }

  /** The busy period of packet k: from packet j on, no packet arrives after the one before it has left. */
  ghost predicate BusySince(w: World, j: nat, k: nat)
    requires j <= k < |w.sent| <= |w.arrivals|
  {
    && (j > 0 ==> w.sent[j - 1].time <= w.arrivals[j].time)
    && (forall i :: j < i <= k ==> w.arrivals[i].time < w.sent[i - 1].time)
  }

  lemma {:induction false} BusyPeriod(w: World, bw: real, k: nat) returns (j: nat)
    requires bw > 0.0 && FollowsRecursion(w, bw) && k < |w.sent|
    ensures j <= k && BusySince(w, j, k)
    ensures w.arrivals[j].time + Work(w.arrivals, bw, j, k) == w.sent[k].time
    decreases k
  {
    hide ServiceTime;
    assert k > 0 ==> w.sent[k - 1].time == Departure(w.arrivals, bw, k - 1);
    if k > 0 && w.arrivals[k].time < w.sent[k - 1].time {
      j := BusyPeriod(w, bw, k - 1);
    } else {
      j := k;
    }
  }

  lemma BusyPeriodInBits(w: World, bw: real, k: nat) returns (j: nat)
    requires bw > 0.0 && FollowsRecursion(w, bw) && k < |w.sent|
    ensures j <= k && BusySince(w, j, k) && ExactTime(w.arrivals, bw, j, k, w.sent[k].time)
  {
    j := BusyPeriod(w, bw, k);
    hide FollowsRecursion, BusySince, ExactTime, Work;
    WorkIsTime(w.arrivals, bw, j, k, w.sent[k].time);
  }

  /** During its busy period the link sends `bw` bits a second. */
  lemma BusyLinkSendsBits(start: real, bw: real, events: seq<Event>, end: World, k: nat)
    requires bw > 0.0 && Reaches(World(IDLE, start, [], []), bw, events, end) && k < |end.sent|
    ensures |end.sent| <= |end.arrivals|
    ensures exists j :: 0 <= j <= k && BusySince(end, j, k) && ExactTime(end.arrivals, bw, j, k, end.sent[k].time)
  {
    StartSatisfiesInv(start, bw);
    EveryRunFollowsRecursion(World(IDLE, start, [], []), bw, events, end);
    var j := BusyPeriodInBits(end, bw, k);
  }
}
