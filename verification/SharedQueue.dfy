/** The shared switch buffer `packetSharedQueue`: every output port has a pool of its own and all ports share
    another one; memory is handed out in cells; servers ask for packets and are granted one at a time. */
module SharedQueue {
  import opened Devs

  /** Capacities in bits. The source reads a negative capacity as unlimited and a negative cell as one bit;
      a cell of zero bits would divide by zero. */
  datatype Params = Params(portCapacity: int, sharedCapacity: int, cell: int, quota: int) {
    predicate Valid() {
      cell >= 1 && portCapacity >= 0 && sharedCapacity >= 0 && quota >= 0
    }
  }

  datatype Packet = Packet(id: int, bits: nat)
  datatype Queued = Queued(packet: Packet, shared: bool)
  datatype PortQueue = PortQueue(queue: seq<Queued>, portBits: int, sharedBits: int)

  /** queues, pending_requests, pending_sends, shared_buffer_size_bits, sigma. */
  datatype Switch = Switch(
    queues: map<nat, PortQueue>,
    requests: set<nat>,
    sends: seq<nat>,
    sharedBits: int,
    sigma: Duration)

  const EMPTY_PORT := PortQueue([], 0, 0)
  const INITIAL := Switch(map[], {}, [], 0, Infinite)

  // ----- cells -----

  /** The whole cells a packet occupies: the source rounds the quotient up and multiplies. */
  function Rounded(cell: int, bits: nat): int
    requires cell >= 1
  {
    var whole := bits / cell;
    (if bits % cell == 0 then whole else whole + 1) * cell
  }

  /** It is the least multiple of the cell size that holds the packet. */
  lemma RoundedIsLeast(cell: int, bits: nat, k: int)
    requires cell >= 1
    ensures bits <= Rounded(cell, bits) < bits + cell
    ensures exists cells: nat :: Rounded(cell, bits) == cells * cell
    ensures k * cell >= bits ==> k * cell >= Rounded(cell, bits)
  {
    var q, r := bits / cell, bits % cell;
    var cells: nat := if r == 0 then q else q + 1;
    RoundedIsCells(cell, bits);
    assert Rounded(cell, bits) == cells * cell;
    if k < cells {
      MultiplyOrder(k, cells - 1, cell);
    } else {
      MultiplyOrder(cells, k, cell);
    }
  }

  lemma RoundedIsCells(cell: int, bits: nat)
    requires cell >= 1
    ensures var q, r := bits / cell, bits % cell;
            q >= 0 && Rounded(cell, bits) == (if r == 0 then q else q + 1) * cell
    ensures bits <= Rounded(cell, bits) < bits + cell
    ensures ((if bits % cell == 0 then bits / cell else bits / cell + 1) - 1) * cell < bits || bits == 0
  {
    var q, r := bits / cell, bits % cell;
    assert bits == cell * q + r && 0 <= r < cell;
    assert (q + 1) * cell == q * cell + cell && (q - 1) * cell == q * cell - cell;
  }

  lemma MultiplyOrder(a: int, b: int, d: int)
    requires a <= b && d >= 1
    ensures a * d <= b * d && (a + 1) * d == a * d + d
  {
    assert (b - a) * d >= 0;
  }

  // ----- specification -----

  function PortOf(s: Switch, port: nat): PortQueue {
    if port in s.queues then s.queues[port] else EMPTY_PORT
  }

  predicate HasPortBuffer(p: Params, q: PortQueue, size: int) {
    q.portBits + size <= p.portCapacity
  }

  predicate HasBuffer(p: Params, s: Switch, q: PortQueue, size: int) {
    HasPortBuffer(p, q, size) || (s.sharedBits + size <= p.sharedCapacity && q.sharedBits + size <= p.quota)
  }

  /** The first event at a port creates its queue, with a request pending if that event is a packet. */
  function Opened(s: Switch, port: nat): Switch {
    if port in s.queues then s
    else s.(queues := s.queues[port := EMPTY_PORT], requests := s.requests + {port})
  }

  function Store(p: Params, s: Switch, port: nat, packet: Packet): Switch
    requires p.Valid()
  {
    var q, size := PortOf(s, port), Rounded(p.cell, packet.bits);
    if HasPortBuffer(p, q, size) then
      s.(queues := s.queues[port := PortQueue(q.queue + [Queued(packet, false)], q.portBits + size, q.sharedBits)])
    else
      s.(queues := s.queues[port := PortQueue(q.queue + [Queued(packet, true)], q.portBits, q.sharedBits + size)],
         sharedBits := s.sharedBits + size)
  }

  /** A packet for an empty-handed server is granted at once. */
  function Grant(s: Switch, port: nat, e: real): Switch {
    if port in s.requests then s.(sends := s.sends + [port], requests := s.requests - {port}, sigma := Finite(0.0))
    else s.(sigma := s.sigma.Minus(e))
  }

  predicate Accepts(p: Params, s: Switch, port: nat, packet: Packet)
    requires p.Valid()
  {
    HasBuffer(p, s, PortOf(s, port), Rounded(p.cell, packet.bits))
  }

  function Arrive(p: Params, s: Switch, port: nat, packet: Packet, e: real): Switch
    requires p.Valid()
  {
    var t := Opened(s, port);
    if Accepts(p, t, port, packet) then Grant(Store(p, t, port, packet), port, e) else t.(sigma := t.sigma.Minus(e))
  }

  function Answer(s: Switch, port: nat, e: real): Switch {
    var t := s.(queues := s.queues[port := PortOf(s, port)]);
    if PortOf(s, port).queue != [] then t.(sends := t.sends + [port], sigma := Finite(0.0))
    else t.(requests := t.requests + {port}, sigma := t.sigma.Minus(e))
  }

  /** `lambda` takes the oldest grant and the head of that port's queue. */
  function Send(p: Params, s: Switch): Outcome<(nat, Packet, Switch)>
    requires p.Valid()
  {
    if s.sends == [] || PortOf(s, s.sends[0]).queue == [] then Undefined
    else
      var port := s.sends[0];
      var q := PortOf(s, port);
      var head, size := q.queue[0], Rounded(p.cell, q.queue[0].packet.bits);
      var r :=
        if head.shared then PortQueue(q.queue[1..], q.portBits, q.sharedBits - size)
        else PortQueue(q.queue[1..], q.portBits - size, q.sharedBits);
      Defined((port, head.packet,
               s.(queues := s.queues[port := r], sends := s.sends[1..],
                  sharedBits := if head.shared then s.sharedBits - size else s.sharedBits)))
  }

  function Rest(s: Switch): Switch {
    s.(sigma := if s.sends != [] then Finite(0.0) else Infinite)
  }

  // ----- runs -----

  datatype Event = Arrival(port: nat, packet: Packet, e: real) | Ask(port: nat, e: real) | Fire

  datatype Delivery = Delivery(port: nat, packet: Packet)

  /** The switch, the packets it accepted and sent, and the servers holding a packet they have not yet
      followed by a request. */
  datatype System = System(sw: Switch, accepted: seq<Delivery>, sent: seq<Delivery>, serving: set<nat>)

  const START := System(INITIAL, [], [], {})

  predicate Enabled(s: System, ev: Event) {
    match ev
    case Arrival(_, _, e) => s.sw.sigma.Allows(e)
    case Ask(_, e) => s.sw.sigma.Allows(e)
    case Fire => s.sw.sigma.Finite?
  }

  function Step(p: Params, s: System, ev: Event): Outcome<System>
    requires p.Valid()
  {
    match ev
    case Arrival(port, packet, e) =>
      var log := if Accepts(p, Opened(s.sw, port), port, packet) then [Delivery(port, packet)] else [];
      Defined(s.(sw := Arrive(p, s.sw, port, packet, e), accepted := s.accepted + log))
    case Ask(port, e) => Defined(s.(sw := Answer(s.sw, port, e), serving := s.serving - {port}))
    case Fire =>
      match Send(p, s.sw)
      case Undefined => Undefined
      case Defined((port, packet, sw)) =>
        Defined(System(Rest(sw), s.accepted, s.sent + [Delivery(port, packet)], s.serving + {port}))
  }

  // ----- conservation -----

  /** Cell-rounded size of the packets a port keeps in its own pool, or in the shared one. */
  function Occupied(cell: int, queue: seq<Queued>, shared: bool): int
    requires cell >= 1
  {
    if queue == [] then 0
    else (if queue[0].shared == shared then Rounded(cell, queue[0].packet.bits) else 0) + Occupied(cell, queue[1..], shared)
  }

  lemma {:induction false} OccupiedSnoc(cell: int, queue: seq<Queued>, q: Queued, shared: bool)
    requires cell >= 1
    ensures Occupied(cell, queue + [q], shared) ==
            Occupied(cell, queue, shared) + if q.shared == shared then Rounded(cell, q.packet.bits) else 0
    decreases |queue|
  {
    hide Rounded;
    if queue == [] {
      assert ([] + [q])[1..] == [];
    } else {
      OccupiedSnoc(cell, queue[1..], q, shared);
      assert (queue + [q])[1..] == queue[1..] + [q];
    }
  }

  lemma {:induction false} OccupiedNonnegative(cell: int, queue: seq<Queued>, shared: bool)
    requires cell >= 1
    ensures Occupied(cell, queue, shared) >= 0
    decreases |queue|
  {
    hide Rounded;
    if queue != [] {
      RoundedIsLeast(cell, queue[0].packet.bits, 0);
      OccupiedNonnegative(cell, queue[1..], shared);
    }
  }

  /** Sum over all ports of the bits they hold in the shared pool. */
  ghost function SharedTotal(queues: map<nat, PortQueue>): int
    decreases |queues|
  {
    if queues == map[] then 0
    else
      var k :| k in queues;
      queues[k].sharedBits + SharedTotal(queues - {k})
  }

  lemma {:induction false} SharedTotalSplit(queues: map<nat, PortQueue>, port: nat)
    requires port in queues
    ensures SharedTotal(queues) == queues[port].sharedBits + SharedTotal(queues - {port})
    decreases |queues|
  {
    var k :| k in queues && SharedTotal(queues) == queues[k].sharedBits + SharedTotal(queues - {k});
    if k != port {
      SharedTotalSplit(queues - {k}, port);
      SharedTotalSplit(queues - {port}, k);
      assert queues - {k} - {port} == queues - {port} - {k};
    }
  }

  lemma SharedTotalUpdate(queues: map<nat, PortQueue>, port: nat, q: PortQueue)
    ensures SharedTotal(queues[port := q]) ==
            SharedTotal(queues) + q.sharedBits - if port in queues then queues[port].sharedBits else 0
  {
    SharedTotalSplit(queues[port := q], port);
    assert queues[port := q] - {port} == queues - {port};
    if port in queues {
      SharedTotalSplit(queues, port);
    } else {
      assert queues - {port} == queues;
    }
  }

  ghost predicate PortConserved(p: Params, q: PortQueue)
    requires p.Valid()
  {
    && q.portBits == Occupied(p.cell, q.queue, false) <= p.portCapacity
    && q.sharedBits == Occupied(p.cell, q.queue, true) <= p.quota
  }

  ghost predicate Conserved(p: Params, s: Switch)
    requires p.Valid()
  {
    && (forall k :: k in s.queues ==> PortConserved(p, s.queues[k]))
    && s.sharedBits == SharedTotal(s.queues) <= p.sharedCapacity
  }

  lemma OpenedKeepsConserved(p: Params, s: Switch, port: nat)
    requires p.Valid() && Conserved(p, s)
    ensures Conserved(p, Opened(s, port)) && PortConserved(p, PortOf(Opened(s, port), port))
  {
    SharedTotalUpdate(s.queues, port, EMPTY_PORT);
  }

  lemma StoreKeepsConserved(p: Params, s: Switch, port: nat, packet: Packet)
    requires p.Valid() && Conserved(p, s) && port in s.queues && Accepts(p, s, port, packet)
    ensures Conserved(p, Store(p, s, port, packet))
  {
    hide Rounded, SharedTotal, Occupied;
    var q, t := PortOf(s, port), Store(p, s, port, packet);
    var entry := t.queues[port].queue[|q.queue|];
    OccupiedSnoc(p.cell, q.queue, entry, false);
    OccupiedSnoc(p.cell, q.queue, entry, true);
    SharedTotalUpdate(s.queues, port, t.queues[port]);
  }

  lemma SendKeepsConserved(p: Params, s: Switch)
    requires p.Valid() && Conserved(p, s) && Send(p, s).Defined?
    ensures Conserved(p, Send(p, s).value.2)
  {
    hide Rounded, SharedTotal;
    var port := s.sends[0];
    var t := Send(p, s).value.2;
    RoundedIsLeast(p.cell, PortOf(s, port).queue[0].packet.bits, 0);
    SharedTotalUpdate(s.queues, port, t.queues[port]);
  }

  lemma StepKeepsConserved(p: Params, s: System, ev: Event)
    requires p.Valid() && Conserved(p, s.sw) && Step(p, s, ev).Defined?
    ensures Conserved(p, Step(p, s, ev).value.sw)
  {
    hide Rounded, SharedTotal, Occupied;
    match ev
    case Arrival(port, packet, e) =>
      OpenedKeepsConserved(p, s.sw, port);
      var t := Opened(s.sw, port);
      if Accepts(p, t, port, packet) {
        StoreKeepsConserved(p, t, port, packet);
      }
    case Ask(port, e) =>
      SharedTotalUpdate(s.sw.queues, port, PortOf(s.sw, port));
      EmptyPortConserved(p);
    case Fire => SendKeepsConserved(p, s.sw);
  }

  lemma EmptyPortConserved(p: Params)
    requires p.Valid()
    ensures PortConserved(p, EMPTY_PORT)
  {
  }

  // ----- first in, first out -----

  function Packets(queue: seq<Queued>): (r: seq<Packet>)
    ensures |r| == |queue| && forall i :: 0 <= i < |queue| ==> r[i] == queue[i].packet
  {
    seq(|queue|, i requires 0 <= i < |queue| => queue[i].packet)
  }

  /** The packets of one port, in order. */
  function AtPort(log: seq<Delivery>, port: nat): seq<Packet> {
    if log == [] then []
    else
      var before := AtPort(log[..|log| - 1], port);
      if log[|log| - 1].port == port then before + [log[|log| - 1].packet] else before
  }

  lemma AtPortSnoc(log: seq<Delivery>, d: Delivery, port: nat)
    ensures AtPort(log + [d], port) == if d.port == port then AtPort(log, port) + [d.packet] else AtPort(log, port)
  {
    assert (log + [d])[..|log|] == log;
  }

  ghost predicate PortFifo(s: System, port: nat) {
    AtPort(s.accepted, port) == AtPort(s.sent, port) + Packets(PortOf(s.sw, port).queue)
  }

  ghost predicate Fifo(s: System) {
    forall port :: PortFifo(s, port)
  }

  lemma ArrivalKeepsFifo(p: Params, s: System, target: nat, packet: Packet, e: real, port: nat)
    requires p.Valid() && PortFifo(s, port)
    ensures PortFifo(Step(p, s, Arrival(target, packet, e)).value, port)
  {
    hide Rounded, AtPort, HasBuffer, HasPortBuffer;
    var t := Step(p, s, Arrival(target, packet, e)).value;
    var before, after := PortOf(s.sw, port).queue, PortOf(t.sw, port).queue;
    if Accepts(p, Opened(s.sw, target), target, packet) {
      AtPortSnoc(s.accepted, Delivery(target, packet), port);
      if port == target {
        assert |after| == |before| + 1 && after[..|before|] == before && after[|before|].packet == packet;
        assert Packets(after) == Packets(before) + [packet];
      } else {
        assert after == before;
      }
    } else {
      assert t.accepted == s.accepted && after == before;
    }
  }

  lemma SendTakesHead(p: Params, s: Switch, port: nat)
    requires p.Valid() && Send(p, s).Defined?
    ensures s.sends != [] && PortOf(s, s.sends[0]).queue != []
    ensures var (target, packet, t) := Send(p, s).value;
            && target == s.sends[0] && packet == PortOf(s, target).queue[0].packet
            && PortOf(t, port).queue == (if port == target then PortOf(s, port).queue[1..] else PortOf(s, port).queue)
  {
    hide Rounded;
  }

  lemma FireKeepsFifo(p: Params, s: System, port: nat)
    requires p.Valid() && PortFifo(s, port) && Step(p, s, Fire).Defined?
    ensures PortFifo(Step(p, s, Fire).value, port)
  {
    hide Send, AtPort, Packets;
    SendTakesHead(p, s.sw, port);
    var before := PortOf(s.sw, port).queue;
    var (target, packet, _) := Send(p, s.sw).value;
    AtPortSnoc(s.sent, Delivery(target, packet), port);
    if port == target {
      PacketsSplit(before);
    }
  }

  lemma PacketsSplit(queue: seq<Queued>)
    requires queue != []
    ensures Packets(queue) == [queue[0].packet] + Packets(queue[1..])
  {
  }

  lemma StepKeepsFifo(p: Params, s: System, ev: Event)
    requires p.Valid() && Fifo(s) && Step(p, s, ev).Defined?
    ensures Fifo(Step(p, s, ev).value)
  {
    hide Rounded, AtPort, Arrive, Send;
    var t := Step(p, s, ev).value;
    forall port
      ensures PortFifo(t, port)
    {
      match ev
      case Arrival(target, packet, e) => ArrivalKeepsFifo(p, s, target, packet, e, port);
      case Ask(_, _) => assert PortFifo(s, port) && PortOf(t.sw, port).queue == PortOf(s.sw, port).queue;
      case Fire => FireKeepsFifo(p, s, port);
    }
  }

  // ----- requests and grants -----

  function Grants(s: Switch, port: nat): nat {
    multiset(s.sends)[port]
  }

  /** Every grant has a packet to send: the check the source asks for in a comment. */
  ghost predicate Covered(s: Switch) {
    forall port :: Grants(s, port) <= |PortOf(s, port).queue|
  }

  /** No server waits at a port that has a packet, and the timer runs exactly when a grant is pending. */
  ghost predicate Prompt(s: Switch) {
    && (forall port :: port in s.requests ==> PortOf(s, port).queue == [])
    && s.sigma == if s.sends == [] then Infinite else Finite(0.0)
  }

  lemma StepKeepsPrompt(p: Params, s: System, ev: Event)
    requires p.Valid() && Prompt(s.sw) && Enabled(s, ev) && Step(p, s, ev).Defined?
    ensures Prompt(Step(p, s, ev).value.sw)
  {
    hide Rounded, HasBuffer, HasPortBuffer;
  }

  /** A request is harmless exactly when the port is empty or has more packets than grants. */
  predicate HarmlessAsk(s: Switch, port: nat) {
    PortOf(s, port).queue == [] || Grants(s, port) < |PortOf(s, port).queue|
  }

  lemma AskKeepsCoveredIff(s: Switch, port: nat, e: real)
    requires Covered(s)
    ensures Covered(Answer(s, port, e)) <==> HarmlessAsk(s, port)
  {
    var t := Answer(s, port, e);
    forall k
      ensures PortOf(t, k).queue == PortOf(s, k).queue
      ensures Grants(t, k) == Grants(s, k) + if k == port && PortOf(s, port).queue != [] then 1 else 0
    {
    }
    if Covered(t) {
      assert Grants(t, port) <= |PortOf(t, port).queue|;
    }
  }

  lemma ArrivalKeepsCovered(p: Params, s: System, port: nat, packet: Packet, e: real)
    requires p.Valid() && Covered(s.sw)
    ensures Covered(Step(p, s, Arrival(port, packet, e)).value.sw)
  {
    hide Rounded, HasBuffer, HasPortBuffer;
    var t := Step(p, s, Arrival(port, packet, e)).value.sw;
    forall k
      ensures Grants(t, k) <= |PortOf(t, k).queue|
    {
      assert Grants(s.sw, k) <= |PortOf(s.sw, k).queue|;
    }
  }

  lemma FireKeepsCovered(p: Params, s: System)
    requires p.Valid() && Covered(s.sw) && Prompt(s.sw) && Enabled(s, Fire)
    ensures Step(p, s, Fire).Defined? && Covered(Step(p, s, Fire).value.sw)
  {
    hide Rounded;
    var port := s.sw.sends[0];
    assert s.sw.sends == [port] + s.sw.sends[1..];
    assert Grants(s.sw, port) >= 1;
    assert Grants(s.sw, port) <= |PortOf(s.sw, port).queue|;
    var t := Step(p, s, Fire).value.sw;
    forall k
      ensures Grants(t, k) <= |PortOf(t, k).queue|
    {
      assert Grants(s.sw, k) <= |PortOf(s.sw, k).queue|;
    }
  }

  predicate OnlyFires(evs: seq<Event>) {
    forall i :: 0 <= i < |evs| ==> evs[i] == Fire
  }

  /** All pending grants can be served one after the other. */
  ghost predicate GrantsCanFire(p: Params, s: System)
    requires p.Valid()
    decreases |s.sw.sends|
  {
    s.sw.sends == []
    || (Step(p, s, Fire).Defined? && |Step(p, s, Fire).value.sw.sends| < |s.sw.sends|
        && GrantsCanFire(p, Step(p, s, Fire).value))
  }

  lemma FireEffect(p: Params, s: System, port: nat)
    requires p.Valid() && Step(p, s, Fire).Defined?
    ensures s.sw.sends != []
    ensures var t := Step(p, s, Fire).value.sw;
            var served := if port == s.sw.sends[0] then 1 else 0;
            && t.sends == s.sw.sends[1..] && Grants(t, port) == Grants(s.sw, port) - served
            && |PortOf(t, port).queue| == |PortOf(s.sw, port).queue| - served
  {
    hide Rounded;
    assert s.sw.sends == [s.sw.sends[0]] + s.sw.sends[1..];
  }

  lemma {:induction false} CoveredGrantsFire(p: Params, s: System)
    requires p.Valid() && Covered(s.sw) && Prompt(s.sw)
    ensures GrantsCanFire(p, s)
    decreases |s.sw.sends|
  {
    hide Send, Covered, Prompt;
    if s.sw.sends != [] {
      assert Enabled(s, Fire) by {
        GrantIsEnabled(s);
      }
      FireKeepsCovered(p, s);
      StepKeepsPrompt(p, s, Fire);
      FireEffect(p, s, 0);
      CoveredGrantsFire(p, Step(p, s, Fire).value);
    }
  }

  lemma GrantIsEnabled(s: System)
    requires Prompt(s.sw) && s.sw.sends != []
    ensures Enabled(s, Fire)
  {
  }

  lemma NoSendNoGrant(s: Switch, port: nat)
    ensures s.sends == [] ==> Grants(s, port) == 0
  {
  }

  /** A port with more grants than packets: serving the grants ends in a pop of an empty queue. */
  lemma {:induction false} UncoveredGrantPops(p: Params, s: System, port: nat) returns (fires: seq<Event>, t: System)
    requires p.Valid() && Prompt(s.sw) && Grants(s.sw, port) > |PortOf(s.sw, port).queue|
    ensures OnlyFires(fires) && Runs(p, s, fires, t)
    ensures Enabled(t, Fire) && Step(p, t, Fire) == Undefined && !GrantsCanFire(p, s)
    decreases |s.sw.sends|
  {
    hide Send, Prompt;
    assert s.sw.sends != [] && Enabled(s, Fire) by {
      NoSendNoGrant(s.sw, port);
      GrantIsEnabled(s);
    }
    if Step(p, s, Fire).Undefined? {
      fires, t := [], s;
    } else {
      FireEffect(p, s, port);
      StepKeepsPrompt(p, s, Fire);
      var rest;
      rest, t := UncoveredGrantPops(p, Step(p, s, Fire).value, port);
      fires := [Fire] + rest;
      assert fires[1..] == rest;
    }
  }

  /** The pending grants can all be served if and only if every grant has a packet. */
  lemma GrantsCanFireIff(p: Params, s: System)
    requires p.Valid() && Prompt(s.sw)
    ensures GrantsCanFire(p, s) <==> Covered(s.sw)
  {
    if Covered(s.sw) {
      CoveredGrantsFire(p, s);
    } else {
      var port: nat :| Grants(s.sw, port) > |PortOf(s.sw, port).queue|;
      var fires, t := UncoveredGrantPops(p, s, port);
    }
  }

  /** Some run that only serves the pending grants pops an empty queue. */
  ghost predicate ServingPopsEmpty(p: Params, s: System)
    requires p.Valid()
  {
    exists fires, t :: OnlyFires(fires) && Runs(p, s, fires, t)
                       && Enabled(t, Fire) && Step(p, t, Fire) == Undefined
  }

  /** Each server asks again only after it received a packet; a port not heard of yet may announce itself. */
  predicate Disciplined(s: System, ev: Event) {
    ev.Ask? ==> ev.port in s.serving || ev.port !in s.sw.queues
  }

  /** What a port owes its server or its server owes it: a waiting request, grants, a packet being served. */
  function Tokens(s: System, port: nat): nat {
    (if port in s.sw.requests then 1 else 0) + Grants(s.sw, port) + (if port in s.serving then 1 else 0)
  }

  ghost predicate OneToken(s: System) {
    forall port :: Tokens(s, port) == if port in s.sw.queues then 1 else 0
  }

  lemma ArrivalKeepsTokens(p: Params, s: System, target: nat, packet: Packet, e: real, port: nat)
    requires p.Valid()
    ensures var t := Step(p, s, Arrival(target, packet, e)).value;
            && (port in t.sw.queues <==> port in s.sw.queues || port == target)
            && (target in s.sw.queues ==> Tokens(t, port) == Tokens(s, port))
            && (target !in s.sw.queues && target !in s.sw.requests ==>
                  Tokens(t, port) == Tokens(s, port) + if port == target then 1 else 0)
  {
    hide Accepts, Store;
    StoreFrame(p, Opened(s.sw, target), target, packet);
  }

  lemma StoreFrame(p: Params, s: Switch, target: nat, packet: Packet)
    requires p.Valid()
    ensures var t := Store(p, s, target, packet);
            t.requests == s.requests && t.sends == s.sends && t.sigma == s.sigma && t.queues.Keys == s.queues.Keys + {target}
  {
    hide Rounded, HasPortBuffer;
  }

  lemma FireKeepsTokens(p: Params, s: System, port: nat)
    requires p.Valid() && Step(p, s, Fire).Defined? && (s.sw.sends[0] !in s.serving)
    ensures var t := Step(p, s, Fire).value;
            && (port in t.sw.queues <==> port in s.sw.queues || port == s.sw.sends[0])
            && Tokens(t, port) == Tokens(s, port)
  {
    hide Rounded;
    assert s.sw.sends == [s.sw.sends[0]] + s.sw.sends[1..];
  }

  lemma StepKeepsOneToken(p: Params, s: System, ev: Event)
    requires p.Valid() && OneToken(s) && Enabled(s, ev) && Disciplined(s, ev) && Step(p, s, ev).Defined?
    ensures OneToken(Step(p, s, ev).value)
    ensures ev.Ask? ==> HarmlessAsk(s.sw, ev.port)
  {
    hide Rounded, HasBuffer, HasPortBuffer, Arrive, Send, Step;
    var t := Step(p, s, ev).value;
    forall port
      ensures Tokens(t, port) == if port in t.sw.queues then 1 else 0
    {
      assert Tokens(s, port) == if port in s.sw.queues then 1 else 0;
      match ev
      case Arrival(target, packet, e) =>
        assert Tokens(s, target) == if target in s.sw.queues then 1 else 0;
        ArrivalKeepsTokens(p, s, target, packet, e, port);
      case Ask(target, e) =>
        assert Tokens(s, target) == if target in s.sw.queues then 1 else 0;
        AskKeepsTokens(p, s, target, e, port);
      case Fire =>
        GrantedIsNotServing(p, s);
        FireKeepsTokens(p, s, port);
    }
    if ev.Ask? {
      assert Tokens(s, ev.port) == if ev.port in s.sw.queues then 1 else 0;
    }
  }

  lemma GrantedIsNotServing(p: Params, s: System)
    requires p.Valid() && OneToken(s) && Step(p, s, Fire).Defined?
    ensures s.sw.sends != [] && s.sw.sends[0] in s.sw.queues && s.sw.sends[0] !in s.serving
  {
    hide Rounded;
    var port := s.sw.sends[0];
    assert port in multiset(s.sw.sends);
    assert Tokens(s, port) == if port in s.sw.queues then 1 else 0;
  }

  lemma AskKeepsTokens(p: Params, s: System, target: nat, e: real, port: nat)
    requires p.Valid() && Disciplined(s, Ask(target, e))
    requires Tokens(s, target) == if target in s.sw.queues then 1 else 0
    ensures var t := Step(p, s, Ask(target, e)).value;
            && (port in t.sw.queues <==> port in s.sw.queues || port == target)
            && Tokens(t, port) == (if port == target then 1 else Tokens(s, port))
  {
  }

  // ----- the results, over every run -----

  predicate Runs(p: Params, s: System, evs: seq<Event>, t: System)
    requires p.Valid()
    decreases |evs|
  {
    if evs == [] then s == t
    else Enabled(s, evs[0]) && Step(p, s, evs[0]).Defined? && Runs(p, Step(p, s, evs[0]).value, evs[1..], t)
  }

  ghost predicate AllDisciplined(p: Params, s: System, evs: seq<Event>)
    requires p.Valid()
    decreases |evs|
  {
    evs == [] || (Disciplined(s, evs[0]) &&
                  (Step(p, s, evs[0]).Defined? ==> AllDisciplined(p, Step(p, s, evs[0]).value, evs[1..])))
  }

  ghost predicate Sound(p: Params, s: System)
    requires p.Valid()
  {
    Conserved(p, s.sw) && Fifo(s) && Prompt(s.sw)
  }

  lemma {:induction false} RunKeepsSound(p: Params, s: System, evs: seq<Event>, t: System)
    requires p.Valid() && Sound(p, s) && Runs(p, s, evs, t)
    ensures Sound(p, t)
    decreases |evs|
  {
    hide Conserved, Fifo, Prompt, Step, Enabled;
    if evs != [] {
      StepKeepsConserved(p, s, evs[0]);
      StepKeepsFifo(p, s, evs[0]);
      StepKeepsPrompt(p, s, evs[0]);
      RunKeepsSound(p, Step(p, s, evs[0]).value, evs[1..], t);
    }
  }

  lemma StartSound(p: Params)
    requires p.Valid()
    ensures Sound(p, START) && OneToken(START) && Covered(START.sw)
  {
  }

  /** Main result: whatever the servers do, after every run each counter equals the cell-rounded size of the
      packets queued in its pool, no capacity or quota is exceeded, each port is first in first out, no server
      waits at a port that has a packet, and the timer is zero exactly when a grant is pending. */
  lemma BufferIsConserved(p: Params, evs: seq<Event>, s: System)
    requires p.Valid() && Runs(p, START, evs, s)
    ensures forall k :: k in s.sw.queues ==>
              && s.sw.queues[k].portBits == Occupied(p.cell, s.sw.queues[k].queue, false) <= p.portCapacity
              && s.sw.queues[k].sharedBits == Occupied(p.cell, s.sw.queues[k].queue, true) <= p.quota
    ensures s.sw.sharedBits == SharedTotal(s.sw.queues) <= p.sharedCapacity
    ensures forall port :: AtPort(s.accepted, port) == AtPort(s.sent, port) + Packets(PortOf(s.sw, port).queue)
    ensures forall port :: port in s.sw.requests ==> PortOf(s.sw, port).queue == []
    ensures s.sw.sigma == if s.sw.sends == [] then Infinite else Finite(0.0)
  {
    hide Runs, Occupied, SharedTotal, AtPort;
    StartSound(p);
    RunKeepsSound(p, START, evs, s);
    forall port
      ensures AtPort(s.accepted, port) == AtPort(s.sent, port) + Packets(PortOf(s.sw, port).queue)
    {
      assert PortFifo(s, port);
    }
  }

  /** A packet is refused exactly when what is queued leaves room for it in neither pool. */
  lemma RefusedIffNoRoom(p: Params, evs: seq<Event>, s: System, port: nat, packet: Packet)
    requires p.Valid() && Runs(p, START, evs, s)
    ensures var queue, size := PortOf(s.sw, port).queue, Rounded(p.cell, packet.bits);
            !Accepts(p, Opened(s.sw, port), port, packet) <==>
            && Occupied(p.cell, queue, false) + size > p.portCapacity
            && (Occupied(p.cell, queue, true) + size > p.quota || SharedTotal(s.sw.queues) + size > p.sharedCapacity)
  {
    hide Runs, SharedTotal, Rounded;
    StartSound(p);
    RunKeepsSound(p, START, evs, s);
    OpenedKeepsConserved(p, s.sw, port);
  }

  /** An accepted packet takes its port's own pool if and only if what is queued leaves room there, and goes to the
      end of the port's queue. */
  lemma OwnPoolFirst(p: Params, evs: seq<Event>, s: System, port: nat, packet: Packet, e: real)
    requires p.Valid() && Runs(p, START, evs, s) && Accepts(p, Opened(s.sw, port), port, packet)
    ensures var queue := PortOf(s.sw, port).queue;
            var shared := Occupied(p.cell, queue, false) + Rounded(p.cell, packet.bits) > p.portCapacity;
            PortOf(Step(p, s, Arrival(port, packet, e)).value.sw, port).queue == queue + [Queued(packet, shared)]
  {
    hide Runs, SharedTotal, Rounded;
    StartSound(p);
    RunKeepsSound(p, START, evs, s);
    OpenedKeepsConserved(p, s.sw, port);
  }

  /** Serving grants keeps a covered state covered, so it never gets as far as an empty queue. */
  lemma {:induction false} CoveredServesWell(p: Params, s: System, fires: seq<Event>, t: System)
    requires p.Valid() && Covered(s.sw) && Prompt(s.sw) && Runs(p, s, fires, t) && OnlyFires(fires)
    ensures Covered(t.sw) && Prompt(t.sw)
    decreases |fires|
  {
    hide Send, Covered, Prompt;
    if fires != [] {
      FireKeepsCovered(p, s);
      StepKeepsPrompt(p, s, Fire);
      CoveredServesWell(p, Step(p, s, Fire).value, fires[1..], t);
    }
  }

  /** Main result: from any state of any run in which every grant has a packet, a request leads to a pop of an
      empty queue if and only if the port has packets but no more of them than grants. */
  lemma RequestPopsEmptyIff(p: Params, evs: seq<Event>, s: System, port: nat, e: real)
    requires p.Valid() && Runs(p, START, evs, s) && Covered(s.sw) && Enabled(s, Ask(port, e))
    ensures var t := Step(p, s, Ask(port, e)).value;
            (ServingPopsEmpty(p, t) <==> !HarmlessAsk(s.sw, port)) && (GrantsCanFire(p, t) <==> HarmlessAsk(s.sw, port))
  {
    hide Runs, Covered, Prompt, Conserved, Fifo, HarmlessAsk, Answer, Send;
    StartSound(p);
    RunKeepsSound(p, START, evs, s);
    StepKeepsPrompt(p, s, Ask(port, e));
    AskKeepsCoveredIff(s.sw, port, e);
    var t := Step(p, s, Ask(port, e)).value;
    GrantsCanFireIff(p, t);
    PopsIffUncovered(p, t);
  }

  lemma PopsIffUncovered(p: Params, s: System)
    requires p.Valid() && Prompt(s.sw)
    ensures ServingPopsEmpty(p, s) <==> !Covered(s.sw)
  {
    hide Prompt, Runs, Step;
    if Covered(s.sw) {
      forall fires, t | OnlyFires(fires) && Runs(p, s, fires, t) && Enabled(t, Fire)
        ensures Step(p, t, Fire).Defined?
      {
        CoveredServesWell(p, s, fires, t);
        FireKeepsCovered(p, t);
      }
    } else {
      var port: nat :| Grants(s.sw, port) > |PortOf(s.sw, port).queue|;
      var fires, t := UncoveredGrantPops(p, s, port);
    }
  }

  lemma {:induction false} DisciplinedRunIsCovered(p: Params, s: System, evs: seq<Event>, t: System)
    requires p.Valid() && Sound(p, s) && OneToken(s) && Covered(s.sw) && Runs(p, s, evs, t) && AllDisciplined(p, s, evs)
    ensures OneToken(t) && Covered(t.sw) && Sound(p, t)
    decreases |evs|
  {
    hide Conserved, Fifo, Prompt, Covered, OneToken, HarmlessAsk, Disciplined, Send, Arrive, Answer;
    if evs != [] {
      var ev := evs[0];
      var u := Step(p, s, ev).value;
      StepKeepsConserved(p, s, ev);
      StepKeepsFifo(p, s, ev);
      StepKeepsPrompt(p, s, ev);
      StepKeepsOneToken(p, s, ev);
      match ev {
        case Arrival(port, packet, e) => ArrivalKeepsCovered(p, s, port, packet, e);
        case Ask(port, e) => AskKeepsCoveredIff(s.sw, port, e);
        case Fire => FireKeepsCovered(p, s);
      }
      DisciplinedRunIsCovered(p, u, evs[1..], t);
    }
  }

  /** Main result: when every server asks again only after receiving a packet, no run pops an empty queue. */
  lemma DisciplinedServersAreServed(p: Params, evs: seq<Event>, s: System, ev: Event)
    requires p.Valid() && Runs(p, START, evs, s) && AllDisciplined(p, START, evs) && Enabled(s, ev)
    ensures Step(p, s, ev).Defined?
    ensures forall port :: Grants(s.sw, port) <= 1
  {
    hide Runs, AllDisciplined, Conserved, Fifo;
    StartSound(p);
    DisciplinedRunIsCovered(p, START, evs, s);
    if ev.Fire? {
      FireKeepsCovered(p, s);
    }
    forall port
      ensures Grants(s.sw, port) <= 1
    {
      assert Tokens(s, port) == if port in s.sw.queues then 1 else 0;
    }
  }

  /** Without the discipline it does: a server that asks once at start-up, after its first packet came in,
      is granted twice. */
  lemma EarlyRequestPopsEmptyQueue()
    ensures exists p: Params, evs, s ::
              p.Valid() && Runs(p, START, evs, s) && Enabled(s, Fire) && Step(p, s, Fire) == Undefined
  {
    var p := Params(1000, 0, 1, 0);
    var first := Packet(1, 8);
    var s1 := Step(p, START, Arrival(0, first, 0.0)).value;
    assert Rounded(1, 8) == 8;
    assert HasPortBuffer(p, EMPTY_PORT, 8);
    assert PortOf(s1.sw, 0).queue == [Queued(first, false)];
    assert s1.sw.sends == [0] && s1.sw.sigma == Finite(0.0);
    var s2 := Step(p, s1, Ask(0, 0.0)).value;
    assert s2.sw.sends == [0, 0];
    var s3 := Step(p, s2, Fire).value;
    assert s3.sw.sends == [0] && PortOf(s3.sw, 0).queue == [];
    var evs := [Arrival(0, first, 0.0), Ask(0, 0.0), Fire];
    assert Runs(p, s3, evs[3..], s3);
    assert Runs(p, s2, evs[2..], s3);
    assert Runs(p, s1, evs[1..], s3);
    assert Runs(p, START, evs, s3);
  }

  // ----- the imperative model -----

  class PacketSharedQueue {
    const p: Params
    var queues: map<nat, PortQueue>
    var pendingRequests: set<nat>
    var pendingSends: seq<nat>
    var sharedBufferSizeBits: int
    var sigma: Duration

    ghost function State(): Switch
      reads this
    {
      Switch(queues, pendingRequests, pendingSends, sharedBufferSizeBits, sigma)
    }

    constructor (params: Params)
      requires params.Valid()
      ensures p == params && State() == INITIAL
    {
      p := params;
      queues := map[];
      pendingRequests := {};
      pendingSends := [];
      sharedBufferSizeBits := 0;
      sigma := Infinite;
    }

    /** Even input ports carry packets, odd ones requests. */
    method OnDext(inPort: nat, packet: Packet, e: real)
      requires p.Valid()
      modifies this
      ensures State() == if inPort % 2 == 0 then Arrive(p, old(State()), inPort / 2, packet, e)
                         else Answer(old(State()), (inPort - 1) / 2, e)
    {
      hide Arrive, Answer;
      if inPort % 2 == 0 {
        OnPacket(inPort / 2, packet, e);
      } else {
        OnRequest((inPort - 1) / 2, e);
      }
    }

    method OnPacket(outputPort: nat, packet: Packet, e: real)
      requires p.Valid()
      modifies this
      ensures State() == Arrive(p, old(State()), outputPort, packet, e)
    {
      hide Rounded;
      if outputPort !in queues {
        pendingRequests := pendingRequests + {outputPort};
        queues := queues[outputPort := EMPTY_PORT];
      }
      var queue := queues[outputPort];
      var bufferingSize := Rounded(p.cell, packet.bits);
      var hasPortBuffer := queue.portBits + bufferingSize <= p.portCapacity;
      var hasSharedBuffer := sharedBufferSizeBits + bufferingSize <= p.sharedCapacity;
      var hasSharedQuota := queue.sharedBits + bufferingSize <= p.quota;
      if !(hasPortBuffer || (hasSharedBuffer && hasSharedQuota)) {
        sigma := sigma.Minus(e);
        return;
      }
      if queue.portBits + bufferingSize <= p.portCapacity {
        queue := PortQueue(queue.queue + [Queued(packet, false)], queue.portBits + bufferingSize, queue.sharedBits);
      } else {
        sharedBufferSizeBits := sharedBufferSizeBits + bufferingSize;
        queue := PortQueue(queue.queue + [Queued(packet, true)], queue.portBits, queue.sharedBits + bufferingSize);
      }
      queues := queues[outputPort := queue];
      if outputPort in pendingRequests {
        pendingSends := pendingSends + [outputPort];
        pendingRequests := pendingRequests - {outputPort};
        sigma := Finite(0.0);
      } else {
        sigma := sigma.Minus(e);
      }
    }

    method OnRequest(outputPort: nat, e: real)
      modifies this
      ensures State() == Answer(old(State()), outputPort, e)
    {
      if outputPort !in queues {
        queues := queues[outputPort := EMPTY_PORT];
      }
      assert queues == old(queues)[outputPort := PortOf(old(State()), outputPort)];
      if queues[outputPort].queue != [] {
        pendingSends := pendingSends + [outputPort];
        sigma := Finite(0.0);
      } else {
        pendingRequests := pendingRequests + {outputPort};
        sigma := sigma.Minus(e);
      }
    }

    method OnLambda() returns (outputPort: nat, packet: Packet)
      requires p.Valid() && Send(p, State()).Defined?
      modifies this
      ensures Send(p, old(State())) == Defined((outputPort, packet, State()))
    {
      hide Rounded;
      outputPort := pendingSends[0];
      pendingSends := pendingSends[1..];
      var queue := queues[outputPort];
      var queued := queue.queue[0];
      packet := queued.packet;
      var bufferingSize := Rounded(p.cell, packet.bits);
      if queued.shared {
        sharedBufferSizeBits := sharedBufferSizeBits - bufferingSize;
        queue := PortQueue(queue.queue[1..], queue.portBits, queue.sharedBits - bufferingSize);
      } else {
        queue := PortQueue(queue.queue[1..], queue.portBits - bufferingSize, queue.sharedBits);
      }
      queues := queues[outputPort := queue];
    }

    method OnDint()
      modifies this`sigma
      ensures State() == Rest(old(State()))
    {
      if |pendingSends| > 0 {
        sigma := Finite(0.0);
      } else {
        sigma := Infinite;
      }
    }
  }
}
