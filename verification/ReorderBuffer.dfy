/** The reorder buffer `TcpRcvBuffer`: TCP packets leave on the ordered port in sequence, once each, and
    every packet also leaves at once on a port of its own kind. */
module ReorderBuffer {
  import opened Devs
  import opened Seq32

  const NON_TCP := 0
  const ALL_TCP := 1
  const ORDERED := 2

  datatype Packet = Packet(seqNumber: U32, content: int)
  datatype Outgoing = Outgoing(port: int, packet: Packet)

  /** nextExpectedSeqNumber, oooBuffer, outputPackets, sigma. */
  datatype Buffer = Buffer(next: U32, held: map<U32, Packet>, queue: seq<Outgoing>, sigma: Duration)

  // ----- specification -----

  /** The smallest key, where iteration over a sorted map begins. */
  ghost predicate IsFirstKey(held: map<U32, Packet>, k: U32) {
    k in held && forall j :: j in held ==> k <= j
  }

  lemma FirstKeyExists(held: map<U32, Packet>) returns (k: U32)
    requires held != map[]
    ensures IsFirstKey(held, k)
    decreases |held|
  {
    k :| k in held;
    var rest := held - {k};
    if rest == map[] {
      assert forall j :: j in held ==> j == k || j in rest;
    } else {
      var r := FirstKeyExists(rest);
      assert forall j :: j in held ==> j == k || j in rest;
      if r < k {
        k := r;
      }
    }
  }

  /** Forward held packets while the first of them is the next expected one. */
  ghost function Drain(mss: int, b: Buffer): Buffer
    decreases |b.held|
  {
    if IsFirstKey(b.held, b.next) then
      Drain(mss, b.(next := Wrap(b.next + mss), held := b.held - {b.next},
                    queue := b.queue + [Outgoing(ORDERED, b.held[b.next])]))
    else b
  }

  ghost function Process(mss: int, b: Buffer, packet: Packet): Buffer {
    if packet.seqNumber < b.next || packet.seqNumber in b.held then b
    else if packet.seqNumber == b.next then
      Drain(mss, b.(next := Wrap(b.next + mss), queue := b.queue + [Outgoing(ORDERED, packet)]))
    else b.(held := b.held[packet.seqNumber := packet])
  }

  ghost function Arrive(mss: int, b: Buffer, packet: Packet, tcp: bool): Buffer {
    var c := if tcp then Process(mss, b, packet) else b;
    c.(queue := c.queue + [Outgoing(if tcp then ALL_TCP else NON_TCP, packet)], sigma := Finite(0.0))
  }

  /** `lambda` pops the queue, then `dint` sets the timer. */
  function Fire(b: Buffer): Outcome<(Outgoing, Buffer)> {
    if b.queue == [] then Undefined
    else
      var rest := b.queue[1..];
      Defined((b.queue[0], b.(queue := rest, sigma := if rest == [] then Infinite else Finite(0.0))))
  }

  // ----- runs -----

  datatype Event = Arrival(packet: Packet, tcp: bool) | Output

  /** The buffer, what it has emitted, and the TCP packets that reached it. */
  datatype Trace = Trace(b: Buffer, emitted: seq<Outgoing>, arrived: seq<Packet>)

  const EMPTY := Trace(Buffer(1, map[], [], Infinite), [], [])

  /** Sequence number of the i-th packet of the stream. */
  function SeqAt(mss: int, i: int): int {
    1 + i * mss
  }

  /** TCP arrivals lie on the sender's grid. */
  ghost predicate Allowed(mss: int, s: Trace, ev: Event) {
    match ev
    case Arrival(packet, tcp) => tcp ==> OnGrid(mss, packet.seqNumber)
    case Output => s.b.sigma == Finite(0.0)
  }

  ghost predicate OnGrid(mss: int, x: int) {
    exists i: nat :: x == SeqAt(mss, i)
  }

  ghost function Step(mss: int, s: Trace, ev: Event): Outcome<Trace> {
    match ev
    case Arrival(packet, tcp) =>
      Defined(Trace(Arrive(mss, s.b, packet, tcp), s.emitted, if tcp then s.arrived + [packet] else s.arrived))
    case Output =>
      match Fire(s.b)
      case Undefined => Undefined
      case Defined((out, b)) => Defined(s.(b := b, emitted := s.emitted + [out]))
  }

  ghost predicate Runs(mss: int, s: Trace, evs: seq<Event>, t: Trace)
    decreases |evs|
  {
    if evs == [] then s == t
    else Allowed(mss, s, evs[0]) && Step(mss, s, evs[0]).Defined? && Runs(mss, Step(mss, s, evs[0]).value, evs[1..], t)
  }

  /** The packets of one port, in order. */
  function OnPort(out: seq<Outgoing>, port: int): seq<Packet> {
    if out == [] then []
    else
      var before := OnPort(out[..|out| - 1], port);
      if out[|out| - 1].port == port then before + [out[|out| - 1].packet] else before
  }

  lemma OnPortSnoc(out: seq<Outgoing>, o: Outgoing, port: int)
    ensures OnPort(out + [o], port) == if o.port == port then OnPort(out, port) + [o.packet] else OnPort(out, port)
  {
    assert (out + [o])[..|out|] == out;
  }

  /** The packets of the ordered port, in order. */
  function Stream(out: seq<Outgoing>): seq<Packet> {
    OnPort(out, ORDERED)
  }

  lemma StreamSnoc(out: seq<Outgoing>, o: Outgoing)
    ensures Stream(out + [o]) == if o.port == ORDERED then Stream(out) + [o.packet] else Stream(out)
  {
    OnPortSnoc(out, o, ORDERED);
  }

  /** The packet is the earliest arrival with its sequence number. */
  ghost predicate Earliest(arrived: seq<Packet>, q: Packet) {
    exists j :: 0 <= j < |arrived| && arrived[j] == q && forall i :: 0 <= i < j ==> arrived[i].seqNumber != q.seqNumber
  }

  ghost predicate Received(arrived: seq<Packet>, x: int) {
    exists j :: 0 <= j < |arrived| && arrived[j].seqNumber == x
  }

  // ----- the invariant -----

  ghost predicate InSequence(mss: int, stream: seq<Packet>, arrived: seq<Packet>) {
    forall i :: 0 <= i < |stream| ==> stream[i].seqNumber == SeqAt(mss, i) && Earliest(arrived, stream[i])
  }

  ghost predicate HeldSound(mss: int, next: int, held: map<U32, Packet>, arrived: seq<Packet>) {
    forall k :: k in held ==>
      held[k].seqNumber == k && k >= next && OnGrid(mss, k) && Earliest(arrived, held[k])
  }

  ghost predicate NothingLost(next: int, held: map<U32, Packet>, arrived: seq<Packet>) {
    forall j :: 0 <= j < |arrived| ==> arrived[j].seqNumber < next || arrived[j].seqNumber in held
  }

  /** `stream` is what the ordered port has carried or will carry from the queue. The number after it is known
      to the model modulo 2^32 only. */
  ghost predicate Sorted(mss: int, b: Buffer, stream: seq<Packet>, arrived: seq<Packet>) {
    var next := SeqAt(mss, |stream|);
    && b.next == Wrap(next)
    && InSequence(mss, stream, arrived)
    && HeldSound(mss, next, b.held, arrived)
    && NothingLost(next, b.held, arrived)
  }

  ghost predicate TimerInv(b: Buffer) {
    b.sigma == if b.queue == [] then Infinite else Finite(0.0)
  }

  ghost predicate Inv(mss: int, s: Trace) {
    var stream := Carried(s);
    && Sorted(mss, s.b, stream, s.arrived)
    && (SeqAt(mss, |stream|) < MODULUS ==> s.b.next !in s.b.held)
    && TimerInv(s.b)
  }

  /** What the ordered port has carried or will carry. */
  function Carried(s: Trace): seq<Packet> {
    Stream(s.emitted + s.b.queue)
  }

  /** Every number of the grid below 2^32 was received. */
  ghost predicate Exhausted(mss: int, arrived: seq<Packet>) {
    forall i: nat :: SeqAt(mss, i) < MODULUS ==> Received(arrived, SeqAt(mss, i))
  }

  /** A segment size as the source can hold it. */
  predicate IsSegmentSize(mss: int) {
    1 <= mss < 0x8000_0000
  }

  lemma StepsApart(mss: int, i: int, d: nat)
    requires mss >= 1
    ensures (i + d + 1) * mss == i * mss + mss + d * mss >= i * mss + mss
  {
  }

  lemma GridSteps(mss: int, i: int, j: int)
    requires mss >= 1
    ensures SeqAt(mss, i) < SeqAt(mss, j) <==> i < j
    ensures SeqAt(mss, i + 1) == SeqAt(mss, i) + mss
    ensures i < j ==> SeqAt(mss, i) + mss <= SeqAt(mss, j)
  {
    if i < j {
      StepsApart(mss, i, j - i - 1);
    } else if j < i {
      StepsApart(mss, j, i - j - 1);
    }
  }

  /** The expected number is the one after the stream as long as that fits. */
  lemma NextFits(mss: int, n: nat)
    requires mss >= 1
    ensures SeqAt(mss, n) >= 1 && (SeqAt(mss, n) < MODULUS ==> Wrap(SeqAt(mss, n)) == SeqAt(mss, n))
  {
    GridSteps(mss, n, 0);
  }

  /** Forwarding the expected packet, which is in `held` or has just arrived. */
  lemma ForwardKeepsSorted(mss: int, b: Buffer, packet: Packet, stream: seq<Packet>, arrived: seq<Packet>)
    requires mss >= 1 && b.next == SeqAt(mss, |stream|) == packet.seqNumber
    requires InSequence(mss, stream, arrived) && HeldSound(mss, b.next, b.held, arrived)
    requires Earliest(arrived, packet)
    requires NothingLost(b.next + 1, b.held, arrived)
    ensures var c := b.(next := Wrap(b.next + mss), held := b.held - {b.next});
            Sorted(mss, c, stream + [packet], arrived)
  {
    hide SeqAt, Earliest;
    GridSteps(mss, |stream|, 0);
    HeldBeyond(mss, b, |stream|);
  }

  /** Held packets after the next one are at least one segment further. */
  lemma HeldBeyond(mss: int, b: Buffer, n: nat)
    requires mss >= 1 && b.next == SeqAt(mss, n)
    requires forall k :: k in b.held ==> k >= b.next && OnGrid(mss, k)
    ensures forall k :: k in b.held && k != b.next ==> k >= b.next + mss
  {
    hide SeqAt;
    forall k | k in b.held && k != b.next
      ensures k >= b.next + mss
    {
      var i: nat :| k == SeqAt(mss, i);
      GridSteps(mss, n, i);
    }
  }

  /** One turn of the loop. */
  ghost function Forwarded(mss: int, b: Buffer): Buffer
    requires b.next in b.held
  {
    b.(next := Wrap(b.next + mss), held := b.held - {b.next}, queue := b.queue + [Outgoing(ORDERED, b.held[b.next])])
  }

  lemma TurnStream(mss: int, b: Buffer, emitted: seq<Outgoing>)
    requires b.next in b.held
    ensures Stream(emitted + Forwarded(mss, b).queue) == Stream(emitted + b.queue) + [b.held[b.next]]
  {
    var o := Outgoing(ORDERED, b.held[b.next]);
    assert emitted + (b.queue + [o]) == emitted + b.queue + [o];
    StreamSnoc(emitted + b.queue, o);
  }

  lemma HeldIsExpected(mss: int, b: Buffer, stream: seq<Packet>, arrived: seq<Packet>)
    requires mss >= 1 && Sorted(mss, b, stream, arrived) && b.next in b.held
    ensures b.next == SeqAt(mss, |stream|) == b.held[b.next].seqNumber && Earliest(arrived, b.held[b.next])
    ensures NothingLost(b.next + 1, b.held, arrived)
  {
    NextFits(mss, |stream|);
    hide SeqAt, Earliest, OnGrid, Wrap;
    assert b.held[b.next].seqNumber < MODULUS;
  }

  lemma TurnKeepsSorted(mss: int, b: Buffer, emitted: seq<Outgoing>, arrived: seq<Packet>)
    requires mss >= 1 && Sorted(mss, b, Stream(emitted + b.queue), arrived) && b.next in b.held
    ensures Sorted(mss, Forwarded(mss, b), Stream(emitted + Forwarded(mss, b).queue), arrived)
  {
    var stream, packet := Stream(emitted + b.queue), b.held[b.next];
    HeldIsExpected(mss, b, stream, arrived);
    hide SeqAt, Earliest, Stream, InSequence, NothingLost, HeldSound, Wrap;
    TurnStream(mss, b, emitted);
    ForwardKeepsSorted(mss, b, packet, stream, arrived);
    SortedIgnoresQueue(mss, b.(next := Wrap(b.next + mss), held := b.held - {b.next}), Forwarded(mss, b),
                       stream + [packet], arrived);
  }

  lemma SortedIgnoresQueue(mss: int, b: Buffer, c: Buffer, stream: seq<Packet>, arrived: seq<Packet>)
    requires Sorted(mss, b, stream, arrived) && c.next == b.next && c.held == b.held
    ensures Sorted(mss, c, stream, arrived)
  {
  }

  lemma FirstIsNext(mss: int, b: Buffer, stream: seq<Packet>, arrived: seq<Packet>)
    requires mss >= 1 && Sorted(mss, b, stream, arrived) && SeqAt(mss, |stream|) < MODULUS && b.next in b.held
    ensures IsFirstKey(b.held, b.next)
  {
    NextFits(mss, |stream|);
    hide SeqAt, Wrap;
  }

  lemma {:induction false} DrainKeepsSorted(mss: int, b: Buffer, emitted: seq<Outgoing>, arrived: seq<Packet>)
    requires mss >= 1 && Sorted(mss, b, Stream(emitted + b.queue), arrived)
    ensures var c := Drain(mss, b);
            var stream := Stream(emitted + c.queue);
            && Sorted(mss, c, stream, arrived) && c.sigma == b.sigma
            && (SeqAt(mss, |stream|) < MODULUS ==> c.next !in c.held)
    decreases |b.held|
  {
    hide Sorted, SeqAt, Stream, Wrap;
    if IsFirstKey(b.held, b.next) {
      TurnKeepsSorted(mss, b, emitted, arrived);
      DrainKeepsSorted(mss, Forwarded(mss, b), emitted, arrived);
    } else if SeqAt(mss, |Stream(emitted + b.queue)|) < MODULUS && b.next in b.held {
      FirstIsNext(mss, b, Stream(emitted + b.queue), arrived);
    }
  }

  lemma ArrivedGrows(arrived: seq<Packet>, packet: Packet, q: Packet)
    requires Earliest(arrived, q)
    ensures Earliest(arrived + [packet], q)
  {
    var j :| 0 <= j < |arrived| && arrived[j] == q && forall i :: 0 <= i < j ==> arrived[i].seqNumber != q.seqNumber;
    assert (arrived + [packet])[j] == q;
  }

  lemma NewIsEarliest(arrived: seq<Packet>, packet: Packet)
    requires forall i :: 0 <= i < |arrived| ==> arrived[i].seqNumber != packet.seqNumber
    ensures Earliest(arrived + [packet], packet)
  {
    assert (arrived + [packet])[|arrived|] == packet;
  }

  /** Recording the arrival keeps everything already known about earlier packets. */
  lemma RecordArrival(mss: int, next: int, b: Buffer, stream: seq<Packet>, arrived: seq<Packet>, packet: Packet)
    requires InSequence(mss, stream, arrived) && HeldSound(mss, next, b.held, arrived) && NothingLost(next, b.held, arrived)
    ensures InSequence(mss, stream, arrived + [packet]) && HeldSound(mss, next, b.held, arrived + [packet])
    ensures packet.seqNumber < next || packet.seqNumber in b.held ==> NothingLost(next, b.held, arrived + [packet])
    ensures packet.seqNumber == next ==> NothingLost(next + 1, b.held, arrived + [packet])
    ensures NothingLost(next, b.held[packet.seqNumber := packet], arrived + [packet])
  {
    hide SeqAt, Earliest, OnGrid;
    forall q | Earliest(arrived, q)
      ensures Earliest(arrived + [packet], q)
    {
      ArrivedGrows(arrived, packet, q);
    }
  }

  lemma HoldKeepsSorted(mss: int, b: Buffer, stream: seq<Packet>, arrived: seq<Packet>, packet: Packet)
    requires Sorted(mss, b, stream, arrived) && packet.seqNumber > SeqAt(mss, |stream|) && packet.seqNumber !in b.held
    requires OnGrid(mss, packet.seqNumber)
    ensures Sorted(mss, b.(held := b.held[packet.seqNumber := packet]), stream, arrived + [packet])
  {
    hide SeqAt, Earliest, OnGrid, Wrap;
    RecordArrival(mss, SeqAt(mss, |stream|), b, stream, arrived, packet);
    NewIsEarliest(arrived, packet);
  }

  lemma ExpectedKeepsSorted(mss: int, s: Trace, packet: Packet)
    requires mss >= 1 && Inv(mss, s) && packet.seqNumber == s.b.next == SeqAt(mss, |Carried(s)|)
    ensures var c := s.b.(next := Wrap(s.b.next + mss), queue := s.b.queue + [Outgoing(ORDERED, packet)]);
            Sorted(mss, c, Stream(s.emitted + c.queue), s.arrived + [packet])
  {
    var b, stream, o := s.b, Carried(s), Outgoing(ORDERED, packet);
    hide SeqAt, Earliest, OnGrid, Stream, InSequence, Wrap;
    RecordArrival(mss, b.next, b, stream, s.arrived, packet);
    NewIsEarliest(s.arrived, packet);
    assert s.emitted + (b.queue + [o]) == s.emitted + b.queue + [o];
    StreamSnoc(s.emitted + b.queue, o);
    ForwardKeepsSorted(mss, b, packet, stream, s.arrived + [packet]);
    assert b.held - {b.next} == b.held;
  }

  lemma ProcessKeepsSorted(mss: int, s: Trace, packet: Packet)
    requires mss >= 1 && Inv(mss, s) && OnGrid(mss, packet.seqNumber) && SeqAt(mss, |Carried(s)|) < MODULUS
    ensures var c := Process(mss, s.b, packet);
            var stream := Stream(s.emitted + c.queue);
            && Sorted(mss, c, stream, s.arrived + [packet]) && c.sigma == s.b.sigma
            && (SeqAt(mss, |stream|) < MODULUS ==> c.next !in c.held)
  {
    NextFits(mss, |Carried(s)|);
    hide SeqAt, OnGrid, Stream, InSequence, HeldSound, NothingLost, Wrap, Drain;
    if packet.seqNumber < s.b.next || packet.seqNumber in s.b.held {
      RecordArrival(mss, s.b.next, s.b, Carried(s), s.arrived, packet);
    } else if packet.seqNumber == s.b.next {
      ExpectedKeepsSorted(mss, s, packet);
      var c := s.b.(next := Wrap(s.b.next + mss), queue := s.b.queue + [Outgoing(ORDERED, packet)]);
      DrainKeepsSorted(mss, c, s.emitted, s.arrived + [packet]);
    } else {
      HoldKeepsSorted(mss, s.b, Carried(s), s.arrived, packet);
    }
  }

  /** The copy on the port of its kind changes neither stream nor buffer. */
  lemma CopyKeepsInv(mss: int, s: Trace, c: Buffer, o: Outgoing, t: Trace)
    requires Sorted(mss, c, Stream(s.emitted + c.queue), t.arrived) && o.port != ORDERED
    requires SeqAt(mss, |Stream(s.emitted + c.queue)|) < MODULUS ==> c.next !in c.held
    requires t.emitted == s.emitted && t.b == c.(queue := c.queue + [o], sigma := Finite(0.0))
    ensures Inv(mss, t) && Carried(t) == Stream(s.emitted + c.queue)
  {
    hide SeqAt, Stream, InSequence, HeldSound, NothingLost;
    assert t.emitted + t.b.queue == s.emitted + c.queue + [o];
    StreamSnoc(s.emitted + c.queue, o);
  }

  lemma ArrivalKeepsInv(mss: int, s: Trace, packet: Packet, tcp: bool)
    requires mss >= 1 && Inv(mss, s) && Allowed(mss, s, Arrival(packet, tcp))
    requires tcp ==> SeqAt(mss, |Carried(s)|) < MODULUS
    ensures Inv(mss, Step(mss, s, Arrival(packet, tcp)).value)
  {
    hide SeqAt, Process, Sorted, Stream;
    var t := Step(mss, s, Arrival(packet, tcp)).value;
    if tcp {
      ProcessKeepsSorted(mss, s, packet);
    }
    var c := if tcp then Process(mss, s.b, packet) else s.b;
    CopyKeepsInv(mss, s, c, Outgoing(if tcp then ALL_TCP else NON_TCP, packet), t);
  }

  lemma OutputKeepsInv(mss: int, s: Trace)
    requires mss >= 1 && Inv(mss, s) && Allowed(mss, s, Output)
    ensures Step(mss, s, Output).Defined? && Inv(mss, Step(mss, s, Output).value)
    ensures Carried(Step(mss, s, Output).value) == Carried(s)
  {
    hide SeqAt, Stream, InSequence, HeldSound, NothingLost;
    var t := Step(mss, s, Output).value;
    assert t.emitted + t.b.queue == s.emitted + s.b.queue;
  }

  // ----- when the numbers run out -----

  /** Beyond the last number of the grid below 2^32, the model still holds a packet or has forwarded another. */
  ghost predicate Broken(mss: int, s: Trace) {
    var n := |Carried(s)|;
    && Exhausted(mss, s.arrived)
    && SeqAt(mss, n) >= MODULUS
    && (s.b.held != map[] || SeqAt(mss, n - 1) >= MODULUS)
    && TimerInv(s.b)
  }

  /** What the model promises: the ordered port carries 1, 1 + MSS, ... without gap or repetition; this is the
      longest contiguous prefix of what was received; exactly the received packets beyond it are held; each
      number is represented by its earliest arrival; an output is pending exactly when the queue is not empty. */
  ghost predicate Promise(mss: int, s: Trace) {
    var stream := Carried(s);
    && (forall i :: 0 <= i < |stream| ==> stream[i].seqNumber == SeqAt(mss, i) && Earliest(s.arrived, stream[i]))
    && !Received(s.arrived, SeqAt(mss, |stream|))
    && (forall k: U32 :: k in s.b.held <==> k > SeqAt(mss, |stream|) && Received(s.arrived, k))
    && (forall k :: k in s.b.held ==> s.b.held[k].seqNumber == k && Earliest(s.arrived, s.b.held[k]))
    && TimerInv(s.b)
  }

  /** What is held was received and lies beyond the stream. */
  lemma HeldWasReceived(mss: int, s: Trace, k: U32)
    requires mss >= 1 && Inv(mss, s) && k in s.b.held
    ensures k > SeqAt(mss, |Carried(s)|) && Received(s.arrived, k)
  {
    NextFits(mss, |Carried(s)|);
    hide SeqAt, Stream, Wrap, InSequence, NothingLost, OnGrid;
    var j :| 0 <= j < |s.arrived| && s.arrived[j] == s.b.held[k];
  }

  /** What was received beyond the stream is held. */
  lemma ReceivedIsHeld(mss: int, s: Trace, k: U32)
    requires mss >= 1 && Inv(mss, s) && k >= SeqAt(mss, |Carried(s)|) && Received(s.arrived, k)
    ensures k in s.b.held
  {
    hide SeqAt, Stream, Wrap, InSequence, HeldSound;
  }

  lemma NextNotReceived(mss: int, s: Trace)
    requires mss >= 1 && Inv(mss, s)
    ensures !Received(s.arrived, SeqAt(mss, |Carried(s)|))
  {
    var next := SeqAt(mss, |Carried(s)|);
    NextFits(mss, |Carried(s)|);
    if Received(s.arrived, next) {
      assert next < MODULUS;
      ReceivedIsHeld(mss, s, next);
      HeldWasReceived(mss, s, next);
      assert false;
    }
  }

  lemma InvMeansPromise(mss: int, s: Trace)
    requires mss >= 1 && Inv(mss, s)
    ensures Promise(mss, s)
  {
    NextNotReceived(mss, s);
    forall k: U32
      ensures k in s.b.held <==> k > SeqAt(mss, |Carried(s)|) && Received(s.arrived, k)
    {
      if k in s.b.held {
        HeldWasReceived(mss, s, k);
      } else if k > SeqAt(mss, |Carried(s)|) && Received(s.arrived, k) {
        ReceivedIsHeld(mss, s, k);
      }
    }
    hide SeqAt, Stream, Received, NothingLost;
  }

  lemma BrokenMeansNoPromise(mss: int, s: Trace)
    requires mss >= 1 && Broken(mss, s)
    ensures !Promise(mss, s)
  {
    hide SeqAt, Stream;
    var stream := Carried(s);
    SeqAtZero(mss);
    if s.b.held != map[] {
      var k :| k in s.b.held;
      assert k < MODULUS;
    } else {
      assert |stream| > 0;
      assert stream[|stream| - 1].seqNumber < MODULUS;
    }
  }

  lemma SeqAtZero(mss: int)
    ensures SeqAt(mss, 0) == 1
  {
  }

  /** In a sound state the grid is exhausted exactly when the stream has run past its last number. */
  lemma ExhaustedIffPast(mss: int, s: Trace)
    requires mss >= 1 && Inv(mss, s)
    ensures Exhausted(mss, s.arrived) <==> SeqAt(mss, |Carried(s)|) >= MODULUS
  {
    InvMeansPromise(mss, s);
    hide Inv, Stream;
    var stream := Carried(s);
    if SeqAt(mss, |stream|) >= MODULUS {
      forall i: nat | SeqAt(mss, i) < MODULUS
        ensures Received(s.arrived, SeqAt(mss, i))
      {
        GridSteps(mss, i, |stream|);
        assert Earliest(s.arrived, stream[i]);
      }
    }
  }

  lemma ExhaustedGrows(mss: int, arrived: seq<Packet>, packet: Packet)
    requires Exhausted(mss, arrived)
    ensures Exhausted(mss, arrived + [packet])
  {
    hide SeqAt;
    forall i: nat | SeqAt(mss, i) < MODULUS
      ensures Received(arrived + [packet], SeqAt(mss, i))
    {
      assert Received(arrived, SeqAt(mss, i));
      var j :| 0 <= j < |arrived| && arrived[j].seqNumber == SeqAt(mss, i);
      assert (arrived + [packet])[j].seqNumber == SeqAt(mss, i);
    }
  }

  /** Draining only lengthens the stream. */
  lemma {:induction false} DrainLengthens(mss: int, b: Buffer, emitted: seq<Outgoing>)
    ensures var c := Drain(mss, b);
            && |Stream(emitted + c.queue)| >= |Stream(emitted + b.queue)| && c.sigma == b.sigma
            && (|Stream(emitted + c.queue)| == |Stream(emitted + b.queue)| ==> c == b)
    decreases |b.held|
  {
    hide Stream;
    if IsFirstKey(b.held, b.next) {
      var o := Outgoing(ORDERED, b.held[b.next]);
      var c := b.(next := Wrap(b.next + mss), held := b.held - {b.next}, queue := b.queue + [o]);
      assert emitted + c.queue == emitted + b.queue + [o];
      StreamSnoc(emitted + b.queue, o);
      DrainLengthens(mss, c, emitted);
    }
  }

  /** An arrival is dropped, held, or lengthens the stream. */
  lemma ProcessCases(mss: int, s: Trace, packet: Packet)
    ensures var c := Process(mss, s.b, packet);
            var before, after := |Carried(s)|, |Stream(s.emitted + c.queue)|;
            && (packet.seqNumber < s.b.next || packet.seqNumber in s.b.held ==> c == s.b)
            && (packet.seqNumber == s.b.next && packet.seqNumber !in s.b.held ==> after > before)
            && (packet.seqNumber > s.b.next && packet.seqNumber !in s.b.held ==>
                  after == before && c == s.b.(held := s.b.held[packet.seqNumber := packet]))
  {
    hide Stream, Drain;
    if packet.seqNumber == s.b.next && packet.seqNumber !in s.b.held {
      var o := Outgoing(ORDERED, packet);
      var c := s.b.(next := Wrap(s.b.next + mss), queue := s.b.queue + [o]);
      assert s.emitted + c.queue == s.emitted + s.b.queue + [o];
      StreamSnoc(s.emitted + s.b.queue, o);
      DrainLengthens(mss, c, s.emitted);
    }
  }

  lemma ArrivalEffect(mss: int, s: Trace, packet: Packet, tcp: bool)
    ensures var t := Step(mss, s, Arrival(packet, tcp)).value;
            var c := if tcp then Process(mss, s.b, packet) else s.b;
            && Carried(t) == Stream(s.emitted + c.queue) && t.b.held == c.held && t.b.next == c.next && TimerInv(t.b)
            && t.arrived == (if tcp then s.arrived + [packet] else s.arrived)
  {
    hide Stream, Process;
    var t := Step(mss, s, Arrival(packet, tcp)).value;
    var c := if tcp then Process(mss, s.b, packet) else s.b;
    var o := Outgoing(if tcp then ALL_TCP else NON_TCP, packet);
    assert t.emitted + t.b.queue == s.emitted + c.queue + [o];
    StreamSnoc(s.emitted + c.queue, o);
  }

  /** Once broken, always broken. */
  lemma BrokenStays(mss: int, s: Trace, ev: Event)
    requires mss >= 1 && Broken(mss, s) && Allowed(mss, s, ev)
    ensures Step(mss, s, ev).Defined? && Broken(mss, Step(mss, s, ev).value)
  {
    hide SeqAt, Stream, Process, Exhausted;
    var t := Step(mss, s, ev).value;
    match ev
    case Arrival(packet, tcp) =>
      ArrivalEffect(mss, s, packet, tcp);
      if tcp {
        ProcessCases(mss, s, packet);
        ExhaustedGrows(mss, s.arrived, packet);
        GridSteps(mss, |Carried(s)|, |Carried(t)|);
        GridSteps(mss, |Carried(s)|, |Carried(t)| - 1);
      }
    case Output =>
      assert t.emitted + t.b.queue == s.emitted + s.b.queue;
  }

  /** An arrival after the numbers ran out is dropped or breaks the model. */
  lemma ArrivalTooLate(mss: int, s: Trace, packet: Packet)
    requires mss >= 1 && Inv(mss, s) && SeqAt(mss, |Carried(s)|) >= MODULUS
    ensures var t := Step(mss, s, Arrival(packet, true)).value;
            if packet.seqNumber < s.b.next then Inv(mss, t) && Carried(t) == Carried(s) else Broken(mss, t)
  {
    ExhaustedIffPast(mss, s);
    var t := Step(mss, s, Arrival(packet, true)).value;
    var stream := Carried(s);
    assert s.b.held == map[] by {
      hide SeqAt, Stream, Wrap;
      assert forall k :: k in s.b.held ==> k < MODULUS;
    }
    hide SeqAt, Stream, Process, Exhausted, Wrap;
    ArrivalEffect(mss, s, packet, true);
    ProcessCases(mss, s, packet);
    ExhaustedGrows(mss, s.arrived, packet);
    if packet.seqNumber < s.b.next {
      RecordArrival(mss, SeqAt(mss, |stream|), s.b, stream, s.arrived, packet);
    } else {
      GridSteps(mss, |stream|, |Carried(t)|);
      GridSteps(mss, |stream|, |Carried(t)| - 1);
    }
  }

  ghost predicate Fate(mss: int, s: Trace) {
    Inv(mss, s) || Broken(mss, s)
  }

  lemma StepKeepsFate(mss: int, s: Trace, ev: Event)
    requires mss >= 1 && Fate(mss, s) && Allowed(mss, s, ev)
    ensures Step(mss, s, ev).Defined? && Fate(mss, Step(mss, s, ev).value)
  {
    hide Inv, Broken, Arrive, SeqAt;
    if Broken(mss, s) {
      BrokenStays(mss, s, ev);
    } else {
      match ev
      case Arrival(packet, tcp) =>
        if tcp && SeqAt(mss, |Carried(s)|) >= MODULUS {
          ArrivalTooLate(mss, s, packet);
        } else {
          ArrivalKeepsInv(mss, s, packet, tcp);
        }
      case Output => OutputKeepsInv(mss, s);
    }
  }

  lemma {:induction false} RunKeepsFate(mss: int, s: Trace, evs: seq<Event>, t: Trace)
    requires mss >= 1 && Fate(mss, s) && Runs(mss, s, evs, t)
    ensures Fate(mss, t)
    decreases |evs|
  {
    hide Fate, Allowed, Step;
    if evs != [] {
      StepKeepsFate(mss, s, evs[0]);
      RunKeepsFate(mss, Step(mss, s, evs[0]).value, evs[1..], t);
    }
  }

  lemma EveryRunHasFate(mss: int, evs: seq<Event>, s: Trace)
    requires mss >= 1 && Runs(mss, EMPTY, evs, s)
    ensures Fate(mss, s)
  {
    SeqAtZero(mss);
    hide SeqAt;
    assert Inv(mss, EMPTY);
    RunKeepsFate(mss, EMPTY, evs, s);
  }

  // ----- the results -----

  /** Main result: for every interleaving of arrivals and outputs, the promise is kept until every number of the
      grid below 2^32 was received, whatever was received early. */
  lemma OrderedPortIsLongestPrefix(mss: int, evs: seq<Event>, s: Trace)
    requires IsSegmentSize(mss) && Runs(mss, EMPTY, evs, s) && !Exhausted(mss, s.arrived)
    ensures Promise(mss, s)
  {
    EveryRunHasFate(mss, evs, s);
    InvMeansPromise(mss, s);
  }

  /** n numbers of the grid were received without gap, and no more. */
  ghost predicate LongestPrefix(mss: int, arrived: seq<Packet>, n: nat) {
    (forall i :: 0 <= i < n ==> Received(arrived, SeqAt(mss, i))) && !Received(arrived, SeqAt(mss, n))
  }

  /** Main result: the promise survives every further arrival if and only if the longest received prefix has not
      run past the last number of the grid below 2^32. The arrival that completes the grid does no harm. */
  lemma PromiseSurvivesIff(mss: int, evs: seq<Event>, s: Trace, n: nat)
    requires IsSegmentSize(mss) && Runs(mss, EMPTY, evs, s) && LongestPrefix(mss, s.arrived, n)
    ensures (forall packet, tcp :: Allowed(mss, s, Arrival(packet, tcp)) ==>
                                     Promise(mss, Step(mss, s, Arrival(packet, tcp)).value))
            <==> SeqAt(mss, n) < MODULUS
  {
    hide Runs, Promise, Inv, Broken, Arrive, Exhausted, LongestPrefix;
    EveryRunHasFate(mss, evs, s);
    PrefixTellsExhausted(mss, s.arrived, n);
    if SeqAt(mss, n) < MODULUS {
      NotExhaustedIsSound(mss, s);
      forall packet, tcp | Allowed(mss, s, Arrival(packet, tcp))
        ensures Promise(mss, Step(mss, s, Arrival(packet, tcp)).value)
      {
        ArrivalKeepsInv(mss, s, packet, tcp);
        InvMeansPromise(mss, Step(mss, s, Arrival(packet, tcp)).value);
      }
    } else {
      var packet, tcp := HarmfulArrival(mss, s);
    }
  }

  lemma NotExhaustedIsSound(mss: int, s: Trace)
    requires mss >= 1 && Fate(mss, s) && !Exhausted(mss, s.arrived)
    ensures Inv(mss, s) && SeqAt(mss, |Carried(s)|) < MODULUS
  {
    assert Inv(mss, s);
    ExhaustedIffPast(mss, s);
  }

  lemma PrefixTellsExhausted(mss: int, arrived: seq<Packet>, n: nat)
    requires mss >= 1 && LongestPrefix(mss, arrived, n)
    ensures Exhausted(mss, arrived) <==> SeqAt(mss, n) >= MODULUS
  {
    if SeqAt(mss, n) >= MODULUS {
      forall i: nat | SeqAt(mss, i) < MODULUS
        ensures Received(arrived, SeqAt(mss, i))
      {
        GridSteps(mss, i, n);
      }
    }
  }

  /** The second packet of the session, once more, is taken for a packet of the future. */
  lemma HarmfulArrival(mss: int, s: Trace) returns (packet: Packet, tcp: bool)
    requires IsSegmentSize(mss) && Fate(mss, s) && Exhausted(mss, s.arrived)
    ensures Allowed(mss, s, Arrival(packet, tcp)) && !Promise(mss, Step(mss, s, Arrival(packet, tcp)).value)
  {
    hide Promise, Arrive, Exhausted, Received, Inv;
    packet, tcp := Packet(1 + mss, 0), !Broken(mss, s);
    assert packet.seqNumber == SeqAt(mss, 1);
    if tcp {
      ExhaustedIffPast(mss, s);
      NextAfterWrap(mss, s);
      ArrivalTooLate(mss, s, packet);
    } else {
      BrokenStays(mss, s, Arrival(packet, tcp));
    }
    BrokenMeansNoPromise(mss, Step(mss, s, Arrival(packet, tcp)).value);
  }

  /** When the numbers ran out the expected number is below the segment size. */
  lemma NextAfterWrap(mss: int, s: Trace)
    requires IsSegmentSize(mss) && Inv(mss, s) && SeqAt(mss, |Carried(s)|) >= MODULUS
    ensures s.b.next == SeqAt(mss, |Carried(s)|) - MODULUS < mss
  {
    var n := |Carried(s)|;
    SeqAtZero(mss);
    GridSteps(mss, n - 1, n);
    hide SeqAt, Stream;
    assert Carried(s)[n - 1].seqNumber < MODULUS;
  }

  lemma ForwardedAgainIff(mss: int, s: Trace, packet: Packet)
    requires IsSegmentSize(mss) && Inv(mss, s) && SeqAt(mss, |Carried(s)|) >= MODULUS && OnGrid(mss, packet.seqNumber)
    ensures |Carried(Step(mss, s, Arrival(packet, true)).value)| > |Carried(s)|
            <==> packet.seqNumber == 1 && SeqAt(mss, |Carried(s)|) == MODULUS + 1
  {
    NextAfterWrap(mss, s);
    var i: nat :| packet.seqNumber == SeqAt(mss, i);
    SeqAtZero(mss);
    GridSteps(mss, 0, i);
    assert s.b.held == map[] by {
      hide SeqAt, Stream, Wrap;
      assert forall k :: k in s.b.held ==> k < MODULUS;
    }
    hide SeqAt, Stream, Process, Inv;
    ArrivalEffect(mss, s, packet, true);
    ProcessCases(mss, s, packet);
  }

  /** What happens then: an old packet is delivered again exactly when the segment size meets 2^32, so that the
      expected number comes back to 1; for every other segment size the ordered port stays silent. */
  lemma OldPacketDeliveredIff(mss: int, evs: seq<Event>, s: Trace, packet: Packet)
    requires IsSegmentSize(mss) && Runs(mss, EMPTY, evs, s) && Promise(mss, s) && Exhausted(mss, s.arrived)
    requires OnGrid(mss, packet.seqNumber)
    ensures |Carried(Step(mss, s, Arrival(packet, true)).value)| > |Carried(s)|
            <==> packet.seqNumber == 1 && SeqAt(mss, |Carried(s)|) == MODULUS + 1
  {
    hide Runs, Promise, Inv, Broken, Step, Exhausted, OnGrid;
    EveryRunHasFate(mss, evs, s);
    if Broken(mss, s) {
      BrokenMeansNoPromise(mss, s);
    }
    ExhaustedIffPast(mss, s);
    ForwardedAgainIff(mss, s, packet);
  }

  lemma OffGridNeverForwards(mss: int, s: Trace, ev: Event)
    requires !OnGrid(mss, s.b.next) && (forall k :: k in s.b.held ==> OnGrid(mss, k)) && Allowed(mss, s, ev)
    requires Step(mss, s, ev).Defined?
    ensures var t := Step(mss, s, ev).value;
            t.b.next == s.b.next && (forall k :: k in t.b.held ==> OnGrid(mss, k)) && Carried(t) == Carried(s)
  {
    hide Stream, Process, OnGrid;
    match ev
    case Arrival(packet, tcp) =>
      ArrivalEffect(mss, s, packet, tcp);
      ProcessCases(mss, s, packet);
    case Output =>
      var t := Step(mss, s, ev).value;
      assert t.emitted + t.b.queue == s.emitted + s.b.queue;
  }

  lemma {:induction false} OffGridRunIsSilent(mss: int, s: Trace, evs: seq<Event>, t: Trace)
    requires !OnGrid(mss, s.b.next) && (forall k :: k in s.b.held ==> OnGrid(mss, k)) && Runs(mss, s, evs, t)
    ensures Carried(t) == Carried(s)
    decreases |evs|
  {
    hide OnGrid, Step, Allowed, Carried;
    if evs != [] {
      OffGridNeverForwards(mss, s, evs[0]);
      OffGridRunIsSilent(mss, Step(mss, s, evs[0]).value, evs[1..], t);
    }
  }

  /** When the expected number does not come back to 1, the ordered port never carries anything again. */
  lemma SilentForever(mss: int, evs: seq<Event>, s: Trace, more: seq<Event>, t: Trace)
    requires IsSegmentSize(mss) && Runs(mss, EMPTY, evs, s) && Promise(mss, s) && Exhausted(mss, s.arrived)
    requires SeqAt(mss, |Carried(s)|) != MODULUS + 1 && Runs(mss, s, more, t)
    ensures Carried(t) == Carried(s)
  {
    EveryRunHasFate(mss, evs, s);
    if Broken(mss, s) {
      BrokenMeansNoPromise(mss, s);
    }
    ExhaustedIffPast(mss, s);
    NextAfterWrap(mss, s);
    assert !OnGrid(mss, s.b.next) by {
      forall i: nat
        ensures s.b.next != SeqAt(mss, i)
      {
        SeqAtZero(mss);
        GridSteps(mss, 0, i);
      }
    }
    assert forall k :: k in s.b.held ==> OnGrid(mss, k);
    hide Runs, Promise, Exhausted, Inv, OnGrid, SeqAt;
    OffGridRunIsSilent(mss, s, more, t);
  }

  /** It does happen: four packets of 2^30 bytes exhaust the numbers, and the first one is delivered again. */
  lemma WrapDeliversTwice() returns (evs: seq<Event>, s: Trace)
    ensures IsSegmentSize(0x4000_0000) && Runs(0x4000_0000, EMPTY, evs, s)
    ensures Carried(s) == [Packet(1, 7), Packet(0x4000_0001, 7), Packet(0x8000_0001, 7), Packet(0xC000_0001, 7), Packet(1, 7)]
  {
    var mss := 0x4000_0000;
    hide Runs, Allowed, Step, Stream;
    CarriedByEmpty();
    var p0, p1, p2, p3 := Packet(1, 7), Packet(0x4000_0001, 7), Packet(0x8000_0001, 7), Packet(0xC000_0001, 7);
    assert OnGrid(mss, 1) && OnGrid(mss, p1.seqNumber) && OnGrid(mss, p2.seqNumber) && OnGrid(mss, p3.seqNumber) by {
      assert SeqAt(mss, 0) == 1 && SeqAt(mss, 1) == p1.seqNumber && SeqAt(mss, 2) == p2.seqNumber
             && SeqAt(mss, 3) == p3.seqNumber;
    }
    evs, s := [], EMPTY;
    assert Runs(mss, EMPTY, [], EMPTY) by {
      EmptyRun(mss, EMPTY);
    }
    evs, s := ArriveNext(mss, evs, s, p0);
    evs, s := ArriveNext(mss, evs, s, p1);
    evs, s := ArriveNext(mss, evs, s, p2);
    evs, s := ArriveNext(mss, evs, s, p3);
    evs, s := ArriveNext(mss, evs, s, p0);
  }

  lemma CarriedByEmpty()
    ensures Carried(EMPTY) == []
  {
  }

  lemma EmptyRun(mss: int, s: Trace)
    ensures Runs(mss, s, [], s)
  {
  }

  lemma {:induction false} RunExtended(mss: int, s: Trace, evs: seq<Event>, m: Trace, ev: Event)
    requires Runs(mss, s, evs, m) && Allowed(mss, m, ev) && Step(mss, m, ev).Defined?
    ensures Runs(mss, s, evs + [ev], Step(mss, m, ev).value)
    decreases |evs|
  {
    hide Allowed, Step;
    if evs == [] {
      assert ([] + [ev])[1..] == [];
    } else {
      RunExtended(mss, Step(mss, s, evs[0]).value, evs[1..], m, ev);
      assert (evs + [ev])[1..] == evs[1..] + [ev];
    }
  }

  /** The expected packet arrives while nothing is held. */
  lemma ArriveNext(mss: int, evs: seq<Event>, s: Trace, packet: Packet) returns (evs': seq<Event>, t: Trace)
    requires Runs(mss, EMPTY, evs, s) && s.b.held == map[] && packet.seqNumber == s.b.next && OnGrid(mss, packet.seqNumber)
    ensures Runs(mss, EMPTY, evs', t) && t.b.held == map[] && t.b.next == Wrap(s.b.next + mss)
    ensures Carried(t) == Carried(s) + [packet]
  {
    hide Runs, OnGrid;
    var ev := Arrival(packet, true);
    RunExtended(mss, EMPTY, evs, s, ev);
    evs', t := evs + [ev], Step(mss, s, ev).value;
    ArrivalEffect(mss, s, packet, true);
    var o := Outgoing(ORDERED, packet);
    assert s.emitted + (s.b.queue + [o]) == s.emitted + s.b.queue + [o];
    StreamSnoc(s.emitted + s.b.queue, o);
  }

  // ----- the other two ports -----

  /** The packets of one kind among the arrivals, in order. */
  function Arrivals(evs: seq<Event>, tcp: bool): seq<Packet> {
    if evs == [] then []
    else (if evs[0].Arrival? && evs[0].tcp == tcp then [evs[0].packet] else []) + Arrivals(evs[1..], tcp)
  }

  /** Sorting only adds to the ordered port. */
  lemma {:induction false} DrainKeepsPorts(mss: int, b: Buffer, emitted: seq<Outgoing>, port: int)
    requires port != ORDERED
    ensures OnPort(emitted + Drain(mss, b).queue, port) == OnPort(emitted + b.queue, port)
    decreases |b.held|
  {
    hide OnPort;
    if IsFirstKey(b.held, b.next) {
      var o := Outgoing(ORDERED, b.held[b.next]);
      assert emitted + (b.queue + [o]) == emitted + b.queue + [o];
      OnPortSnoc(emitted + b.queue, o, port);
      DrainKeepsPorts(mss, b.(next := Wrap(b.next + mss), held := b.held - {b.next}, queue := b.queue + [o]), emitted, port);
    }
  }

  lemma ProcessKeepsPorts(mss: int, b: Buffer, packet: Packet, emitted: seq<Outgoing>, port: int)
    requires port != ORDERED
    ensures OnPort(emitted + Process(mss, b, packet).queue, port) == OnPort(emitted + b.queue, port)
  {
    hide OnPort, Drain;
    if packet.seqNumber == b.next {
      var o := Outgoing(ORDERED, packet);
      assert emitted + (b.queue + [o]) == emitted + b.queue + [o];
      OnPortSnoc(emitted + b.queue, o, port);
      DrainKeepsPorts(mss, b.(next := Wrap(b.next + mss), queue := b.queue + [o]), emitted, port);
    }
  }

  lemma StepOnPorts(mss: int, s: Trace, ev: Event, tcp: bool)
    requires Step(mss, s, ev).Defined?
    ensures var t, port := Step(mss, s, ev).value, if tcp then ALL_TCP else NON_TCP;
            OnPort(t.emitted + t.b.queue, port)
            == OnPort(s.emitted + s.b.queue, port) + if ev.Arrival? && ev.tcp == tcp then [ev.packet] else []
  {
    hide OnPort, Process;
    var t, port := Step(mss, s, ev).value, if tcp then ALL_TCP else NON_TCP;
    match ev
    case Arrival(packet, isTcp) =>
      var c := if isTcp then Process(mss, s.b, packet) else s.b;
      var o := Outgoing(if isTcp then ALL_TCP else NON_TCP, packet);
      ProcessKeepsPorts(mss, s.b, packet, s.emitted, port);
      assert t.emitted + t.b.queue == s.emitted + c.queue + [o];
      OnPortSnoc(s.emitted + c.queue, o, port);
    case Output =>
      assert t.emitted + t.b.queue == s.emitted + s.b.queue;
  }

  lemma {:induction false} RunOnPorts(mss: int, s: Trace, evs: seq<Event>, t: Trace, tcp: bool)
    requires Runs(mss, s, evs, t)
    ensures var port := if tcp then ALL_TCP else NON_TCP;
            OnPort(t.emitted + t.b.queue, port) == OnPort(s.emitted + s.b.queue, port) + Arrivals(evs, tcp)
    decreases |evs|
  {
    hide OnPort, Step, Allowed;
    if evs != [] {
      StepOnPorts(mss, s, evs[0], tcp);
      RunOnPorts(mss, Step(mss, s, evs[0]).value, evs[1..], t, tcp);
    }
  }

  /** In every run each packet also leaves, or waits to leave, exactly once and in order of arrival on the port of its
      kind. */
  lemma EveryPacketLeavesOnItsPort(mss: int, evs: seq<Event>, s: Trace)
    requires Runs(mss, EMPTY, evs, s)
    ensures OnPort(s.emitted + s.b.queue, ALL_TCP) == Arrivals(evs, true)
    ensures OnPort(s.emitted + s.b.queue, NON_TCP) == Arrivals(evs, false)
  {
    RunOnPorts(mss, EMPTY, evs, s, true);
    RunOnPorts(mss, EMPTY, evs, s, false);
  }

  // ----- the imperative model -----

  class TcpRcvBuffer {
    const mss: int
    var oooBuffer: map<U32, Packet>
    var outputPackets: seq<Outgoing>
    var nextExpectedSeqNumber: U32
    var sigma: Duration

    ghost function State(): Buffer
      reads this
    {
      Buffer(nextExpectedSeqNumber, oooBuffer, outputPackets, sigma)
    }

    constructor (segmentSize: int)
      ensures mss == segmentSize && State() == EMPTY.b
    {
      mss := segmentSize;
      oooBuffer := map[];
      outputPackets := [];
      nextExpectedSeqNumber := 1;
      sigma := Infinite;
    }

    method OnDext(packet: Packet, tcp: bool)
      modifies this
      ensures State() == Arrive(mss, old(State()), packet, tcp)
    {
      var port := NON_TCP;
      if tcp {
        port := ALL_TCP;
        ProcessTcpPacket(packet);
      }
      outputPackets := outputPackets + [Outgoing(port, packet)];
      sigma := Finite(0.0);
    }

    method ProcessTcpPacket(packet: Packet)
      modifies this`oooBuffer, this`outputPackets, this`nextExpectedSeqNumber
      ensures State() == Process(mss, old(State()), packet)
    {
      var seqNumber := packet.seqNumber;
      if seqNumber < nextExpectedSeqNumber {
      } else if seqNumber in oooBuffer {
      } else if seqNumber == nextExpectedSeqNumber {
        nextExpectedSeqNumber := Wrap(nextExpectedSeqNumber + mss);
        outputPackets := outputPackets + [Outgoing(ORDERED, packet)];
        ForwardHeld();
      } else {
        oooBuffer := oooBuffer[seqNumber := packet];
      }
    }

    /** The loop over the sorted map, which restarts at its beginning after every erasure. */
    method ForwardHeld()
      modifies this`oooBuffer, this`outputPackets, this`nextExpectedSeqNumber
      ensures State() == Drain(mss, old(State()))
    {
      var more := true;
      while more
        invariant Drain(mss, State()) == Drain(mss, old(State()))
        invariant !more ==> !IsFirstKey(oooBuffer, nextExpectedSeqNumber)
        decreases more, |oooBuffer|
      {
        more := false;
        if oooBuffer != map[] {
          var begin := Begin();
          if begin == nextExpectedSeqNumber {
            outputPackets := outputPackets + [Outgoing(ORDERED, oooBuffer[begin])];
            nextExpectedSeqNumber := Wrap(nextExpectedSeqNumber + mss);
            oooBuffer := oooBuffer - {begin};
            more := true;
          }
        }
      }
    }

    /** `begin()` of a sorted map. */
    method Begin() returns (k: U32)
      requires oooBuffer != map[]
      ensures IsFirstKey(oooBuffer, k)
    {
      ghost var first := FirstKeyExists(oooBuffer);
      k :| k in oooBuffer && forall j :: j in oooBuffer ==> k <= j;
    }

    method OnLambda() returns (out: Outgoing)
      requires outputPackets != []
      modifies this`outputPackets
      ensures outputPackets == old(outputPackets)[1..] && out == old(outputPackets)[0]
    {
      out := outputPackets[0];
      outputPackets := outputPackets[1..];
    }

    method OnDint()
      modifies this`sigma
      ensures sigma == if outputPackets == [] then Infinite else Finite(0.0)
    {
      if |outputPackets| != 0 {
        sigma := Finite(0.0);
      } else {
        sigma := Infinite;
      }
    }
  }
}
