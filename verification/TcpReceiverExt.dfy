/** The extended TCP receiver of `packettcprcv_ext`: it holds an acknowledgement for a fixed delay and then
    acknowledges everything accepted so far. */
module TcpReceiverExt {
  import opened Devs
  import opened Seq32
  import opened TcpSender

  /** SEQ_NEXT_Expected, arrivedPacket, sigma. The overflow flag of the source tests an unsigned number
      for being negative, so it never fires and is not modelled. */
  datatype ExtReceiver = ExtReceiver(nextExpected: U32, arrived: Option<Packet>, sigma: Duration)

  function InitExtReceiver(): ExtReceiver {
    ExtReceiver(1, None, Infinite)
  }

  function ExtReceive(segmentSize: int, delay: real, r: ExtReceiver, packet: Packet, e: real): ExtReceiver {
    ExtReceiver(
      if packet.seqNumber == r.nextExpected then Wrap(r.nextExpected + segmentSize) else r.nextExpected,
      Some(packet),
      if r.sigma.Infinite? then Finite(delay) else r.sigma.Minus(e))
  }

  /** `lambda` reads the packet that arrived last. */
  function ExtAcknowledge(r: ExtReceiver): Outcome<U32> {
    if r.arrived.None? then Undefined else Defined(r.nextExpected)
  }

  function ExtForget(r: ExtReceiver): ExtReceiver {
    r.(arrived := None, sigma := Infinite)
  }

  class PacketTcpRcvExt {
    const segmentSize: int
    const delayAck: real
    var arrivedPacket: Option<Packet>
    var seqNextExpected: U32
    var sigma: Duration

    ghost function State(): ExtReceiver
      reads this
    {
      ExtReceiver(seqNextExpected, arrivedPacket, sigma)
    }

    /** A negative delay is read as zero. */
    constructor (size: int, delay: real)
      ensures segmentSize == size && delayAck == MaxReal(0.0, delay) && State() == InitExtReceiver()
    {
      segmentSize := size;
      delayAck := if delay < 0.0 then 0.0 else delay;
      arrivedPacket := None;
      seqNextExpected := 1;
      sigma := Infinite;
    }

    method OnDext(packet: Packet, e: real)
      modifies this
      ensures State() == ExtReceive(segmentSize, delayAck, old(State()), packet, e)
    {
      arrivedPacket := Some(packet);
      if packet.seqNumber == seqNextExpected {
        seqNextExpected := Wrap(seqNextExpected + segmentSize);
      }
      if sigma.Infinite? {
        sigma := Finite(delayAck);
      } else {
        sigma := sigma.Minus(e);
      }
    }

    method OnLambda() returns (ack: U32)
      requires ExtAcknowledge(State()).Defined?
      ensures ExtAcknowledge(State()) == Defined(ack)
    {
      ack := seqNextExpected;
    }

    method OnDint()
      modifies this
      ensures State() == ExtForget(old(State()))
    {
      arrivedPacket := None;
      sigma := Infinite;
    }
  }

  // ----- the delay -----

  /** A packet and the time since the receiver's previous event. */
  datatype Arrival = Arrival(packet: Packet, e: real)

  function ReceiveAll(segmentSize: int, delay: real, r: ExtReceiver, arrivals: seq<Arrival>): ExtReceiver
    decreases |arrivals|
  {
    if arrivals == [] then r
    else
      var n := |arrivals| - 1;
      ExtReceive(segmentSize, delay, ReceiveAll(segmentSize, delay, r, arrivals[..n]), arrivals[n].packet, arrivals[n].e)
  }

  /** Every packet arrives before the held acknowledgement is sent. */
  ghost predicate BeforeAck(segmentSize: int, delay: real, r: ExtReceiver, arrivals: seq<Arrival>)
    decreases |arrivals|
  {
    arrivals == []
    || var n := |arrivals| - 1;
       && BeforeAck(segmentSize, delay, r, arrivals[..n])
       && ReceiveAll(segmentSize, delay, r, arrivals[..n]).sigma.Allows(arrivals[n].e)
  }

  /** The time from the first arrival to the last. */
  function SinceFirst(arrivals: seq<Arrival>): real {
    if |arrivals| <= 1 then 0.0 else SinceFirst(arrivals[..|arrivals| - 1]) + arrivals[|arrivals| - 1].e
  }

  /** However many packets come meanwhile, the acknowledgement leaves exactly the configured delay after the
      first of them, and it speaks for the last. */
  lemma {:induction false} AckLeavesAfterDelay(segmentSize: int, delay: real, r: ExtReceiver, arrivals: seq<Arrival>)
    requires delay >= 0.0 && r.sigma.Infinite? && arrivals != [] && BeforeAck(segmentSize, delay, r, arrivals)
    ensures var r' := ReceiveAll(segmentSize, delay, r, arrivals);
            && r'.sigma == Finite(delay - SinceFirst(arrivals)) && r'.sigma.secs >= 0.0
            && r'.arrived == Some(arrivals[|arrivals| - 1].packet)
    decreases |arrivals|
  {
    var n := |arrivals| - 1;
    if n > 0 {
      AckLeavesAfterDelay(segmentSize, delay, r, arrivals[..n]);
    }
  }
}
