/** The TCP receiver of `packettcprcv`: it accepts only the packet it expects next and answers every
    packet with the number following the last one accepted. */
module TcpReceiver {
  import opened Devs
  import opened TcpSender

  /** SEQ_NEXT_Expected, SEQ_LAST_Valid, arrivedPacket, sigma. */
  datatype Receiver = Receiver(nextExpected: int, lastValid: int, arrived: Option<Packet>, sigma: Duration)

  function InitReceiver(): Receiver {
    Receiver(1, 0, None, Infinite)
  }

  /** `None` is the exception thrown when the previous acknowledgement is still unsent. */
  function Receive(segmentSize: int, r: Receiver, packet: Packet): Option<Receiver> {
    if r.arrived.Some? then None
    else if packet.seqNumber == r.nextExpected then
      Some(Receiver(r.nextExpected + segmentSize, packet.seqNumber, Some(packet), Finite(0.0)))
    else
      Some(r.(arrived := Some(packet), sigma := Finite(0.0)))
  }

  /** The acknowledgement number sent by `lambda`, which reads the packet that arrived. */
  function Acknowledge(segmentSize: int, r: Receiver): Outcome<int> {
    if r.arrived.None? then Undefined else Defined(r.lastValid + segmentSize)
  }

  function Forget(r: Receiver): Receiver {
    r.(arrived := None, sigma := Infinite)
  }

  class PacketTcpRcv {
    const segmentSize: int
    var arrivedPacket: Option<Packet>
    var seqNextExpected: int
    var seqLastValid: int
    var sigma: Duration

    ghost function State(): Receiver
      reads this
    {
      Receiver(seqNextExpected, seqLastValid, arrivedPacket, sigma)
    }

    constructor (size: int)
      ensures segmentSize == size && State() == InitReceiver()
    {
      segmentSize := size;
      arrivedPacket := None;
      seqNextExpected := 1;
      seqLastValid := 0;
      sigma := Infinite;
    }

    method OnDext(packet: Packet) returns (threw: bool)
      modifies this
      ensures threw ==> Receive(segmentSize, old(State()), packet).None? && State() == old(State())
      ensures !threw ==> Receive(segmentSize, old(State()), packet) == Some(State())
    {
      if arrivedPacket.Some? {
        return true;
      }
      arrivedPacket := Some(packet);
      var dataSeqNumber := packet.seqNumber;
      if dataSeqNumber == seqNextExpected {
        seqLastValid := dataSeqNumber;
        seqNextExpected := seqNextExpected + segmentSize;
      }
      sigma := Finite(0.0);
      threw := false;
    }

    method OnLambda() returns (ack: int)
      requires Acknowledge(segmentSize, State()).Defined?
      ensures Acknowledge(segmentSize, State()) == Defined(ack)
    {
      ack := seqLastValid + segmentSize;
    }

    method OnDint()
      modifies this
      ensures State() == Forget(old(State()))
    {
      arrivedPacket := None;
      sigma := Infinite;
    }
  }
}
