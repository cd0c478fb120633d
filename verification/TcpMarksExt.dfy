/** Congestion marks in the extended sender: none is heard before the first fast retransmit, and afterwards they
    act again at the end of the window as far as its number modulo 2^32 tells. */
module TcpMarksExt {
  import opened Devs
  import opened Seq32
  import opened TcpSender
  import opened TcpSenderExt
  import TcpReactions
  import TcpReactionsExt
  import opened TcpReceiverExt
  import opened TcpSessionsExt
  import opened TcpSystemExt

  // ----- marks before the first fast retransmit -----

  /** The same event with its congestion mark taken off. */
  function Unmarked(ev: Event): Event {
    if ev.DeliverAck? then ev.(marked := false) else ev
  }

  function AllUnmarked(evs: seq<Event>): seq<Event> {
    seq(|evs|, i requires 0 <= i < |evs| => Unmarked(evs[i]))
  }

  predicate Retransmits(c: Session, s: System, ev: Event) {
    ev.DeliverAck? && ExtFastRetransmits(c.p, s.snd, ev.message.ack)
  }

  ghost predicate NoFastRetransmit(c: Session, s: System, evs: seq<Event>)
    decreases |evs|
  {
    evs == [] || (!Retransmits(c, s, evs[0]) &&
                  (Apply(c, s, evs[0]).Defined? ==> NoFastRetransmit(c, Apply(c, s, evs[0]).value, evs[1..])))
  }

  /** Every event of the run does what it does without its mark. */
  ghost predicate MarksIgnored(c: Session, s: System, evs: seq<Event>)
    decreases |evs|
  {
    evs == [] || (Apply(c, s, evs[0]) == Apply(c, s, Unmarked(evs[0])) &&
                  (Apply(c, s, evs[0]).Defined? ==> MarksIgnored(c, Apply(c, s, evs[0]).value, evs[1..])))
  }

  /** A marked acknowledgement that reaches the initial bound, outside fast recovery. */
  predicate ReachesBound(c: Session, s: System, ev: Event) {
    ev.DeliverAck? && ev.marked && ev.message.ack == Wrap(-1) && !ExtLimitReached(c.p, s.snd, ev.message.ack)
  }

  ghost predicate SomeReachesBound(c: Session, s: System, evs: seq<Event>)
    decreases |evs|
  {
    evs != [] && (ReachesBound(c, s, evs[0]) ||
                  (Apply(c, s, evs[0]).Defined? && SomeReachesBound(c, Apply(c, s, evs[0]).value, evs[1..])))
  }

  /** A reaction always shows: in the window, or, for a window of one packet, in the bound. */
  lemma ReactionShows(p: ExtParams, s: ExtSender, ack: U32)
    requires p.Valid() && ack == s.ecnFrom == Wrap(-1)
    ensures var t := ExtMarked(p, s, ack, true, false); t.cwnd != s.cwnd || t.ecnFrom != s.ecnFrom
  {
    if s.cwnd == 1.0 {
      var mss := p.base.segmentSize;
      assert NextEcn(ack, 1.0, mss) == ack + mss by {
        WholeBound(ack, mss);
      }
      WrapSmall(mss - 1);
      WrapShift(mss - 1, 1);
      assert Wrap(-1) == MODULUS - 1;
    }
  }

  lemma WholeBound(ack: int, mss: int)
    requires ack >= 0 && mss >= 0
    ensures NextEcn(ack, 1.0, mss) == ack + mss
  {
    assert 1.0 * mss as real == (mss as real);
    assert ack as real + mss as real == (ack + mss) as real;
  }

  /** What the change of phase keeps apart. */
  lemma PhaseKeepsDifference(p: ExtParams, s: ExtSender, t: ExtSender, valid: bool, limit: bool, e: real)
    requires s.cwnd != t.cwnd || s.ecnFrom != t.ecnFrom
    ensures ExtAfterAck(p, s, valid, limit, e) != ExtAfterAck(p, t, valid, limit, e)
  {
  }

  lemma HandledKeepsBound(p: ExtParams, s: ExtSender, ack: U32, measuredRtt: real)
    requires ExtAckHandled(p, s, ack, measuredRtt).Defined? && !ExtFastRetransmits(p, s, ack)
    ensures ExtAckHandled(p, s, ack, measuredRtt).value.ecnFrom == s.ecnFrom
  {
    hide Smooth, ExtRto, Grown, CheckWindow, Wrap, Trunc;
    if Acceptable(p, s, ack) {
      LoopKeepsLimit(p, s, ack, measuredRtt);
    }
  }

  lemma AckIsDeafIff(p: ExtParams, s: ExtSender, ack: U32, marked: bool, measuredRtt: real, e: real)
    requires p.Valid() && s.ecnFrom == Wrap(-1) && !ExtFastRetransmits(p, s, ack)
    requires ExtDextAck(p, s, ack, marked, measuredRtt, e).Defined?
    ensures var reaches := marked && ack == Wrap(-1) && !ExtLimitReached(p, s, ack);
            && (ExtDextAck(p, s, ack, marked, measuredRtt, e) == ExtDextAck(p, s, ack, false, measuredRtt, e) <==> !reaches)
            && (!reaches ==> ExtDextAck(p, s, ack, marked, measuredRtt, e).value.ecnFrom == Wrap(-1))
  {
    hide ExtAckHandled, CheckWindow, ExtNextEcn, Trunc, ExtLimitReached, ExtFastRetransmits;
    HandledKeepsBound(p, s, ack, measuredRtt);
    var t, limit := ExtAckHandled(p, s, ack, measuredRtt).value, ExtLimitReached(p, s, ack);
    assert Wrap(-1) == MODULUS - 1;
    if marked && ack == Wrap(-1) && !limit {
      ReactionShows(p, t, ack);
      PhaseKeepsDifference(p, t, ExtMarked(p, t, ack, true, false), Acceptable(p, s, ack), limit, e);
    }
  }

  lemma StepIsDeafIff(c: Session, s: System, ev: Event)
    requires c.Valid() && Inv(c, s) && Enabled(c, s, ev) && s.snd.ecnFrom == Wrap(-1) && !Retransmits(c, s, ev)
    ensures Apply(c, s, ev).Defined?
    ensures Apply(c, s, ev) == Apply(c, s, Unmarked(ev)) <==> !ReachesBound(c, s, ev)
    ensures !ReachesBound(c, s, ev) ==> Apply(c, s, ev).value.snd.ecnFrom == Wrap(-1)
  {
    StepKeepsInv(c, s, ev);
    hide ExtDextAck, Inv, ExtFastRetransmits, ExtLimitReached, Wrap, Trunc;
    if ev.DeliverAck? {
      StepKeepsInv(c, s, Unmarked(ev));
      AckIsDeafIff(c.p, s.snd, ev.message.ack, ev.marked, ev.measuredRtt, ev.e);
    }
  }

  lemma {:induction false} RunIsDeafIff(c: Session, s: System, evs: seq<Event>, t: System)
    requires c.Valid() && Inv(c, s) && Runs(c, s, evs, t) && s.snd.ecnFrom == Wrap(-1) && NoFastRetransmit(c, s, evs)
    ensures MarksIgnored(c, s, evs) <==> !SomeReachesBound(c, s, evs)
    decreases |evs|
  {
    hide Inv, Enabled, Apply, Retransmits, ReachesBound, Wrap;
    if evs != [] {
      StepIsDeafIff(c, s, evs[0]);
      if !ReachesBound(c, s, evs[0]) {
        StepKeepsInv(c, s, evs[0]);
        RunIsDeafIff(c, Apply(c, s, evs[0]).value, evs[1..], t);
      }
    }
  }

  /** Before the limit is reached, no duplicate is in fast recovery. */
  lemma {:induction false} LoopClearsDuplicates(p: ExtParams, s: ExtSender, ack: U32, measuredRtt: real)
    requires ReleaseAll(p, s, ack, measuredRtt).Defined?
    ensures ReleaseAll(p, s, ack, measuredRtt).value.dupAcks == if Acceptable(p, s, ack) then 0 else s.dupAcks
    decreases |s.buffer|
  {
    hide Smooth, ExtRto, Grown, CheckWindow, Wrap;
    if Acceptable(p, s, ack) {
      LoopClearsDuplicates(p, ReleaseOne(p, s, ack, measuredRtt), ack, measuredRtt);
    }
  }

  lemma DuplicatesStayBelow(c: Session, s: System, ev: Event)
    requires c.Valid() && Inv(c, s) && Enabled(c, s, ev) && !Retransmits(c, s, ev)
    requires c.p.base.dupAckLimit >= 1 && s.snd.dupAcks < c.p.base.dupAckLimit
    ensures Apply(c, s, ev).Defined? && Apply(c, s, ev).value.snd.dupAcks < c.p.base.dupAckLimit
    ensures ev.DeliverAck? ==> !ExtLimitReached(c.p, s.snd, ev.message.ack)
  {
    StepKeepsInv(c, s, ev);
    hide ReleaseAll, CheckWindow, Wrap, Trunc, ExtNextEcn, Inv;
    if ev.DeliverAck? && Acceptable(c.p, s.snd, ev.message.ack) {
      LoopClearsDuplicates(c.p, s.snd, ev.message.ack, ev.measuredRtt);
    }
  }

  /** Some delivered acknowledgement carries a mark and the number 2^32 - 1. */
  predicate MarkedLastNumber(ev: Event) {
    ev.DeliverAck? && ev.marked && ev.message.ack == Wrap(-1)
  }

  lemma {:induction false} ReachesBoundIff(c: Session, s: System, evs: seq<Event>, t: System)
    requires c.Valid() && Inv(c, s) && Runs(c, s, evs, t) && NoFastRetransmit(c, s, evs)
    requires c.p.base.dupAckLimit >= 1 && s.snd.dupAcks < c.p.base.dupAckLimit
    ensures SomeReachesBound(c, s, evs) <==> exists i :: 0 <= i < |evs| && MarkedLastNumber(evs[i])
    decreases |evs|
  {
    hide Inv, Enabled, Apply, Retransmits, ExtLimitReached, Wrap;
    if evs != [] {
      DuplicatesStayBelow(c, s, evs[0]);
      StepKeepsInv(c, s, evs[0]);
      var rest := evs[1..];
      ReachesBoundIff(c, Apply(c, s, evs[0]).value, rest, t);
      if i :| 0 <= i < |evs| && MarkedLastNumber(evs[i]) {
        assert i > 0 ==> MarkedLastNumber(rest[i - 1]);
      }
      if i :| 0 <= i < |rest| && MarkedLastNumber(rest[i]) {
        assert MarkedLastNumber(evs[i + 1]);
      }
    }
  }

  /** Main result: in every run without a fast retransmit, taking the marks off changes nothing, if and only if
      no marked acknowledgement reached the initial bound; with a duplicate limit of at least one, if and only if
      none with the number 2^32 - 1 was delivered. */
  lemma DeafUntilFastRetransmit(c: Session, evs: seq<Event>, s: System)
    requires c.Valid() && Runs(c, Start(c), evs, s) && NoFastRetransmit(c, Start(c), evs)
    ensures MarksIgnored(c, Start(c), evs) <==> !SomeReachesBound(c, Start(c), evs)
    ensures c.p.base.dupAckLimit >= 1 ==>
              (MarksIgnored(c, Start(c), evs) <==> !exists i :: 0 <= i < |evs| && MarkedLastNumber(evs[i]))
    ensures MarksIgnored(c, Start(c), evs) ==> Runs(c, Start(c), AllUnmarked(evs), s)
  {
    hide Runs, NoFastRetransmit, MarksIgnored, SomeReachesBound;
    StartInv(c);
    RunIsDeafIff(c, Start(c), evs, s);
    if c.p.base.dupAckLimit >= 1 {
      ReachesBoundIff(c, Start(c), evs, s);
    }
    if MarksIgnored(c, Start(c), evs) {
      SameRunUnmarked(c, Start(c), evs, s);
    }
  }

  lemma {:induction false} SameRunUnmarked(c: Session, s: System, evs: seq<Event>, t: System)
    requires Runs(c, s, evs, t) && MarksIgnored(c, s, evs)
    ensures Runs(c, s, AllUnmarked(evs), t)
    decreases |evs|
  {
    hide Apply;
    if evs != [] {
      SameRunUnmarked(c, Apply(c, s, evs[0]).value, evs[1..], t);
      assert AllUnmarked(evs)[1..] == AllUnmarked(evs[1..]);
    }
  }

  // ----- a mark without effect -----

  const CASE := Session(ExtParams(Params(500, 64, 32, 0.0, 1.0, 3, -1.0, 0.0, 0.0), 0.2), 0.0)

  /** The very first acknowledgement of a session, with a mark: the window grows as if there were none. */
  lemma FirstMarkIsIgnored() returns (evs: seq<Event>, s: System, m: AckMessage)
    ensures CASE.Valid() && Runs(CASE, Start(CASE), evs, s)
    ensures Enabled(CASE, s, DeliverAck(m, true, 1.0, 0.0))
    ensures Apply(CASE, s, DeliverAck(m, true, 1.0, 0.0)) == Apply(CASE, s, DeliverAck(m, false, 1.0, 0.0))
    ensures Apply(CASE, s, DeliverAck(m, true, 1.0, 0.0)).Defined?
    ensures s.snd.cwnd == 1.0 && Apply(CASE, s, DeliverAck(m, true, 1.0, 0.0)).value.snd.cwnd == 2.0
  {
    hide Runs, Inv;
    var c := CASE;
    StartInv(c);
    EmptyRun(c, Start(c));
    evs, s := Extend(c, Start(c), [], Start(c), SenderFires);
    evs, s := Extend(c, Start(c), evs, s, Submit(10, 0.0, 0.0));
    evs, s := Extend(c, Start(c), evs, s, SenderFires);
    evs, s := Extend(c, Start(c), evs, s, DeliverData(DataMessage(Packet(1, 10), 0), 0.0));
    evs, s := Extend(c, Start(c), evs, s, ReceiverFires);
    m := AckMessage(501, 1);
    assert Enabled(c, s, DeliverAck(m, true, 1.0, 0.0));
    StepIsDeafIff(c, s, DeliverAck(m, true, 1.0, 0.0));
  }

  // ----- marks after a reduction -----

  /** The congestion mark of this delivery halves the window. */
  ghost predicate HalvesOnMark(c: Session, s: System, ev: Event) {
    && ev.DeliverAck? && ev.marked
    && var t := ExtAckHandled(c.p, s.snd, ev.message.ack, ev.measuredRtt);
       t.Defined? && ev.message.ack >= t.value.ecnFrom && !ExtLimitReached(c.p, s.snd, ev.message.ack)
  }

  ghost predicate Reduces(c: Session, s: System, ev: Event) {
    HalvesOnMark(c, s, ev) || Retransmits(c, s, ev)
  }

  /** The window in force when the reduction happens. */
  function WindowBefore(c: Session, s: System, ev: Event): real
    requires ev.DeliverAck? && ExtAckHandled(c.p, s.snd, ev.message.ack, ev.measuredRtt).Defined?
  {
    if Retransmits(c, s, ev) then s.snd.cwnd
    else ExtAckHandled(c.p, s.snd, ev.message.ack, ev.measuredRtt).value.cwnd
  }

  /** No event of the run reduces the window. */
  ghost predicate Quiet(c: Session, s: System, evs: seq<Event>)
    decreases |evs|
  {
    evs == [] || (!Reduces(c, s, evs[0]) &&
                  (Apply(c, s, evs[0]).Defined? ==> Quiet(c, Apply(c, s, evs[0]).value, evs[1..])))
  }

  lemma ReductionSetsBound(c: Session, s: System, ev: Event)
    requires c.Valid() && Inv(c, s) && Enabled(c, s, ev) && Reduces(c, s, ev)
    ensures ev.DeliverAck? && ExtAckHandled(c.p, s.snd, ev.message.ack, ev.measuredRtt).Defined?
    ensures Apply(c, s, ev).Defined?
    ensures Apply(c, s, ev).value.snd.ecnFrom
            == ExtNextEcn(ev.message.ack, WindowBefore(c, s, ev), c.p.base.segmentSize)
  {
    StepKeepsInv(c, s, ev);
    hide ReleaseAll, CheckWindow, Wrap, Trunc, ExtNextEcn, Inv;
  }

  lemma QuietStep(c: Session, s: System, ev: Event)
    requires c.Valid() && Inv(c, s) && Enabled(c, s, ev) && !Reduces(c, s, ev)
    ensures Apply(c, s, ev).Defined? && Apply(c, s, ev).value.snd.ecnFrom == s.snd.ecnFrom
  {
    StepKeepsInv(c, s, ev);
    hide ExtAckHandled, ExtFastRetransmits, ExtLimitReached, CheckWindow, Wrap, Trunc, ExtNextEcn, Inv;
    if ev.DeliverAck? {
      HandledKeepsBound(c.p, s.snd, ev.message.ack, ev.measuredRtt);
    }
  }

  lemma {:induction false} QuietRun(c: Session, s: System, evs: seq<Event>, t: System)
    requires c.Valid() && Inv(c, s) && Runs(c, s, evs, t) && Quiet(c, s, evs)
    ensures Inv(c, t) && t.snd.ecnFrom == s.snd.ecnFrom
    decreases |evs|
  {
    hide Inv, Enabled, Apply, Reduces;
    if evs != [] {
      StepKeepsInv(c, s, evs[0]);
      QuietStep(c, s, evs[0]);
      QuietRun(c, Apply(c, s, evs[0]).value, evs[1..], t);
    }
  }

  lemma LimitExcludesRetransmit(p: ExtParams, s: ExtSender, ack: U32)
    ensures !ExtLimitReached(p, s, ack) ==> !ExtFastRetransmits(p, s, ack)
  {
  }

  // ----- the window is never negative -----

  ghost predicate WindowInv(s: ExtSender) {
    s.cwnd >= 0.0 && s.threshold >= 0
  }

  lemma GrownIsNonnegative(cwnd: real, threshold: int)
    requires cwnd >= 0.0
    ensures Grown(cwnd, threshold) >= 0.0
  {
    if cwnd > 0.0 {
      var q := 1.0 / cwnd;
      assert q * cwnd == 1.0;
      assert q > 0.0;
    }
  }

  lemma {:induction false} LoopKeepsWindow(p: ExtParams, s: ExtSender, ack: U32, measuredRtt: real)
    requires WindowInv(s) && ReleaseAll(p, s, ack, measuredRtt).Defined?
    ensures WindowInv(ReleaseAll(p, s, ack, measuredRtt).value)
    decreases |s.buffer|
  {
    hide Smooth, ExtRto, Grown, CheckWindow, Wrap;
    if Acceptable(p, s, ack) {
      GrownIsNonnegative(s.cwnd, s.threshold);
      LoopKeepsWindow(p, ReleaseOne(p, s, ack, measuredRtt), ack, measuredRtt);
    }
  }

  lemma HandledKeepsWindow(p: ExtParams, s: ExtSender, ack: U32, measuredRtt: real)
    requires p.Valid() && WindowInv(s) && ExtAckHandled(p, s, ack, measuredRtt).Defined?
    ensures WindowInv(ExtAckHandled(p, s, ack, measuredRtt).value)
  {
    hide CheckWindow, Wrap, Trunc, ReleaseAll;
    if Acceptable(p, s, ack) {
      LoopKeepsWindow(p, s, ack, measuredRtt);
    }
  }

  lemma StepKeepsWindow(c: Session, s: System, ev: Event)
    requires c.Valid() && Inv(c, s) && Enabled(c, s, ev) && WindowInv(s.snd)
    ensures Apply(c, s, ev).Defined? && WindowInv(Apply(c, s, ev).value.snd)
  {
    StepKeepsInv(c, s, ev);
    hide ExtAckHandled, CheckWindow, Wrap, Trunc, Inv, ExtLimitReached, ExtNextEcn;
    if ev.DeliverAck? {
      HandledKeepsWindow(c.p, s.snd, ev.message.ack, ev.measuredRtt);
    }
  }

  lemma {:induction false} RunKeepsWindow(c: Session, s: System, evs: seq<Event>, t: System)
    requires c.Valid() && Inv(c, s) && WindowInv(s.snd) && Runs(c, s, evs, t)
    ensures Inv(c, t) && WindowInv(t.snd)
    decreases |evs|
  {
    hide Inv, Enabled, Apply, WindowInv;
    if evs != [] {
      StepKeepsInv(c, s, evs[0]);
      StepKeepsWindow(c, s, evs[0]);
      RunKeepsWindow(c, Apply(c, s, evs[0]).value, evs[1..], t);
    }
  }

  // ----- the bound in ideal numbers -----

  /** The acknowledgement number that k packets would have without wrap-around. */
  function Ideal(p: ExtParams, k: int): int {
    1 + Bytes(p, k)
  }

  /** The end of the window in force when the reduction happens, without wrap-around: marks should not act again
      before it. */
  function WindowEnd(c: Session, s: System, ev: Event): int
    requires ev.DeliverAck? && ExtAckHandled(c.p, s.snd, ev.message.ack, ev.measuredRtt).Defined?
  {
    Ideal(c.p, ev.message.upTo) + WholeBytes(WindowBefore(c, s, ev), c.p.base.segmentSize)
  }

  function WholeBytes(cwnd: real, segmentSize: int): int {
    (cwnd * segmentSize as real).Floor
  }

  lemma FloorOfSum(n: int, x: real)
    requires n >= 0 && x >= 0.0
    ensures Trunc(n as real + x) == n + x.Floor
  {
  }

  lemma StoredBound(ack: U32, cwnd: real, segmentSize: int)
    requires cwnd >= 0.0 && segmentSize >= 0
    ensures ExtNextEcn(ack, cwnd, segmentSize) == Wrap(ack + WholeBytes(cwnd, segmentSize))
  {
    BoundInBytes(ack, cwnd, segmentSize);
    assert cwnd * segmentSize as real >= 0.0;
    FloorOfSum(ack, cwnd * segmentSize as real);
  }

  /** What the sender stores is the end of the window modulo 2^32. */
  lemma StoredIsIdeal(p: ExtParams, k: int, cwnd: real)
    requires p.Valid() && cwnd >= 0.0
    ensures ExtNextEcn(Wire(p, k), cwnd, p.base.segmentSize)
            == Wrap(Ideal(p, k) + WholeBytes(cwnd, p.base.segmentSize))
  {
    hide Bytes, Wrap, WholeBytes, ExtNextEcn;
    StoredBound(Wire(p, k), cwnd, p.base.segmentSize);
    WrapDifference(Ideal(p, k), WholeBytes(cwnd, p.base.segmentSize));
  }

  /** Comparing residues says the same as comparing the numbers: within one lap of the sequence space always, and
      otherwise if the residues happen to lie the right way round. */
  predicate SameSide(x: int, bound: int) {
    var lap, lap' := x / MODULUS, bound / MODULUS;
    lap == lap' || (lap > lap' <==> Wrap(x) >= Wrap(bound))
  }

  lemma ResiduesAgreeIff(x: int, bound: int)
    ensures (Wrap(x) >= Wrap(bound) <==> x >= bound) <==> SameSide(x, bound)
  {
    var lap, lap' := x / MODULUS, bound / MODULUS;
    assert x == lap * MODULUS + Wrap(x) && bound == lap' * MODULUS + Wrap(bound);
    if lap > lap' {
      assert (lap - lap' - 1) * MODULUS >= 0;
    } else if lap < lap' {
      assert (lap' - lap - 1) * MODULUS >= 0;
    }
  }

  lemma ReachableIsSound(c: Session, s: System)
    requires c.Valid() && Reachable(c, s)
    ensures Inv(c, s) && WindowInv(s.snd)
  {
    hide Inv, Runs;
    var evs :| Runs(c, Start(c), evs, s);
    StartInv(c);
    RunKeepsWindow(c, Start(c), evs, s);
  }

  lemma MessageIsHonest(c: Session, s: System, m: AckMessage)
    requires Inv(c, s) && m in s.ackChannel
    ensures m.ack == Wire(c.p, m.upTo) && m.upTo <= |s.submitted|
  {
    hide Wire;
  }

  lemma ReductionStoresWindowEnd(c: Session, s: System, ev: Event)
    requires c.Valid() && Inv(c, s) && WindowInv(s.snd) && Enabled(c, s, ev) && Reduces(c, s, ev)
    ensures ev.DeliverAck? && ExtAckHandled(c.p, s.snd, ev.message.ack, ev.measuredRtt).Defined?
    ensures Apply(c, s, ev).Defined? && Apply(c, s, ev).value.snd.ecnFrom == Wrap(WindowEnd(c, s, ev))
  {
    hide Inv, ExtNextEcn, ExtAckHandled, Apply, Reduces, Retransmits, Wire, WholeBytes, Ideal, Wrap;
    ReductionSetsBound(c, s, ev);
    MessageIsHonest(c, s, ev.message);
    HandledKeepsWindow(c.p, s.snd, ev.message.ack, ev.measuredRtt);
    StoredIsIdeal(c.p, ev.message.upTo, WindowBefore(c, s, ev));
  }

  /** From the state without the mark to the state with it. */
  predicate Halved(u: ExtSender, t: ExtSender) {
    && 2.0 * t.cwnd == MaxReal(2.0, AbsReal(u.cwnd)) && TcpReactions.HalfOf(t.threshold, u.cwnd) && t.dupAcks == 0
    && t.buffer == u.buffer && t.nextToSend == u.nextToSend && t.phase == u.phase && t.sigma == u.sigma
  }

  lemma MarkEffect(c: Session, m: System, next: Event)
    requires c.Valid() && Inv(c, m) && Enabled(c, m, next) && next.DeliverAck? && next.marked
    requires !ExtLimitReached(c.p, m.snd, next.message.ack)
    ensures Apply(c, m, next).Defined? && Apply(c, m, Unmarked(next)).Defined?
    ensures if HalvesOnMark(c, m, next) then Halved(Apply(c, m, Unmarked(next)).value.snd, Apply(c, m, next).value.snd)
            else Apply(c, m, next) == Apply(c, m, Unmarked(next))
  {
    AckIsHandled(c, m, next);
    TcpReactionsExt.OldIsNotAcceptable(c, m, next.message);
    LimitExcludesRetransmit(c.p, m.snd, next.message.ack);
    HandledKeepsBound(c.p, m.snd, next.message.ack, next.measuredRtt);
    hide Inv, Apply, ExtAckHandled, ExtLimitReached, ExtFastRetransmits;
    TcpReactionsExt.MarkHalvesWindow(c, m, next.message, next.measuredRtt, next.e);
  }

  /** Main result, over runs and in numbers without wrap-around: after a reduction, the next marked acknowledgement
      outside fast recovery, for k packets, halves the window if and only if its residue has reached that of the
      window's end. That is what section 6.1.2 of RFC 3168 asks, if and only if both lie in the same lap of the
      sequence space or their residues lie the right way round. If it does, the window is half of what it would be
      without the mark, at least one packet; if not, the mark has no effect. */
  lemma MarkHalvesIff(c: Session, s: System, ev: Event, quiet: seq<Event>, m: System, next: Event)
    requires c.Valid() && Reachable(c, s) && Enabled(c, s, ev) && Reduces(c, s, ev) && Apply(c, s, ev).Defined?
    requires Runs(c, Apply(c, s, ev).value, quiet, m) && Quiet(c, Apply(c, s, ev).value, quiet)
    requires Enabled(c, m, next) && next.DeliverAck? && next.marked
    requires !ExtLimitReached(c.p, m.snd, next.message.ack)
    ensures ev.DeliverAck? && ExtAckHandled(c.p, s.snd, ev.message.ack, ev.measuredRtt).Defined?
    ensures var x, end := Ideal(c.p, next.message.upTo), WindowEnd(c, s, ev);
            && (HalvesOnMark(c, m, next) <==> Wrap(x) >= Wrap(end))
            && ((HalvesOnMark(c, m, next) <==> x >= end) <==> SameSide(x, end))
    ensures Apply(c, m, next).Defined? && Apply(c, m, Unmarked(next)).Defined?
    ensures if HalvesOnMark(c, m, next) then Halved(Apply(c, m, Unmarked(next)).value.snd, Apply(c, m, next).value.snd)
            else Apply(c, m, next) == Apply(c, m, Unmarked(next))
  {
    ReachableIsSound(c, s);
    hide Runs, Quiet, Inv, Apply, Reduces, WindowEnd, SameSide, Wrap, ExtLimitReached, ExtAckHandled;
    ReductionStoresWindowEnd(c, s, ev);
    StepKeepsInv(c, s, ev);
    QuietRun(c, Apply(c, s, ev).value, quiet, m);
    LimitExcludesRetransmit(c.p, m.snd, next.message.ack);
    AckIsHandled(c, m, next);
    HandledKeepsBound(c.p, m.snd, next.message.ack, next.measuredRtt);
    MessageIsHonest(c, m, next.message);
    ResiduesAgreeIff(Ideal(c.p, next.message.upTo), WindowEnd(c, s, ev));
    MarkEffect(c, m, next);
  }

  lemma AckIsHandled(c: Session, s: System, ev: Event)
    requires c.Valid() && Inv(c, s) && Enabled(c, s, ev) && ev.DeliverAck?
    ensures ExtAckHandled(c.p, s.snd, ev.message.ack, ev.measuredRtt).Defined?
  {
    StepKeepsInv(c, s, ev);
    hide ReleaseAll, Inv, CheckWindow, Wrap;
  }

  /** In a session whose numbers and whose window end stay below 2^32, marks act at most once per window. */
  lemma MarksActOncePerWindow(c: Session, s: System, ev: Event, quiet: seq<Event>, m: System, next: Event)
    requires c.Valid() && Reachable(c, s) && Enabled(c, s, ev) && Reduces(c, s, ev) && Apply(c, s, ev).Defined?
    requires Runs(c, Apply(c, s, ev).value, quiet, m) && Quiet(c, Apply(c, s, ev).value, quiet)
    requires Enabled(c, m, next) && HalvesOnMark(c, m, next)
    requires ev.DeliverAck? && ExtAckHandled(c.p, s.snd, ev.message.ack, ev.measuredRtt).Defined?
    requires Ideal(c.p, |m.submitted|) < MODULUS && WindowEnd(c, s, ev) < MODULUS
    ensures Ideal(c.p, next.message.upTo) >= WindowEnd(c, s, ev)
  {
    var x, end := Ideal(c.p, next.message.upTo), WindowEnd(c, s, ev);
    ReachableIsSound(c, s);
    MarkHalvesIff(c, s, ev, quiet, m, next);
    hide Runs, Quiet, Apply, Reduces, Inv, Retransmits, ExtAckHandled;
    StepKeepsInv(c, s, ev);
    QuietRun(c, Apply(c, s, ev).value, quiet, m);
    MessageIsHonest(c, m, next.message);
    HandledKeepsWindow(c.p, s.snd, ev.message.ack, ev.measuredRtt);
    BytesMonotone(c.p, next.message.upTo, |m.submitted|);
    BytesMonotone(c.p, 0, next.message.upTo);
    BytesMonotone(c.p, 0, ev.message.upTo);
    BytesOrder(c.p, 0, 0);
    WholeBytesNonnegative(WindowBefore(c, s, ev), c.p.base.segmentSize);
    assert 0 <= x < MODULUS && 0 <= end < MODULUS;
  }

  lemma WholeBytesNonnegative(cwnd: real, segmentSize: int)
    requires cwnd >= 0.0 && segmentSize >= 0
    ensures WholeBytes(cwnd, segmentSize) >= 0
  {
    assert cwnd * segmentSize as real >= 0.0;
  }

  // ----- both ways to fail, as runs -----

  /** A duplicate of the last acknowledgement then starts a fast retransmit. */
  function Repeating(): System {
    var s := TwoDone();
    s.(snd := s.snd.(dupAcks := 1, cwnd := 4.5, threshold := 1, ecnFrom := 0x8000_0001))
  }

  const REPEATED := DeliverAck(AckMessage(1, 2), false, 1.0, 0.0)
  const MARKED := DeliverAck(AckMessage(0x8000_0001, 1), true, 1.0, 0.0)

  lemma ThreeSegments()
    ensures WholeBytes(3.0, 0x8000_0000) == 0x1_8000_0000
    ensures ExtNextEcn(1, 3.0, 0x8000_0000) == 0x8000_0001
  {
    assert 3.0 * (0x8000_0000 as real) == 6442450944.0;
    assert Trunc(1.0 + 6442450944.0) == 6442450945;
  }

  lemma RepeatedIsRejected()
    ensures ExtReject(HALF.p, TwoDone().snd, 1) == Repeating().snd
    ensures Retransmits(HALF, TwoDone(), REPEATED) && !Acceptable(HALF.p, TwoDone().snd, 1)
  {
    ThreeSegments();
    hide ExtNextEcn, WholeBytes;
    assert Trunc(3.0 / 2.0) == 1;
  }

  lemma RepeatedIsHandled()
    ensures ExtAckHandled(HALF.p, TwoDone().snd, 1, 1.0) == Defined(Repeating().snd)
    ensures ExtDextAck(HALF.p, TwoDone().snd, 1, false, 1.0, 0.0) == Defined(Repeating().snd)
  {
    hide ExtReject, Acceptable, ExtMarked, ExtLimitReached;
    RepeatedIsRejected();
    NoMarkNoReaction(HALF.p, Repeating().snd, 1, ExtLimitReached(HALF.p, TwoDone().snd, 1));
  }

  lemma RepeatedRetransmits()
    ensures Enabled(HALF, TwoDone(), REPEATED) && Retransmits(HALF, TwoDone(), REPEATED)
    ensures Apply(HALF, TwoDone(), REPEATED) == Defined(Repeating())
  {
    hide ExtDextAck, Retransmits, ExtReject;
    RepeatedIsRejected();
    RepeatedIsHandled();
    assert Payloads([]) == [];
    assert [10, 20] + [] == [10, 20];
  }

  lemma RepeatedWindowEnd()
    ensures ExtAckHandled(HALF.p, TwoDone().snd, 1, 1.0).Defined?
    ensures WindowEnd(HALF, TwoDone(), REPEATED) == 1 + 2 * 0x8000_0000 + 0x1_8000_0000
  {
    hide ExtAckHandled, Retransmits, ExtReject, WholeBytes;
    RepeatedIsRejected();
    RepeatedIsHandled();
    ThreeSegments();
  }

  lemma NoMarkNoReaction(p: ExtParams, s: ExtSender, ack: U32, limit: bool)
    ensures ExtMarked(p, s, ack, false, limit) == s
  {
  }

  /** Too early: after a fast retransmit at packet 2 the window ends at packet 5, but a marked duplicate of the
      acknowledgement for packet 1 halves the window again. */
  lemma MarkActsTooEarly() returns (evs: seq<Event>, s: System, ev: Event, m: System, next: Event)
    ensures HALF.Valid() && Runs(HALF, Start(HALF), evs, s) && Enabled(HALF, s, ev) && Retransmits(HALF, s, ev)
    ensures ExtAckHandled(HALF.p, s.snd, ev.message.ack, ev.measuredRtt).Defined?
    ensures Apply(HALF, s, ev) == Defined(m) && Enabled(HALF, m, next) && HalvesOnMark(HALF, m, next)
    ensures Ideal(HALF.p, next.message.upTo) < WindowEnd(HALF, s, ev)
  {
    evs := SecondOfTwo();
    RepeatedRetransmits();
    RepeatedWindowEnd();
    s, ev, m, next := TwoDone(), REPEATED, Repeating(), MARKED;
    assert !ExtLimitReached(HALF.p, m.snd, next.message.ack);
    hide Runs, Inv, Apply, HalvesOnMark, Retransmits, WindowEnd, TwoDone, Repeating, ExtLimitReached, ExtAckHandled;
    EmptyRun(HALF, m);
    assert Reachable(HALF, s) && Reduces(HALF, s, ev);
    MarkHalvesIff(HALF, s, ev, [], m, next);
  }

  /** The first packet was sent and acknowledged. */
  function Acknowledged(): System {
    System(ExtSender([], 1, 0x8000_0001, 0x4000_0001, 0, 2.0, 32, 0x4000_0001, 0xFFFF_FFFF, 1.0, 0.0, 1.0, Sending,
                     Finite(0.0)),
           ExtReceiver(0x4000_0001, None, Infinite), {DataMessage(Packet(1, 10), 0)}, {AckMessage(0x4000_0001, 1)},
           [10], [10], [10])
  }

  /** Then a duplicate of the acknowledgement started a fast retransmit. */
  function Retransmitting(): System {
    var s := Acknowledged();
    s.(snd := s.snd.(dupAcks := 1, cwnd := 4.0, threshold := 1, ecnFrom := 0xC000_0001))
  }

  /** Then three more packets were submitted and sent. */
  function AllSent(): System {
    var s, p1, p2, p3 := Retransmitting(), Packet(0x4000_0001, 20), Packet(0x8000_0001, 30), Packet(0xC000_0001, 40);
    s.(snd := s.snd.(buffer := [p1, p2, p3], nextToSend := 4, nextSeq := 1), submitted := [10, 20, 30, 40],
       dataChannel := s.dataChannel + {DataMessage(p1, 1)} + {DataMessage(p2, 2)} + {DataMessage(p3, 3)})
  }

  lemma FirstAcknowledged() returns (evs: seq<Event>)
    ensures QUARTER.Valid() && Runs(QUARTER, Start(QUARTER), evs, Acknowledged()) && Inv(QUARTER, Acknowledged())
  {
    hide Runs, Inv;
    var c := QUARTER;
    StartInv(c);
    EmptyRun(c, Start(c));
    var s;
    evs, s := Extend(c, Start(c), [], Start(c), SenderFires);
    evs, s := Extend(c, Start(c), evs, s, Submit(10, 0.0, 0.0));
    evs, s := Extend(c, Start(c), evs, s, SenderFires);
    evs, s := Extend(c, Start(c), evs, s, DeliverData(DataMessage(Packet(1, 10), 0), 0.0));
    evs, s := Extend(c, Start(c), evs, s, ReceiverFires);
    evs, s := Extend(c, Start(c), evs, s, DeliverAck(AckMessage(0x4000_0001, 1), false, 1.0, 0.0));
    var t := Acknowledged();
    assert s.snd == t.snd;
    assert s.rcv == t.rcv && s.dataChannel == t.dataChannel && s.ackChannel == t.ackChannel;
    assert s.submitted == t.submitted && s.accepted == t.accepted && s.released == t.released;
    assert s == t;
  }

  /** The duplicate. */
  const DUPLICATE := DeliverAck(AckMessage(0x4000_0001, 1), false, 1.0, 0.0)

  lemma DuplicateRetransmits()
    requires Inv(QUARTER, Acknowledged())
    ensures Enabled(QUARTER, Acknowledged(), DUPLICATE) && Retransmits(QUARTER, Acknowledged(), DUPLICATE)
    ensures Apply(QUARTER, Acknowledged(), DUPLICATE) == Defined(Retransmitting()) && Inv(QUARTER, Retransmitting())
    ensures ExtAckHandled(QUARTER.p, Acknowledged().snd, 0x4000_0001, 1.0).Defined?
    ensures WindowEnd(QUARTER, Acknowledged(), DUPLICATE) == 0xC000_0001
  {
    StepKeepsInv(QUARTER, Acknowledged(), DUPLICATE);
    hide Inv;
    assert Payloads([]) == [];
    assert [10] + [] == [10];
  }

  /** A run without acknowledgements is quiet. */
  lemma {:induction false} NoAckIsQuiet(c: Session, s: System, evs: seq<Event>)
    requires forall i :: 0 <= i < |evs| ==> !evs[i].DeliverAck?
    ensures Quiet(c, s, evs)
    decreases |evs|
  {
    hide Apply;
    if evs != [] && Apply(c, s, evs[0]).Defined? {
      NoAckIsQuiet(c, Apply(c, s, evs[0]).value, evs[1..]);
    }
  }

  /** An event of a given kind at the end of a run without acknowledgements. */
  lemma Continue(c: Session, s: System, evs: seq<Event>, m: System, ev: Event) returns (longer: seq<Event>, t: System)
    requires c.Valid() && Runs(c, s, evs, m) && Inv(c, m) && Enabled(c, m, ev) && !ev.DeliverAck?
    requires forall i :: 0 <= i < |evs| ==> !evs[i].DeliverAck?
    ensures Apply(c, m, ev) == Defined(t) && Runs(c, s, longer, t) && Inv(c, t)
    ensures forall i :: 0 <= i < |longer| ==> !longer[i].DeliverAck?
  {
    hide Inv, Enabled, Apply, Runs;
    StepKeepsInv(c, m, ev);
    t := Apply(c, m, ev).value;
    longer := evs + [ev];
    OneEvent(c, m, ev);
    RunsThen(c, s, evs, m, [ev], t);
  }

  lemma OneEvent(c: Session, s: System, ev: Event)
    requires Enabled(c, s, ev) && Apply(c, s, ev).Defined?
    ensures Runs(c, s, [ev], Apply(c, s, ev).value)
  {
    hide Enabled, Apply;
    assert Runs(c, Apply(c, s, ev).value, [ev][1..], Apply(c, s, ev).value);
  }

  /** Submitted but not sent. */
  function AllSubmitted(): System {
    var s, t := Retransmitting(), AllSent();
    s.(snd := s.snd.(buffer := t.snd.buffer, nextSeq := 1), submitted := t.submitted)
  }

  lemma SubmitThree() returns (quiet: seq<Event>)
    requires Inv(QUARTER, Retransmitting())
    ensures Runs(QUARTER, Retransmitting(), quiet, AllSubmitted()) && Inv(QUARTER, AllSubmitted())
    ensures forall i :: 0 <= i < |quiet| ==> !quiet[i].DeliverAck?
  {
    hide Runs, Inv;
    var c, u := QUARTER, Retransmitting();
    EmptyRun(c, u);
    var m;
    quiet, m := Continue(c, u, [], u, Submit(20, 0.0, 0.0));
    quiet, m := Continue(c, u, quiet, m, Submit(30, 0.0, 0.0));
    quiet, m := Continue(c, u, quiet, m, Submit(40, 0.0, 0.0));
    var t := AllSubmitted();
    assert m.snd.buffer == t.snd.buffer && m.submitted == t.submitted;
    assert m == t;
  }

  lemma SendThree() returns (quiet: seq<Event>)
    requires Inv(QUARTER, Retransmitting())
    ensures Runs(QUARTER, Retransmitting(), quiet, AllSent()) && Inv(QUARTER, AllSent())
    ensures forall i :: 0 <= i < |quiet| ==> !quiet[i].DeliverAck?
  {
    hide Runs, Inv;
    var c, u := QUARTER, Retransmitting();
    quiet := SubmitThree();
    var m := AllSubmitted();
    quiet, m := Continue(c, u, quiet, m, SenderFires);
    quiet, m := Continue(c, u, quiet, m, SenderFires);
    quiet, m := Continue(c, u, quiet, m, SenderFires);
    var t := AllSent();
    assert m.dataChannel == t.dataChannel;
    assert m == t;
  }

  /** They arrive, and one acknowledgement for all of them is on its way. */
  lemma ReceiveThree(before: seq<Event>) returns (quiet: seq<Event>, m: System)
    requires Inv(QUARTER, AllSent()) && Runs(QUARTER, Retransmitting(), before, AllSent())
    requires forall i :: 0 <= i < |before| ==> !before[i].DeliverAck?
    ensures Runs(QUARTER, Retransmitting(), quiet, m) && forall i :: 0 <= i < |quiet| ==> !quiet[i].DeliverAck?
    ensures AckMessage(1, 4) in m.ackChannel && m.submitted == AllSent().submitted && m.snd == AllSent().snd
  {
    hide Runs, Inv;
    var c, u, s := QUARTER, Retransmitting(), AllSent();
    quiet, m := Continue(c, u, before, s, DeliverData(DataMessage(Packet(0x4000_0001, 20), 1), 0.0));
    quiet, m := Continue(c, u, quiet, m, DeliverData(DataMessage(Packet(0x8000_0001, 30), 2), 0.0));
    quiet, m := Continue(c, u, quiet, m, DeliverData(DataMessage(Packet(0xC000_0001, 40), 3), 0.0));
    quiet, m := Continue(c, u, quiet, m, ReceiverFires);
  }

  /** Deaf again: after a fast retransmit at packet 1 the window ends at packet 3, but the marked acknowledgement for
      packet 4, the first of the next lap, has no effect. */
  lemma MarkActsTooLate() returns (evs: seq<Event>, s: System, ev: Event, quiet: seq<Event>, m: System, next: Event)
    ensures QUARTER.Valid() && Runs(QUARTER, Start(QUARTER), evs, s) && Enabled(QUARTER, s, ev)
    ensures Retransmits(QUARTER, s, ev) && Apply(QUARTER, s, ev).Defined?
    ensures ExtAckHandled(QUARTER.p, s.snd, ev.message.ack, ev.measuredRtt).Defined?
    ensures Runs(QUARTER, Apply(QUARTER, s, ev).value, quiet, m) && Quiet(QUARTER, Apply(QUARTER, s, ev).value, quiet)
    ensures Enabled(QUARTER, m, next) && next.DeliverAck? && next.marked
    ensures !ExtLimitReached(QUARTER.p, m.snd, next.message.ack) && !HalvesOnMark(QUARTER, m, next)
    ensures Ideal(QUARTER.p, next.message.upTo) > WindowEnd(QUARTER, s, ev)
  {
    evs := FirstAcknowledged();
    s, ev := Acknowledged(), DUPLICATE;
    DuplicateRetransmits();
    quiet := SendThree();
    quiet, m := ReceiveThree(quiet);
    NoAckIsQuiet(QUARTER, Retransmitting(), quiet);
    next := DeliverAck(AckMessage(1, 4), true, 1.0, 0.0);
    hide Runs, Quiet, Inv, Apply, Acknowledged, Retransmitting;
    assert Acceptable(QUARTER.p, m.snd, 1);
    assert Reachable(QUARTER, s) && Reduces(QUARTER, s, ev);
    MarkHalvesIff(QUARTER, s, ev, quiet, m, next);
  }
}
