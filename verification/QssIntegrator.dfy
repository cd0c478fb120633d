/** The first-order quantised integrator (`met == 1` of `integrator_sci`): its state follows the integral of a
    piecewise constant input, and its quantised value stays within one quantum of it. */
module QssIntegrator {
  import opened Devs

  /** X, q, u and sigma; the quantum dQ is a parameter. */
  datatype Qss = Qss(x: real, q: real, u: real, sigma: Duration)

  function Sign(u: real): real {
    if u > 0.0 then 1.0 else if u < 0.0 then -1.0 else 0.0
  }

  /** One quantum in the direction of u. */
  function Quantum(dQ: real, u: real): real {
    if u > 0.0 then dQ else if u < 0.0 then -dQ else 0.0
  }

  /** Where x is after e at speed u. */
  function Ahead(x: real, u: real, e: real): real {
    x + e * u
  }

  function Init(x: real, dQ: real): Qss
    requires dQ > 0.0
  {
    Qss(x, (x / dQ).Floor as real * dQ, 0.0, Finite(0.0))
  }

  /** The end of a finite wait. */
  function Dint(s: Qss, dQ: real): Qss
    requires s.sigma.Finite?
  {
    var x := Ahead(s.x, s.u, s.sigma.secs);
    Qss(x, x, s.u, if s.u == 0.0 then Infinite else Finite(dQ / AbsReal(s.u)))
  }

  function Dext(s: Qss, dQ: real, u: real, e: real): Qss {
    var x := Ahead(s.x, s.u, e);
    Qss(x, s.q, u, if s.sigma == Finite(0.0) then s.sigma else Wait(x, s.q, u, dQ))
  }

  /** The time until x, moving at speed u, is one quantum away from q. */
  function Wait(x: real, q: real, u: real, dQ: real): Duration {
    if u == 0.0 then Infinite
    else if u > 0.0 then Finite((q + dQ - x) / u)
    else Finite((q - dQ - x) / u)
  }

  function Lambda(s: Qss, dQ: real): real {
    if s.u == 0.0 then s.q else s.q + dQ * s.u / AbsReal(s.u)
  }

  class IntegratorQss {
    const dQ: real
    var x: real
    var q: real
    var u: real
    var sigma: Duration

    ghost function State(): Qss
      reads this
    {
      Qss(x, q, u, sigma)
    }

    constructor (x0: real, quantum: real)
      requires quantum > 0.0
      ensures dQ == quantum && State() == Init(x0, quantum)
    {
      dQ, x, u := quantum, x0, 0.0;
      q := (x0 / quantum).Floor as real * quantum;
      sigma := Finite(0.0);
    }

    method OnDint()
      requires sigma.Finite?
      modifies this
      ensures State() == Dint(old(State()), dQ)
    {
      x := x + sigma.secs * u;
      q := x;
      if u == 0.0 {
        sigma := Infinite;
      } else {
        sigma := Finite(dQ / AbsReal(u));
      }
    }

    method OnDext(input: real, e: real)
      modifies this
      ensures State() == Dext(old(State()), dQ, input, e)
    {
      x := x + e * u;
      u := input;
      if sigma != Finite(0.0) {
        if u == 0.0 {
          sigma := Infinite;
        } else if u > 0.0 {
          sigma := Finite((q + dQ - x) / u);
        } else {
          sigma := Finite((q - dQ - x) / u);
        }
      }
    }

    method OnLambda() returns (y: real)
      ensures y == Lambda(State(), dQ)
    {
      if u == 0.0 {
        y := q;
      } else {
        y := q + dQ * u / AbsReal(u);
      }
    }
  }

  // ----- arithmetic -----

  lemma QuotientTimes(a: real, u: real)
    requires u != 0.0
    ensures (a / u) * u == a
  {
  }

  lemma PositiveFactor(w: real, v: real)
    requires v > 0.0 && w * v >= 0.0
    ensures w >= 0.0
  {
  }

  lemma NonnegativeProduct(a: real, b: real)
    requires a >= 0.0 && b >= 0.0
    ensures a * b >= 0.0
  {
  }

  lemma PositiveProduct(a: real, b: real)
    requires a > 0.0 && b > 0.0
    ensures a * b > 0.0
  {
  }

  lemma NonnegativeQuotient(a: real, u: real)
    requires u > 0.0 && a >= 0.0
    ensures a / u >= 0.0
  {
  }

  lemma LambdaIsOneQuantum(s: Qss, dQ: real)
    ensures Lambda(s, dQ) == s.q + Quantum(dQ, s.u)
  {
    var u := s.u;
    if u > 0.0 {
      assert dQ * u / u == dQ;
    } else if u < 0.0 {
      var r := dQ * u / (-u);
      assert r * (-u) == dQ * u;
      assert (r + dQ) * u == 0.0;
    }
  }

  lemma WaitReachesLevel(x: real, q: real, u: real, dQ: real)
    requires u != 0.0 && AbsReal(x - q) <= dQ
    ensures Wait(x, q, u, dQ).Finite? && Wait(x, q, u, dQ).secs >= 0.0
    ensures Ahead(x, u, Wait(x, q, u, dQ).secs) == q + Quantum(dQ, u)
  {
    if u > 0.0 {
      QuotientTimes(q + dQ - x, u);
      NonnegativeQuotient(q + dQ - x, u);
    } else {
      var d := q - dQ - x;
      QuotientTimes(d, u);
      var w := d / u;
      assert w * (-u) == -d;
      PositiveFactor(w, -u);
    }
  }

  /** On the way to a level the state stays between its start and the level. */
  lemma OnTheWay(x: real, u: real, e: real, sigma: real, level: real)
    requires 0.0 <= e <= sigma && Ahead(x, u, sigma) == level
    ensures x <= level ==> x <= Ahead(x, u, e) <= level
    ensures level <= x ==> level <= Ahead(x, u, e) <= x
  {
    if u >= 0.0 {
      NonnegativeProduct(e, u);
      NonnegativeProduct(sigma - e, u);
    } else {
      NonnegativeProduct(e, -u);
      NonnegativeProduct(sigma - e, -u);
    }
    assert (sigma - e) * u == sigma * u - e * u;
  }

  // ----- the invariant -----

  /** Within one quantum; a positive wait ends exactly one quantum away in the direction of movement; only a
      state that does not move waits forever. */
  ghost predicate Inv(s: Qss, dQ: real) {
    && dQ > 0.0
    && AbsReal(s.x - s.q) <= dQ
    && match s.sigma
       case Infinite => s.u == 0.0
       case Finite(secs) => secs >= 0.0 && (secs > 0.0 ==> s.u != 0.0 && Ahead(s.x, s.u, secs) == s.q + Quantum(dQ, s.u))
  }

  lemma InitIsAtRest(x: real, dQ: real)
    requires dQ > 0.0
    ensures Init(x, dQ).u == 0.0 && Init(x, dQ).x == x
  {
  }

  lemma InitSatisfiesInv(x: real, dQ: real)
    requires dQ > 0.0
    ensures Inv(Init(x, dQ), dQ)
  {
    var r := x / dQ;
    assert r * dQ == x;
    var f := r.Floor as real;
    assert 0.0 <= r - f <= 1.0;
    NonnegativeProduct(r - f, dQ);
    NonnegativeProduct(1.0 - (r - f), dQ);
    assert x - f * dQ == (r - f) * dQ;
  }

  /** At every instant of the wait, not only at events, state and quantised value are within a quantum. */
  lemma WithinOneQuantum(s: Qss, dQ: real, e: real)
    requires Inv(s, dQ) && s.sigma.Allows(e)
    ensures AbsReal(Ahead(s.x, s.u, e) - s.q) <= dQ
  {
    if s.sigma.Finite? && s.sigma.secs > 0.0 {
      hide Ahead;
      OnTheWay(s.x, s.u, e, s.sigma.secs, s.q + Quantum(dQ, s.u));
    } else {
      assert e * s.u == 0.0;
    }
  }

  lemma DextKeepsInv(s: Qss, dQ: real, u: real, e: real)
    requires Inv(s, dQ) && s.sigma.Allows(e)
    ensures Inv(Dext(s, dQ, u, e), dQ)
  {
    WithinOneQuantum(s, dQ, e);
    hide Wait, AbsReal, Quantum, Ahead;
    WaitSatisfiesInv(Ahead(s.x, s.u, e), s.q, u, dQ);
  }

  lemma WaitSatisfiesInv(x: real, q: real, u: real, dQ: real)
    requires dQ > 0.0 && AbsReal(x - q) <= dQ
    ensures Inv(Qss(x, q, u, Wait(x, q, u, dQ)), dQ)
  {
    hide Wait;
    if u == 0.0 {
      StandingStillWaits(x, q, dQ);
    } else {
      WaitReachesLevel(x, q, u, dQ);
    }
  }

  lemma StandingStillWaits(x: real, q: real, dQ: real)
    ensures Wait(x, q, 0.0, dQ) == Infinite
  {
  }

  lemma DintKeepsInv(s: Qss, dQ: real)
    requires Inv(s, dQ) && s.sigma.Finite?
    ensures Inv(Dint(s, dQ), dQ)
  {
    hide Ahead, Wait;
    if s.u != 0.0 {
      var x := Ahead(s.x, s.u, s.sigma.secs);
      DintWaits(x, s.u, dQ);
      WaitReachesLevel(x, x, s.u, dQ);
    }
  }

  lemma DintWaits(x: real, u: real, dQ: real)
    requires u != 0.0 && dQ > 0.0
    ensures Finite(dQ / AbsReal(u)) == Wait(x, x, u, dQ)
  {
    if u < 0.0 {
      var r := dQ / (-u);
      assert r * (-u) == dQ;
      assert r * u == -dQ;
      var w := (-dQ) / u;
      QuotientTimes(-dQ, u);
      assert (w - r) * u == 0.0;
    }
  }

  /** A full quantum takes time. */
  lemma QuantumTakesTime(s: Qss, dQ: real)
    requires Inv(s, dQ) && s.sigma.Finite? && s.u != 0.0
    ensures Dint(s, dQ).sigma.secs > 0.0
  {
    var a := AbsReal(s.u);
    QuotientTimes(dQ, a);
    assert dQ / a != 0.0;
    NonnegativeQuotient(dQ, a);
  }

  // ----- runs -----

  datatype Event = Input(u: real, e: real) | Tick

  /** The state, the input now held, the integral of the input so far, and, once an input has made an output due
      at once, that input. */
  datatype World = World(s: Qss, held: real, area: real, due: Option<real>)

  function Begin(x0: real, dQ: real): World
    requires dQ > 0.0
  {
    World(Init(x0, dQ), 0.0, 0.0, None)
  }

  function DueAfter(w: World, dQ: real, u: real, e: real): Option<real> {
    if w.s.sigma == Finite(0.0) then w.due
    else if Dext(w.s, dQ, u, e).sigma == Finite(0.0) then Some(u)
    else None
  }

  predicate Possible(w: World, event: Event) {
    match event
    case Input(_, e) => w.s.sigma.Allows(e)
    case Tick => w.s.sigma.Finite?
  }

  function Next(w: World, dQ: real, event: Event): World
    requires Possible(w, event)
  {
    match event
    case Input(u, e) => World(Dext(w.s, dQ, u, e), u, Ahead(w.area, w.held, e), DueAfter(w, dQ, u, e))
    case Tick => World(Dint(w.s, dQ), w.held, Ahead(w.area, w.held, w.s.sigma.secs), None)
  }

  ghost predicate Reaches(w: World, dQ: real, events: seq<Event>, end: World)
    decreases |events|
  {
    if events == [] then w == end
    else Possible(w, events[0]) && Reaches(Next(w, dQ, events[0]), dQ, events[1..], end)
  }

  /** The state is the integral of the input. */
  ghost predicate Integrates(w: World, dQ: real, x0: real) {
    Inv(w.s, dQ) && w.s.u == w.held && w.s.x == x0 + w.area
  }

  lemma AheadFrom(x0: real, area: real, u: real, e: real)
    ensures Ahead(x0 + area, u, e) == x0 + Ahead(area, u, e)
  {
  }

  lemma {:induction false} RunKeepsInv(w: World, dQ: real, x0: real, events: seq<Event>, end: World)
    requires Integrates(w, dQ, x0) && Reaches(w, dQ, events, end)
    ensures Integrates(end, dQ, x0)
    decreases |events|
  {
    if events != [] {
      match events[0] {
        case Input(u, e) => DextKeepsInv(w.s, dQ, u, e);
        case Tick => DintKeepsInv(w.s, dQ);
      }
      AheadFrom(x0, w.area, w.held, if events[0].Input? then events[0].e else w.s.sigma.secs);
      hide Inv, Wait, Ahead;
      RunKeepsInv(Next(w, dQ, events[0]), dQ, x0, events[1..], end);
    }
  }

  /** In every run the quantised value is within one quantum of the exact integral of the input, at every event
      and at every instant e before the next one, and the next wait is never negative. */
  lemma EveryRunStaysWithinOneQuantum(x0: real, dQ: real, events: seq<Event>, end: World, e: real)
    requires dQ > 0.0 && Reaches(Begin(x0, dQ), dQ, events, end) && end.s.sigma.Allows(e)
    ensures AbsReal(x0 + Ahead(end.area, end.held, e) - end.s.q) <= dQ
    ensures end.s.sigma.AtLeast(0.0)
  {
    InitSatisfiesInv(x0, dQ);
    InitIsAtRest(x0, dQ);
    AheadFrom(x0, end.area, end.held, e);
    hide Init;
    RunKeepsInv(Begin(x0, dQ), dQ, x0, events, end);
    WithinOneQuantum(end.s, dQ, e);
  }

  // ----- the output -----

  /** What is sent at the end of the wait is the state at that instant, which is also the next q. */
  predicate SendsItsState(s: Qss, dQ: real)
    requires s.sigma.Finite?
  {
    Lambda(s, dQ) == Ahead(s.x, s.u, s.sigma.secs) == Dint(s, dQ).q
  }

  lemma PositiveWaitSendsState(s: Qss, dQ: real)
    requires Inv(s, dQ) && s.sigma.Finite? && s.sigma.secs > 0.0
    ensures SendsItsState(s, dQ)
  {
    hide Ahead, Lambda;
    LambdaIsOneQuantum(s, dQ);
  }

  /** An input that is not simultaneous with a due output leaves the output exact, even if it makes it due now. */
  lemma InputKeepsOutputExact(s: Qss, dQ: real, u: real, e: real)
    requires Inv(s, dQ) && s.sigma.Allows(e) && s.sigma != Finite(0.0) && Dext(s, dQ, u, e).sigma.Finite?
    ensures SendsItsState(Dext(s, dQ, u, e), dQ)
  {
    WithinOneQuantum(s, dQ, e);
    LambdaIsOneQuantum(Dext(s, dQ, u, e), dQ);
    hide Wait, Ahead, Lambda;
    StandingStillWaits(Ahead(s.x, s.u, e), s.q, dQ);
    if u != 0.0 {
      WaitReachesLevel(Ahead(s.x, s.u, e), s.q, u, dQ);
    }
  }

  /** When an output is due at once and exact, a further input at that instant keeps it exact exactly when the
      direction of movement stays the same. */
  lemma SimultaneousInputIsHarmlessIff(s: Qss, dQ: real, u: real)
    requires Inv(s, dQ) && s.sigma == Finite(0.0) && SendsItsState(s, dQ)
    ensures SendsItsState(Dext(s, dQ, u, 0.0), dQ) <==> Sign(u) == Sign(s.u)
  {
    hide Lambda, Wait;
    LambdaIsOneQuantum(s, dQ);
    LambdaIsOneQuantum(Dext(s, dQ, u, 0.0), dQ);
  }

  /** The input that made the output due had just reached its level. */
  ghost predicate DueInv(w: World, dQ: real) {
    && Inv(w.s, dQ)
    && (w.s.sigma == Finite(0.0) && w.due.Some? ==> w.s.x == w.s.q + Quantum(dQ, w.due.value))
  }

  /** An output due at once that no input made due: there is only one, at the very beginning. */
  predicate DueFromStart(w: World) {
    w.s.sigma == Finite(0.0) && w.due.None?
  }

  lemma ZeroWaitIsAtLevel(x: real, q: real, u: real, dQ: real)
    requires AbsReal(x - q) <= dQ && Wait(x, q, u, dQ) == Finite(0.0)
    ensures x == q + Quantum(dQ, u)
  {
    StandingStillWaits(x, q, dQ);
    WaitReachesLevel(x, q, u, dQ);
  }

  lemma StepKeepsDueInv(w: World, dQ: real, event: Event)
    requires DueInv(w, dQ) && Possible(w, event)
    ensures DueInv(Next(w, dQ, event), dQ)
    ensures event.Tick? || !DueFromStart(w) ==> !DueFromStart(Next(w, dQ, event))
  {
    hide Wait, Quantum, AbsReal, Ahead;
    match event
    case Input(u, e) =>
      DextKeepsInv(w.s, dQ, u, e);
      WithinOneQuantum(w.s, dQ, e);
      var x := Ahead(w.s.x, w.s.u, e);
      if w.s.sigma == Finite(0.0) {
        NoTimeNoMove(w.s.x, w.s.u, e);
      } else if Wait(x, w.s.q, u, dQ) == Finite(0.0) {
        ZeroWaitIsAtLevel(x, w.s.q, u, dQ);
      }
    case Tick =>
      DintKeepsInv(w.s, dQ);
      if w.s.u != 0.0 {
        QuantumTakesTime(w.s, dQ);
      }
  }

  lemma NoTimeNoMove(x: real, u: real, e: real)
    ensures e == 0.0 ==> Ahead(x, u, e) == x
  {
  }

  lemma {:induction false} RunKeepsDueInv(w: World, dQ: real, events: seq<Event>, end: World)
    requires DueInv(w, dQ) && Reaches(w, dQ, events, end)
    ensures DueInv(end, dQ) && (Tick in events || !DueFromStart(w) ==> !DueFromStart(end))
    decreases |events|
  {
    hide DueInv, Next, Possible;
    if events != [] {
      StepKeepsDueInv(w, dQ, events[0]);
      RunKeepsDueInv(Next(w, dQ, events[0]), dQ, events[1..], end);
    }
  }

  /** Until the first output neither the state nor its quantised value has moved. */
  ghost predicate StartInv(w: World, dQ: real, x0: real)
    requires dQ > 0.0
  {
    DueFromStart(w) ==> w.s.x == x0 && w.s.q == Init(x0, dQ).q
  }

  lemma StepKeepsStart(w: World, dQ: real, x0: real, event: Event)
    requires dQ > 0.0 && DueInv(w, dQ) && StartInv(w, dQ, x0) && Possible(w, event)
    ensures StartInv(Next(w, dQ, event), dQ, x0)
  {
    StepKeepsDueInv(w, dQ, event);
    hide Wait, Ahead, DueInv, Init;
    if event.Input? {
      NoTimeNoMove(w.s.x, w.s.u, event.e);
    }
  }

  lemma {:induction false} RunKeepsStart(w: World, dQ: real, x0: real, events: seq<Event>, end: World)
    requires dQ > 0.0 && DueInv(w, dQ) && StartInv(w, dQ, x0) && Reaches(w, dQ, events, end)
    ensures StartInv(end, dQ, x0)
    decreases |events|
  {
    hide DueInv, Next, Possible, StartInv;
    if events != [] {
      StepKeepsDueInv(w, dQ, events[0]);
      StepKeepsStart(w, dQ, x0, events[0]);
      RunKeepsStart(Next(w, dQ, events[0]), dQ, x0, events[1..], end);
    }
  }

  /** The start is rounded down to the grid of quanta. */
  lemma InitRoundsDown(x: real, dQ: real)
    requires dQ > 0.0
    ensures 0.0 <= x - Init(x, dQ).q < dQ
  {
    var r := x / dQ;
    assert r * dQ == x;
    BelowOneQuantum(x, r, r.Floor as real, dQ);
  }

  lemma BelowOneQuantum(x: real, r: real, f: real, dQ: real)
    requires dQ > 0.0 && f <= r < f + 1.0 && r * dQ == x
    ensures 0.0 <= x - f * dQ < dQ
  {
    var rest, gap := r - f, f + 1.0 - r;
    NonnegativeProduct(rest, dQ);
    PositiveProduct(gap, dQ);
    assert rest * dQ == r * dQ - f * dQ;
    assert gap * dQ == f * dQ + dQ - r * dQ;
  }

  lemma FirstLevelIff(x0: real, dQ: real, u: real)
    requires dQ > 0.0
    ensures x0 == Init(x0, dQ).q + Quantum(dQ, u) <==> u == 0.0 && x0 == (x0 / dQ).Floor as real * dQ
  {
    InitRoundsDown(x0, dQ);
  }

  /** Main result: in every run, an output sent after a positive wait is the state at that instant and the next q;
      an output sent at once is so if and only if the direction is still that of the input that made it due, and
      the very first output if and only if the start lies on the grid of quanta and no nonzero input came before. */
  lemma OutputIsExactIff(x0: real, dQ: real, events: seq<Event>, end: World)
    requires dQ > 0.0 && Reaches(Begin(x0, dQ), dQ, events, end) && end.s.sigma.Finite?
    ensures end.s.sigma.secs > 0.0 ==> SendsItsState(end.s, dQ)
    ensures end.s.sigma.secs == 0.0 && end.due.Some? ==>
              (SendsItsState(end.s, dQ) <==> Sign(end.s.u) == Sign(end.due.value))
    ensures end.s.sigma.secs == 0.0 && end.due.None? ==>
              Tick !in events
              && (SendsItsState(end.s, dQ) <==> end.s.u == 0.0 && x0 == (x0 / dQ).Floor as real * dQ)
    ensures end.s.sigma.secs >= 0.0
  {
    hide Reaches, Lambda, Init;
    InitSatisfiesInv(x0, dQ);
    InitIsAtRest(x0, dQ);
    RunKeepsDueInv(Begin(x0, dQ), dQ, events, end);
    RunKeepsStart(Begin(x0, dQ), dQ, x0, events, end);
    FirstLevelIff(x0, dQ, end.s.u);
    LambdaIsOneQuantum(end.s, dQ);
    NoTimeNoMove(end.s.x, end.s.u, end.s.sigma.secs);
    if end.s.sigma.secs > 0.0 {
      PositiveWaitSendsState(end.s, dQ);
    }
  }

  /** Off the grid, the very first output is wrong with no input at all: a start at one half sends 0. */
  lemma FirstOutputMayBeWrong()
    ensures var start := Begin(0.5, 1.0);
            && Reaches(start, 1.0, [], start) && start.s.sigma == Finite(0.0)
            && Lambda(start.s, 1.0) == 0.0 && Dint(start.s, 1.0).q == 0.5
  {
    assert (0.5 / 1.0).Floor == 0;
  }

  /** Exact or not, an output is never further than two quanta from the state. */
  lemma OutputError(s: Qss, dQ: real)
    requires Inv(s, dQ) && s.sigma.Finite?
    ensures AbsReal(Lambda(s, dQ) - Dint(s, dQ).q) <= 2.0 * dQ
  {
    hide Lambda;
    LambdaIsOneQuantum(s, dQ);
    if s.sigma.secs > 0.0 {
      PositiveWaitSendsState(s, dQ);
    }
  }

  lemma WaitOfOne()
    ensures Wait(0.0, 0.0, 1.0, 1.0) == Finite(1.0) && Wait(1.0, 0.0, 1.0, 1.0) == Finite(0.0)
  {
  }

  /** The bound is reached: two inputs at the instant an output is due, the second reversing the first. */
  lemma ReversalSendsTheWrongLevel() returns (events: seq<Event>, end: World)
    ensures Reaches(Begin(0.0, 1.0), 1.0, events, end) && end.s.sigma == Finite(0.0)
    ensures Lambda(end.s, 1.0) == -1.0 && Dint(end.s, 1.0).q == 1.0
  {
    assert (0.0 / 1.0).Floor == 0;
    var w0 := Begin(0.0, 1.0);
    var w1 := World(Qss(0.0, 0.0, 0.0, Infinite), 0.0, 0.0, None);
    var w2 := World(Qss(0.0, 0.0, 1.0, Finite(1.0)), 1.0, 0.0, None);
    var w3 := World(Qss(1.0, 0.0, 1.0, Finite(0.0)), 1.0, 1.0, Some(1.0));
    end := World(Qss(1.0, 0.0, -1.0, Finite(0.0)), -1.0, 1.0, Some(1.0));
    WaitOfOne();
    hide Wait;
    assert Next(w0, 1.0, Tick) == w1;
    assert Next(w1, 1.0, Input(1.0, 0.0)) == w2;
    assert Next(w2, 1.0, Input(1.0, 1.0)) == w3;
    assert Next(w3, 1.0, Input(-1.0, 0.0)) == end;
    var e4 := [Input(-1.0, 0.0)];
    assert e4[1..] == [] && Reaches(w3, 1.0, e4, end);
    var e3 := [Input(1.0, 1.0)] + e4;
    assert e3[1..] == e4 && Reaches(w2, 1.0, e3, end);
    var e2 := [Input(1.0, 0.0)] + e3;
    assert e2[1..] == e3 && Reaches(w1, 1.0, e2, end);
    events := [Tick] + e2;
    assert events[1..] == e2;
  }
}
