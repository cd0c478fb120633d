/** The quantised-state weighted sum `wsum`: it tracks one polynomial per input port, but only up to the
    highest order seen so far. The order switching never changes the answer. */
module WeightedSum {
  import opened Devs

  function Value(x: real, m: real, p: real, e: real): real {
    x + m * e + p * e * e
  }

  function Slope(m: real, p: real, e: real): real {
    m + 2.0 * p * e
  }

  /** x + m * t + p * t * t. */
  datatype Poly = Poly(x: real, m: real, p: real) {
    /** The same polynomial written from a point e later. */
    function Shift(e: real): Poly {
      Poly(Value(x, m, p, e), Slope(m, p, e), p)
    }

    predicate Constant() {
      m == 0.0 && p == 0.0
    }
  }

  /** Written from a point e later, it is still the same polynomial. */
  lemma ShiftIsSamePolynomial(v: Poly, e: real, h: real)
    ensures var w := v.Shift(e);
            w.x + w.m * h + w.p * h * h == v.x + v.m * (e + h) + v.p * (e + h) * (e + h)
  {
    assert v.m * (e + h) == v.m * e + v.m * h;
    assert v.p * (e + h) * (e + h) == v.p * e * e + 2.0 * v.p * e * h + v.p * h * h;
  }

  const ZERO := Poly(0.0, 0.0, 0.0)

  /** The wait when nothing is to be sent. */
  const IDLE: real := 40000000000.0

  /** The first `order` coefficients are tracked; the others must be zero. */
  predicate Fits(polys: seq<Poly>, order: int) {
    && 1 <= order <= 3
    && (forall i :: 0 <= i < |polys| ==> (order < 2 ==> polys[i].m == 0.0) && (order < 3 ==> polys[i].p == 0.0))
  }

  /** A new polynomial on one port while the other tracked ones move on. */
  function Received(polys: seq<Poly>, n: nat, port: nat, v: Poly, e: real): seq<Poly> {
    seq(|polys|, i requires 0 <= i < |polys| =>
      if i == port then v else if i < n then polys[i].Shift(e) else polys[i])
  }

  /** The sum of k[i] * c[i] for i below n. */
  function Dot(k: seq<real>, c: seq<real>, n: nat): real
    requires n <= |k| && n <= |c|
  {
    if n == 0 then 0.0 else Dot(k, c, n - 1) + k[n - 1] * c[n - 1]
  }

  function Xs(polys: seq<Poly>): seq<real> {
    seq(|polys|, i requires 0 <= i < |polys| => polys[i].x)
  }

  function Ms(polys: seq<Poly>): seq<real> {
    seq(|polys|, i requires 0 <= i < |polys| => polys[i].m)
  }

  function Ps(polys: seq<Poly>): seq<real> {
    seq(|polys|, i requires 0 <= i < |polys| => polys[i].p)
  }

  function Weighted(k: seq<real>, polys: seq<Poly>, n: nat): Poly
    requires n <= |k| && n <= |polys|
  {
    Poly(Dot(k, Xs(polys), n), Dot(k, Ms(polys), n), Dot(k, Ps(polys), n))
  }

  lemma {:induction false} DotOfZeros(k: seq<real>, c: seq<real>, n: nat)
    requires n <= |k| && n <= |c| && forall i :: 0 <= i < n ==> c[i] == 0.0
    ensures Dot(k, c, n) == 0.0
    decreases n
  {
    if n > 0 {
      DotOfZeros(k, c, n - 1);
    }
  }

  /** Shifting changes nothing in a constant and only the value of a line. */
  lemma LowOrderShift(v: Poly, e: real)
    ensures v.p == 0.0 ==> v.Shift(e) == v.(x := v.x + v.m * e)
    ensures v.Constant() ==> v.Shift(e) == v
  {
    if v.p == 0.0 {
      assert v.p * e * e == 0.0 && 2.0 * v.p * e == 0.0;
    }
  }

  class Wsum {
    const k: array<real>
    const xs: array<real>
    const mxs: array<real>
    const pxs: array<real>
    const s: array<real>
    const n: nat
    var sigma: real
    var order: int

    ghost predicate Valid()
      reads this, xs, mxs, pxs
    {
      && n <= 8
      && k.Length == 8 && xs.Length == 8 && mxs.Length == 8 && pxs.Length == 8 && s.Length == 10
      && k != xs && k != mxs && k != pxs && k != s && xs != mxs && xs != pxs && xs != s
      && mxs != pxs && mxs != s && pxs != s
      && Fits(Polys(), order)
    }

    ghost function Polys(): (r: seq<Poly>)
      requires xs.Length == 8 && mxs.Length == 8 && pxs.Length == 8
      reads xs, mxs, pxs
      ensures |r| == 8
    {
      seq(8, i requires 0 <= i < 8 reads xs, mxs, pxs => Poly(xs[i], mxs[i], pxs[i]))
    }

    constructor (weights: seq<real>, ports: nat)
      requires |weights| == 8 && ports <= 8
      ensures Valid() && n == ports && k[..] == weights && order == 1 && sigma == IDLE
      ensures Polys() == seq(8, i => ZERO)
      ensures fresh(k) && fresh(xs) && fresh(mxs) && fresh(pxs) && fresh(s)
    {
      n := ports;
      k := new real[8](i requires 0 <= i < 8 => weights[i]);
      xs := new real[8](_ => 0.0);
      mxs := new real[8](_ => 0.0);
      pxs := new real[8](_ => 0.0);
      s := new real[10](_ => 0.0);
      order := 1;
      sigma := IDLE;
    }

    method OnDint()
      requires Valid()
      modifies this
      ensures Valid() && sigma == IDLE && order == old(order)
    {
      sigma := IDLE;
    }

    /** Whatever the order was, the tracked polynomials are what a second-order model would hold. */
    method OnDext(port: nat, xv: seq<real>, e: real)
      requires Valid() && port < 8 && |xv| >= 3
      modifies this, xs, mxs, pxs
      ensures Valid() && sigma == 0.0
      ensures Polys() == Received(old(Polys()), n, port, Poly(xv[0], xv[1], xv[2]), e)
    {
      ghost var was := Polys();
      assert order < 2 ==> forall i :: 0 <= i < 8 ==> mxs[i] == was[i].m == 0.0;
      assert order < 3 ==> forall i :: 0 <= i < 8 ==> pxs[i] == was[i].p == 0.0;
      match order {
      case 1 =>
        xs[port] := xv[0];
        if xv[1] != 0.0 {
          order := 2;
          mxs[port] := xv[1];
        }
        if xv[2] != 0.0 {
          order := 3;
          pxs[port] := xv[2];
        }
      case 2 =>
        xs[port] := xv[0];
        AdvanceLinear(port, e);
        mxs[port] := xv[1];
        if xv[2] != 0.0 {
          order := 3;
          pxs[port] := xv[2];
        }
      case _ =>
        xs[port] := xv[0];
        mxs[port] := xv[1];
        pxs[port] := xv[2];
        AdvanceQuadratic(port, e);
      }
      forall i | 0 <= i < 8
        ensures Polys()[i] == Received(was, n, port, Poly(xv[0], xv[1], xv[2]), e)[i]
      {
        LowOrderShift(was[i], e);
      }
      assert Polys() == Received(was, n, port, Poly(xv[0], xv[1], xv[2]), e);
      sigma := 0.0;
    }

    /** The loop of order 2. */
    method AdvanceLinear(port: nat, e: real)
      requires n <= 8 && xs.Length == 8 && mxs.Length == 8 && xs != mxs
      modifies xs
      ensures forall i :: 0 <= i < 8 ==> xs[i] == old(xs[i]) + if i < n && i != port then mxs[i] * e else 0.0
    {
      for i := 0 to n
        invariant forall j :: 0 <= j < 8 ==> xs[j] == old(xs[j]) + if j < i && j != port then mxs[j] * e else 0.0
      {
        if i != port {
          xs[i] := xs[i] + mxs[i] * e;
        }
      }
    }

    /** The loop of order 3. */
    method AdvanceQuadratic(port: nat, e: real)
      requires n <= 8 && xs.Length == 8 && mxs.Length == 8 && pxs.Length == 8
      requires xs != mxs && xs != pxs && mxs != pxs
      modifies xs, mxs
      ensures forall i :: 0 <= i < 8 ==>
                Poly(xs[i], mxs[i], pxs[i])
                == if i < n && i != port then old(Poly(xs[i], mxs[i], pxs[i])).Shift(e) else old(Poly(xs[i], mxs[i], pxs[i]))
    {
      for i := 0 to n
        invariant forall j :: 0 <= j < 8 ==>
                    Poly(xs[j], mxs[j], pxs[j])
                    == if j < i && j != port then old(Poly(xs[j], mxs[j], pxs[j])).Shift(e)
                       else old(Poly(xs[j], mxs[j], pxs[j]))
      {
        if i != port {
          xs[i] := xs[i] + mxs[i] * e + pxs[i] * e * e;
          mxs[i] := mxs[i] + 2.0 * pxs[i] * e;
        }
      }
    }

    /** The emitted value, slope and second coefficient are those of the full-order weighted sum. */
    method OnLambda()
      requires Valid()
      modifies s
      ensures Valid() && Polys() == old(Polys()) && k[..] == old(k[..])
      ensures Poly(s[0], s[1], s[2]) == Weighted(k[..], Polys(), n)
    {
      s[0], s[1], s[2] := 0.0, 0.0, 0.0;
      assert Xs(Polys()) == xs[..] && Ms(Polys()) == mxs[..] && Ps(Polys()) == pxs[..];
      assert order < 2 ==> forall i :: 0 <= i < 8 ==> Polys()[i].m == mxs[..][i];
      assert order < 3 ==> forall i :: 0 <= i < 8 ==> Polys()[i].p == pxs[..][i];
      SumUp();
      if order < 2 {
        DotOfZeros(k[..], mxs[..], n);
      }
      if order < 3 {
        DotOfZeros(k[..], pxs[..], n);
      }
    }

    /** The loops of `lambda`: as many accumulators as the order. */
    method SumUp()
      requires n <= 8 && k.Length == 8 && xs.Length == 8 && mxs.Length == 8 && pxs.Length == 8 && s.Length == 10
      requires s != k && s != xs && s != mxs && s != pxs && s[0] == s[1] == s[2] == 0.0
      modifies s
      ensures s[0] == Dot(k[..], xs[..], n)
      ensures s[1] == if order >= 2 then Dot(k[..], mxs[..], n) else 0.0
      ensures s[2] == if order >= 3 then Dot(k[..], pxs[..], n) else 0.0
    {
      ghost var w, x, m, p := k[..], xs[..], mxs[..], pxs[..];
      for i := 0 to n
        invariant k[..] == w && xs[..] == x && mxs[..] == m && pxs[..] == p
        invariant s[0] == Dot(w, x, i)
        invariant s[1] == if order >= 2 then Dot(w, m, i) else 0.0
        invariant s[2] == if order >= 3 then Dot(w, p, i) else 0.0
      {
        assert k[i] == w[i] && xs[i] == x[i] && mxs[i] == m[i] && pxs[i] == p[i];
        s[0] := s[0] + k[i] * xs[i];
        if order >= 2 {
          s[1] := s[1] + k[i] * mxs[i];
        }
        if order >= 3 {
          s[2] := s[2] + k[i] * pxs[i];
        }
      }
    }
  }

  // ----- runs against model time -----

  datatype Event = Input(port: nat, v: Poly, e: real) | Tick

  /** A polynomial received at a time. */
  datatype Stamped = Stamped(time: real, poly: Poly) {
    function At(t: real): Poly {
      poly.Shift(t - time)
    }
  }

  /** What the model tracks, the clock, what each port last received, and what was sent. */
  datatype Sums = Sums(polys: seq<Poly>, sigma: real, now: real, last: seq<Stamped>, sent: seq<Stamped>)

  predicate Possible(w: Sums, event: Event) {
    event.Input? ==> event.port < |w.polys| && 0.0 <= event.e <= w.sigma
  }

  function Next(k: seq<real>, n: nat, w: Sums, event: Event): (w': Sums)
    requires n <= |k| && n <= |w.polys| == |w.last| && Possible(w, event)
    ensures |w'.polys| == |w'.last| == |w.polys|
  {
    match event
    case Input(port, v, e) =>
      Sums(Received(w.polys, n, port, v, e), 0.0, w.now + e, w.last[port := Stamped(w.now + e, v)], w.sent)
    case Tick =>
      var t := w.now + w.sigma;
      Sums(w.polys, IDLE, t, w.last, w.sent + [Stamped(t, Weighted(k, w.polys, n))])
  }

  ghost predicate Reaches(k: seq<real>, n: nat, w: Sums, events: seq<Event>, end: Sums)
    requires n <= |k| && n <= |w.polys| == |w.last|
    decreases |events|
  {
    if events == [] then w == end
    else
      && Possible(w, events[0])
      && Reaches(k, n, Next(k, n, w, events[0]), events[1..], end)
  }

  /** Each tracked polynomial is the one last received on its port, written from the present. */
  ghost predicate Current(w: Sums, n: nat)
    requires n <= |w.polys| == |w.last|
  {
    forall i :: 0 <= i < n ==> w.polys[i] == w.last[i].At(w.now)
  }

  lemma ShiftTwice(p: Poly, a: real, b: real)
    ensures p.Shift(a).Shift(b) == p.Shift(a + b) && p.Shift(0.0) == p
  {
    var c := a + b;
    assert p.p * c * c == p.p * a * a + 2.0 * p.p * a * b + p.p * b * b;
  }

  lemma InputKeepsCurrent(k: seq<real>, n: nat, w: Sums, event: Event)
    requires n <= |k| && n <= |w.polys| == |w.last| && Current(w, n) && event.Input? && Possible(w, event)
    ensures Current(Next(k, n, w, event), n)
  {
    var w' := Next(k, n, w, event);
    forall i | 0 <= i < n
      ensures w'.polys[i] == w'.last[i].At(w'.now)
    {
      var s := w.last[i];
      ShiftTwice(s.poly, w.now - s.time, event.e);
      ShiftTwice(event.v, 0.0, 0.0);
      assert w'.now - s.time == w.now - s.time + event.e;
    }
  }

  /** Ports from n on are not tracked: they keep what they received, written from the time it came. */
  lemma UntrackedStay(k: seq<real>, n: nat, w: Sums, event: Event, i: nat)
    requires n <= |k| && n <= i < |w.polys| == |w.last| && Possible(w, event) && w.polys[i] == w.last[i].poly
    ensures Next(k, n, w, event).polys[i] == Next(k, n, w, event).last[i].poly
  {
  }

  /** A wake-up without input forgets the time it waited: the tracked polynomials stay current exactly when
      they are all constant. After an input the wait is zero and nothing is forgotten. */
  lemma WakeUpIsHarmlessIff(k: seq<real>, n: nat, w: Sums)
    requires n <= |k| && n <= |w.polys| == |w.last| && Current(w, n) && w.sigma in {0.0, IDLE}
    ensures Current(Next(k, n, w, Tick), n)
            <==> w.sigma == 0.0 || forall i :: 0 <= i < n ==> w.polys[i].Constant()
  {
    var w' := Next(k, n, w, Tick);
    forall i | 0 <= i < n
      ensures w.polys[i] == w'.last[i].At(w'.now) <==> w.sigma == 0.0 || w.polys[i].Constant()
    {
      var s := w.last[i];
      ShiftTwice(s.poly, w.now - s.time, w.sigma);
      assert w'.now - s.time == w.now - s.time + w.sigma;
      ShiftTwice(w.polys[i], 0.0, 0.0);
    }
    if Current(w', n) {
      forall i | 0 <= i < n
        ensures w.sigma == 0.0 || w.polys[i].Constant()
      {
        assert w'.polys[i] == w'.last[i].At(w'.now);
      }
    }
  }

  // ----- what a wake-up sends -----

  /** The tracked polynomials written from a point e later. */
  function Shifted(polys: seq<Poly>, e: real): seq<Poly> {
    seq(|polys|, i requires 0 <= i < |polys| => polys[i].Shift(e))
  }

  function Added(a: Poly, b: Poly): Poly {
    Poly(a.x + b.x, a.m + b.m, a.p + b.p)
  }

  function Scaled(k: real, a: Poly): Poly {
    Poly(k * a.x, k * a.m, k * a.p)
  }

  lemma ShiftOfScaled(k: real, a: Poly, e: real)
    ensures Scaled(k, a.Shift(e)) == Scaled(k, a).Shift(e)
  {
    assert k * (a.m * e) == (k * a.m) * e && k * (a.p * e) == (k * a.p) * e;
    assert k * (a.p * e * e) == (k * a.p) * e * e;
  }

  lemma Distributes(x: real, y: real, e: real)
    ensures (x + y) * e == x * e + y * e
  {
  }

  lemma SameFactor(x: real, y: real, e: real)
    requires x == y
    ensures x * e == y * e
  {
  }

  lemma ValueOfAdded(x: real, m: real, p: real, x': real, m': real, p': real, e: real)
    ensures Value(x + x', m + m', p + p', e) == Value(x, m, p, e) + Value(x', m', p', e)
  {
    var u, v := p * e, p' * e;
    Distributes(m, m', e);
    Distributes(p, p', e);
    Distributes(u, v, e);
    SameFactor((p + p') * e, u + v, e);
  }

  lemma SlopeOfAdded(m: real, p: real, m': real, p': real, e: real)
    ensures Slope(m + m', p + p', e) == Slope(m, p, e) + Slope(m', p', e)
  {
    Distributes(2.0 * p, 2.0 * p', e);
    SameFactor(2.0 * (p + p'), 2.0 * p + 2.0 * p', e);
  }

  lemma ShiftOfAdded(a: Poly, b: Poly, e: real)
    ensures Added(a.Shift(e), b.Shift(e)) == Added(a, b).Shift(e)
  {
    hide Value, Slope;
    ValueOfAdded(a.x, a.m, a.p, b.x, b.m, b.p, e);
    SlopeOfAdded(a.m, a.p, b.m, b.p, e);
  }

  lemma WeightedStep(k: seq<real>, polys: seq<Poly>, n: nat)
    requires 0 < n <= |k| && n <= |polys|
    ensures Weighted(k, polys, n) == Added(Weighted(k, polys, n - 1), Scaled(k[n - 1], polys[n - 1]))
  {
  }

  /** The weighted sum moves like one polynomial. */
  lemma {:induction false} WeightedShift(k: seq<real>, polys: seq<Poly>, n: nat, e: real)
    requires n <= |k| && n <= |polys|
    ensures Weighted(k, Shifted(polys, e), n) == Weighted(k, polys, n).Shift(e)
    decreases n
  {
    if n == 0 {
      assert Weighted(k, polys, 0) == ZERO;
    } else {
      hide Weighted, Added, Scaled, Poly.Shift;
      WeightedShift(k, polys, n - 1, e);
      WeightedStep(k, polys, n);
      WeightedStep(k, Shifted(polys, e), n);
      ShiftOfScaled(k[n - 1], polys[n - 1], e);
      ShiftOfAdded(Weighted(k, polys, n - 1), Scaled(k[n - 1], polys[n - 1]), e);
    }
  }

  function ValueAt(p: Poly, h: real): real {
    p.x + p.m * h + p.p * h * h
  }

  /** The weighted sum at time t of what ports 0 to n - 1 last received, read as polynomials in the time since. */
  ghost function TrueSum(k: seq<real>, last: seq<Stamped>, n: nat, t: real): real
    requires n <= |k| && n <= |last|
  {
    if n == 0 then 0.0
    else TrueSum(k, last, n - 1, t) + k[n - 1] * ValueAt(last[n - 1].poly, t - last[n - 1].time)
  }

  /** From time t on, the polynomial is the sum that should be sent: it agrees with it in value, slope and second
      coefficient. */
  ghost predicate IsTheSum(p: Poly, k: seq<real>, last: seq<Stamped>, n: nat, t: real)
    requires n <= |k| && n <= |last|
  {
    forall h :: ValueAt(p, h) == TrueSum(k, last, n, t + h)
  }

  lemma SamePolynomial(a: Poly, b: Poly)
    requires forall h :: ValueAt(a, h) == ValueAt(b, h)
    ensures a == b
  {
    assert ValueAt(a, 0.0) == ValueAt(b, 0.0) && ValueAt(a, 1.0) == ValueAt(b, 1.0) && ValueAt(a, -1.0) == ValueAt(b, -1.0);
  }

  /** The weighted sum of polynomials written from time t is the true sum at every time t + h. */
  lemma {:induction false} WeightedIsTrueSum(k: seq<real>, n: nat, last: seq<Stamped>, polys: seq<Poly>, t: real, h: real)
    requires n <= |k| && n <= |last| == |polys| && forall i :: 0 <= i < n ==> polys[i] == last[i].At(t)
    ensures ValueAt(Weighted(k, polys, n), h) == TrueSum(k, last, n, t + h)
    decreases n
  {
    if n == 0 {
      assert Weighted(k, polys, 0) == ZERO;
    } else {
      WeightedIsTrueSum(k, n - 1, last, polys, t, h);
      var v, d := last[n - 1].poly, t - last[n - 1].time;
      ShiftedAt(v, d, h);
      WeightedStep(k, polys, n);
      hide Weighted, ValueAt;
      assert d + h == t + h - last[n - 1].time;
      AddedAt(Weighted(k, polys, n - 1), k[n - 1], v.Shift(d), h);
    }
  }

  lemma ShiftedAt(v: Poly, d: real, h: real)
    ensures ValueAt(v.Shift(d), h) == ValueAt(v, d + h)
  {
    ShiftIsSamePolynomial(v, d, h);
  }

  lemma AddedAt(a: Poly, c: real, u: Poly, h: real)
    ensures ValueAt(Added(a, Scaled(c, u)), h) == ValueAt(a, h) + c * ValueAt(u, h)
  {
    var x, y := c * u.m, c * u.p;
    assert (a.m + x) * h == a.m * h + c * (u.m * h);
    assert (a.p + y) * h * h == a.p * h * h + c * (u.p * h * h);
    assert c * (u.x + u.m * h + u.p * h * h) == c * u.x + c * (u.m * h) + c * (u.p * h * h);
  }

  /** Exactly the current polynomials give the sum. */
  lemma IsTheSumIff(p: Poly, k: seq<real>, n: nat, last: seq<Stamped>, polys: seq<Poly>, t: real)
    requires n <= |k| && n <= |last| == |polys| && forall i :: 0 <= i < n ==> polys[i] == last[i].At(t)
    ensures IsTheSum(p, k, last, n, t) <==> p == Weighted(k, polys, n)
  {
    hide ValueAt, Weighted, TrueSum;
    var w := Weighted(k, polys, n);
    forall h
      ensures ValueAt(w, h) == TrueSum(k, last, n, t + h)
    {
      WeightedIsTrueSum(k, n, last, polys, t, h);
    }
    if IsTheSum(p, k, last, n, t) {
      SamePolynomial(p, w);
    }
  }

  lemma ConstantIffStill(w: Poly)
    ensures w == w.Shift(IDLE) <==> w.Constant()
  {
  }

  /** What a wake-up sends is the weighted sum of what the ports last received, from that time on, if and only if no
      time passed or the weighted sum itself is constant. */
  lemma WakeUpSendsTheSumIff(k: seq<real>, n: nat, w: Sums)
    requires n <= |k| && n <= |w.polys| == |w.last| && Current(w, n) && w.sigma in {0.0, IDLE}
    ensures var w' := Next(k, n, w, Tick);
            && w'.now == w.now + w.sigma && w'.last == w.last
            && |w'.sent| == |w.sent| + 1 && w'.sent[..|w.sent|] == w.sent && w'.sent[|w.sent|].time == w'.now
            && (IsTheSum(w'.sent[|w.sent|].poly, k, w.last, n, w'.now)
                <==> w.sigma == 0.0 || Weighted(k, w.polys, n).Constant())
  {
    var sum, later := Weighted(k, w.polys, n), Shifted(w.polys, w.sigma);
    forall i | 0 <= i < n
      ensures later[i] == w.last[i].At(w.now + w.sigma)
    {
      var s := w.last[i];
      ShiftTwice(s.poly, w.now - s.time, w.sigma);
      assert w.now + w.sigma - s.time == w.now - s.time + w.sigma;
    }
    WeightedShift(k, w.polys, n, w.sigma);
    IsTheSumIff(sum, k, n, w.last, later, w.now + w.sigma);
    ConstantIffStill(sum);
    ShiftTwice(sum, 0.0, 0.0);
  }

  /** A ramp of slope one, left alone: the second output still says 0, forty thousand million seconds on. */
  lemma LongWaitSendsStaleValue() returns (events: seq<Event>, end: Sums)
    ensures Reaches([1.0], 1, Sums([ZERO], IDLE, 0.0, [Stamped(0.0, ZERO)], []), events, end)
    ensures end.now == IDLE && end.last == [Stamped(0.0, Poly(0.0, 1.0, 0.0))]
    ensures end.sent == [Stamped(0.0, Poly(0.0, 1.0, 0.0)), Stamped(IDLE, Poly(0.0, 1.0, 0.0))]
    ensures TrueSum([1.0], end.last, 1, IDLE) == 40000000000.0
  {
    var k, ramp := [1.0], Poly(0.0, 1.0, 0.0);
    var start := Sums([ZERO], IDLE, 0.0, [Stamped(0.0, ZERO)], []);
    var w1 := Next(k, 1, start, Input(0, ramp, 0.0));
    assert w1.polys == [ramp] && w1.last == [Stamped(0.0, ramp)] && w1.now == 0.0;
    OneWeight(ramp);
    var w2 := Next(k, 1, w1, Tick);
    assert w2.sent == [Stamped(0.0, ramp)];
    end := Next(k, 1, w2, Tick);
    assert Reaches(k, 1, end, [], end);
    assert [Tick][1..] == [] && Reaches(k, 1, w2, [Tick], end);
    assert [Tick, Tick][1..] == [Tick] && Reaches(k, 1, w1, [Tick, Tick], end);
    events := [Input(0, ramp, 0.0), Tick, Tick];
    assert events[1..] == [Tick, Tick];
    assert TrueSum(k, end.last, 0, IDLE) == 0.0;
  }

  lemma OneWeight(p: Poly)
    ensures Weighted([1.0], [p], 1) == p
  {
    assert Dot([1.0], Xs([p]), 0) == 0.0 && Dot([1.0], Ms([p]), 0) == 0.0 && Dot([1.0], Ps([p]), 0) == 0.0;
  }

  /** The wake-ups of a run find only constant polynomials. */
  ghost predicate Undisturbed(k: seq<real>, n: nat, w: Sums, events: seq<Event>)
    requires n <= |k| && n <= |w.polys| == |w.last|
    decreases |events|
  {
    events != [] && Possible(w, events[0]) ==>
      && (events[0].Tick? ==> w.sigma == 0.0 || forall i :: 0 <= i < n ==> w.polys[i].Constant())
      && Undisturbed(k, n, Next(k, n, w, events[0]), events[1..])
  }

  /** Along every undisturbed run the model stays current, so that whatever it sends next is what it should: value,
      slope and second coefficient at the time of sending of the weighted sum of what the ports last received. */
  lemma {:induction false} EveryRunSendsTheSum(k: seq<real>, n: nat, w: Sums, events: seq<Event>, end: Sums)
    requires n <= |k| && n <= |w.polys| == |w.last| && Current(w, n) && w.sigma in {0.0, IDLE}
    requires Undisturbed(k, n, w, events) && Reaches(k, n, w, events, end)
    ensures |end.polys| == |end.last| == |w.polys| && end.sigma in {0.0, IDLE} && Current(end, n)
    ensures end.sigma == 0.0 || (forall i :: 0 <= i < n ==> end.polys[i].Constant()) ==>
              var w' := Next(k, n, end, Tick);
              && w'.sent == end.sent + [Stamped(w'.now, Weighted(k, end.polys, n))]
              && IsTheSum(Weighted(k, end.polys, n), k, end.last, n, w'.now)
    decreases |events|
  {
    if events == [] {
      var w' := Next(k, n, end, Tick);
      if end.sigma == 0.0 || forall i :: 0 <= i < n ==> end.polys[i].Constant() {
        WakeUpIsHarmlessIff(k, n, end);
        IsTheSumIff(Weighted(k, end.polys, n), k, n, w'.last, w'.polys, w'.now);
      }
    } else {
      if events[0].Input? {
        InputKeepsCurrent(k, n, w, events[0]);
      } else {
        WakeUpIsHarmlessIff(k, n, w);
      }
      EveryRunSendsTheSum(k, n, Next(k, n, w, events[0]), events[1..], end);
    }
  }
}
