/** The chain rule, curves that agree where a third one is defined, and integer powers. */
module CalculusChain {
  import opened Devs
  import opened Expr
  import opened ExprSimplify
  import opened Calculus

  // ----- the chain rule -----

  /** How far the inner curve has moved at h. */
  function Shift(d: real, r: real, h: real): real {
    Mul(h, d + Mul(h, r))
  }

  function ChainRest(d: real, r: real, e: real, s: real, h: real): real {
    Mul(r, e) + Mul(Mul(d + Mul(h, r), d + Mul(h, r)), s)
  }

  lemma ChainIdentity(d: real, r: real, w: real, e: real, s: real, h: real)
    ensures Height(w, e, s, Shift(d, r, h)) == Height(w, Mul(e, d), ChainRest(d, r, e, s, h), h)
  {
    var t := d + h * r;
    assert (h * t) * e == h * (e * d) + h * h * (r * e);
    assert (h * t) * (h * t) * s == h * h * ((t * t) * s);
    assert h * h * (r * e + (t * t) * s) == h * h * (r * e) + h * h * ((t * t) * s);
  }

  lemma ShiftOf(v: real, d: real, r: real, h: real)
    ensures Line(v, d, r, h).Real? && Line(v, d, r, h).r - v == Shift(d, r, h)
  {
    assert h * (d + h * r) == h * d + h * h * r;
  }

  lemma ShiftIsSmall(d: real, r: real, k: real, h: real, near: real)
    requires -near <= h <= near <= 1.0 && AbsReal(r) <= k
    ensures AbsReal(d + Mul(h, r)) <= AbsReal(d) + k
    ensures AbsReal(Shift(d, r, h)) <= Mul(near, AbsReal(d) + k)
  {
    hide AbsReal, Mul;
    AbsAtMost(h, near);
    SmallFactor(h, r, k);
    AbsTriangle(d, Mul(h, r));
    BothBound(h, d + Mul(h, r), near, AbsReal(d) + k);
  }

  function ChainBound(d: real, k: real, e: real, k': real): real {
    Mul(k, AbsReal(e)) + Mul(Mul(AbsReal(d) + k, AbsReal(d) + k), k')
  }

  lemma ChainRestBounded(d: real, r: real, k: real, e: real, s: real, k': real, h: real, near: real)
    requires -near <= h <= near <= 1.0 && AbsReal(r) <= k && AbsReal(s) <= k'
    ensures AbsReal(ChainRest(d, r, e, s, h)) <= ChainBound(d, k, e, k')
  {
    ShiftIsSmall(d, r, k, h, near);
    hide AbsReal, Mul, Shift;
    SelfBound(e);
    BothBound(r, e, k, AbsReal(e));
    var t, m := d + Mul(h, r), AbsReal(d) + k;
    BothBound(t, t, m, m);
    BothBound(Mul(t, t), s, Mul(m, m), k');
    AbsTriangle(Mul(r, e), Mul(Mul(t, t), s));
  }

  /** How far the chain rule is known to hold. */
  function ChainRadius(d: real, k: real, delta: real, delta': real): real
    requires d >= 0.0 && k >= 0.0
  {
    Smaller(delta, delta' / (d + k + 1.0))
  }

  lemma ChainRadiusIsSmall(d: real, k: real, delta: real, delta': real)
    requires d >= 0.0 && k >= 0.0 && 0.0 < delta <= 1.0 && 0.0 < delta'
    ensures 0.0 < ChainRadius(d, k, delta, delta') <= delta
    ensures Mul(ChainRadius(d, k, delta, delta'), d + k) <= delta'
  {
    var m := d + k + 1.0;
    var q := delta' / m;
    assert q * m == delta';
    assert q > 0.0;
    var near := ChainRadius(d, k, delta, delta');
    NonnegativeProduct(q - near, d + k);
    assert q * (d + k) - near * (d + k) == (q - near) * (d + k);
    assert q * (d + k) == delta' - q;
  }

  function ChainRests(d: real, rest: real -> real, e: real, rest': real -> real): real -> real {
    h => ChainRest(d, rest(h), e, rest'(Shift(d, rest(h), h)), h)
  }

  lemma ChainRestsAt(d: real, rest: real -> real, e: real, rest': real -> real, h: real)
    ensures ChainRests(d, rest, e, rest')(h) == ChainRest(d, rest(h), e, rest'(Shift(d, rest(h), h)), h)
  {
  }

  lemma NonnegativeAbs(x: real)
    ensures AbsReal(x) >= 0.0
  {
  }

  lemma ChainPoint(f: Curve, v: real, d: real, delta: real, k: real, rest: real -> real,
                   g: Curve, w: real, e: real, delta': real, k': real, rest': real -> real,
                   s: Curve, h: real, near: real)
    requires Expands(f, v, d, delta, k, rest) && Expands(g, w, e, delta', k', rest')
    requires f(h).Real? ==> s(h) == g(f(h).r - v)
    requires near <= delta && -near <= h <= near <= 1.0 && Mul(near, AbsReal(d) + k) <= delta'
    ensures s(h) == Line(w, Mul(e, d), ChainRests(d, rest, e, rest')(h), h)
    ensures AbsReal(ChainRests(d, rest, e, rest')(h)) <= ChainBound(d, k, e, k')
  {
    hide Expands, Line, Mul, Shift, ChainRest, ChainRests, ChainBound;
    var r := rest(h);
    ExpandsAt(f, v, d, delta, k, rest, h);
    ShiftOf(v, d, r, h);
    ShiftIsSmall(d, r, k, h, near);
    var u := Shift(d, r, h);
    ExpandsAt(g, w, e, delta', k', rest', u);
    ChainRestsAt(d, rest, e, rest', h);
    SameLine(d, r, w, e, rest'(u), h);
    ChainRestBounded(d, r, k, e, rest'(u), k', h, near);
  }

  lemma SameLine(d: real, r: real, w: real, e: real, s: real, h: real)
    ensures Line(w, e, s, Shift(d, r, h)) == Line(w, Mul(e, d), ChainRest(d, r, e, s, h), h)
  {
    hide Height, Mul, Shift, ChainRest;
    ChainIdentity(d, r, w, e, s, h);
  }

  /** g is given around the value v of f. */
  lemma ChainRule(f: Curve, v: real, d: real, g: Curve, w: real, e: real, s: Curve)
    requires HasDerivative(f, v, d) && HasDerivative(g, w, e)
    requires forall h :: f(h).Real? ==> s(h) == g(f(h).r - v)
    ensures HasDerivative(s, w, Mul(e, d))
  {
    var delta, k, rest :| Expands(f, v, d, delta, k, rest);
    var delta', k', rest' :| Expands(g, w, e, delta', k', rest');
    ChainExpands(f, v, d, delta, k, rest, g, w, e, delta', k', rest', s);
  }

  lemma ChainExpands(f: Curve, v: real, d: real, delta: real, k: real, rest: real -> real,
                     g: Curve, w: real, e: real, delta': real, k': real, rest': real -> real, s: Curve)
    requires Expands(f, v, d, delta, k, rest) && Expands(g, w, e, delta', k', rest')
    requires forall h :: f(h).Real? ==> s(h) == g(f(h).r - v)
    ensures HasDerivative(s, w, Mul(e, d))
  {
    hide Line, Mul, ChainRests, ChainBound, ChainRadius, AbsReal;
    ExpandsAt(f, v, d, delta, k, rest, 0.0);
    BoundIsNonnegative(rest(0.0), k);
    NonnegativeAbs(d);
    var near := ChainRadius(AbsReal(d), k, delta, delta');
    ChainRadiusIsSmall(AbsReal(d), k, delta, delta');
    var both, bound := ChainRests(d, rest, e, rest'), ChainBound(d, k, e, k');
    forall h | -near <= h <= near
      ensures s(h) == Line(w, Mul(e, d), both(h), h) && AbsReal(both(h)) <= bound
    {
      hide Expands;
      ChainPoint(f, v, d, delta, k, rest, g, w, e, delta', k', rest', s, h, near);
    }
    assert Expands(s, w, Mul(e, d), near, bound, both);
  }

  // ----- curves that agree where others are defined -----

  /** s is f wherever f, a and b are real. */
  lemma SameCurve(f: Curve, v: real, d: real, a: Curve, v': real, d': real, b: Curve, v'': real, d'': real, s: Curve)
    requires HasDerivative(f, v, d) && HasDerivative(a, v', d') && HasDerivative(b, v'', d'')
    requires forall h :: f(h).Real? && a(h).Real? && b(h).Real? ==> s(h) == f(h)
    ensures HasDerivative(s, v, d)
  {
    var delta, k, rest :| Expands(f, v, d, delta, k, rest);
    var delta', k', rest' :| Expands(a, v', d', delta', k', rest');
    var delta'', k'', rest'' :| Expands(b, v'', d'', delta'', k'', rest'');
    hide Line, AbsReal;
    var near := Smaller(delta, Smaller(delta', delta''));
    forall h | -near <= h <= near
      ensures s(h) == Line(v, d, rest(h), h) && AbsReal(rest(h)) <= k
    {
      hide Expands;
      ExpandsAt(f, v, d, delta, k, rest, h);
      ExpandsAt(a, v', d', delta', k', rest', h);
      ExpandsAt(b, v'', d'', delta'', k'', rest'', h);
      LineIsReal(v, d, rest(h), h);
      LineIsReal(v', d', rest'(h), h);
      LineIsReal(v'', d'', rest''(h), h);
    }
    assert Expands(s, v, d, near, k, rest);
  }

  ghost predicate SameWithin(s: Curve, f: Curve, near: real) {
    near > 0.0 && forall h :: -near <= h <= near ==> s(h) == f(h)
  }

  lemma SameNear(s: Curve, f: Curve, near: real, v: real, d: real)
    requires SameWithin(s, f, near) && HasDerivative(f, v, d)
    ensures HasDerivative(s, v, d)
  {
    var delta, k, rest :| Expands(f, v, d, delta, k, rest);
    hide Line, AbsReal;
    assert Expands(s, v, d, Smaller(delta, near), k, rest);
  }

  /** s is t wherever f is not zero: t is multiplied and divided by f. */
  lemma SameWhereNonzero(t: Curve, w: real, e: real, f: Curve, v: real, d: real, s: Curve)
    requires HasDerivative(t, w, e) && HasDerivative(f, v, d) && v != 0.0
    requires forall h :: f(h).Real? && f(h).r != 0.0 && t(h).Real? ==> s(h) == t(h)
    ensures HasDerivative(s, w, e)
  {
    hide HasDerivative, Mul, DivV, TimesV;
    var z := 1.0 / v;
    var p: Curve := h => TimesV(t(h), f(h));
    ProductRule(t, w, e, f, v, d, p);
    forall h | p(h).Real? && f(h).Real? && f(h).r != 0.0
      ensures s(h) == DivV(p(h), f(h))
    {
      TimesAndDivided(t(h), f(h));
    }
    QuotientRule(p, Mul(w, v), Mul(e, v) + Mul(w, d), f, v, d, s, z);
    UndoneSlope(w, e, v, d, z);
  }

  lemma TimesAndDivided(a: Value, b: Value)
    requires b.Real? && b.r != 0.0 && TimesV(a, b).Real?
    ensures a.Real? && DivV(TimesV(a, b), b) == a
  {
    QuotientUnique(a.r * b.r, b.r, a.r);
  }

  lemma UndoneSlope(w: real, e: real, v: real, d: real, z: real)
    requires z * v == 1.0
    ensures Mul(Mul(w, v), z) == w
    ensures Mul(Mul(e, v) + Mul(w, d), z) + Mul(Mul(w, v), -Mul(d, Mul(z, z))) == e
  {
    assert (w * v) * z == w * (z * v);
    assert (e * v + w * d) * z == e * (z * v) + w * d * z;
    assert (w * v) * (-(d * (z * z))) == -(w * d * z * (z * v));
  }

  // ----- integer powers -----

  /** What a power with an integer exponent computes for a nonzero base. */
  function IntPow(x: real, n: int): real
    requires x != 0.0
  {
    if n >= 0 then NatPow(x, n)
    else
      NatPowNonzero(x, -n);
      1.0 / NatPow(x, -n)
  }

  lemma {:induction false} IntPowerRule(f: Curve, v: real, d: real, n: int, s: Curve)
    requires HasDerivative(f, v, d) && v != 0.0
    requires forall h :: f(h).Real? && f(h).r != 0.0 ==> s(h) == Real(IntPow(f(h).r, n))
    ensures HasDerivative(s, IntPow(v, n), Mul(Mul(n as real, d), IntPow(v, n - 1)))
  {
    hide HasDerivative, Mul, PowerSlope, NatPow;
    var m: nat := if n >= 0 then n else -n;
    var t: Curve := h => PowerV(f(h), m);
    PowerRule(f, v, d, m, t);
    var w, e := NatPow(v, m), PowerSlope(v, d, m);
    if n >= 0 {
      SameWhereNonzero(t, w, e, f, v, d, s);
      NaturalSlope(v, d, m);
    } else {
      NatPowNonzero(v, m);
      var z := 1.0 / w;
      assert z * w == 1.0;
      forall h | t(h).Real? && t(h).r != 0.0
        ensures s(h) == Real(1.0 / t(h).r)
      {
        ZeroPower(m);
      }
      ReciprocalRule(t, w, e, s, z);
      NegativeSlope(v, d, n, z);
    }
  }

  lemma ZeroPower(m: nat)
    requires m >= 1
    ensures NatPow(0.0, m) == 0.0
  {
    assert NatPow(0.0, m) == 0.0 * NatPow(0.0, m - 1);
  }

  lemma NaturalSlope(v: real, d: real, n: nat)
    requires v != 0.0
    ensures PowerSlope(v, d, n) == Mul(Mul(n as real, d), IntPow(v, n - 1))
  {
    if n == 0 {
      assert (0.0 * d) * IntPow(v, -1) == 0.0;
    }
  }

  lemma NegativeSlope(v: real, d: real, n: int, z: real)
    requires v != 0.0 && n < 0 && z * NatPow(v, -n) == 1.0
    ensures -Mul(PowerSlope(v, d, -n), Mul(z, z)) == Mul(Mul(n as real, d), IntPow(v, n - 1))
  {
    var p, x := NatPow(v, -n - 1), (-n) as real;
    NatPowNonzero(v, 1 - n);
    var q := IntPow(v, n - 1);
    hide NatPow;
    LastFactor(v, -n - 1);
    LastFactor(v, -n);
    assert q * (v * (v * p)) == 1.0;
    InverseSquare(v, p, z, q);
    assert -((x * d * p) * (z * z)) == (-x * d) * (p * (z * z));
  }

  lemma LastFactor(v: real, n: nat)
    ensures NatPow(v, n + 1) == v * NatPow(v, n)
  {
  }

  lemma InverseSquare(v: real, p: real, z: real, q: real)
    requires z * (v * p) == 1.0 && q * (v * (v * p)) == 1.0
    ensures q == p * (z * z)
  {
    assert (p * (z * z)) * (v * (v * p)) == (z * (v * p)) * (z * (v * p));
    var n := v * (v * p);
    assert n != 0.0;
    assert (q - p * (z * z)) * n == 0.0;
  }
}
