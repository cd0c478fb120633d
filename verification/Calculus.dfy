/** Derivatives of real functions that may have errors as values, in the form the symbolic differentiator
    needs: the rules for sums, products, reciprocals and natural powers. */
module Calculus {
  import opened Devs
  import opened Expr
  import opened ExprSimplify

  type Curve = real -> Value

  /** Near 0 the curve is a line up to a quadratic remainder whose coefficient stays bounded. */
  ghost predicate Expands(f: Curve, v: real, d: real, delta: real, k: real, rest: real -> real) {
    && 0.0 < delta <= 1.0
    && forall h :: -delta <= h <= delta ==> f(h) == Line(v, d, rest(h), h) && AbsReal(rest(h)) <= k
  }

  function Height(v: real, d: real, r: real, h: real): real {
    v + h * d + h * h * r
  }

  function Line(v: real, d: real, r: real, h: real): Value {
    Real(Height(v, d, r, h))
  }

  /** f is defined around 0, equals v there, and has derivative d there. */
  ghost predicate HasDerivative(f: Curve, v: real, d: real) {
    exists delta, k, rest :: Expands(f, v, d, delta, k, rest)
  }

  function Smaller(x: real, y: real): real {
    if x < y then x else y
  }

  /** A curve has at most one derivative. */
  lemma DerivativeIsUnique(f: Curve, v: real, d: real, e: real)
    requires HasDerivative(f, v, d) && HasDerivative(f, v, e)
    ensures d == e
  {
    var delta, k, rest :| Expands(f, v, d, delta, k, rest);
    var delta', k', rest' :| Expands(f, v, e, delta', k', rest');
    hide Expands;
    SameSlope(f, v, d, delta, k, rest, e, delta', k', rest');
  }

  lemma SameSlope(f: Curve, v: real, d: real, delta: real, k: real, rest: real -> real,
                  e: real, delta': real, k': real, rest': real -> real)
    requires Expands(f, v, d, delta, k, rest) && Expands(f, v, e, delta', k', rest')
    ensures d == e
  {
    hide Expands, Line, Step, AbsReal;
    ExpandsAt(f, v, d, delta, k, rest, 0.0);
    ExpandsAt(f, v, e, delta', k', rest', 0.0);
    if d != e {
      GapIsPositive(d, e);
      BoundIsNonnegative(rest(0.0), k);
      BoundIsNonnegative(rest'(0.0), k');
      var h := Step(AbsReal(d - e), k + k' + 1.0, Smaller(delta, delta'));
      ExpandsAt(f, v, d, delta, k, rest, h);
      ExpandsAt(f, v, e, delta', k', rest', h);
      SlopesApart(v, d, rest(h), e, rest'(h), h, k, k');
    }
  }

  lemma ExpandsAt(f: Curve, v: real, d: real, delta: real, k: real, rest: real -> real, h: real)
    requires Expands(f, v, d, delta, k, rest)
    ensures 0.0 < delta && (-delta <= h <= delta ==> f(h) == Line(v, d, rest(h), h) && AbsReal(rest(h)) <= k)
  {
  }

  lemma GapIsPositive(d: real, e: real)
    requires d != e
    ensures AbsReal(d - e) > 0.0
  {
  }

  lemma BoundIsNonnegative(x: real, k: real)
    requires AbsReal(x) <= k
    ensures k >= 0.0
  {
  }

  function Step(gap: real, m: real, delta: real): (h: real)
    requires gap > 0.0 && m >= 1.0 && delta > 0.0
    ensures 0.0 < h <= delta && h * m < gap
  {
    var q := gap / (2.0 * m);
    assert q * (2.0 * m) == gap;
    assert q > 0.0;
    if delta < q then
      NonnegativeProduct(q - delta, m);
      delta
    else q
  }

  lemma SlopesApart(v: real, d: real, r: real, e: real, s: real, h: real, k: real, k': real)
    requires 0.0 < h && AbsReal(r) <= k && AbsReal(s) <= k' && Line(v, d, r, h) == Line(v, e, s, h)
    ensures AbsReal(d - e) <= h * (k + k' + 1.0)
  {
    hide AbsReal, Mul;
    assert Height(v, d, r, h) == Height(v, e, s, h) by {
      hide Height;
    }
    SlopeGap(v, d, r, e, s, h);
    DifferenceBound(r, s, k, k');
    StepBound(h, s - r, k + k' + 1.0);
  }

  lemma SlopeGap(v: real, d: real, r: real, e: real, s: real, h: real)
    requires 0.0 < h && Height(v, d, r, h) == Height(v, e, s, h)
    ensures d - e == Mul(h, s - r)
  {
    assert h * (d - e) == h * (h * (s - r));
    assert h * ((d - e) - h * (s - r)) == 0.0;
  }

  lemma DifferenceBound(r: real, s: real, k: real, k': real)
    requires AbsReal(r) <= k && AbsReal(s) <= k'
    ensures AbsReal(s - r) <= k + k' + 1.0
  {
  }

  lemma StepBound(h: real, x: real, m: real)
    requires 0.0 < h && AbsReal(x) <= m
    ensures AbsReal(Mul(h, x)) <= h * m
  {
    AbsTimes(h, x);
    NonnegativeProduct(h, m - AbsReal(x));
    assert h * (m - AbsReal(x)) == h * m - h * AbsReal(x);
  }

  // ----- bounds -----

  /** A product as a name, so that bounds can be chained without expanding it. */
  function Mul(x: real, y: real): real {
    x * y
  }

  lemma NonnegativeProduct(x: real, y: real)
    requires x >= 0.0 && y >= 0.0
    ensures x * y >= 0.0
  {
  }

  lemma AbsTimes(x: real, y: real)
    ensures AbsReal(x * y) == AbsReal(x) * AbsReal(y)
  {
  }

  lemma TimesBound(x: real, y: real, m: real)
    requires AbsReal(y) <= m
    ensures AbsReal(Mul(x, y)) <= Mul(AbsReal(x), m)
  {
    AbsTimes(x, y);
    NonnegativeProduct(AbsReal(x), m - AbsReal(y));
    assert AbsReal(x) * m - AbsReal(x) * AbsReal(y) == AbsReal(x) * (m - AbsReal(y));
  }

  /** A factor of at most one does not enlarge. */
  lemma SmallFactor(h: real, y: real, m: real)
    requires -1.0 <= h <= 1.0 && AbsReal(y) <= m
    ensures AbsReal(Mul(h, y)) <= m
  {
    AbsTimes(h, y);
    NonnegativeProduct(1.0 - AbsReal(h), AbsReal(y));
    assert AbsReal(y) - AbsReal(h) * AbsReal(y) == (1.0 - AbsReal(h)) * AbsReal(y);
  }

  lemma BothBound(x: real, y: real, m: real, n: real)
    requires AbsReal(x) <= m && AbsReal(y) <= n
    ensures AbsReal(Mul(x, y)) <= Mul(m, n)
  {
    TimesBound(x, y, n);
    NonnegativeProduct(m - AbsReal(x), n);
    assert m * n - AbsReal(x) * n == (m - AbsReal(x)) * n;
  }

  // ----- constants, the variable, sums -----

  lemma ConstantRule(f: Curve, v: real)
    requires forall h :: f(h) == Real(v)
    ensures HasDerivative(f, v, 0.0)
  {
    assert Expands(f, v, 0.0, 1.0, 0.0, h => 0.0);
  }

  lemma VariableRule(f: Curve, v: real)
    requires forall h :: f(h) == Real(v + h)
    ensures HasDerivative(f, v, 1.0)
  {
    assert Expands(f, v, 1.0, 1.0, 0.0, h => 0.0);
  }

  lemma OppositeRule(f: Curve, v: real, d: real, g: Curve)
    requires HasDerivative(f, v, d) && forall h :: g(h) == OppV(f(h))
    ensures HasDerivative(g, -v, -d)
  {
    var delta, k, rest :| Expands(f, v, d, delta, k, rest);
    var minus := (h: real) => -rest(h);
    forall h | -delta <= h <= delta
      ensures g(h) == Line(-v, -d, minus(h), h) && AbsReal(minus(h)) <= k
    {
      assert f(h) == Line(v, d, rest(h), h) && AbsReal(rest(h)) <= k;
    }
    assert Expands(g, -v, -d, delta, k, minus);
  }

  lemma SumOfLines(v: real, d: real, r: real, w: real, e: real, s: real, h: real, k: real, k': real)
    requires AbsReal(r) <= k && AbsReal(s) <= k'
    ensures AddV(Line(v, d, r, h), Line(w, e, s, h)) == Line(v + w, d + e, r + s, h) && AbsReal(r + s) <= k + k'
  {
    assert h * (d + e) == h * d + h * e && h * h * (r + s) == h * h * r + h * h * s;
  }

  lemma SumRule(f: Curve, v: real, d: real, g: Curve, w: real, e: real, s: Curve)
    requires HasDerivative(f, v, d) && HasDerivative(g, w, e) && forall h :: s(h) == AddV(f(h), g(h))
    ensures HasDerivative(s, v + w, d + e)
  {
    var delta, k, rest :| Expands(f, v, d, delta, k, rest);
    var delta', k', rest' :| Expands(g, w, e, delta', k', rest');
    SumExpands(f, v, d, delta, k, rest, g, w, e, delta', k', rest', s);
  }

  lemma SumExpands(f: Curve, v: real, d: real, delta: real, k: real, rest: real -> real,
                   g: Curve, w: real, e: real, delta': real, k': real, rest': real -> real, s: Curve)
    requires Expands(f, v, d, delta, k, rest) && Expands(g, w, e, delta', k', rest')
    requires forall h :: s(h) == AddV(f(h), g(h))
    ensures HasDerivative(s, v + w, d + e)
  {
    hide Line, AddV, AbsReal;
    var both := (h: real) => rest(h) + rest'(h);
    var near := Smaller(delta, delta');
    forall h | -near <= h <= near
      ensures s(h) == Line(v + w, d + e, both(h), h) && AbsReal(both(h)) <= k + k'
    {
      hide Expands;
      ExpandsAt(f, v, d, delta, k, rest, h);
      ExpandsAt(g, w, e, delta', k', rest', h);
      SumOfLines(v, d, rest(h), w, e, rest'(h), h, k, k');
    }
    assert Expands(s, v + w, d + e, near, k + k', both);
  }

  // ----- products -----

  function ProductRest(a0: real, a1: real, r: real, b0: real, b1: real, s: real, h: real): real {
    Mul(a1, b1) + Mul(a0, s) + Mul(a1, Mul(h, s)) + Mul(b0, r) + Mul(b1, Mul(h, r)) + Mul(Mul(h, Mul(h, r)), s)
  }

  function TimesV(a: Value, b: Value): Value {
    if a.Real? && b.Real? then Real(a.r * b.r) else ErrVal
  }

  lemma ProductIdentity(a0: real, a1: real, r: real, b0: real, b1: real, s: real, h: real)
    ensures Height(a0, a1, r, h) * Height(b0, b1, s, h)
            == Height(a0 * b0, a1 * b0 + a0 * b1,
                      a1 * b1 + a0 * s + a1 * (h * s) + b0 * r + b1 * (h * r) + (h * (h * r)) * s, h)
  {
    var x, y, q := a0 + h * a1, b0 + h * b1, h * h;
    assert (x + q * r) * (y + q * s) == x * y + q * (x * s + y * r + q * r * s);
    assert x * y == a0 * b0 + h * (a1 * b0 + a0 * b1) + q * (a1 * b1);
    assert x * s == a0 * s + a1 * (h * s);
    assert y * r == b0 * r + b1 * (h * r);
  }

  lemma SameHeight(v: real, v': real, d: real, d': real, r: real, r': real, h: real)
    requires v == v' && d == d' && r == r'
    ensures Height(v, d, r, h) == Height(v', d', r', h)
  {
  }

  lemma ProductOfLines(a0: real, a1: real, r: real, b0: real, b1: real, s: real, h: real)
    ensures TimesV(Line(a0, a1, r, h), Line(b0, b1, s, h))
            == Line(Mul(a0, b0), Mul(a1, b0) + Mul(a0, b1), ProductRest(a0, a1, r, b0, b1, s, h), h)
  {
    hide Height;
    ProductIdentity(a0, a1, r, b0, b1, s, h);
    SameHeight(a0 * b0, Mul(a0, b0), a1 * b0 + a0 * b1, Mul(a1, b0) + Mul(a0, b1),
               a1 * b1 + a0 * s + a1 * (h * s) + b0 * r + b1 * (h * r) + (h * (h * r)) * s,
               ProductRest(a0, a1, r, b0, b1, s, h), h);
  }

  lemma SumOfSix(t1: real, t2: real, t3: real, t4: real, t5: real, t6: real,
                 m1: real, m2: real, m3: real, m4: real, m5: real, m6: real)
    requires AbsReal(t1) <= m1 && AbsReal(t2) <= m2 && AbsReal(t3) <= m3
    requires AbsReal(t4) <= m4 && AbsReal(t5) <= m5 && AbsReal(t6) <= m6
    ensures AbsReal(t1 + t2 + t3 + t4 + t5 + t6) <= m1 + m2 + m3 + m4 + m5 + m6
  {
  }

  function ProductBound(a0: real, a1: real, ka: real, b0: real, b1: real, kb: real): real {
    AbsReal(Mul(a1, b1)) + Mul(AbsReal(a0), kb) + Mul(AbsReal(a1), kb) + Mul(AbsReal(b0), ka) + Mul(AbsReal(b1), ka)
    + Mul(ka, kb)
  }

  lemma ProductRestBounded(a0: real, a1: real, ka: real, r: real, b0: real, b1: real, kb: real, s: real, h: real)
    requires -1.0 <= h <= 1.0 && AbsReal(r) <= ka && AbsReal(s) <= kb
    ensures AbsReal(ProductRest(a0, a1, r, b0, b1, s, h)) <= ProductBound(a0, a1, ka, b0, b1, kb)
  {
    hide AbsReal, Mul;
    TimesBound(a0, s, kb);
    SmallFactor(h, s, kb);
    TimesBound(a1, Mul(h, s), kb);
    TimesBound(b0, r, ka);
    SmallFactor(h, r, ka);
    TimesBound(b1, Mul(h, r), ka);
    SmallFactor(h, Mul(h, r), ka);
    BothBound(Mul(h, Mul(h, r)), s, ka, kb);
    SumOfSix(Mul(a1, b1), Mul(a0, s), Mul(a1, Mul(h, s)), Mul(b0, r), Mul(b1, Mul(h, r)), Mul(Mul(h, Mul(h, r)), s),
             AbsReal(Mul(a1, b1)), Mul(AbsReal(a0), kb), Mul(AbsReal(a1), kb), Mul(AbsReal(b0), ka),
             Mul(AbsReal(b1), ka), Mul(ka, kb));
  }

  lemma ProductRule(f: Curve, v: real, d: real, g: Curve, w: real, e: real, s: Curve)
    requires HasDerivative(f, v, d) && HasDerivative(g, w, e)
    requires forall h :: f(h).Real? && g(h).Real? ==> s(h) == TimesV(f(h), g(h))
    ensures HasDerivative(s, Mul(v, w), Mul(d, w) + Mul(v, e))
  {
    hide Mul, TimesV;
    var delta, k, rest :| Expands(f, v, d, delta, k, rest);
    var delta', k', rest' :| Expands(g, w, e, delta', k', rest');
    ProductExpands(f, v, d, delta, k, rest, g, w, e, delta', k', rest', s);
  }

  lemma ProductPoint(fh: Value, v: real, d: real, r: real, k: real,
                     gh: Value, w: real, e: real, r': real, k': real, sh: Value, h: real)
    requires fh == Line(v, d, r, h) && AbsReal(r) <= k && gh == Line(w, e, r', h) && AbsReal(r') <= k'
    requires (fh.Real? && gh.Real? ==> sh == TimesV(fh, gh)) && -1.0 <= h <= 1.0
    ensures sh == Line(Mul(v, w), Mul(d, w) + Mul(v, e), ProductRest(v, d, r, w, e, r', h), h)
    ensures AbsReal(ProductRest(v, d, r, w, e, r', h)) <= ProductBound(v, d, k, w, e, k')
  {
    hide ProductRest, ProductBound, Line, TimesV, Mul, AbsReal;
    LineIsReal(v, d, r, h);
    LineIsReal(w, e, r', h);
    ProductOfLines(v, d, r, w, e, r', h);
    ProductRestBounded(v, d, k, r, w, e, k', r', h);
  }

  /** The remainder of a product as a function of the distance. */
  function ProductRests(v: real, d: real, rest: real -> real, w: real, e: real, rest': real -> real): real -> real {
    h => ProductRest(v, d, rest(h), w, e, rest'(h), h)
  }

  lemma ProductRestsAt(v: real, d: real, rest: real -> real, w: real, e: real, rest': real -> real, h: real)
    ensures ProductRests(v, d, rest, w, e, rest')(h) == ProductRest(v, d, rest(h), w, e, rest'(h), h)
  {
  }

  lemma ProductExpands(f: Curve, v: real, d: real, delta: real, k: real, rest: real -> real,
                       g: Curve, w: real, e: real, delta': real, k': real, rest': real -> real, s: Curve)
    requires Expands(f, v, d, delta, k, rest) && Expands(g, w, e, delta', k', rest')
    requires forall h :: f(h).Real? && g(h).Real? ==> s(h) == TimesV(f(h), g(h))
    ensures HasDerivative(s, Mul(v, w), Mul(d, w) + Mul(v, e))
  {
    hide ProductRest, ProductRests, ProductBound, Line, TimesV, Mul, AbsReal;
    var both := ProductRests(v, d, rest, w, e, rest');
    var near, bound := Smaller(delta, delta'), ProductBound(v, d, k, w, e, k');
    var p, q := Mul(v, w), Mul(d, w) + Mul(v, e);
    forall h | -near <= h <= near
      ensures s(h) == Line(p, q, both(h), h) && AbsReal(both(h)) <= bound
    {
      ProductRestsAt(v, d, rest, w, e, rest', h);
      ProductPoint(f(h), v, d, rest(h), k, g(h), w, e, rest'(h), k', s(h), h);
    }
    assert Expands(s, p, q, near, bound, both);
  }

  lemma LineIsReal(v: real, d: real, r: real, h: real)
    ensures Line(v, d, r, h).Real?
  {
  }

  function PowerV(a: Value, n: nat): Value {
    if a.Real? then Real(NatPow(a.r, n)) else ErrVal
  }

  function PowerSlope(v: real, d: real, n: nat): real {
    if n == 0 then 0.0 else n as real * d * NatPow(v, n - 1)
  }

  lemma PowerZeroRule(f: Curve, v: real, d: real, s: Curve)
    requires HasDerivative(f, v, d)
    requires forall h :: f(h).Real? ==> s(h) == PowerV(f(h), 0)
    ensures HasDerivative(s, 1.0, 0.0)
  {
    hide Line;
    var delta, k, rest :| Expands(f, v, d, delta, k, rest);
    forall h | -delta <= h <= delta
      ensures s(h) == Line(1.0, 0.0, 0.0, h)
    {
      assert f(h) == Line(v, d, rest(h), h);
      LineIsReal(v, d, rest(h), h);
      FlatLine(1.0, h);
    }
    assert Expands(s, 1.0, 0.0, delta, 0.0, h => 0.0);
  }

  /** Natural powers, by repeated products. */
  lemma {:induction false} PowerRule(f: Curve, v: real, d: real, n: nat, s: Curve)
    requires HasDerivative(f, v, d)
    requires forall h :: f(h).Real? ==> s(h) == PowerV(f(h), n)
    ensures HasDerivative(s, NatPow(v, n), PowerSlope(v, d, n))
    decreases n
  {
    hide PowerSlope, HasDerivative, Mul;
    PowerDerivative(v, d, n);
    if n == 0 {
      PowerZeroRule(f, v, d, s);
    } else {
      var t: Curve := h => PowerV(f(h), n - 1);
      PowerRule(f, v, d, n - 1, t);
      var w, e := NatPow(v, n - 1), PowerSlope(v, d, n - 1);
      ProductRule(f, v, d, t, w, e, s);
    }
  }

  lemma FlatLine(v: real, h: real)
    ensures Line(v, 0.0, 0.0, h) == Real(v)
  {
  }

  lemma PowerDerivative(v: real, d: real, n: nat)
    ensures n == 0 ==> PowerSlope(v, d, n) == 0.0
    ensures n >= 1 ==> Mul(d, NatPow(v, n - 1)) + Mul(v, PowerSlope(v, d, n - 1)) == PowerSlope(v, d, n)
    ensures n >= 1 ==> NatPow(v, n) == Mul(v, NatPow(v, n - 1))
  {
    if n > 1 {
      var p := NatPow(v, n - 2);
      assert NatPow(v, n - 1) == v * p;
      assert v * ((n - 1) as real * d * p) == (n - 1) as real * d * (v * p);
    }
  }

  // ----- reciprocals and quotients -----

  /** The quadratic remainder of 1/g, where y is 1/g and z is 1/w. */
  function InverseRest(w: real, e: real, s: real, h: real, y: real, z: real): real {
    Mul(Mul(e, e) + Mul(-s, w) + Mul(h, Mul(s, e)), Mul(y, Mul(z, z)))
  }

  lemma InverseIdentity(w: real, e: real, s: real, h: real, y: real, z: real)
    requires y * Height(w, e, s, h) == 1.0 && z * w == 1.0
    ensures y == Height(z, -(e * (z * z)), (e * e + (-s) * w + h * (s * e)) * (y * (z * z)), h)
  {
    var g, n, q := Height(w, e, s, h), e * e + (-s) * w + h * (s * e), z * z;
    assert h * h * n == w * w - g * w + g * (h * e) by {
      assert g * w == w * w + h * e * w + h * h * s * w;
      assert g * (h * e) == w * (h * e) + h * e * (h * e) + h * h * s * (h * e);
    }
    assert (y * q) * (h * h * n) == (y * q) * (w * w) - (y * q) * (g * w) + (y * q) * (g * (h * e));
    assert (y * q) * (w * w) == y * ((z * w) * (z * w));
    assert (y * q) * (g * w) == (y * g) * (z * (z * w));
    assert (y * q) * (g * (h * e)) == (y * g) * (q * (h * e));
    assert h * h * (n * (y * q)) == (y * q) * (h * h * n);
  }

  lemma SameProduct(x: real, x': real, y: real, y': real)
    requires x == x' && y == y'
    ensures x * y == Mul(x', y')
  {
  }

  lemma InverseLine(w: real, e: real, s: real, h: real, y: real, z: real)
    requires y * Height(w, e, s, h) == 1.0 && z * w == 1.0
    ensures Real(y) == Line(z, -Mul(e, Mul(z, z)), InverseRest(w, e, s, h, y, z), h)
  {
    InverseIdentity(w, e, s, h, y, z);
    SameProduct(e * e + (-s) * w + h * (s * e), Mul(e, e) + Mul(-s, w) + Mul(h, Mul(s, e)), y * (z * z), Mul(y, Mul(z, z)));
    SameHeight(z, z, -(e * (z * z)), -Mul(e, Mul(z, z)),
               (e * e + (-s) * w + h * (s * e)) * (y * (z * z)), InverseRest(w, e, s, h, y, z), h);
  }

  /** A number at least half as large as w has an inverse at most twice that of w. */
  lemma InverseBound(g: real, y: real, w: real, z: real)
    requires y * g == 1.0 && z * w == 1.0 && 2.0 * AbsReal(g) >= AbsReal(w)
    ensures AbsReal(y) <= 2.0 * AbsReal(z)
  {
    AbsTimes(y, g);
    AbsTimes(z, w);
    var a, b, c, d := AbsReal(y), AbsReal(g), AbsReal(z), AbsReal(w);
    NonnegativeProduct(a * c, 2.0 * b - d);
    NonnegativeProduct(a, c);
    assert (a * c) * (2.0 * b - d) == 2.0 * c * (a * b) - a * (c * d);
  }

  function InverseBoundOf(w: real, e: real, k: real, z: real): real {
    Mul(AbsReal(Mul(e, e)) + Mul(k, AbsReal(w)) + Mul(k, AbsReal(e)), Mul(2.0 * AbsReal(z), AbsReal(Mul(z, z))))
  }

  lemma InverseRestBounded(w: real, e: real, s: real, k: real, h: real, y: real, z: real)
    requires -1.0 <= h <= 1.0 && AbsReal(s) <= k && AbsReal(y) <= 2.0 * AbsReal(z)
    ensures AbsReal(InverseRest(w, e, s, h, y, z)) <= InverseBoundOf(w, e, k, z)
  {
    AbsOpposite(s);
    hide AbsReal, Mul;
    SelfBound(w);
    SelfBound(e);
    SelfBound(Mul(z, z));
    BothBound(-s, w, k, AbsReal(w));
    BothBound(s, e, k, AbsReal(e));
    SmallFactor(h, Mul(s, e), Mul(k, AbsReal(e)));
    SumOfThree(Mul(e, e), Mul(-s, w), Mul(h, Mul(s, e)), Mul(k, AbsReal(w)), Mul(k, AbsReal(e)));
    BothBound(y, Mul(z, z), 2.0 * AbsReal(z), AbsReal(Mul(z, z)));
    BothBound(Mul(e, e) + Mul(-s, w) + Mul(h, Mul(s, e)), Mul(y, Mul(z, z)),
              AbsReal(Mul(e, e)) + Mul(k, AbsReal(w)) + Mul(k, AbsReal(e)),
              Mul(2.0 * AbsReal(z), AbsReal(Mul(z, z))));
  }

  lemma SelfBound(x: real)
    ensures AbsReal(x) <= AbsReal(x)
  {
  }

  lemma AbsOpposite(x: real)
    ensures AbsReal(-x) == AbsReal(x)
  {
  }

  lemma SumOfThree(t1: real, t2: real, t3: real, m2: real, m3: real)
    requires AbsReal(t2) <= m2 && AbsReal(t3) <= m3
    ensures AbsReal(t1 + t2 + t3) <= AbsReal(t1) + m2 + m3
  {
  }

  /** Close enough to 0, the denominator keeps at least half its size. */
  lemma StaysLarge(w: real, e: real, s: real, k: real, h: real, near: real)
    requires w != 0.0 && AbsReal(s) <= k && 0.0 < near <= 1.0 && -near <= h <= near
    requires 2.0 * (near * (AbsReal(e) + k)) <= AbsReal(w)
    ensures 2.0 * AbsReal(Height(w, e, s, h)) >= AbsReal(w)
  {
    hide AbsReal;
    var t := Mul(h, e + Mul(h, s));
    assert Height(w, e, s, h) == w + t;
    assert near * (AbsReal(e) + k) == Mul(near, AbsReal(e) + k);
    hide Mul, Height;
    AbsAtMost(h, near);
    SmallFactor(h, s, k);
    AbsTriangle(e, Mul(h, s));
    BothBound(h, e + Mul(h, s), near, AbsReal(e) + k);
    AbsTriangle(w + t, -t);
    AbsOpposite(t);
    assert (w + t) - t == w;
  }

  lemma AbsAtMost(x: real, m: real)
    requires -m <= x <= m
    ensures AbsReal(x) <= m
  {
  }

  lemma AbsTriangle(x: real, y: real)
    ensures AbsReal(x + y) <= AbsReal(x) + AbsReal(y)
  {
  }

  function InverseRests(w: real, e: real, rest: real -> real, z: real): real -> real {
    h =>
      var g := Height(w, e, rest(h), h);
      InverseRest(w, e, rest(h), h, if g == 0.0 then 0.0 else 1.0 / g, z)
  }

  lemma InversePoint(gh: Value, w: real, e: real, r: real, k: real, h: real, near: real, sh: Value, z: real, rh: real)
    requires w != 0.0 && z * w == 1.0 && gh == Line(w, e, r, h) && AbsReal(r) <= k
    requires 0.0 < near <= 1.0 && -near <= h <= near && 2.0 * (near * (AbsReal(e) + k)) <= AbsReal(w)
    requires gh.Real? && gh.r != 0.0 ==> sh == Real(1.0 / gh.r)
    requires var g := Height(w, e, r, h); rh == InverseRest(w, e, r, h, if g == 0.0 then 0.0 else 1.0 / g, z)
    ensures sh == Line(z, -Mul(e, Mul(z, z)), rh, h) && AbsReal(rh) <= InverseBoundOf(w, e, k, z)
  {
    hide InverseRest, InverseBoundOf, Mul;
    StaysLarge(w, e, r, k, h, near);
    var g := Height(w, e, r, h);
    assert g != 0.0;
    hide Height;
    var y := 1.0 / g;
    assert y * g == 1.0;
    InverseBound(g, y, w, z);
    InverseLine(w, e, r, h, y, z);
    InverseRestBounded(w, e, r, k, h, y, z);
  }

  lemma ReciprocalRule(g: Curve, w: real, e: real, s: Curve, z: real)
    requires HasDerivative(g, w, e) && w != 0.0 && z * w == 1.0
    requires forall h :: g(h).Real? && g(h).r != 0.0 ==> s(h) == Real(1.0 / g(h).r)
    ensures HasDerivative(s, z, -Mul(e, Mul(z, z)))
  {
    var delta, k, rest :| Expands(g, w, e, delta, k, rest);
    assert g(0.0) == Line(w, e, rest(0.0), 0.0) && AbsReal(rest(0.0)) <= k;
    var near := Radius(AbsReal(w), AbsReal(e), k, delta);
    RadiusIsSmall(AbsReal(w), AbsReal(e), k, delta, AbsReal(rest(0.0)));
    ReciprocalExpands(g, w, e, delta, k, rest, s, z, near);
  }

  /** How far the denominator is known to keep half its size. */
  function Radius(w: real, e: real, k: real, delta: real): real
    requires w > 0.0 && e >= 0.0 && k >= 0.0
  {
    Smaller(delta, w / (2.0 * (e + k + 1.0)))
  }

  lemma RadiusIsSmall(w: real, e: real, k: real, delta: real, r: real)
    requires w > 0.0 && e >= 0.0 && k >= r >= 0.0 && 0.0 < delta <= 1.0
    ensures 0.0 < Radius(w, e, k, delta) <= delta && 2.0 * (Radius(w, e, k, delta) * (e + k)) <= w
  {
    var m := e + k + 1.0;
    var q := w / (2.0 * m);
    assert q * (2.0 * m) == w;
    assert q > 0.0;
    var near := Radius(w, e, k, delta);
    NonnegativeProduct(q - near, e + k);
    assert q * (e + k) - near * (e + k) == (q - near) * (e + k);
    assert 2.0 * (q * (e + k)) == w - 2.0 * q;
  }

  lemma ReciprocalExpands(g: Curve, w: real, e: real, delta: real, k: real, rest: real -> real, s: Curve, z: real, near: real)
    requires Expands(g, w, e, delta, k, rest) && w != 0.0 && z * w == 1.0
    requires 0.0 < near <= delta && 2.0 * (near * (AbsReal(e) + k)) <= AbsReal(w)
    requires forall h :: g(h).Real? && g(h).r != 0.0 ==> s(h) == Real(1.0 / g(h).r)
    ensures HasDerivative(s, z, -Mul(e, Mul(z, z)))
  {
    hide InverseRest, InverseRests, InverseBoundOf, Mul, AbsReal, Height;
    var both := InverseRests(w, e, rest, z);
    var bound, slope := InverseBoundOf(w, e, k, z), -Mul(e, Mul(z, z));
    forall h | -near <= h <= near
      ensures s(h) == Line(z, slope, both(h), h) && AbsReal(both(h)) <= bound
    {
      InverseRestsAt(w, e, rest, z, h);
      InversePoint(g(h), w, e, rest(h), k, h, near, s(h), z, both(h));
    }
    assert Expands(s, z, slope, near, bound, both);
  }

  lemma InverseRestsAt(w: real, e: real, rest: real -> real, z: real, h: real)
    ensures var g := Height(w, e, rest(h), h);
            InverseRests(w, e, rest, z)(h) == InverseRest(w, e, rest(h), h, if g == 0.0 then 0.0 else 1.0 / g, z)
  {
  }

  function InverseV(a: Value): Value {
    if a.Real? && a.r != 0.0 then Real(1.0 / a.r) else ErrVal
  }

  lemma QuotientRule(f: Curve, v: real, d: real, g: Curve, w: real, e: real, s: Curve, z: real)
    requires HasDerivative(f, v, d) && HasDerivative(g, w, e) && w != 0.0 && z * w == 1.0
    requires forall h :: f(h).Real? && g(h).Real? && g(h).r != 0.0 ==> s(h) == DivV(f(h), g(h))
    ensures HasDerivative(s, Mul(v, z), Mul(d, z) + Mul(v, -Mul(e, Mul(z, z))))
  {
    hide Mul, HasDerivative;
    var i: Curve := h => InverseV(g(h));
    ReciprocalRule(g, w, e, i, z);
    forall h | f(h).Real? && i(h).Real?
      ensures s(h) == TimesV(f(h), i(h))
    {
      DivideIsTimesInverse(f(h).r, g(h).r);
    }
    ProductRule(f, v, d, i, z, -Mul(e, Mul(z, z)), s);
  }

  lemma DivideIsTimesInverse(x: real, y: real)
    requires y != 0.0
    ensures x / y == x * (1.0 / y)
  {
    QuotientUnique(x, y, x * (1.0 / y));
  }
}
