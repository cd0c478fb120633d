/** The derivatives of roots, logarithms, exponentials and trigonometric functions, and of powers of a positive base.
    What calculus says of the primitives themselves is a condition at the point where they are applied. */
module ExprPrimitives {
  import opened Expr
  import opened ExprSimplify
  import opened Calculus
  import opened CalculusChain
  import opened ExprSlopes

  // ----- roots, logarithms, exponentials, trigonometric functions -----

  /** A primitive function around v. */
  function Primitive(c: Context, fn: UnaryOp, v: real): Curve {
    (h: real) => c.other.unary(fn, Real(v + h))
  }

  /** The derivative e that calculus gives the primitive where its argument is v and its value w. */
  ghost predicate Usual(c: Context, fn: UnaryOp, v: real, w: real, e: real) {
    match fn
    case Opp => false
    case Sqrt => Mul(e, Mul(2.0, w)) == 1.0
    case Abs => w != 0.0 && Mul(e, w) == v
    case Sin => c.other.unary(Cos, Real(v)) == Real(e)
    case Cos => c.other.unary(Sin, Real(v)) == Real(-e)
    case Tg => e == 1.0 + Mul(w, w)
    case Ln => Mul(e, v) == 1.0
    case Exp => e == w
    case Acos => var root := c.other.unary(Sqrt, Real(1.0 - Mul(v, v))); root.Real? && Mul(e, root.r) == -1.0
    case Asin => var root := c.other.unary(Sqrt, Real(1.0 - Mul(v, v))); root.Real? && Mul(e, root.r) == 1.0
    case Atan => Mul(e, 1.0 + Mul(v, v)) == 1.0
  }

  /** The primitive has, at this argument, a value and the derivative that calculus gives it. */
  ghost predicate PrimitiveAt(c: Context, fn: UnaryOp, v: real) {
    exists w, e :: Usual(c, fn, v, w, e) && c.other.unary(fn, Real(v)) == Real(w)
                   && HasDerivative(Primitive(c, fn, v), w, e)
  }

  /** What Diff builds for each of them. */
  function UnaryDiff(fn: UnaryOp, a: Expr, da: Expr): Expr {
    match fn
    case Opp => Neg(da)
    case Sqrt => Over(da, Times(Num(2.0), Unary(Sqrt, a)))
    case Abs => Over(Times(da, a), Unary(Abs, a))
    case Sin => Times(da, Unary(Cos, a))
    case Cos => Times(Neg(da), Unary(Sin, a))
    case Tg => Times(da, Plus(Num(1.0), Power(Unary(Tg, a), Num(2.0))))
    case Ln => Over(da, a)
    case Exp => Times(da, Unary(Exp, a))
    case Acos => Over(Neg(da), Unary(Sqrt, Minus(Num(1.0), Power(a, Num(2.0)))))
    case Asin => Over(da, Unary(Sqrt, Minus(Num(1.0), Power(a, Num(2.0)))))
    case Atan => Over(da, Plus(Num(1.0), Power(a, Num(2.0))))
  }

  lemma UnaryMeaning(c: Context, fn: UnaryOp, a: Expr)
    requires Operand(a, c.store) && fn != Opp
    ensures Operand(Unary(fn, a), c.store) && c.Of(Unary(fn, a)) == c.other.unary(fn, c.Of(a))
  {
  }

  lemma AlongUnary(c: Context, fn: UnaryOp, a: Expr, x: nat)
    requires Operand(a, c.store) && fn != Opp && Movable(c, x)
    ensures Operand(Unary(fn, a), c.store)
    ensures forall h :: Along(c, Unary(fn, a), x)(h) == c.other.unary(fn, Along(c, a, x)(h))
  {
    hide Value1, Along;
    UnaryMeaning(c, fn, a);
    forall h
      ensures Along(c, Unary(fn, a), x)(h) == c.other.unary(fn, Along(c, a, x)(h))
    {
      AlongAt(c, a, x, h);
      AlongAt(c, Unary(fn, a), x, h);
      UnaryMeaning(Moved(c, x, h), fn, a);
    }
  }

  lemma QuotientIs(x: real, y: real, q: real)
    requires y != 0.0 && Mul(q, y) == x
    ensures Ratio(x, y) == q
  {
    QuotientUnique(x, y, q);
  }

  lemma UnitFactor(e: real, y: real, d: real)
    requires Mul(e, y) == 1.0
    ensures y != 0.0 && Mul(Mul(e, d), y) == d && Mul(Mul(-e, d), y) == -d
  {
    assert (e * d) * y == (e * y) * d;
    assert (-e * d) * y == -((e * y) * d);
  }

  /** A quotient by a number whose inverse is the derivative. */
  lemma OverUnit(c: Context, da: Expr, b: Expr, e: real)
    requires IsReal(c, da) && IsReal(c, b) && Mul(e, c.Of(b).r) == 1.0
    ensures IsReal(c, Over(da, b)) && c.Of(Over(da, b)).r == Mul(e, c.Of(da).r)
  {
    hide Value1, Mul, Ratio, Over;
    UnitFactor(e, c.Of(b).r, c.Of(da).r);
    OverOfReals(c, da, b);
    QuotientIs(c.Of(da).r, c.Of(b).r, Mul(e, c.Of(da).r));
  }

  lemma OneAndSquare(c: Context, b: Expr)
    requires IsReal(c, b)
    ensures var q := Power(b, Num(2.0));
            && IsReal(c, Plus(Num(1.0), q)) && c.Of(Plus(Num(1.0), q)).r == 1.0 + Mul(c.Of(b).r, c.Of(b).r)
            && IsReal(c, Minus(Num(1.0), q)) && c.Of(Minus(Num(1.0), q)).r == 1.0 - Mul(c.Of(b).r, c.Of(b).r)
  {
    hide Value1, Mul, Plus, Minus, Power;
    NumMeaning(c, 1.0);
    SquareOf(c, b);
    PlusKeepsMeaning(c, Num(1.0), Power(b, Num(2.0)));
    MinusKeepsMeaning(c, Num(1.0), Power(b, Num(2.0)));
  }

  lemma SqrtValue(c: Context, a: Expr, da: Expr, w: real, e: real)
    requires IsReal(c, a) && IsReal(c, da) && c.other.unary(Sqrt, c.Of(a)) == Real(w)
    requires Usual(c, Sqrt, c.Of(a).r, w, e)
    ensures IsReal(c, UnaryDiff(Sqrt, a, da)) && c.Of(UnaryDiff(Sqrt, a, da)).r == Mul(e, c.Of(da).r)
  {
    hide Value1, Mul, Over, Times;
    NumMeaning(c, 2.0);
    UnaryMeaning(c, Sqrt, a);
    TimesOfReals(c, Num(2.0), Unary(Sqrt, a));
    OverUnit(c, da, Times(Num(2.0), Unary(Sqrt, a)), e);
  }

  lemma AbsSlope(e: real, w: real, v: real, d: real)
    requires Mul(e, w) == v
    ensures Mul(Mul(e, d), w) == Mul(d, v)
  {
    assert (e * d) * w == d * (e * w);
  }

  lemma AbsValue(c: Context, a: Expr, da: Expr, w: real, e: real)
    requires IsReal(c, a) && IsReal(c, da) && c.other.unary(Abs, c.Of(a)) == Real(w)
    requires Usual(c, Abs, c.Of(a).r, w, e)
    ensures IsReal(c, UnaryDiff(Abs, a, da)) && c.Of(UnaryDiff(Abs, a, da)).r == Mul(e, c.Of(da).r)
  {
    hide Value1, Mul, Ratio, Over, Times;
    UnaryMeaning(c, Abs, a);
    TimesOfReals(c, da, a);
    OverOfReals(c, Times(da, a), Unary(Abs, a));
    AbsSlope(e, w, c.Of(a).r, c.Of(da).r);
    QuotientIs(Mul(c.Of(da).r, c.Of(a).r), w, Mul(e, c.Of(da).r));
  }

  lemma Opposites(d: real, s: real)
    ensures Mul(-d, s) == Mul(-s, d)
  {
  }

  lemma TrigonometricValue(c: Context, fn: UnaryOp, a: Expr, da: Expr, w: real, e: real)
    requires IsReal(c, a) && IsReal(c, da) && c.other.unary(fn, c.Of(a)) == Real(w) && fn in {Sin, Cos, Tg, Exp}
    requires Usual(c, fn, c.Of(a).r, w, e)
    ensures IsReal(c, UnaryDiff(fn, a, da)) && c.Of(UnaryDiff(fn, a, da)).r == Mul(e, c.Of(da).r)
  {
    hide Value1, Mul, Times, Neg, Plus, Power;
    UnaryMeaning(c, fn, a);
    Commutes(c.Of(da).r, e);
    if fn == Sin {
      UnaryMeaning(c, Cos, a);
      TimesOfReals(c, da, Unary(Cos, a));
    } else if fn == Cos {
      UnaryMeaning(c, Sin, a);
      NegKeepsMeaning(c, da);
      TimesOfReals(c, Neg(da), Unary(Sin, a));
      Opposites(c.Of(da).r, -e);
    } else if fn == Tg {
      OneAndSquare(c, Unary(Tg, a));
      TimesOfReals(c, da, Plus(Num(1.0), Power(Unary(Tg, a), Num(2.0))));
    } else {
      TimesOfReals(c, da, Unary(Exp, a));
    }
  }

  lemma ArcValue(c: Context, fn: UnaryOp, a: Expr, da: Expr, w: real, e: real)
    requires IsReal(c, a) && IsReal(c, da) && fn in {Asin, Acos, Atan}
    requires Usual(c, fn, c.Of(a).r, w, e)
    ensures IsReal(c, UnaryDiff(fn, a, da)) && c.Of(UnaryDiff(fn, a, da)).r == Mul(e, c.Of(da).r)
  {
    hide Value1, Mul, Over, Neg, Plus, Minus, Power;
    OneAndSquare(c, a);
    var under := Minus(Num(1.0), Power(a, Num(2.0)));
    UnaryMeaning(c, Sqrt, under);
    if fn == Asin {
      OverUnit(c, da, Unary(Sqrt, under), e);
    } else if fn == Acos {
      NegKeepsMeaning(c, da);
      OppositeFactor(e, c.Of(Unary(Sqrt, under)).r);
      OverUnit(c, Neg(da), Unary(Sqrt, under), -e);
      Opposites(e, c.Of(da).r);
      OppositeTwice(e, c.Of(da).r);
    } else {
      OverUnit(c, da, Plus(Num(1.0), Power(a, Num(2.0))), e);
    }
  }

  lemma OppositeFactor(e: real, y: real)
    requires Mul(e, y) == -1.0
    ensures Mul(-e, y) == 1.0
  {
    assert (-e) * y == -(e * y);
  }

  lemma OppositeTwice(e: real, d: real)
    ensures Mul(-e, -d) == Mul(e, d)
  {
  }

  /** Each tree evaluates to the derivative of the primitive times that of its argument. */
  lemma UnaryValue(c: Context, fn: UnaryOp, a: Expr, da: Expr, w: real, e: real)
    requires IsReal(c, a) && IsReal(c, da) && c.other.unary(fn, c.Of(a)) == Real(w)
    requires Usual(c, fn, c.Of(a).r, w, e)
    ensures IsReal(c, UnaryDiff(fn, a, da)) && c.Of(UnaryDiff(fn, a, da)).r == Mul(e, c.Of(da).r)
  {
    if fn == Sqrt {
      SqrtValue(c, a, da, w, e);
    } else if fn == Abs {
      AbsValue(c, a, da, w, e);
    } else if fn == Ln {
      OverUnit(c, da, a, e);
    } else if fn in {Asin, Acos, Atan} {
      ArcValue(c, fn, a, da, w, e);
    } else {
      TrigonometricValue(c, fn, a, da, w, e);
    }
  }

  lemma SlopesOfPrimitive(c: Context, fn: UnaryOp, a: Expr, x: nat, da: Expr)
    requires Slopes(c, a, x, da) && fn != Opp && PrimitiveAt(c, fn, c.Of(a).r)
    ensures Slopes(c, Unary(fn, a), x, UnaryDiff(fn, a, da))
  {
    hide Value1, HasDerivative, Along, Mul, Usual, UnaryDiff;
    var v := c.Of(a).r;
    var w, e :| Usual(c, fn, v, w, e) && c.other.unary(fn, Real(v)) == Real(w)
                && HasDerivative(Primitive(c, fn, v), w, e);
    UnaryMeaning(c, fn, a);
    UnaryValue(c, fn, a, da, w, e);
    AlongUnary(c, fn, a, x);
    forall h | Along(c, a, x)(h).Real?
      ensures Along(c, Unary(fn, a), x)(h) == Primitive(c, fn, v)(Along(c, a, x)(h).r - v)
    {
    }
    ChainRule(Along(c, a, x), v, c.Of(da).r, Primitive(c, fn, v), w, e, Along(c, Unary(fn, a), x));
  }

  // ----- powers of a positive base -----

  /** Powers of positive numbers are exponentials of multiples of the logarithm, which only they have; one less in the
      exponent divides by the base. */
  ghost predicate PowersAreExponentials(c: Context) {
    && c.other.unary(Exp, ErrVal) == ErrVal
    && (forall u :: c.other.unary(Ln, Real(u)).Real? <==> u > 0.0)
    && (forall u, y :: u > 0.0 ==> PowerLaw(c, u, y))
  }

  ghost predicate PowerLaw(c: Context, u: real, y: real) {
    && var p := PowV(c.pow, Real(u), Real(y));
    && p == c.other.unary(Exp, MultV(Real(y), c.other.unary(Ln, Real(u))))
    && (p.Real? ==> var q := PowV(c.pow, Real(u), Real(y - 1.0)); q.Real? && Mul(q.r, u) == p.r)
  }

  /** The base is positive, and logarithm and exponential are differentiable where they are used. */
  ghost predicate PositivePower(c: Context, a: Expr, b: Expr) {
    && IsReal(c, a) && IsReal(c, b) && c.Of(a).r > 0.0 && PowersAreExponentials(c)
    && PrimitiveAt(c, Ln, c.Of(a).r)
    && c.other.unary(Ln, c.Of(a)).Real? && PrimitiveAt(c, Exp, Mul(c.Of(b).r, c.other.unary(Ln, c.Of(a)).r))
  }

  /** The same power as an exponential. */
  function AsExponential(a: Expr, b: Expr): Expr {
    Unary(Exp, Binary(Mult, b, Unary(Ln, a)))
  }

  function AsExponentialDiff(a: Expr, b: Expr, da: Expr, db: Expr): Expr {
    Times(Plus(Times(b, Over(da, a)), Times(Unary(Ln, a), db)), AsExponential(a, b))
  }

  lemma SlopesOfExponential(c: Context, a: Expr, b: Expr, x: nat, da: Expr, db: Expr)
    requires Slopes(c, a, x, da) && Slopes(c, b, x, db) && PositivePower(c, a, b)
    ensures Slopes(c, AsExponential(a, b), x, AsExponentialDiff(a, b, da, db))
  {
    hide Value1, HasDerivative, Along, Mul, PrimitiveAt, PowersAreExponentials, Times, Plus, Over;
    var la := Unary(Ln, a);
    UnaryMeaning(c, Ln, a);
    SlopesOfPrimitive(c, Ln, a, x, da);
    SlopesOfMult(c, b, la, x, db, Over(da, a));
    BinaryMeaning(c, Mult, b, la);
    MultOfReals(c.Of(b), c.Of(la));
    SlopesOfPrimitive(c, Exp, Binary(Mult, b, la), x, Plus(Times(b, Over(da, a)), Times(la, db)));
  }

  lemma PowerIsExponential(c: Context, a: Value, b: Value)
    requires PowersAreExponentials(c) && a.Real? && b.Real?
    requires c.other.unary(Exp, MultV(b, c.other.unary(Ln, a))).Real?
    ensures PowV(c.pow, a, b) == c.other.unary(Exp, MultV(b, c.other.unary(Ln, a)))
  {
    hide PowV;
    var u, y := a.r, b.r;
    assert u > 0.0;
    assert PowerLaw(c, u, y);
  }

  lemma AlongExponential(c: Context, a: Expr, b: Expr, x: nat)
    requires Operand(a, c.store) && Operand(b, c.store) && Movable(c, x) && PowersAreExponentials(c)
    ensures Operand(Binary(Pow, a, b), c.store) && Operand(AsExponential(a, b), c.store)
    ensures forall h :: Along(c, AsExponential(a, b), x)(h).Real? && Along(c, a, x)(h).Real? && Along(c, b, x)(h).Real? ==>
                          Along(c, Binary(Pow, a, b), x)(h) == Along(c, AsExponential(a, b), x)(h)
  {
    hide Value1, Along, PowV, MultV, PowersAreExponentials;
    AlongUnary(c, Ln, a, x);
    AlongBinary(c, Mult, b, Unary(Ln, a), x);
    AlongUnary(c, Exp, Binary(Mult, b, Unary(Ln, a)), x);
    AlongBinary(c, Pow, a, b, x);
    forall h | Along(c, AsExponential(a, b), x)(h).Real? && Along(c, a, x)(h).Real? && Along(c, b, x)(h).Real?
      ensures Along(c, Binary(Pow, a, b), x)(h) == Along(c, AsExponential(a, b), x)(h)
    {
      PowerIsExponential(c, Along(c, a, x)(h), Along(c, b, x)(h));
    }
  }

  /** Any tree that agrees with the derivative of the exponential is the derivative of the power. */
  lemma SlopesOfPositivePower(c: Context, a: Expr, b: Expr, x: nat, da: Expr, db: Expr, d: Expr)
    requires Slopes(c, a, x, da) && Slopes(c, b, x, db) && PositivePower(c, a, b)
    requires IsReal(c, d) && IsReal(c, AsExponentialDiff(a, b, da, db)) && c.Of(d) == c.Of(AsExponentialDiff(a, b, da, db))
    ensures Slopes(c, Binary(Pow, a, b), x, d)
  {
    hide Value1, HasDerivative, Along, PositivePower, AsExponentialDiff, PowV, MultV;
    SlopesOfExponential(c, a, b, x, da, db);
    PowerEqualsExponential(c, a, b);
    AlongExponential(c, a, b, x);
    SameCurve(Along(c, AsExponential(a, b), x), c.Of(AsExponential(a, b)).r, c.Of(d).r,
              Along(c, a, x), c.Of(a).r, c.Of(da).r, Along(c, b, x), c.Of(b).r, c.Of(db).r,
              Along(c, Binary(Pow, a, b), x));
  }

  lemma PowerEqualsExponential(c: Context, a: Expr, b: Expr)
    requires PositivePower(c, a, b)
    ensures PowersAreExponentials(c) && IsReal(c, AsExponential(a, b)) && IsReal(c, Binary(Pow, a, b))
    ensures c.Of(Binary(Pow, a, b)) == c.Of(AsExponential(a, b))
  {
    hide Value1, PowV, MultV, HasDerivative, Usual;
    UnaryMeaning(c, Ln, a);
    BinaryMeaning(c, Mult, b, Unary(Ln, a));
    MultOfReals(c.Of(b), c.Of(Unary(Ln, a)));
    UnaryMeaning(c, Exp, Binary(Mult, b, Unary(Ln, a)));
    BinaryMeaning(c, Pow, a, b);
    assert PowerLaw(c, c.Of(a).r, c.Of(b).r);
  }

  /** What Diff builds for a power whose exponent moves. */
  function MovingPowDiff(a: Expr, b: Expr, da: Expr, db: Expr): Expr {
    Times(Binary(Pow, a, b), Plus(Times(Unary(Ln, a), db), Over(Times(b, da), a)))
  }

  lemma MovingExponentSlope(y: real, u: real, d: real, l: real, e: real, p: real)
    requires u != 0.0
    ensures Mul(Mul(y, Ratio(d, u)) + Mul(l, e), p) == Mul(p, Mul(l, e) + Ratio(Mul(y, d), u))
  {
    var q := d / u;
    assert q * u == d;
    QuotientUnique(y * d, u, y * q);
  }

  lemma FixedExponentSlope(y: real, u: real, d: real, l: real, p: real, q: real)
    requires u != 0.0 && Mul(q, u) == p
    ensures Mul(Mul(y, Ratio(d, u)) + Mul(l, 0.0), p) == Mul(Mul(y, d), q)
  {
    var r := d / u;
    assert r * u == d;
    assert (y * r) * (q * u) == y * (r * u) * q;
  }

  ghost predicate Has(c: Context, e: Expr, v: real) {
    IsReal(c, e) && c.Of(e).r == v
  }

  lemma ExponentialDiffValue(c: Context, a: Expr, b: Expr, da: Expr, db: Expr,
                             u: real, y: real, d: real, e: real, l: real, p: real)
    requires Has(c, a, u) && Has(c, b, y) && Has(c, da, d) && Has(c, db, e) && u != 0.0
    requires Has(c, Unary(Ln, a), l) && Has(c, AsExponential(a, b), p)
    ensures Has(c, AsExponentialDiff(a, b, da, db), Mul(Mul(y, Ratio(d, u)) + Mul(l, e), p))
  {
    hide Value1, Mul, Ratio, Times, Plus, Over;
    OverOfReals(c, da, a);
    TimesOfReals(c, b, Over(da, a));
    TimesOfReals(c, Unary(Ln, a), db);
    PlusKeepsMeaning(c, Times(b, Over(da, a)), Times(Unary(Ln, a), db));
    TimesOfReals(c, Plus(Times(b, Over(da, a)), Times(Unary(Ln, a), db)), AsExponential(a, b));
  }

  lemma MovingPowDiffValue(c: Context, a: Expr, b: Expr, da: Expr, db: Expr,
                           u: real, y: real, d: real, e: real, l: real, p: real)
    requires Has(c, a, u) && Has(c, b, y) && Has(c, da, d) && Has(c, db, e) && u != 0.0
    requires Has(c, Unary(Ln, a), l) && Has(c, Binary(Pow, a, b), p)
    ensures Has(c, MovingPowDiff(a, b, da, db), Mul(p, Mul(l, e) + Ratio(Mul(y, d), u)))
  {
    hide Value1, Mul, Ratio, Times, Plus, Over;
    TimesOfReals(c, b, da);
    OverOfReals(c, Times(b, da), a);
    TimesOfReals(c, Unary(Ln, a), db);
    PlusKeepsMeaning(c, Times(Unary(Ln, a), db), Over(Times(b, da), a));
    TimesOfReals(c, Binary(Pow, a, b), Plus(Times(Unary(Ln, a), db), Over(Times(b, da), a)));
  }

  /** The values the trees are made of. */
  lemma PositivePowerParts(c: Context, a: Expr, b: Expr) returns (u: real, y: real, l: real, p: real)
    requires PositivePower(c, a, b)
    ensures Has(c, a, u) && u > 0.0 && Has(c, b, y) && Has(c, Unary(Ln, a), l)
    ensures Has(c, Binary(Pow, a, b), p) && Has(c, AsExponential(a, b), p)
  {
    PowerEqualsExponential(c, a, b);
    hide Value1, PrimitiveAt, PowersAreExponentials;
    UnaryMeaning(c, Ln, a);
    u, y, l, p := c.Of(a).r, c.Of(b).r, c.Of(Unary(Ln, a)).r, c.Of(Binary(Pow, a, b)).r;
  }

  lemma SameValue(c: Context, e: Expr, e': Expr, v: real, v': real)
    requires Has(c, e, v) && Has(c, e', v') && v == v'
    ensures IsReal(c, e) && IsReal(c, e') && c.Of(e) == c.Of(e')
  {
  }

  lemma MovingTreesAgree(c: Context, a: Expr, b: Expr, da: Expr, db: Expr, d: real, e: real)
    requires PositivePower(c, a, b) && Has(c, da, d) && Has(c, db, e)
    ensures IsReal(c, MovingPowDiff(a, b, da, db)) && IsReal(c, AsExponentialDiff(a, b, da, db))
    ensures c.Of(MovingPowDiff(a, b, da, db)) == c.Of(AsExponentialDiff(a, b, da, db))
  {
    hide Has, PositivePower, AsExponential, AsExponentialDiff, MovingPowDiff, Mul, Ratio;
    var u, y, l, p := PositivePowerParts(c, a, b);
    ExponentialDiffValue(c, a, b, da, db, u, y, d, e, l, p);
    MovingPowDiffValue(c, a, b, da, db, u, y, d, e, l, p);
    MovingExponentSlope(y, u, d, l, e, p);
    SameValue(c, MovingPowDiff(a, b, da, db), AsExponentialDiff(a, b, da, db),
              Mul(p, Mul(l, e) + Ratio(Mul(y, d), u)), Mul(Mul(y, Ratio(d, u)) + Mul(l, e), p));
  }

  lemma SlopesOfMovingPow(c: Context, a: Expr, b: Expr, x: nat, da: Expr, db: Expr)
    requires Slopes(c, a, x, da) && Slopes(c, b, x, db) && PositivePower(c, a, b)
    ensures Slopes(c, Binary(Pow, a, b), x, MovingPowDiff(a, b, da, db))
  {
    hide Value1, Operand, HasDerivative, Along, PositivePower, AsExponentialDiff, MovingPowDiff;
    MovingTreesAgree(c, a, b, da, db, c.Of(da).r, c.Of(db).r);
    SlopesOfPositivePower(c, a, b, x, da, db, MovingPowDiff(a, b, da, db));
  }

  lemma ZeroHas(c: Context)
    ensures Has(c, Num(0.0), 0.0)
  {
    NumMeaning(c, 0.0);
  }

  lemma FixedTreesAgree(c: Context, a: Expr, b: Expr, da: Expr, d: real)
    requires PositivePower(c, a, b) && Has(c, da, d)
    ensures IsReal(c, PowDiff(a, b, da)) && IsReal(c, AsExponentialDiff(a, b, da, Num(0.0)))
    ensures c.Of(PowDiff(a, b, da)) == c.Of(AsExponentialDiff(a, b, da, Num(0.0)))
  {
    ZeroHas(c);
    hide Has, PositivePower, AsExponential, AsExponentialDiff, PowDiff, Mul, Ratio;
    var u, y, l, p := PositivePowerParts(c, a, b);
    var q := LoweredPower(c, a, b, u, y, p);
    ExponentialDiffValue(c, a, b, da, Num(0.0), u, y, d, 0.0, l, p);
    LoweredDiffValue(c, a, b, da, u, y, d, q);
    FixedExponentSlope(y, u, d, l, p, q);
    SameValue(c, PowDiff(a, b, da), AsExponentialDiff(a, b, da, Num(0.0)),
              Mul(Mul(y, d), q), Mul(Mul(y, Ratio(d, u)) + Mul(l, 0.0), p));
  }

  lemma LoweredDiffValue(c: Context, a: Expr, b: Expr, da: Expr, u: real, y: real, d: real, q: real)
    requires Has(c, a, u) && Has(c, b, y) && Has(c, da, d) && u != 0.0
    requires PowV(c.pow, Real(u), Real(y - 1.0)) == Real(q)
    ensures Has(c, PowDiff(a, b, da), Mul(Mul(y, d), q))
  {
    hide Value1, PowV, PowDiff, Mul;
    NumMeaning(c, 0.0);
    PowDiffValue(c, a, b, da, q);
  }

  lemma SlopesOfFixedPow(c: Context, a: Expr, b: Expr, x: nat, da: Expr)
    requires Slopes(c, a, x, da) && Slopes(c, b, x, Num(0.0)) && PositivePower(c, a, b)
    ensures Slopes(c, Binary(Pow, a, b), x, PowDiff(a, b, da))
  {
    hide Value1, Operand, HasDerivative, Along, PositivePower, AsExponentialDiff, PowDiff;
    FixedTreesAgree(c, a, b, da, c.Of(da).r);
    SlopesOfPositivePower(c, a, b, x, da, Num(0.0), PowDiff(a, b, da));
  }

  /** The power with one less in the exponent. */
  lemma LoweredPower(c: Context, a: Expr, b: Expr, u: real, y: real, p: real) returns (q: real)
    requires PositivePower(c, a, b) && Has(c, a, u) && Has(c, b, y) && Has(c, Binary(Pow, a, b), p)
    ensures PowV(c.pow, Real(u), Real(y - 1.0)) == Real(q) && Mul(q, u) == p
  {
    hide Value1, PowV, Mul, PrimitiveAt;
    BinaryMeaning(c, Pow, a, b);
    assert PowerLaw(c, u, y);
    q := PowV(c.pow, Real(u), Real(y - 1.0)).r;
  }
}
