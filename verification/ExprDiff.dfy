/** The symbolic derivative of `mathexpr` is the derivative: for sums, differences, negation, products, quotients,
    powers, roots and the functions of one argument, composed in any way, around parts without the variable that may be
    anything. */
module ExprDiff {
  import opened Expr
  import opened ExprSimplify
  import opened Calculus
  import opened CalculusChain
  import opened ExprPrimitives
  import opened ExprSlopes

  // ----- roots and powers of ten -----

  /** Diff treats b # a, the a-th root of b, as b ^ (1 / a), and a E b as a * 10 ^ b. */
  function Rewritten(op: BinaryOp, a: Expr, b: Expr): Expr {
    if op == NthRoot then Power(b, Over(Num(1.0), a)) else Times(a, Power(Num(10.0), b))
  }

  /** Operators that are rewritten. */
  function Roots(e: Expr): nat {
    match e
    case Binary(op, left, right) => Roots(left) + Roots(right) + if op in {NthRoot, E10} then 1 else 0
    case Unary(_, arg) => Roots(arg)
    case _ => 0
  }

  lemma NegAddsNoRoots(a: Expr)
    ensures Roots(Neg(a)) <= Roots(a)
  {
  }

  lemma {:induction false} TimesAddsNoRoots(a: Expr, b: Expr)
    ensures Roots(Times(a, b)) <= Roots(a) + Roots(b)
    decreases Size(a) + Size(b)
  {
    hide Neg;
    if a.Unary? {
      TimesAddsNoRoots(a.arg, b);
      NegAddsNoRoots(Times(a.arg, b));
    }
    if b.Unary? {
      TimesAddsNoRoots(a, b.arg);
      NegAddsNoRoots(Times(a, b.arg));
    }
  }

  lemma {:induction false} OverAddsNoRoots(a: Expr, b: Expr)
    ensures Roots(Over(a, b)) <= Roots(a) + Roots(b)
    decreases Size(a) + Size(b)
  {
    hide Neg;
    if a.Unary? {
      OverAddsNoRoots(a.arg, b);
      NegAddsNoRoots(Over(a.arg, b));
    }
    if b.Unary? {
      OverAddsNoRoots(a, b.arg);
      NegAddsNoRoots(Over(a, b.arg));
    }
  }

  lemma RewritingRemovesARoot(op: BinaryOp, a: Expr, b: Expr)
    requires op in {NthRoot, E10}
    ensures Roots(Rewritten(op, a, b)) < Roots(Binary(op, a, b))
  {
    hide Times, Over;
    OverAddsNoRoots(Num(1.0), a);
    TimesAddsNoRoots(a, Power(Num(10.0), b));
  }

  lemma RewrittenIsOperand(c: Context, op: BinaryOp, a: Expr, b: Expr)
    requires Operand(a, c.store) && Operand(b, c.store)
    ensures Operand(Rewritten(op, a, b), c.store)
  {
    hide Value1, Over, Times, Power;
    NumMeaning(c, 1.0);
    NumMeaning(c, 10.0);
    OverKeepsMeaning(c, Num(1.0), a);
    PowerKeepsMeaning(c, b, Over(Num(1.0), a));
    PowerKeepsMeaning(c, Num(10.0), b);
    TimesKeepsMeaning(c, a, Power(Num(10.0), b));
  }

  // ----- the derivative -----

  /** The expressions whose derivative is modelled. */
  predicate Elementary(e: Expr, x: nat)
    decreases Roots(e), e
  {
    !Contains(e, x) ||
    match e
    case Var(_) => true
    case Unary(_, arg) => Elementary(arg, x) && Width(arg) == 1
    case Binary(op, left, right) =>
      if op in {NthRoot, E10} then
        RewritingRemovesARoot(op, left, right);
        Elementary(Rewritten(op, left, right), x)
      else op != Juxt && Elementary(left, x) && Elementary(right, x)
    case _ => false
  }

  /** The cases of Diff for these expressions; results are built by the simplifying operators. */
  function Diff(e: Expr, x: nat): Expr
    requires Elementary(e, x)
    decreases Roots(e), e
  {
    if !Contains(e, x) then Num(0.0)
    else
      match e
      case Var(_) => Num(1.0)
      case Unary(fn, a) => UnaryDiff(fn, a, Diff(a, x))
      case Binary(op, a, b) =>
        if op in {NthRoot, E10} then
          RewritingRemovesARoot(op, a, b);
          Diff(Rewritten(op, a, b), x)
        else if op == Pow then
          if Contains(b, x) then MovingPowDiff(a, b, Diff(a, x), Diff(b, x)) else PowDiff(a, b, Diff(a, x))
        else if op == Add then Plus(Diff(a, x), Diff(b, x))
        else if op == Sub then Minus(Diff(a, x), Diff(b, x))
        else if op == Mult then Plus(Times(a, Diff(b, x)), Times(b, Diff(a, x)))
        else if Contains(b, x) then Over(Minus(Times(b, Diff(a, x)), Times(a, Diff(b, x))), Power(b, Num(2.0)))
        else Over(Diff(a, x), b)
  }

  // ----- where the expression is differentiable -----

  /** The two expressions have the same value as long as the variable stays near its own. */
  ghost predicate AgreeNear(c: Context, e: Expr, e': Expr, x: nat)
    requires Operand(e, c.store) && Operand(e', c.store) && Movable(c, x)
  {
    exists near :: SameWithin(Along(c, e, x), Along(c, e', x), near)
  }

  /** Parts without the variable have real values and call no function that reads it; no divisor is zero; the
      functions of one argument are differentiable where they are applied; powers are those below; roots and powers of
      ten are what they are rewritten to. */
  ghost predicate Regular(c: Context, e: Expr, x: nat)
    requires Operand(e, c.store) && Movable(c, x) && Elementary(e, x)
    decreases Roots(e), e
  {
    if !Contains(e, x) then CalleesIgnore(e, x) && c.Of(e).Real?
    else
      match e
      case Var(_) => true
      case Unary(fn, a) => Regular(c, a, x) && (fn == Opp || (IsReal(c, a) && PrimitiveAt(c, fn, c.Of(a).r)))
      case Binary(op, a, b) =>
        if op in {NthRoot, E10} then
          RewritingRemovesARoot(op, a, b);
          RewrittenIsOperand(c, op, a, b);
          Regular(c, Rewritten(op, a, b), x) && AgreeNear(c, e, Rewritten(op, a, b), x)
        else
          && Regular(c, a, x) && Regular(c, b, x)
          && (op == Div ==> NotZero(c, b))
          && (op == Pow ==> RegularPower(c, a, b, x))
  }

  /** A literal natural exponent (not zero on a zero base), an integer exponent (at least two on a zero base), or a
      positive base. */
  ghost predicate RegularPower(c: Context, a: Expr, b: Expr, x: nat) {
    if !Contains(b, x) && b.Num? && IsNatural(b.value) then b.value == 0.0 ==> NotZero(c, a)
    else if !Contains(b, x) && IsReal(c, b) && IsInteger(c.Of(b).r) then NotZero(c, a) || c.Of(b).r >= 2.0
    else PositivePower(c, a, b)
  }

  predicate IsNatural(x: real) {
    x >= 0.0 && IsInteger(x)
  }

  // ----- the theorem -----

  lemma OperandParts(e: Expr, store: Store)
    requires Operand(e, store)
    ensures e.Unary? && Width(e.arg) == 1 ==> Operand(e.arg, store)
    ensures e.Binary? && e.op != Juxt ==> Operand(e.left, store) && Operand(e.right, store)
  {
  }

  /** Main result: wherever an elementary expression is regular, what Diff returns evaluates to its derivative. */
  lemma {:induction false} DiffIsDerivative(c: Context, e: Expr, x: nat)
    requires Operand(e, c.store) && Movable(c, x) && Elementary(e, x) && Regular(c, e, x)
    ensures IsReal(c, e) && IsReal(c, Diff(e, x))
    ensures HasDerivative(Along(c, e, x), c.Of(e).r, c.Of(Diff(e, x)).r)
    decreases Roots(e), e
  {
    hide HasDerivative, Along, Value1, Operand, PrimitiveAt, RegularPower, UnaryDiff, MovingPowDiff, PowDiff;
    OperandParts(e, c.store);
    if !Contains(e, x) {
      NotFoundIsNotRead(e, x);
      SlopesOfStill(c, e, x);
    } else {
      match e
      case Var(_) => SlopesOfVar(c, x);
      case Unary(fn, a) =>
        DiffIsDerivative(c, a, x);
        if fn == Opp {
          OppositeTree(a, Diff(a, x));
          SlopesOfOpp(c, a, x, Diff(a, x));
        } else {
          SlopesOfPrimitive(c, fn, a, x, Diff(a, x));
        }
      case Binary(op, a, b) =>
        if op in {NthRoot, E10} {
          RewritingRemovesARoot(op, a, b);
          RewrittenIsOperand(c, op, a, b);
          DiffIsDerivative(c, Rewritten(op, a, b), x);
          RewrittenCase(c, e, Rewritten(op, a, b), x, Diff(e, x));
        } else {
          DiffIsDerivative(c, a, x);
          DiffIsDerivative(c, b, x);
          if op == Pow {
            PowCase(c, a, b, x);
          } else {
            BinaryCase(c, op, a, b, x);
          }
        }
    }
  }

  lemma RewrittenCase(c: Context, e: Expr, e': Expr, x: nat, d: Expr)
    requires Slopes(c, e', x, d) && Operand(e, c.store) && AgreeNear(c, e, e', x)
    ensures Slopes(c, e, x, d)
  {
    hide HasDerivative, Value1, Along, SameWithin;
    var near :| SameWithin(Along(c, e, x), Along(c, e', x), near);
    SameNear(Along(c, e, x), Along(c, e', x), near, c.Of(e').r, c.Of(d).r);
    AtRest(c, e, x);
    AtRest(c, e', x);
    SameAtZero(Along(c, e, x), Along(c, e', x), near);
  }

  lemma SameAtZero(s: Curve, f: Curve, near: real)
    requires SameWithin(s, f, near)
    ensures s(0.0) == f(0.0)
  {
  }

  /** Where the variable has not moved, the curve is at the value of the expression. */
  lemma AtRest(c: Context, e: Expr, x: nat)
    requires Operand(e, c.store) && Movable(c, x)
    ensures Along(c, e, x)(0.0) == c.Of(e)
  {
    AlongAt(c, e, x, 0.0);
    assert Moved(c, x, 0.0).store == c.store;
  }

  lemma OppositeTree(a: Expr, da: Expr)
    ensures UnaryDiff(Opp, a, da) == Neg(da)
  {
  }

  lemma PowCase(c: Context, a: Expr, b: Expr, x: nat)
    requires Elementary(Binary(Pow, a, b), x) && RegularPower(c, a, b, x) && Contains(Binary(Pow, a, b), x)
    requires Slopes(c, a, x, Diff(a, x)) && Slopes(c, b, x, Diff(b, x)) && (!Contains(b, x) ==> CalleesIgnore(b, x))
    ensures Slopes(c, Binary(Pow, a, b), x, Diff(Binary(Pow, a, b), x))
  {
    hide Along, HasDerivative, Value1, PositivePower, MovingPowDiff, PowDiff, CalleesIgnore;
    if !Contains(b, x) {
      NotFoundIsNotRead(b, x);
    }
    if Contains(b, x) {
      SlopesOfMovingPow(c, a, b, x, Diff(a, x), Diff(b, x));
    } else if b.Num? && IsNatural(b.value) {
      LiteralCase(c, a, b, x);
    } else if IsInteger(c.Of(b).r) {
      var n := c.Of(b).r.Floor;
      if NotZero(c, a) {
        SlopesOfIntPow(c, a, b, x, Diff(a, x), n);
      } else {
        SlopesOfHighPow(c, a, b, x, Diff(a, x), n);
      }
    } else {
      SlopesOfFixedPow(c, a, b, x, Diff(a, x));
    }
  }

  lemma LiteralCase(c: Context, a: Expr, b: Expr, x: nat)
    requires Elementary(a, x) && Contains(a, x) && Slopes(c, a, x, Diff(a, x)) && b.Num? && IsNatural(b.value)
    requires b.value == 0.0 ==> NotZero(c, a)
    ensures Slopes(c, Binary(Pow, a, b), x, PowDiff(a, b, Diff(a, x)))
  {
    hide Slopes;
    if b.value == 0.0 {
      SlopesOfPowZero(c, a, x, Diff(a, x));
      PowZeroIsZero(c, Diff(a, x), Power(a, Minus(b, Num(1.0))));
    } else {
      SlopesOfPow(c, a, b.value.Floor, x, Diff(a, x));
    }
  }

  lemma BinaryCase(c: Context, op: BinaryOp, a: Expr, b: Expr, x: nat)
    requires op in {Add, Sub, Mult, Div} && Elementary(Binary(op, a, b), x) && (op == Div ==> NotZero(c, b))
    requires Contains(Binary(op, a, b), x)
    requires Slopes(c, a, x, Diff(a, x)) && Slopes(c, b, x, Diff(b, x))
    ensures Slopes(c, Binary(op, a, b), x, Diff(Binary(op, a, b), x))
  {
    hide Slopes;
    if op == Add {
      SlopesOfAdd(c, a, b, x, Diff(a, x), Diff(b, x));
    } else if op == Sub {
      SlopesOfSub(c, a, b, x, Diff(a, x), Diff(b, x));
    } else if op == Mult {
      SlopesOfMult(c, a, b, x, Diff(a, x), Diff(b, x));
    } else {
      SlopesOfDiv(c, a, b, x, Diff(a, x), Diff(b, x), Diff(Binary(op, a, b), x));
    }
  }

  // ----- where it is not -----

  /** f(1), where f(p) is defined as the variable with cell 0. */
  const HIDDEN := Call(User([1], Var(0)), Num(1.0))

  /** ContainVar does not look into functions: the derivative of f(1) is 1, and Diff says 0. */
  lemma HiddenReadIsMissed(c: Context)
    requires Movable(c, 0) && 1 in c.store
    ensures !Contains(HIDDEN, 0) && Reads(HIDDEN, 0) && Diff(HIDDEN, 0) == Num(0.0)
    ensures Operand(HIDDEN, c.store) && HasDerivative(Along(c, HIDDEN, 0), c.store[0].r, 1.0)
  {
    hide HasDerivative;
    HiddenValue(c);
    forall h
      ensures Along(c, HIDDEN, 0)(h) == Real(c.store[0].r + h)
    {
      AlongAt(c, HIDDEN, 0, h);
      HiddenValue(Moved(c, 0, h));
    }
    VariableRule(Along(c, HIDDEN, 0), c.store[0].r);
  }

  lemma HiddenValue(c: Context)
    requires 0 in c.store && 1 in c.store
    ensures Operand(HIDDEN, c.store) && c.Of(HIDDEN) == c.store[0]
  {
    var f := User([1], Var(0));
    assert WellFormedFunc(f);
    assert Bind(c.store, [1], [Real(1.0)])[0] == c.store[0] by {
      assert [1][..0] == [];
    }
  }

  /** What Diff returns for the power r of a variable. */
  function RootDiff(r: real, x: nat): Expr {
    Binary(Mult, Num(r), Binary(Pow, Var(x), Unary(Opp, Num(1.0 - r))))
  }

  lemma InverseIsSmall(n: real)
    requires n > 1.0
    ensures 0.0 < 1.0 / n < 1.0
  {
    var r := 1.0 / n;
    assert r * n == 1.0;
    assert r > 0.0;
  }

  lemma DiffOfPower(r: real, x: nat)
    requires 0.0 < r < 1.0
    ensures var p := Binary(Pow, Var(x), Num(r)); Elementary(p, x) && Diff(p, x) == RootDiff(r, x)
  {
    hide PowDiff;
    assert Elementary(Var(x), x) && Elementary(Num(r), x) && Diff(Var(x), x) == Num(1.0);
    RootTree(r, x);
  }

  lemma RootTree(r: real, x: nat)
    requires 0.0 < r < 1.0
    ensures PowDiff(Var(x), Num(r), Num(1.0)) == RootDiff(r, x)
  {
    assert r * 1.0 == r;
    assert Times(Num(r), Num(1.0)) == Num(r) && Minus(Num(r), Num(1.0)) == Unary(Opp, Num(1.0 - r));
  }

  lemma RootIsRewritten(n: real, x: nat)
    requires n > 1.0
    ensures Rewritten(NthRoot, Num(n), Var(x)) == Binary(Pow, Var(x), Num(1.0 / n))
  {
    InverseIsSmall(n);
  }

  lemma DiffOfRoot(n: real, x: nat)
    requires n > 1.0
    ensures var e := Binary(NthRoot, Num(n), Var(x)); Elementary(e, x) && Diff(e, x) == RootDiff(1.0 / n, x)
  {
    var r := 1.0 / n;
    InverseIsSmall(n);
    RootIsRewritten(n, x);
    DiffOfPower(r, x);
    hide Rewritten, RootDiff;
  }

  /** The source gives odd roots of negative numbers a value, but the derivative of any root of a negative number, built
      through the power, evaluates to an error. */
  lemma RootOfNegativeIsMissed(c: Context, n: real, x: nat)
    requires n > 1.0 && Movable(c, x) && c.store[x].r < 0.0
    ensures Elementary(Binary(NthRoot, Num(n), Var(x)), x)
    ensures var d := Diff(Binary(NthRoot, Num(n), Var(x)), x); Operand(d, c.store) && c.Of(d) == ErrVal
  {
    DiffOfRoot(n, x);
    InverseIsSmall(n);
    hide Value1, PowV, MultV;
    var r, base, exponent := 1.0 / n, Var(x), Unary(Opp, Num(1.0 - 1.0 / n));
    VarMeaning(c, x);
    NumMeaning(c, r);
    NumMeaning(c, 1.0 - r);
    OppMeaning(c, Num(1.0 - r));
    BinaryMeaning(c, Pow, base, exponent);
    NoFractionalPower(c, c.store[x].r, r - 1.0);
    BinaryMeaning(c, Mult, Num(r), Binary(Pow, base, exponent));
    TimesError(Real(r));
  }

  lemma VarMeaning(c: Context, x: nat)
    requires x in c.store
    ensures Operand(Var(x), c.store) && c.Of(Var(x)) == c.store[x]
  {
  }

  lemma NoFractionalPower(c: Context, u: real, y: real)
    requires u < 0.0 && -1.0 < y < 0.0
    ensures PowV(c.pow, Real(u), Real(y)) == ErrVal
  {
  }

  lemma TimesError(a: Value)
    ensures MultV(a, ErrVal) == ErrVal
  {
  }
}
