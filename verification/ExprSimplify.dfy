/** The overloaded operators of `mathexpr` build simplified trees. They keep the value of the expression they
    stand for wherever it is defined, with one exception that is characterised exactly. */
module ExprSimplify {
  import opened Expr

  // ----- what the arithmetic operators compute on ideal reals -----

  function AddV(a: Value, b: Value): Value {
    if a.ErrVal? || b.ErrVal? then ErrVal else Real(a.r + b.r)
  }

  function SubV(a: Value, b: Value): Value {
    if a.ErrVal? || b.ErrVal? then ErrVal else Real(a.r - b.r)
  }

  /** A zero second operand wins over an error in the first. */
  function MultV(a: Value, b: Value): Value {
    if b == Real(0.0) then Real(0.0)
    else if b.ErrVal? || a.ErrVal? then ErrVal
    else Real(a.r * b.r)
  }

  function DivV(a: Value, b: Value): Value {
    if b == Real(0.0) || b.ErrVal? || a.ErrVal? then ErrVal else Real(a.r / b.r)
  }

  function OppV(a: Value): Value {
    if a.ErrVal? then ErrVal else Real(-a.r)
  }

  function NatPow(x: real, n: nat): real {
    if n == 0 then 1.0 else x * NatPow(x, n - 1)
  }

  lemma NatPowNonzero(x: real, n: nat)
    requires x != 0.0
    ensures NatPow(x, n) != 0.0
  {
  }

  predicate IsInteger(x: real) {
    x == x.Floor as real
  }

  /** Integer powers are products; `pow` is any function for the other exponents. */
  function RealPow(pow: (real, real) -> real, x: real, y: real): real
    requires x != 0.0
  {
    if !IsInteger(y) then pow(x, y)
    else if y.Floor >= 0 then NatPow(x, y.Floor)
    else
      NatPowNonzero(x, -y.Floor);
      1.0 / NatPow(x, -y.Floor)
  }

  /** A zero base gives zero, whatever the exponent. */
  function PowV(pow: (real, real) -> real, a: Value, b: Value): Value {
    if a == Real(0.0) then Real(0.0)
    else if a.ErrVal? || b.ErrVal? then ErrVal
    else if a.r > 0.0 || IsInteger(b.r) then Real(RealPow(pow, a.r, b.r))
    else ErrVal
  }

  /** A power of a nonzero number is a number if and only if the base is positive or the exponent an integer; integer
      exponents multiply or divide, and `pow` gives the others. */
  lemma PowerIsNumberIff(pow: (real, real) -> real, x: real, y: real)
    requires x != 0.0
    ensures PowV(pow, Real(x), Real(y)).Real? <==> x > 0.0 || IsInteger(y)
    ensures x > 0.0 && !IsInteger(y) ==> PowV(pow, Real(x), Real(y)) == Real(pow(x, y))
    ensures forall n: nat :: y == n as real ==> PowV(pow, Real(x), Real(y)) == Real(NatPow(x, n))
    ensures forall n: nat :: y == -(n as real) && n > 0 ==>
              var r := PowV(pow, Real(x), Real(y)); r.Real? && r.r * NatPow(x, n) == 1.0
  {
    forall n: nat | y == n as real
      ensures PowV(pow, Real(x), Real(y)) == Real(NatPow(x, n))
    {
      assert y.Floor == n;
    }
    forall n: nat | y == -(n as real) && n > 0
      ensures var r := PowV(pow, Real(x), Real(y)); r.Real? && r.r * NatPow(x, n) == 1.0
    {
      assert y.Floor + n == 0;
      NatPowNonzero(x, n);
    }
  }

  /** A meaning with ideal arithmetic; the remaining operators are those of `other`. */
  function Ideal(other: Meaning, pow: (real, real) -> real): Meaning {
    Meaning(
      (op: BinaryOp, a: Value, b: Value) =>
        match op
        case Add => AddV(a, b)
        case Sub => SubV(a, b)
        case Mult => MultV(a, b)
        case Div => DivV(a, b)
        case Pow => PowV(pow, a, b)
        case _ => other.binary(op, a, b),
      (fn: UnaryOp, a: Value) => if fn == Opp then OppV(a) else other.unary(fn, a),
      other.atan2,
      other.native)
  }

  // ----- the constructors -----

  /** The conversion from a double: literals are never negative. */
  function FromReal(x: real): Expr {
    if x >= 0.0 then Num(x) else Unary(Opp, Num(-x))
  }

  function Neg(a: Expr): Expr {
    match a
    case Num(x) => FromReal(-x)
    case Unary(Opp, b) => b
    case _ => Unary(Opp, a)
  }

  function Size(e: Expr): nat {
    match e
    case Binary(_, left, right) => 1 + Size(left) + Size(right)
    case Unary(_, arg) => 1 + Size(arg)
    case _ => 1
  }

  /** `+` and `-` call each other on strictly smaller operands. */
  function Plus(a: Expr, b: Expr): Expr
    decreases Size(a) + Size(b)
  {
    if a.Num? && b.Num? then FromReal(a.value + b.value)
    else if a == Num(0.0) then b
    else if b == Num(0.0) then a
    else if a.Unary? && a.fn == Opp then Minus(b, a.arg)
    else if b.Unary? && b.fn == Opp then Minus(a, b.arg)
    else Binary(Add, a, b)
  }

  function Minus(a: Expr, b: Expr): Expr
    decreases Size(a) + Size(b)
  {
    if a.Num? && b.Num? then FromReal(a.value - b.value)
    else if a == Num(0.0) then Neg(b)
    else if b == Num(0.0) then a
    else if a.Unary? && a.fn == Opp then Neg(Plus(b, a.arg))
    else if b.Unary? && b.fn == Opp then Plus(a, b.arg)
    else Binary(Sub, a, b)
  }

  function Times(a: Expr, b: Expr): Expr
    decreases Size(a) + Size(b)
  {
    if a.Num? && b.Num? then FromReal(a.value * b.value)
    else if a == Num(0.0) || b == Num(0.0) then Num(0.0)
    else if a == Num(1.0) then b
    else if b == Num(1.0) then a
    else if a.Unary? && a.fn == Opp then Neg(Times(a.arg, b))
    else if b.Unary? && b.fn == Opp then Neg(Times(a, b.arg))
    else Binary(Mult, a, b)
  }

  function Over(a: Expr, b: Expr): Expr
    decreases Size(a) + Size(b)
  {
    if a.Num? && b.Num? then (if b.value != 0.0 then FromReal(a.value / b.value) else ErrOp)
    else if a == Num(0.0) then Num(0.0)
    else if b == Num(1.0) then a
    else if b == Num(0.0) then ErrOp
    else if a.Unary? && a.fn == Opp then Neg(Over(a.arg, b))
    else if b.Unary? && b.fn == Opp then Neg(Over(a, b.arg))
    else Binary(Div, a, b)
  }

  function Power(a: Expr, b: Expr): Expr {
    if a == Num(0.0) then Num(0.0)
    else if b == Num(0.0) then Num(1.0)
    else if b == Num(1.0) then a
    else Binary(Pow, a, b)
  }

  // ----- meaning -----

  /** A well-formed operand whose variables are in the store. */
  ghost predicate Operand(e: Expr, store: Store) {
    WellFormed(e) && Width(e) == 1 && Cells(e) <= store.Keys
  }

  function Value1(m: Meaning, e: Expr, store: Store): Value
    requires Operand(e, store)
  {
    Eval(m, e, store)[0]
  }

  /** The context of every lemma below. */
  datatype Context = Context(other: Meaning, pow: (real, real) -> real, store: Store) {
    function Of(e: Expr): Value
      requires Operand(e, store)
    {
      Value1(Ideal(other, pow), e, store)
    }
  }

  lemma NumMeaning(c: Context, x: real)
    ensures Operand(Num(x), c.store) && c.Of(Num(x)) == Real(x)
  {
  }

  lemma OppMeaning(c: Context, a: Expr)
    requires Operand(a, c.store)
    ensures Operand(Unary(Opp, a), c.store) && c.Of(Unary(Opp, a)) == OppV(c.Of(a))
  {
  }

  /** The operator a tree node applies to the values of its operands. */
  function ArithV(c: Context, op: BinaryOp, a: Value, b: Value): Value
    requires op in {Add, Sub, Mult, Div, Pow}
  {
    match op
    case Add => AddV(a, b)
    case Sub => SubV(a, b)
    case Mult => MultV(a, b)
    case Div => DivV(a, b)
    case Pow => PowV(c.pow, a, b)
  }

  lemma BinaryMeaning(c: Context, op: BinaryOp, a: Expr, b: Expr)
    requires op in {Add, Sub, Mult, Div, Pow} && Operand(a, c.store) && Operand(b, c.store)
    ensures Operand(Binary(op, a, b), c.store) && c.Of(Binary(op, a, b)) == ArithV(c, op, c.Of(a), c.Of(b))
  {
  }

  lemma FromRealMeaning(c: Context, x: real)
    ensures Operand(FromReal(x), c.store) && c.Of(FromReal(x)) == Real(x)
  {
    NumMeaning(c, x);
    NumMeaning(c, -x);
    OppMeaning(c, Num(-x));
  }

  lemma NegKeepsMeaning(c: Context, a: Expr)
    requires Operand(a, c.store)
    ensures Operand(Neg(a), c.store) && c.Of(Neg(a)) == OppV(c.Of(a))
  {
    hide Value1;
    if a.Num? {
      NumMeaning(c, a.value);
      FromRealMeaning(c, -a.value);
    } else if a.Unary? && a.fn == Opp {
      OppMeaning(c, a.arg);
    } else {
      OppMeaning(c, a);
    }
  }

  /** What a literal or a negated operand contributes. */
  lemma Literals(c: Context, a: Expr, b: Expr)
    requires Operand(a, c.store) && Operand(b, c.store)
    ensures Operand(Num(0.0), c.store) && c.Of(Num(0.0)) == Real(0.0)
    ensures Operand(Num(1.0), c.store) && c.Of(Num(1.0)) == Real(1.0)
    ensures a.Num? ==> c.Of(a) == Real(a.value)
    ensures b.Num? ==> c.Of(b) == Real(b.value)
    ensures a.Unary? && a.fn == Opp ==> Operand(a.arg, c.store) && c.Of(a) == OppV(c.Of(a.arg))
    ensures b.Unary? && b.fn == Opp ==> Operand(b.arg, c.store) && c.Of(b) == OppV(c.Of(b.arg))
  {
    NumMeaning(c, 0.0);
    NumMeaning(c, 1.0);
  }

  /** `+` and `-` keep the value of the unsimplified tree, errors included. */
  lemma {:induction false} PlusKeepsMeaning(c: Context, a: Expr, b: Expr)
    requires Operand(a, c.store) && Operand(b, c.store)
    ensures Operand(Plus(a, b), c.store) && c.Of(Plus(a, b)) == c.Of(Binary(Add, a, b)) == AddV(c.Of(a), c.Of(b))
    decreases Size(a) + Size(b)
  {
    hide Value1;
    BinaryMeaning(c, Add, a, b);
    Literals(c, a, b);
    if a.Num? && b.Num? {
      FromRealMeaning(c, a.value + b.value);
    } else if a == Num(0.0) || b == Num(0.0) {
    } else if a.Unary? && a.fn == Opp {
      MinusKeepsMeaning(c, b, a.arg);
    } else if b.Unary? && b.fn == Opp {
      MinusKeepsMeaning(c, a, b.arg);
    }
  }

  lemma {:induction false} MinusKeepsMeaning(c: Context, a: Expr, b: Expr)
    requires Operand(a, c.store) && Operand(b, c.store)
    ensures Operand(Minus(a, b), c.store) && c.Of(Minus(a, b)) == c.Of(Binary(Sub, a, b)) == SubV(c.Of(a), c.Of(b))
    decreases Size(a) + Size(b)
  {
    hide Value1;
    BinaryMeaning(c, Sub, a, b);
    Literals(c, a, b);
    if a.Num? && b.Num? {
      FromRealMeaning(c, a.value - b.value);
    } else if a == Num(0.0) {
      NegKeepsMeaning(c, b);
    } else if b == Num(0.0) {
    } else if a.Unary? && a.fn == Opp {
      PlusKeepsMeaning(c, b, a.arg);
      NegKeepsMeaning(c, Plus(b, a.arg));
    } else if b.Unary? && b.fn == Opp {
      PlusKeepsMeaning(c, a, b.arg);
    }
  }

  lemma MultFacts(a: Value, b: Value)
    ensures b == Real(0.0) ==> MultV(a, b) == Real(0.0)
    ensures a == Real(0.0) && MultV(a, b) != ErrVal ==> MultV(a, b) == Real(0.0)
    ensures a == Real(1.0) ==> MultV(a, b) == b
    ensures b == Real(1.0) ==> MultV(a, b) == a
    ensures a.Real? && b.Real? ==> MultV(a, b) == Real(a.r * b.r)
  {
  }

  lemma MultSigns(a: Value, b: Value)
    ensures MultV(OppV(a), b) == OppV(MultV(a, b)) == MultV(a, OppV(b))
  {
    if a.Real? && b.Real? {
      assert (-a.r) * b.r == -(a.r * b.r) == a.r * (-b.r);
    }
  }

  /** `*` keeps the value wherever the unsimplified product is defined. */
  lemma {:induction false} TimesKeepsMeaning(c: Context, a: Expr, b: Expr)
    requires Operand(a, c.store) && Operand(b, c.store)
    ensures Operand(Times(a, b), c.store) && c.Of(Binary(Mult, a, b)) == MultV(c.Of(a), c.Of(b))
    ensures c.Of(Binary(Mult, a, b)) != ErrVal ==> c.Of(Times(a, b)) == c.Of(Binary(Mult, a, b))
    decreases Size(a) + Size(b)
  {
    hide Value1, MultV;
    MultFacts(c.Of(a), c.Of(b));
    BinaryMeaning(c, Mult, a, b);
    Literals(c, a, b);
    if a.Num? && b.Num? {
      FromRealMeaning(c, a.value * b.value);
    } else if a == Num(0.0) || b == Num(0.0) || a == Num(1.0) || b == Num(1.0) {
    } else if a.Unary? && a.fn == Opp {
      MultSigns(c.Of(a.arg), c.Of(b));
      TimesKeepsMeaning(c, a.arg, b);
      NegKeepsMeaning(c, Times(a.arg, b));
    } else if b.Unary? && b.fn == Opp {
      MultSigns(c.Of(a), c.Of(b.arg));
      TimesKeepsMeaning(c, a, b.arg);
      NegKeepsMeaning(c, Times(a, b.arg));
    }
  }

  lemma DivisionFacts(a: Value, b: Value)
    ensures b == Real(0.0) || b.ErrVal? || a.ErrVal? ==> DivV(a, b) == ErrVal
    ensures a.Real? && b.Real? && b.r != 0.0 ==> DivV(a, b) == Real(a.r / b.r)
    ensures a == Real(0.0) && DivV(a, b) != ErrVal ==> DivV(a, b) == Real(0.0)
    ensures b == Real(1.0) ==> DivV(a, b) == a
  {
  }

  lemma DivisionSigns(a: Value, b: Value)
    ensures DivV(OppV(a), b) == OppV(DivV(a, b)) == DivV(a, OppV(b))
  {
    if a.Real? && b.Real? && b.r != 0.0 {
      var q := a.r / b.r;
      assert q * b.r == a.r;
      QuotientUnique(-a.r, b.r, -q);
      QuotientUnique(a.r, -b.r, -q);
    }
  }

  lemma QuotientUnique(x: real, y: real, q: real)
    requires y != 0.0 && q * y == x
    ensures x / y == q
  {
  }

  /** `/` keeps the value wherever the unsimplified quotient is defined. */
  lemma {:induction false} OverKeepsMeaning(c: Context, a: Expr, b: Expr)
    requires Operand(a, c.store) && Operand(b, c.store)
    ensures Operand(Over(a, b), c.store) && c.Of(Binary(Div, a, b)) == DivV(c.Of(a), c.Of(b))
    ensures c.Of(Binary(Div, a, b)) != ErrVal ==> c.Of(Over(a, b)) == c.Of(Binary(Div, a, b))
    decreases Size(a) + Size(b)
  {
    hide Value1, DivV;
    DivisionFacts(c.Of(a), c.Of(b));
    BinaryMeaning(c, Div, a, b);
    Literals(c, a, b);
    if a.Num? && b.Num? {
      if b.value != 0.0 {
        FromRealMeaning(c, a.value / b.value);
      }
    } else if a == Num(0.0) || b == Num(1.0) || b == Num(0.0) {
    } else if a.Unary? && a.fn == Opp {
      DivisionSigns(c.Of(a.arg), c.Of(b));
      OverKeepsMeaning(c, a.arg, b);
      NegKeepsMeaning(c, Over(a.arg, b));
    } else if b.Unary? && b.fn == Opp {
      DivisionSigns(c.Of(a), c.Of(b.arg));
      OverKeepsMeaning(c, a, b.arg);
      NegKeepsMeaning(c, Over(a, b.arg));
    }
  }

  /** `^` keeps the value of a defined power, except exactly when a base that is not the literal 0 but
      evaluates to zero is raised to the literal 0: the tree says 1 where the operator says 0. */
  lemma PowerKeepsMeaning(c: Context, a: Expr, b: Expr)
    requires Operand(a, c.store) && Operand(b, c.store)
    ensures Operand(Power(a, b), c.store) && c.Of(Binary(Pow, a, b)) == PowV(c.pow, c.Of(a), c.Of(b))
    ensures c.Of(Binary(Pow, a, b)) != ErrVal ==>
              (c.Of(Power(a, b)) == c.Of(Binary(Pow, a, b)) <==>
               !(b == Num(0.0) && a != Num(0.0) && c.Of(a) == Real(0.0)))
  {
    hide Value1;
    BinaryMeaning(c, Pow, a, b);
    Literals(c, a, b);
    if b == Num(1.0) && c.Of(a).Real? && c.Of(a).r != 0.0 {
      assert NatPow(c.Of(a).r, 1) == c.Of(a).r * NatPow(c.Of(a).r, 0);
    }
  }
}
