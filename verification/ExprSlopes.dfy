/** How the value of an expression changes with one variable, operator by operator: for each operator, the tree its
    derivative is built as evaluates to the derivative. */
module ExprSlopes {
  import opened Expr
  import opened ExprSimplify
  import opened Calculus
  import opened CalculusChain

  // ----- occurrences of a variable -----

  /** ContainVar: it looks at the arguments of a call, not at the body of the function. */
  predicate Contains(e: Expr, x: nat) {
    match e
    case Var(cell) => cell == x
    case Binary(_, left, right) => Contains(left, x) || Contains(right, x)
    case Unary(_, arg) => Contains(arg, x)
    case Call(_, args) => Contains(args, x)
    case _ => false
  }

  /** Evaluation may read the cell: here, or in the body of a function that does not bind it. */
  predicate Reads(e: Expr, x: nat)
    decreases e
  {
    match e
    case Var(cell) => cell == x
    case Binary(_, left, right) => Reads(left, x) || Reads(right, x)
    case Unary(_, arg) => Reads(arg, x)
    case Call(f, args) => Reads(args, x) || FuncReads(f, x)
    case _ => false
  }

  predicate FuncReads(f: Func, x: nat)
    decreases f
  {
    match f
    case User(params, body) => x !in params && Reads(body, x)
    case _ => false
  }

  lemma {:induction false} BindForgets(store: Store, params: seq<nat>, args: seq<Value>, x: nat, v: Value)
    requires |params| == |args| && x in store
    ensures Bind(store[x := v], params, args) == if x in params then Bind(store, params, args)
                                                 else Bind(store, params, args)[x := v]
    decreases |params|
  {
    if params != [] {
      var n := |params| - 1;
      BindForgets(store, params[..n], args[..n], x, v);
      assert params == params[..n] + [params[n]];
    }
  }

  /** Whatever the operators mean, an expression that does not read a cell does not change with it. */
  lemma {:induction false} EvalStandsStill(m: Meaning, e: Expr, store: Store, x: nat, v: Value)
    requires WellFormed(e) && Cells(e) <= store.Keys && x in store && !Reads(e, x)
    ensures Eval(m, e, store[x := v]) == Eval(m, e, store)
    decreases e
  {
    match e
    case Binary(_, left, right) =>
      EvalStandsStill(m, left, store, x, v);
      EvalStandsStill(m, right, store, x, v);
    case Unary(_, arg) => EvalStandsStill(m, arg, store, x, v);
    case Call(f, args) =>
      EvalStandsStill(m, args, store, x, v);
      ApplyStandsStill(m, f, Eval(m, args, store), store, x, v);
    case _ =>
  }

  lemma {:induction false} ApplyStandsStill(m: Meaning, f: Func, args: seq<Value>, store: Store, x: nat, v: Value)
    requires WellFormedFunc(f) && FuncCells(f) <= store.Keys && |args| == Arity(f) && x in store && !FuncReads(f, x)
    ensures Apply(m, f, args, store[x := v]) == Apply(m, f, args, store)
    decreases f
  {
    if f.User? {
      BindForgets(store, f.params, args, x, v);
      if x !in f.params {
        EvalStandsStill(m, f.body, Bind(store, f.params, args), x, v);
      }
    }
  }

  // ----- what ContainVar decides -----

  /** The leaves of the tree, those of the arguments of calls included, from left to right. */
  function Leaves(e: Expr): seq<Expr> {
    match e
    case Binary(_, left, right) => Leaves(left) + Leaves(right)
    case Unary(_, arg) => Leaves(arg)
    case Call(_, args) => Leaves(args)
    case _ => [e]
  }

  /** The functions called in the tree or in the arguments of a call. */
  function Callees(e: Expr): seq<Func> {
    match e
    case Binary(_, left, right) => Callees(left) + Callees(right)
    case Unary(_, arg) => Callees(arg)
    case Call(f, args) => [f] + Callees(args)
    case _ => []
  }

  /** No called function reads the cell. */
  ghost predicate CalleesIgnore(e: Expr, x: nat) {
    forall f :: f in Callees(e) ==> !FuncReads(f, x)
  }

  /** It finds the variable exactly if it is a leaf. */
  lemma {:induction false} ContainsIsLeaf(e: Expr, x: nat)
    ensures Contains(e, x) <==> Var(x) in Leaves(e)
    decreases e
  {
    match e
    case Binary(_, left, right) =>
      ContainsIsLeaf(left, x);
      ContainsIsLeaf(right, x);
    case Unary(_, arg) => ContainsIsLeaf(arg, x);
    case Call(_, args) => ContainsIsLeaf(args, x);
    case _ =>
  }

  lemma {:induction false} NotFoundIsNotRead(e: Expr, x: nat)
    requires !Contains(e, x) && CalleesIgnore(e, x)
    ensures !Reads(e, x)
    decreases e
  {
    match e
    case Binary(_, left, right) =>
      assert CalleesIgnore(left, x) && CalleesIgnore(right, x);
      NotFoundIsNotRead(left, x);
      NotFoundIsNotRead(right, x);
    case Unary(_, arg) =>
      assert CalleesIgnore(arg, x);
      NotFoundIsNotRead(arg, x);
    case Call(f, args) =>
      assert f in Callees(e) && CalleesIgnore(args, x);
      NotFoundIsNotRead(args, x);
    case _ =>
  }

  /** Main result: where it finds no variable, and no called function reads it, the value does not depend on it,
      whatever the operators mean. Without calls that is all. */
  lemma NotFoundStandsStill(m: Meaning, e: Expr, store: Store, x: nat, v: Value)
    requires WellFormed(e) && Cells(e) <= store.Keys && x in store && !Contains(e, x) && CalleesIgnore(e, x)
    ensures Eval(m, e, store[x := v]) == Eval(m, e, store)
  {
    NotFoundIsNotRead(e, x);
    EvalStandsStill(m, e, store, x, v);
  }

  // ----- real values -----

  ghost predicate NotZero(c: Context, e: Expr) {
    Operand(e, c.store) && c.Of(e) != Real(0.0)
  }

  ghost predicate IsReal(c: Context, e: Expr) {
    Operand(e, c.store) && c.Of(e).Real?
  }

  // ----- moving one variable -----

  /** The value of the expression as variable x moves away from its value in the store. */
  ghost function Along(c: Context, e: Expr, x: nat): Curve
    requires Operand(e, c.store) && Movable(c, x)
  {
    (h: real) => Moved(c, x, h).Of(e)
  }

  predicate Movable(c: Context, x: nat) {
    x in c.store && c.store[x].Real?
  }

  function Moved(c: Context, x: nat, h: real): (r: Context)
    requires Movable(c, x)
    ensures r.store.Keys == c.store.Keys
  {
    c.(store := c.store[x := Real(c.store[x].r + h)])
  }

  lemma AlongAt(c: Context, e: Expr, x: nat, h: real)
    requires Operand(e, c.store) && Movable(c, x)
    ensures Operand(e, Moved(c, x, h).store) && Along(c, e, x)(h) == Moved(c, x, h).Of(e)
  {
  }

  /** A node combines the curves of its operands pointwise. */
  lemma AlongBinary(c: Context, op: BinaryOp, a: Expr, b: Expr, x: nat)
    requires op in {Add, Sub, Mult, Div, Pow} && Operand(a, c.store) && Operand(b, c.store) && Movable(c, x)
    ensures Operand(Binary(op, a, b), c.store)
    ensures forall h :: Along(c, Binary(op, a, b), x)(h) == ArithV(c, op, Along(c, a, x)(h), Along(c, b, x)(h))
  {
    hide Value1, ArithV, Along;
    BinaryMeaning(c, op, a, b);
    forall h
      ensures Along(c, Binary(op, a, b), x)(h) == ArithV(c, op, Along(c, a, x)(h), Along(c, b, x)(h))
    {
      AlongAt(c, a, x, h);
      AlongAt(c, b, x, h);
      AlongAt(c, Binary(op, a, b), x, h);
      BinaryMeaning(Moved(c, x, h), op, a, b);
      SameArith(c, Moved(c, x, h), op, Along(c, a, x)(h), Along(c, b, x)(h));
    }
  }

  lemma SameArith(c: Context, c': Context, op: BinaryOp, a: Value, b: Value)
    requires op in {Add, Sub, Mult, Div, Pow} && c.pow == c'.pow
    ensures ArithV(c, op, a, b) == ArithV(c', op, a, b)
  {
  }

  lemma AlongOpp(c: Context, a: Expr, x: nat)
    requires Operand(a, c.store) && Movable(c, x)
    ensures Operand(Unary(Opp, a), c.store)
    ensures forall h :: Along(c, Unary(Opp, a), x)(h) == OppV(Along(c, a, x)(h))
  {
    hide Value1, Along;
    OppMeaning(c, a);
    forall h
      ensures Along(c, Unary(Opp, a), x)(h) == OppV(Along(c, a, x)(h))
    {
      AlongAt(c, a, x, h);
      AlongAt(c, Unary(Opp, a), x, h);
      OppMeaning(Moved(c, x, h), a);
    }
  }

  /** An expression that does not read the variable does not move with it. */
  lemma StandsStill(c: Context, e: Expr, x: nat, h: real)
    requires Operand(e, c.store) && Movable(c, x) && !Reads(e, x)
    ensures Operand(e, Moved(c, x, h).store) && Moved(c, x, h).Of(e) == c.Of(e)
  {
    EvalStandsStill(Ideal(c.other, c.pow), e, c.store, x, Real(c.store[x].r + h));
  }

  // ----- one rule per operator -----

  /** At the store's values, e has a real value and the value of d is its derivative in x. */
  ghost predicate Slopes(c: Context, e: Expr, x: nat, d: Expr) {
    && Movable(c, x) && IsReal(c, e) && IsReal(c, d)
    && HasDerivative(Along(c, e, x), c.Of(e).r, c.Of(d).r)
  }

  lemma SlopesOfStill(c: Context, e: Expr, x: nat)
    requires IsReal(c, e) && Movable(c, x) && !Reads(e, x)
    ensures Slopes(c, e, x, Num(0.0))
  {
    hide Value1, HasDerivative, Along;
    NumMeaning(c, 0.0);
    forall h
      ensures Along(c, e, x)(h) == Real(c.Of(e).r)
    {
      AlongAt(c, e, x, h);
      StandsStill(c, e, x, h);
    }
    ConstantRule(Along(c, e, x), c.Of(e).r);
  }

  lemma SlopesOfVar(c: Context, x: nat)
    requires Movable(c, x)
    ensures Slopes(c, Var(x), x, Num(1.0))
  {
    hide HasDerivative;
    NumMeaning(c, 1.0);
    forall h
      ensures Along(c, Var(x), x)(h) == Real(c.Of(Var(x)).r + h)
    {
      AlongAt(c, Var(x), x, h);
    }
    VariableRule(Along(c, Var(x), x), c.Of(Var(x)).r);
  }

  lemma SlopesOfOpp(c: Context, a: Expr, x: nat, da: Expr)
    requires Slopes(c, a, x, da)
    ensures Slopes(c, Unary(Opp, a), x, Neg(da))
  {
    hide Value1, HasDerivative, Along;
    OppMeaning(c, a);
    NegKeepsMeaning(c, da);
    AlongOpp(c, a, x);
    OppositeRule(Along(c, a, x), c.Of(a).r, c.Of(da).r, Along(c, Unary(Opp, a), x));
  }

  lemma SlopesOfAdd(c: Context, a: Expr, b: Expr, x: nat, da: Expr, db: Expr)
    requires Slopes(c, a, x, da) && Slopes(c, b, x, db)
    ensures Slopes(c, Binary(Add, a, b), x, Plus(da, db))
  {
    hide Value1, HasDerivative, Along;
    BinaryMeaning(c, Add, a, b);
    PlusKeepsMeaning(c, da, db);
    AlongBinary(c, Add, a, b, x);
    SumRule(Along(c, a, x), c.Of(a).r, c.Of(da).r, Along(c, b, x), c.Of(b).r, c.Of(db).r,
            Along(c, Binary(Add, a, b), x));
  }

  lemma SlopesOfSub(c: Context, a: Expr, b: Expr, x: nat, da: Expr, db: Expr)
    requires Slopes(c, a, x, da) && Slopes(c, b, x, db)
    ensures Slopes(c, Binary(Sub, a, b), x, Minus(da, db))
  {
    hide Value1, HasDerivative, Along;
    BinaryMeaning(c, Sub, a, b);
    MinusKeepsMeaning(c, da, db);
    AlongBinary(c, Sub, a, b, x);
    DifferenceRule(Along(c, a, x), c.Of(a).r, c.Of(da).r, Along(c, b, x), c.Of(b).r, c.Of(db).r,
                   Along(c, Binary(Sub, a, b), x));
  }

  lemma DifferenceRule(f: Curve, v: real, d: real, g: Curve, w: real, e: real, s: Curve)
    requires HasDerivative(f, v, d) && HasDerivative(g, w, e) && forall h :: s(h) == SubV(f(h), g(h))
    ensures HasDerivative(s, v - w, d - e)
  {
    hide HasDerivative;
    var minus: Curve := h => OppV(g(h));
    OppositeRule(g, w, e, minus);
    SumRule(f, v, d, minus, -w, -e, s);
  }

  /** On real operands the source's product is the product. */
  lemma MultOfReals(a: Value, b: Value)
    requires a.Real? && b.Real?
    ensures MultV(a, b) == TimesV(a, b) == Real(Mul(a.r, b.r))
  {
  }

  lemma TimesOfReals(c: Context, a: Expr, b: Expr)
    requires IsReal(c, a) && IsReal(c, b)
    ensures IsReal(c, Times(a, b)) && c.Of(Times(a, b)) == Real(Mul(c.Of(a).r, c.Of(b).r))
  {
    hide Value1, MultV;
    TimesKeepsMeaning(c, a, b);
    MultOfReals(c.Of(a), c.Of(b));
  }

  lemma Commutes(x: real, y: real)
    ensures Mul(x, y) == Mul(y, x)
  {
  }

  lemma SlopesOfMult(c: Context, a: Expr, b: Expr, x: nat, da: Expr, db: Expr)
    requires Slopes(c, a, x, da) && Slopes(c, b, x, db)
    ensures Slopes(c, Binary(Mult, a, b), x, Plus(Times(a, db), Times(b, da)))
  {
    hide Value1, HasDerivative, Along, Mul, MultV, TimesV;
    BinaryMeaning(c, Mult, a, b);
    TimesOfReals(c, a, db);
    TimesOfReals(c, b, da);
    PlusKeepsMeaning(c, Times(a, db), Times(b, da));
    AlongBinary(c, Mult, a, b, x);
    MultOfReals(c.Of(a), c.Of(b));
    Commutes(c.Of(b).r, c.Of(da).r);
    forall h | Along(c, a, x)(h).Real? && Along(c, b, x)(h).Real?
      ensures Along(c, Binary(Mult, a, b), x)(h) == TimesV(Along(c, a, x)(h), Along(c, b, x)(h))
    {
      MultOfReals(Along(c, a, x)(h), Along(c, b, x)(h));
    }
    ProductRule(Along(c, a, x), c.Of(a).r, c.Of(da).r, Along(c, b, x), c.Of(b).r, c.Of(db).r,
                Along(c, Binary(Mult, a, b), x));
  }

  // ----- quotients -----

  /** A quotient as a name, so that it is not expanded. */
  function Ratio(x: real, y: real): real
    requires y != 0.0
  {
    x / y
  }

  lemma DivOfReals(a: Value, b: Value)
    requires a.Real? && b.Real? && b.r != 0.0
    ensures DivV(a, b) == Real(Ratio(a.r, b.r))
  {
  }

  lemma OverOfReals(c: Context, a: Expr, b: Expr)
    requires IsReal(c, a) && IsReal(c, b) && c.Of(b).r != 0.0
    ensures IsReal(c, Over(a, b)) && c.Of(Over(a, b)) == Real(Ratio(c.Of(a).r, c.Of(b).r))
  {
    hide Value1, DivV, Ratio;
    OverKeepsMeaning(c, a, b);
    DivOfReals(c.Of(a), c.Of(b));
  }

  lemma SquareNonzero(w: real)
    requires w != 0.0
    ensures Mul(w, w) != 0.0
  {
    NatPowNonzero(w, 2);
    SquareIsProduct(w);
  }

  /** The quotient rule with 1/w as a factor, and as the source writes it. */
  lemma QuotientSlope(v: real, d: real, w: real, e: real, z: real)
    requires w != 0.0 && z * w == 1.0 && Mul(w, w) != 0.0
    ensures Mul(v, z) == Ratio(v, w)
    ensures Mul(d, z) + Mul(v, -Mul(e, Mul(z, z))) == Ratio(Mul(w, d) - Mul(v, e), Mul(w, w))
    ensures e == 0.0 ==> Mul(d, z) + Mul(v, -Mul(e, Mul(z, z))) == Ratio(d, w)
  {
    var q := d * z + v * (-(e * (z * z)));
    QuotientUnique(v, w, v * z);
    assert q * (w * w) == d * w * (z * w) - v * e * ((z * w) * (z * w));
    QuotientUnique(w * d - v * e, w * w, q);
    QuotientUnique(d, w, d * z);
  }

  lemma SquareOf(c: Context, b: Expr)
    requires IsReal(c, b)
    ensures IsReal(c, Power(b, Num(2.0))) && c.Of(Power(b, Num(2.0))) == Real(Mul(c.Of(b).r, c.Of(b).r))
  {
    hide Value1;
    PowerOfReal(c, b, 2);
    SquareIsProduct(c.Of(b).r);
  }

  lemma SquareIsProduct(w: real)
    ensures NatPow(w, 2) == Mul(w, w)
  {
    assert NatPow(w, 2) == w * NatPow(w, 1) && NatPow(w, 1) == w * NatPow(w, 0);
  }

  /** What the two divisions of Diff evaluate to. */
  lemma MovingDivisorValue(c: Context, a: Expr, b: Expr, da: Expr, db: Expr, d: Expr)
    requires IsReal(c, a) && IsReal(c, b) && IsReal(c, da) && IsReal(c, db)
    requires c.Of(b).r != 0.0 && Mul(c.Of(b).r, c.Of(b).r) != 0.0
    requires d == Over(Minus(Times(b, da), Times(a, db)), Power(b, Num(2.0)))
    ensures IsReal(c, d)
    ensures c.Of(d).r == Ratio(Mul(c.Of(b).r, c.Of(da).r) - Mul(c.Of(a).r, c.Of(db).r), Mul(c.Of(b).r, c.Of(b).r))
  {
    hide Operand, Value1, Mul, Ratio, Over, Minus, Times, Power;
    TimesOfReals(c, b, da);
    TimesOfReals(c, a, db);
    SquareOf(c, b);
    DifferenceOver(c, Times(b, da), Times(a, db), Power(b, Num(2.0)));
  }

  lemma DifferenceOver(c: Context, m: Expr, n: Expr, q: Expr)
    requires IsReal(c, m) && IsReal(c, n) && IsReal(c, q) && c.Of(q).r != 0.0
    ensures IsReal(c, Over(Minus(m, n), q))
    ensures c.Of(Over(Minus(m, n), q)).r == Ratio(c.Of(m).r - c.Of(n).r, c.Of(q).r)
  {
    hide Value1, Ratio, Over, Minus;
    MinusKeepsMeaning(c, m, n);
    OverOfReals(c, Minus(m, n), q);
  }

  /** What makes d the derivative of a / b. */
  ghost predicate QuotientForm(a: Expr, b: Expr, da: Expr, db: Expr, d: Expr) {
    || d == Over(Minus(Times(b, da), Times(a, db)), Power(b, Num(2.0)))
    || (db == Num(0.0) && d == Over(da, b))
  }

  lemma QuotientValue(c: Context, a: Expr, b: Expr, da: Expr, db: Expr, d: Expr, z: real)
    requires IsReal(c, a) && IsReal(c, b) && IsReal(c, da) && IsReal(c, db)
    requires c.Of(b).r != 0.0 && z * c.Of(b).r == 1.0 && QuotientForm(a, b, da, db, d)
    ensures IsReal(c, d)
    ensures c.Of(d).r == Mul(c.Of(da).r, z) + Mul(c.Of(a).r, -Mul(c.Of(db).r, Mul(z, z)))
  {
    hide Value1, Ratio, Mul, Over, Minus, Times, Power;
    SquareNonzero(c.Of(b).r);
    QuotientSlope(c.Of(a).r, c.Of(da).r, c.Of(b).r, c.Of(db).r, z);
    if db == Num(0.0) && d == Over(da, b) {
      NumMeaning(c, 0.0);
      OverOfReals(c, da, b);
    } else {
      MovingDivisorValue(c, a, b, da, db, d);
    }
  }

  lemma DivCurve(c: Context, a: Expr, b: Expr, x: nat, da: Expr, db: Expr, z: real)
    requires Slopes(c, a, x, da) && Slopes(c, b, x, db) && c.Of(b).r != 0.0 && z * c.Of(b).r == 1.0
    ensures Operand(Binary(Div, a, b), c.store)
    ensures HasDerivative(Along(c, Binary(Div, a, b), x), Mul(c.Of(a).r, z),
                          Mul(c.Of(da).r, z) + Mul(c.Of(a).r, -Mul(c.Of(db).r, Mul(z, z))))
  {
    hide Value1, HasDerivative, Along, Mul, DivV, AddV, SubV, MultV, PowV;
    AlongBinary(c, Div, a, b, x);
    QuotientRule(Along(c, a, x), c.Of(a).r, c.Of(da).r, Along(c, b, x), c.Of(b).r, c.Of(db).r,
                 Along(c, Binary(Div, a, b), x), z);
  }

  lemma SlopesOfDiv(c: Context, a: Expr, b: Expr, x: nat, da: Expr, db: Expr, d: Expr)
    requires Slopes(c, a, x, da) && Slopes(c, b, x, db) && NotZero(c, b) && QuotientForm(a, b, da, db, d)
    ensures Slopes(c, Binary(Div, a, b), x, d)
  {
    var z := Inverse(c.Of(b).r);
    hide Value1, HasDerivative, Along, Mul, DivV, Ratio, QuotientForm;
    BinaryMeaning(c, Div, a, b);
    DivOfReals(c.Of(a), c.Of(b));
    DivCurve(c, a, b, x, da, db, z);
    InverseFactor(c.Of(a).r, c.Of(b).r, z);
    QuotientValue(c, a, b, da, db, d, z);
  }

  function Inverse(w: real): (z: real)
    requires w != 0.0
    ensures z * w == 1.0
  {
    1.0 / w
  }

  lemma InverseFactor(v: real, w: real, z: real)
    requires w != 0.0 && z * w == 1.0
    ensures Mul(v, z) == Ratio(v, w)
  {
    QuotientUnique(v, w, v * z);
  }

  // ----- natural powers -----

  /** Positive natural powers, and the power zero of a nonzero number, are the ordinary ones. */
  lemma PowOfReal(c: Context, a: Value, n: nat)
    requires a.Real? && (n == 0 ==> a.r != 0.0)
    ensures PowV(c.pow, a, Real(n as real)) == PowerV(a, n)
  {
    assert (n as real).Floor == n;
    if a.r == 0.0 {
      assert NatPow(a.r, n) == a.r * NatPow(a.r, n - 1);
    }
  }

  lemma PowerOfReal(c: Context, a: Expr, n: nat)
    requires IsReal(c, a) && (n == 0 ==> a != Num(0.0))
    ensures IsReal(c, Power(a, Num(n as real))) && c.Of(Power(a, Num(n as real))) == Real(NatPow(c.Of(a).r, n))
  {
    hide Value1, PowV;
    NumMeaning(c, n as real);
    NumMeaning(c, 0.0);
    NumMeaning(c, 1.0);
    if n > 0 {
      PowOfReal(c, c.Of(a), n);
      PowerKeepsMeaning(c, a, Num(n as real));
    }
  }

  lemma SlopesOfPow(c: Context, a: Expr, n: nat, x: nat, da: Expr)
    requires Slopes(c, a, x, da) && n >= 1 && a != Num(0.0)
    ensures Slopes(c, Binary(Pow, a, Num(n as real)), x,
                   Times(Times(Num(n as real), da), Power(a, Minus(Num(n as real), Num(1.0)))))
  {
    var b, p := Num(n as real), Power(a, Minus(Num(n as real), Num(1.0)));
    hide Value1, HasDerivative, Along, PowV, Mul;
    NumMeaning(c, n as real);
    BinaryMeaning(c, Pow, a, b);
    PowOfReal(c, c.Of(a), n);
    AlongPower(c, a, n, x);
    PowerRule(Along(c, a, x), c.Of(a).r, c.Of(da).r, n, Along(c, Binary(Pow, a, b), x));
    assert Minus(b, Num(1.0)) == Num((n - 1) as real);
    PowerOfReal(c, a, n - 1);
    TimesOfReals(c, b, da);
    TimesOfReals(c, Times(b, da), p);
    PowerSlopeValue(c.Of(a).r, c.Of(da).r, n);
  }

  lemma PowerSlopeValue(v: real, d: real, n: nat)
    requires n >= 1
    ensures PowerSlope(v, d, n) == Mul(Mul(n as real, d), NatPow(v, n - 1))
  {
  }

  lemma AlongPower(c: Context, a: Expr, n: nat, x: nat)
    requires Operand(a, c.store) && Movable(c, x)
    ensures Operand(Binary(Pow, a, Num(n as real)), c.store)
    ensures forall h :: var f := Along(c, a, x)(h); f.Real? && (n == 0 ==> f.r != 0.0) ==>
                          Along(c, Binary(Pow, a, Num(n as real)), x)(h) == PowerV(f, n)
  {
    var b := Num(n as real);
    hide Value1, Along, PowV, PowerV;
    NumMeaning(c, n as real);
    AlongBinary(c, Pow, a, b, x);
    forall h | Along(c, a, x)(h).Real? && (n == 0 ==> Along(c, a, x)(h).r != 0.0)
      ensures Along(c, Binary(Pow, a, b), x)(h) == PowerV(Along(c, a, x)(h), n)
    {
      AlongAt(c, b, x, h);
      NumMeaning(Moved(c, x, h), n as real);
      PowOfReal(c, Along(c, a, x)(h), n);
    }
  }

  /** The power zero of a nonzero base is constant 1, the base divided by itself. */
  lemma SlopesOfPowZero(c: Context, a: Expr, x: nat, da: Expr)
    requires Slopes(c, a, x, da) && NotZero(c, a)
    ensures Slopes(c, Binary(Pow, a, Num(0.0)), x, Num(0.0))
  {
    var v, d, b := c.Of(a).r, c.Of(da).r, Num(0.0);
    var z := 1.0 / v;
    hide Value1, HasDerivative, Along, PowV, PowerV, DivV, Mul;
    NumMeaning(c, 0.0);
    BinaryMeaning(c, Pow, a, b);
    PowOfReal(c, c.Of(a), 0);
    AlongPower(c, a, 0, x);
    SelfQuotient(v, d, z);
    forall h | Along(c, a, x)(h).Real? && Along(c, a, x)(h).r != 0.0
      ensures Along(c, Binary(Pow, a, b), x)(h) == DivV(Along(c, a, x)(h), Along(c, a, x)(h))
    {
      DividedByItself(Along(c, a, x)(h));
    }
    QuotientRule(Along(c, a, x), v, d, Along(c, a, x), v, d, Along(c, Binary(Pow, a, b), x), z);
  }

  lemma DividedByItself(a: Value)
    requires a.Real? && a.r != 0.0
    ensures DivV(a, a) == PowerV(a, 0)
  {
  }

  lemma SelfQuotient(v: real, d: real, z: real)
    requires v != 0.0 && z * v == 1.0
    ensures Mul(v, z) == 1.0 && Mul(d, z) + Mul(v, -Mul(d, Mul(z, z))) == 0.0
  {
    assert v * (-(d * (z * z))) == -(d * z * (z * v));
  }

  lemma PowZeroIsZero(c: Context, e: Expr, p: Expr)
    ensures Times(Times(Num(0.0), e), p) == Num(0.0)
  {
  }

  // ----- powers with an integer exponent -----

  /** A nonzero base to an integer exponent. */
  lemma PowOfNonzero(c: Context, a: Value, n: int)
    requires a.Real? && a.r != 0.0
    ensures PowV(c.pow, a, Real(n as real)) == Real(IntPow(a.r, n))
  {
    assert (n as real).Floor == n;
  }

  /** What Diff builds for a power whose exponent does not move. */
  function PowDiff(a: Expr, b: Expr, da: Expr): Expr {
    Times(Times(b, da), Power(a, Minus(b, Num(1.0))))
  }

  lemma PowDiffValue(c: Context, a: Expr, b: Expr, da: Expr, q: real)
    requires IsReal(c, a) && IsReal(c, b) && IsReal(c, da)
    requires a != Num(0.0) && (c.Of(a).r != 0.0 || Minus(b, Num(1.0)) != Num(0.0))
    requires PowV(c.pow, c.Of(a), Real(c.Of(b).r - 1.0)) == Real(q)
    ensures IsReal(c, PowDiff(a, b, da)) && c.Of(PowDiff(a, b, da)).r == Mul(Mul(c.Of(b).r, c.Of(da).r), q)
  {
    hide Value1, Mul, PowV, Times, Power, Minus;
    NumMeaning(c, 1.0);
    MinusKeepsMeaning(c, b, Num(1.0));
    PowerKeepsMeaning(c, a, Minus(b, Num(1.0)));
    TimesOfReals(c, b, da);
    TimesOfReals(c, Times(b, da), Power(a, Minus(b, Num(1.0))));
  }

  /** The exponent keeps its value as the variable moves. */
  lemma AlongIntPower(c: Context, a: Expr, b: Expr, x: nat, n: int)
    requires IsReal(c, a) && IsReal(c, b) && c.Of(b) == Real(n as real) && Movable(c, x) && !Reads(b, x)
    ensures Operand(Binary(Pow, a, b), c.store)
    ensures forall h :: Along(c, Binary(Pow, a, b), x)(h) == PowV(c.pow, Along(c, a, x)(h), Real(n as real))
  {
    hide Value1, Along, PowV;
    AlongBinary(c, Pow, a, b, x);
    forall h
      ensures Along(c, Binary(Pow, a, b), x)(h) == PowV(c.pow, Along(c, a, x)(h), Real(n as real))
    {
      AlongAt(c, b, x, h);
      StandsStill(c, b, x, h);
    }
  }

  lemma SlopesOfIntPow(c: Context, a: Expr, b: Expr, x: nat, da: Expr, n: int)
    requires Slopes(c, a, x, da) && NotZero(c, a) && IsReal(c, b) && c.Of(b) == Real(n as real) && !Reads(b, x)
    ensures Slopes(c, Binary(Pow, a, b), x, PowDiff(a, b, da))
  {
    hide Value1, HasDerivative, Along, PowV, Mul, IntPow, PowDiff;
    NumMeaning(c, 0.0);
    BinaryMeaning(c, Pow, a, b);
    PowOfNonzero(c, c.Of(a), n);
    AlongIntPower(c, a, b, x, n);
    forall h | Along(c, a, x)(h).Real? && Along(c, a, x)(h).r != 0.0
      ensures Along(c, Binary(Pow, a, b), x)(h) == Real(IntPow(Along(c, a, x)(h).r, n))
    {
      PowOfNonzero(c, Along(c, a, x)(h), n);
    }
    IntPowerRule(Along(c, a, x), c.Of(a).r, c.Of(da).r, n, Along(c, Binary(Pow, a, b), x));
    PowOfNonzero(c, c.Of(a), n - 1);
    assert (n - 1) as real == n as real - 1.0;
    PowDiffValue(c, a, b, da, IntPow(c.Of(a).r, n - 1));
  }

  /** With an exponent of at least two, a zero base does no harm. */
  lemma SlopesOfHighPow(c: Context, a: Expr, b: Expr, x: nat, da: Expr, n: nat)
    requires Slopes(c, a, x, da) && a != Num(0.0) && IsReal(c, b) && c.Of(b) == Real(n as real) && !Reads(b, x) && n >= 2
    ensures Slopes(c, Binary(Pow, a, b), x, PowDiff(a, b, da))
  {
    hide Value1, HasDerivative, Along, PowV, PowerV, Mul, PowDiff;
    BinaryMeaning(c, Pow, a, b);
    PowOfReal(c, c.Of(a), n);
    AlongIntPower(c, a, b, x, n);
    forall h | Along(c, a, x)(h).Real?
      ensures Along(c, Binary(Pow, a, b), x)(h) == PowerV(Along(c, a, x)(h), n)
    {
      PowOfReal(c, Along(c, a, x)(h), n);
    }
    PowerRule(Along(c, a, x), c.Of(a).r, c.Of(da).r, n, Along(c, Binary(Pow, a, b), x));
    PowerOf(c.Of(a), n);
    PowOfReal(c, c.Of(a), n - 1);
    PowerOf(c.Of(a), n - 1);
    assert (n - 1) as real == n as real - 1.0;
    MinusIsNotZero(c, b);
    PowDiffValue(c, a, b, da, NatPow(c.Of(a).r, n - 1));
    PowerSlopeValue(c.Of(a).r, c.Of(da).r, n);
  }

  lemma PowerOf(a: Value, n: nat)
    requires a.Real?
    ensures PowerV(a, n) == Real(NatPow(a.r, n))
  {
  }

  lemma MinusIsNotZero(c: Context, b: Expr)
    requires IsReal(c, b) && c.Of(b).r != 1.0
    ensures Minus(b, Num(1.0)) != Num(0.0)
  {
    hide Value1, Minus;
    NumMeaning(c, 0.0);
    NumMeaning(c, 1.0);
    MinusKeepsMeaning(c, b, Num(1.0));
  }

  /** With an exponent that evaluates to one, a zero base loses the derivative: what Diff builds is right if and only
      if the exponent less one simplifies to the literal 0, or the derivative is zero anyway. */
  lemma FirstPowerOfZeroIff(c: Context, a: Expr, b: Expr, x: nat, da: Expr)
    requires Slopes(c, a, x, da) && a != Num(0.0) && c.Of(a) == Real(0.0)
    requires IsReal(c, b) && c.Of(b) == Real(1.0) && !Reads(b, x)
    ensures Slopes(c, Binary(Pow, a, b), x, PowDiff(a, b, da))
            <==> Minus(b, Num(1.0)) == Num(0.0) || c.Of(da).r == 0.0
  {
    hide Value1, HasDerivative, Along, PowV, Mul;
    var curve := Along(c, Binary(Pow, a, b), x);
    BinaryMeaning(c, Pow, a, b);
    FirstPower(c, c.Of(a));
    AlongIntPower(c, a, b, x, 1);
    forall h | Along(c, a, x)(h).Real?
      ensures Along(c, Binary(Pow, a, b), x)(h) == Along(c, a, x)(h)
    {
      FirstPower(c, Along(c, a, x)(h));
    }
    SameCurve(Along(c, a, x), 0.0, c.Of(da).r, Along(c, a, x), 0.0, c.Of(da).r, Along(c, a, x), 0.0, c.Of(da).r, curve);
    FirstPowerValue(c, a, b, da);
    if Slopes(c, Binary(Pow, a, b), x, PowDiff(a, b, da)) {
      DerivativeIsUnique(curve, 0.0, c.Of(da).r, c.Of(PowDiff(a, b, da)).r);
    }
  }

  lemma FirstPower(c: Context, a: Value)
    requires a.Real?
    ensures PowV(c.pow, a, Real(1 as real)) == a
  {
    assert (1 as real).Floor == 1;
    if a.r != 0.0 {
      assert NatPow(a.r, 1) == a.r * NatPow(a.r, 0);
    }
  }

  lemma FirstPowerValue(c: Context, a: Expr, b: Expr, da: Expr)
    requires IsReal(c, a) && c.Of(a) == Real(0.0) && a != Num(0.0) && IsReal(c, b) && c.Of(b) == Real(1.0)
    requires IsReal(c, da)
    ensures IsReal(c, PowDiff(a, b, da))
    ensures c.Of(PowDiff(a, b, da)).r == if Minus(b, Num(1.0)) == Num(0.0) then c.Of(da).r else 0.0
  {
    hide Value1, Mul, Minus, Times;
    if Minus(b, Num(1.0)) == Num(0.0) {
      NumMeaning(c, 1.0);
      TimesOfReals(c, b, da);
      TimesOfReals(c, Times(b, da), Num(1.0));
      OneTimes(c.Of(da).r);
    } else {
      PowDiffValue(c, a, b, da, 0.0);
      TimesZero(Mul(c.Of(b).r, c.Of(da).r));
    }
  }

  lemma OneTimes(x: real)
    ensures Mul(Mul(1.0, x), 1.0) == x
  {
  }

  lemma TimesZero(x: real)
    ensures Mul(x, 0.0) == 0.0
  {
  }
}
