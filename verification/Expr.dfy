/** Expression trees of `mathexpr`, and the value a tree denotes.

    A value is a real number or the error value (DBL_MAX in the source). What the arithmetic and
    transcendental operators compute is a parameter, so the compiler is proved for every meaning of them.
    Functions are trees of finite height: recursive definitions are not modelled. */
module Expr {
  datatype Value = Real(r: real) | ErrVal

  datatype BinaryOp = Juxt | Add | Sub | Mult | Div | Pow | NthRoot | E10
  datatype UnaryOp = Opp | Sqrt | Abs | Sin | Cos | Tg | Ln | Exp | Acos | Asin | Atan

  /** A variable is known by the memory cell it points to. */
  datatype Expr =
    | ErrOp
    | Num(value: real)
    | Var(cell: nat)
    | Binary(op: BinaryOp, left: Expr, right: Expr)
    | Unary(fn: UnaryOp, arg: Expr)
    | Call(callee: Func, args: Expr)

  /** `type` -1, 0 and 1 of RFunction. */
  datatype Func = NoFunc | Native(id: nat) | User(params: seq<nat>, body: Expr)

  datatype Meaning = Meaning(
    binary: (BinaryOp, Value, Value) -> Value,
    unary: (UnaryOp, Value) -> Value,
    atan2: (Value, Value) -> Value,
    native: (nat, Value) -> Value)

  type Store = map<nat, Value>

  /** NMembers: the number of values in an argument list. */
  function Width(e: Expr): nat {
    match e
    case Binary(Juxt, _, right) => 1 + Width(right)
    case Call(User(_, body), _) => Width(body)
    case Call(NoFunc, _) => 0
    case _ => 1
  }

  function Arity(f: Func): nat {
    match f
    case NoFunc => 0
    case Native(_) => 1
    case User(params, _) => |params|
  }

  predicate Distinct(params: seq<nat>) {
    forall i, j :: 0 <= i < j < |params| ==> params[i] != params[j]
  }

  /** Operands have width one, argument lists nest to the right, and calls match the arity. */
  predicate WellFormed(e: Expr) {
    match e
    case Binary(op, left, right) =>
      WellFormed(left) && WellFormed(right) && Width(left) == 1 && (op != Juxt ==> Width(right) == 1)
    case Unary(fn, arg) => WellFormed(arg) && (Width(arg) == 1 || (fn == Atan && Width(arg) == 2))
    case Call(f, args) => WellFormedFunc(f) && WellFormed(args) && Width(args) == Arity(f)
    case _ => true
  }

  predicate WellFormedFunc(f: Func) {
    match f
    case NoFunc => false
    case Native(_) => true
    case User(params, body) => |params| >= 1 && Distinct(params) && WellFormed(body) && Width(body) == 1
  }

  /** Every cell the expression or a function it calls may touch. */
  function Cells(e: Expr): set<nat> {
    match e
    case Var(cell) => {cell}
    case Binary(_, left, right) => Cells(left) + Cells(right)
    case Unary(_, arg) => Cells(arg)
    case Call(f, args) => FuncCells(f) + Cells(args)
    case _ => {}
  }

  function FuncCells(f: Func): set<nat> {
    match f
    case User(params, body) => (set i | 0 <= i < |params| :: params[i]) + Cells(body)
    case _ => {}
  }

  /** A native function takes exactly one argument, a function of the user as many as it has parameters. */
  lemma CallsMatchArity(f: Func, args: Expr)
    ensures f.Native? ==> (WellFormed(Call(f, args)) <==> WellFormed(args) && Width(args) == 1)
    ensures f.User? && WellFormed(Call(f, args)) ==> Width(args) == |f.params| >= 1
  {
    assert f.User? && WellFormed(Call(f, args)) ==> WellFormedFunc(f);
  }

  /** The store while a function body runs: each parameter in turn receives its argument. */
  function Bind(store: Store, params: seq<nat>, args: seq<Value>): (r: Store)
    requires |params| == |args|
    ensures r.Keys >= store.Keys
    decreases |params|
  {
    if params == [] then store
    else
      var n := |params| - 1;
      Bind(store, params[..n], args[..n])[params[n] := args[n]]
  }

  /** The values of the expression, leftmost first. */
  function Eval(m: Meaning, e: Expr, store: Store): (r: seq<Value>)
    requires WellFormed(e) && Cells(e) <= store.Keys
    ensures |r| == Width(e) >= 1
    decreases e
  {
    match e
    case ErrOp => [ErrVal]
    case Num(value) => [Real(value)]
    case Var(cell) => [store[cell]]
    case Binary(op, left, right) =>
      var l, r := Eval(m, left, store), Eval(m, right, store);
      if op == Juxt then l + r else [m.binary(op, l[0], r[0])]
    case Unary(fn, arg) =>
      var v := Eval(m, arg, store);
      if |v| == 2 then [m.atan2(v[0], v[1])] else [m.unary(fn, v[0])]
    case Call(f, args) => [Apply(m, f, Eval(m, args, store), store)]
  }

  function Apply(m: Meaning, f: Func, args: seq<Value>, store: Store): Value
    requires WellFormedFunc(f) && FuncCells(f) <= store.Keys && |args| == Arity(f)
    decreases f
  {
    match f
    case Native(id) => m.native(id, args[0])
    case User(params, body) => Eval(m, body, Bind(store, params, args))[0]
  }
}
