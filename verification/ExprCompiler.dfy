/** The postfix code of `BuildCode`, the machine that `Val` runs, and the proof that they compute the value
    of the tree. */
module ExprCompiler {
  import opened Devs
  import opened Expr

  datatype Instr = NextVal | RFunc | JuxtF | BinaryF(op: BinaryOp) | UnaryF(fn: UnaryOp) | Atan2F
  datatype Operand = Constant(v: Value) | Cell(cell: nat)

  /** pinstr, pvals, the number of cells of ppile, and pfuncpile. */
  datatype Code = Code(instrs: seq<Instr>, vals: seq<Operand>, cells: nat, funcs: seq<Func>)

  function Leaf(operand: Operand): Code {
    Code([NextVal], [operand], 1, [])
  }

  /** BCDouble: both codes, one more instruction, and room for the operands of both. */
  function Joined(a: Code, b: Code, last: Instr): Code {
    Code(a.instrs + b.instrs + [last], a.vals + b.vals, a.cells + b.cells, a.funcs + b.funcs)
  }

  /** BCSimple, and BCFun when a function is added. */
  function Extended(a: Code, last: Instr, funcs: seq<Func>): Code {
    Code(a.instrs + [last], a.vals, a.cells, a.funcs + funcs)
  }

  function UnaryInstr(fn: UnaryOp, arg: Expr): Instr {
    if fn == Atan && Width(arg) > 1 then Atan2F else UnaryF(fn)
  }

  function Compile(e: Expr): Code {
    match e
    case ErrOp => Leaf(Constant(ErrVal))
    case Num(value) => Leaf(Constant(Real(value)))
    case Var(cell) => Leaf(Cell(cell))
    case Binary(op, left, right) => Joined(Compile(left), Compile(right), if op == Juxt then JuxtF else BinaryF(op))
    case Unary(fn, arg) => Extended(Compile(arg), UnaryInstr(fn, arg), [])
    case Call(f, args) => Extended(Compile(args), RFunc, [f])
  }

  // ----- the machine -----

  /** The rest of the program, the operands and functions not yet consumed, and the stack, top last. */
  datatype Machine = Machine(instrs: seq<Instr>, vals: seq<Operand>, funcs: seq<Func>, stack: seq<Value>)

  ghost predicate Callable(funcs: seq<Func>, store: Store) {
    forall f :: f in funcs ==> WellFormedFunc(f) && FuncCells(f) <= store.Keys
  }

  function Load(operand: Operand, store: Store): Outcome<Value> {
    match operand
    case Constant(v) => Defined(v)
    case Cell(cell) => if cell in store then Defined(store[cell]) else Undefined
  }

  /** The operands the instruction takes from the top of the stack are replaced by one result. */
  function Reduce(stack: seq<Value>, count: nat, result: Value): seq<Value>
    requires count <= |stack|
  {
    stack[..|stack| - count] + [result]
  }

  /** The instructions that only work on the stack. */
  function Operate(m: Meaning, instr: Instr, stack: seq<Value>): Outcome<seq<Value>>
    requires !instr.NextVal? && !instr.RFunc?
  {
    var n := |stack|;
    match instr
    case JuxtF => Defined(stack)
    case BinaryF(op) =>
      if n < 2 then Undefined else Defined(Reduce(stack, 2, m.binary(op, stack[n - 2], stack[n - 1])))
    case UnaryF(fn) =>
      if n < 1 then Undefined else Defined(Reduce(stack, 1, m.unary(fn, stack[n - 1])))
    case Atan2F =>
      if n < 2 then Undefined else Defined(Reduce(stack, 2, m.atan2(stack[n - 2], stack[n - 1])))
  }

  /** One instruction. Reading past the operands, the functions or the stack, and writing past the last of
      the `cells`, is undefined. */
  function Exec1(m: Meaning, k: Machine, store: Store, cells: nat): Outcome<Machine>
    requires k.instrs != [] && Callable(k.funcs, store)
  {
    var rest, n := k.instrs[1..], |k.stack|;
    match k.instrs[0]
    case NextVal =>
      if k.vals == [] || n >= cells || Load(k.vals[0], store).Undefined? then Undefined
      else Defined(Machine(rest, k.vals[1..], k.funcs, k.stack + [Load(k.vals[0], store).value]))
    case RFunc =>
      if k.funcs == [] || n < Arity(k.funcs[0]) then Undefined
      else
        var f := k.funcs[0];
        var args := k.stack[n - Arity(f)..];
        Defined(Machine(rest, k.vals, k.funcs[1..], Reduce(k.stack, Arity(f), Apply(m, f, args, store))))
    case op =>
      match Operate(m, op, k.stack)
      case Undefined => Undefined
      case Defined(stack) => Defined(k.(instrs := rest, stack := stack))
  }

  function Exec(m: Meaning, k: Machine, store: Store, cells: nat): Outcome<Machine>
    requires Callable(k.funcs, store)
    decreases |k.instrs|
  {
    if k.instrs == [] then Defined(k)
    else
      match Exec1(m, k, store, cells)
      case Undefined => Undefined
      case Defined(next) => Exec(m, next, store, cells)
  }

  /** Whatever the code, a run that is defined never leaves the cells it was given. */
  lemma {:induction false} RunStaysInside(m: Meaning, k: Machine, store: Store, cells: nat)
    requires Callable(k.funcs, store) && |k.stack| <= cells && Exec(m, k, store, cells).Defined?
    ensures |Exec(m, k, store, cells).value.stack| <= cells
    decreases |k.instrs|
  {
    if k.instrs != [] {
      assert k.instrs[0].RFunc? ==> WellFormedFunc(k.funcs[0]);
      assert |Exec1(m, k, store, cells).value.stack| <= cells;
      RunStaysInside(m, Exec1(m, k, store, cells).value, store, cells);
    }
  }

  /** One cell is allocated for each operand of the code, one operand for each leaf of the tree. */
  lemma {:induction false} OneCellPerOperand(e: Expr)
    ensures Compile(e).cells == |Compile(e).vals| >= 1
    decreases e
  {
    match e
    case Binary(_, left, right) =>
      OneCellPerOperand(left);
      OneCellPerOperand(right);
    case Unary(_, arg) => OneCellPerOperand(arg);
    case Call(_, args) => OneCellPerOperand(args);
    case _ =>
  }

  // ----- compiler correctness -----

  lemma CompiledIsCallable(e: Expr, store: Store)
    requires WellFormed(e) && Cells(e) <= store.Keys
    ensures Callable(Compile(e).funcs, store) && Width(e) <= Compile(e).cells
  {
  }

  /** Running the code of `e` before any other code pushes the values of `e` and nothing else. */
  ghost predicate Pushes(m: Meaning, e: Expr, k: Machine, store: Store, cells: nat)
    requires WellFormed(e) && Cells(e) <= store.Keys && Callable(k.funcs, store)
  {
    var c := Compile(e);
    && Callable(c.funcs + k.funcs, store)
    && Exec(m, Machine(c.instrs + k.instrs, c.vals + k.vals, c.funcs + k.funcs, k.stack), store, cells)
       == Exec(m, k.(stack := k.stack + Eval(m, e, store)), store, cells)
  }

  lemma {:induction false} CodeComputesValue(m: Meaning, e: Expr, k: Machine, store: Store, cells: nat)
    requires WellFormed(e) && Cells(e) <= store.Keys && Callable(k.funcs, store)
    requires |k.stack| + Compile(e).cells <= cells
    ensures Pushes(m, e, k, store, cells)
    decreases e
  {
    hide Exec, Exec1, Eval;
    match e
    case Binary(op, left, right) =>
      CompiledIsCallable(left, store);
      CompiledIsCallable(right, store);
      var last := if op == Juxt then JuxtF else BinaryF(op);
      var k1 := k.(instrs := [last] + k.instrs);
      CodeComputesValue(m, right, k1.(stack := k.stack + Eval(m, left, store)), store, cells);
      var r := Compile(right);
      CodeComputesValue(m, left, Machine(r.instrs + k1.instrs, r.vals + k.vals, r.funcs + k.funcs, k.stack), store, cells);
      BinaryCase(m, op, left, right, k, store, cells);
    case Unary(fn, arg) =>
      CodeComputesValue(m, arg, k.(instrs := [UnaryInstr(fn, arg)] + k.instrs), store, cells);
      UnaryCase(m, fn, arg, k, store, cells);
    case Call(f, args) =>
      CodeComputesValue(m, args, k.(instrs := [RFunc] + k.instrs, funcs := [f] + k.funcs), store, cells);
      CallCase(m, f, args, k, store, cells);
    case _ =>
      CompiledIsCallable(e, store);
      LeafStep(m, e, k, store, cells);
  }

  lemma BinaryCase(m: Meaning, op: BinaryOp, left: Expr, right: Expr, k: Machine, store: Store, cells: nat)
    requires WellFormed(Binary(op, left, right)) && Cells(Binary(op, left, right)) <= store.Keys && Callable(k.funcs, store)
    requires var last, r := if op == Juxt then JuxtF else BinaryF(op), Compile(right);
             && Pushes(m, right, k.(instrs := [last] + k.instrs, stack := k.stack + Eval(m, left, store)), store, cells)
             && Callable(r.funcs + k.funcs, store)
             && Pushes(m, left, Machine(r.instrs + ([last] + k.instrs), r.vals + k.vals, r.funcs + k.funcs, k.stack), store, cells)
    ensures Pushes(m, Binary(op, left, right), k, store, cells)
  {
    hide Exec, Exec1, Eval, Callable, WellFormed, Cells;
    var c, l, r := Compile(Binary(op, left, right)), Compile(left), Compile(right);
    var last := if op == Juxt then JuxtF else BinaryF(op);
    JoinedThen(l, r, last, k);
    BinaryStep(m, op, left, right, k, store, cells);
  }

  lemma JoinedThen(l: Code, r: Code, last: Instr, k: Machine)
    ensures var c := Joined(l, r, last);
            && c.instrs + k.instrs == l.instrs + (r.instrs + ([last] + k.instrs))
            && c.vals + k.vals == l.vals + (r.vals + k.vals)
            && c.funcs + k.funcs == l.funcs + (r.funcs + k.funcs)
  {
  }

  lemma UnaryCase(m: Meaning, fn: UnaryOp, arg: Expr, k: Machine, store: Store, cells: nat)
    requires WellFormed(Unary(fn, arg)) && Cells(arg) <= store.Keys && Callable(k.funcs, store)
    requires Pushes(m, arg, k.(instrs := [UnaryInstr(fn, arg)] + k.instrs), store, cells)
    ensures Pushes(m, Unary(fn, arg), k, store, cells)
  {
    hide Exec, Exec1, Eval;
    var c, a := Compile(Unary(fn, arg)), Compile(arg);
    assert c.instrs + k.instrs == a.instrs + ([UnaryInstr(fn, arg)] + k.instrs);
    assert c.funcs == a.funcs;
    UnaryStep(m, fn, arg, k, store, cells);
  }

  lemma CallCase(m: Meaning, f: Func, args: Expr, k: Machine, store: Store, cells: nat)
    requires WellFormed(Call(f, args)) && Cells(Call(f, args)) <= store.Keys && Callable(k.funcs, store)
    requires Callable([f] + k.funcs, store)
    requires Pushes(m, args, k.(instrs := [RFunc] + k.instrs, funcs := [f] + k.funcs), store, cells)
    ensures Pushes(m, Call(f, args), k, store, cells)
  {
    hide Exec, Exec1, Eval;
    var c, a := Compile(Call(f, args)), Compile(args);
    assert c.instrs + k.instrs == a.instrs + ([RFunc] + k.instrs);
    assert c.funcs + k.funcs == a.funcs + ([f] + k.funcs);
    CallStep(m, f, args, k, store, cells);
  }

  lemma LeafStep(m: Meaning, e: Expr, k: Machine, store: Store, cells: nat)
    requires e.ErrOp? || e.Num? || e.Var?
    requires Cells(e) <= store.Keys && Callable(k.funcs, store) && |k.stack| < cells
    ensures var c := Compile(e);
            Exec(m, Machine(c.instrs + k.instrs, c.vals + k.vals, c.funcs + k.funcs, k.stack), store, cells)
            == Exec(m, k.(stack := k.stack + Eval(m, e, store)), store, cells)
  {
    var c := Compile(e);
    assert c.funcs + k.funcs == k.funcs;
    assert (c.instrs + k.instrs)[1..] == k.instrs && (c.vals + k.vals)[1..] == k.vals;
  }

  lemma BinaryStep(m: Meaning, op: BinaryOp, left: Expr, right: Expr, k: Machine, store: Store, cells: nat)
    requires WellFormed(Binary(op, left, right)) && Cells(Binary(op, left, right)) <= store.Keys
    requires Callable(k.funcs, store)
    ensures var last := if op == Juxt then JuxtF else BinaryF(op);
            var stack := k.stack + Eval(m, left, store) + Eval(m, right, store);
            Exec(m, k.(instrs := [last] + k.instrs, stack := stack), store, cells)
            == Exec(m, k.(stack := k.stack + Eval(m, Binary(op, left, right), store)), store, cells)
  {
    hide Eval, Exec, Exec1;
    var last := if op == Juxt then JuxtF else BinaryF(op);
    var l, r := Eval(m, left, store), Eval(m, right, store);
    BinaryValue(m, op, left, right, store);
    OneInstr(m, last, k, k.stack + l + r, store, cells);
    if op == Juxt {
      assert k.stack + l + r == k.stack + (l + r);
    } else {
      assert l == [l[0]] && r == [r[0]];
      assert (k.stack + l + r)[..|k.stack|] == k.stack;
    }
  }

  lemma BinaryValue(m: Meaning, op: BinaryOp, left: Expr, right: Expr, store: Store)
    requires WellFormed(Binary(op, left, right)) && Cells(Binary(op, left, right)) <= store.Keys
    ensures var l, r := Eval(m, left, store), Eval(m, right, store);
            Eval(m, Binary(op, left, right), store) == if op == Juxt then l + r else [m.binary(op, l[0], r[0])]
  {
  }

  /** Executing one stack instruction in front of other code. */
  lemma OneInstr(m: Meaning, instr: Instr, k: Machine, stack: seq<Value>, store: Store, cells: nat)
    requires !instr.NextVal? && !instr.RFunc? && Callable(k.funcs, store) && Operate(m, instr, stack).Defined?
    ensures Exec(m, k.(instrs := [instr] + k.instrs, stack := stack), store, cells)
            == Exec(m, k.(stack := Operate(m, instr, stack).value), store, cells)
  {
    hide Operate;
    assert ([instr] + k.instrs)[1..] == k.instrs;
  }

  lemma UnaryStep(m: Meaning, fn: UnaryOp, arg: Expr, k: Machine, store: Store, cells: nat)
    requires WellFormed(Unary(fn, arg)) && Cells(arg) <= store.Keys && Callable(k.funcs, store)
    ensures Exec(m, k.(instrs := [UnaryInstr(fn, arg)] + k.instrs, stack := k.stack + Eval(m, arg, store)), store, cells)
            == Exec(m, k.(stack := k.stack + Eval(m, Unary(fn, arg), store)), store, cells)
  {
    var v := Eval(m, arg, store);
    OneInstr(m, UnaryInstr(fn, arg), k, k.stack + v, store, cells);
    assert (k.stack + v)[..|k.stack|] == k.stack;
  }

  lemma CallStep(m: Meaning, f: Func, args: Expr, k: Machine, store: Store, cells: nat)
    requires WellFormed(Call(f, args)) && Cells(Call(f, args)) <= store.Keys && Callable(k.funcs, store)
    ensures Callable([f] + k.funcs, store)
    ensures Exec(m, Machine([RFunc] + k.instrs, k.vals, [f] + k.funcs, k.stack + Eval(m, args, store)), store, cells)
            == Exec(m, k.(stack := k.stack + Eval(m, Call(f, args), store)), store, cells)
  {
    var v := Eval(m, args, store);
    var stack := k.stack + v;
    assert ([RFunc] + k.instrs)[1..] == k.instrs && ([f] + k.funcs)[1..] == k.funcs;
    assert stack[..|stack| - |v|] == k.stack && stack[|stack| - |v|..] == v;
  }

  /** Main result: running the code of a well-formed tree leaves exactly its values on the stack, consumes all
      operands and functions, and never needs more cells than were allocated. */
  lemma CompilerIsCorrect(m: Meaning, e: Expr, store: Store)
    requires WellFormed(e) && Cells(e) <= store.Keys
    ensures Callable(Compile(e).funcs, store)
    ensures var c := Compile(e);
            Exec(m, Machine(c.instrs, c.vals, c.funcs, []), store, c.cells)
            == Defined(Machine([], [], [], Eval(m, e, store)))
  {
    var c := Compile(e);
    var k := Machine([], [], [], []);
    CodeComputesValue(m, e, k, store, c.cells);
    assert c.instrs + [] == c.instrs && c.vals + [] == c.vals && c.funcs + [] == c.funcs;
    assert [] + Eval(m, e, store) == Eval(m, e, store);
  }
}
