/** The arrays and pointers of `mathexpr`: building code into terminated arrays, running it on a preallocated
    stack, and calling user functions by overwriting and restoring the cells of their parameters. */
module ExprMachine {
  import opened Devs
  import opened Expr
  import opened ExprCompiler

  // ----- terminated arrays -----

  /** The array holds the sequence followed by a null entry. */
  ghost predicate Holds<T>(a: array<Option<T>>, s: seq<T>)
    reads a
  {
    && a.Length == |s| + 1
    && (forall i :: 0 <= i < |s| ==> a[i] == Some(s[i]))
    && a[|s|] == None
  }

  /** The counting loop: entries before the null one. */
  method CountEntries<T>(a: array<Option<T>>, ghost s: seq<T>) returns (n: nat)
    requires Holds(a, s)
    ensures n == |s|
  {
    n := 0;
    while a[n].Some?
      invariant n <= |s|
      decreases |s| - n
    {
      n := n + 1;
    }
  }

  /** The copying loops of BCDouble, BCSimple and BCFun: both arrays, then the added entries, then null. */
  method Splice<T>(a: array<Option<T>>, b: array<Option<T>>, added: seq<T>, ghost s: seq<T>, ghost t: seq<T>)
    returns (r: array<Option<T>>)
    requires Holds(a, s) && Holds(b, t)
    ensures fresh(r) && Holds(r, s + t + added)
  {
    var n1 := CountEntries(a, s);
    var n2 := CountEntries(b, t);
    r := new Option<T>[n1 + n2 + |added| + 1](_ => None);
    var i := 0;
    while a[i].Some?
      invariant i <= |s|
      invariant forall j :: 0 <= j < i ==> r[j] == Some(s[j])
      invariant forall j :: i <= j < r.Length ==> r[j] == None
      decreases |s| - i
    {
      r[i] := a[i];
      i := i + 1;
    }
    i := 0;
    while b[i].Some?
      invariant i <= |t|
      invariant forall j :: 0 <= j < |s| + i ==> r[j] == Some((s + t)[j])
      invariant forall j :: |s| + i <= j < r.Length ==> r[j] == None
      decreases |t| - i
    {
      r[n1 + i] := b[i];
      i := i + 1;
    }
    i := 0;
    while i < |added|
      invariant i <= |added|
      invariant forall j :: 0 <= j < |s| + |t| + i ==> r[j] == Some((s + t + added)[j])
      invariant forall j :: |s| + |t| + i <= j < r.Length ==> r[j] == None
    {
      r[n1 + n2 + i] := Some(added[i]);
      i := i + 1;
    }
  }

  method Terminated<T>(s: seq<T>) returns (r: array<Option<T>>)
    ensures fresh(r) && Holds(r, s)
  {
    r := new Option<T>[|s| + 1](i => if 0 <= i < |s| then Some(s[i]) else None);
  }

  /** A stack of `n` cells, none of them the error value, ended by the error value: a freshly built one. */
  ghost predicate FreshPile(a: array<Value>, n: nat)
    reads a
  {
    a.Length == n + 1 && a[n] == ErrVal && forall i :: 0 <= i < n ==> a[i] == Real(0.0)
  }

  /** The scan for the end of a stack, which stops at the first error value. */
  method CountCells(a: array<Value>, ghost n: nat) returns (r: nat)
    requires FreshPile(a, n)
    ensures r == n
  {
    r := 0;
    while a[r] != ErrVal
      invariant r <= n
      decreases n - r
    {
      r := r + 1;
    }
  }

  method NewPile(n: nat) returns (r: array<Value>)
    ensures fresh(r) && FreshPile(r, n)
  {
    r := new Value[n + 1](i => if i == n then ErrVal else Real(0.0));
  }

  // ----- BuildCode -----

  /** pinstr, pvals, ppile and pfuncpile of one expression. */
  class Built {
    const instrs: array<Option<Instr>>
    const vals: array<Option<Operand>>
    const pile: array<Value>
    const funcs: array<Option<Func>>

    constructor (i: array<Option<Instr>>, v: array<Option<Operand>>, p: array<Value>, f: array<Option<Func>>)
      ensures instrs == i && vals == v && pile == p && funcs == f
    {
      instrs, vals, pile, funcs := i, v, p, f;
    }

    /** The arrays hold this code, and the stack is unused. */
    ghost predicate HoldsCode(c: Code)
      reads instrs, vals, pile, funcs
    {
      && Holds(instrs, c.instrs) && Holds(vals, c.vals) && Holds(funcs, c.funcs) && FreshPile(pile, c.cells)
    }
  }

  method BuildLeaf(operand: Operand) returns (b: Built)
    ensures fresh(b.pile) && b.HoldsCode(Leaf(operand))
  {
    var instrs := Terminated([NextVal]);
    var vals := Terminated([operand]);
    var pile := NewPile(1);
    var funcs := Terminated<Func>([]);
    b := new Built(instrs, vals, pile, funcs);
  }

  method BCDouble(x: Built, y: Built, last: Instr, ghost c: Code, ghost d: Code) returns (b: Built)
    requires x.HoldsCode(c) && y.HoldsCode(d)
    ensures fresh(b.pile) && b.HoldsCode(Joined(c, d, last))
  {
    var instrs := Splice(x.instrs, y.instrs, [last], c.instrs, d.instrs);
    var vals := Splice(x.vals, y.vals, [], c.vals, d.vals);
    var n1 := CountCells(x.pile, c.cells);
    var n2 := CountCells(y.pile, d.cells);
    var pile := NewPile(n1 + n2);
    var funcs := Splice(x.funcs, y.funcs, [], c.funcs, d.funcs);
    assert c.vals + d.vals + [] == c.vals + d.vals && c.funcs + d.funcs + [] == c.funcs + d.funcs;
    b := new Built(instrs, vals, pile, funcs);
  }

  /** BCSimple, and BCFun when `added` is the called function. */
  method BCSimple(x: Built, last: Instr, added: seq<Func>, ghost c: Code) returns (b: Built)
    requires x.HoldsCode(c)
    ensures fresh(b.pile) && b.HoldsCode(Extended(c, last, added))
  {
    var none := Terminated<Instr>([]);
    var instrs := Splice(x.instrs, none, [last], c.instrs, []);
    var noVals := Terminated<Operand>([]);
    var vals := Splice(x.vals, noVals, [], c.vals, []);
    var n := CountCells(x.pile, c.cells);
    var pile := NewPile(n);
    var noFuncs := Terminated<Func>([]);
    var funcs := Splice(x.funcs, noFuncs, added, c.funcs, []);
    assert c.instrs + [] == c.instrs && c.vals + [] + [] == c.vals && c.funcs + [] == c.funcs;
    b := new Built(instrs, vals, pile, funcs);
  }

  method BuildCode(e: Expr) returns (b: Built)
    ensures fresh(b.pile) && b.HoldsCode(Compile(e))
    decreases e
  {
    match e {
      case ErrOp => b := BuildLeaf(Constant(ErrVal));
      case Num(value) => b := BuildLeaf(Constant(Real(value)));
      case Var(cell) => b := BuildLeaf(Cell(cell));
      case Binary(op, left, right) =>
        var x := BuildCode(left);
        var y := BuildCode(right);
        b := BCDouble(x, y, if op == Juxt then JuxtF else BinaryF(op), Compile(left), Compile(right));
      case Unary(fn, arg) =>
        var x := BuildCode(arg);
        b := BCSimple(x, UnaryInstr(fn, arg), [], Compile(arg));
      case Call(f, args) =>
        var x := BuildCode(args);
        b := BCSimple(x, RFunc, [f], Compile(args));
    }
  }

  // ----- parameters are overwritten and restored -----

  /** What each parameter's cell holds just before that parameter is assigned. */
  function Saved(store: Store, params: seq<nat>, args: seq<Value>): (r: seq<Value>)
    requires |params| == |args| && forall i :: 0 <= i < |params| ==> params[i] in store
    ensures |r| == |params|
    decreases |params|
  {
    if params == [] then []
    else
      var n := |params| - 1;
      Saved(store, params[..n], args[..n]) + [Bind(store, params[..n], args[..n])[params[n]]]
  }

  lemma {:induction false} SavedIsOriginal(store: Store, params: seq<nat>, args: seq<Value>)
    requires |params| == |args| && forall i :: 0 <= i < |params| ==> params[i] in store
    requires Distinct(params)
    ensures forall i :: 0 <= i < |params| ==> Saved(store, params, args)[i] == store[params[i]]
    ensures forall k :: k in store && k !in params ==> Bind(store, params, args)[k] == store[k]
    decreases |params|
  {
    if params != [] {
      var n := |params| - 1;
      SavedIsOriginal(store, params[..n], args[..n]);
    }
  }

  lemma BindKeys(store: Store, params: seq<nat>, args: seq<Value>)
    requires |params| == |args| && forall i :: 0 <= i < |params| ==> params[i] in store
    ensures Bind(store, params, args).Keys == store.Keys
    decreases |params|
  {
    if params != [] {
      var n := |params| - 1;
      BindKeys(store, params[..n], args[..n]);
    }
  }

  /** Distinct parameters are restored. */
  lemma RestoreUndoesBind(store: Store, params: seq<nat>, args: seq<Value>)
    requires |params| == |args| && forall i :: 0 <= i < |params| ==> params[i] in store
    requires Distinct(params)
    ensures Bind(Bind(store, params, args), params, Saved(store, params, args)) == store
  {
    var bound, saved := Bind(store, params, args), Saved(store, params, args);
    BindKeys(store, params, args);
    BindKeys(bound, params, saved);
    SavedIsOriginal(store, params, args);
    SavedIsOriginal(bound, params, saved);
    var restored := Bind(bound, params, saved);
    forall k | k in store
      ensures restored[k] == store[k]
    {
      if k in params {
        var i :| 0 <= i < |params| && params[i] == k;
        BindSetsDistinct(bound, params, saved, i);
      }
    }
  }

  lemma {:induction false} BindSetsDistinct(store: Store, params: seq<nat>, args: seq<Value>, i: nat)
    requires |params| == |args| && i < |params|
    requires forall j :: i < j < |params| ==> params[j] != params[i]
    ensures params[i] in Bind(store, params, args) && Bind(store, params, args)[params[i]] == args[i]
    decreases |params|
  {
    var n := |params| - 1;
    if i < n {
      BindSetsDistinct(store, params[..n], args[..n], i);
    }
  }

  /** The saving and restoring loops put back every store, whatever the arguments, exactly when the parameters
      are distinct: with a repeated one the second save already sees the first argument. */
  lemma RestoredIffDistinct(params: seq<nat>)
    ensures Distinct(params) <==>
            forall store: Store, args: seq<Value> ::
              |args| == |params| && (forall i :: 0 <= i < |params| ==> params[i] in store) ==>
              Bind(Bind(store, params, args), params, Saved(store, params, args)) == store
  {
    if Distinct(params) {
      forall store: Store, args: seq<Value> |
        |args| == |params| && (forall i :: 0 <= i < |params| ==> params[i] in store)
        ensures Bind(Bind(store, params, args), params, Saved(store, params, args)) == store
      {
        RestoreUndoesBind(store, params, args);
      }
    } else {
      var store, args := RepeatedIsNotRestored(params);
    }
  }

  /** A store and arguments that a repeated parameter does not put back. */
  lemma RepeatedIsNotRestored(params: seq<nat>) returns (store: Store, args: seq<Value>)
    requires !Distinct(params)
    ensures |args| == |params| && (forall i :: 0 <= i < |params| ==> params[i] in store)
    ensures Bind(Bind(store, params, args), params, Saved(store, params, args)) != store
  {
    var i, j :| 0 <= i < j < |params| && params[i] == params[j];
    var last := LastIndex(params, j);
    store := map k | k in params :: Real(0.0);
    args := seq(|params|, _ => Real(1.0));
    hide Bind, Saved;
    AllOnes(store, params[..last], args[..last], i);
    SavedAt(store, params, args, last);
    assert Saved(store, params, args)[last] == Real(1.0);
    BindSetsDistinct(Bind(store, params, args), params, Saved(store, params, args), last);
  }

  lemma {:induction false} LastIndex(params: seq<nat>, j: nat) returns (last: nat)
    requires j < |params|
    ensures j <= last < |params| && params[last] == params[j]
    ensures forall k :: last < k < |params| ==> params[k] != params[j]
    decreases |params| - j
  {
    if k :| j < k < |params| && params[k] == params[j] {
      last := LastIndex(params, k);
    } else {
      last := j;
    }
  }

  lemma {:induction false} AllOnes(store: Store, params: seq<nat>, args: seq<Value>, i: nat)
    requires |params| == |args| && i < |params| && forall j :: 0 <= j < |args| ==> args[j] == Real(1.0)
    ensures params[i] in Bind(store, params, args) && Bind(store, params, args)[params[i]] == Real(1.0)
    decreases |params|
  {
    var n := |params| - 1;
    if i < n {
      AllOnes(store, params[..n], args[..n], i);
    }
  }

  lemma {:induction false} SavedAt(store: Store, params: seq<nat>, args: seq<Value>, i: nat)
    requires |params| == |args| && i < |params| && forall j :: 0 <= j < |params| ==> params[j] in store
    ensures params[i] in Bind(store, params[..i], args[..i])
    ensures Saved(store, params, args)[i] == Bind(store, params[..i], args[..i])[params[i]]
    decreases |params|
  {
    var n := |params| - 1;
    if i < n {
      SavedAt(store, params[..n], args[..n], i);
      assert params[..n][..i] == params[..i] && args[..n][..i] == args[..i];
    } else {
      assert params[..n] == params[..i] && args[..n] == args[..i];
    }
  }

  // ----- running the code -----

  function Max(a: nat, b: nat): nat {
    if a < b then b else a
  }

  /** How deeply function bodies nest. */
  function Depth(e: Expr): nat {
    match e
    case Binary(_, left, right) => Max(Depth(left), Depth(right))
    case Unary(_, arg) => Depth(arg)
    case Call(f, args) => Max(FuncDepth(f), Depth(args))
    case _ => 0
  }

  function FuncDepth(f: Func): nat {
    match f
    case User(_, body) => 1 + Depth(body)
    case _ => 0
  }

  lemma CompiledFuncsAreShallow(e: Expr)
    ensures forall f :: f in Compile(e).funcs ==> FuncDepth(f) <= Depth(e)
  {
  }

  /** The memory that variables point into. */
  class Memory {
    var cells: Store

    constructor (initial: Store)
      ensures cells == initial
    {
      cells := initial;
    }
  }

  // ----- the code of user functions is built once -----

  /** The code that belongs to each user function. */
  type Library = map<Func, Built>

  /** The stacks of the functions up to some depth. */
  ghost function Piles(lib: Library, depth: nat): set<array<Value>> {
    set f | f in lib && FuncDepth(f) <= depth :: lib[f].pile
  }

  /** Every user function called has its code. */
  ghost predicate Serves(lib: Library, funcs: seq<Func>) {
    forall f :: f in funcs && f.User? ==> f in lib
  }

  /** Every function's arrays hold the code of its body, whatever its stack was used for; no stack is shared. */
  ghost predicate Ready(lib: Library)
    reads set f | f in lib :: lib[f].instrs
    reads set f | f in lib :: lib[f].vals
    reads set f | f in lib :: lib[f].funcs
  {
    && (forall f :: f in lib ==> f.User? && CodeStays(lib[f], Compile(f.body)) && Serves(lib, Compile(f.body).funcs))
    && (forall f, g :: f in lib && g in lib && f != g ==> lib[f].pile != lib[g].pile)
  }

  /** The constructor of a user function builds the code of its body. */
  method AddFunction(f: Func, lib: Library) returns (r: Library)
    requires Ready(lib) && f.User? && f !in lib && Serves(lib, Compile(f.body).funcs)
    ensures Ready(r) && r.Keys == lib.Keys + {f} && Extends(r, lib) && fresh(r[f].pile)
  {
    hide Compile, Holds;
    var b := BuildCode(f.body);
    r := lib[f := b];
    forall g | g in lib
      ensures Serves(r, Compile(g.body).funcs)
    {
      ServesMore(lib, r, Compile(g.body).funcs);
    }
    ServesMore(lib, r, Compile(f.body).funcs);
  }

  /** The larger library keeps all code of the smaller one. */
  ghost predicate Extends(r: Library, lib: Library) {
    lib.Keys <= r.Keys && forall f :: f in lib ==> r[f] == lib[f]
  }

  lemma ServesMore(lib: Library, r: Library, funcs: seq<Func>)
    requires Serves(lib, funcs) && lib.Keys <= r.Keys
    ensures Serves(r, funcs)
  {
  }

  /** Builds the code of every function an expression calls, and of those they call. */
  method Prepare(e: Expr, lib: Library) returns (r: Library)
    requires Ready(lib)
    ensures Ready(r) && Extends(r, lib) && Serves(r, Compile(e).funcs)
    ensures forall f :: f in r && f !in lib ==> fresh(r[f].pile)
    decreases e
  {
    hide Ready, Holds;
    match e {
      case Binary(_, left, right) =>
        var l := Prepare(left, lib);
        r := Prepare(right, l);
        ServesMore(l, r, Compile(left).funcs);
      case Unary(_, arg) => r := Prepare(arg, lib);
      case Call(f, args) =>
        var l := Prepare(args, lib);
        r := PrepareFunction(f, l);
        ServesMore(l, r, Compile(args).funcs);
      case _ => r := lib;
    }
  }

  method PrepareFunction(f: Func, lib: Library) returns (r: Library)
    requires Ready(lib)
    ensures Ready(r) && Extends(r, lib) && (f.User? ==> f in r)
    ensures forall g :: g in r && g !in lib ==> fresh(r[g].pile)
    decreases f
  {
    hide Ready, Holds;
    r := lib;
    if f.User? && f !in r {
      r := Prepare(f.body, r);
      if f !in r {
        r := AddFunction(f, r);
      }
    }
  }

  /** What is left to run, as a machine. */
  ghost function Remaining(c: Code, i: nat, v: nat, f: nat, stack: seq<Value>): Machine
    requires i <= |c.instrs| && v <= |c.vals| && f <= |c.funcs|
  {
    Machine(c.instrs[i..], c.vals[v..], c.funcs[f..], stack)
  }

  /** The arrays hold this code; the stack is as long as it needs and may have been used. */
  ghost predicate CodeStays(b: Built, c: Code)
    reads b.instrs, b.vals, b.funcs
  {
    Holds(b.instrs, c.instrs) && Holds(b.vals, c.vals) && Holds(b.funcs, c.funcs) && b.pile.Length == c.cells + 1
  }

  /** The value on top of the stack when the code of e has run. */
  ghost function Answer(m: Meaning, e: Expr, store: Store): Value
    requires WellFormed(e) && Cells(e) <= store.Keys
  {
    var values := Eval(m, e, store);
    values[|values| - 1]
  }

  /** `ROperation::Val`: three reading pointers and one into the stack, which is written in place. */
  method Val(m: Meaning, e: Expr, b: Built, mem: Memory, lib: Library) returns (r: Value)
    requires WellFormed(e) && Cells(e) <= mem.cells.Keys && CodeStays(b, Compile(e))
    requires Ready(lib) && Serves(lib, Compile(e).funcs) && b.pile !in Piles(lib, Depth(e))
    modifies b.pile, mem, Piles(lib, Depth(e))
    ensures mem.cells == old(mem.cells) && r == Answer(m, e, old(mem.cells))
    ensures CodeStays(b, Compile(e)) && Ready(lib)
    decreases Depth(e), 3
  {
    hide Eval, Exec, Exec1, Holds, WellFormed, Cells, Compile, Depth, Ready, Piles, Serves;
    ghost var store, c := mem.cells, Compile(e);
    CompilerIsCorrect(m, e, store);
    CompiledFuncsAreShallow(e);
    var p1, p2, p3, p4 := 0, 0, -1, 0;
    assert b.pile[..p3 + 1] == [];
    assert Remaining(c, 0, 0, 0, []) == Machine(c.instrs, c.vals, c.funcs, []);
    PointerReads(b.instrs, c.instrs, p1);
    while b.instrs[p1].Some?
      invariant CodeStays(b, c) && mem.cells == store && Ready(lib)
      invariant 0 <= p1 <= |c.instrs| && 0 <= p2 <= |c.vals| && 0 <= p4 <= |c.funcs| && -1 <= p3 < c.cells
      invariant p1 < b.instrs.Length && (b.instrs[p1].Some? <==> p1 < |c.instrs|)
      invariant Callable(c.funcs[p4..], store)
      invariant Exec(m, Remaining(c, p1, p2, p4, b.pile[..p3 + 1]), store, c.cells)
                == Defined(Machine([], [], [], Eval(m, e, store)))
      decreases |c.instrs| - p1
    {
      UnfoldExec(m, Remaining(c, p1, p2, p4, b.pile[..p3 + 1]), store, c.cells);
      p2, p3, p4 := Advance(m, b, mem, lib, p1, p2, p3, p4, c, Depth(e));
      p1 := p1 + 1;
      PointerReads(b.instrs, c.instrs, p1);
    }
    FinishedExec(m, Remaining(c, p1, p2, p4, b.pile[..p3 + 1]), store, c.cells);
    assert b.pile[..p3 + 1] == Eval(m, e, store);
    r := b.pile[p3];
  }

  lemma PointerReads<T>(a: array<Option<T>>, s: seq<T>, i: nat)
    requires Holds(a, s) && i <= |s|
    ensures i < a.Length && (a[i].Some? <==> i < |s|) && (i < |s| ==> a[i] == Some(s[i]))
  {
  }

  /** One turn of the loop: the instruction at `p1`, and where the other pointers stand after it. */
  method Advance(m: Meaning, b: Built, mem: Memory, lib: Library, p1: nat, p2: nat, p3: int, p4: nat,
                 ghost c: Code, ghost depth: nat)
    returns (q2: nat, q3: int, q4: nat)
    requires CodeStays(b, c) && p1 < |c.instrs| && p2 <= |c.vals| && p4 <= |c.funcs| && -1 <= p3 < c.cells
    requires Callable(c.funcs[p4..], mem.cells) && forall f :: f in c.funcs ==> FuncDepth(f) <= depth
    requires Exec1(m, Remaining(c, p1, p2, p4, b.pile[..p3 + 1]), mem.cells, c.cells).Defined?
    requires Ready(lib) && Serves(lib, c.funcs) && b.pile !in Piles(lib, depth)
    modifies b.pile, mem, Piles(lib, depth)
    ensures mem.cells == old(mem.cells) && CodeStays(b, c) && Ready(lib)
    ensures q2 <= |c.vals| && q4 <= |c.funcs| && -1 <= q3 < c.cells && Callable(c.funcs[q4..], mem.cells)
    ensures Exec1(m, Remaining(c, p1, p2, p4, old(b.pile[..p3 + 1])), mem.cells, c.cells)
            == Defined(Remaining(c, p1 + 1, q2, q4, b.pile[..q3 + 1]))
    decreases depth, 2
  {
    hide Apply, Operate, WellFormed, Cells, FuncDepth, Reduce, Holds, FuncCells, WellFormedFunc, Ready;
    PointerReads(b.instrs, c.instrs, p1);
    PointerReads(b.vals, c.vals, p2);
    PointerReads(b.funcs, c.funcs, p4);
    q2, q3, q4 := p2, p3, p4;
    assert c.instrs[p1..][1..] == c.instrs[p1 + 1..];
    match b.instrs[p1].value {
      case NextVal =>
        q3 := q3 + 1;
        b.pile[q3] := Fetch(b.vals[p2].value, mem.cells);
        q2 := q2 + 1;
        assert c.vals[p2..][1..] == c.vals[q2..];
        assert b.pile[..q3 + 1] == old(b.pile[..p3 + 1]) + [b.pile[q3]];
      case RFunc =>
        var f := b.funcs[p4].value;
        assert f == c.funcs[p4..][0] && c.funcs[p4..][1..] == c.funcs[p4 + 1..];
        PilesGrow(lib, FuncDepth(f), depth);
        q3 := CallInPlace(m, f, b.pile, p3, mem, lib);
        q4 := q4 + 1;
      case op =>
        q3 := OperateInPlace(m, op, b.pile, p3);
    }
  }

  /** Addition, Oppose and the other operators: they read through the stack pointer and write there. */
  method OperateInPlace(m: Meaning, instr: Instr, pile: array<Value>, p: int) returns (top: int)
    requires !instr.NextVal? && !instr.RFunc? && -1 <= p < pile.Length
    requires Operate(m, instr, pile[..p + 1]).Defined?
    modifies pile
    ensures -1 <= top <= p && Operate(m, instr, old(pile[..p + 1])) == Defined(pile[..top + 1])
  {
    top := p;
    match instr {
      case BinaryF(op) =>
        top := top - 1;
        pile[top] := m.binary(op, pile[top], pile[top + 1]);
      case UnaryF(fn) =>
        pile[top] := m.unary(fn, pile[top]);
      case Atan2F =>
        top := top - 1;
        pile[top] := m.atan2(pile[top], pile[top + 1]);
      case JuxtF =>
    }
    assert instr != JuxtF ==> pile[..top + 1] == old(pile[..p + 1])[..top] + [pile[top]];
  }

  /** ApplyRFunc: the arguments on top of the stack are replaced by the result. */
  method CallInPlace(m: Meaning, f: Func, pile: array<Value>, p: int, mem: Memory, lib: Library) returns (top: int)
    requires WellFormedFunc(f) && FuncCells(f) <= mem.cells.Keys && Arity(f) - 1 <= p < pile.Length
    requires Ready(lib) && (f.User? ==> f in lib) && pile !in Piles(lib, FuncDepth(f))
    modifies pile, mem, Piles(lib, FuncDepth(f))
    ensures mem.cells == old(mem.cells) && -1 <= top <= p && Ready(lib)
    ensures pile[..top + 1] == Reduce(old(pile[..p + 1]), Arity(f),
                                      Apply(m, f, old(pile[..p + 1])[p + 1 - Arity(f)..], old(mem.cells)))
    decreases FuncDepth(f), 1
  {
    hide Apply, Ready, Piles, FuncDepth;
    top := p - (Arity(f) - 1);
    assert Arity(f) >= 1;
    assert pile[top..top + Arity(f)] == pile[..p + 1][p + 1 - Arity(f)..];
    var v := FuncVal(m, f, pile[top..top + Arity(f)], mem, lib);
    pile[top] := v;
    assert pile[..top + 1] == old(pile[..p + 1])[..top] + [v];
  }

  function Fetch(operand: Operand, store: Store): Value
    requires Load(operand, store).Defined?
  {
    Load(operand, store).value
  }

  lemma UnfoldExec(m: Meaning, k: Machine, store: Store, cells: nat)
    requires k.instrs != [] && Callable(k.funcs, store) && Exec(m, k, store, cells).Defined?
    ensures Exec1(m, k, store, cells).Defined?
    ensures Exec(m, k, store, cells) == Exec(m, Exec1(m, k, store, cells).value, store, cells)
  {
  }

  lemma FinishedExec(m: Meaning, k: Machine, store: Store, cells: nat)
    requires k.instrs == [] && Callable(k.funcs, store)
    ensures Exec(m, k, store, cells) == Defined(k)
  {
  }

  lemma PilesGrow(lib: Library, shallow: nat, deep: nat)
    requires shallow <= deep
    ensures Piles(lib, shallow) <= Piles(lib, deep)
  {
  }

  /** A function's own stack is not among those of the functions it calls. */
  lemma OwnPile(lib: Library, f: Func)
    requires Ready(lib) && f in lib
    ensures f.User? && CodeStays(lib[f], Compile(f.body)) && Serves(lib, Compile(f.body).funcs)
    ensures lib[f].pile in Piles(lib, FuncDepth(f)) && lib[f].pile !in Piles(lib, Depth(f.body))
    ensures Piles(lib, Depth(f.body)) <= Piles(lib, FuncDepth(f))
  {
  }

  /** `RFunction::Val`: save and overwrite the parameters, run the code built for the body, restore. */
  method FuncVal(m: Meaning, f: Func, args: seq<Value>, mem: Memory, lib: Library) returns (r: Value)
    requires WellFormedFunc(f) && FuncCells(f) <= mem.cells.Keys && |args| == Arity(f)
    requires Ready(lib) && (f.User? ==> f in lib)
    modifies mem, Piles(lib, FuncDepth(f))
    ensures mem.cells == old(mem.cells) && r == Apply(m, f, args, old(mem.cells)) && Ready(lib)
    decreases FuncDepth(f), 0
  {
    hide Ready, Piles, Serves, CodeStays, Compile;
    match f {
      case Native(id) => r := m.native(id, args[0]);
      case User(params, body) =>
        ghost var store := mem.cells;
        assert forall i :: 0 <= i < |params| ==> params[i] in FuncCells(f);
        OwnPile(lib, f);
        var buf := SaveAndAssign(params, args, mem);
        BindKeys(store, params, args);
        r := Val(m, body, lib[f], mem, lib);
        Assign(params, buf, mem);
        RestoreUndoesBind(store, params, args);
    }
  }

  /** Code is built once and evaluated for as many values of the variables as one likes. */
  method Evaluate(m: Meaning, e: Expr, stores: seq<Store>) returns (values: seq<Value>)
    requires WellFormed(e) && forall i :: 0 <= i < |stores| ==> Cells(e) <= stores[i].Keys
    ensures |values| == |stores| && forall i :: 0 <= i < |stores| ==> values[i] == Answer(m, e, stores[i])
  {
    hide Answer, WellFormed, Compile, Depth, Ready, Serves, CodeStays;
    NothingIsReady();
    var lib := Prepare(e, map[]);
    var b := BuildCode(e);
    assert CodeStays(b, Compile(e)) by {
      HoldsAndStays(b, Compile(e));
    }
    var mem := new Memory(map[]);
    values := [];
    for i := 0 to |stores|
      invariant Ready(lib) && CodeStays(b, Compile(e))
      invariant |values| == i && forall j :: 0 <= j < i ==> values[j] == Answer(m, e, stores[j])
    {
      mem.cells := stores[i];
      var r := Val(m, e, b, mem, lib);
      values := values + [r];
    }
  }

  lemma NothingIsReady()
    ensures Ready(map[])
  {
  }

  lemma HoldsAndStays(b: Built, c: Code)
    requires b.HoldsCode(c)
    ensures CodeStays(b, c)
  {
  }

  method SaveAndAssign(params: seq<nat>, args: seq<Value>, mem: Memory) returns (saved: seq<Value>)
    requires |params| == |args| && forall i :: 0 <= i < |params| ==> params[i] in mem.cells
    modifies mem
    ensures saved == Saved(old(mem.cells), params, args) && mem.cells == Bind(old(mem.cells), params, args)
  {
    ghost var store := mem.cells;
    var buf := new Value[|params|](_ => Real(0.0));
    var i := 0;
    while i < |params|
      invariant i <= |params|
      invariant mem.cells == Bind(store, params[..i], args[..i])
      invariant buf[..i] == Saved(store, params[..i], args[..i])
    {
      assert params[..i + 1][..i] == params[..i] && args[..i + 1][..i] == args[..i];
      buf[i] := mem.cells[params[i]];
      mem.cells := mem.cells[params[i] := args[i]];
      assert buf[..i + 1] == buf[..i] + [buf[i]];
      i := i + 1;
    }
    assert params[..i] == params && args[..i] == args && buf[..i] == buf[..];
    saved := buf[..];
  }

  method Assign(params: seq<nat>, values: seq<Value>, mem: Memory)
    requires |params| == |values|
    modifies mem
    ensures mem.cells == Bind(old(mem.cells), params, values)
  {
    ghost var store := mem.cells;
    var i := 0;
    while i < |params|
      invariant i <= |params|
      invariant mem.cells == Bind(store, params[..i], values[..i])
    {
      assert params[..i + 1][..i] == params[..i] && values[..i + 1][..i] == values[..i];
      mem.cells := mem.cells[params[i] := values[i]];
      i := i + 1;
    }
    assert params[..i] == params && values[..i] == values;
  }
}
