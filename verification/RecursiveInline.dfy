/**
 Bounded recursive self-inlining.

 A small call-by-value language with one recursive function: its parameters, integer
 operations, a memory it reads and writes, conditionals, and calls to itself. Inlining a call
 replaces it by a block that evaluates the same arguments and then a copy of the function's
 current body, with the arguments as that copy's parameters. Calls take fuel, so a function
 terminates on some arguments when some amount of fuel is enough.
 */
module RecursiveInline {

  /** `Load` and `Store` take the address as their left operand. */
  datatype Op = Add | Sub | Mul | Less | Load | Store

  type Memory = map<int, int>

  datatype Expr =
    | Lit(n: int)
    | Param(k: nat)
    | Bin(op: Op, left: Expr, right: Expr)
    | If(cond: Expr, thn: Expr, els: Expr)
    | Call(args: Args)
    | Inlined(args: Args, body: Expr)     // the arguments, then a copy of the body with them as parameters

  datatype Args = Nil | Cons(head: Expr, tail: Args)

  /** The instruction count: every node is one. */
  function Size(e: Expr): nat
  {
    match e
    case Lit(_) => 1
    case Param(_) => 1
    case Bin(_, l, r) => 1 + Size(l) + Size(r)
    case If(c, t, f) => 1 + Size(c) + Size(t) + Size(f)
    case Call(args) => 1 + SizeArgs(args)
    case Inlined(args, b) => 1 + SizeArgs(args) + Size(b)
  }

  function SizeArgs(a: Args): nat
  {
    match a
    case Nil => 0
    case Cons(e, rest) => Size(e) + SizeArgs(rest)
  }

  // ---- evaluation ----

  datatype Result<T> = OutOfFuel | Got(value: T, mem: Memory)

  function Operate(op: Op, a: int, b: int, mem: Memory): int
  {
    match op
    case Add => a + b
    case Sub => a - b
    case Mul => a * b
    case Less => if a < b then 1 else 0
    case Load => if a in mem then mem[a] else 0
    case Store => b
  }

  function Effect(op: Op, a: int, b: int, mem: Memory): Memory
  {
    if op == Store then mem[a := b] else mem
  }

  function Nth(env: seq<int>, k: nat): int { if k < |env| then env[k] else 0 }

  /** `f` is the body a call runs. */
  function Eval(f: Expr, e: Expr, env: seq<int>, mem: Memory, fuel: nat): Result<int>
    decreases fuel, e
  {
    match e
    case Lit(n) => Got(n, mem)
    case Param(k) => Got(Nth(env, k), mem)
    case Bin(op, l, r) =>
      (match Eval(f, l, env, mem, fuel)
       case OutOfFuel => OutOfFuel
       case Got(a, m1) =>
         match Eval(f, r, env, m1, fuel)
         case OutOfFuel => OutOfFuel
         case Got(b, m2) => Got(Operate(op, a, b, m2), Effect(op, a, b, m2)))
    case If(c, t, s) =>
      (match Eval(f, c, env, mem, fuel)
       case OutOfFuel => OutOfFuel
       case Got(x, m1) => if x != 0 then Eval(f, t, env, m1, fuel) else Eval(f, s, env, m1, fuel))
    case Call(args) =>
      (match EvalArgs(f, args, env, mem, fuel)
       case OutOfFuel => OutOfFuel
       case Got(vs, m1) => if fuel == 0 then OutOfFuel else Eval(f, f, vs, m1, fuel - 1))
    case Inlined(args, b) =>
      match EvalArgs(f, args, env, mem, fuel)
      case OutOfFuel => OutOfFuel
      case Got(vs, m1) => Eval(f, b, vs, m1, fuel)
  }

  function EvalArgs(f: Expr, a: Args, env: seq<int>, mem: Memory, fuel: nat): Result<seq<int>>
    decreases fuel, a
  {
    match a
    case Nil => Got([], mem)
    case Cons(e, rest) =>
      match Eval(f, e, env, mem, fuel)
      case OutOfFuel => OutOfFuel
      case Got(v, m1) =>
        match EvalArgs(f, rest, env, m1, fuel)
        case OutOfFuel => OutOfFuel
        case Got(vs, m2) => Got([v] + vs, m2)
  }

  /** The function with body `f` terminates on these arguments with this value and memory. */
  ghost predicate Terminates(f: Expr, args: seq<int>, mem: Memory, v: int, mem': Memory)
  {
    exists fuel: nat :: Eval(f, f, args, mem, fuel) == Got(v, mem')
  }

  /** Two bodies are the same function. */
  ghost predicate SameFunction(f: Expr, g: Expr)
  {
    forall args, mem, v, mem' :: Terminates(f, args, mem, v, mem') <==> Terminates(g, args, mem, v, mem')
  }

  // ---- more fuel changes nothing ----

  lemma {:induction false} MoreFuel(f: Expr, e: Expr, env: seq<int>, mem: Memory, n: nat, m: nat)
    requires n <= m && Eval(f, e, env, mem, n).Got?
    ensures Eval(f, e, env, mem, m) == Eval(f, e, env, mem, n)
    decreases n, e
  {
    match e
    case Lit(_) =>
    case Param(_) =>
    case Bin(_, l, r) =>
      MoreFuel(f, l, env, mem, n, m);
      MoreFuel(f, r, env, Eval(f, l, env, mem, n).mem, n, m);
    case If(c, t, s) =>
      MoreFuel(f, c, env, mem, n, m);
      var r := Eval(f, c, env, mem, n);
      MoreFuel(f, if r.value != 0 then t else s, env, r.mem, n, m);
    case Call(args) =>
      MoreFuelArgs(f, args, env, mem, n, m);
      var r := EvalArgs(f, args, env, mem, n);
      MoreFuel(f, f, r.value, r.mem, n - 1, m - 1);
    case Inlined(args, b) =>
      MoreFuelArgs(f, args, env, mem, n, m);
      var r := EvalArgs(f, args, env, mem, n);
      MoreFuel(f, b, r.value, r.mem, n, m);
  }

  lemma {:induction false} MoreFuelArgs(f: Expr, a: Args, env: seq<int>, mem: Memory, n: nat, m: nat)
    requires n <= m && EvalArgs(f, a, env, mem, n).Got?
    ensures EvalArgs(f, a, env, mem, m) == EvalArgs(f, a, env, mem, n)
    decreases n, a
  {
    match a
    case Nil =>
    case Cons(e, rest) =>
      MoreFuel(f, e, env, mem, n, m);
      MoreFuelArgs(f, rest, env, Eval(f, e, env, mem, n).mem, n, m);
  }
}
