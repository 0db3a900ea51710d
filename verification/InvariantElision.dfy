/**
 Leaving out the check of a class invariant at the exit of a method that cannot break it.

 The analysis collects the fields of `this` that the invariant mentions and looks for a
 statement of the body that assigns one of them. The language below has the expression and
 statement forms the analysis looks at. Objects are held by value: a value is a tree, and
 assigning, binding or returning one copies it. Methods of the object call each other, with or
 without `this.` in front; a getter runs where its property is read and a setter where it is
 written. Any other call reads its receiver and its arguments, and may write those of them it is
 declared to write.
 */
module InvariantElision {

  // ---- syntax ----

  datatype Expr =
    | IntLit(n: int)
    | This
    | Identifier(name: string)
    | Member(receiver: Expr, member: string)
    | Index(indexed: Expr, index: Expr)
    | Binary(op: string, lhs: Expr, rhs: Expr)
    | Unary(op: string, operand: Expr)
    | Cast(operand: Expr)
    | Ternary(cond: Expr, thenExpr: Expr, elseExpr: Expr)
    | CallExpr(callee: Expr, args: Exprs)
    | Other(inner: Expr)                 // any form the analysis does not look into
    | Bodied(subject: Expr, params: seq<string>, body: Block)   // one with statements in it

  datatype Exprs = NoExprs | MoreExprs(head: Expr, tail: Exprs)

  datatype Stmt =
    | Assign(target: Expr, value: Expr)
    | IncDec(target: Expr, step: int)
    | BlockStmt(block: Block)
    | IfStmt(cond: Expr, thenBlock: Block, elseBlock: Block)
    | ForStmt(init: Stmt, cond: Expr, update: Stmt, body: Block)
    | WhileStmt(cond: Expr, body: Block)
    | DoWhileStmt(body: Block, cond: Expr)
    | ExprStmt(expr: Expr)
    | VarDecl(name: string, value: Expr)
    | Return(value: Expr)
    | Break
    | Continue
    | Unrecognised(after: Value)          // any other form may leave anything behind

  datatype Block = Empty | Then(first: Stmt, rest: Block)

  // ---- the analysis ----

  function ThisFields(e: Expr): set<string>
  {
    match e
    case IntLit(_) => {}
    case This => {}
    case Identifier(_) => {}
    case Member(o, m) => (if o == This then {m} else {}) + ThisFields(o)
    case Index(a, i) => ThisFields(a) + ThisFields(i)
    case Binary(_, l, r) => ThisFields(l) + ThisFields(r)
    case Unary(_, x) => ThisFields(x)
    case Cast(x) => ThisFields(x)
    case Ternary(c, t, f) => ThisFields(c) + ThisFields(t) + ThisFields(f)
    case CallExpr(f, args) => ThisFields(f) + ThisFieldsOf(args)
    case Other(_) => {}
    case Bodied(_, _, _) => {}
  }

  function ThisFieldsOf(args: Exprs): set<string>
  {
    match args
    case NoExprs => {}
    case MoreExprs(e, rest) => ThisFields(e) + ThisFieldsOf(rest)
  }

  predicate StmtAssigns(s: Stmt, fields: set<string>)
  {
    match s
    case Assign(t, _) => !(ThisFields(t) !! fields)
    case IncDec(t, _) => !(ThisFields(t) !! fields)
    case BlockStmt(b) => BlockAssigns(b, fields)
    case IfStmt(_, t, f) => BlockAssigns(t, fields) || BlockAssigns(f, fields)
    case ForStmt(i, _, u, b) => StmtAssigns(i, fields) || StmtAssigns(u, fields) || BlockAssigns(b, fields)
    case WhileStmt(_, b) => BlockAssigns(b, fields)
    case DoWhileStmt(b, _) => BlockAssigns(b, fields)
    case Unrecognised(_) => true
    case _ => false
  }

  predicate BlockAssigns(b: Block, fields: set<string>)
  {
    match b
    case Empty => false
    case Then(s, rest) => StmtAssigns(s, fields) || BlockAssigns(rest, fields)
  }

  predicate CanBreakIn(invar: Expr, body: Block)
  {
    var fields := ThisFields(invar);
    fields == {} || BlockAssigns(body, fields)
  }

  // ---- values ----

  datatype Key = At(i: int) | Part(name: string)

  /** A number, an array or an object: what it is itself, and what it holds. */
  datatype Value = Value(n: int, parts: map<Key, Value>)

  const Zero := Value(0, map[])

  function Num(n: int): Value { Value(n, map[]) }

  function Child(v: Value, k: Key): Value { if k in v.parts then v.parts[k] else Zero }

  function Get(v: Value, path: seq<Key>): Value
    decreases |path|
  {
    if path == [] then v else Get(Child(v, path[0]), path[1..])
  }

  /** `v` with `w` put at the path. */
  function Put(v: Value, path: seq<Key>, w: Value): Value
    decreases |path|
  {
    if path == [] then w
    else v.(parts := v.parts[path[0] := Put(Child(v, path[0]), path[1..], w)])
  }

  /** Field `f` of an object replaced. */
  function WithField(v: Value, f: string, w: Value): Value { v.(parts := v.parts[Part(f) := w]) }

  /** Where a value lives: inside this object, inside a local, or anywhere else. */
  datatype Place = Own(path: seq<Key>) | OfLocal(name: string, path: seq<Key>) | Elsewhere

  function Inside(p: Place, more: seq<Key>): Place
  {
    match p
    case Own(path) => Own(path + more)
    case OfLocal(x, path) => OfLocal(x, path + more)
    case Elsewhere => Elsewhere
  }

  /** What an expression evaluates to. */
  datatype Result = Result(v: Value, place: Place)

  // ---- programs ----

  datatype Method = Method(params: seq<string>, body: Block)

  /** The name of a foreign method and its number of arguments. */
  datatype Callee = Callee(name: string, arity: nat)

  /** What a foreign call answers with: a new value, or a part of one of its operands. */
  datatype Answer = Fresh(v: Value) | PartOf(operand: nat, path: seq<Key>)

  /**
   Everything outside the object. Operand 0 of a call is its receiver, operand k + 1 its argument k.
   `mayWrite` is what the callee's declaration says; `effect` is the value it leaves in an operand.
   `runs` says how often the statements inside an expression are run, and on which arguments.
   */
  datatype Library = Library(
    mayWrite: (Callee, nat) -> bool,
    answer: (Callee, seq<Value>) -> Answer,
    effect: (Callee, seq<Value>, nat) -> Value,
    runs: (Block, Value) -> seq<seq<Value>>)

  /**
   The object: its methods, those of all its class's ancestors included, an overridden one under a
   name of its own; one invariant; and what surrounds it. `declared` are the methods of the class
   that declares the invariant: only their exits check it. `getters` are the methods read as
   properties; `p$set` is the setter of property `p`; `closures` are the fields that hold one.
   */
  datatype Class = Class(
    methods: map<string, Method>, declared: set<string>, getters: set<string>, closures: set<string>,
    invar: Expr, lib: Library)

  /** The object, the locals, and the method being run. */
  datatype State = State(self: Value, locals: map<string, Value>, within: string)

  datatype Res<T> = OutOfFuel | Panic | Ok(value: T, state: State)

  datatype Exit = Next | Broke | Continued | Returned(v: Value)

  /** A turn of a loop ends the loop or is followed by another. */
  datatype Turned = Ended(result: Res<Exit>) | Again(state: State)

  // ---- meaning ----

  function Lookup(locals: map<string, Value>, x: string): Value { if x in locals then locals[x] else Zero }

  function Truth(b: bool): int { if b then 1 else 0 }

  function Compute(op: string, a: int, b: int): int
  {
    if op == "+" then a + b
    else if op == "-" then a - b
    else if op == "*" then a * b
    else if op == "<" then Truth(a < b)
    else if op == "<=" then Truth(a <= b)
    else if op == ">" then Truth(a > b)
    else if op == ">=" then Truth(a >= b)
    else if op == "==" then Truth(a == b)
    else if op == "!=" then Truth(a != b)
    else if op == "&&" then Truth(a != 0 && b != 0)
    else if op == "||" then Truth(a != 0 || b != 0)
    else 0
  }

  /** The left operand alone decides. */
  predicate Decides(op: string, a: int) { (op == "&&" && a == 0) || (op == "||" && a != 0) }

  function Negate(op: string, a: int): int { if op == "!" then Truth(a == 0) else -a }

  /** The value a result stands for at this moment. */
  function Now(s: State, r: Result): Value
  {
    match r.place
    case Own(path) => Get(s.self, path)
    case OfLocal(x, path) => Get(Lookup(s.locals, x), path)
    case Elsewhere => r.v
  }

  /** A value written to a place; what lives elsewhere is not this object's business. */
  function Write(s: State, p: Place, v: Value): State
  {
    match p
    case Own(path) => s.(self := Put(s.self, path, v))
    case OfLocal(x, path) => s.(locals := s.locals[x := Put(Lookup(s.locals, x), path, v)])
    case Elsewhere => s
  }

  function Bind(params: seq<string>, vs: seq<Value>): map<string, Value>
  {
    if params == [] || vs == [] then map[] else Bind(params[1..], vs[1..])[params[0] := vs[0]]
  }

  /** The method a callee names: `this.m` or plain `m`. */
  function MethodOf(f: Expr): string
  {
    if f.Member? && f.receiver == This then f.member else if f.Identifier? then f.name else ""
  }

  /** A call of a method of this object; a closure held in a field of that name goes first. */
  predicate IsSelfCall(c: Class, f: Expr)
  {
    (f.Identifier? || (f.Member? && f.receiver == This)) && MethodOf(f) in c.methods && MethodOf(f) !in c.closures
  }

  /** A member of the object itself, however the object was reached, that is a method. */
  predicate Dispatches(c: Class, f: Expr, r: Result)
  {
    f.Member? && f.receiver != This && r.place == Own([]) && f.member in c.methods && f.member !in c.closures
  }

  predicate IsGetter(c: Class, m: string) { m in c.getters && m in c.methods }

  function SetterOf(p: string): string { p + "$set" }

  /** Writing property `p` runs its setter, except inside the setter. */
  predicate ThroughSetter(c: Class, p: string, within: string) { SetterOf(p) in c.methods && within != SetterOf(p) }

  /** The exit of a method checks the invariant. */
  predicate ChecksExit(c: Class, m: string)
    requires m in c.methods
  {
    m in c.declared && CanBreakIn(c.invar, c.methods[m].body)
  }

  /** What a foreign call is made on: the object before the dot, or the callee itself. */
  function ReceiverOf(f: Expr): (r: Expr)
    ensures r == f || r < f
  {
    if f.Member? && f.receiver != This then f.receiver else f
  }

  function CalleeOf(f: Expr, args: Exprs): Callee
  {
    Callee(if f.Member? then f.member else if f.Identifier? then f.name else "", Arity(args))
  }

  function Arity(args: Exprs): nat { match args case NoExprs => 0 case MoreExprs(_, rest) => 1 + Arity(rest) }

  /** What the check of an invariant starts from. */
  function Checking(self: Value): State { State(self, map[], "") }

  /** A call made as a statement. */
  function Done<T>(r: Res<T>): Res<Exit>
  {
    match r
    case OutOfFuel => OutOfFuel
    case Panic => Panic
    case Ok(_, s) => Ok(Next, s)
  }

  function ValuesNow(s: State, rs: seq<Result>): seq<Value> { seq(|rs|, i requires 0 <= i < |rs| => Now(s, rs[i])) }

  /** The state after the callee has written the first `n` of its operands. */
  function Written(lib: Library, name: Callee, rs: seq<Result>, vs: seq<Value>, s: State, n: nat): State
    requires n <= |rs|
  {
    if n == 0 then s
    else
      var before := Written(lib, name, rs, vs, s, n - 1);
      if lib.mayWrite(name, n - 1) then Write(before, rs[n - 1].place, lib.effect(name, vs, n - 1)) else before
  }

  /** The answer of a foreign call, and where it lives. */
  function Answered(a: Answer, rs: seq<Result>, s: State): Result
  {
    match a
    case Fresh(v) => Result(v, Elsewhere)
    case PartOf(k, path) =>
      if k >= |rs| then Result(Zero, Elsewhere) else Result(Get(Now(s, rs[k]), path), Inside(rs[k].place, path))
  }

  function Foreign(lib: Library, name: Callee, rs: seq<Result>, s: State): Res<Result>
  {
    var vs := ValuesNow(s, rs);
    var after := Written(lib, name, rs, vs, s, |rs|);
    Ok(Answered(lib.answer(name, vs), rs, after), after)
  }

  function Eval(c: Class, e: Expr, s: State, fuel: nat): Res<Result>
    decreases fuel, 0, e
  {
    match e
    case IntLit(n) => Ok(Result(Num(n), Elsewhere), s)
    case This => Ok(Result(s.self, Own([])), s)
    case Identifier(x) =>
      if x in c.closures && x !in s.locals then Ok(Result(Child(s.self, Part(x)), Own([Part(x)])), s)
      else Ok(Result(Lookup(s.locals, x), OfLocal(x, [])), s)
    case Member(o, m) =>
      (match Eval(c, o, s, fuel)
       case OutOfFuel => OutOfFuel
       case Panic => Panic
       case Ok(r, s1) =>
         if r.place == Own([]) && IsGetter(c, m) then if fuel == 0 then OutOfFuel else Invoke(c, m, [], s1, fuel - 1)
         else Ok(Result(Child(Now(s1, r), Part(m)), Inside(r.place, [Part(m)])), s1))
    case Index(a, i) =>
      (match Eval(c, a, s, fuel)
       case OutOfFuel => OutOfFuel
       case Panic => Panic
       case Ok(r, s1) =>
         match Eval(c, i, s1, fuel)
         case OutOfFuel => OutOfFuel
         case Panic => Panic
         case Ok(k, s2) => Ok(Result(Child(Now(s2, r), At(k.v.n)), Inside(r.place, [At(k.v.n)])), s2))
    case Binary(op, l, r) =>
      (match Eval(c, l, s, fuel)
       case OutOfFuel => OutOfFuel
       case Panic => Panic
       case Ok(a, s1) =>
         if Decides(op, a.v.n) then Ok(Result(Num(Compute(op, a.v.n, a.v.n)), Elsewhere), s1)
         else
           match Eval(c, r, s1, fuel)
           case OutOfFuel => OutOfFuel
           case Panic => Panic
           case Ok(b, s2) => Ok(Result(Num(Compute(op, a.v.n, b.v.n)), Elsewhere), s2))
    case Unary(op, x) =>
      (match Eval(c, x, s, fuel)
       case OutOfFuel => OutOfFuel
       case Panic => Panic
       case Ok(a, s1) => Ok(Result(Num(Negate(op, a.v.n)), Elsewhere), s1))
    case Cast(x) => Eval(c, x, s, fuel)
    case Ternary(q, t, f) =>
      (match Eval(c, q, s, fuel)
       case OutOfFuel => OutOfFuel
       case Panic => Panic
       case Ok(a, s1) => if a.v.n != 0 then Eval(c, t, s1, fuel) else Eval(c, f, s1, fuel))
    case Other(x) =>
      (match Eval(c, x, s, fuel)
       case OutOfFuel => OutOfFuel
       case Panic => Panic
       case Ok(r, s1) => Ok(Result(r.v, Elsewhere), s1))
    case Bodied(x, params, b) =>
      (match Eval(c, x, s, fuel)
       case OutOfFuel => OutOfFuel
       case Panic => Panic
       case Ok(r, s1) => if fuel == 0 then OutOfFuel else RunEach(c, params, b, c.lib.runs(b, r.v), s1, fuel - 1))
    case CallExpr(f, args) =>
      if IsSelfCall(c, f) then
        match EvalArgs(c, args, s, fuel)
        case OutOfFuel => OutOfFuel
        case Panic => Panic
        case Ok(rs, s1) => if fuel == 0 then OutOfFuel else Invoke(c, MethodOf(f), ValuesNow(s1, rs), s1, fuel - 1)
      else
        match Eval(c, ReceiverOf(f), s, fuel)
        case OutOfFuel => OutOfFuel
        case Panic => Panic
        case Ok(r, s1) =>
          match EvalArgs(c, args, s1, fuel)
          case OutOfFuel => OutOfFuel
          case Panic => Panic
          case Ok(rs, s2) =>
            if Dispatches(c, f, r) then if fuel == 0 then OutOfFuel else Invoke(c, f.member, ValuesNow(s2, rs), s2, fuel - 1)
            else Foreign(c.lib, CalleeOf(f, args), [r] + rs, s2)
  }

  function EvalArgs(c: Class, args: Exprs, s: State, fuel: nat): Res<seq<Result>>
    decreases fuel, 0, args
  {
    match args
    case NoExprs => Ok([], s)
    case MoreExprs(e, rest) =>
      match Eval(c, e, s, fuel)
      case OutOfFuel => OutOfFuel
      case Panic => Panic
      case Ok(r, s1) =>
        match EvalArgs(c, rest, s1, fuel)
        case OutOfFuel => OutOfFuel
        case Panic => Panic
        case Ok(rs, s2) => Ok([r] + rs, s2)
  }

  /** Run the statements inside an expression once for each of some arguments; the last run's answer is its value. */
  function RunEach(c: Class, params: seq<string>, b: Block, runs: seq<seq<Value>>, s: State, fuel: nat): Res<Result>
    decreases fuel, 3, |runs|
  {
    if runs == [] then Ok(Result(Zero, Elsewhere), s)
    else
      match ExecBlock(c, b, s.(locals := s.locals + Bind(params, runs[0])), fuel)
      case OutOfFuel => OutOfFuel
      case Panic => Panic
      case Ok(x, s1) =>
        if |runs| == 1 then Ok(Result(if x.Returned? then x.v else Zero, Elsewhere), s1)
        else RunEach(c, params, b, runs[1..], s1, fuel)
  }

  /** Run a method of this object; the invariant is checked at the exit of a declared one unless elided. */
  function Invoke(c: Class, m: string, args: seq<Value>, s: State, fuel: nat): Res<Result>
    requires m in c.methods
    decreases fuel, 3
  {
    var method_ := c.methods[m];
    match ExecBlock(c, method_.body, State(s.self, Bind(method_.params, args), m), fuel)
    case OutOfFuel => OutOfFuel
    case Panic => Panic
    case Ok(x, s1) =>
      var v := Result(if x.Returned? then x.v else Zero, Elsewhere);
      if !ChecksExit(c, m) then Ok(v, s.(self := s1.self))
      else if fuel == 0 then OutOfFuel
      else
        match Eval(c, c.invar, Checking(s1.self), fuel - 1)
        case OutOfFuel => OutOfFuel
        case Panic => Panic
        case Ok(t, s2) => if t.v.n == 0 then Panic else Ok(v, s.(self := s2.self))
  }

  function ExecBlock(c: Class, b: Block, s: State, fuel: nat): Res<Exit>
    decreases fuel, 2, b
  {
    match b
    case Empty => Ok(Next, s)
    case Then(first, rest) =>
      match Exec(c, first, s, fuel)
      case OutOfFuel => OutOfFuel
      case Panic => Panic
      case Ok(x, s1) => if x.Next? then ExecBlock(c, rest, s1, fuel) else Ok(x, s1)
  }

  function Exec(c: Class, st: Stmt, s: State, fuel: nat): Res<Exit>
    decreases fuel, 2, st
  {
    match st
    case Assign(t, e) => Store(c, t, e, s, fuel)
    case IncDec(t, step) => Store(c, t, Binary("+", t, IntLit(step)), s, fuel)
    case BlockStmt(b) => ExecBlock(c, b, s, fuel)
    case IfStmt(q, t, f) =>
      (match Eval(c, q, s, fuel)
       case OutOfFuel => OutOfFuel
       case Panic => Panic
       case Ok(r, s1) => if r.v.n != 0 then ExecBlock(c, t, s1, fuel) else ExecBlock(c, f, s1, fuel))
    case ForStmt(i, q, u, b) =>
      (match Exec(c, i, s, fuel)
       case OutOfFuel => OutOfFuel
       case Panic => Panic
       case Ok(x, s1) => if fuel == 0 then OutOfFuel else Loop(c, q, b, u, s1, fuel - 1))
    case WhileStmt(q, b) => if fuel == 0 then OutOfFuel else Loop(c, q, b, BlockStmt(Empty), s, fuel - 1)
    case DoWhileStmt(b, q) =>
      (match ExecBlock(c, b, s, fuel)
       case OutOfFuel => OutOfFuel
       case Panic => Panic
       case Ok(x, s1) =>
         if x.Broke? then Ok(Next, s1)
         else if x.Returned? then Ok(x, s1)
         else if fuel == 0 then OutOfFuel
         else Loop(c, q, b, BlockStmt(Empty), s1, fuel - 1))
    case ExprStmt(e) =>
      (match Eval(c, e, s, fuel)
       case OutOfFuel => OutOfFuel
       case Panic => Panic
       case Ok(_, s1) => Ok(Next, s1))
    case VarDecl(x, e) =>
      (match Eval(c, e, s, fuel)
       case OutOfFuel => OutOfFuel
       case Panic => Panic
       case Ok(r, s1) => Ok(Next, s1.(locals := s1.locals[x := r.v])))
    case Return(e) =>
      (match Eval(c, e, s, fuel)
       case OutOfFuel => OutOfFuel
       case Panic => Panic
       case Ok(r, s1) => Ok(Returned(r.v), s1))
    case Break => Ok(Broke, s)
    case Continue => Ok(Continued, s)
    case Unrecognised(after) => Ok(Next, s.(self := after))
  }

  /** The target's place, then the value, then the write; a property with a setter is set by calling it. */
  function Store(c: Class, t: Expr, e: Expr, s: State, fuel: nat): Res<Exit>
    decreases fuel, 1
  {
    match Eval(c, if t.Member? then t.receiver else t, s, fuel)
    case OutOfFuel => OutOfFuel
    case Panic => Panic
    case Ok(p, s1) =>
      match Eval(c, e, s1, fuel)
      case OutOfFuel => OutOfFuel
      case Panic => Panic
      case Ok(r, s2) => PutAt(c, t, p, r.v, s2, fuel)
  }

  /** The write: `p` is the object before the dot, or the target itself. */
  function PutAt(c: Class, t: Expr, p: Result, v: Value, s: State, fuel: nat): Res<Exit>
    decreases fuel, 0
  {
    if t.Member? && p.place == Own([]) && ThroughSetter(c, t.member, s.within) then
      if fuel == 0 then OutOfFuel else Done(Invoke(c, SetterOf(t.member), [v], s, fuel - 1))
    else Ok(Next, Write(s, TargetPlace(t, p), v))
  }

  function TargetPlace(t: Expr, p: Result): Place { if t.Member? then Inside(p.place, [Part(t.member)]) else p.place }

  /** One turn of a loop: the test, the body, the update. */
  function Turn(c: Class, q: Expr, b: Block, u: Stmt, s: State, fuel: nat): Turned
    decreases fuel, 3
  {
    match Eval(c, q, s, fuel)
    case OutOfFuel => Ended(OutOfFuel)
    case Panic => Ended(Panic)
    case Ok(r, s1) =>
      if r.v.n == 0 then Ended(Ok(Next, s1))
      else
        match ExecBlock(c, b, s1, fuel)
        case OutOfFuel => Ended(OutOfFuel)
        case Panic => Ended(Panic)
        case Ok(x, s2) =>
          if x.Broke? then Ended(Ok(Next, s2))
          else if x.Returned? then Ended(Ok(x, s2))
          else
            match Exec(c, u, s2, fuel)
            case OutOfFuel => Ended(OutOfFuel)
            case Panic => Ended(Panic)
            case Ok(_, s3) => Again(s3)
  }

  function Loop(c: Class, q: Expr, b: Block, u: Stmt, s: State, fuel: nat): Res<Exit>
    decreases fuel, 4
  {
    match Turn(c, q, b, u, s, fuel)
    case Ended(r) => r
    case Again(s1) => if fuel == 0 then OutOfFuel else Loop(c, q, b, u, s1, fuel - 1)
  }
}
