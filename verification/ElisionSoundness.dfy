/**
 When leaving out the check of an invariant is sound.

 The analysis can miss a change in two ways, and its answer is asked only about methods of the class
 that declares the invariant. The invariant may depend on a field it does not mention, through a
 method or a getter of the object: `Local` rules that out, exactly. A body may change a field in the
 middle of an expression, through a foreign call that writes what it is given, and a subclass may
 assign one outright: `TameClass` rules those out, and without it checks are missing where they fail.
 */
module ElisionSoundness {
  import opened InvariantElision

  // ---- where a value lives ----

  /** Where the value lives can be read off the text: it is not this whole object, nor a field named without it. */
  predicate Traced(c: Class, e: Expr)
  {
    match e
    case This => false
    case Identifier(x) => x !in c.closures
    case Member(o, _) => o == This || Traced(c, o)
    case Index(a, _) => Traced(c, a)
    case Cast(x) => Traced(c, x)
    case Ternary(_, t, f) => Traced(c, t) && Traced(c, f)
    case CallExpr(f, args) => IsSelfCall(c, f) || (Traced(c, ReceiverOf(f)) && TracedAll(c, args))
    case _ => true
  }

  predicate TracedAll(c: Class, args: Exprs)
  {
    match args
    case NoExprs => true
    case MoreExprs(e, rest) => Traced(c, e) && TracedAll(c, rest)
  }

  /** A place of this object lies inside one of these fields. */
  predicate PlaceIn(p: Place, fields: set<string>)
  {
    p.Own? ==> p.path != [] && p.path[0].Part? && p.path[0].name in fields
  }

  /** A place inside a field of `this` is inside one of the fields collected from its expression. */
  lemma {:induction false} PlaceIsCollected(c: Class, e: Expr, s: State, n: nat)
    requires Traced(c, e) && Eval(c, e, s, n).Ok?
    ensures PlaceIn(Eval(c, e, s, n).value.place, ThisFields(e))
    decreases e, 1
  {
    match e
    case Member(o, m) =>
      var r := Eval(c, o, s, n);
      if r.value.place == Own([]) && IsGetter(c, m) {
        InvokeAnswersElsewhere(c, m, [], r.state, n - 1);
      } else if o != This {
        PlaceIsCollected(c, o, s, n);
      }
    case Index(a, _) => PlaceIsCollected(c, a, s, n);
    case Cast(x) => PlaceIsCollected(c, x, s, n);
    case Ternary(q, t, f) =>
      var r := Eval(c, q, s, n);
      PlaceIsCollected(c, if r.value.v.n != 0 then t else f, r.state, n);
    case Bodied(x, params, b) =>
      var r := Eval(c, x, s, n);
      RunEachAnswersElsewhere(c, params, b, c.lib.runs(b, r.value.v), r.state, n - 1);
    case CallExpr(f, args) =>
      if IsSelfCall(c, f) {
        var r := EvalArgs(c, args, s, n);
        InvokeAnswersElsewhere(c, MethodOf(f), ValuesNow(r.state, r.value), r.state, n - 1);
      } else {
        AnswerIsCollected(c, f, args, s, n);
      }
    case _ =>
  }

  /** The answer of a foreign call is new, or part of an operand. */
  lemma {:induction false} AnswerIsCollected(c: Class, f: Expr, args: Exprs, s: State, n: nat)
    requires !IsSelfCall(c, f) && Traced(c, CallExpr(f, args)) && Eval(c, CallExpr(f, args), s, n).Ok?
    ensures PlaceIn(Eval(c, CallExpr(f, args), s, n).value.place, ThisFields(CallExpr(f, args)))
    decreases CallExpr(f, args), 0
  {
    hide ThisFieldsOf, TracedAll;
    var r := Eval(c, ReceiverOf(f), s, n);
    PlaceIsCollected(c, ReceiverOf(f), s, n);
    PlacesAreCollected(c, args, r.state, n);
  }

  lemma InvokeAnswersElsewhere(c: Class, m: string, args: seq<Value>, s: State, n: nat)
    requires m in c.methods
    ensures Invoke(c, m, args, s, n).Ok? ==> Invoke(c, m, args, s, n).value.place == Elsewhere
  {
    hide ExecBlock, Eval;
  }

  lemma {:induction false} RunEachAnswersElsewhere(c: Class, params: seq<string>, b: Block, runs: seq<seq<Value>>, s: State, n: nat)
    ensures RunEach(c, params, b, runs, s, n).Ok? ==> RunEach(c, params, b, runs, s, n).value.place == Elsewhere
    decreases |runs|
  {
    hide ExecBlock;
    if |runs| > 1 {
      var r := ExecBlock(c, b, s.(locals := s.locals + Bind(params, runs[0])), n);
      if r.Ok? { RunEachAnswersElsewhere(c, params, b, runs[1..], r.state, n); }
    }
  }

  /** The place an assignment writes is inside one of the fields collected from its target. */
  lemma TargetIsCollected(c: Class, t: Expr, s: State, n: nat)
    requires Traced(c, t)
    requires Eval(c, if t.Member? then t.receiver else t, s, n).Ok?
    ensures PlaceIn(TargetPlace(t, Eval(c, if t.Member? then t.receiver else t, s, n).value), ThisFields(t))
  {
    if !t.Member? {
      PlaceIsCollected(c, t, s, n);
    } else if t.receiver != This {
      PlaceIsCollected(c, t.receiver, s, n);
    }
  }

  /** There is a result for each argument; each traced argument lies in its collected fields. */
  lemma {:induction false} PlacesAreCollected(c: Class, args: Exprs, s: State, n: nat)
    requires EvalArgs(c, args, s, n).Ok?
    ensures
      var rs := EvalArgs(c, args, s, n).value;
      && |rs| == Arity(args)
      && (forall i :: 0 <= i < |rs| && Traced(c, ArgAt(args, i)) ==> PlaceIn(rs[i].place, ThisFields(ArgAt(args, i))))
      && (TracedAll(c, args) ==> forall i :: 0 <= i < |rs| ==> PlaceIn(rs[i].place, ThisFieldsOf(args)))
    decreases args, 0
  {
    match args
    case NoExprs =>
    case MoreExprs(e, rest) =>
      var r := Eval(c, e, s, n);
      if Traced(c, e) { PlaceIsCollected(c, e, s, n); }
      PlacesAreCollected(c, rest, r.state, n);
  }

  /** The `i`th of some arguments, an integer beyond them. */
  function ArgAt(args: Exprs, i: nat): Expr
  {
    match args
    case NoExprs => IntLit(0)
    case MoreExprs(e, rest) => if i == 0 then e else ArgAt(rest, i - 1)
  }

  // ---- what the invariant must be, and what an elided body must not do ----

  ghost predicate TrueAt(c: Class, self: Value, fuel: nat)
  {
    var r := Eval(c, c.invar, Checking(self), fuel);
    r.Ok? && r.value.v.n != 0
  }

  /** The invariant evaluates, and to true. */
  ghost predicate Holds(c: Class, self: Value) { exists fuel: nat :: TrueAt(c, self, fuel) }

  /** Checking the invariant leaves the object as it is. */
  ghost predicate Quiet(c: Class)
  {
    forall self: Value, fuel: nat :: LeavesAlone(c, self, fuel)
  }

  ghost predicate LeavesAlone(c: Class, self: Value, fuel: nat)
  {
    var r := Eval(c, c.invar, Checking(self), fuel);
    r.Ok? ==> r.state.self == self
  }

  /** No field the invariant does not mention can make it false. */
  ghost predicate Local(c: Class)
  {
    forall self: Value, f: string, w: Value :: f !in ThisFields(c.invar) && Holds(c, self) ==> Holds(c, WithField(self, f, w))
  }

  function OperandAt(f: Expr, args: Exprs, k: nat): Expr { if k == 0 then ReceiverOf(f) else ArgAt(args, k - 1) }

  /** A foreign call writes none of these fields: what it may write is traced and mentions none of them. */
  ghost predicate WritesClear(c: Class, f: Expr, args: Exprs, fields: set<string>)
  {
    forall k :: 0 <= k <= Arity(args) && c.lib.mayWrite(CalleeOf(f, args), k) ==>
      Traced(c, OperandAt(f, args, k)) && ThisFields(OperandAt(f, args, k)) !! fields
  }

  /** An expression of an unchecked body: it hands nothing of these fields to a callee that may write it, and assigns none of them inside. */
  ghost predicate Tame(c: Class, e: Expr, fields: set<string>)
  {
    match e
    case Member(o, _) => Tame(c, o, fields)
    case Index(a, i) => Tame(c, a, fields) && Tame(c, i, fields)
    case Binary(_, l, r) => Tame(c, l, fields) && Tame(c, r, fields)
    case Unary(_, x) => Tame(c, x, fields)
    case Cast(x) => Tame(c, x, fields)
    case Ternary(q, t, f) => Tame(c, q, fields) && Tame(c, t, fields) && Tame(c, f, fields)
    case CallExpr(f, args) => Tame(c, f, fields) && TameAll(c, args, fields) && (IsSelfCall(c, f) || WritesClear(c, f, args, fields))
    case Other(x) => Tame(c, x, fields)
    case Bodied(x, _, b) => Tame(c, x, fields) && !BlockAssigns(b, fields) && TameBlock(c, b, fields)
    case _ => true
  }

  ghost predicate TameAll(c: Class, args: Exprs, fields: set<string>)
  {
    match args
    case NoExprs => true
    case MoreExprs(e, rest) => Tame(c, e, fields) && TameAll(c, rest, fields)
  }

  ghost predicate TameStmt(c: Class, s: Stmt, fields: set<string>)
  {
    match s
    case Assign(t, e) => Traced(c, t) && Tame(c, t, fields) && Tame(c, e, fields)
    case IncDec(t, _) => Traced(c, t) && Tame(c, t, fields)
    case BlockStmt(b) => TameBlock(c, b, fields)
    case IfStmt(q, t, f) => Tame(c, q, fields) && TameBlock(c, t, fields) && TameBlock(c, f, fields)
    case ForStmt(i, q, u, b) => TameStmt(c, i, fields) && Tame(c, q, fields) && TameStmt(c, u, fields) && TameBlock(c, b, fields)
    case WhileStmt(q, b) => Tame(c, q, fields) && TameBlock(c, b, fields)
    case DoWhileStmt(b, q) => TameBlock(c, b, fields) && Tame(c, q, fields)
    case ExprStmt(e) => Tame(c, e, fields)
    case VarDecl(_, e) => Tame(c, e, fields)
    case Return(e) => Tame(c, e, fields)
    case _ => true
  }

  ghost predicate TameBlock(c: Class, b: Block, fields: set<string>)
  {
    match b
    case Empty => true
    case Then(s, rest) => TameStmt(c, s, fields) && TameBlock(c, rest, fields)
  }

  /** A body that may go unchecked: it assigns no mentioned field and hands none on. */
  ghost predicate Cleared(c: Class, b: Block)
  {
    !BlockAssigns(b, ThisFields(c.invar)) && TameBlock(c, b, ThisFields(c.invar))
  }

  /** Every method whose exit is not checked may go unchecked. */
  ghost predicate TameClass(c: Class)
  {
    forall m :: m in c.methods && !ChecksExit(c, m) ==> Cleared(c, c.methods[m].body)
  }

  // ---- one write ----

  /** Writing anywhere outside the fields the invariant mentions keeps it. */
  lemma WriteKeeps(c: Class, s: State, p: Place, v: Value, fields: set<string>)
    requires Local(c) && Holds(c, s.self) && PlaceIn(p, fields) && fields !! ThisFields(c.invar)
    ensures Holds(c, Write(s, p, v).self)
  {
    if p.Own? {
      var f := p.path[0].name;
      assert f in fields;
      assert Put(s.self, p.path, v) == WithField(s.self, f, Put(Child(s.self, Part(f)), p.path[1..], v));
    }
  }

  lemma {:induction false} WrittenKeeps(c: Class, f: Expr, args: Exprs, rs: seq<Result>, vs: seq<Value>, s: State, n: nat)
    requires Local(c) && Holds(c, s.self) && WritesClear(c, f, args, ThisFields(c.invar))
    requires n <= |rs| == Arity(args) + 1
    requires forall k :: 0 <= k < |rs| && Traced(c, OperandAt(f, args, k)) ==> PlaceIn(rs[k].place, ThisFields(OperandAt(f, args, k)))
    ensures Holds(c, Written(c.lib, CalleeOf(f, args), rs, vs, s, n).self)
  {
    if n > 0 {
      var name := CalleeOf(f, args);
      WrittenKeeps(c, f, args, rs, vs, s, n - 1);
      if c.lib.mayWrite(name, n - 1) {
        WriteKeeps(c, Written(c.lib, name, rs, vs, s, n - 1), rs[n - 1].place, c.lib.effect(name, vs, n - 1), ThisFields(OperandAt(f, args, n - 1)));
      }
    }
  }

  // ---- eliding is sound ----

  /** Every method is declared where the invariant is, and the invariant mentions no field: no check is left out. */
  predicate AllChecked(c: Class) { ThisFields(c.invar) == {} && c.methods.Keys <= c.declared }

  ghost predicate Sound(c: Class) { Local(c) && Quiet(c) && TameClass(c) }

  ghost predicate Kept<T>(c: Class, r: Res<T>) { r.Ok? ==> Holds(c, r.state.self) }

  lemma {:induction false} EvalKeeps(c: Class, e: Expr, s: State, n: nat)
    requires Sound(c) && Holds(c, s.self) && Tame(c, e, ThisFields(c.invar))
    ensures Kept(c, Eval(c, e, s, n))
    decreases n, 0, e, 1
  {
    hide ThisFields, Sound, Invoke;
    match e
    case Member(o, m) =>
      EvalKeeps(c, o, s, n);
      var r := Eval(c, o, s, n);
      if r.Ok? && r.value.place == Own([]) && IsGetter(c, m) && n > 0 { InvokeKeeps(c, m, [], r.state, n - 1); }
    case Index(a, i) =>
      EvalKeeps(c, a, s, n);
      if Eval(c, a, s, n).Ok? { EvalKeeps(c, i, Eval(c, a, s, n).state, n); }
    case Binary(_, l, r) =>
      EvalKeeps(c, l, s, n);
      if Eval(c, l, s, n).Ok? { EvalKeeps(c, r, Eval(c, l, s, n).state, n); }
    case Unary(_, x) => EvalKeeps(c, x, s, n);
    case Cast(x) => EvalKeeps(c, x, s, n);
    case Ternary(q, t, f) =>
      EvalKeeps(c, q, s, n);
      var r := Eval(c, q, s, n);
      if r.Ok? { EvalKeeps(c, if r.value.v.n != 0 then t else f, r.state, n); }
    case CallExpr(f, args) =>
      if IsSelfCall(c, f) { OwnCallKeeps(c, f, args, s, n); } else { ForeignCallKeeps(c, f, args, s, n); }
    case Other(x) => EvalKeeps(c, x, s, n);
    case Bodied(x, params, b) =>
      EvalKeeps(c, x, s, n);
      var r := Eval(c, x, s, n);
      if r.Ok? && n > 0 { RunEachKeeps(c, params, b, c.lib.runs(b, r.value.v), r.state, n - 1); }
    case _ =>
  }

  lemma {:induction false} EvalArgsKeeps(c: Class, args: Exprs, s: State, n: nat)
    requires Sound(c) && Holds(c, s.self) && TameAll(c, args, ThisFields(c.invar))
    ensures Kept(c, EvalArgs(c, args, s, n))
    decreases n, 0, args, 0
  {
    match args
    case NoExprs =>
    case MoreExprs(e, rest) =>
      EvalKeeps(c, e, s, n);
      if Eval(c, e, s, n).Ok? { EvalArgsKeeps(c, rest, Eval(c, e, s, n).state, n); }
  }

  /** Calling a method of this object: the induction goes down the call tree. */
  lemma {:induction false} OwnCallKeeps(c: Class, f: Expr, args: Exprs, s: State, n: nat)
    requires Sound(c) && Holds(c, s.self) && IsSelfCall(c, f) && TameAll(c, args, ThisFields(c.invar))
    ensures Kept(c, Eval(c, CallExpr(f, args), s, n))
    decreases n, 0, args, 1
  {
    EvalArgsKeeps(c, args, s, n);
    var r := EvalArgs(c, args, s, n);
    if r.Ok? && n > 0 {
      InvokeKeeps(c, MethodOf(f), ValuesNow(r.state, r.value), r.state, n - 1);
    }
  }

  lemma {:induction false} RunEachKeeps(c: Class, params: seq<string>, b: Block, runs: seq<seq<Value>>, s: State, n: nat)
    requires Sound(c) && Holds(c, s.self) && Cleared(c, b)
    ensures Kept(c, RunEach(c, params, b, runs, s, n))
    decreases n, 3, |runs|
  {
    hide Sound, Cleared, ExecBlock, Holds;
    if runs != [] {
      var inner := s.(locals := s.locals + Bind(params, runs[0]));
      ExecBlockKeeps(c, b, inner, n);
      var r := ExecBlock(c, b, inner, n);
      if r.Ok? { RunEachKeeps(c, params, b, runs[1..], r.state, n); }
    }
  }

  lemma {:induction false} ForeignCallKeeps(c: Class, f: Expr, args: Exprs, s: State, n: nat)
    requires Sound(c) && Holds(c, s.self) && !IsSelfCall(c, f) && Tame(c, CallExpr(f, args), ThisFields(c.invar))
    ensures Kept(c, Eval(c, CallExpr(f, args), s, n))
    decreases n, 0, CallExpr(f, args), 0
  {
    hide ThisFields, EvalArgs;
    EvalKeeps(c, ReceiverOf(f), s, n);
    var r := Eval(c, ReceiverOf(f), s, n);
    if r.Ok? {
      if Traced(c, ReceiverOf(f)) { PlaceIsCollected(c, ReceiverOf(f), s, n); }
      EvalArgsKeeps(c, args, r.state, n);
      var rs := EvalArgs(c, args, r.state, n);
      if rs.Ok? {
        PlacesAreCollected(c, args, r.state, n);
        if Dispatches(c, f, r.value) {
          if n > 0 { InvokeKeeps(c, f.member, ValuesNow(rs.state, rs.value), rs.state, n - 1); }
          return;
        }
        var all := [r.value] + rs.value;
        WrittenKeeps(c, f, args, all, ValuesNow(rs.state, all), rs.state, |all|);
      }
    }
  }

  /** A method entered with the invariant true leaves it true, whether or not its exit checks it. */
  lemma {:induction false} InvokeKeeps(c: Class, m: string, args: seq<Value>, s: State, n: nat)
    requires Sound(c) && m in c.methods && Holds(c, s.self)
    ensures Kept(c, Invoke(c, m, args, s, n))
    decreases n, 3
  {
    if ChecksExit(c, m) {
      CheckedExit(c, m, args, s, n);
    } else {
      ExecBlockKeeps(c, c.methods[m].body, State(s.self, Bind(c.methods[m].params, args), m), n);
    }
  }

  /** An exit that is checked is passed only with the invariant true. */
  lemma CheckedExit(c: Class, m: string, args: seq<Value>, s: State, n: nat)
    requires Quiet(c) && m in c.methods && ChecksExit(c, m)
    ensures Kept(c, Invoke(c, m, args, s, n))
  {
    if Invoke(c, m, args, s, n).Ok? {
      var done := ExecBlock(c, c.methods[m].body, State(s.self, Bind(c.methods[m].params, args), m), n);
      assert LeavesAlone(c, done.state.self, n - 1) && TrueAt(c, done.state.self, n - 1);
    }
  }

  lemma {:induction false} ExecBlockKeeps(c: Class, b: Block, s: State, n: nat)
    requires Sound(c) && Holds(c, s.self) && Cleared(c, b)
    ensures Kept(c, ExecBlock(c, b, s, n))
    decreases n, 2, b
  {
    match b
    case Empty =>
    case Then(first, rest) =>
      ExecKeeps(c, first, s, n);
      var r := Exec(c, first, s, n);
      if r.Ok? && r.value.Next? { ExecBlockKeeps(c, rest, r.state, n); }
  }

  lemma {:induction false} ExecKeeps(c: Class, st: Stmt, s: State, n: nat)
    requires Sound(c) && Holds(c, s.self)
    requires !StmtAssigns(st, ThisFields(c.invar)) && TameStmt(c, st, ThisFields(c.invar))
    ensures Kept(c, Exec(c, st, s, n))
    decreases n, 2, st
  {
    hide Sound, Eval, ThisFields, Store, Loop;
    match st
    case Assign(t, e) => StoreKeeps(c, t, e, s, n);
    case IncDec(t, step) => StoreKeeps(c, t, Binary("+", t, IntLit(step)), s, n);
    case BlockStmt(b) => ExecBlockKeeps(c, b, s, n);
    case IfStmt(q, t, f) =>
      EvalKeeps(c, q, s, n);
      var r := Eval(c, q, s, n);
      if r.Ok? { ExecBlockKeeps(c, if r.value.v.n != 0 then t else f, r.state, n); }
    case ForStmt(i, q, u, b) =>
      ExecKeeps(c, i, s, n);
      var r := Exec(c, i, s, n);
      if r.Ok? && n > 0 { LoopKeeps(c, q, b, u, r.state, n - 1); }
    case WhileStmt(q, b) => if n > 0 { LoopKeeps(c, q, b, BlockStmt(Empty), s, n - 1); }
    case DoWhileStmt(b, q) =>
      ExecBlockKeeps(c, b, s, n);
      var r := ExecBlock(c, b, s, n);
      if r.Ok? && n > 0 && !r.value.Broke? && !r.value.Returned? { LoopKeeps(c, q, b, BlockStmt(Empty), r.state, n - 1); }
    case ExprStmt(e) => EvalKeeps(c, e, s, n);
    case VarDecl(_, e) => EvalKeeps(c, e, s, n);
    case Return(e) => EvalKeeps(c, e, s, n);
    case _ =>
  }

  lemma {:induction false} StoreKeeps(c: Class, t: Expr, e: Expr, s: State, n: nat)
    requires Sound(c) && Holds(c, s.self)
    requires Traced(c, t) && ThisFields(t) !! ThisFields(c.invar) && Tame(c, t, ThisFields(c.invar)) && Tame(c, e, ThisFields(c.invar))
    ensures Kept(c, Store(c, t, e, s, n))
    decreases n, 1
  {
    var o := if t.Member? then t.receiver else t;
    EvalKeeps(c, o, s, n);
    var p := Eval(c, o, s, n);
    if p.Ok? {
      EvalKeeps(c, e, p.state, n);
      var r := Eval(c, e, p.state, n);
      if r.Ok? { PutKeeps(c, t, s, p.value, r.value.v, r.state, n); }
    }
  }

  /** The write of an assignment, or the setter that stands for it. */
  lemma {:induction false} PutKeeps(c: Class, t: Expr, start: State, p: Result, v: Value, s: State, n: nat)
    requires Sound(c) && Holds(c, s.self) && Traced(c, t) && ThisFields(t) !! ThisFields(c.invar)
    requires
      var r := Eval(c, if t.Member? then t.receiver else t, start, n);
      r.Ok? && r.value == p
    ensures Kept(c, PutAt(c, t, p, v, s, n))
    decreases n, 0
  {
    hide Holds, Local, Quiet, TameClass, Tame;
    if t.Member? && p.place == Own([]) && ThroughSetter(c, t.member, s.within) {
      if n > 0 { InvokeKeeps(c, SetterOf(t.member), [v], s, n - 1); }
    } else {
      TargetIsCollected(c, t, start, n);
      WriteKeeps(c, s, TargetPlace(t, p), v, ThisFields(t));
    }
  }

  lemma {:induction false} TurnKeeps(c: Class, q: Expr, b: Block, u: Stmt, s: State, n: nat)
    requires Sound(c) && Holds(c, s.self) && Tame(c, q, ThisFields(c.invar)) && Cleared(c, b)
    requires !StmtAssigns(u, ThisFields(c.invar)) && TameStmt(c, u, ThisFields(c.invar))
    ensures match Turn(c, q, b, u, s, n) case Ended(r) => Kept(c, r) case Again(s1) => Holds(c, s1.self)
    decreases n, 3
  {
    hide Sound, Tame, Eval, Exec, ExecBlock;
    EvalKeeps(c, q, s, n);
    var v := Eval(c, q, s, n);
    if v.Ok? && v.value.v.n != 0 {
      ExecBlockKeeps(c, b, v.state, n);
      var x := ExecBlock(c, b, v.state, n);
      if x.Ok? && !x.value.Broke? && !x.value.Returned? { ExecKeeps(c, u, x.state, n); }
    }
  }

  lemma {:induction false} LoopKeeps(c: Class, q: Expr, b: Block, u: Stmt, s: State, n: nat)
    requires Sound(c) && Holds(c, s.self) && Tame(c, q, ThisFields(c.invar)) && Cleared(c, b)
    requires !StmtAssigns(u, ThisFields(c.invar)) && TameStmt(c, u, ThisFields(c.invar))
    ensures Kept(c, Loop(c, q, b, u, s, n))
    decreases n, 4
  {
    hide Sound, Tame, Turn;
    TurnKeeps(c, q, b, u, s, n);
    var r := Turn(c, q, b, u, s, n);
    if r.Again? && n > 0 { LoopKeeps(c, q, b, u, r.state, n - 1); }
  }

  /** However the methods of the class call each other: entered with the invariant true, a method that returns leaves it true. */
  lemma ElisionIsSound(c: Class, m: string, args: seq<Value>, s: State, fuel: nat)
    requires Quiet(c) && (AllChecked(c) || (Local(c) && TameClass(c)))
    requires m in c.methods && Holds(c, s.self)
    ensures Invoke(c, m, args, s, fuel).Ok? ==> Holds(c, Invoke(c, m, args, s, fuel).state.self)
  {
    if AllChecked(c) { CheckedExit(c, m, args, s, fuel); } else { InvokeKeeps(c, m, args, s, fuel); }
  }

  /** A check that is kept decides: a method that returns has the invariant true, whatever it was entered with. */
  lemma KeptCheckDecides(c: Class, m: string, args: seq<Value>, s: State, fuel: nat)
    requires Quiet(c) && m in c.methods && ChecksExit(c, m)
    ensures Invoke(c, m, args, s, fuel).Ok? ==> Holds(c, Invoke(c, m, args, s, fuel).state.self)
  {
    CheckedExit(c, m, args, s, fuel);
  }

  // ---- what may be assumed at entry ----

  /** A call from outside, with the fuel its run is given. */
  datatype Request = Request(m: string, args: seq<Value>, fuel: nat)

  /** The object as each of some calls finds it; a call that does not return is the last. */
  function Entered(c: Class, self: Value, calls: seq<Request>): seq<Value>
    requires forall i :: 0 <= i < |calls| ==> calls[i].m in c.methods
    decreases |calls|
  {
    if calls == [] then []
    else
      [self] +
      match Invoke(c, calls[0].m, calls[0].args, Checking(self), calls[0].fuel)
      case Ok(_, s) => Entered(c, s.self, calls[1..])
      case _ => []
  }

  /** Over any sequence of calls on an object that starts with the invariant true, every call is
      entered with it true: what the optimiser is told at entry is a fact. */
  lemma {:induction false} EveryEntryIsTrue(c: Class, self: Value, calls: seq<Request>)
    requires Quiet(c) && (AllChecked(c) || (Local(c) && TameClass(c)))
    requires Holds(c, self) && forall i :: 0 <= i < |calls| ==> calls[i].m in c.methods
    ensures forall i :: 0 <= i < |Entered(c, self, calls)| ==> Holds(c, Entered(c, self, calls)[i])
    decreases |calls|
  {
    hide Quiet, Local, TameClass, Holds;
    if calls != [] {
      var s := Checking(self);
      ElisionIsSound(c, calls[0].m, calls[0].args, s, calls[0].fuel);
      var r := Invoke(c, calls[0].m, calls[0].args, s, calls[0].fuel);
      if r.Ok? { EveryEntryIsTrue(c, r.state.self, calls[1..]); }
    }
  }

  // ---- the condition on the invariant is exact ----

  /** Running the body keeps the invariant, from every state. */
  ghost predicate BodyKeeps(c: Class, b: Block)
  {
    forall s: State, fuel: nat :: Holds(c, s.self) ==> Kept(c, ExecBlock(c, b, s, fuel))
  }

  /** `this.f = x;` */
  function SetField(f: string, x: string): Block { Then(Assign(Member(This, f), Identifier(x)), Empty) }

  lemma SetFieldRuns(c: Class, f: string, x: string, s: State, fuel: nat)
    requires x in s.locals && !ThroughSetter(c, f, s.within)
    ensures ExecBlock(c, SetField(f, x), s, fuel) == Ok(Next, s.(self := WithField(s.self, f, Lookup(s.locals, x))))
  {
    var t := Member(This, f);
    var v := Lookup(s.locals, x);
    var after := s.(self := WithField(s.self, f, v));
    assert Eval(c, This, s, fuel) == Ok(Result(s.self, Own([])), s);
    assert [] + [Part(f)] == [Part(f)];
    assert Inside(Own([]), [Part(f)]) == Own([Part(f)]);
    assert Eval(c, Identifier(x), s, fuel) == Ok(Result(v, OfLocal(x, [])), s);
    assert Put(Child(s.self, Part(f)), [], v) == v;
    assert Put(s.self, [Part(f)], v) == WithField(s.self, f, v);
    assert Store(c, t, Identifier(x), s, fuel) == Ok(Next, after);
    assert Exec(c, Assign(t, Identifier(x)), s, fuel) == Ok(Next, after);
    assert ExecBlock(c, Empty, after, fuel) == Ok(Next, after);
  }

  lemma SetFieldIsCleared(c: Class, f: string, x: string)
    requires f !in ThisFields(c.invar)
    ensures Cleared(c, SetField(f, x))
  {
    var fields := ThisFields(c.invar);
    var t := Member(This, f);
    assert ThisFields(t) == {f};
    assert !StmtAssigns(Assign(t, Identifier(x)), fields);
    assert !BlockAssigns(Empty, fields) && TameBlock(c, Empty, fields);
    assert Tame(c, This, fields) && Tame(c, t, fields) && Traced(c, t);
    assert TameStmt(c, Assign(t, Identifier(x)), fields);
  }

  /** Every body that may have its check left out keeps the invariant, if and only if the invariant is local. */
  lemma SoundIffLocal(c: Class)
    requires Quiet(c) && TameClass(c)
    ensures Local(c) <==> forall b :: Cleared(c, b) ==> BodyKeeps(c, b)
  {
    if Local(c) {
      forall b, s: State, fuel: nat | Cleared(c, b) && Holds(c, s.self)
        ensures Kept(c, ExecBlock(c, b, s, fuel))
      {
        ExecBlockKeeps(c, b, s, fuel);
      }
    }
    if forall b :: Cleared(c, b) ==> BodyKeeps(c, b) {
      forall self: Value, f: string, w: Value | f !in ThisFields(c.invar) && Holds(c, self)
        ensures Holds(c, WithField(self, f, w))
      {
        var s := State(self, map["x" := w], SetterOf(f));
        SetFieldIsCleared(c, f, "x");
        assert BodyKeeps(c, SetField(f, "x"));
        SetFieldRuns(c, f, "x", s, 0);
        assert Kept(c, ExecBlock(c, SetField(f, "x"), s, 0));
      }
    }
  }
}
