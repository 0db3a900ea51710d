/**
 Invariants that can be seen to depend on the collected fields only.

 Every field of `this` an invariant reads must be collected, in the invariant itself or in the
 methods it calls, and nothing it calls may write into this object. Calls of foreign methods on
 collected fields qualify, and so do calls of the object's own methods, written with or without
 `this.`, and reads of its computed properties, when those read no other field.
 */
module InvariantReads {
  import opened InvariantElision
  import opened ElisionSoundness

  // ---- the condition, read off the text ----

  /** A foreign call writes no part of this object. */
  ghost predicate WritesNothingHere(c: Class, f: Expr, args: Exprs)
  {
    forall k :: 0 <= k <= Arity(args) && c.lib.mayWrite(CalleeOf(f, args), k) ==>
      Traced(c, OperandAt(f, args, k)) && ThisFields(OperandAt(f, args, k)) == {}
  }

  /** `e` reads this object's `fields` only, and runs only its `own` methods. */
  ghost predicate Reads(c: Class, e: Expr, fields: set<string>, own: set<string>)
  {
    match e
    case IntLit(_) => true
    case This => false
    case Identifier(x) => x in c.closures ==> x in fields
    case Member(o, m) => if o != This then Reads(c, o, fields, own) else if IsGetter(c, m) then m in own else m in fields
    case Index(a, i) => Reads(c, a, fields, own) && Reads(c, i, fields, own)
    case Binary(_, l, r) => Reads(c, l, fields, own) && Reads(c, r, fields, own)
    case Unary(_, x) => Reads(c, x, fields, own)
    case Cast(x) => Reads(c, x, fields, own)
    case Ternary(q, t, f) => Reads(c, q, fields, own) && Reads(c, t, fields, own) && Reads(c, f, fields, own)
    case CallExpr(f, args) =>
      && ReadsAll(c, args, fields, own)
      && if IsSelfCall(c, f) then MethodOf(f) in own else Reads(c, ReceiverOf(f), fields, own) && WritesNothingHere(c, f, args)
    case Other(x) => Reads(c, x, fields, own)
    case Bodied(x, _, b) => Reads(c, x, fields, own) && BlockReads(c, b, fields, own)
  }

  ghost predicate ReadsAll(c: Class, args: Exprs, fields: set<string>, own: set<string>)
  {
    match args
    case NoExprs => true
    case MoreExprs(e, rest) => Reads(c, e, fields, own) && ReadsAll(c, rest, fields, own)
  }

  ghost predicate StmtReads(c: Class, s: Stmt, fields: set<string>, own: set<string>)
  {
    match s
    case Assign(t, e) => Traced(c, t) && ThisFields(t) == {} && Reads(c, t, fields, own) && Reads(c, e, fields, own)
    case IncDec(t, _) => Traced(c, t) && ThisFields(t) == {} && Reads(c, t, fields, own)
    case BlockStmt(b) => BlockReads(c, b, fields, own)
    case IfStmt(q, t, f) => Reads(c, q, fields, own) && BlockReads(c, t, fields, own) && BlockReads(c, f, fields, own)
    case ForStmt(i, q, u, b) =>
      StmtReads(c, i, fields, own) && Reads(c, q, fields, own) && StmtReads(c, u, fields, own) && BlockReads(c, b, fields, own)
    case WhileStmt(q, b) => Reads(c, q, fields, own) && BlockReads(c, b, fields, own)
    case DoWhileStmt(b, q) => BlockReads(c, b, fields, own) && Reads(c, q, fields, own)
    case ExprStmt(e) => Reads(c, e, fields, own)
    case VarDecl(_, e) => Reads(c, e, fields, own)
    case Return(e) => Reads(c, e, fields, own)
    case Unrecognised(_) => false
    case _ => true
  }

  ghost predicate BlockReads(c: Class, b: Block, fields: set<string>, own: set<string>)
  {
    match b
    case Empty => true
    case Then(s, rest) => StmtReads(c, s, fields, own) && BlockReads(c, rest, fields, own)
  }

  /** The invariant and the `own` methods behind it read no field that is not collected. */
  ghost predicate SeesItsFields(c: Class, own: set<string>)
  {
    && Reads(c, c.invar, ThisFields(c.invar), own)
    && forall m :: m in own && m in c.methods ==> BlockReads(c, c.methods[m].body, ThisFields(c.invar), own)
  }

  // ---- twins: two objects that agree on the fields ----

  ghost predicate Agree(v: Value, u: Value, fields: set<string>)
  {
    forall f :: f in fields ==> Child(v, Part(f)) == Child(u, Part(f))
  }

  function Twin(s: State, u: Value): State { s.(self := u) }

  /** The same outcome on the twin. */
  function TwinRes<T>(r: Res<T>, u: Value): Res<T>
  {
    match r
    case OutOfFuel => OutOfFuel
    case Panic => Panic
    case Ok(v, s) => Ok(v, Twin(s, u))
  }

  /** Both objects are left alone and everything else comes out the same. */
  ghost predicate SameOutcome<T>(r: Res<T>, r': Res<T>, self: Value, u: Value)
  {
    r' == TwinRes(r, u) && (r.Ok? ==> r.state.self == self)
  }

  ghost predicate Premise(c: Class, own: set<string>, v: Value, u: Value)
  {
    SeesItsFields(c, own) && Agree(v, u, ThisFields(c.invar))
  }

  lemma NowOnTwin(s: State, u: Value, r: Result, fields: set<string>)
    requires Agree(s.self, u, fields) && PlaceIn(r.place, fields)
    ensures Now(Twin(s, u), r) == Now(s, r)
  {
  }

  lemma ValuesOnTwin(s: State, u: Value, rs: seq<Result>, fields: set<string>)
    requires Agree(s.self, u, fields) && forall i :: 0 <= i < |rs| ==> PlaceIn(rs[i].place, fields)
    ensures ValuesNow(Twin(s, u), rs) == ValuesNow(s, rs)
  {
    forall i | 0 <= i < |rs| ensures ValuesNow(Twin(s, u), rs)[i] == ValuesNow(s, rs)[i] {
      NowOnTwin(s, u, rs[i], fields);
    }
  }

  lemma {:induction false} WrittenOnTwin(c: Class, f: Expr, args: Exprs, rs: seq<Result>, vs: seq<Value>, s: State, u: Value, n: nat)
    requires WritesNothingHere(c, f, args) && n <= |rs| == Arity(args) + 1
    requires forall k :: 0 <= k < |rs| && Traced(c, OperandAt(f, args, k)) ==> PlaceIn(rs[k].place, ThisFields(OperandAt(f, args, k)))
    ensures
      var w := Written(c.lib, CalleeOf(f, args), rs, vs, s, n);
      w.self == s.self && Written(c.lib, CalleeOf(f, args), rs, vs, Twin(s, u), n) == Twin(w, u)
  {
    if n > 0 {
      WrittenOnTwin(c, f, args, rs, vs, s, u, n - 1);
      assert Traced(c, OperandAt(f, args, n - 1)) ==> PlaceIn(rs[n - 1].place, ThisFields(OperandAt(f, args, n - 1)));
    }
  }

  /** A call of something outside the class, on operands in the collected fields. */
  lemma ForeignOnTwin(c: Class, f: Expr, args: Exprs, rs: seq<Result>, s: State, u: Value, fields: set<string>)
    requires WritesNothingHere(c, f, args) && |rs| == Arity(args) + 1 && Agree(s.self, u, fields)
    requires forall k :: 0 <= k < |rs| ==> PlaceIn(rs[k].place, fields)
    requires forall k :: 0 <= k < |rs| && Traced(c, OperandAt(f, args, k)) ==> PlaceIn(rs[k].place, ThisFields(OperandAt(f, args, k)))
    ensures SameOutcome(Foreign(c.lib, CalleeOf(f, args), rs, s), Foreign(c.lib, CalleeOf(f, args), rs, Twin(s, u)), s.self, u)
    ensures PlaceIn(Foreign(c.lib, CalleeOf(f, args), rs, s).value.place, fields)
  {
    var name := CalleeOf(f, args);
    var vs := ValuesNow(s, rs);
    ValuesOnTwin(s, u, rs, fields);
    WrittenOnTwin(c, f, args, rs, vs, s, u, |rs|);
    var w := Written(c.lib, name, rs, vs, s, |rs|);
    match c.lib.answer(name, vs)
    case Fresh(_) =>
    case PartOf(k, path) => if k < |rs| { NowOnTwin(w, u, rs[k], fields); }
  }

  // ---- nothing that reads only the fields can tell the twins apart ----

  lemma {:induction false} EvalOnTwin(c: Class, own: set<string>, e: Expr, s: State, u: Value, n: nat)
    requires Premise(c, own, s.self, u) && Reads(c, e, ThisFields(c.invar), own)
    ensures SameOutcome(Eval(c, e, s, n), Eval(c, e, Twin(s, u), n), s.self, u)
    ensures Eval(c, e, s, n).Ok? ==> PlaceIn(Eval(c, e, s, n).value.place, ThisFields(c.invar))
    decreases n, 0, e, 1
  {
    hide ThisFields, SeesItsFields, Invoke, RunEach;
    match e
    case Identifier(x) => NameOnTwin(c, x, s, u, n);
    case Member(o, m) =>
      if o == This {
        OwnMemberOnTwin(c, own, m, s, u, n);
      } else {
        EvalOnTwin(c, own, o, s, u, n);
        MemberOnTwin(c, o, m, s, u, n);
      }
    case Index(a, i) =>
      EvalOnTwin(c, own, a, s, u, n);
      var r := Eval(c, a, s, n);
      if r.Ok? {
        EvalOnTwin(c, own, i, r.state, u, n);
        var k := Eval(c, i, r.state, n);
        if k.Ok? { NowOnTwin(k.state, u, r.value, ThisFields(c.invar)); }
      }
    case Binary(_, l, r) =>
      EvalOnTwin(c, own, l, s, u, n);
      if Eval(c, l, s, n).Ok? { EvalOnTwin(c, own, r, Eval(c, l, s, n).state, u, n); }
    case Unary(_, x) => EvalOnTwin(c, own, x, s, u, n);
    case Cast(x) => EvalOnTwin(c, own, x, s, u, n);
    case Ternary(q, t, f) =>
      EvalOnTwin(c, own, q, s, u, n);
      var r := Eval(c, q, s, n);
      if r.Ok? { EvalOnTwin(c, own, if r.value.v.n != 0 then t else f, r.state, u, n); }
    case CallExpr(f, args) =>
      if IsSelfCall(c, f) { OwnCallOnTwin(c, own, f, args, s, u, n); } else { ForeignCallOnTwin(c, own, f, args, s, u, n); }
    case Other(x) => EvalOnTwin(c, own, x, s, u, n);
    case Bodied(x, params, b) =>
      EvalOnTwin(c, own, x, s, u, n);
      var r := Eval(c, x, s, n);
      if r.Ok? && n > 0 { RunEachOnTwin(c, own, params, b, c.lib.runs(b, r.value.v), r.state, u, n - 1); }
    case _ =>
  }

  /** A bare name: a local, or a closure in a field. */
  lemma NameOnTwin(c: Class, x: string, s: State, u: Value, n: nat)
    requires Agree(s.self, u, ThisFields(c.invar)) && (x in c.closures ==> x in ThisFields(c.invar))
    ensures SameOutcome(Eval(c, Identifier(x), s, n), Eval(c, Identifier(x), Twin(s, u), n), s.self, u)
    ensures PlaceIn(Eval(c, Identifier(x), s, n).value.place, ThisFields(c.invar))
  {
    hide ThisFields;
    assert x in c.closures ==> Child(s.self, Part(x)) == Child(u, Part(x));
  }

  /** `this.m`: a collected field, or a getter. */
  lemma {:induction false} OwnMemberOnTwin(c: Class, own: set<string>, m: string, s: State, u: Value, n: nat)
    requires Premise(c, own, s.self, u) && (if IsGetter(c, m) then m in own else m in ThisFields(c.invar))
    ensures SameOutcome(Eval(c, Member(This, m), s, n), Eval(c, Member(This, m), Twin(s, u), n), s.self, u)
    ensures Eval(c, Member(This, m), s, n).Ok? ==> PlaceIn(Eval(c, Member(This, m), s, n).value.place, ThisFields(c.invar))
    decreases n, 0, Member(This, m), 0
  {
    hide ThisFields, SeesItsFields, Invoke;
    assert Eval(c, This, s, n) == Ok(Result(s.self, Own([])), s);
    assert Eval(c, This, Twin(s, u), n) == Ok(Result(u, Own([])), Twin(s, u));
    if IsGetter(c, m) {
      if n > 0 { InvokeOnTwin(c, own, m, [], s, u, n - 1); }
    } else {
      assert Child(s.self, Part(m)) == Child(u, Part(m));
    }
  }

  lemma MemberOnTwin(c: Class, o: Expr, m: string, s: State, u: Value, n: nat)
    requires o != This && Agree(s.self, u, ThisFields(c.invar))
    requires SameOutcome(Eval(c, o, s, n), Eval(c, o, Twin(s, u), n), s.self, u)
    requires Eval(c, o, s, n).Ok? ==> PlaceIn(Eval(c, o, s, n).value.place, ThisFields(c.invar))
    ensures SameOutcome(Eval(c, Member(o, m), s, n), Eval(c, Member(o, m), Twin(s, u), n), s.self, u)
    ensures Eval(c, Member(o, m), s, n).Ok? ==> PlaceIn(Eval(c, Member(o, m), s, n).value.place, ThisFields(c.invar))
  {
    var r := Eval(c, o, s, n);
    if r.Ok? { NowOnTwin(r.state, u, r.value, ThisFields(c.invar)); }
  }

  lemma {:induction false} ArgsOnTwin(c: Class, own: set<string>, args: Exprs, s: State, u: Value, n: nat)
    requires Premise(c, own, s.self, u) && ReadsAll(c, args, ThisFields(c.invar), own)
    ensures SameOutcome(EvalArgs(c, args, s, n), EvalArgs(c, args, Twin(s, u), n), s.self, u)
    ensures EvalArgs(c, args, s, n).Ok? ==>
      forall i :: 0 <= i < |EvalArgs(c, args, s, n).value| ==> PlaceIn(EvalArgs(c, args, s, n).value[i].place, ThisFields(c.invar))
    decreases n, 0, args, 0
  {
    match args
    case NoExprs =>
    case MoreExprs(e, rest) =>
      EvalOnTwin(c, own, e, s, u, n);
      if Eval(c, e, s, n).Ok? { ArgsOnTwin(c, own, rest, Eval(c, e, s, n).state, u, n); }
  }

  lemma {:induction false} OwnCallOnTwin(c: Class, own: set<string>, f: Expr, args: Exprs, s: State, u: Value, n: nat)
    requires Premise(c, own, s.self, u) && IsSelfCall(c, f) && MethodOf(f) in own && ReadsAll(c, args, ThisFields(c.invar), own)
    ensures SameOutcome(Eval(c, CallExpr(f, args), s, n), Eval(c, CallExpr(f, args), Twin(s, u), n), s.self, u)
    ensures Eval(c, CallExpr(f, args), s, n).Ok? ==> PlaceIn(Eval(c, CallExpr(f, args), s, n).value.place, ThisFields(c.invar))
    decreases n, 0, args, 1
  {
    ArgsOnTwin(c, own, args, s, u, n);
    var r := EvalArgs(c, args, s, n);
    if r.Ok? && n > 0 {
      ValuesOnTwin(r.state, u, r.value, ThisFields(c.invar));
      InvokeOnTwin(c, own, MethodOf(f), ValuesNow(r.state, r.value), r.state, u, n - 1);
    }
  }

  lemma {:induction false} ForeignCallOnTwin(c: Class, own: set<string>, f: Expr, args: Exprs, s: State, u: Value, n: nat)
    requires Premise(c, own, s.self, u) && !IsSelfCall(c, f) && Reads(c, CallExpr(f, args), ThisFields(c.invar), own)
    ensures SameOutcome(Eval(c, CallExpr(f, args), s, n), Eval(c, CallExpr(f, args), Twin(s, u), n), s.self, u)
    ensures Eval(c, CallExpr(f, args), s, n).Ok? ==> PlaceIn(Eval(c, CallExpr(f, args), s, n).value.place, ThisFields(c.invar))
    decreases n, 0, CallExpr(f, args), 0
  {
    hide ThisFields, SeesItsFields, WritesNothingHere, Foreign, EvalArgs;
    var fields := ThisFields(c.invar);
    EvalOnTwin(c, own, ReceiverOf(f), s, u, n);
    var r := Eval(c, ReceiverOf(f), s, n);
    if r.Ok? {
      if Traced(c, ReceiverOf(f)) { PlaceIsCollected(c, ReceiverOf(f), s, n); }
      ArgsOnTwin(c, own, args, r.state, u, n);
      var rs := EvalArgs(c, args, r.state, n);
      if rs.Ok? {
        PlacesAreCollected(c, args, r.state, n);
        ForeignOnTwin(c, f, args, [r.value] + rs.value, rs.state, u, fields);
      }
    }
  }

  lemma {:induction false} InvokeOnTwin(c: Class, own: set<string>, m: string, args: seq<Value>, s: State, u: Value, n: nat)
    requires Premise(c, own, s.self, u) && m in c.methods && m in own
    ensures SameOutcome(Invoke(c, m, args, s, n), Invoke(c, m, args, Twin(s, u), n), s.self, u)
    ensures Invoke(c, m, args, s, n).Ok? ==> Invoke(c, m, args, s, n).value.place == Elsewhere
    decreases n, 3
  {
    var inner := State(s.self, Bind(c.methods[m].params, args), m);
    BlockOnTwin(c, own, c.methods[m].body, inner, u, n);
    var done := ExecBlock(c, c.methods[m].body, inner, n);
    if done.Ok? && n > 0 { EvalOnTwin(c, own, c.invar, Checking(s.self), u, n - 1); }
  }

  lemma {:induction false} RunEachOnTwin(
      c: Class, own: set<string>, params: seq<string>, b: Block, runs: seq<seq<Value>>, s: State, u: Value, n: nat)
    requires Premise(c, own, s.self, u) && BlockReads(c, b, ThisFields(c.invar), own)
    ensures SameOutcome(RunEach(c, params, b, runs, s, n), RunEach(c, params, b, runs, Twin(s, u), n), s.self, u)
    ensures RunEach(c, params, b, runs, s, n).Ok? ==> RunEach(c, params, b, runs, s, n).value.place == Elsewhere
    decreases n, 3, |runs|
  {
    hide Premise, BlockReads, ExecBlock;
    if runs != [] {
      var inner := s.(locals := s.locals + Bind(params, runs[0]));
      BlockOnTwin(c, own, b, inner, u, n);
      var r := ExecBlock(c, b, inner, n);
      if r.Ok? && |runs| > 1 { RunEachOnTwin(c, own, params, b, runs[1..], r.state, u, n); }
    }
  }

  lemma {:induction false} BlockOnTwin(c: Class, own: set<string>, b: Block, s: State, u: Value, n: nat)
    requires Premise(c, own, s.self, u) && BlockReads(c, b, ThisFields(c.invar), own)
    ensures SameOutcome(ExecBlock(c, b, s, n), ExecBlock(c, b, Twin(s, u), n), s.self, u)
    decreases n, 2, b
  {
    hide Premise, Reads, Exec, ThisFields;
    match b
    case Empty =>
    case Then(first, rest) =>
      StmtOnTwin(c, own, first, s, u, n);
      var r := Exec(c, first, s, n);
      if r.Ok? && r.value.Next? { BlockOnTwin(c, own, rest, r.state, u, n); }
  }

  lemma {:induction false} StmtOnTwin(c: Class, own: set<string>, st: Stmt, s: State, u: Value, n: nat)
    requires Premise(c, own, s.self, u) && StmtReads(c, st, ThisFields(c.invar), own)
    ensures SameOutcome(Exec(c, st, s, n), Exec(c, st, Twin(s, u), n), s.self, u)
    decreases n, 2, st
  {
    hide Premise, Eval, ThisFields, Store, Loop;
    match st
    case Assign(t, e) => StoreOnTwin(c, own, t, e, s, u, n);
    case IncDec(t, step) => StoreOnTwin(c, own, t, Binary("+", t, IntLit(step)), s, u, n);
    case BlockStmt(b) => BlockOnTwin(c, own, b, s, u, n);
    case IfStmt(q, t, f) =>
      EvalOnTwin(c, own, q, s, u, n);
      var r := Eval(c, q, s, n);
      if r.Ok? { BlockOnTwin(c, own, if r.value.v.n != 0 then t else f, r.state, u, n); }
    case ForStmt(i, q, up, b) =>
      StmtOnTwin(c, own, i, s, u, n);
      var r := Exec(c, i, s, n);
      if r.Ok? && n > 0 { LoopOnTwin(c, own, q, b, up, r.state, u, n - 1); }
    case WhileStmt(q, b) => if n > 0 { LoopOnTwin(c, own, q, b, BlockStmt(Empty), s, u, n - 1); }
    case DoWhileStmt(b, q) =>
      BlockOnTwin(c, own, b, s, u, n);
      var r := ExecBlock(c, b, s, n);
      if r.Ok? && n > 0 { LoopOnTwin(c, own, q, b, BlockStmt(Empty), r.state, u, n - 1); }
    case ExprStmt(e) => EvalOnTwin(c, own, e, s, u, n);
    case VarDecl(_, e) => EvalOnTwin(c, own, e, s, u, n);
    case Return(e) => EvalOnTwin(c, own, e, s, u, n);
    case _ =>
  }

  lemma {:induction false} StoreOnTwin(c: Class, own: set<string>, t: Expr, e: Expr, s: State, u: Value, n: nat)
    requires Premise(c, own, s.self, u) && Traced(c, t) && ThisFields(t) == {}
    requires Reads(c, t, ThisFields(c.invar), own) && Reads(c, e, ThisFields(c.invar), own)
    ensures SameOutcome(Store(c, t, e, s, n), Store(c, t, e, Twin(s, u), n), s.self, u)
    decreases n, 1
  {
    hide Premise, Eval, ThisFields;
    NamesItsField(t);
    var o := if t.Member? then t.receiver else t;
    EvalOnTwin(c, own, o, s, u, n);
    var p := Eval(c, o, s, n);
    if p.Ok? {
      TargetIsCollected(c, t, s, n);
      EvalOnTwin(c, own, e, p.state, u, n);
    }
  }

  lemma NamesItsField(t: Expr)
    ensures t.Member? && t.receiver == This ==> t.member in ThisFields(t)
  {
  }

  lemma {:induction false} TurnOnTwin(c: Class, own: set<string>, q: Expr, b: Block, up: Stmt, s: State, u: Value, n: nat)
    requires Premise(c, own, s.self, u)
    requires Reads(c, q, ThisFields(c.invar), own) && BlockReads(c, b, ThisFields(c.invar), own) && StmtReads(c, up, ThisFields(c.invar), own)
    ensures
      match Turn(c, q, b, up, s, n)
      case Ended(r) => Turn(c, q, b, up, Twin(s, u), n).Ended? && SameOutcome(r, Turn(c, q, b, up, Twin(s, u), n).result, s.self, u)
      case Again(s1) => Turn(c, q, b, up, Twin(s, u), n) == Again(Twin(s1, u)) && s1.self == s.self
    decreases n, 3
  {
    hide Premise, Reads, BlockReads, StmtReads, Eval, Exec, ExecBlock;
    EvalOnTwin(c, own, q, s, u, n);
    var v := Eval(c, q, s, n);
    if v.Ok? && v.value.v.n != 0 {
      BlockOnTwin(c, own, b, v.state, u, n);
      var x := ExecBlock(c, b, v.state, n);
      if x.Ok? && !x.value.Broke? && !x.value.Returned? { StmtOnTwin(c, own, up, x.state, u, n); }
    }
  }

  lemma {:induction false} LoopOnTwin(c: Class, own: set<string>, q: Expr, b: Block, up: Stmt, s: State, u: Value, n: nat)
    requires Premise(c, own, s.self, u)
    requires Reads(c, q, ThisFields(c.invar), own) && BlockReads(c, b, ThisFields(c.invar), own) && StmtReads(c, up, ThisFields(c.invar), own)
    ensures SameOutcome(Loop(c, q, b, up, s, n), Loop(c, q, b, up, Twin(s, u), n), s.self, u)
    decreases n, 4
  {
    hide Premise, Reads, BlockReads, StmtReads, Turn;
    TurnOnTwin(c, own, q, b, up, s, u, n);
    var r := Turn(c, q, b, up, s, n);
    if r.Again? && n > 0 { LoopOnTwin(c, own, q, b, up, r.state, u, n - 1); }
  }

  // ---- what follows ----

  /** An invariant that reads only collected fields is one the analysis may trust. */
  lemma ReadingInvariantIsLocal(c: Class, own: set<string>)
    requires SeesItsFields(c, own)
    ensures Local(c) && Quiet(c)
  {
    forall self: Value, fuel: nat ensures LeavesAlone(c, self, fuel) {
      EvalOnTwin(c, own, c.invar, Checking(self), self, fuel);
    }
    forall self: Value, f: string, w: Value | f !in ThisFields(c.invar) && Holds(c, self)
      ensures Holds(c, WithField(self, f, w))
    {
      var fuel: nat :| TrueAt(c, self, fuel);
      EvalOnTwin(c, own, c.invar, Checking(self), WithField(self, f, w), fuel);
      assert TrueAt(c, WithField(self, f, w), fuel);
    }
  }

  /** Eliding is sound for a class whose text meets the two conditions. */
  lemma ElisionIsSoundByInspection(c: Class, own: set<string>, m: string, args: seq<Value>, s: State, fuel: nat)
    requires SeesItsFields(c, own) && TameClass(c) && m in c.methods && Holds(c, s.self)
    ensures Invoke(c, m, args, s, fuel).Ok? ==> Holds(c, Invoke(c, m, args, s, fuel).state.self)
  {
    ReadingInvariantIsLocal(c, own);
    ElisionIsSound(c, m, args, s, fuel);
  }

  /** `this.data.length()` */
  function AnswerOf(data: string, length: string): Expr { CallExpr(Member(Member(This, data), length), NoExprs) }

  /** `this.count <= this.data.length()`, `this.keys.length() == this.cap` and their like are such
      invariants whenever these are fields and `length` does not write what it is called on. */
  lemma LengthInvariantIsLocal(c: Class, op: string, count: string, data: string, length: string)
    requires
      || c.invar == Binary(op, Member(This, count), AnswerOf(data, length))
      || c.invar == Binary(op, AnswerOf(data, length), Member(This, count))
    requires !IsGetter(c, count) && !IsGetter(c, data) && !c.lib.mayWrite(Callee(length, 0), 0)
    ensures ThisFields(c.invar) == {count, data} && Local(c) && Quiet(c)
  {
    var fields := {count, data};
    FieldIsRead(c, count, fields, {});
    FieldIsRead(c, data, fields, {});
    AnswerIsRead(c, data, length, fields);
    assert ThisFields(c.invar) == fields;
    ReadingInvariantIsLocal(c, {});
  }

  lemma AnswerIsRead(c: Class, data: string, length: string, fields: set<string>)
    requires data in fields && !IsGetter(c, data) && !c.lib.mayWrite(Callee(length, 0), 0)
    ensures ThisFields(AnswerOf(data, length)) == {data} && Reads(c, AnswerOf(data, length), fields, {})
  {
    var f := Member(Member(This, data), length);
    FieldIsRead(c, data, fields, {});
    assert ThisFields(f) == {data} && ThisFieldsOf(NoExprs) == {};
    assert CalleeOf(f, NoExprs) == Callee(length, 0) && Arity(NoExprs) == 0;
    assert WritesNothingHere(c, f, NoExprs);
    assert ReceiverOf(f) == Member(This, data) && !IsSelfCall(c, f);
    assert ReadsAll(c, NoExprs, fields, {});
  }

  lemma FieldIsRead(c: Class, f: string, fields: set<string>, own: set<string>)
    requires f in fields && !IsGetter(c, f)
    ensures ThisFields(Member(This, f)) == {f} && Reads(c, Member(This, f), fields, own)
  {
    assert ThisFields(This) == {};
  }
}
