/**
 Where leaving out the check goes wrong.

 The analysis reads fields off the text of the invariant and assignments off the text of the body.
 A field read behind a method of the object escapes the first reading, whether the method is called
 with `this.`, without, or as a property; a field written behind a foreign call, or inside an
 expression, escapes the second. And only the class that declares an invariant checks it.
 */
module ElisionLimits {
  import opened InvariantElision
  import opened ElisionSoundness
  import opened InvariantReads

  lemma FieldEvaluates(c: Class, f: string, s: State, fuel: nat)
    requires !IsGetter(c, f)
    ensures Eval(c, Member(This, f), s, fuel) == Ok(Result(Child(s.self, Part(f)), Own([Part(f)])), s)
  {
    assert [] + [Part(f)] == [Part(f)];
    assert Eval(c, This, s, fuel) == Ok(Result(s.self, Own([])), s);
  }

  lemma OneStep(v: Value, k: Key, w: Value)
    ensures Get(v, [k]) == Child(v, k) && Put(v, [k], w) == v.(parts := v.parts[k := w])
  {
    assert [k][1..] == [];
    assert Get(Child(v, k), []) == Child(v, k) && Put(Child(v, k), [], w) == w;
  }

  /** `this.f = e;` for an `e` that only has a value. */
  lemma SetsField(c: Class, f: string, e: Expr, w: Value, s: State, fuel: nat)
    requires !ThroughSetter(c, f, s.within)
    requires Eval(c, e, s, fuel).Ok? && Eval(c, e, s, fuel).value.v == w && Eval(c, e, s, fuel).state == s
    ensures Exec(c, Assign(Member(This, f), e), s, fuel) == Ok(Next, s.(self := WithField(s.self, f, w)))
    ensures ExecBlock(c, Then(Assign(Member(This, f), e), Empty), s, fuel) == Ok(Next, s.(self := WithField(s.self, f, w)))
  {
    var after := s.(self := WithField(s.self, f, w));
    assert Eval(c, This, s, fuel) == Ok(Result(s.self, Own([])), s);
    assert [] + [Part(f)] == [Part(f)];
    OneStep(s.self, Part(f), w);
    assert PutAt(c, Member(This, f), Result(s.self, Own([])), w, s, fuel) == Ok(Next, after);
    assert Store(c, Member(This, f), e, s, fuel) == Ok(Next, after);
    assert ExecBlock(c, Empty, after, fuel) == Ok(Next, after);
  }

  lemma SetNumberRuns(c: Class, f: string, k: int, s: State, fuel: nat)
    requires !ThroughSetter(c, f, s.within)
    ensures Exec(c, Assign(Member(This, f), IntLit(k)), s, fuel) == Ok(Next, s.(self := WithField(s.self, f, Num(k))))
    ensures ExecBlock(c, SetNumber(f, k), s, fuel) == Ok(Next, s.(self := WithField(s.self, f, Num(k))))
  {
    assert Eval(c, IntLit(k), s, fuel) == Ok(Result(Num(k), Elsewhere), s);
    SetsField(c, f, IntLit(k), Num(k), s, fuel);
  }

  /** `this.f = k;` */
  function SetNumber(f: string, k: int): Block { Then(Assign(Member(This, f), IntLit(k)), Empty) }

  // ---- a field read behind a method ----

  /** Three ways to ask this object's `size`. */
  datatype Spelling = Qualified | Bare | Property

  function Size(how: Spelling): Expr
  {
    match how
    case Qualified => CallExpr(Member(This, "size"), NoExprs)
    case Bare => CallExpr(Identifier("size"), NoExprs)
    case Property => Member(This, "size")
  }

  const CapClause := Binary(">=", Member(This, "cap"), IntLit(1))

  /** `size` answers with field `n`; `grow()` sets it to 5; the invariant is `this.cap >= 1` and `size < 3`. */
  function Counter(lib: Library, how: Spelling): Class
  {
    Class(
      map["size" := Method([], Then(Return(Member(This, "n")), Empty)), "grow" := Method([], SetNumber("n", 5))],
      {"size", "grow"}, if how.Property? then {"size"} else {}, {},
      Binary("&&", CapClause, Binary("<", Size(how), IntLit(3))),
      lib)
  }

  function Holding(n: int): Value { Value(0, map[Part("cap") := Num(1), Part("n") := Num(n)]) }

  lemma CounterFields(lib: Library, how: Spelling)
    ensures ThisFields(Counter(lib, how).invar) == if how.Bare? then {"cap"} else {"cap", "size"}
    ensures forall m :: m in Counter(lib, how).methods ==> !ChecksExit(Counter(lib, how), m)
  {
    var c := Counter(lib, how);
    assert ThisFields(This) == {} && ThisFieldsOf(NoExprs) == {} && ThisFields(IntLit(3)) == {} && ThisFields(IntLit(1)) == {};
    assert ThisFields(Member(This, "size")) == {"size"} && ThisFields(Member(This, "cap")) == {"cap"};
    assert ThisFields(Member(This, "n")) == {"n"};
    assert ThisFields(CapClause) == {"cap"};
    assert ThisFields(Size(how)) == if how.Bare? then {} else {"size"};
    assert ThisFields(c.invar) == ThisFields(CapClause) + (ThisFields(Size(how)) + {});
    assert !StmtAssigns(Assign(Member(This, "n"), IntLit(5)), ThisFields(c.invar));
    assert !BlockAssigns(Empty, ThisFields(c.invar));
  }

  lemma SizeReturnsN(lib: Library, how: Spelling, n: int, s: State, fuel: nat)
    requires s.self == Holding(n)
    ensures Invoke(Counter(lib, how), "size", [], s, fuel) == Ok(Result(Num(n), Elsewhere), s)
  {
    var c := Counter(lib, how);
    var inner := State(s.self, map[], "size");
    CounterFields(lib, how);
    assert Bind([], []) == map[];
    FieldEvaluates(c, "n", inner, fuel);
    assert Exec(c, Return(Member(This, "n")), inner, fuel) == Ok(Returned(Num(n)), inner);
    assert ExecBlock(c, c.methods["size"].body, inner, fuel) == Ok(Returned(Num(n)), inner);
  }

  lemma SizeEvaluates(lib: Library, how: Spelling, n: int, fuel: nat)
    ensures
      var s := Checking(Holding(n));
      Eval(Counter(lib, how), Size(how), s, fuel) == if fuel == 0 then OutOfFuel else Ok(Result(Num(n), Elsewhere), s)
  {
    hide Invoke, Foreign, RunEach, ThisFields;
    var c := Counter(lib, how);
    var s := Checking(Holding(n));
    assert EvalArgs(c, NoExprs, s, fuel) == Ok([], s);
    assert ValuesNow(s, []) == [];
    assert Eval(c, This, s, fuel) == Ok(Result(s.self, Own([])), s);
    if fuel > 0 { SizeReturnsN(lib, how, n, s, fuel - 1); }
    assert how.Property? <==> IsGetter(c, "size");
    assert !how.Property? ==> IsSelfCall(c, Size(how).callee) && MethodOf(Size(how).callee) == "size";
  }

  lemma CounterTrueAt(lib: Library, how: Spelling, n: int, fuel: nat)
    ensures TrueAt(Counter(lib, how), Holding(n), fuel) <==> fuel > 0 && n < 3
  {
    hide Invoke, Foreign, RunEach, ThisFields, EvalArgs;
    var c := Counter(lib, how);
    var s := Checking(Holding(n));
    var clause := Binary("<", Size(how), IntLit(3));
    SizeEvaluates(lib, how, n, fuel);
    CapClauseHolds(c, n, fuel);
    hide CapClause, Size;
    assert Eval(c, IntLit(3), s, fuel) == Ok(Result(Num(3), Elsewhere), s);
    assert Eval(c, clause, s, fuel) == if fuel == 0 then OutOfFuel else Ok(Result(Num(Truth(n < 3)), Elsewhere), s);
    assert Eval(c, c.invar, s, fuel) == if fuel == 0 then OutOfFuel else Ok(Result(Num(Truth(n < 3)), Elsewhere), s);
  }

  lemma CounterHoldsIff(lib: Library, how: Spelling, n: int)
    ensures Holds(Counter(lib, how), Holding(n)) <==> n < 3
  {
    forall fuel: nat ensures TrueAt(Counter(lib, how), Holding(n), fuel) <==> fuel > 0 && n < 3 {
      CounterTrueAt(lib, how, n, fuel);
    }
    assert TrueAt(Counter(lib, how), Holding(n), 1) <==> n < 3;
  }

  lemma CapClauseHolds(c: Class, n: int, fuel: nat)
    requires !IsGetter(c, "cap")
    ensures Eval(c, CapClause, Checking(Holding(n)), fuel) == Ok(Result(Num(1), Elsewhere), Checking(Holding(n)))
  {
    var s := Checking(Holding(n));
    FieldEvaluates(c, "cap", s, fuel);
    assert Eval(c, IntLit(1), s, fuel) == Ok(Result(Num(1), Elsewhere), s);
  }

  /** However the invariant asks for `size`, the analysis misses the field it answers with, leaves out
      a check that would have failed, and the invariant is broken unseen. Neither condition admits it. */
  lemma CallsInInvariantDefeatTheAnalysis(lib: Library, how: Spelling, fuel: nat)
    ensures
      var c := Counter(lib, how);
      && !CanBreakIn(c.invar, c.methods["grow"].body) && !Local(c) && (forall own :: !SeesItsFields(c, own))
      && Holds(c, Holding(0)) && !Holds(c, Holding(5))
      && Invoke(c, "grow", [], Checking(Holding(0)), fuel) == Ok(Result(Zero, Elsewhere), Checking(Holding(5)))
  {
    var c := Counter(lib, how);
    CounterHoldsIff(lib, how, 0);
    CounterHoldsIff(lib, how, 5);
    CounterFields(lib, how);
    assert !ChecksExit(c, "grow");
    assert WithField(Holding(0), "n", Num(5)) == Holding(5);
    forall own ensures !SeesItsFields(c, own) {
      if SeesItsFields(c, own) {
        ReadingInvariantIsLocal(c, own);
        assert false;
      }
    }
    assert Bind([], []) == map[];
    assert !ThroughSetter(c, "n", "grow");
    SetNumberRuns(c, "n", 5, State(Holding(0), map[], "grow"), fuel);
  }

  const NClause := Binary(">=", Member(This, "n"), IntLit(0))

  /** The same class whose invariant mentions the field as well: `this.n >= 0` and `size < 3`. */
  function SeenCounter(lib: Library, how: Spelling): Class
  {
    Counter(lib, how).(invar := Binary("&&", NClause, Binary("<", Size(how), IntLit(3))))
  }

  /** Asking for `size` is admitted, in every spelling, once the field it answers with is mentioned. */
  lemma MentionedFieldIsSeen(lib: Library, how: Spelling)
    ensures SeesItsFields(SeenCounter(lib, how), {"size"}) && Local(SeenCounter(lib, how)) && Quiet(SeenCounter(lib, how))
  {
    var c := SeenCounter(lib, how);
    var fields := ThisFields(c.invar);
    assert ThisFields(Member(This, "n")) == {"n"} by { assert ThisFields(This) == {}; }
    assert "n" in ThisFields(NClause);
    assert "n" in fields;
    assert Reads(c, Member(This, "n"), fields, {"size"}) && Reads(c, IntLit(0), fields, {"size"}) && Reads(c, IntLit(3), fields, {"size"});
    assert Reads(c, NClause, fields, {"size"});
    SizeIsRead(c, how, fields);
    assert Reads(c, c.invar, fields, {"size"});
    assert BlockReads(c, Empty, fields, {"size"});
    assert StmtReads(c, c.methods["size"].body.first, fields, {"size"});
    ReadingInvariantIsLocal(c, {"size"});
  }

  lemma SizeIsRead(c: Class, how: Spelling, fields: set<string>)
    requires "size" in c.methods && "size" !in c.closures && (how.Property? ==> "size" in c.getters)
    ensures Reads(c, Size(how), fields, {"size"})
  {
    assert ReadsAll(c, NoExprs, fields, {"size"});
    match how
    case Qualified => assert IsSelfCall(c, Member(This, "size")) && MethodOf(Member(This, "size")) == "size";
    case Bare => assert IsSelfCall(c, Identifier("size")) && MethodOf(Identifier("size")) == "size";
    case Property =>
  }

  // ---- a call in the middle of a method ----

  const PauseCall := CallExpr(Member(This, "pause"), NoExprs)

  /** `work()` sets `n` to 5, calls `pause()`, which does nothing, and sets `n` to 0; the invariant is `this.n < 3`. */
  function Worker(lib: Library): Class
  {
    Class(
      map["work" := Method([], Then(Assign(Member(This, "n"), IntLit(5)),
                               Then(ExprStmt(PauseCall),
                               Then(Assign(Member(This, "n"), IntLit(0)), Empty)))),
          "pause" := Method([], Empty)],
      {"work", "pause"}, {}, {},
      Binary("<", Member(This, "n"), IntLit(3)),
      lib)
  }

  lemma WorkerHoldsIff(lib: Library, n: int, fuel: nat)
    ensures Holds(Worker(lib), Holding(n)) <==> n < 3
    ensures TrueAt(Worker(lib), Holding(n), fuel) <==> n < 3
  {
    forall k: nat ensures TrueAt(Worker(lib), Holding(n), k) <==> n < 3 {
      var s := Checking(Holding(n));
      FieldEvaluates(Worker(lib), "n", s, k);
      assert Eval(Worker(lib), IntLit(3), s, k) == Ok(Result(Num(3), Elsewhere), s);
    }
    assert TrueAt(Worker(lib), Holding(n), fuel) <==> n < 3;
  }

  lemma WorkerFields(lib: Library)
    ensures
      var c := Worker(lib);
      ThisFields(c.invar) == {"n"} && CanBreakIn(c.invar, c.methods["work"].body) && !CanBreakIn(c.invar, c.methods["pause"].body)
  {
    var c := Worker(lib);
    assert ThisFields(This) == {} && ThisFields(IntLit(3)) == {};
    assert ThisFields(Member(This, "n")) == {"n"};
    assert StmtAssigns(c.methods["work"].body.first, {"n"});
  }

  lemma PauseDoesNothing(lib: Library, s: State, fuel: nat)
    ensures Invoke(Worker(lib), "pause", [], s, fuel) == Ok(Result(Zero, Elsewhere), s)
    ensures fuel > 0 ==> Exec(Worker(lib), ExprStmt(PauseCall), s, fuel) == Ok(Next, s)
  {
    var c := Worker(lib);
    WorkerFields(lib);
    if fuel > 0 { PauseDoesNothing(lib, s, fuel - 1); }
    assert !ChecksExit(c, "pause");
    var inner := State(s.self, Bind([], []), "pause");
    assert ExecBlock(c, Empty, inner, fuel) == Ok(Next, inner);
    assert Invoke(c, "pause", [], s, fuel) == Ok(Result(Zero, Elsewhere), s);
    if fuel > 0 {
      assert EvalArgs(c, NoExprs, s, fuel) == Ok([], s) && ValuesNow(s, []) == [];
      assert Eval(c, PauseCall, s, fuel) == Ok(Result(Zero, Elsewhere), s);
    }
  }

  /** A method that breaks the invariant and mends it enters the method it calls in between with
      the invariant false, and that call returns with it false: no exit stands between. */
  lemma InnerEntryMayBeFalse(lib: Library, fuel: nat)
    requires fuel > 0
    ensures
      var c := Worker(lib);
      var start, broken := State(Holding(0), map[], "work"), State(Holding(5), map[], "work");
      && Holds(c, start.self) && !Holds(c, broken.self)
      && Exec(c, c.methods["work"].body.first, start, fuel) == Ok(Next, broken)
      && CanBreakIn(c.invar, c.methods["work"].body) && !CanBreakIn(c.invar, c.methods["pause"].body)
      && Invoke(c, "pause", [], broken, fuel) == Ok(Result(Zero, Elsewhere), broken)
      && Invoke(c, "work", [], start, fuel) == Ok(Result(Zero, Elsewhere), start)
  {
    var c := Worker(lib);
    var start, broken := State(Holding(0), map[], "work"), State(Holding(5), map[], "work");
    WorkerHoldsIff(lib, 0, fuel - 1);
    WorkerHoldsIff(lib, 5, fuel - 1);
    WorkerFields(lib);
    PauseDoesNothing(lib, broken, fuel);
    assert WithField(Holding(0), "n", Num(5)) == Holding(5) && WithField(Holding(5), "n", Num(0)) == Holding(0);
    assert SetterOf("n")[0] == 'n';
    SetNumberRuns(c, "n", 5, start, fuel);
    SetNumberRuns(c, "n", 0, broken, fuel);
    WorkRuns(c, c.methods["work"].body, start, broken, fuel);
    assert Bind([], []) == map[];
    var check := Checking(Holding(0));
    FieldEvaluates(c, "n", check, fuel - 1);
    assert Eval(c, IntLit(3), check, fuel - 1) == Ok(Result(Num(3), Elsewhere), check);
    assert Eval(c, c.invar, check, fuel - 1).Ok? && Eval(c, c.invar, check, fuel - 1).state == check;
  }

  lemma WorkRuns(c: Class, body: Block, start: State, broken: State, fuel: nat)
    requires body.Then? && body.rest.Then?
    requires Exec(c, body.first, start, fuel) == Ok(Next, broken) && Exec(c, body.rest.first, broken, fuel) == Ok(Next, broken)
    requires ExecBlock(c, body.rest.rest, broken, fuel) == Ok(Next, start)
    ensures ExecBlock(c, body, start, fuel) == Ok(Next, start)
  {
    assert ExecBlock(c, body.rest, broken, fuel) == Ok(Next, start);
  }

  // ---- a method of a subclass ----

  /** The class declares `get()` and the invariant `this.count >= 0`; a subclass adds `down(n)`, which takes `n` off. */
  function Stepper(lib: Library): Class
  {
    Class(
      map["get" := Method([], Then(Return(Member(This, "count")), Empty)),
          "down" := Method(["n"], Then(Assign(Member(This, "count"), Down), Empty))],
      {"get"}, {}, {},
      Binary(">=", Member(This, "count"), IntLit(0)),
      lib)
  }

  const Down := Binary("-", Member(This, "count"), Identifier("n"))

  function Counting(n: int): Value { Value(0, map[Part("count") := Num(n)]) }

  lemma StepperHoldsIff(lib: Library, n: int)
    ensures Holds(Stepper(lib), Counting(n)) <==> n >= 0
  {
    var c := Stepper(lib);
    forall fuel: nat ensures TrueAt(c, Counting(n), fuel) <==> n >= 0 {
      var s := Checking(Counting(n));
      FieldEvaluates(c, "count", s, fuel);
      assert Eval(c, IntLit(0), s, fuel) == Ok(Result(Num(0), Elsewhere), s);
    }
    assert TrueAt(c, Counting(n), 0) <==> n >= 0;
  }

  lemma DownRuns(lib: Library, n: int, k: int, fuel: nat)
    ensures Invoke(Stepper(lib), "down", [Num(k)], Checking(Counting(n)), fuel) == Ok(Result(Zero, Elsewhere), Checking(Counting(n - k)))
  {
    var c := Stepper(lib);
    var s := State(Counting(n), map["n" := Num(k)], "down");
    assert Bind(["n"], [Num(k)]) == map["n" := Num(k)] by {
      assert ["n"][1..] == [] && [Num(k)][1..] == [];
      assert Bind([], []) == map[];
    }
    FieldEvaluates(c, "count", s, fuel);
    assert Eval(c, Identifier("n"), s, fuel) == Ok(Result(Num(k), OfLocal("n", [])), s);
    assert Eval(c, Down, s, fuel) == Ok(Result(Num(n - k), Elsewhere), s);
    assert !ThroughSetter(c, "count", "down");
    SetsField(c, "count", Down, Num(n - k), s, fuel);
    assert WithField(Counting(n), "count", Num(n - k)) == Counting(n - k);
    assert !ChecksExit(c, "down");
  }

  /** The analysis says that `down` can break the invariant, but no exit of a subclass's method checks
      an inherited one: after `down(10)` the call of `get()` is entered with the invariant false. */
  lemma InheritedInvariantGoesUnchecked(lib: Library, fuel: nat)
    ensures
      var c := Stepper(lib);
      var calls := [Request("down", [Num(10)], fuel), Request("get", [], fuel)];
      && CanBreakIn(c.invar, c.methods["down"].body) && !TameClass(c)
      && Entered(c, Counting(0), calls) == [Counting(0), Counting(-10)]
      && Holds(c, Counting(0)) && !Holds(c, Counting(-10))
  {
    var c := Stepper(lib);
    var calls := [Request("down", [Num(10)], fuel), Request("get", [], fuel)];
    StepperHoldsIff(lib, 0);
    StepperHoldsIff(lib, -10);
    DownRuns(lib, 0, 10, fuel);
    assert ThisFields(This) == {} && ThisFields(IntLit(0)) == {};
    assert ThisFields(Member(This, "count")) == {"count"} && ThisFields(c.invar) == {"count"};
    assert StmtAssigns(c.methods["down"].body.first, {"count"});
    assert BlockAssigns(c.methods["down"].body, {"count"});
    assert !ChecksExit(c, "down") && !Cleared(c, c.methods["down"].body);
    assert calls[1..] == [calls[1]] && calls[1..][1..] == [];
    OneEntry(c, Counting(-10), calls[1]);
    assert Entered(c, Counting(0), calls) == [Counting(0)] + Entered(c, Counting(-10), calls[1..]);
  }

  lemma OneEntry(c: Class, self: Value, call: Request)
    requires call.m in c.methods
    ensures Entered(c, self, [call]) == [self]
  {
    assert [call][1..] == [];
    hide Invoke;
  }

  // ---- a field written inside an expression ----

  /** A statement that is an expression with `this.f = k;` inside: in a lambda handed on, or in an arm of a `match`. */
  function SetInside(f: string, k: int): Block { Then(ExprStmt(Bodied(IntLit(0), [], SetNumber(f, k))), Empty) }

  /** The analysis does not look inside: the assignment is run and the check is left out. */
  lemma SetInsideRuns(c: Class, f: string, k: int, s: State, fuel: nat)
    requires c.lib.runs(SetNumber(f, k), Num(0)) == [[]] && !ThroughSetter(c, f, s.within) && fuel > 0
    ensures !BlockAssigns(SetInside(f, k), ThisFields(c.invar))
    ensures f in ThisFields(c.invar) ==> !TameBlock(c, SetInside(f, k), ThisFields(c.invar))
    ensures ExecBlock(c, SetInside(f, k), s, fuel) == Ok(Next, s.(self := WithField(s.self, f, Num(k))))
  {
    var e := Bodied(IntLit(0), [], SetNumber(f, k));
    var after := s.(self := WithField(s.self, f, Num(k)));
    OneCallIsNoAssignment(e, ThisFields(c.invar));
    if f in ThisFields(c.invar) {
      assert f in ThisFields(Member(This, f));
      assert StmtAssigns(SetNumber(f, k).first, ThisFields(c.invar));
      assert !Tame(c, e, ThisFields(c.invar));
      assert !TameStmt(c, ExprStmt(e), ThisFields(c.invar));
    }
    SetNumberRuns(c, f, k, s, fuel - 1);
    assert Bind([], []) == map[] && s.locals + map[] == s.locals;
    assert RunEach(c, [], SetNumber(f, k), [[]], s, fuel - 1) == Ok(Result(Zero, Elsewhere), after);
    assert Eval(c, IntLit(0), s, fuel) == Ok(Result(Num(0), Elsewhere), s);
    assert Eval(c, e, s, fuel) == Ok(Result(Zero, Elsewhere), after);
    OneCall(c, e, s, fuel);
  }

  // ---- a field written behind a call ----

  /** `this.f.m(k);` */
  function CallOnField(f: string, m: string, k: int): Block
  {
    Then(ExprStmt(CallExpr(Member(Member(This, f), m), MoreExprs(IntLit(k), NoExprs))), Empty)
  }

  /** `g(this.f);`, where `g` is a closure, held in a local or a field. */
  function CallPassing(g: string, f: string): Block
  {
    Then(ExprStmt(CallExpr(Identifier(g), MoreExprs(Member(This, f), NoExprs))), Empty)
  }

  /** `g(this);` */
  function CallHandingOn(g: string): Block
  {
    Then(ExprStmt(CallExpr(Identifier(g), MoreExprs(This, NoExprs))), Empty)
  }

  lemma OneCallIsNoAssignment(e: Expr, fields: set<string>)
    ensures !BlockAssigns(Then(ExprStmt(e), Empty), fields)
  {
    assert !StmtAssigns(ExprStmt(e), fields) && !BlockAssigns(Empty, fields);
  }

  lemma OneArgument(c: Class, e: Expr, s: State, fuel: nat)
    requires Eval(c, e, s, fuel).Ok? && Eval(c, e, s, fuel).state == s
    ensures EvalArgs(c, MoreExprs(e, NoExprs), s, fuel) == Ok([Eval(c, e, s, fuel).value], s) && Arity(MoreExprs(e, NoExprs)) == 1
  {
    var r := Eval(c, e, s, fuel).value;
    assert EvalArgs(c, NoExprs, s, fuel) == Ok([], s);
    assert [r] + [] == [r];
    assert Arity(NoExprs) == 0;
  }

  lemma OneCall(c: Class, e: Expr, s: State, fuel: nat)
    requires Eval(c, e, s, fuel).Ok?
    ensures ExecBlock(c, Then(ExprStmt(e), Empty), s, fuel) == Ok(Next, Eval(c, e, s, fuel).state)
  {
    var after := Eval(c, e, s, fuel).state;
    assert Exec(c, ExprStmt(e), s, fuel) == Ok(Next, after);
    assert ExecBlock(c, Empty, after, fuel) == Ok(Next, after);
  }

  /** The state two operands leave behind. */
  lemma TwoOperands(lib: Library, name: Callee, a: Result, b: Result, s: State)
    ensures
      var vs := [Now(s, a), Now(s, b)];
      var s1 := if lib.mayWrite(name, 0) then Write(s, a.place, lib.effect(name, vs, 0)) else s;
      && Foreign(lib, name, [a, b], s).Ok?
      && Foreign(lib, name, [a, b], s).state == (if lib.mayWrite(name, 1) then Write(s1, b.place, lib.effect(name, vs, 1)) else s1)
  {
    var rs := [a, b];
    var vs := [Now(s, a), Now(s, b)];
    assert ValuesNow(s, rs) == vs;
    assert Written(lib, name, rs, vs, s, 0) == s;
    assert rs[0] == a && rs[1] == b;
    assert Written(lib, name, rs, vs, s, 1) == if lib.mayWrite(name, 0) then Write(s, a.place, lib.effect(name, vs, 0)) else s;
  }

  /** What a method called on a field leaves in it. */
  ghost function Left(c: Class, f: string, m: string, k: int, self: Value): Value
  {
    c.lib.effect(Callee(m, 1), [Child(self, Part(f)), Num(k)], 0)
  }

  lemma CallOnFieldRuns(c: Class, f: string, m: string, k: int, s: State, fuel: nat)
    requires !IsGetter(c, f) && c.lib.mayWrite(Callee(m, 1), 0)
    ensures ExecBlock(c, CallOnField(f, m, k), s, fuel) == Ok(Next, s.(self := WithField(s.self, f, Left(c, f, m, k, s.self))))
  {
    var callee := Member(Member(This, f), m);
    var args := MoreExprs(IntLit(k), NoExprs);
    FieldEvaluates(c, f, s, fuel);
    OneArgument(c, IntLit(k), s, fuel);
    var a := Result(Child(s.self, Part(f)), Own([Part(f)]));
    var b := Result(Num(k), Elsewhere);
    var w := Left(c, f, m, k, s.self);
    OneStep(s.self, Part(f), w);
    assert Now(s, a) == Child(s.self, Part(f));
    TwoOperands(c.lib, Callee(m, 1), a, b, s);
    assert [a] + [b] == [a, b];
    assert ReceiverOf(callee) == Member(This, f) && CalleeOf(callee, args) == Callee(m, 1);
    assert Eval(c, CallExpr(callee, args), s, fuel) == Foreign(c.lib, Callee(m, 1), [a, b], s);
    OneCall(c, CallExpr(callee, args), s, fuel);
  }

  /** `this.f.m(k);` on a mentioned field has its check left out; it keeps the invariant exactly
      when nothing `m` leaves in the field makes it false. */
  lemma CallOnFieldKeepsIff(c: Class, f: string, m: string, k: int)
    requires f in ThisFields(c.invar) && !IsGetter(c, f) && c.lib.mayWrite(Callee(m, 1), 0)
    ensures !CanBreakIn(c.invar, CallOnField(f, m, k)) && !TameBlock(c, CallOnField(f, m, k), ThisFields(c.invar))
    ensures BodyKeeps(c, CallOnField(f, m, k)) <==>
      forall self: Value :: Holds(c, self) ==> Holds(c, WithField(self, f, Left(c, f, m, k, self)))
  {
    var body := CallOnField(f, m, k);
    OneCallIsNoAssignment(CallExpr(Member(Member(This, f), m), MoreExprs(IntLit(k), NoExprs)), ThisFields(c.invar));
    NotTame(c, f, m, k);
    forall s: State, fuel: nat ensures ExecBlock(c, body, s, fuel) == Ok(Next, s.(self := WithField(s.self, f, Left(c, f, m, k, s.self)))) {
      CallOnFieldRuns(c, f, m, k, s, fuel);
    }
    if BodyKeeps(c, body) {
      forall self: Value | Holds(c, self) ensures Holds(c, WithField(self, f, Left(c, f, m, k, self))) {
        var s := Checking(self);
        assert Kept(c, ExecBlock(c, body, s, 0));
      }
    }
  }

  lemma NotTame(c: Class, f: string, m: string, k: int)
    requires f in ThisFields(c.invar) && c.lib.mayWrite(Callee(m, 1), 0)
    ensures !TameBlock(c, CallOnField(f, m, k), ThisFields(c.invar))
  {
    var callee := Member(Member(This, f), m);
    var args := MoreExprs(IntLit(k), NoExprs);
    assert Arity(NoExprs) == 0;
    assert CalleeOf(callee, args) == Callee(m, 1) && OperandAt(callee, args, 0) == Member(This, f);
    assert f in ThisFields(Member(This, f));
    assert !WritesClear(c, callee, args, ThisFields(c.invar));
    assert !Tame(c, CallExpr(callee, args), ThisFields(c.invar));
    assert !TameStmt(c, ExprStmt(CallExpr(callee, args)), ThisFields(c.invar));
  }

  /** What a bare name that is called stands for: a local, or a closure in a field. */
  function Named(c: Class, g: string, s: State): Value
  {
    if g in c.closures && g !in s.locals then Child(s.self, Part(g)) else Lookup(s.locals, g)
  }

  lemma NamedEvaluates(c: Class, g: string, s: State, fuel: nat)
    ensures
      var r := Eval(c, Identifier(g), s, fuel);
      r.Ok? && r.state == s && r.value.v == Named(c, g, s) && Now(s, r.value) == Named(c, g, s)
  {
    OneStep(s.self, Part(g), Zero);
  }

  /** Passing a mentioned field to a function that writes its parameter replaces the field, unseen. */
  lemma CallPassingRuns(c: Class, g: string, f: string, s: State, fuel: nat)
    requires !IsSelfCall(c, Identifier(g)) && !IsGetter(c, f) && c.lib.mayWrite(Callee(g, 1), 1) && !c.lib.mayWrite(Callee(g, 1), 0)
    ensures !BlockAssigns(CallPassing(g, f), ThisFields(c.invar))
    ensures
      var w := c.lib.effect(Callee(g, 1), [Named(c, g, s), Child(s.self, Part(f))], 1);
      ExecBlock(c, CallPassing(g, f), s, fuel) == Ok(Next, s.(self := WithField(s.self, f, w)))
  {
    var args := MoreExprs(Member(This, f), NoExprs);
    FieldEvaluates(c, f, s, fuel);
    OneArgument(c, Member(This, f), s, fuel);
    var a := Eval(c, Identifier(g), s, fuel).value;
    var b := Result(Child(s.self, Part(f)), Own([Part(f)]));
    NamedEvaluates(c, g, s, fuel);
    var w := c.lib.effect(Callee(g, 1), [Named(c, g, s), Child(s.self, Part(f))], 1);
    OneStep(s.self, Part(f), w);
    assert Now(s, b) == Child(s.self, Part(f));
    TwoOperands(c.lib, Callee(g, 1), a, b, s);
    assert [a] + [b] == [a, b];
    assert CalleeOf(Identifier(g), args) == Callee(g, 1);
    assert Eval(c, CallExpr(Identifier(g), args), s, fuel) == Foreign(c.lib, Callee(g, 1), [a, b], s);
    OneCall(c, CallExpr(Identifier(g), args), s, fuel);
    OneCallIsNoAssignment(CallExpr(Identifier(g), args), ThisFields(c.invar));
  }

  /** Handing the object itself on replaces all of it. */
  lemma CallHandingOnRuns(c: Class, g: string, s: State, fuel: nat)
    requires !IsSelfCall(c, Identifier(g)) && c.lib.mayWrite(Callee(g, 1), 1) && !c.lib.mayWrite(Callee(g, 1), 0)
    ensures !BlockAssigns(CallHandingOn(g), ThisFields(c.invar))
    ensures ExecBlock(c, CallHandingOn(g), s, fuel) == Ok(Next, s.(self := c.lib.effect(Callee(g, 1), [Named(c, g, s), s.self], 1)))
  {
    var args := MoreExprs(This, NoExprs);
    var a := Eval(c, Identifier(g), s, fuel).value;
    var b := Result(s.self, Own([]));
    assert Eval(c, This, s, fuel) == Ok(b, s);
    OneArgument(c, This, s, fuel);
    NamedEvaluates(c, g, s, fuel);
    assert Now(s, b) == s.self;
    TwoOperands(c.lib, Callee(g, 1), a, b, s);
    assert [a] + [b] == [a, b];
    assert CalleeOf(Identifier(g), args) == Callee(g, 1);
    assert Eval(c, CallExpr(Identifier(g), args), s, fuel) == Foreign(c.lib, Callee(g, 1), [a, b], s);
    OneCall(c, CallExpr(Identifier(g), args), s, fuel);
    OneCallIsNoAssignment(CallExpr(Identifier(g), args), ThisFields(c.invar));
  }

  // ---- the input: `invariant this.p.x >= 0` and `this.p.setX(-1);` ----

  function RunsOnce(b: Block, subject: Value): seq<seq<Value>> { [[]] }

  predicate SetXWrites(name: Callee, k: nat) { name == Callee("setX", 1) && k == 0 }
  function SetXAnswers(name: Callee, vs: seq<Value>): Answer { Fresh(Zero) }
  function SetXLeaves(name: Callee, vs: seq<Value>, k: nat): Value
  {
    if SetXWrites(name, k) && |vs| == 2 then WithField(vs[0], "x", vs[1]) else Zero
  }

  const PointX := Member(Member(This, "p"), "x")
  const Pinned := Class(
    map["spoil" := Method([], CallOnField("p", "setX", -1))], {"spoil"}, {}, {},
    Binary(">=", PointX, IntLit(0)),
    Library(SetXWrites, SetXAnswers, SetXLeaves, RunsOnce))

  function AtX(x: int): Value { Value(0, map[Part("p") := Value(0, map[Part("x") := Num(x)])]) }

  lemma PinnedHoldsIff(x: int)
    ensures Holds(Pinned, AtX(x)) <==> x >= 0
  {
    forall fuel: nat ensures TrueAt(Pinned, AtX(x), fuel) <==> x >= 0 {
      var s := Checking(AtX(x));
      FieldEvaluates(Pinned, "p", s, fuel);
      var p := Eval(Pinned, Member(This, "p"), s, fuel).value;
      OneStep(s.self, Part("p"), Zero);
      assert Now(s, p) == Value(0, map[Part("x") := Num(x)]);
      assert Eval(Pinned, PointX, s, fuel).Ok? && Eval(Pinned, PointX, s, fuel).value.v == Num(x) && Eval(Pinned, PointX, s, fuel).state == s;
      assert Eval(Pinned, IntLit(0), s, fuel) == Ok(Result(Num(0), Elsewhere), s);
    }
    assert TrueAt(Pinned, AtX(x), 0) <==> x >= 0;
  }

  /** The check is left out, the method returns, and the invariant is false. */
  lemma WritingCallDefeatsTheAnalysis(fuel: nat)
    ensures !CanBreakIn(Pinned.invar, Pinned.methods["spoil"].body)
    ensures Holds(Pinned, AtX(0)) && !Holds(Pinned, AtX(-1))
    ensures Invoke(Pinned, "spoil", [], Checking(AtX(0)), fuel) == Ok(Result(Zero, Elsewhere), Checking(AtX(-1)))
  {
    PinnedHoldsIff(0);
    PinnedHoldsIff(-1);
    assert "p" in ThisFields(Member(This, "p"));
    assert "p" in ThisFields(PointX);
    CallOnFieldKeepsIff(Pinned, "p", "setX", -1);
    assert Bind([], []) == map[];
    CallOnFieldRuns(Pinned, "p", "setX", -1, State(AtX(0), map[], "spoil"), fuel);
    assert !ChecksExit(Pinned, "spoil");
    var left := Left(Pinned, "p", "setX", -1, AtX(0));
    assert left == Value(0, map[Part("x") := Num(-1)]);
    assert WithField(AtX(0), "p", left) == AtX(-1);
  }
}
