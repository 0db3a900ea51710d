/** The generated hooks compute what they should, and what they compute is lawful. */
module KeyHookLaws {
  import opened KeyHooks
  import opened Options
  import opened Sequences

  // ---- the generated code computes the meaning ----

  lemma {:induction false} IndexOfField(fields: seq<FieldDecl>, i: nat)
    requires i < |fields|
    requires forall j, k :: 0 <= j < k < |fields| ==> fields[j].name != fields[k].name
    ensures FieldIndex(fields, fields[i].name) == i
  {
    if i > 0 {
      assert fields[0].name != fields[i].name;
      IndexOfField(fields[1..], i - 1);
    }
  }

  /** Fields `i` of two values of the same value type. */
  ghost predicate Pair(p: Program, t: TypeRef, a: Value, b: Value)
  {
    WellFormed(p) && KeyKind(p, t) == Nested && WellTyped(p, t, a) && WellTyped(p, t, b)
  }

  lemma FieldPair(p: Program, t: TypeRef, a: Value, b: Value, i: nat)
    requires Pair(p, t, a, b) && i < |a.fields|
    ensures
      var f := p.classes[t.name][i];
      && WellTyped(p, f.typ, a.fields[i]) && WellTyped(p, f.typ, b.fields[i])
      && Load(p, a, f.name) == Some(a.fields[i]) && Load(p, b, f.name) == Some(b.fields[i])
      && Eval(p, a, [b], OfThis(f)) == Some(a.fields[i]) && Eval(p, a, [b], OfOther(f)) == Some(b.fields[i])
      && Eval(p, a, [], OfThis(f)) == Some(a.fields[i])
  {
    IndexOfField(p.classes[t.name], i);
  }

  /** Equal in the key parts of the first `n` fields. */
  ghost predicate SameUpTo(p: Program, t: TypeRef, a: Value, b: Value, n: nat)
    requires Pair(p, t, a, b) && n <= |a.fields|
  {
    forall i :: 0 <= i < n ==> Same(p, p.classes[t.name][i].typ, a.fields[i], b.fields[i])
  }

  lemma {:induction false} EqualsExprMeans(p: Program, t: TypeRef, a: Value, b: Value, n: nat)
    requires Pair(p, t, a, b) && n <= |a.fields|
    ensures
      var e := EqualsExpr(p, p.classes[t.name], n);
      if e.None? then SameUpTo(p, t, a, b, n) else Eval(p, a, [b], e.value) == Some(Bool(SameUpTo(p, t, a, b, n)))
    decreases a, n
  {
    if n > 0 {
      EqualsExprMeans(p, t, a, b, n - 1);
      FieldEqualsMeans(p, t, a, b, n - 1);
      assert SameUpTo(p, t, a, b, n) <==>
        SameUpTo(p, t, a, b, n - 1) && Same(p, p.classes[t.name][n - 1].typ, a.fields[n - 1], b.fields[n - 1]);
    }
  }

  lemma {:induction false} FieldEqualsMeans(p: Program, t: TypeRef, a: Value, b: Value, i: nat)
    requires Pair(p, t, a, b) && i < |a.fields|
    ensures
      var f := p.classes[t.name][i];
      WellTyped(p, f.typ, a.fields[i]) && WellTyped(p, f.typ, b.fields[i]) &&
      (KeyKind(p, f.typ) != NoPart ==>
        Eval(p, a, [b], FieldEquals(p, f)) == Some(Bool(Same(p, f.typ, a.fields[i], b.fields[i]))))
    decreases a, i
  {
    var f := p.classes[t.name][i];
    FieldPair(p, t, a, b, i);
    if KeyKind(p, f.typ) == Nested || KeyKind(p, f.typ) == Text {
      EqualsMeans(p, f.typ, a.fields[i], b.fields[i]);
    }
  }

  /** The generated `equalsKey` answers whether the two values agree in every part of the key. */
  lemma {:induction false} EqualsMeans(p: Program, t: TypeRef, a: Value, b: Value)
    requires WellFormed(p) && WellTyped(p, t, a) && WellTyped(p, t, b)
    requires KeyKind(p, t) == Nested || KeyKind(p, t) == Text
    ensures Invoke(p, a, "equalsKey", [b]) == Some(Bool(Same(p, t, a, b)))
    decreases a
  {
    if KeyKind(p, t) == Nested {
      EqualsExprMeans(p, t, a, b, |a.fields|);
      var body := EqualsBody(p, p.classes[t.name]);
      ReturnRuns(p, a, [b], body[0].e);
      assert BodyOf(p, a.cls, "equalsKey") == Some(body);
    }
  }

  lemma ReturnRuns(p: Program, self: Value, args: seq<Value>, e: Expr)
    ensures Exec(p, self, args, [Return(e)]) == Eval(p, self, args, e)
  {
  }

  // ---- hash ----

  lemma {:induction false} HashExprMeans(p: Program, t: TypeRef, a: Value, n: nat)
    requires Pair(p, t, a, a) && n <= |a.fields|
    ensures Eval(p, a, [], HashExpr(p, p.classes[t.name], n)) == Some(Num(HashUpTo(p, t, a, n)))
    decreases a, n
  {
    SmallWraps();
    hide Wrap, FieldHash;
    LongRuns(p, a, 17);
    if n > 0 {
      var f := p.classes[t.name][n - 1];
      HashExprMeans(p, t, a, n - 1);
      FieldHashMeans(p, t, a, n - 1);
      if KeyKind(p, f.typ) != NoPart {
        MixRuns(p, a, HashExpr(p, p.classes[t.name], n - 1), FieldHash(p, f), HashUpTo(p, t, a, n - 1), HashOf(p, f.typ, a.fields[n - 1]));
      }
    }
  }

  lemma LongRuns(p: Program, self: Value, n: int)
    ensures Eval(p, self, [], Long(IntLit(n))) == Some(Num(Wrap(n)))
  {
    assert Eval(p, self, [], IntLit(n)) == Some(Num(n));
  }

  lemma SmallWraps()
    ensures Wrap(0) == 0 && Wrap(1) == 1 && Wrap(17) == 17 && Wrap(31) == 31
  {
  }

  /** One step of the mix. */
  lemma MixRuns(p: Program, self: Value, acc: Expr, contrib: Expr, x: int, y: int)
    requires Eval(p, self, [], acc) == Some(Num(x)) && Eval(p, self, [], contrib) == Some(Num(y))
    ensures Eval(p, self, [], Binary(AddOp, Binary(MulOp, acc, Long(IntLit(31))), contrib)) == Some(Num(Wrap(Wrap(x * 31) + y)))
  {
    SmallWraps();
    hide Wrap;
    LongRuns(p, self, 31);
    assert Eval(p, self, [], Binary(MulOp, acc, Long(IntLit(31)))) == Some(Num(Wrap(x * 31)));
  }

  lemma {:induction false} FieldHashMeans(p: Program, t: TypeRef, a: Value, i: nat)
    requires Pair(p, t, a, a) && i < |a.fields|
    ensures
      var f := p.classes[t.name][i];
      WellTyped(p, f.typ, a.fields[i]) &&
      (KeyKind(p, f.typ) != NoPart ==>
        Eval(p, a, [], FieldHash(p, f)) == Some(Num(HashOf(p, f.typ, a.fields[i]))))
    decreases a, i
  {
    var f := p.classes[t.name][i];
    FieldPair(p, t, a, a, i);
    SmallWraps();
    hide Wrap;
    if KeyKind(p, f.typ) == Nested || KeyKind(p, f.typ) == Text {
      HashMeans(p, f.typ, a.fields[i]);
    } else if KeyKind(p, f.typ) == Scalar && f.typ.name == "boolean" {
      assert f.typ.name in SCALARS && f.typ.name !in p.enums;
      assert a.fields[i].Bool?;
      LongRuns(p, a, 0);
      LongRuns(p, a, 1);
    }
  }

  /** The generated `hash` answers with the 31-fold mix of the key parts. */
  lemma {:induction false} HashMeans(p: Program, t: TypeRef, a: Value)
    requires WellFormed(p) && WellTyped(p, t, a)
    requires KeyKind(p, t) == Nested || KeyKind(p, t) == Text
    ensures Invoke(p, a, "hash", []) == Some(Num(HashOf(p, t, a)))
    decreases a
  {
    if KeyKind(p, t) == Nested {
      HashExprMeans(p, t, a, |a.fields|);
      var body := HashBody(p, p.classes[t.name]);
      ReturnRuns(p, a, [], body[0].e);
      assert BodyOf(p, a.cls, "hash") == Some(body);
    }
  }

  // ---- compareTo ----

  /** The statements for the fields from `i` on. */
  ghost function OrderTail(p: Program, fields: seq<FieldDecl>, i: nat): seq<Stmt>
    requires i <= |fields|
    decreases |fields| - i
  {
    if i == |fields| then [] else FieldOrder(p, fields[i]) + OrderTail(p, fields, i + 1)
  }

  lemma {:induction false} OrderSplits(p: Program, fields: seq<FieldDecl>, i: nat)
    requires i <= |fields|
    ensures OrderStmts(p, fields, |fields|) == OrderStmts(p, fields, i) + OrderTail(p, fields, i)
    decreases |fields| - i
  {
    hide FieldOrder;
    if i < |fields| {
      OrderSplits(p, fields, i + 1);
      Regroup(OrderStmts(p, fields, i), FieldOrder(p, fields[i]), OrderTail(p, fields, i + 1));
    }
  }

  /** Running one test-and-return: it returns, or the rest runs. */
  lemma IfRuns(p: Program, self: Value, args: seq<Value>, cond: Expr, result: Expr, rest: seq<Stmt>)
    requires Eval(p, self, args, cond).Some? && Eval(p, self, args, cond).value.Bool?
    ensures Exec(p, self, args, [If(cond, result)] + rest) ==
      if Eval(p, self, args, cond).value.b then Eval(p, self, args, result) else Exec(p, self, args, rest)
  {
    assert ([If(cond, result)] + rest)[1..] == rest;
  }

  /** Two tests by `<` and `>` order two numbers. */
  lemma TwoTestsRun(p: Program, self: Value, args: seq<Value>, l: Expr, r: Expr, x: int, y: int, rest: seq<Stmt>)
    requires Eval(p, self, args, l) == Some(Num(x)) && Eval(p, self, args, r) == Some(Num(y))
    ensures
      var stmts := [If(Binary(LtOp, l, r), IntLit(-1)), If(Binary(GtOp, l, r), IntLit(1))];
      Exec(p, self, args, stmts + rest) == if Sign(x, y) != 0 then Some(Num(Sign(x, y))) else Exec(p, self, args, rest)
  {
    var lt, gt := If(Binary(LtOp, l, r), IntLit(-1)), If(Binary(GtOp, l, r), IntLit(1));
    IfRuns(p, self, args, lt.cond, IntLit(-1), [gt] + rest);
    IfRuns(p, self, args, gt.cond, IntLit(1), rest);
    assert [lt, gt] + rest == [lt] + ([gt] + rest);
  }

  /** A test through a hook of the field returns what the hook answers, unless that is 0. */
  lemma CallTestRuns(p: Program, a: Value, b: Value, f: FieldDecl, n: int, rest: seq<Stmt>)
    requires Load(p, a, f.name).Some? && Load(p, b, f.name).Some?
    requires Invoke(p, Load(p, a, f.name).value, "compareTo", [Load(p, b, f.name).value]) == Some(Num(n))
    ensures
      var call := Call(OfThis(f), "compareTo", [OfOther(f)]);
      Exec(p, a, [b], [If(Binary(NeOp, call, IntLit(0)), call)] + rest) == if n != 0 then Some(Num(n)) else Exec(p, a, [b], rest)
  {
    var call := Call(OfThis(f), "compareTo", [OfOther(f)]);
    assert Eval(p, a, [b], OfOther(f)) == Some(Load(p, b, f.name).value);
    assert Eval(p, a, [b], call) == Some(Num(n));
    IfRuns(p, a, [b], Binary(NeOp, call, IntLit(0)), call, rest);
  }

  /** The statements of one field decide, or leave the decision to the rest. */
  lemma {:induction false} FieldOrderMeans(p: Program, t: TypeRef, a: Value, b: Value, i: nat, rest: seq<Stmt>)
    requires Pair(p, t, a, b) && i < |a.fields|
    ensures
      var f := p.classes[t.name][i];
      && WellTyped(p, f.typ, a.fields[i]) && WellTyped(p, f.typ, b.fields[i])
      && var c := if Ordered(p, f.typ) then OrderOf(p, f.typ, a.fields[i], b.fields[i]) else 0;
         Exec(p, a, [b], FieldOrder(p, f) + rest) == if c != 0 then Some(Num(c)) else Exec(p, a, [b], rest)
    decreases a, 0
  {
    var f := p.classes[t.name][i];
    FieldPair(p, t, a, b, i);
    if !Ordered(p, f.typ) {
      assert FieldOrder(p, f) + rest == rest;
    } else if KeyKind(p, f.typ) == Scalar {
      if f.typ.name in NUMERIC {
        TwoTestsRun(p, a, [b], OfThis(f), OfOther(f), a.fields[i].n, b.fields[i].n, rest);
      } else {
        TwoTestsRun(p, a, [b], Cast("int", OfThis(f)), Cast("int", OfOther(f)), a.fields[i].n, b.fields[i].n, rest);
      }
    } else {
      CompareMeans(p, f.typ, a.fields[i], b.fields[i]);
      CallTestRuns(p, a, b, f, OrderOf(p, f.typ, a.fields[i], b.fields[i]), rest);
    }
  }

  lemma {:induction false} OrderTailMeans(p: Program, t: TypeRef, a: Value, b: Value, i: nat)
    requires Pair(p, t, a, b) && i <= |a.fields|
    ensures Exec(p, a, [b], OrderTail(p, p.classes[t.name], i) + [Return(IntLit(0))]) == Some(Num(OrderFrom(p, t, a, b, i)))
    decreases a, |a.fields| + 1 - i
  {
    var fields := p.classes[t.name];
    var last := [Return(IntLit(0))];
    if i == |a.fields| {
      assert OrderTail(p, fields, i) + last == last;
      ReturnRuns(p, a, [b], IntLit(0));
    } else {
      OrderTailMeans(p, t, a, b, i + 1);
      FieldOrderMeans(p, t, a, b, i, OrderTail(p, fields, i + 1) + last);
      assert OrderTail(p, fields, i) + last == FieldOrder(p, fields[i]) + (OrderTail(p, fields, i + 1) + last);
    }
  }

  /** The generated `compareTo` answers with the first field that decides. */
  lemma {:induction false} CompareMeans(p: Program, t: TypeRef, a: Value, b: Value)
    requires WellFormed(p) && WellTyped(p, t, a) && WellTyped(p, t, b)
    requires KeyKind(p, t) == Nested || KeyKind(p, t) == Text
    ensures Ordered(p, t) && Invoke(p, a, "compareTo", [b]) == Some(Num(OrderOf(p, t, a, b)))
    decreases a
  {
    if KeyKind(p, t) == Nested {
      OrderTailMeans(p, t, a, b, 0);
      OrderSplits(p, p.classes[t.name], 0);
      var body := CompareBody(p, p.classes[t.name]);
      assert OrderStmts(p, p.classes[t.name], 0) + OrderTail(p, p.classes[t.name], 0) == OrderTail(p, p.classes[t.name], 0);
      assert BodyOf(p, a.cls, "compareTo") == Some(body);
    }
  }

  // ---- the laws ----

  lemma {:induction false} SameReflexive(p: Program, t: TypeRef, a: Value)
    requires WellTyped(p, t, a)
    ensures Same(p, t, a, a)
    decreases a
  {
    if KeyKind(p, t) == Nested {
      forall i | 0 <= i < |a.fields|
        ensures Same(p, p.classes[t.name][i].typ, a.fields[i], a.fields[i])
      {
        SameReflexive(p, p.classes[t.name][i].typ, a.fields[i]);
      }
    }
  }

  lemma {:induction false} SameSymmetric(p: Program, t: TypeRef, a: Value, b: Value)
    requires WellTyped(p, t, a) && WellTyped(p, t, b) && Same(p, t, a, b)
    ensures Same(p, t, b, a)
    decreases a
  {
    if KeyKind(p, t) == Nested {
      forall i | 0 <= i < |b.fields|
        ensures Same(p, p.classes[t.name][i].typ, b.fields[i], a.fields[i])
      {
        SameSymmetric(p, p.classes[t.name][i].typ, a.fields[i], b.fields[i]);
      }
    }
  }

  lemma {:induction false} SameTransitive(p: Program, t: TypeRef, a: Value, b: Value, c: Value)
    requires WellTyped(p, t, a) && WellTyped(p, t, b) && WellTyped(p, t, c)
    requires Same(p, t, a, b) && Same(p, t, b, c)
    ensures Same(p, t, a, c)
    decreases a
  {
    if KeyKind(p, t) == Nested {
      forall i | 0 <= i < |a.fields|
        ensures Same(p, p.classes[t.name][i].typ, a.fields[i], c.fields[i])
      {
        SameTransitive(p, p.classes[t.name][i].typ, a.fields[i], b.fields[i], c.fields[i]);
      }
    }
  }

  lemma {:induction false} SameHashes(p: Program, t: TypeRef, a: Value, b: Value)
    requires WellTyped(p, t, a) && WellTyped(p, t, b) && KeyKind(p, t) != NoPart && Same(p, t, a, b)
    ensures HashOf(p, t, a) == HashOf(p, t, b)
    decreases a, 1, 0
  {
    hide Wrap;
    if KeyKind(p, t) == Nested {
      SameHashesUpTo(p, t, a, b, |a.fields|);
    }
  }

  lemma {:induction false} SameHashesUpTo(p: Program, t: TypeRef, a: Value, b: Value, n: nat)
    requires WellTyped(p, t, a) && WellTyped(p, t, b) && KeyKind(p, t) == Nested && Same(p, t, a, b) && n <= |a.fields|
    ensures HashUpTo(p, t, a, n) == HashUpTo(p, t, b, n)
    decreases a, 0, n
  {
    hide Wrap;
    if n > 0 {
      var u := p.classes[t.name][n - 1].typ;
      SameHashesUpTo(p, t, a, b, n - 1);
      if KeyKind(p, u) != NoPart {
        SameHashes(p, u, a.fields[n - 1], b.fields[n - 1]);
      }
    }
  }

  lemma {:induction false} SameOrdersEqual(p: Program, t: TypeRef, a: Value, b: Value)
    requires WellTyped(p, t, a) && WellTyped(p, t, b) && Ordered(p, t) && Same(p, t, a, b)
    ensures OrderOf(p, t, a, b) == 0
    decreases a, 1, 0
  {
    match KeyKind(p, t)
    case Scalar =>
    case Text => TextOrderZeroIff(a.s, b.s);
    case Nested => SameOrdersEqualFrom(p, t, a, b, 0);
  }

  lemma {:induction false} SameOrdersEqualFrom(p: Program, t: TypeRef, a: Value, b: Value, i: nat)
    requires WellTyped(p, t, a) && WellTyped(p, t, b) && KeyKind(p, t) == Nested && Same(p, t, a, b) && i <= |a.fields|
    ensures OrderFrom(p, t, a, b, i) == 0
    decreases a, 0, |a.fields| - i
  {
    if i < |a.fields| {
      var u := p.classes[t.name][i].typ;
      if Ordered(p, u) {
        SameOrdersEqual(p, u, a.fields[i], b.fields[i]);
      }
      SameOrdersEqualFrom(p, t, a, b, i + 1);
    }
  }

  lemma {:induction false} TextOrderZeroIff(a: seq<nat>, b: seq<nat>)
    ensures TextOrder(a, b) == 0 <==> a == b
    ensures -1 <= TextOrder(a, b) <= 1 && TextOrder(b, a) == -TextOrder(a, b)
  {
    if a != [] && b != [] && a[0] == b[0] {
      TextOrderZeroIff(a[1..], b[1..]);
      assert a == [a[0]] + a[1..] && b == [b[0]] + b[1..];
    }
  }

  lemma {:induction false} TextOrderTransitive(a: seq<nat>, b: seq<nat>, c: seq<nat>)
    requires TextOrder(a, b) <= 0 && TextOrder(b, c) <= 0
    ensures TextOrder(a, c) <= 0 && (TextOrder(a, c) == 0 ==> TextOrder(a, b) == 0 && TextOrder(b, c) == 0)
  {
    if a != [] && b != [] && c != [] && a[0] == b[0] == c[0] {
      TextOrderTransitive(a[1..], b[1..], c[1..]);
    }
  }

  lemma {:induction false} OrderAntisymmetric(p: Program, t: TypeRef, a: Value, b: Value)
    requires WellTyped(p, t, a) && WellTyped(p, t, b) && Ordered(p, t)
    ensures OrderOf(p, t, b, a) == -OrderOf(p, t, a, b) && -1 <= OrderOf(p, t, a, b) <= 1
    decreases a, 1, 0
  {
    match KeyKind(p, t)
    case Scalar =>
    case Text => TextOrderZeroIff(a.s, b.s);
    case Nested => OrderFromAntisymmetric(p, t, a, b, 0);
  }

  lemma {:induction false} OrderFromAntisymmetric(p: Program, t: TypeRef, a: Value, b: Value, i: nat)
    requires WellTyped(p, t, a) && WellTyped(p, t, b) && KeyKind(p, t) == Nested && i <= |a.fields|
    ensures OrderFrom(p, t, b, a, i) == -OrderFrom(p, t, a, b, i) && -1 <= OrderFrom(p, t, a, b, i) <= 1
    decreases a, 0, |a.fields| - i
  {
    if i < |a.fields| {
      var u := p.classes[t.name][i].typ;
      if Ordered(p, u) {
        OrderAntisymmetric(p, u, a.fields[i], b.fields[i]);
      }
      OrderFromAntisymmetric(p, t, a, b, i + 1);
    }
  }

  /** At most, twice in a row, is at most; and equal only when both steps were. */
  ghost predicate Chains(ab: int, bc: int, ac: int)
  {
    ab <= 0 && bc <= 0 ==> ac <= 0 && (ac == 0 <==> ab == 0 && bc == 0)
  }

  lemma {:induction false} OrderTransitive(p: Program, t: TypeRef, a: Value, b: Value, c: Value)
    requires WellTyped(p, t, a) && WellTyped(p, t, b) && WellTyped(p, t, c) && Ordered(p, t)
    ensures Chains(OrderOf(p, t, a, b), OrderOf(p, t, b, c), OrderOf(p, t, a, c))
    decreases a, 1, 0
  {
    match KeyKind(p, t)
    case Scalar =>
    case Text =>
      if TextOrder(a.s, b.s) <= 0 && TextOrder(b.s, c.s) <= 0 {
        TextOrderTransitive(a.s, b.s, c.s);
        TextOrderZeroIff(a.s, b.s);
        TextOrderZeroIff(b.s, c.s);
      }
    case Nested => OrderFromTransitive(p, t, a, b, c, 0);
  }

  lemma {:induction false} OrderFromTransitive(p: Program, t: TypeRef, a: Value, b: Value, c: Value, i: nat)
    requires WellTyped(p, t, a) && WellTyped(p, t, b) && WellTyped(p, t, c) && KeyKind(p, t) == Nested && i <= |a.fields|
    ensures Chains(OrderFrom(p, t, a, b, i), OrderFrom(p, t, b, c, i), OrderFrom(p, t, a, c, i))
    decreases a, 0, |a.fields| - i
  {
    if i < |a.fields| {
      var u := p.classes[t.name][i].typ;
      if Ordered(p, u) {
        OrderTransitive(p, u, a.fields[i], b.fields[i], c.fields[i]);
      }
      OrderFromTransitive(p, t, a, b, c, i + 1);
    }
  }

  // ---- the laws of the code itself ----

  ghost predicate Answers(p: Program, a: Value, hook: string, args: seq<Value>, n: int)
  {
    Invoke(p, a, hook, args) == Some(Num(n))
  }

  ghost predicate Agrees(p: Program, a: Value, b: Value)
  {
    Invoke(p, a, "equalsKey", [b]) == Some(Bool(true))
  }

  /** A type whose values have hooks: a value type or String. */
  predicate IsKey(p: Program, t: TypeRef) { KeyKind(p, t) == Nested || KeyKind(p, t) == Text }

  /** The generated `equalsKey` never fails and is an equivalence. */
  lemma EqualsIsEquivalence(p: Program, t: TypeRef, a: Value, b: Value, c: Value)
    requires WellFormed(p) && IsKey(p, t) && WellTyped(p, t, a) && WellTyped(p, t, b) && WellTyped(p, t, c)
    ensures Invoke(p, a, "equalsKey", [b]).Some? && Invoke(p, a, "equalsKey", [b]).value.Bool?
    ensures Agrees(p, a, a)
    ensures Agrees(p, a, b) ==> Agrees(p, b, a)
    ensures Agrees(p, a, b) && Agrees(p, b, c) ==> Agrees(p, a, c)
  {
    EqualsMeans(p, t, a, a);
    EqualsMeans(p, t, a, b);
    EqualsMeans(p, t, b, a);
    EqualsMeans(p, t, b, c);
    EqualsMeans(p, t, a, c);
    SameReflexive(p, t, a);
    if Same(p, t, a, b) {
      SameSymmetric(p, t, a, b);
      if Same(p, t, b, c) {
        SameTransitive(p, t, a, b, c);
      }
    }
  }

  /** Keys that `equalsKey` calls equal have one hash and compare 0. */
  lemma EqualKeysHashAndCompareAlike(p: Program, t: TypeRef, a: Value, b: Value)
    requires WellFormed(p) && IsKey(p, t) && WellTyped(p, t, a) && WellTyped(p, t, b) && Agrees(p, a, b)
    ensures Invoke(p, a, "hash", []).Some? && Invoke(p, a, "hash", []) == Invoke(p, b, "hash", [])
    ensures Answers(p, a, "compareTo", [b], 0)
  {
    EqualsMeans(p, t, a, b);
    HashMeans(p, t, a);
    HashMeans(p, t, b);
    CompareMeans(p, t, a, b);
    SameHashes(p, t, a, b);
    SameOrdersEqual(p, t, a, b);
  }

  /** The generated `compareTo` is a total preorder: its answers mirror, and they chain. */
  lemma CompareIsTotalPreorder(p: Program, t: TypeRef, a: Value, b: Value, c: Value, ab: int, bc: int)
    requires WellFormed(p) && IsKey(p, t) && WellTyped(p, t, a) && WellTyped(p, t, b) && WellTyped(p, t, c)
    requires Answers(p, a, "compareTo", [b], ab) && Answers(p, b, "compareTo", [c], bc)
    ensures -1 <= ab <= 1 && Answers(p, b, "compareTo", [a], -ab)
    ensures exists ac :: Answers(p, a, "compareTo", [c], ac) && Chains(ab, bc, ac)
  {
    CompareMeans(p, t, a, b);
    CompareMeans(p, t, b, a);
    CompareMeans(p, t, b, c);
    CompareMeans(p, t, a, c);
    OrderAntisymmetric(p, t, a, b);
    OrderTransitive(p, t, a, b, c);
    assert Answers(p, a, "compareTo", [c], OrderOf(p, t, a, c));
  }

  // ---- when comparing 0 means being equal ----

  /** Value types hold each other by value without going round. */
  ghost predicate Nests(p: Program, rank: string -> nat)
  {
    forall c, i :: c in p.classes && 0 <= i < |p.classes[c]| && KeyKind(p, p.classes[c][i].typ) == Nested ==>
      rank(p.classes[c][i].typ.name) < rank(c)
  }

  /** Every part of the key, at every depth, is a part `compareTo` looks at. */
  ghost predicate FullyOrdered(p: Program, rank: string -> nat, t: TypeRef)
    requires Nests(p, rank)
    decreases if KeyKind(p, t) == Nested then rank(t.name) + 1 else 0
  {
    match KeyKind(p, t)
    case NoPart => true
    case Scalar => t.name in NUMERIC || t.name in p.enums
    case Text => true
    case Nested => forall i :: 0 <= i < |p.classes[t.name]| ==> FullyOrdered(p, rank, p.classes[t.name][i].typ)
  }

  /** Some value of a type. */
  ghost function Default(p: Program, rank: string -> nat, t: TypeRef): (v: Value)
    requires Nests(p, rank)
    ensures WellTyped(p, t, v)
    decreases if KeyKind(p, t) == Nested then rank(t.name) + 1 else 0
  {
    match KeyKind(p, t)
    case NoPart => Opaque(0)
    case Scalar => if t.name == "boolean" && t.name !in p.enums then Bool(false) else Num(0)
    case Text => Str([])
    case Nested =>
      var fields := p.classes[t.name];
      Record(t.name, seq(|fields|, i requires 0 <= i < |fields| => Default(p, rank, fields[i].typ)))
  }

  /** Where some part is not looked at, two different keys compare 0. */
  lemma {:induction false} Indistinguishable(p: Program, rank: string -> nat, t: TypeRef) returns (a: Value, b: Value)
    requires WellFormed(p) && Nests(p, rank) && !FullyOrdered(p, rank, t)
    ensures WellTyped(p, t, a) && WellTyped(p, t, b) && !Same(p, t, a, b)
    ensures Ordered(p, t) ==> OrderOf(p, t, a, b) == 0
    decreases if KeyKind(p, t) == Nested then rank(t.name) + 1 else 0
  {
    if KeyKind(p, t) == Scalar {
      if t.name == "boolean" && t.name !in p.enums {
        a, b := Bool(false), Bool(true);
      } else {
        a, b := Num(0), Num(1);
      }
    } else {
      var fields := p.classes[t.name];
      var i :| 0 <= i < |fields| && !FullyOrdered(p, rank, fields[i].typ);
      var x, y := Indistinguishable(p, rank, fields[i].typ);
      var d := Default(p, rank, t);
      a, b := Record(t.name, d.fields[i := x]), Record(t.name, d.fields[i := y]);
      assert !Same(p, fields[i].typ, a.fields[i], b.fields[i]);
      DifferInOneField(p, t, a, b, i, 0);
    }
  }

  lemma {:induction false} DifferInOneField(p: Program, t: TypeRef, a: Value, b: Value, k: nat, i: nat)
    requires WellTyped(p, t, a) && WellTyped(p, t, b) && KeyKind(p, t) == Nested && k < |a.fields| && i <= |a.fields|
    requires forall j :: 0 <= j < |a.fields| && j != k ==> a.fields[j] == b.fields[j]
    requires var u := p.classes[t.name][k].typ; Ordered(p, u) ==> OrderOf(p, u, a.fields[k], b.fields[k]) == 0
    ensures OrderFrom(p, t, a, b, i) == 0
    decreases |a.fields| - i
  {
    if i < |a.fields| {
      DifferInOneField(p, t, a, b, k, i + 1);
      if i != k {
        OrdersItselfEqual(p, p.classes[t.name][i].typ, a.fields[i]);
      }
    }
  }

  lemma OrdersItselfEqual(p: Program, t: TypeRef, a: Value)
    requires WellTyped(p, t, a)
    ensures Ordered(p, t) ==> OrderOf(p, t, a, a) == 0
  {
    SameReflexive(p, t, a);
    if Ordered(p, t) {
      SameOrdersEqual(p, t, a, a);
    }
  }

  lemma {:induction false} ZeroMeansSame(p: Program, rank: string -> nat, t: TypeRef, a: Value, b: Value)
    requires Nests(p, rank) && FullyOrdered(p, rank, t) && Ordered(p, t)
    requires WellTyped(p, t, a) && WellTyped(p, t, b) && OrderOf(p, t, a, b) == 0
    ensures Same(p, t, a, b)
    decreases a, 1, 0
  {
    match KeyKind(p, t)
    case Scalar =>
    case Text => TextOrderZeroIff(a.s, b.s);
    case Nested =>
      forall i | 0 <= i < |a.fields|
        ensures Same(p, p.classes[t.name][i].typ, a.fields[i], b.fields[i])
      {
        ZeroFromMeans(p, rank, t, a, b, 0, i);
      }
  }

  lemma {:induction false} ZeroFromMeans(p: Program, rank: string -> nat, t: TypeRef, a: Value, b: Value, i: nat, k: nat)
    requires Nests(p, rank) && FullyOrdered(p, rank, t) && KeyKind(p, t) == Nested
    requires WellTyped(p, t, a) && WellTyped(p, t, b) && i <= k < |a.fields| && OrderFrom(p, t, a, b, i) == 0
    ensures Same(p, p.classes[t.name][k].typ, a.fields[k], b.fields[k])
    decreases a, 0, |a.fields| - i
  {
    var u := p.classes[t.name][i].typ;
    if i < k {
      ZeroFromMeans(p, rank, t, a, b, i + 1, k);
    } else if KeyKind(p, u) != NoPart {
      assert FullyOrdered(p, rank, u);
      ZeroMeansSame(p, rank, u, a.fields[i], b.fields[i]);
    }
  }

  /** Comparing 0 always means equal keys exactly for the types whose every key part is ordered. */
  lemma CompareDecidesEqualityIff(p: Program, rank: string -> nat, t: TypeRef)
    requires WellFormed(p) && Nests(p, rank) && IsKey(p, t)
    ensures FullyOrdered(p, rank, t) <==>
      forall a, b :: WellTyped(p, t, a) && WellTyped(p, t, b) && Answers(p, a, "compareTo", [b], 0) ==> Agrees(p, a, b)
  {
    if FullyOrdered(p, rank, t) {
      forall a, b | WellTyped(p, t, a) && WellTyped(p, t, b) && Answers(p, a, "compareTo", [b], 0)
        ensures Agrees(p, a, b)
      {
        CompareMeans(p, t, a, b);
        EqualsMeans(p, t, a, b);
        ZeroMeansSame(p, rank, t, a, b);
      }
    } else {
      var a, b := Indistinguishable(p, rank, t);
      CompareMeans(p, t, a, b);
      EqualsMeans(p, t, a, b);
      assert Answers(p, a, "compareTo", [b], 0) && !Agrees(p, a, b);
    }
  }
}