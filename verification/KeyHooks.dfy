/**
 The collection-keying hooks the compiler writes for value types: `equalsKey`, `hash` and
 `compareTo`. The generator builds syntax trees; the interpreter here runs them on values.
 */
module KeyHooks {
  import opened Options

  // ---- types and programs ----

  datatype TypeRef = TypeRef(name: string, isArray: bool, isPointer: bool, isRef: bool, isNullable: bool)
  datatype FieldDecl = FieldDecl(name: string, typ: TypeRef)

  /** The value types of a program with their instance fields, the enums that stayed ordinals, and String's hash. */
  datatype Program = Program(classes: map<string, seq<FieldDecl>>, enums: set<string>, textHash: seq<nat> -> int)

  datatype Kind = NoPart | Scalar | Text | Nested

  const SCALARS: set<string> := {
    "byte", "ubyte", "short", "ushort", "int", "uint", "long", "ulong", "address",
    "smallfloat", "float", "double", "quadruple", "char", "boolean",
    "int8", "int16", "int32", "int64", "uint8", "uint16", "uint32", "uint64",
    "float32", "float64", "usize", "isize"}

  /** The scalars `compareTo` orders by `<`: six of the scalar names are not among them. */
  const NUMERIC: set<string> := {
    "byte", "short", "int", "long", "smallfloat", "float", "double", "quadruple", "char",
    "int8", "int16", "int32", "int64", "uint8", "uint16", "uint32", "uint64",
    "float32", "float64", "usize", "isize"}

  /** What part, if any, a field of this type has in a key. */
  function KeyKind(p: Program, t: TypeRef): Kind
  {
    if t.isArray || t.isPointer || t.isRef || t.isNullable then NoPart
    else if t.name == "String" then Text
    else if t.name in p.classes then Nested
    else if t.name in p.enums then Scalar
    else if t.name in SCALARS then Scalar
    else NoPart
  }

  // ---- values ----

  datatype Value =
    | Num(n: int)                                  // every scalar but boolean; an enum by its ordinal
    | Bool(b: bool)
    | Str(s: seq<nat>)
    | Record(cls: string, fields: seq<Value>)
    | Opaque(id: nat)                              // what is never part of a key

  ghost predicate WellTyped(p: Program, t: TypeRef, v: Value)
    decreases v
  {
    match KeyKind(p, t)
    case NoPart => true
    case Scalar => if t.name == "boolean" && t.name !in p.enums then v.Bool? else v.Num?
    case Text => v.Str?
    case Nested =>
      && v.Record? && v.cls == t.name && |v.fields| == |p.classes[t.name]|
      && forall i :: 0 <= i < |v.fields| ==> WellTyped(p, p.classes[t.name][i].typ, v.fields[i])
  }

  /** The field names of a value type are distinct, and no enum or value type takes a built-in name. */
  ghost predicate WellFormed(p: Program)
  {
    && (forall c, i, j :: c in p.classes && 0 <= i < j < |p.classes[c]| ==>
          p.classes[c][i].name != p.classes[c][j].name)
    && (forall c :: c in p.classes ==> c != "String" && c !in SCALARS)
    && (forall e :: e in p.enums ==> e !in SCALARS)
  }

  // ---- the generated code ----

  datatype Op = EqOp | NeOp | LtOp | GtOp | AndOp | AddOp | MulOp

  datatype Expr =
    | Field(owner: string, name: string)
    | IntLit(n: int)
    | BoolLit(b: bool)
    | Cast(target: string, operand: Expr)
    | Binary(op: Op, l: Expr, r: Expr)
    | Ternary(cond: Expr, t: Expr, e: Expr)
    | Call(recv: Expr, hook: string, args: seq<Expr>)

  datatype Stmt = Return(e: Expr) | If(cond: Expr, then_: Expr)     // `if (cond) return then_;`

  function OfThis(f: FieldDecl): Expr { Field("this", f.name) }
  function OfOther(f: FieldDecl): Expr { Field("other", f.name) }

  /** How `equalsKey` compares one field. */
  function FieldEquals(p: Program, f: FieldDecl): Expr
  {
    if KeyKind(p, f.typ) == Scalar then Binary(EqOp, OfThis(f), OfOther(f))
    else Call(OfThis(f), "equalsKey", [OfOther(f)])
  }

  /** The conjunction over the first `n` fields, if any has a part in the key. */
  function EqualsExpr(p: Program, fields: seq<FieldDecl>, n: nat): Option<Expr>
    requires n <= |fields|
  {
    if n == 0 then None
    else
      var before := EqualsExpr(p, fields, n - 1);
      var f := fields[n - 1];
      if KeyKind(p, f.typ) == NoPart then before
      else if before.None? then Some(FieldEquals(p, f))
      else Some(Binary(AndOp, before.value, FieldEquals(p, f)))
  }

  function EqualsBody(p: Program, fields: seq<FieldDecl>): seq<Stmt>
  {
    var e := EqualsExpr(p, fields, |fields|);
    [Return(if e.Some? then e.value else BoolLit(true))]
  }

  function Long(e: Expr): Expr { Cast("long", e) }

  /** What one field contributes to the hash. */
  function FieldHash(p: Program, f: FieldDecl): Expr
  {
    if KeyKind(p, f.typ) != Scalar then Call(OfThis(f), "hash", [])
    else if f.typ.name == "boolean" then Ternary(OfThis(f), Long(IntLit(1)), Long(IntLit(0)))
    else Long(OfThis(f))
  }

  function HashExpr(p: Program, fields: seq<FieldDecl>, n: nat): Expr
    requires n <= |fields|
  {
    if n == 0 then Long(IntLit(17))
    else
      var before := HashExpr(p, fields, n - 1);
      var f := fields[n - 1];
      if KeyKind(p, f.typ) == NoPart then before
      else Binary(AddOp, Binary(MulOp, before, Long(IntLit(31))), FieldHash(p, f))
  }

  function HashBody(p: Program, fields: seq<FieldDecl>): seq<Stmt>
  {
    [Return(HashExpr(p, fields, |fields|))]
  }

  /** The statements that order by one field. */
  function FieldOrder(p: Program, f: FieldDecl): seq<Stmt>
  {
    var t := f.typ.name;
    if KeyKind(p, f.typ) == NoPart then []
    else if t == "String" || t in p.classes then
      var c := Call(OfThis(f), "compareTo", [OfOther(f)]);
      [If(Binary(NeOp, c, IntLit(0)), c)]
    else if t in NUMERIC then
      [If(Binary(LtOp, OfThis(f), OfOther(f)), IntLit(-1)), If(Binary(GtOp, OfThis(f), OfOther(f)), IntLit(1))]
    else if t in p.enums then
      [If(Binary(LtOp, Cast("int", OfThis(f)), Cast("int", OfOther(f))), IntLit(-1)),
       If(Binary(GtOp, Cast("int", OfThis(f)), Cast("int", OfOther(f))), IntLit(1))]
    else []
  }

  function OrderStmts(p: Program, fields: seq<FieldDecl>, n: nat): seq<Stmt>
    requires n <= |fields|
  {
    if n == 0 then [] else OrderStmts(p, fields, n - 1) + FieldOrder(p, fields[n - 1])
  }

  function CompareBody(p: Program, fields: seq<FieldDecl>): seq<Stmt>
  {
    OrderStmts(p, fields, |fields|) + [Return(IntLit(0))]
  }

  // ---- the generator ----

  datatype MethodDecl = MethodDecl(name: string, body: seq<Stmt>)

  class ClassDecl {
    const name: string
    const fields: seq<FieldDecl>
    var methods: seq<MethodDecl>

    constructor (name: string, fields: seq<FieldDecl>, methods: seq<MethodDecl>)
      ensures this.name == name && this.fields == fields && this.methods == methods
    {
      this.name, this.fields, this.methods := name, fields, methods;
    }

    predicate Has(hook: string)
      reads this
    {
      exists i :: 0 <= i < |methods| && methods[i].name == hook
    }

    method BuildEquals(p: Program) returns (body: seq<Stmt>)
      ensures body == EqualsBody(p, fields)
    {
      var expr: Option<Expr> := None;
      for i := 0 to |fields|
        invariant expr == EqualsExpr(p, fields, i)
      {
        var f := fields[i];
        var kind := KeyKind(p, f.typ);
        if kind != NoPart {
          var cmp := if kind == Scalar then Binary(EqOp, OfThis(f), OfOther(f))
                     else Call(OfThis(f), "equalsKey", [OfOther(f)]);
          expr := if expr.Some? then Some(Binary(AndOp, expr.value, cmp)) else Some(cmp);
        }
      }
      if expr.None? {
        expr := Some(BoolLit(true));
      }
      body := [Return(expr.value)];
    }

    method BuildHash(p: Program) returns (body: seq<Stmt>)
      ensures body == HashBody(p, fields)
    {
      var acc := Long(IntLit(17));
      for i := 0 to |fields|
        invariant acc == HashExpr(p, fields, i)
      {
        var f := fields[i];
        var kind := KeyKind(p, f.typ);
        if kind != NoPart {
          var contrib;
          if kind != Scalar {
            contrib := Call(OfThis(f), "hash", []);
          } else if f.typ.name == "boolean" {
            contrib := Ternary(OfThis(f), Long(IntLit(1)), Long(IntLit(0)));
          } else {
            contrib := Long(OfThis(f));
          }
          acc := Binary(AddOp, Binary(MulOp, acc, Long(IntLit(31))), contrib);
        }
      }
      body := [Return(acc)];
    }

    method BuildCompare(p: Program) returns (body: seq<Stmt>)
      ensures body == CompareBody(p, fields)
    {
      body := [];
      for i := 0 to |fields|
        invariant body == OrderStmts(p, fields, i)
      {
        body := body + FieldOrder(p, fields[i]);
      }
      body := body + [Return(IntLit(0))];
    }

    /** Push each hook the class does not already declare. */
    method SynthesizeHooks(p: Program)
      modifies this
      ensures methods == old(methods)
        + (if old(Has("equalsKey")) then [] else [MethodDecl("equalsKey", EqualsBody(p, fields))])
        + (if old(Has("hash")) then [] else [MethodDecl("hash", HashBody(p, fields))])
        + (if old(Has("compareTo")) then [] else [MethodDecl("compareTo", CompareBody(p, fields))])
    {
      var hasEq, hasHash, hasCmp := Has("equalsKey"), Has("hash"), Has("compareTo");
      if !hasEq {
        var body := BuildEquals(p);
        methods := methods + [MethodDecl("equalsKey", body)];
      }
      if !hasHash {
        var body := BuildHash(p);
        methods := methods + [MethodDecl("hash", body)];
      }
      if !hasCmp {
        var body := BuildCompare(p);
        methods := methods + [MethodDecl("compareTo", body)];
      }
    }
  }

  // ---- the interpreter ----

  const TWO63: int := 0x8000_0000_0000_0000
  const TWO64: int := 0x1_0000_0000_0000_0000

  /** Two's complement 64-bit wrap-around. */
  function Wrap(n: int): int { (n + TWO63) % TWO64 - TWO63 }

  /** Lexicographic order of texts: -1, 0 or 1. */
  function TextOrder(a: seq<nat>, b: seq<nat>): int
  {
    if a == [] then (if b == [] then 0 else -1)
    else if b == [] then 1
    else if a[0] < b[0] then -1
    else if a[0] > b[0] then 1
    else TextOrder(a[1..], b[1..])
  }

  /** String's own hooks. */
  function TextHook(p: Program, s: seq<nat>, hook: string, args: seq<Value>): Option<Value>
  {
    if hook == "hash" && args == [] then Some(Num(p.textHash(s)))
    else if hook == "equalsKey" && |args| == 1 && args[0].Str? then Some(Bool(s == args[0].s))
    else if hook == "compareTo" && |args| == 1 && args[0].Str? then Some(Num(TextOrder(s, args[0].s)))
    else None
  }

  function FieldIndex(fields: seq<FieldDecl>, name: string): (i: nat)
    ensures i <= |fields|
    ensures i < |fields| ==> fields[i].name == name
  {
    if fields == [] || fields[0].name == name then 0 else 1 + FieldIndex(fields[1..], name)
  }

  /** The value of a field of a record, as its class declares it. */
  function Load(p: Program, v: Value, name: string): (r: Option<Value>)
    ensures r.Some? ==> v.Record? && r.value in v.fields
  {
    if v.Record? && v.cls in p.classes && |v.fields| == |p.classes[v.cls]| && FieldIndex(p.classes[v.cls], name) < |v.fields|
    then Some(v.fields[FieldIndex(p.classes[v.cls], name)])
    else None
  }

  function BodyOf(p: Program, cls: string, hook: string): Option<seq<Stmt>>
    requires cls in p.classes
  {
    if hook == "equalsKey" then Some(EqualsBody(p, p.classes[cls]))
    else if hook == "hash" then Some(HashBody(p, p.classes[cls]))
    else if hook == "compareTo" then Some(CompareBody(p, p.classes[cls]))
    else None
  }

  function Apply(op: Op, x: Value, y: Value): Option<Value>
  {
    match op
    case EqOp => if x.Num? && y.Num? then Some(Bool(x.n == y.n)) else if x.Bool? && y.Bool? then Some(Bool(x.b == y.b)) else None
    case NeOp => if x.Num? && y.Num? then Some(Bool(x.n != y.n)) else None
    case LtOp => if x.Num? && y.Num? then Some(Bool(x.n < y.n)) else None
    case GtOp => if x.Num? && y.Num? then Some(Bool(x.n > y.n)) else None
    case AddOp => if x.Num? && y.Num? then Some(Num(Wrap(x.n + y.n))) else None
    case MulOp => if x.Num? && y.Num? then Some(Num(Wrap(x.n * y.n))) else None
    case AndOp => None
  }

  /** The value of `e` where `this` is `self` and the parameter is `args`; none when the code is ill-typed. */
  function Eval(p: Program, self: Value, args: seq<Value>, e: Expr): Option<Value>
    decreases self, 0, e
  {
    match e
    case IntLit(n) => Some(Num(n))
    case BoolLit(b) => Some(Bool(b))
    case Field(owner, name) =>
      if owner == "this" then Load(p, self, name)
      else if owner == "other" && |args| == 1 then Load(p, args[0], name)
      else None
    case Cast(target, operand) =>
      var x := Eval(p, self, args, operand);
      if x.None? || !x.value.Num? then None
      else if target == "long" then Some(Num(Wrap(x.value.n)))
      else Some(x.value)
    case Ternary(c, t, f) =>
      var x := Eval(p, self, args, c);
      if x.None? || !x.value.Bool? then None
      else if x.value.b then Eval(p, self, args, t)
      else Eval(p, self, args, f)
    case Binary(op, l, r) =>
      var x := Eval(p, self, args, l);
      if x.None? then None
      else if op == AndOp && x.value == Bool(false) then x
      else
        var y := Eval(p, self, args, r);
        if y.None? then None
        else if op == AndOp then (if x.value == Bool(true) && y.value.Bool? then y else None)
        else Apply(op, x.value, y.value)
    case Call(recv, hook, params) =>
      // the generated code calls hooks on fields of `this` only, with a field of the parameter or nothing
      if recv.Field? && recv.owner == "this" && (params == [] || (|params| == 1 && params[0].Field? && params[0].owner == "other")) then
        var x := Load(p, self, recv.name);
        if x.None? then None
        else if params == [] then Invoke(p, x.value, hook, [])
        else
          var y := Eval(p, self, args, params[0]);
          if y.None? then None else Invoke(p, x.value, hook, [y.value])
      else None
  }

  /** The first return that is reached. */
  function Exec(p: Program, self: Value, args: seq<Value>, body: seq<Stmt>): Option<Value>
    decreases self, 1, |body|
  {
    if body == [] then None
    else
      match body[0]
      case Return(e) => Eval(p, self, args, e)
      case If(cond, result) =>
        var c := Eval(p, self, args, cond);
        if c.None? || !c.value.Bool? then None
        else if c.value.b then Eval(p, self, args, result)
        else Exec(p, self, args, body[1..])
  }

  /** Calling a hook of a value: the generated body of its class, or String's own. */
  function Invoke(p: Program, recv: Value, hook: string, args: seq<Value>): Option<Value>
    decreases recv, 2
  {
    match recv
    case Str(s) => TextHook(p, s, hook, args)
    case Record(cls, _) =>
      if cls in p.classes && BodyOf(p, cls, hook).Some? then Exec(p, recv, args, BodyOf(p, cls, hook).value) else None
    case _ => None
  }

  // ---- what the hooks mean ----

  /** Equal in every part of the key. */
  ghost predicate Same(p: Program, t: TypeRef, a: Value, b: Value)
    requires WellTyped(p, t, a) && WellTyped(p, t, b)
    decreases a
  {
    match KeyKind(p, t)
    case NoPart => true
    case Scalar => a == b
    case Text => a == b
    case Nested => forall i :: 0 <= i < |a.fields| ==> Same(p, p.classes[t.name][i].typ, a.fields[i], b.fields[i])
  }

  ghost function HashOf(p: Program, t: TypeRef, a: Value): int
    requires WellTyped(p, t, a) && KeyKind(p, t) != NoPart
    decreases a, 0
  {
    match KeyKind(p, t)
    case Scalar => if a.Bool? then (if a.b then 1 else 0) else Wrap(a.n)
    case Text => p.textHash(a.s)
    case Nested => HashUpTo(p, t, a, |a.fields|)
  }

  /** The hash over the first `n` fields. */
  ghost function HashUpTo(p: Program, t: TypeRef, a: Value, n: nat): int
    requires WellTyped(p, t, a) && KeyKind(p, t) == Nested && n <= |a.fields|
    decreases a, 0, n
  {
    if n == 0 then 17
    else
      var before := HashUpTo(p, t, a, n - 1);
      var u := p.classes[t.name][n - 1].typ;
      if KeyKind(p, u) == NoPart then before
      else Wrap(Wrap(before * 31) + HashOf(p, u, a.fields[n - 1]))
  }

  /** Whether `compareTo` looks at fields of this type. */
  predicate Ordered(p: Program, t: TypeRef)
  {
    && KeyKind(p, t) != NoPart
    && (t.name == "String" || t.name in p.classes || t.name in NUMERIC || t.name in p.enums)
  }

  function Sign(a: int, b: int): int { if a < b then -1 else if a > b then 1 else 0 }

  /** -1, 0 or 1. */
  ghost function OrderOf(p: Program, t: TypeRef, a: Value, b: Value): int
    requires WellTyped(p, t, a) && WellTyped(p, t, b) && Ordered(p, t)
    decreases a, 0
  {
    match KeyKind(p, t)
    case Scalar => if a.Num? && b.Num? then Sign(a.n, b.n) else 0
    case Text => TextOrder(a.s, b.s)
    case Nested => OrderFrom(p, t, a, b, 0)
  }

  /** What the fields from `i` on decide. */
  ghost function OrderFrom(p: Program, t: TypeRef, a: Value, b: Value, i: nat): int
    requires WellTyped(p, t, a) && WellTyped(p, t, b) && KeyKind(p, t) == Nested && i <= |a.fields|
    decreases a, 0, |a.fields| - i
  {
    if i == |a.fields| then 0
    else
      var u := p.classes[t.name][i].typ;
      var c := if Ordered(p, u) then OrderOf(p, u, a.fields[i], b.fields[i]) else 0;
      if c != 0 then c else OrderFrom(p, t, a, b, i + 1)
  }
}
