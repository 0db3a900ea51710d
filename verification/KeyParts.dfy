/** Which fields are part of a key: the built-in types by family, enums, text and other value types. */
module KeyParts {
  import opened KeyHooks
  import opened KeyHookLaws
  import opened Options

  // ---- the built-in types ----

  const SIGNED: set<string> := {"byte", "short", "int", "long", "int8", "int16", "int32", "int64", "isize"}
  const UNSIGNED: set<string> := {"ubyte", "ushort", "uint", "ulong", "uint8", "uint16", "uint32", "uint64", "usize"}
  const FLOATING: set<string> := {"smallfloat", "float", "double", "quadruple", "float32", "float64"}

  /** A value that is in the field itself, not behind a pointer, a reference or an array. */
  predicate Held(t: TypeRef) { !t.isArray && !t.isPointer && !t.isRef && !t.isNullable }

  predicate BuiltIn(name: string)
  {
    name in SIGNED || name in UNSIGNED || name in FLOATING || name in {"char", "boolean", "address"}
  }

  /** A field is part of the key exactly when its value is held in it and its type is built in, an enum,
      String or a value type. */
  lemma KeyPartIff(p: Program, t: TypeRef)
    ensures KeyKind(p, t) != NoPart <==>
      Held(t) && (BuiltIn(t.name) || t.name in p.enums || t.name == "String" || t.name in p.classes)
    ensures WellFormed(p) && Held(t) && BuiltIn(t.name) && t.name != "String" ==> KeyKind(p, t) == Scalar
  {
    assert t.name in SCALARS <==> BuiltIn(t.name);
    assert !BuiltIn("String");
  }

  /** A built-in field takes part in the ordering unless it is boolean, an address or one of the short unsigned names. */
  lemma OrderedIff(name: string)
    ensures name in NUMERIC <==> BuiltIn(name) && name !in {"boolean", "address", "ubyte", "ushort", "uint", "ulong"}
  {
  }

  /** Two values that differ in a field of built-in type are different keys, whatever their other fields. */
  lemma EveryBuiltInFieldCounts(p: Program, t: TypeRef, a: Value, b: Value, i: nat)
    requires WellFormed(p) && KeyKind(p, t) == Nested && WellTyped(p, t, a) && WellTyped(p, t, b) && i < |a.fields|
    requires Held(p.classes[t.name][i].typ) && BuiltIn(p.classes[t.name][i].typ.name)
    ensures a.fields[i] != b.fields[i] ==> Invoke(p, a, "equalsKey", [b]) == Some(Bool(false))
  {
    var f := p.classes[t.name][i];
    EqualsMeans(p, t, a, b);
    KeyPartIff(p, f.typ);
    assert !BuiltIn("String");
    if a.fields[i] != b.fields[i] {
      assert !Same(p, f.typ, a.fields[i], b.fields[i]);
      assert !Same(p, t, a, b);
    }
  }

  /** A field that is not part of the key changes nothing. */
  lemma OtherFieldsDoNot(p: Program, t: TypeRef, a: Value, b: Value)
    requires WellFormed(p) && KeyKind(p, t) == Nested && WellTyped(p, t, a) && WellTyped(p, t, b)
    requires forall i :: 0 <= i < |a.fields| && a.fields[i] != b.fields[i] ==> KeyKind(p, p.classes[t.name][i].typ) == NoPart
    ensures Invoke(p, a, "equalsKey", [b]) == Some(Bool(true))
  {
    EqualsMeans(p, t, a, b);
    forall i | 0 <= i < |a.fields| ensures Same(p, p.classes[t.name][i].typ, a.fields[i], b.fields[i]) {
      if a.fields[i] == b.fields[i] { SameReflexive(p, p.classes[t.name][i].typ, a.fields[i]); }
    }
  }
}
